# pychallonge core, modelled in Dafny

pychallonge is a Python client for the challonge.com tournament service.
Its logic lives in `challonge/api.py`; the tournament, participant and
match modules only plug paths into it. This project models the four pure
parts of that file and proves properties about them.

- **Field decoding** (`_dictify_element`). Each child of a response
  element becomes one record entry, keyed by its tag. A child whose `nil`
  attribute is non-empty is null. Otherwise its text is converted by its
  `type` attribute: boolean, integer, decimal or datetime. A missing,
  empty or unknown type gives the text verbatim. Modules: `Xml` (the
  parsed element), `NumericText` (integer and exact-decimal literals) and
  `FieldDecoder`.
- **Parameter namespacing** (`_verbosify_parameters`). Every key `k`
  becomes `prefix[k]` and keeps its value. Module `Parameters`.
- **Request shape** (the top of `fetch`). The URL is
  `https://challonge.com/api/<uri>.xml`. A GET puts the encoded parameters
  after `?`; every other verb sends them as the request data. Module `Fetch`.
- **Error classification** (the `except` branch of `fetch`). A 422 whose
  body is an `errors` document becomes a `ChallongeException` carrying the
  children's texts in order. A 422 whose body does not parse raises the
  XML parser's error. Every other HTTP error is re-raised. Module `Fetch`.

`DecoderExamples` states what the decoder yields on literal documents. `Wrappers` holds
`Option` and `Result`.

Inputs that the model takes as parameters:
- the datetime parser: `string -> Option<D>`, where the datetime type `D`
  is a type parameter;
- the form encoder `urlencode`: `P -> string`;
- the opener (transport plus Basic-Auth): `Request -> Reply`;
- the parsed XML tree: an `Element` value.

Edge cases of the code that the model keeps, some of which a reader of the
docstrings might not expect:
- `nil="false"` is null too, because any non-empty attribute is truthy.
- A boolean field with no text is an error, not `false` (`None.lower()`
  fails).
- Only the exact verb `"GET"` carries a query string. A DELETE sends its
  parameters as data, like a POST.
- An `errors` document with no children gives a `ChallongeException` with
  no arguments.
- A 422 whose body does not parse raises the XML parser's error. It is
  neither re-raised nor wrapped.

## Model

| member | source | states |
|---|---|---|
| `FieldDecoder.DecodeField` | challonge/api.py:81-93 | Per branch: nil wins over every type and text. An absent, empty or unrecognised type yields the text verbatim, `None` included. A typed field without text fails. A boolean is true exactly for the letter-case variants of "true" and never fails on text. An integer is the signed integer its literal denotes, and malformed text fails. A decimal has the exact value its literal denotes, is negative iff the text starts with '-', and has the fraction digit count as its scale; malformed text fails. A datetime is the date parser's result, and its rejection is a Malformed error naming the tag and the text. |
| `FieldDecoder.LowerIsTrueIff` | challonge/api.py:85 | `text.lower() == "true"` holds iff the text is four letters t/T, r/R, u/U, e/E, in both directions. |
| `FieldDecoder.DecodeChildren` | challonge/api.py:79-96 | The loop over children succeeds iff every child decodes. |
| `FieldDecoder.DecodeChildrenFirstFailure` | challonge/api.py:80-95 | A failed record reports the error of the first failing child in document order. Every earlier child decodes. |
| `FieldDecoder.DecodeChildrenKeys` | challonge/api.py:79-96 | The record's key set is exactly the set of child tags. |
| `FieldDecoder.DecodeChildrenLastWins` | challonge/api.py:95 | Under each tag, the record holds the value of the last child with that tag. Later duplicates overwrite earlier ones. |
| `FieldDecoder.DictifyElement` | challonge/api.py:77-96 | `_dictify_element(element)`: succeeds iff all children decode. On failure it reports the first failing child's error. The keys are the child tags, and each holds its last child's value. |
| `FieldDecoder.ReorderedChildrenSameRecord` | challonge/api.py:79-96 | When no two children share a tag and all decode, any rearrangement of the children gives the same record: order carries no meaning. |
| `FieldDecoder.RearrangementKeepsTagsDistinct` | challonge/api.py:79-95 | Rearranging children whose tags are distinct keeps them distinct, so no rearrangement can introduce an overwrite. |
| `NumericText.ParseInt` | challonge/api.py:90-91 | `int(text)` on sign-and-digits syntax. It succeeds iff the text is an integer literal, and the result is the integer the literal denotes in positional notation. |
| `NumericText.IntTextRoundTrip` | challonge/api.py:90-91 | Every integer spelled canonically parses back to itself. |
| `NumericText.DigitsValueIsPositional` | challonge/api.py:90-91 | Accumulating digits left to right gives the positional value of the digit string. |
| `NumericText.ParseDecimal` | challonge/api.py:88-89 | `decimal.Decimal(text)`: succeeds iff the text is a decimal literal, that is an optional sign then digits with at most one point and at least one digit. The sign is negative iff the text starts with '-'. The scale is the number of fraction digits, so "3.50" has scale 2. |
| `NumericText.DecimalTextSplits` | challonge/api.py:88-89 | A text is a decimal literal iff the digits before its point and the digits after it are all digits and not both empty. |
| `NumericText.ParseDecimalExact` | challonge/api.py:88-89 | A parsed decimal's exact rational value equals the value its literal denotes. There is no binary rounding. |
| `NumericText.DecimalTextRoundTrip` | challonge/api.py:88-89 | Every decimal, spelled with exactly its scale in fraction digits, parses back to the same sign, coefficient and scale. This includes negative zero. |
| `Parameters.Verbosify` | challonge/api.py:98-104 | Every key `k` appears as `prefix[k]` with its value unchanged. Every output name is `prefix[k]` for some input key `k`. |
| `Parameters.BracketedInjective` | challonge/api.py:102 | Under one prefix, distinct keys get distinct names. |
| `Parameters.VerbosifyRoundTrip` | challonge/api.py:98-104 | Stripping the prefix from every name gives back the original parameters. |
| `Parameters.VerbosifySize` | challonge/api.py:100-102 | The output keys are exactly the namespaced input keys, and the output has as many entries as the input. |
| `Parameters.VerbosifyTwo` | challonge/api.py:98-104 | Two distinct parameters become exactly the two namespaced fields with the same values. |
| `Parameters.TournamentExample` | challonge/api.py:98-104 | `{name: "Foo", url: "bar"}` under "tournament" becomes `{"tournament[name]": "Foo", "tournament[url]": "bar"}`. |
| `Fetch.BuildRequest` | challonge/api.py:36-45 | The request keeps the verb. It has no data iff the verb is exactly "GET". A GET's URL is the endpoint, "?" and the encoded parameters; the "?" is there even when the encoding is empty. Any other verb uses the bare endpoint and sends the encoding as data. |
| `Fetch.EndpointShape` | challonge/api.py:39 | The endpoint is `https://challonge.com/api/` + resource path + `.xml`. |
| `Fetch.ResourcePathOfEndpoint` | challonge/api.py:39 | The resource path can be recovered from its endpoint URL, so distinct paths never share a URL. |
| `Fetch.ParametersTravelOnce` | challonge/api.py:36-44 | For every verb, the encoded parameters are carried whole and exactly once: in the query string or in the data. |
| `Fetch.GetMovesParametersIntoUrl` | challonge/api.py:40-44 | A GET's URL equals another verb's URL followed by "?" and that verb's data. |
| `Fetch.ClassifyHttpError` | challonge/api.py:60-68 | Any status other than 422 is re-raised, and its body is never read. A 422 becomes a ChallongeException iff its parsed body is rooted at "errors". The arguments are the root's children's texts, one per child, in document order, and the list may be empty. A 422 rooted elsewhere is re-raised. A 422 whose body does not parse is an XML error. |
| `Fetch.ValidationMessagesSurface` | challonge/api.py:64-68 | An error document built from any list of messages, the empty list included, classifies to exactly those messages in order. |
| `Fetch.Fetch` | challonge/api.py:34-70 | The opener is sent BuildRequest's request. A response is returned unconsumed. HTTP errors are classified as above: a ChallongeException carries exactly the classified messages, a 422 with an unparsable body raises the XML error, and a re-raised error keeps its status. A connection failure propagates. |
| `Fetch.FetchSurfacesMessages` | challonge/api.py:60-68 | When the opener answers 422 with an `errors` document built from any list of messages, fetch raises a ChallongeException whose arguments are exactly those messages in order. |
| `Fetch.OnlyValidationStatusIsWrapped` | challonge/api.py:60-68 | Whenever fetch raises a ChallongeException, the opener answered with status 422. |
| `DecoderExamples.NilFalseIsNull` | challonge/api.py:82-83 | An integer field with `nil="false"` and text "abc" decodes to null. |
| `DecoderExamples.BooleanSpellings` | challonge/api.py:84-85 | "TRUE" and "True" decode to true. "1", "yes" and "false" decode to false. |
| `DecoderExamples.EmptyBooleanFails` | challonge/api.py:84-85 | A boolean field without text is a MissingText error. |
| `DecoderExamples.EmptyStringField` | challonge/api.py:81-93 | With an empty type attribute and no text, a field decodes to the string value None. |
| `DecoderExamples.DecimalKeepsScale` | challonge/api.py:88-89 | "3.50" decodes to coefficient 350 and scale 2. |
| `DecoderExamples.DecimalSpellsBack` | challonge/api.py:88-89 | Coefficient 350 with scale 2 spells as "3.50". |
| `DecoderExamples.IntegerFields` | challonge/api.py:90-91 | "-42" decodes to -42, and "4.2" is a malformed integer. |
| `DecoderExamples.DuplicateTagLastWins` | challonge/api.py:95 | Two `name` children give one entry, holding the second child's text. |

## Left out

- `NumericText.ParseInt`: accepts only an optional sign followed by digits. Python's `int` also takes surrounding whitespace and, for unicode text, non-ASCII decimal digits. The model reports both as Malformed.
- `NumericText.ParseDecimal`: accepts only an optional sign, digits and one optional point. Python's `Decimal` also takes whitespace, exponents (`1E+2`), `NaN`, `Infinity` and non-ASCII digits. The model reports all of these as Malformed.
- `FieldDecoder.DecodeField`: for integer and decimal fields it inherits the two restrictions above. Its `lower()` folds ASCII letters only. Non-ASCII case folding in Python does not produce the letters of "true", so the boolean result is unaffected.
- `FieldDecoder.DecodeField`: distinguishes two failures: a typed field without text, and text its parser rejects. Python instead raises `AttributeError`, `TypeError`, `ValueError` or `decimal.InvalidOperation`, depending on the branch.
- HTTP transport and authentication (`urllib2.Request`, `HTTPBasicAuthHandler`, `opener.open`, challonge/api.py:41-59): network I/O. These are the `open` parameter of `Fetch.Fetch`. Overriding `get_method` becomes the request's `verb`.
- XML parsing (`ElementTree.parse`, challonge/api.py:64 and 75), and so `fetch_and_parse`: the parsed tree is an input. A body that does not parse is `None`.
- Datetime parsing (`dateutil.parser.parse`, challonge/api.py:86-87): a foreign parser. It is the `parseDateTime` parameter, a partial function.
- `urllib.urlencode` (challonge/api.py:36): a library call. It is an uninterpreted parameter.
- `set_credentials` / `get_credentials` (challonge/api.py:13-31): process-wide mutable state with no logic. Credentials only reach the opener.
- challonge/tournaments.py, challonge/participants.py and challonge/matches.py: thin wrappers that interpolate ids into path templates and call `fetch`. They also call `api._prepare_params`, which api.py does not define, and pass positional arguments that `fetch` does not accept, so modelling them would mean inventing behaviour.
- tests.py: live tests that need service credentials. setup.py: packaging metadata.
