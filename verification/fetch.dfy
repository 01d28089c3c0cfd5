/** The request side of `fetch` in challonge/api.py: the shape of the HTTP
    request built from a verb, a resource path and parameters, and what
    becomes of an HTTP error the service answers with. The transport, the
    Basic-Auth handshake and the form encoder are parameters: `urlencode`
    is an arbitrary function and the opener is a function from request to
    reply. */
module Fetch {
  import opened Wrappers
  import opened Xml

  /** CHALLONGE_API_URL: host and API root of the service. */
  const ApiRoot: string := "challonge.com/api"

  /** The status the service uses for application-level validation errors
      (422 Unprocessable Entity). */
  const ValidationStatus: int := 422

  /** The root tag of the service's error documents. */
  const ErrorsTag: string := "errors"

  /** A request handed to the opener: the verb it reports as its method, the
      full URL, and the form data (None when no data was attached). */
  datatype Request = Request(verb: string, url: string, data: Option<string>)

  /** `"https://%s/%s.xml" % (CHALLONGE_API_URL, uri)`. */
  function Endpoint(uri: string): string {
    "https://" + ApiRoot + "/" + uri + ".xml"
  }

  /** The fixed text before the resource path of every endpoint. */
  const EndpointHead: string := "https://challonge.com/api/"

  /** Every endpoint is the service's API root, the resource path and the
      XML format suffix. */
  lemma EndpointShape(uri: string)
    ensures Endpoint(uri) == EndpointHead + uri + ".xml"
  {
  }

  /** The resource path an endpoint URL names, or None when the URL is not
      an endpoint of the service. */
  function ResourcePath(url: string): (r: Option<string>)
    ensures r.Some? ==> Endpoint(r.value) == url
  {
    var head := EndpointHead;
    if |url| >= |head| + 4 && url[..|head|] == head && url[|url| - 4..] == ".xml" then
      var uri := url[|head|..|url| - 4];
      assert url == url[..|head|] + uri + url[|url| - 4..];
      EndpointShape(uri);
      Some(uri)
    else None
  }

  /** The resource path is recovered from its endpoint, so distinct paths
      never share a URL. */
  lemma ResourcePathOfEndpoint(uri: string)
    ensures ResourcePath(Endpoint(uri)) == Some(uri)
  {
  }

  /** The top of `fetch(verb, uri, **params)`: the parameters are encoded
      once; a GET carries them as the query string after "?" (the "?" is
      written even when the encoding is empty) and no data; any other verb
      keeps the bare endpoint and carries them as the request data. The verb
      comparison is exact: "get" is not a GET. */
  function BuildRequest<P>(verb: string, uri: string, params: P, urlencode: P -> string): (r: Request)
    ensures r.verb == verb
    ensures r.data.None? <==> verb == "GET"
    ensures r.data.Some? ==> r.url == Endpoint(uri) && r.data.value == urlencode(params)
    ensures r.data.None? ==> r.url == Endpoint(uri) + "?" + urlencode(params)
  {
    var encoded := urlencode(params);
    var url := Endpoint(uri);
    if verb == "GET" then Request(verb, url + "?" + encoded, None)
    else Request(verb, url, Some(encoded))
  }

  /** Where a request built for `uri` carries its encoded parameters: the
      data if it has any, otherwise everything after the "?" that follows
      the endpoint. */
  function Payload(r: Request, uri: string): Option<string> {
    var head := Endpoint(uri) + "?";
    if r.data.Some? then r.data
    else if |r.url| >= |head| && r.url[..|head|] == head then Some(r.url[|head|..])
    else None
  }

  /** Whatever the verb, the encoded parameters travel exactly once, whole,
      in the query string or in the data. */
  lemma ParametersTravelOnce<P>(verb: string, uri: string, params: P, urlencode: P -> string)
    ensures Payload(BuildRequest(verb, uri, params, urlencode), uri) == Some(urlencode(params))
  {
  }

  /** A GET and any other verb address the same endpoint; the GET's URL is
      the other's URL followed by "?" and the other's data. */
  lemma GetMovesParametersIntoUrl<P>(verb: string, uri: string, params: P, urlencode: P -> string)
    requires verb != "GET"
    ensures var other := BuildRequest(verb, uri, params, urlencode);
      BuildRequest("GET", uri, params, urlencode).url == other.url + "?" + other.data.value
  {
  }

  // ---------------------------------------------------------------------------
  // Errors

  /** What the `except urllib2.HTTPError` branch of `fetch` does. */
  datatype Classification =
    | Reraise                                   // the HTTPError propagates unchanged
    | Challonge(args: seq<Option<string>>)      // ChallongeException(*texts)
    | UnreadableErrorBody                       // the 422 body is not a document: the XML parser's error propagates

  /** The error branch of `fetch` as a function of the HTTP status and, for
      a 422, the parsed error body (None when the body does not parse).
      Only a 422 whose document is rooted at "errors" becomes a
      ChallongeException, whose arguments are the texts of the root's
      children in document order (None for a child without text); the body
      of any other status is never looked at. */
  function ClassifyHttpError(code: int, document: Option<Element>): (r: Classification)
    ensures code != ValidationStatus ==> r == Reraise
    ensures r.Challonge? <==> code == ValidationStatus && document.Some? && document.value.tag == ErrorsTag
    ensures r.UnreadableErrorBody? <==> code == ValidationStatus && document.None?
    ensures r.Challonge? ==> |r.args| == |document.value.children|
    ensures r.Challonge? ==> forall i | 0 <= i < |r.args| :: r.args[i] == document.value.children[i].text
  {
    if code != ValidationStatus then Reraise
    else match document
      case None => UnreadableErrorBody
      case Some(doc) =>
        if doc.tag != ErrorsTag then Reraise
        else Challonge(seq(|doc.children|, i requires 0 <= i < |doc.children| => doc.children[i].text))
  }

  /** The error document the service sends for a list of messages: an
      "errors" root with one "error" child per message. */
  function ErrorDocument(messages: seq<string>): Element {
    Element(ErrorsTag, map[], None, seq(|messages|, i requires 0 <= i < |messages| => Leaf("error", map[], Some(messages[i]))))
  }

  /** A validation failure surfaces exactly the service's messages, in
      order, empty list included. */
  lemma ValidationMessagesSurface(messages: seq<string>)
    ensures ClassifyHttpError(ValidationStatus, Some(ErrorDocument(messages)))
            == Challonge(seq(|messages|, i requires 0 <= i < |messages| => Some(messages[i])))
  {
  }

  /** What the opener does with a request: a response body, an HTTP error
      status with its body parsed as a document (None when it does not
      parse), or a failure before any status (connection, TLS). */
  datatype Reply =
    | Response(body: string)
    | HttpError(code: int, document: Option<Element>)
    | ConnectionFailure

  /** What a call of `fetch` ends in. */
  datatype Outcome =
    | Returned(body: string)
    | HttpErrorRaised(code: int)
    | ChallongeException(args: seq<Option<string>>)
    | ErrorBodyParseError
    | ConnectionError

  /** `fetch(verb, uri, **params)` against an opener: the request it sends
      is BuildRequest's, a response is returned unconsumed, and an HTTP
      error is classified by ClassifyHttpError. */
  function Fetch<P>(verb: string, uri: string, params: P, urlencode: P -> string, open: Request -> Reply): (r: Outcome)
    ensures var reply := open(BuildRequest(verb, uri, params, urlencode));
      && (r.Returned? <==> reply.Response?)
      && (r.Returned? ==> r.body == reply.body)
      && (r.ChallongeException? <==> reply.HttpError? && ClassifyHttpError(reply.code, reply.document).Challonge?)
      && (r.ChallongeException? ==> r.args == ClassifyHttpError(reply.code, reply.document).args)
      && (r.ErrorBodyParseError? <==> reply.HttpError? && ClassifyHttpError(reply.code, reply.document).UnreadableErrorBody?)
      && (r.HttpErrorRaised? <==> reply.HttpError? && ClassifyHttpError(reply.code, reply.document).Reraise?)
      && (r.HttpErrorRaised? ==> r.code == reply.code)
      && (r.ConnectionError? <==> reply.ConnectionFailure?)
  {
    match open(BuildRequest(verb, uri, params, urlencode))
    case Response(body) => Returned(body)
    case ConnectionFailure => ConnectionError
    case HttpError(code, document) =>
      match ClassifyHttpError(code, document)
      case Reraise => HttpErrorRaised(code)
      case Challonge(args) => ChallongeException(args)
      case UnreadableErrorBody => ErrorBodyParseError
  }

  /** A status other than 422 is never turned into a ChallongeException,
      whatever document its body holds. */
  lemma OnlyValidationStatusIsWrapped<P>(verb: string, uri: string, params: P, urlencode: P -> string, open: Request -> Reply)
    requires Fetch(verb, uri, params, urlencode, open).ChallongeException?
    ensures open(BuildRequest(verb, uri, params, urlencode)).HttpError?
    ensures open(BuildRequest(verb, uri, params, urlencode)).code == ValidationStatus
  {
  }

  /** End to end: when the service answers 422 with an error document, the
      caller of fetch receives exactly the service's messages, in order. */
  lemma FetchSurfacesMessages<P>(verb: string, uri: string, params: P, urlencode: P -> string,
                                 open: Request -> Reply, messages: seq<string>)
    requires open(BuildRequest(verb, uri, params, urlencode)) == HttpError(ValidationStatus, Some(ErrorDocument(messages)))
    ensures Fetch(verb, uri, params, urlencode, open)
            == ChallongeException(seq(|messages|, i requires 0 <= i < |messages| => Some(messages[i])))
  {
    ValidationMessagesSurface(messages);
  }
}
