/** The typed field decoder and the document decoder of challonge/api.py
    (`_dictify_element`): every child of a response element becomes one entry
    of a record, keyed by the child's tag, its text converted according to the
    child's `type` attribute unless its `nil` attribute says the field is
    null. */
module FieldDecoder {
  import opened Wrappers
  import opened NumericText
  import opened Xml

  /** A decoded field. `DateTime` carries whatever the date parser produces;
      the parser itself is a parameter of the decoder. `Str(None)` is the
      string field of an element without text. */
  datatype Value<D> =
    | Str(text: Option<string>)
    | Bool(truth: bool)
    | Int(number: int)
    | Dec(decimal: Decimal)
    | DateTime(instant: D)
    | Null

  /** Why a field could not be decoded: a typed field with no text at all
      (Python fails calling a string method or a parser on None), or text its
      type's parser rejects. */
  datatype DecodeError =
    | MissingText(tag: string, fieldType: string)
    | Malformed(tag: string, fieldType: string, text: string)

  /** A decoded record: field name to value. */
  type Record<D> = map<string, Value<D>>

  /** The type names that select a parser; every other name, and a missing
      or empty `type` attribute, yields the text verbatim. */
  const TypedFields: set<string> := {"boolean", "datetime", "decimal", "integer"}

  /** `child.get("type") or "string"`: an absent or empty attribute falls
      back to "string". */
  function FieldType(e: Element): string {
    match e.Get("type")
    case None => "string"
    case Some(t) => if t == "" then "string" else t
  }

  /** `child.get("nil")` is truthy: the attribute is present and non-empty,
      whatever it says ("false" included). */
  predicate IsNil(e: Element) {
    e.Get("nil").Some? && e.Get("nil").value != ""
  }

  function AsciiLowerChar(c: char): char {
    if 'A' <= c <= 'Z' then (c as int + 32) as char else c
  }

  /** `str.lower()`, folding the ASCII letters. */
  function AsciiLower(s: string): (r: string)
    ensures |r| == |s|
    ensures forall i | 0 <= i < |s| :: r[i] == AsciiLowerChar(s[i])
  {
    if |s| == 0 then "" else [AsciiLowerChar(s[0])] + AsciiLower(s[1..])
  }

  /** The spellings of "true" in any mix of letter case, stated letter by
      letter. */
  predicate TrueSpelling(s: string) {
    |s| == 4
    && (s[0] == 't' || s[0] == 'T')
    && (s[1] == 'r' || s[1] == 'R')
    && (s[2] == 'u' || s[2] == 'U')
    && (s[3] == 'e' || s[3] == 'E')
  }

  /** The boolean test of the decoder, `text.lower() == "true"`, accepts
      exactly the case variants of "true". */
  lemma LowerIsTrueIff(s: string)
    ensures AsciiLower(s) == "true" <==> TrueSpelling(s)
  {
  }

  /** One child converted per its type, as in the body of the loop in
      `_dictify_element`. */
  function DecodeField<D>(child: Element, parseDateTime: string -> Option<D>): (r: Result<Value<D>, DecodeError>)
    // nil wins over any type and any text
    ensures IsNil(child) ==> r == Success(Null)
    // an untyped or unrecognised field is its text, verbatim, None included
    ensures !IsNil(child) && FieldType(child) !in TypedFields ==> r == Success(Str(child.text))
    // a typed field without text is an error
    ensures !IsNil(child) && FieldType(child) in TypedFields && child.text.None?
            ==> r == Failure(MissingText(child.tag, FieldType(child)))
    // booleans: true exactly for the case variants of "true", never an error
    ensures !IsNil(child) && FieldType(child) == "boolean" && child.text.Some?
            ==> r == Success(Bool(TrueSpelling(child.text.value)))
    // integers: the integer the text denotes, or an error on malformed text
    ensures !IsNil(child) && FieldType(child) == "integer" && child.text.Some?
            ==> (r.Success? <==> IsIntegerText(child.text.value))
                && (r.Success? ==> r.value == Int(IntegerDenotation(child.text.value)))
                && (r.Failure? ==> r.error == Malformed(child.tag, "integer", child.text.value))
    // decimals: the exact value the text denotes, fraction digits kept as
    // the scale, the sign kept even for zero, or an error on malformed text
    ensures !IsNil(child) && FieldType(child) == "decimal" && child.text.Some?
            ==> (r.Success? <==> IsDecimalText(child.text.value))
                && (r.Success? ==> r.value.Dec?
                                   && Exact(r.value.decimal) == DecimalDenotation(child.text.value)
                                   && r.value.decimal.scale == |FractionPart(SplitSign(child.text.value).1)|
                                   && (r.value.decimal.negative <==> child.text.value[0] == '-'))
                && (r.Failure? ==> r.error == Malformed(child.tag, "decimal", child.text.value))
    // datetimes: whatever the date parser makes of the text
    ensures !IsNil(child) && FieldType(child) == "datetime" && child.text.Some?
            ==> (r.Success? <==> parseDateTime(child.text.value).Some?)
                && (r.Success? ==> r.value == DateTime(parseDateTime(child.text.value).value))
                && (r.Failure? ==> r.error == Malformed(child.tag, "datetime", child.text.value))
  {
    var fieldType := FieldType(child);
    if IsNil(child) then Success(Null)
    else if fieldType !in TypedFields then Success(Str(child.text))
    else if child.text.None? then Failure(MissingText(child.tag, fieldType))
    else
      var text := child.text.value;
      if fieldType == "boolean" then
        LowerIsTrueIff(text);
        Success(Bool(AsciiLower(text) == "true"))
      else if fieldType == "datetime" then
        match parseDateTime(text)
        case Some(instant) => Success(DateTime(instant))
        case None => Failure(Malformed(child.tag, fieldType, text))
      else if fieldType == "decimal" then
        match ParseDecimal(text)
        case Some(d) =>
          ParseDecimalExact(text);
          Success(Dec(d))
        case None => Failure(Malformed(child.tag, fieldType, text))
      else
        match ParseInt(text)
        case Some(n) => Success(Int(n))
        case None => Failure(Malformed(child.tag, fieldType, text))
  }

  /** Child i is the last child carrying its tag. */
  ghost predicate LastOfTag(children: seq<Element>, i: int)
    requires 0 <= i < |children|
  {
    forall j | i < j < |children| :: children[j].tag != children[i].tag
  }

  /** Child i is the first child that fails to decode. */
  ghost predicate FirstFailure<V, E>(children: seq<Element>, decode: Element -> Result<V, E>, i: int)
    requires 0 <= i < |children|
  {
    && decode(children[i]).Failure?
    && forall j | 0 <= j < i :: decode(children[j]).Success?
  }

  /** The loop of `_dictify_element` over a sequence of children, for any
      per-child decoder: each decoded child is stored under its tag,
      overwriting an earlier child of the same tag; the first child that
      fails aborts the whole record with that child's error. */
  function DecodeChildren<V, E>(children: seq<Element>, decode: Element -> Result<V, E>): (r: Result<map<string, V>, E>)
    ensures r.Success? <==> forall i | 0 <= i < |children| :: decode(children[i]).Success?
  {
    if |children| == 0 then Success(map[])
    else
      var n := |children| - 1;
      assert forall j | 0 <= j < n :: children[..n][j] == children[j];
      match DecodeChildren(children[..n], decode)
      case Failure(e) => Failure(e)
      case Success(record) =>
        match decode(children[n])
        case Failure(e) => Failure(e)
        case Success(v) => Success(record[children[n].tag := v])
  }

  /** A failed record reports the error of the first child, in document
      order, that fails to decode. */
  lemma {:induction false} DecodeChildrenFirstFailure<V, E>(children: seq<Element>, decode: Element -> Result<V, E>)
    requires DecodeChildren(children, decode).Failure?
    ensures exists i | 0 <= i < |children| ::
              FirstFailure(children, decode, i) && DecodeChildren(children, decode).error == decode(children[i]).error
  {
    var n := |children| - 1;
    var earlier := children[..n];
    assert forall j | 0 <= j < n :: earlier[j] == children[j];
    if DecodeChildren(earlier, decode).Failure? {
      DecodeChildrenFirstFailure(earlier, decode);
      var i :| 0 <= i < n && FirstFailure(earlier, decode, i)
               && DecodeChildren(earlier, decode).error == decode(earlier[i]).error;
      assert FirstFailure(children, decode, i);
    } else {
      assert FirstFailure(children, decode, n);
    }
  }

  /** A decoded record has exactly one key per distinct child tag. */
  lemma {:induction false} DecodeChildrenKeys<V, E>(children: seq<Element>, decode: Element -> Result<V, E>)
    requires DecodeChildren(children, decode).Success?
    ensures DecodeChildren(children, decode).value.Keys == set i | 0 <= i < |children| :: children[i].tag
  {
    if |children| > 0 {
      var n := |children| - 1;
      var earlier := children[..n];
      assert forall j | 0 <= j < n :: earlier[j] == children[j];
      DecodeChildrenKeys(earlier, decode);
      var tags := set i | 0 <= i < |children| :: children[i].tag;
      var earlierTags := set i | 0 <= i < n :: earlier[i].tag;
      assert tags == earlierTags + {children[n].tag} by {
        forall t | t in tags ensures t in earlierTags + {children[n].tag} {
          var i :| 0 <= i < |children| && children[i].tag == t;
          if i < n { assert earlier[i].tag == t; }
        }
      }
    }
  }

  /** In a decoded record every tag holds the value of the LAST child
      carrying that tag: later duplicates overwrite earlier ones. */
  lemma {:induction false} DecodeChildrenLastWins<V, E>(children: seq<Element>, decode: Element -> Result<V, E>, i: int)
    requires DecodeChildren(children, decode).Success?
    requires 0 <= i < |children| && LastOfTag(children, i)
    ensures children[i].tag in DecodeChildren(children, decode).value
    ensures DecodeChildren(children, decode).value[children[i].tag] == decode(children[i]).value
  {
    var n := |children| - 1;
    var earlier := children[..n];
    assert forall j | 0 <= j < n :: earlier[j] == children[j];
    if i < n {
      assert children[n].tag != children[i].tag;
      assert LastOfTag(earlier, i);
      DecodeChildrenLastWins(earlier, decode, i);
    }
  }

  /** `_dictify_element(element)`: the record of an element's children, each
      decoded by DecodeField. It succeeds exactly when every child decodes;
      a failure is the first failing child's error; the keys are the child
      tags; each key holds the value of the last child with that tag. */
  function DictifyElement<D>(element: Element, parseDateTime: string -> Option<D>): (r: Result<Record<D>, DecodeError>)
    ensures r.Success? <==> forall i | 0 <= i < |element.children| :: DecodeField(element.children[i], parseDateTime).Success?
    ensures r.Failure? ==> exists i | 0 <= i < |element.children| ::
              FirstFailure(element.children, child => DecodeField(child, parseDateTime), i)
              && r.error == DecodeField(element.children[i], parseDateTime).error
    ensures r.Success? ==> r.value.Keys == set i | 0 <= i < |element.children| :: element.children[i].tag
    ensures r.Success? ==> forall i | 0 <= i < |element.children| && LastOfTag(element.children, i) ::
              r.value[element.children[i].tag] == DecodeField(element.children[i], parseDateTime).value
  {
    var decode := child => DecodeField(child, parseDateTime);
    var r := DecodeChildren(element.children, decode);
    if r.Failure? then
      DecodeChildrenFirstFailure(element.children, decode);
      r
    else
      DecodeChildrenKeys(element.children, decode);
      assert forall i | 0 <= i < |element.children| && LastOfTag(element.children, i) ::
               r.value[element.children[i].tag] == decode(element.children[i]).value by {
        forall i | 0 <= i < |element.children| && LastOfTag(element.children, i)
          ensures r.value[element.children[i].tag] == decode(element.children[i]).value
        {
          DecodeChildrenLastWins(element.children, decode, i);
        }
      }
      r
  }

  /** No two children share a tag: the shape the service's documents have. */
  ghost predicate DistinctTags(children: seq<Element>) {
    forall i, j | 0 <= i < j < |children| :: children[i].tag != children[j].tag
  }

  /** Every child of one sequence occurs in a rearrangement of it. */
  lemma MemberOfRearrangement(a: seq<Element>, b: seq<Element>, j: int) returns (i: int)
    requires multiset(a) == multiset(b) && 0 <= j < |b|
    ensures 0 <= i < |a| && a[i] == b[j]
  {
    assert b[j] in multiset(a);
    i :| 0 <= i < |a| && a[i] == b[j];
  }

  /** A child of a sequence with distinct tags occurs in it exactly once. */
  lemma OccursOnce(a: seq<Element>, i: int)
    requires DistinctTags(a) && 0 <= i < |a|
    ensures multiset(a)[a[i]] == 1
  {
    assert a == a[..i] + [a[i]] + a[i + 1..];
    assert forall k | 0 <= k < i :: a[..i][k] == a[k];
    var rest := a[i + 1..];
    assert forall k | i + 1 <= k < |a| :: rest[k - i - 1] == a[k];
    assert a[i] !in a[..i] && a[i] !in rest;
    assert multiset(a) == multiset(a[..i]) + multiset{a[i]} + multiset(a[i + 1..]);
  }

  /** A child that sits at two positions of a sequence occurs in it twice. */
  lemma OccursTwice(b: seq<Element>, i: int, j: int)
    requires 0 <= i < j < |b| && b[i] == b[j]
    ensures multiset(b)[b[i]] >= 2
  {
    assert b == b[..j] + [b[j]] + b[j + 1..];
    assert b[..j][i] == b[i];
    assert multiset(b) == multiset(b[..j]) + multiset{b[j]} + multiset(b[j + 1..]);
  }

  /** Rearranging children whose tags are distinct keeps them distinct. */
  lemma RearrangementKeepsTagsDistinct(a: seq<Element>, b: seq<Element>)
    requires multiset(a) == multiset(b) && DistinctTags(a)
    ensures DistinctTags(b)
  {
    forall i, j | 0 <= i < j < |b| ensures b[i].tag != b[j].tag {
      var i' := MemberOfRearrangement(a, b, i);
      var j' := MemberOfRearrangement(a, b, j);
      if i' == j' {
        OccursTwice(b, i, j);
        OccursOnce(a, i');
      } else if i' < j' {
        assert a[i'].tag != a[j'].tag;
      } else {
        assert a[j'].tag != a[i'].tag;
      }
    }
  }

  /** When tags are unique, the order of the children does not matter: any
      rearrangement of them decodes to the same record. */
  lemma ReorderedChildrenSameRecord<V, E>(a: seq<Element>, b: seq<Element>, decode: Element -> Result<V, E>)
    requires multiset(a) == multiset(b)
    requires DistinctTags(a)
    requires DecodeChildren(a, decode).Success?
    ensures DecodeChildren(b, decode) == DecodeChildren(a, decode)
  {
    forall j | 0 <= j < |b| ensures decode(b[j]).Success? {
      var i := MemberOfRearrangement(a, b, j);
    }
    RearrangementKeepsTagsDistinct(a, b);
    var ra, rb := DecodeChildren(a, decode).value, DecodeChildren(b, decode).value;
    DecodeChildrenKeys(a, decode);
    DecodeChildrenKeys(b, decode);
    forall t | t in ra ensures t in rb && rb[t] == ra[t] {
      var i :| 0 <= i < |a| && a[i].tag == t;
      var j := MemberOfRearrangement(b, a, i);
      DecodeChildrenLastWins(a, decode, i);
      DecodeChildrenLastWins(b, decode, j);
    }
    forall t | t in rb ensures t in ra {
      var j :| 0 <= j < |b| && b[j].tag == t;
      var i := MemberOfRearrangement(a, b, j);
    }
    assert ra == rb;
  }
}
