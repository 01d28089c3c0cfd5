/** What the decoder yields on concrete fields and records: the behaviours
    a client of the service relies on, each on a literal document. */
module DecoderExamples {
  import opened Wrappers
  import opened NumericText
  import opened Xml
  import opened FieldDecoder

  /** A stand-in date parser for documents without datetime fields. */
  function NoDates(text: string): Option<int> {
    None
  }

  function Typed(tag: string, fieldType: string, text: string): Element {
    Leaf(tag, map["type" := fieldType], Some(text))
  }

  /** nil="false" still marks the field null: the attribute is non-empty. */
  lemma NilFalseIsNull()
    ensures DecodeField(Leaf("score", map["type" := "integer", "nil" := "false"], Some("abc")), NoDates)
            == Success(Null)
  {
  }

  /** Any letter case of "true" is true; "1", "yes" and "false" are false. */
  lemma BooleanSpellings()
    ensures DecodeField(Typed("open", "boolean", "TRUE"), NoDates) == Success(Bool(true))
    ensures DecodeField(Typed("open", "boolean", "True"), NoDates) == Success(Bool(true))
    ensures DecodeField(Typed("open", "boolean", "1"), NoDates) == Success(Bool(false))
    ensures DecodeField(Typed("open", "boolean", "yes"), NoDates) == Success(Bool(false))
    ensures DecodeField(Typed("open", "boolean", "false"), NoDates) == Success(Bool(false))
  {
  }

  /** A boolean field without text fails rather than reading as false. */
  lemma EmptyBooleanFails()
    ensures DecodeField(Leaf("open", map["type" := "boolean"], None), NoDates)
            == Failure(MissingText("open", "boolean"))
  {
  }

  /** An empty string field is None, not the empty string, and an empty
      `type` attribute means string. */
  lemma EmptyStringField()
    ensures DecodeField(Leaf("name", map["type" := ""], None), NoDates) == Success(Str(None))
  {
  }

  lemma NatText350()
    ensures NatText(350) == "350" && DigitsValue("350") == 350
  {
    assert DigitChar(3) == '3' && DigitChar(5) == '5' && DigitChar(0) == '0';
    assert NatText(3) == "3";
    assert NatText(35) == "35";
    NatTextValue(350);
  }

  /** "3.50" keeps its two fraction digits. */
  lemma DecimalKeepsScale()
    ensures DecodeField(Typed("fee", "decimal", "3.50"), NoDates) == Success(Dec(Decimal(false, 350, 2)))
  {
    assert "3.50" == Spell(false, "3", "50");
    assert "3" + "50" == "350";
    ParseSpelled(false, "3", "50");
    NatText350();
  }

  /** Decimal(false, 350, 2) spells back as "3.50". */
  lemma DecimalSpellsBack()
    ensures DecimalText(Decimal(false, 350, 2)) == "3.50"
  {
    NatText350();
    assert PaddedDigits(Decimal(false, 350, 2)) == "350";
    assert "350"[..1] == "3" && "350"[1..] == "50";
    assert Spell(false, "3", "50") == "3.50";
  }

  /** Signed integers decode; text with a point is not an integer. */
  lemma IntegerFields()
    ensures DecodeField(Typed("id", "integer", "-42"), NoDates) == Success(Int(-42))
    ensures DecodeField(Typed("id", "integer", "4.2"), NoDates) == Failure(Malformed("id", "integer", "4.2"))
  {
  }

  /** Of two children with the same tag, the later one's value is kept. */
  lemma DuplicateTagLastWins()
    ensures DictifyElement(
              Element("tournament", map[], None,
                [Leaf("name", map[], Some("first")), Leaf("name", map[], Some("second"))]),
              NoDates)
            == Success(map["name" := Str(Some("second"))])
  {
    var first, second := Leaf("name", map[], Some("first")), Leaf("name", map[], Some("second"));
    var children := [first, second];
    var r := DictifyElement(Element("tournament", map[], None, children), NoDates);
    assert DecodeField(children[0], NoDates).Success? && DecodeField(children[1], NoDates).Success?;
    assert (set i | 0 <= i < |children| :: children[i].tag) == {"name"} by {
      assert children[0].tag == "name";
    }
    assert LastOfTag(children, 1);
    assert r.value == map["name" := Str(Some("second"))];
  }
}
