/** Small worked examples of the rebuild, stated as lemmas. */
module Scenarios {
  import opened Wrappers
  import Hex
  import opened XmlTree
  import opened Encoder
  import opened TagWidth
  import opened RecordAssembler

  function FieldDefn(tag: string): Node
  {
    Element("DDFFieldDefn", map["tag" := tag], [])
  }

  function Subfield(name: string, kind: string, text: string): Node
  {
    Element("DDFSubfield", map["name" := name, "type" := kind], [Text(text)])
  }

  function Field(name: string, subs: seq<Node>): Node
  {
    Element("DDFField", map["name" := name], subs)
  }

  /** Tags of lengths 4, 4, 4 give the width 4; tags of lengths 4 and 5 are a schema error. */
  lemma TagWidthExamples()
    ensures InferredWidth([FieldDefn("0001"), FieldDefn("0002"), FieldDefn("0003")]) == Ok(4)
    ensures InferredWidth([FieldDefn("0001"), FieldDefn("00002")]) == Err(Schema)
  {
    var ok := [FieldDefn("0001"), FieldDefn("0002"), FieldDefn("0003")];
    assert ok[..2][..1] == [FieldDefn("0001")] && ok[..2] == [FieldDefn("0001"), FieldDefn("0002")];
    assert TagLengths(ok) == [4, 4, 4];
    var bad := [FieldDefn("0001"), FieldDefn("00002")];
    assert bad[..1] == [FieldDefn("0001")];
    assert TagLengths(bad) == [4, 5];
    assert !Consistent(TagLengths(bad)) by {
      var ls := TagLengths(bad);
      assert ls[0] != 0 && ls[1] != ls[0];
    }
  }

  /** An empty tag before the first non-empty one is passed over; after it, it is a schema error. */
  lemma EmptyTagExamples()
    ensures InferredWidth([FieldDefn(""), FieldDefn("0001")]) == Ok(4)
    ensures InferredWidth([FieldDefn("0001"), FieldDefn("")]) == Err(Schema)
  {
    var a := [FieldDefn(""), FieldDefn("0001")];
    assert a[..1] == [FieldDefn("")];
    assert TagLengths(a) == [0, 4];
    var b := [FieldDefn("0001"), FieldDefn("")];
    assert b[..1] == [FieldDefn("0001")];
    assert TagLengths(b) == [4, 0];
    assert !Consistent(TagLengths(b)) by {
      var ls := TagLengths(b);
      assert ls[0] != 0 && ls[1] != ls[0];
    }
  }

  /** A field whose value is "0x4142" is added and then given the two raw bytes 0x41 and 0x42; no subfield is read. */
  lemma RawValueExample()
    ensures FieldOps(Element("DDFField", map["name" := "0001", "value" := "0x4142"], []), 0, 0)
         == [AddField(0), SetFieldRaw(0, [0x41 as char, 0x42 as char])]
  {
    var f := Element("DDFField", map["name" := "0001", "value" := "0x4142"], []);
    assert Attr(f, "value") == Some("0x4142");
    assert "0x4142"[..2] == "0x";
    assert Hex.Decode("4142") == [Hex.PairByte('4', '1')] + Hex.Decode("42");
    assert Hex.Decode("4142") == [0x41 as char, 0x42 as char];
    assert FieldOps(f, 0, 0) == [AddField(0)] + [SetFieldRaw(0, Hex.Decode("4142"))];
  }

  /**
   * Two "0001" fields in one record, each with one string subfield "TXT",
   * get field occurrences 0 and 1, and each subfield occurrence 0.
   */
  lemma RepeatedFieldExample()
    ensures FieldsTrace(["0001"], [Field("0001", [Subfield("TXT", "string", "A")]),
                                   Field("0001", [Subfield("TXT", "string", "B")])])
         == Trace([AddField(0), SetStringSubfield("0001", 0, "TXT", 0, "A"),
                   AddField(0), SetStringSubfield("0001", 1, "TXT", 0, "B")], None)
  {
    var f1 := Field("0001", [Subfield("TXT", "string", "A")]);
    var f2 := Field("0001", [Subfield("TXT", "string", "B")]);
    assert [f1, f2][..1] == [f1];
    assert [f1][..0] == [];
    assert [Subfield("TXT", "string", "A")][..0] == [];
    assert [Subfield("TXT", "string", "B")][..0] == [];
    assert CountNamed([f1], "DDFField", "0001") == 1;
  }

  /** A subfield of unknown type sets nothing but still uses up an occurrence number. */
  lemma UnknownTypeAdvancesCounter()
    ensures SubfieldsOps("F", 0, [Subfield("A", "date", "x"), Subfield("A", "string", "y")])
         == [SetStringSubfield("F", 0, "A", 1, "y")]
  {
    var s1 := Subfield("A", "date", "x");
    var s2 := Subfield("A", "string", "y");
    assert [s1, s2][..1] == [s1];
    assert [s1][..0] == [];
    assert CountNamed([s1], "DDFSubfield", "A") == 1;
  }

  /** A field name without a definition stops the record with a reference error. */
  lemma UndeclaredFieldExample()
    ensures FieldsTrace(["0001"], [Field("0002", [])]) == Trace([], Some(Reference("0002")))
  {
    assert [Field("0002", [])][..0] == [];
  }
}
