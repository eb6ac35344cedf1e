/**
 * The field-definition builder: one `DDFFieldDefn` element becomes the calls
 * that create a definition, attach its subfields and add it to the module.
 * Unknown structure and type codes fall back to defaults without complaint.
 */
module FieldDefnBuilder {
  import opened Wrappers
  import opened XmlTree
  import opened Encoder

  /** The literal that names each structure code in the description. */
  function StructCodeName(c: StructCode): string
  {
    match c
    case Elementary => "elementary"
    case Vector => "vector"
    case Array => "array"
    case Concatenated => "concatenated"
  }

  /** Exact match against the four literals; anything else is elementary. */
  function ParseStructCode(s: string): (c: StructCode)
    ensures s == StructCodeName(c) || c == Elementary
  {
    if s == "elementary" then Elementary
    else if s == "vector" then Vector
    else if s == "array" then Array
    else if s == "concatenated" then Concatenated
    else Elementary
  }

  /** Each literal is recognised as its own code. */
  lemma ParseStructCodeName(c: StructCode)
    ensures ParseStructCode(StructCodeName(c)) == c
  {
  }

  /** The literal that names each type code in the description. */
  function TypeCodeName(c: TypeCode): string
  {
    match c
    case CharString => "char_string"
    case ImplicitPoint => "implicit_point"
    case ExplicitPoint => "explicit_point"
    case ExplicitPointScaled => "explicit_point_scaled"
    case CharBitString => "char_bit_string"
    case BitString => "bit_string"
    case MixedDataType => "mixed_data_type"
  }

  /** Exact match against the seven literals; anything else is a character string. */
  function ParseTypeCode(s: string): (c: TypeCode)
    ensures s == TypeCodeName(c) || c == CharString
  {
    if s == "char_string" then CharString
    else if s == "implicit_point" then ImplicitPoint
    else if s == "explicit_point" then ExplicitPoint
    else if s == "explicit_point_scaled" then ExplicitPointScaled
    else if s == "char_bit_string" then CharBitString
    else if s == "bit_string" then BitString
    else if s == "mixed_data_type" then MixedDataType
    else CharString
  }

  /** Each literal is recognised as its own code. */
  lemma ParseTypeCodeName(c: TypeCode)
    ensures ParseTypeCode(TypeCodeName(c)) == c
  {
  }

  /** The array descriptor: empty for a vector, "*" for an array, the attribute otherwise. */
  function ArrayDescr(code: StructCode, attribute: string): string
  {
    if code == Vector then "" else if code == Array then "*" else attribute
  }

  function StructCodeOf(n: Node): StructCode
  {
    ParseStructCode(AttrOr(n, "dataStructCode", ""))
  }

  /** The `Create` call: format controls are passed only for an elementary field. */
  function CreateOp(n: Node): Op
  {
    var code := StructCodeOf(n);
    DefnCreate(
      AttrOr(n, "tag", ""),
      AttrOr(n, "fieldName", ""),
      ArrayDescr(code, AttrOr(n, "arrayDescr", "")),
      code,
      ParseTypeCode(AttrOr(n, "dataTypeCode", "")),
      if code == Elementary then Attr(n, "formatControls") else None)
  }

  /** One `AddSubfield` per `DDFSubfieldDefn` child, in document order. */
  function SubfieldDefnOps(children: seq<Node>): (ops: seq<Op>)
    ensures forall i :: 0 <= i < |ops| ==> ops[i].DefnAddSubfield?
  {
    if children == [] then []
    else
      var last := children[|children| - 1];
      SubfieldDefnOps(children[..|children| - 1])
        + if IsElement(last, "DDFSubfieldDefn")
          then [DefnAddSubfield(AttrOr(last, "name", ""), AttrOr(last, "format", ""))]
          else []
  }

  /** The trailing `SetFormatControls`, made whenever the attribute exists, whatever the structure code. */
  function FormatControlsOps(n: Node): seq<Op>
  {
    match Attr(n, "formatControls")
    case Some(c) => [DefnSetFormatControls(c)]
    case None => []
  }

  /** All calls made for one `DDFFieldDefn` element. */
  function DefnOps(n: Node): seq<Op>
  {
    [CreateOp(n)] + SubfieldDefnOps(Children(n)) + FormatControlsOps(n) + [AddFieldDefn]
  }

  /**
   * The two-phase build: the definition is created first, with the
   * attribute's format controls only when it is elementary, and with an
   * array descriptor that is empty for a vector, "*" for an array and the
   * `arrayDescr` attribute otherwise; all subfields are attached before
   * the format controls are set, which happens exactly when the attribute
   * exists, with the attribute's text; the definition is added to the module last.
   */
  lemma {:induction false} DefnOpsShape(n: Node)
    ensures var ops := DefnOps(n);
      && ops[0].DefnCreate?
      && (ops[0].formatControls.Some? <==> StructCodeOf(n) == Elementary && Attr(n, "formatControls").Some?)
      && (ops[0].formatControls.Some? ==> ops[0].formatControls == Attr(n, "formatControls"))
      && (StructCodeOf(n) == Vector ==> ops[0].arrayDescr == "")
      && (StructCodeOf(n) == Array ==> ops[0].arrayDescr == "*")
      && (StructCodeOf(n) in {Elementary, Concatenated} ==> ops[0].arrayDescr == AttrOr(n, "arrayDescr", ""))
      && ops[|ops| - 1] == AddFieldDefn
      && (forall i, j :: 0 <= i < j < |ops| && ops[j].DefnAddSubfield? ==> !ops[i].DefnSetFormatControls?)
      && ((exists i :: 0 <= i < |ops| && ops[i].DefnSetFormatControls?) <==> Attr(n, "formatControls").Some?)
      && (forall i :: 0 <= i < |ops| && ops[i].DefnSetFormatControls? ==> Some(ops[i].controls) == Attr(n, "formatControls"))
  {
    var subs := SubfieldDefnOps(Children(n));
    var ops := DefnOps(n);
    assert forall i :: 1 <= i < 1 + |subs| ==> ops[i] == subs[i - 1];
    if Attr(n, "formatControls").Some? {
      assert ops[1 + |subs|].DefnSetFormatControls?;
    }
  }

  /**
   * The builder loop: create the definition, walk the children adding each
   * subfield definition, then set the format controls and hand the
   * definition to the module.
   */
  method BuildFieldDefn(n: Node) returns (ops: seq<Op>)
    ensures ops == DefnOps(n)
  {
    ops := [CreateOp(n)];
    var children := Children(n);
    var i := 0;
    while i < |children|
      invariant 0 <= i <= |children|
      invariant ops == [CreateOp(n)] + SubfieldDefnOps(children[..i])
    {
      var child := children[i];
      assert children[..i + 1][..i] == children[..i];
      if IsElement(child, "DDFSubfieldDefn") {
        ops := ops + [DefnAddSubfield(AttrOr(child, "name", ""), AttrOr(child, "format", ""))];
      }
      i := i + 1;
    }
    assert children[..i] == children;
    var controls := Attr(n, "formatControls");
    if controls.Some? {
      ops := ops + [DefnSetFormatControls(controls.value)];
    }
    ops := ops + [AddFieldDefn];
  }
}
