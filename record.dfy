/**
 * The record assembler: one `DDFRecord` element becomes a new record, one
 * added field per `DDFField` child, the values set on those fields, and the
 * final write. Occurrence numbers are counted per record for fields and per
 * field instance for subfields.
 */
module RecordAssembler {
  import opened Wrappers
  import opened CText
  import Hex
  import opened XmlTree
  import opened Encoder
  import opened ModuleDefaults

  function NameOf(n: Node): string
  {
    AttrOr(n, "name", "")
  }

  /** How many `element` children among `nodes` carry the name `name`: the next occurrence number of that name. */
  function CountNamed(nodes: seq<Node>, element: string, name: string): nat
  {
    if nodes == [] then 0
    else
      var last := nodes[|nodes| - 1];
      CountNamed(nodes[..|nodes| - 1], element, name)
        + if IsElement(last, element) && NameOf(last) == name then 1 else 0
  }

  /** `std::map<std::string, int>::operator[]` read: a name not yet seen counts zero. */
  function Occurrence(counter: map<string, nat>, name: string): nat
  {
    if name in counter then counter[name] else 0
  }

  /** The module's lookup of a definition by tag: the first definition with that tag. */
  function FindFieldDefn(catalog: seq<string>, name: string): (r: Option<nat>)
    ensures r.None? <==> name !in catalog
    ensures r.Some? ==> r.value < |catalog| && catalog[r.value] == name
                        && forall j :: 0 <= j < r.value ==> catalog[j] != name
  {
    if catalog == [] then None
    else if catalog[0] == name then Some(0)
    else match FindFieldDefn(catalog[1..], name)
      case None => None
      case Some(k) => Some(k + 1)
  }

  /** The hex text of a raw field value: the `value` attribute after its "0x" marker, if it has one. */
  function RawValue(f: Node): Option<string>
  {
    match Attr(f, "value")
    case Some(v) => if StartsWith(v, "0x") then Some(v[2..]) else None
    case None => None
  }

  /** A call that sets one subfield of field `fieldName`, occurrence `fieldOcc`. */
  predicate SetsSubfieldOf(op: Op, fieldName: string, fieldOcc: nat)
  {
    (op.SetFloatSubfield? || op.SetIntSubfield? || op.SetStringSubfield?)
    && op.fieldName == fieldName && op.fieldOcc == fieldOcc
  }

  /** The call, if any, for one `DDFSubfield` element, dispatched on its `type` attribute. */
  function SubfieldOp(fieldName: string, fieldOcc: nat, s: Node, occ: nat): seq<Op>
  {
    var name := NameOf(s);
    var kind := AttrOr(s, "type", "");
    var text := TextOr(s, "");
    if kind == "float" then [SetFloatSubfield(fieldName, fieldOcc, name, occ, text)]
    else if kind == "integer" then [SetIntSubfield(fieldName, fieldOcc, name, occ, Atoi(text))]
    else if kind == "string" then [SetStringSubfield(fieldName, fieldOcc, name, occ, text)]
    else if kind == "binary" && StartsWith(text, "0x") then
      [SetStringSubfield(fieldName, fieldOcc, name, occ, Hex.Decode(text[2..]))]
    else []
  }

  /**
   * The dispatch: "float" sets the text as a float subfield, "integer" its
   * `atoi` as an integer subfield and "string" the text verbatim; "binary"
   * with a "0x" value sets the decoded bytes as a string subfield; any
   * other type sets nothing.
   */
  lemma SubfieldDispatch(fieldName: string, fieldOcc: nat, s: Node, occ: nat)
    ensures var ops := SubfieldOp(fieldName, fieldOcc, s, occ);
      var kind := AttrOr(s, "type", "");
      var text := TextOr(s, "");
      && |ops| <= 1
      && (|ops| == 1 <==> kind in {"float", "integer", "string"} || (kind == "binary" && StartsWith(text, "0x")))
      && (|ops| == 1 ==> SetsSubfieldOf(ops[0], fieldName, fieldOcc) && ops[0].subfieldName == NameOf(s) && ops[0].subfieldOcc == occ)
      && (kind == "float" <==> |ops| == 1 && ops[0].SetFloatSubfield?)
      && (kind == "integer" <==> |ops| == 1 && ops[0].SetIntSubfield?)
      && (kind == "float" ==> ops[0].text == text)
      && (kind == "integer" ==> ops[0].value == Atoi(text))
      && (kind == "string" ==> ops == [SetStringSubfield(fieldName, fieldOcc, NameOf(s), occ, text)])
      && (kind == "binary" && StartsWith(text, "0x") ==> ops == [SetStringSubfield(fieldName, fieldOcc, NameOf(s), occ, Hex.Decode(text[2..]))])
  {
  }

  /**
   * The calls for the `DDFSubfield` children of one field instance. The
   * occurrence of a subfield is the number of same-named `DDFSubfield`
   * elements before it, whether or not those set anything.
   */
  function SubfieldsOps(fieldName: string, fieldOcc: nat, subs: seq<Node>): (ops: seq<Op>)
    ensures |ops| <= |subs|
    ensures forall i :: 0 <= i < |ops| ==> SetsSubfieldOf(ops[i], fieldName, fieldOcc)
  {
    if subs == [] then []
    else
      var init := subs[..|subs| - 1];
      var last := subs[|subs| - 1];
      SubfieldsOps(fieldName, fieldOcc, init)
        + if IsElement(last, "DDFSubfield")
          then SubfieldOp(fieldName, fieldOcc, last, CountNamed(init, "DDFSubfield", NameOf(last)))
          else []
  }

  /** The calls for one `DDFField` element bound to definition `defn`: the raw path or the subfield path. */
  function FieldOps(f: Node, defn: nat, fieldOcc: nat): seq<Op>
  {
    [AddField(defn)] +
      match RawValue(f)
      case Some(h) => [SetFieldRaw(fieldOcc, Hex.Decode(h))]
      case None => SubfieldsOps(NameOf(f), fieldOcc, Children(f))
  }

  /**
   * Raw and structured values exclude each other: a "0x" value gives
   * exactly one raw assignment of the decoded bytes and no subfield is read;
   * otherwise no raw assignment is made and every other call sets a
   * subfield of this field instance.
   */
  lemma RawOrStructured(f: Node, defn: nat, fieldOcc: nat)
    ensures var ops := FieldOps(f, defn, fieldOcc);
      && ops[0] == AddField(defn)
      && (RawValue(f).Some? ==> ops == [AddField(defn), SetFieldRaw(fieldOcc, Hex.Decode(RawValue(f).value))])
      && (RawValue(f).None? ==> forall i :: 1 <= i < |ops| ==> SetsSubfieldOf(ops[i], NameOf(f), fieldOcc))
  {
    var ops := FieldOps(f, defn, fieldOcc);
    if RawValue(f).None? {
      var subs := SubfieldsOps(NameOf(f), fieldOcc, Children(f));
      assert forall i :: 1 <= i < |ops| ==> ops[i] == subs[i - 1];
    }
  }

  /** Calls that belong to a record's fields. */
  predicate IsFieldCall(op: Op)
  {
    op.AddField? || op.SetFieldRaw? || op.SetFloatSubfield? || op.SetIntSubfield? || op.SetStringSubfield?
  }

  /**
   * The calls for the children of a record, given the tags of the
   * definitions added so far, and the reference error that stops the run
   * at the first `DDFField` whose name is not among them.
   */
  function FieldsTrace(catalog: seq<string>, fields: seq<Node>): (t: Trace)
    ensures forall i :: 0 <= i < |t.ops| ==> IsFieldCall(t.ops[i])
    ensures t.exit.Some? ==> t.exit.value.Reference? && t.exit.value.fieldName !in catalog
  {
    if fields == [] then Trace([], None)
    else
      var init := fields[..|fields| - 1];
      var prev := FieldsTrace(catalog, init);
      var f := fields[|fields| - 1];
      if prev.exit.Some? || !IsElement(f, "DDFField") then prev
      else match FindFieldDefn(catalog, NameOf(f))
        case None => Trace(prev.ops, Some(Reference(NameOf(f))))
        case Some(defn) =>
          var ops := FieldOps(f, defn, CountNamed(init, "DDFField", NameOf(f)));
          assert forall i :: 0 <= i < |ops| ==> IsFieldCall(ops[i]);
          Trace(prev.ops + ops, None)
  }

  /** The record's own size-field settings: each attribute, or the encoder's default for a new record. */
  function NewRecordOp(rec: Node, d: Defaults): Op
  {
    NewRecord(
      IntSetting(rec, "_sizeFieldLength", d.recordSizeFieldLength),
      IntSetting(rec, "_sizeFieldPos", d.recordSizeFieldPos),
      IntSetting(rec, "_sizeFieldTag", d.recordSizeFieldTag))
  }

  /** All calls for one `DDFRecord` element: the record is written only after all its fields. */
  function RecordTrace(rec: Node, catalog: seq<string>, d: Defaults): Trace
  {
    var t := FieldsTrace(catalog, Children(rec));
    if t.exit.None? then Trace([NewRecordOp(rec, d)] + t.ops + [Write], None)
    else Trace([NewRecordOp(rec, d)] + t.ops, t.exit)
  }

  /**
   * A record stops with a reference error exactly when one of its
   * `DDFField` children names a field that has no definition yet.
   */
  lemma {:induction false} ReferenceErrorIff(catalog: seq<string>, fields: seq<Node>)
    ensures FieldsTrace(catalog, fields).exit.Some?
        <==> exists i :: 0 <= i < |fields| && IsElement(fields[i], "DDFField") && NameOf(fields[i]) !in catalog
  {
    if fields != [] {
      var init := fields[..|fields| - 1];
      ReferenceErrorIff(catalog, init);
      assert forall i :: 0 <= i < |init| ==> init[i] == fields[i];
      if FieldsTrace(catalog, init).exit.None? && exists i :: 0 <= i < |fields| && IsElement(fields[i], "DDFField") && NameOf(fields[i]) !in catalog {
        var i :| 0 <= i < |fields| && IsElement(fields[i], "DDFField") && NameOf(fields[i]) !in catalog;
        assert i == |fields| - 1;
      }
    }
  }

  /**
   * Occurrence numbers are handed out in document order: a later element
   * with the same name gets a larger number than an earlier one.
   */
  lemma {:induction false} OccurrencesIncrease(nodes: seq<Node>, element: string, i: nat, j: nat)
    requires i < j <= |nodes|
    requires IsElement(nodes[i], element)
    ensures CountNamed(nodes[..i], element, NameOf(nodes[i])) < CountNamed(nodes[..j], element, NameOf(nodes[i]))
  {
    var name := NameOf(nodes[i]);
    if j == i + 1 {
      assert nodes[..j][..i] == nodes[..i];
    } else {
      OccurrencesIncrease(nodes, element, i, j - 1);
      assert nodes[..j][..j - 1] == nodes[..j - 1];
    }
  }

  /** A record is written exactly once, as its last call, unless a reference error stops it; it never creates the output. */
  lemma RecordWrittenLast(rec: Node, catalog: seq<string>, d: Defaults)
    ensures var t := RecordTrace(rec, catalog, d);
      && CreateCount(t.ops) == 0
      && WriteCount(t.ops) == (if t.exit.None? then 1 else 0)
      && (t.exit.None? ==> t.ops[|t.ops| - 1] == Write)
      && t.ops[0] == NewRecordOp(rec, d)
  {
    var f := FieldsTrace(catalog, Children(rec));
    var head := [NewRecordOp(rec, d)] + f.ops;
    NoCreateOrWrite(head);
    CountsAppend(head, [Write]);
    assert CreateCount([Write]) == 0 && WriteCount([Write]) == 1;
  }

  lemma CountNamedStep(nodes: seq<Node>, i: nat, element: string, name: string)
    requires i < |nodes|
    ensures CountNamed(nodes[..i + 1], element, name)
         == CountNamed(nodes[..i], element, name) + if IsElement(nodes[i], element) && NameOf(nodes[i]) == name then 1 else 0
  {
    assert nodes[..i + 1][..i] == nodes[..i];
  }

  /** One more child of a record that has not stopped. */
  lemma FieldsTraceStep(catalog: seq<string>, fields: seq<Node>, i: nat)
    requires i < |fields| && FieldsTrace(catalog, fields[..i]).exit.None?
    ensures var f := fields[i];
      var prev := FieldsTrace(catalog, fields[..i]).ops;
      FieldsTrace(catalog, fields[..i + 1])
        == if !IsElement(f, "DDFField") then Trace(prev, None)
           else match FindFieldDefn(catalog, NameOf(f))
             case None => Trace(prev, Some(Reference(NameOf(f))))
             case Some(defn) => Trace(prev + FieldOps(f, defn, CountNamed(fields[..i], "DDFField", NameOf(f))), None)
  {
    assert fields[..i + 1][..i] == fields[..i];
  }

  /** Once a record has stopped, its later children add nothing. */
  lemma {:induction false} HaltedStays(catalog: seq<string>, fields: seq<Node>, k: nat)
    requires k <= |fields| && FieldsTrace(catalog, fields[..k]).exit.Some?
    ensures FieldsTrace(catalog, fields) == FieldsTrace(catalog, fields[..k])
    decreases |fields|
  {
    if k < |fields| {
      var init := fields[..|fields| - 1];
      assert init[..k] == fields[..k];
      HaltedStays(catalog, init, k);
    } else {
      assert fields[..k] == fields;
    }
  }

  /**
   * The subfield loop of one field instance, with its own occurrence
   * counter per subfield name, fresh for every field instance.
   */
  method AssembleSubfields(fieldName: string, fieldOcc: nat, subs: seq<Node>) returns (ops: seq<Op>)
    ensures ops == SubfieldsOps(fieldName, fieldOcc, subs)
  {
    ops := [];
    var counter: map<string, nat> := map[];
    var i := 0;
    while i < |subs|
      invariant 0 <= i <= |subs|
      invariant ops == SubfieldsOps(fieldName, fieldOcc, subs[..i])
      invariant forall name :: Occurrence(counter, name) == CountNamed(subs[..i], "DDFSubfield", name)
    {
      var s := subs[i];
      assert subs[..i + 1][..i] == subs[..i];
      if IsElement(s, "DDFSubfield") {
        var name := NameOf(s);
        var occ := Occurrence(counter, name);
        counter := counter[name := occ + 1];
        var kind := AttrOr(s, "type", "");
        var text := TextOr(s, "");
        if kind == "float" {
          ops := ops + [SetFloatSubfield(fieldName, fieldOcc, name, occ, text)];
        } else if kind == "integer" {
          ops := ops + [SetIntSubfield(fieldName, fieldOcc, name, occ, Atoi(text))];
        } else if kind == "string" {
          ops := ops + [SetStringSubfield(fieldName, fieldOcc, name, occ, text)];
        } else if kind == "binary" && StartsWith(text, "0x") {
          var data := Hex.DecodeBuffer(text[2..]);
          ops := ops + [SetStringSubfield(fieldName, fieldOcc, name, occ, data)];
        }
      }
      forall name
        ensures Occurrence(counter, name) == CountNamed(subs[..i + 1], "DDFSubfield", name)
      {
        CountNamedStep(subs, i, "DDFSubfield", name);
      }
      i := i + 1;
    }
    assert subs[..i] == subs;
  }

  /** One field instance: add the field, then take the raw path or the subfield path. */
  method AssembleField(f: Node, defn: nat, fieldOcc: nat) returns (ops: seq<Op>)
    ensures ops == FieldOps(f, defn, fieldOcc)
  {
    ops := [AddField(defn)];
    var value := Attr(f, "value");
    if value.Some? && StartsWith(value.value, "0x") {
      var data := Hex.DecodeBuffer(value.value[2..]);
      ops := ops + [SetFieldRaw(fieldOcc, data)];
    } else {
      var subOps := AssembleSubfields(NameOf(f), fieldOcc, Children(f));
      ops := ops + subOps;
    }
  }

  /**
   * The loop over one record's children: a per-record occurrence counter
   * for field names, the raw or subfield path for each field, and the write
   * at the end. A field name without a definition ends the run.
   */
  method AssembleRecord(rec: Node, catalog: seq<string>, d: Defaults) returns (t: Trace)
    ensures t == RecordTrace(rec, catalog, d)
  {
    var start := NewRecord(
      IntSetting(rec, "_sizeFieldLength", d.recordSizeFieldLength),
      IntSetting(rec, "_sizeFieldPos", d.recordSizeFieldPos),
      IntSetting(rec, "_sizeFieldTag", d.recordSizeFieldTag));
    var fields := Children(rec);
    var ops: seq<Op> := [];
    var counter: map<string, nat> := map[];
    var i := 0;
    while i < |fields|
      invariant 0 <= i <= |fields|
      invariant FieldsTrace(catalog, fields[..i]) == Trace(ops, None)
      invariant forall name :: Occurrence(counter, name) == CountNamed(fields[..i], "DDFField", name)
    {
      var f := fields[i];
      FieldsTraceStep(catalog, fields, i);
      if IsElement(f, "DDFField") {
        var name := NameOf(f);
        var defn := FindFieldDefn(catalog, name);
        if defn.None? {
          HaltedStays(catalog, fields, i + 1);
          return Trace([start] + ops, Some(Reference(name)));
        }
        var fieldOcc := Occurrence(counter, name);
        counter := counter[name := fieldOcc + 1];
        var fieldOps := AssembleField(f, defn.value, fieldOcc);
        ops := ops + fieldOps;
      }
      forall name
        ensures Occurrence(counter, name) == CountNamed(fields[..i + 1], "DDFField", name)
      {
        CountNamedStep(fields, i, "DDFField", name);
      }
      i := i + 1;
    }
    assert fields[..i] == fields;
    t := Trace([start] + ops + [Write], None);
  }
}
