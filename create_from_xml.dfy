/**
 * The rebuild tool as a whole: check the arguments, scan the tag widths,
 * initialise the module, then walk the `DDFModule` element's children in
 * document order, building field definitions and assembling records. The
 * output file is created at the first record.
 */
module CreateFromXml {
  import opened Wrappers
  import opened XmlTree
  import opened Encoder
  import opened CommandLine
  import opened TagWidth
  import opened ModuleDefaults
  import opened FieldDefnBuilder
  import opened RecordAssembler

  /** The tags of the definitions added by the `DDFFieldDefn` elements among `children`, in order. */
  function Catalog(children: seq<Node>): seq<string>
  {
    if children == [] then []
    else
      var last := children[|children| - 1];
      Catalog(children[..|children| - 1]) + if IsElement(last, "DDFFieldDefn") then [Tag(last)] else []
  }

  /** The number of `DDFRecord` elements among `children`. */
  function RecordCount(children: seq<Node>): nat
  {
    if children == [] then 0
    else RecordCount(children[..|children| - 1]) + if IsElement(children[|children| - 1], "DDFRecord") then 1 else 0
  }

  /**
   * The calls made while walking the module's children: a definition sees
   * only the definitions before it, the output is created just before the
   * first record, and a reference error ends the walk.
   */
  function Walk(children: seq<Node>, out: Option<string>, d: Defaults): (t: Trace)
    ensures t.exit.Some? ==> t.exit.value.Reference?
  {
    if children == [] then Trace([], None)
    else
      var init := children[..|children| - 1];
      var prev := Walk(init, out, d);
      var c := children[|children| - 1];
      if prev.exit.Some? then prev
      else if IsElement(c, "DDFFieldDefn") then Trace(prev.ops + DefnOps(c), None)
      else if IsElement(c, "DDFRecord") then
        var create := if RecordCount(init) == 0 then [Create(out)] else [];
        var r := RecordTrace(c, Catalog(init), d);
        Trace(prev.ops + create + r.ops, r.exit)
      else prev
  }

  /** The module set-up calls made once the tag width is known. */
  function Setup(m: Node, width: nat, d: Defaults): seq<Op>
  {
    [Initialize(Settings(m, width)),
     SetFieldControlLength(IntSetting(m, "_fieldControlLength", d.fieldControlLength))]
  }

  /**
   * A whole run: `args` without the program name, `doc` the `DDFModule`
   * element found in the parsed document (None when the document could not
   * be parsed or holds no such element), `d` the encoder's defaults.
   */
  function Run(args: seq<string>, doc: Option<Node>, d: Defaults): Trace
  {
    match Arguments(args)
    case Err(e) => Trace([], Some(e))
    case Ok(a) =>
      match doc
      case None => Trace([], Some(Input))
      case Some(m) =>
        match InferredWidth(Children(m))
        case Err(e) => Trace([], Some(e))
        case Ok(width) =>
          var w := Walk(Children(m), a.output, d);
          if w.exit.None? then Trace(Setup(m, width, d) + w.ops + [Close], None)
          else Trace(Setup(m, width, d) + w.ops, w.exit)
  }

  /** One more child of a walk that has not stopped. */
  lemma WalkStep(children: seq<Node>, out: Option<string>, d: Defaults, i: nat)
    requires i < |children| && Walk(children[..i], out, d).exit.None?
    ensures var c := children[i];
      var prev := Walk(children[..i], out, d).ops;
      && Catalog(children[..i + 1]) == Catalog(children[..i]) + (if IsElement(c, "DDFFieldDefn") then [Tag(c)] else [])
      && RecordCount(children[..i + 1]) == RecordCount(children[..i]) + (if IsElement(c, "DDFRecord") then 1 else 0)
      && Walk(children[..i + 1], out, d)
        == if IsElement(c, "DDFFieldDefn") then Trace(prev + DefnOps(c), None)
           else if IsElement(c, "DDFRecord") then
             var r := RecordTrace(c, Catalog(children[..i]), d);
             Trace(prev + (if RecordCount(children[..i]) == 0 then [Create(out)] else []) + r.ops, r.exit)
           else Trace(prev, None)
  {
    assert children[..i + 1][..i] == children[..i];
  }

  /** Once the walk has stopped, later children add nothing. */
  lemma {:induction false} WalkHaltedStays(children: seq<Node>, out: Option<string>, d: Defaults, k: nat)
    requires k <= |children| && Walk(children[..k], out, d).exit.Some?
    ensures Walk(children, out, d) == Walk(children[..k], out, d)
    decreases |children|
  {
    if k < |children| {
      var init := children[..|children| - 1];
      assert init[..k] == children[..k];
      WalkHaltedStays(init, out, d, k);
    } else {
      assert children[..k] == children;
    }
  }

  /**
   * The loop over the module's children: `created` is the tool's
   * `bCreated` flag and `catalog` the tags of the definitions added to the
   * module so far.
   */
  method WalkChildren(children: seq<Node>, out: Option<string>, d: Defaults) returns (t: Trace)
    ensures t == Walk(children, out, d)
  {
    var created := false;
    var catalog: seq<string> := [];
    var ops: seq<Op> := [];
    var i := 0;
    while i < |children|
      invariant 0 <= i <= |children|
      invariant Walk(children[..i], out, d) == Trace(ops, None)
      invariant created == (RecordCount(children[..i]) > 0)
      invariant catalog == Catalog(children[..i])
    {
      var c := children[i];
      WalkStep(children, out, d, i);
      if IsElement(c, "DDFFieldDefn") {
        var defnOps := BuildFieldDefn(c);
        ops := ops + defnOps;
        catalog := catalog + [AttrOr(c, "tag", "")];
      } else if IsElement(c, "DDFRecord") {
        var create: seq<Op> := [];
        if !created {
          create := [Create(out)];
          created := true;
        }
        var r := AssembleRecord(c, catalog, d);
        ops := ops + create + r.ops;
        if r.exit.Some? {
          WalkHaltedStays(children, out, d, i + 1);
          return Trace(ops, r.exit);
        }
      }
      i := i + 1;
    }
    assert children[..i] == children;
    t := Trace(ops, None);
  }

  /** The tool's `main`, from the argument check to the final `Close`. */
  method Rebuild(args: seq<string>, doc: Option<Node>, d: Defaults) returns (t: Trace)
    ensures t == Run(args, doc, d)
  {
    var a := CheckArguments(args);
    if a.Err? {
      return Trace([], Some(a.error));
    }
    if doc.None? {
      return Trace([], Some(Input));
    }
    var m := doc.value;
    var width := ScanTagWidth(Children(m));
    if width.Err? {
      return Trace([], Some(width.error));
    }
    var setup := [Initialize(Settings(m, width.value)),
                  SetFieldControlLength(IntSetting(m, "_fieldControlLength", d.fieldControlLength))];
    var w := WalkChildren(Children(m), a.value.output, d);
    if w.exit.Some? {
      return Trace(setup + w.ops, w.exit);
    }
    t := Trace(setup + w.ops + [Close], None);
  }

  lemma DefnOpsNoCreateOrWrite(n: Node)
    ensures CreateCount(DefnOps(n)) == 0 && WriteCount(DefnOps(n)) == 0
  {
    var ops := DefnOps(n);
    var subs := SubfieldDefnOps(Children(n));
    assert forall i :: 1 <= i < 1 + |subs| ==> ops[i] == subs[i - 1];
    NoCreateOrWrite(ops);
  }

  /**
   * The output is created once when the module has a record and never
   * otherwise; a walk only stops inside a record.
   */
  lemma {:induction false} CreatedOnce(children: seq<Node>, out: Option<string>, d: Defaults)
    ensures CreateCount(Walk(children, out, d).ops) == if RecordCount(children) > 0 then 1 else 0
    ensures Walk(children, out, d).exit.Some? ==> RecordCount(children) > 0
  {
    if children != [] {
      var init := children[..|children| - 1];
      var c := children[|children| - 1];
      var prev := Walk(init, out, d);
      CreatedOnce(init, out, d);
      if prev.exit.None? {
        if IsElement(c, "DDFFieldDefn") {
          DefnOpsNoCreateOrWrite(c);
          CountsAppend(prev.ops, DefnOps(c));
        } else if IsElement(c, "DDFRecord") {
          RecordStepCounts(children, out, d);
        }
      }
    }
  }

  /**
   * Records are written one by one in document order: a finished walk has
   * written every record; a walk stopped by a reference error has written
   * exactly the records before the one that failed, and no later one.
   */
  lemma {:induction false} RecordsWritten(children: seq<Node>, out: Option<string>, d: Defaults)
    ensures var t := Walk(children, out, d);
      && (t.exit.None? ==> WriteCount(t.ops) == RecordCount(children))
      && (t.exit.Some? ==>
            exists k :: (0 <= k < |children| && IsElement(children[k], "DDFRecord")
                         && Walk(children[..k], out, d).exit.None?
                         && t.exit == RecordTrace(children[k], Catalog(children[..k]), d).exit
                         && WriteCount(t.ops) == RecordCount(children[..k])))
  {
    if children != [] {
      var init := children[..|children| - 1];
      var c := children[|children| - 1];
      var prev := Walk(init, out, d);
      RecordsWritten(init, out, d);
      if prev.exit.Some? {
        var k :| 0 <= k < |init| && IsElement(init[k], "DDFRecord")
            && Walk(init[..k], out, d).exit.None?
            && prev.exit == RecordTrace(init[k], Catalog(init[..k]), d).exit
            && WriteCount(prev.ops) == RecordCount(init[..k]);
        assert init[..k] == children[..k];
      } else if IsElement(c, "DDFFieldDefn") {
        DefnOpsNoCreateOrWrite(c);
        CountsAppend(prev.ops, DefnOps(c));
      } else if IsElement(c, "DDFRecord") {
        RecordStepCounts(children, out, d);
        if RecordTrace(c, Catalog(init), d).exit.Some? {
          assert children[..|children| - 1] == init;
        }
      }
    }
  }

  /**
   * A record that ends a walk which had not stopped creates the output when
   * it is the first record, and adds one write when it finishes and none
   * when it stops.
   */
  lemma RecordStepCounts(children: seq<Node>, out: Option<string>, d: Defaults)
    requires children != [] && IsElement(children[|children| - 1], "DDFRecord")
    requires Walk(children[..|children| - 1], out, d).exit.None?
    ensures var init := children[..|children| - 1];
      var r := RecordTrace(children[|children| - 1], Catalog(init), d);
      var t := Walk(children, out, d);
      && t.exit == r.exit
      && CreateCount(t.ops) == CreateCount(Walk(init, out, d).ops) + (if RecordCount(init) == 0 then 1 else 0)
      && WriteCount(t.ops) == WriteCount(Walk(init, out, d).ops) + (if r.exit.None? then 1 else 0)
  {
    var init := children[..|children| - 1];
    var c := children[|children| - 1];
    var prev := Walk(init, out, d);
    var create := if RecordCount(init) == 0 then [Create(out)] else [];
    var r := RecordTrace(c, Catalog(init), d);
    RecordWrittenLast(c, Catalog(init), d);
    CountsAppend(prev.ops, create);
    CountsAppend(prev.ops + create, r.ops);
    assert CreateCount(create) == (if RecordCount(init) == 0 then 1 else 0) && WriteCount(create) == 0;
  }

  /** Every `Create` call in `ops` names `out`. */
  predicate CreatesOnly(ops: seq<Op>, out: Option<string>)
  {
    forall i :: 0 <= i < |ops| && ops[i].Create? ==> ops[i].outFile == out
  }

  lemma CreatesOnlyAppend(a: seq<Op>, b: seq<Op>, out: Option<string>)
    requires CreatesOnly(a, out) && CreatesOnly(b, out)
    ensures CreatesOnly(a + b, out)
  {
    forall i | 0 <= i < |a + b| && (a + b)[i].Create?
      ensures (a + b)[i].outFile == out
    {
      if i >= |a| {
        assert (a + b)[i] == b[i - |a|];
      }
    }
  }

  /** Every `Create` call names the output given on the command line. */
  lemma {:induction false} CreateNamesOutput(children: seq<Node>, out: Option<string>, d: Defaults)
    ensures CreatesOnly(Walk(children, out, d).ops, out)
  {
    if children != [] {
      var init := children[..|children| - 1];
      var c := children[|children| - 1];
      var prev := Walk(init, out, d);
      CreateNamesOutput(init, out, d);
      if prev.exit.None? {
        if IsElement(c, "DDFFieldDefn") {
          DefnOpsNoCreateOrWrite(c);
          CreateCountZero(DefnOps(c));
          CreatesOnlyAppend(prev.ops, DefnOps(c), out);
        } else if IsElement(c, "DDFRecord") {
          var create := if RecordCount(init) == 0 then [Create(out)] else [];
          var r := RecordTrace(c, Catalog(init), d);
          RecordWrittenLast(c, Catalog(init), d);
          CreateCountZero(r.ops);
          CreatesOnlyAppend(prev.ops, create, out);
          CreatesOnlyAppend(prev.ops + create, r.ops, out);
        }
      }
    }
  }

  /**
   * The fatal exits before any encoder call: a usage error exactly for no
   * argument or three and more, an input error for a missing module
   * element, a schema error for inconsistent tag widths.
   */
  lemma EarlyExits(args: seq<string>, doc: Option<Node>, d: Defaults)
    ensures var t := Run(args, doc, d);
      && (t.exit == Some(Usage) <==> |args| == 0 || |args| > 2)
      && (t.exit == Some(Usage) ==> t.ops == [])
      && (1 <= |args| <= 2 && doc.None? ==> t == Trace([], Some(Input)))
      && (1 <= |args| <= 2 && doc.Some? && InferredWidth(Children(doc.value)).Err? ==> t == Trace([], Some(Schema)))
  {
  }

  /** Past the tag-width scan, a run is the set-up calls, the walk, and `Close` when nothing failed. */
  lemma RunPastScan(args: seq<string>, m: Node, d: Defaults)
    requires 1 <= |args| <= 2 && InferredWidth(Children(m)).Ok?
    ensures var w := Walk(Children(m), Arguments(args).value.output, d);
      var setup := Setup(m, InferredWidth(Children(m)).value, d);
      Run(args, Some(m), d) == if w.exit.None? then Trace(setup + w.ops + [Close], None) else Trace(setup + w.ops, w.exit)
  {
  }

  /** Creates and writes of set-up calls that make neither, a walk that did not stop, then `Close`. */
  lemma CompletedCounts(setup: seq<Op>, children: seq<Node>, out: Option<string>, d: Defaults)
    requires CreateCount(setup) == 0 && WriteCount(setup) == 0
    requires Walk(children, out, d).exit.None?
    ensures var ops := setup + Walk(children, out, d).ops + [Close];
      && CreateCount(ops) == (if RecordCount(children) > 0 then 1 else 0)
      && WriteCount(ops) == RecordCount(children)
  {
    var w := Walk(children, out, d);
    CreatedOnce(children, out, d);
    RecordsWritten(children, out, d);
    NoCreateOrWrite([Close]);
    CountsAppend(setup, w.ops);
    CountsAppend(setup + w.ops, [Close]);
  }

  /**
   * A run that finishes initialises the module first, creates the output
   * exactly when there is a record, writes every record, and closes the
   * module last.
   */
  lemma CompletedRun(args: seq<string>, m: Node, d: Defaults)
    requires 1 <= |args| <= 2 && InferredWidth(Children(m)).Ok?
    requires Run(args, Some(m), d).exit.None?
    ensures var t := Run(args, Some(m), d);
      && t.ops[0] == Initialize(Settings(m, InferredWidth(Children(m)).value))
      && t.ops[|t.ops| - 1] == Close
      && CreateCount(t.ops) == (if RecordCount(Children(m)) > 0 then 1 else 0)
      && WriteCount(t.ops) == RecordCount(Children(m))
  {
    var out := Arguments(args).value.output;
    var setup := Setup(m, InferredWidth(Children(m)).value, d);
    var w := Walk(Children(m), out, d);
    RunPastScan(args, m, d);
    assert w.exit.None? && Run(args, Some(m), d).ops == setup + w.ops + [Close];
    NoCreateOrWrite(setup);
    CompletedCounts(setup, Children(m), out, d);
  }

  /** With a single argument the run goes on, and any `Create` receives no file name. */
  lemma SingleArgumentRun(args: seq<string>, doc: Option<Node>, d: Defaults)
    requires |args| == 1
    ensures Run(args, doc, d).exit != Some(Usage)
    ensures CreatesOnly(Run(args, doc, d).ops, None)
  {
    if doc.Some? && InferredWidth(Children(doc.value)).Ok? {
      var m := doc.value;
      var w := Walk(Children(m), None, d);
      var setup := Setup(m, InferredWidth(Children(m)).value, d);
      RunPastScan(args, m, d);
      CreateNamesOutput(Children(m), None, d);
      assert CreatesOnly(setup, None) && CreatesOnly([Close], None);
      CreatesOnlyAppend(setup, w.ops, None);
      CreatesOnlyAppend(setup + w.ops, [Close], None);
    }
  }
}
