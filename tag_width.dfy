/**
 * The tag-width scan: every field definition of a module must have a tag of
 * the same length. The first non-empty tag fixes the width (a width of zero
 * means "not yet known"); any later tag of another length, the empty tag
 * included, is fatal.
 */
module TagWidth {
  import opened Wrappers
  import opened XmlTree
  import opened Encoder

  function Tag(n: Node): string
  {
    AttrOr(n, "tag", "")
  }

  /** The tag lengths of the `DDFFieldDefn` elements among `children`, in document order. */
  function TagLengths(children: seq<Node>): (ls: seq<nat>)
    ensures |ls| <= |children|
  {
    if children == [] then []
    else
      var last := children[|children| - 1];
      TagLengths(children[..|children| - 1]) + if IsElement(last, "DDFFieldDefn") then [|Tag(last)|] else []
  }

  /** The first non-zero length, or zero when there is none. */
  function FirstNonZero(ls: seq<nat>): (w: nat)
    ensures w == 0 <==> forall i :: 0 <= i < |ls| ==> ls[i] == 0
    ensures w != 0 ==> exists k :: 0 <= k < |ls| && ls[k] == w && forall j :: 0 <= j < k ==> ls[j] == 0
  {
    if ls == [] then 0
    else if ls[0] != 0 then ls[0]
    else
      var w := FirstNonZero(ls[1..]);
      assert w != 0 ==> exists k :: 0 <= k < |ls[1..]| && ls[1..][k] == w && forall j :: 0 <= j < k ==> ls[1..][j] == 0;
      assert w != 0 ==> exists k :: 1 <= k < |ls| && ls[k] == w && forall j :: 0 <= j < k ==> ls[j] == 0;
      w
  }

  /** No tag after a non-empty one has a different length. */
  predicate Consistent(ls: seq<nat>)
  {
    forall i, j :: 0 <= i < j < |ls| && ls[i] != 0 ==> ls[j] == ls[i]
  }

  /** The width inferred from the module's children, or the schema error. */
  function InferredWidth(children: seq<Node>): Result<nat, Error>
  {
    var ls := TagLengths(children);
    if Consistent(ls) then Ok(FirstNonZero(ls)) else Err(Schema)
  }

  /** In a consistent module every non-empty tag has the inferred width. */
  lemma {:induction false} ConsistentWidth(ls: seq<nat>)
    requires Consistent(ls)
    ensures forall i :: 0 <= i < |ls| && ls[i] != 0 ==> ls[i] == FirstNonZero(ls)
  {
    if ls != [] && ls[0] == 0 {
      assert Consistent(ls[1..]);
      ConsistentWidth(ls[1..]);
      assert forall i :: 1 <= i < |ls| ==> ls[i] == ls[1..][i - 1];
    }
  }

  lemma {:induction false} FirstNonZeroSnoc(ls: seq<nat>, x: nat)
    ensures FirstNonZero(ls + [x]) == if FirstNonZero(ls) == 0 then x else FirstNonZero(ls)
  {
    if ls != [] {
      assert (ls + [x])[1..] == ls[1..] + [x];
      FirstNonZeroSnoc(ls[1..], x);
    }
  }

  lemma ConsistentSnoc(ls: seq<nat>, x: nat)
    requires Consistent(ls)
    ensures Consistent(ls + [x]) <==> FirstNonZero(ls) == 0 || x == FirstNonZero(ls)
  {
    ConsistentWidth(ls);
    var w := FirstNonZero(ls);
    if w != 0 && x != w {
      var k :| 0 <= k < |ls| && ls[k] == w;
      assert (ls + [x])[k] != 0 && (ls + [x])[|ls|] != (ls + [x])[k];
    }
  }

  /**
   * The scan loop over the module's children: `width` is zero until a
   * non-empty tag is met.
   */
  method ScanTagWidth(children: seq<Node>) returns (r: Result<nat, Error>)
    ensures r == InferredWidth(children)
  {
    var width: nat := 0;
    var i := 0;
    while i < |children|
      invariant 0 <= i <= |children|
      invariant Consistent(TagLengths(children[..i]))
      invariant width == FirstNonZero(TagLengths(children[..i]))
    {
      var child := children[i];
      assert children[..i + 1][..i] == children[..i];
      if !IsElement(child, "DDFFieldDefn") {
        assert TagLengths(children[..i + 1]) == TagLengths(children[..i]);
      } else {
        var tag := AttrOr(child, "tag", "");
        FirstNonZeroSnoc(TagLengths(children[..i]), |tag|);
        ConsistentSnoc(TagLengths(children[..i]), |tag|);
        if width == 0 {
          width := |tag|;
        } else if width != |tag| {
          assert children[..i + 1] <= children;
          TagLengthsPrefix(children[..i + 1], children);
          return Err(Schema);
        }
      }
      i := i + 1;
    }
    assert children[..i] == children;
    r := Ok(width);
  }

  /** An inconsistency in a prefix stays in the whole. */
  lemma {:induction false} TagLengthsPrefix(pre: seq<Node>, all: seq<Node>)
    requires pre <= all
    ensures TagLengths(pre) <= TagLengths(all)
    ensures !Consistent(TagLengths(pre)) ==> !Consistent(TagLengths(all))
    decreases |all|
  {
    if |pre| < |all| {
      TagLengthsPrefix(pre, all[..|all| - 1]);
    } else {
      assert pre == all;
    }
    var a, b := TagLengths(pre), TagLengths(all);
    if !Consistent(a) {
      var i, j :| 0 <= i < j < |a| && a[i] != 0 && a[j] != a[i];
      assert b[i] == a[i] && b[j] == a[j];
    }
  }
}
