/** The nodes of the B-tree: their contents as sequences, and the in-place code that works on them. */
module BTreeNodes {
  import opened Sequences

  /** (pageSize - header) / (key + payload), for 8-byte keys and values. */
  const LEAF_MAX := 255
  const INNER_MAX := 255

  /** The number of keys below k: where k is, or would be inserted. */
  function LowerBound(keys: seq<int>, k: int): (r: nat)
    ensures r <= |keys|
    ensures forall i :: 0 <= i < r ==> keys[i] < k
    ensures r < |keys| ==> k <= keys[r]
  {
    if keys == [] || k <= keys[0] then 0 else 1 + LowerBound(keys[1..], k)
  }

  /** In an ordered sequence there is only one such place. */
  lemma LowerBoundIs(keys: seq<int>, k: int, r: nat)
    requires Increasing(keys) && r <= |keys|
    requires r > 0 ==> keys[r - 1] < k
    requires r < |keys| ==> k <= keys[r]
    ensures LowerBound(keys, k) == r
  {
  }

  lemma LowerBoundFinds(keys: seq<int>, k: int)
    requires Increasing(keys)
    ensures k in keys <==> LowerBound(keys, k) < |keys| && keys[LowerBound(keys, k)] == k
  {
    if k in keys {
      var i :| 0 <= i < |keys| && keys[i] == k;
      LowerBoundIs(keys, k, i);
    }
  }

  datatype Body =
    | Leaf(keys: seq<int>, payloads: seq<int>)
    | Inner(keys: seq<int>, children: seq<nat>)

  predicate LeafOk(b: Body) {
    b.Leaf? && |b.payloads| == |b.keys| <= LEAF_MAX && Increasing(b.keys)
  }

  predicate InnerOk(b: Body) {
    b.Inner? && 1 <= |b.keys| < INNER_MAX && |b.children| == |b.keys| + 1 && Increasing(b.keys)
  }

  predicate Full(b: Body) {
    match b
    case Leaf(keys, _) => |keys| == LEAF_MAX
    case Inner(keys, _) => |keys| == INNER_MAX - 1
  }

  /** What BTreeLeaf::insert leaves: the payload replaced, or the pair put in its place. */
  function Upsert(b: Body, k: int, v: int): Body
    requires LeafOk(b)
  {
    var pos := LowerBound(b.keys, k);
    if pos < |b.keys| && b.keys[pos] == k then
      b.(payloads := b.payloads[pos := v])
    else
      Leaf(b.keys[..pos] + [k] + b.keys[pos..], b.payloads[..pos] + [v] + b.payloads[pos..])
  }

  /** What the pair of leaves holds after BTreeLeaf::split, and the separator. */
  function SplitPoint(b: Body): nat
    requires (LeafOk(b) || InnerOk(b)) && Full(b)
  {
    match b
    case Leaf(keys, _) => |keys| / 2
    case Inner(keys, _) => |keys| / 2 - 1
  }

  function LeftHalf(b: Body): Body
    requires (LeafOk(b) || InnerOk(b)) && Full(b)
  {
    var c := SplitPoint(b);
    match b
    case Leaf(keys, payloads) => Leaf(keys[..c], payloads[..c])
    case Inner(keys, children) => Inner(keys[..c], children[..c + 1])
  }

  function RightHalf(b: Body): Body
    requires (LeafOk(b) || InnerOk(b)) && Full(b)
  {
    var c := SplitPoint(b);
    match b
    case Leaf(keys, payloads) => Leaf(keys[c..], payloads[c..])
    case Inner(keys, children) => Inner(keys[c + 1..], children[c + 1..])
  }

  function Separator(b: Body): int
    requires (LeafOk(b) || InnerOk(b)) && Full(b)
  {
    var c := SplitPoint(b);
    match b
    case Leaf(keys, _) => keys[c - 1]
    case Inner(keys, _) => keys[c]
  }

  /** What BTreeInner::insert leaves: the separator in its place and the new child to the right of it. */
  function Grow(b: Body, sep: int, child: nat): Body
    requires InnerOk(b)
  {
    var pos := LowerBound(b.keys, sep);
    Inner(b.keys[..pos] + [sep] + b.keys[pos..], b.children[..pos + 1] + [child] + b.children[pos + 1..])
  }

  function Lookup(b: Body, k: int): (r: (bool, int))
    requires LeafOk(b)
    ensures r.0 ==> exists i :: 0 <= i < |b.keys| && b.keys[i] == k && b.payloads[i] == r.1
  {
    var pos := LowerBound(b.keys, k);
    if pos < |b.keys| && b.keys[pos] == k then (true, b.payloads[pos]) else (false, 0)
  }

  // ----- the code -----

  /** The do-while binary search of both node kinds, on the whole page; an empty node may report 1. */
  method FindLowerBound(keys: array<int>, count: nat, k: int) returns (r: nat)
    requires count <= keys.Length && keys.Length > 0 && Increasing(keys[..count])
    ensures count > 0 ==> r == LowerBound(keys[..count], k)
    ensures count == 0 ==> r <= 1
  {
    var lower, upper := 0, count;
    var first := true;
    while first || lower < upper
      invariant if count > 0 then lower <= upper <= count else upper == 0 && lower <= 1
      invariant first ==> lower == 0 && upper == count
      invariant count > 0 ==> (lower > 0 ==> keys[lower - 1] < k) && (upper < count ==> k < keys[upper])
      decreases first, upper - lower
    {
      var mid := (upper - lower) / 2 + lower;
      first := false;
      if k < keys[mid] {
        upper := mid;
      } else if k > keys[mid] {
        lower := mid + 1;
      } else {
        if count > 0 {
          LowerBoundIs(keys[..count], k, mid);
        }
        return mid;
      }
    }
    if count > 0 {
      LowerBoundIs(keys[..count], k, lower);
    }
    return lower;
  }

  /** The new child enters at pos and then changes places with the child it was split from. */
  method InsertChild(a: array<nat>, pos: nat, count: nat, child: nat)
    requires pos < count < a.Length
    modifies a
    ensures a[..count + 1] == old(a[..count])[..pos + 1] + [child] + old(a[..count])[pos + 1..]
  {
    ghost var cs := a[..count];
    InsertAt(a, pos, count, child);
    ghost var shifted := a[..count + 1];
    assert shifted == cs[..pos] + [child] + cs[pos..];
    a[pos], a[pos + 1] := a[pos + 1], a[pos];
    assert a[..count + 1] == shifted[pos := shifted[pos + 1]][pos + 1 := shifted[pos]];
    assert a[..count + 1] == cs[..pos + 1] + [child] + cs[pos + 1..];
  }

  lemma IncreasingInsert(keys: seq<int>, k: int)
    requires Increasing(keys) && k !in keys
    ensures var pos := LowerBound(keys, k); Increasing(keys[..pos] + [k] + keys[pos..])
  {
    var pos := LowerBound(keys, k);
    assert pos < |keys| ==> keys[pos] != k;
  }

  class BTreeLeaf {
    var count: nat
    const keys: array<int>
    const payloads: array<int>

    ghost predicate Valid()
      reads this, keys, payloads
    {
      && keys.Length == payloads.Length == LEAF_MAX
      && keys != payloads
      && count <= LEAF_MAX
      && Increasing(keys[..count])
    }

    ghost function Contents(): Body
      reads this, keys, payloads
      requires Valid()
    {
      Leaf(keys[..count], payloads[..count])
    }

    constructor ()
      ensures Valid() && Contents() == Leaf([], []) && fresh(keys) && fresh(payloads)
    {
      count := 0;
      keys := new int[LEAF_MAX];
      payloads := new int[LEAF_MAX];
    }

    method Insert(k: int, p: int)
      requires Valid() && count < LEAF_MAX
      modifies this, keys, payloads
      ensures Valid() && Contents() == Upsert(old(Contents()), k, p)
    {
      if count != 0 {
        var pos := FindLowerBound(keys, count, k);
        if pos < count && keys[pos] == k {
          payloads[pos] := p;
          return;
        }
        ghost var ks, ps := keys[..count], payloads[..count];
        LowerBoundFinds(ks, k);
        IncreasingInsert(ks, k);
        hide LowerBound;
        InsertAt(keys, pos, count, k);
        InsertAt(payloads, pos, count, p);
      } else {
        keys[0] := k;
        payloads[0] := p;
        assert keys[..1] == [k] && payloads[..1] == [p];
      }
      count := count + 1;
    }

    method Split() returns (newLeaf: BTreeLeaf, sep: int)
      requires Valid() && count == LEAF_MAX
      modifies this
      ensures Valid() && newLeaf.Valid() && fresh(newLeaf)
      ensures Contents() == LeftHalf(old(Contents()))
      ensures newLeaf.Contents() == RightHalf(old(Contents()))
      ensures sep == Separator(old(Contents()))
    {
      ghost var ks, ps := keys[..count], payloads[..count];
      newLeaf := new BTreeLeaf();
      newLeaf.count := count - count / 2;
      count := count - newLeaf.count;
      CopyTo(keys, count, newLeaf.count, newLeaf.keys);
      CopyTo(payloads, count, newLeaf.count, newLeaf.payloads);
      sep := keys[count - 1];
      assert keys[..count] == ks[..count] && newLeaf.keys[..newLeaf.count] == ks[count..];
      assert payloads[..count] == ps[..count] && newLeaf.payloads[..newLeaf.count] == ps[count..];
    }
  }

  class BTreeInner {
    var count: nat
    const children: array<nat>
    const keys: array<int>

    ghost predicate Valid()
      reads this, keys, children
    {
      && keys.Length == children.Length == INNER_MAX
      && (keys as object) != (children as object)
      && 1 <= count < INNER_MAX
      && Increasing(keys[..count])
    }

    ghost function Contents(): Body
      reads this, keys, children
      requires Valid()
    {
      Inner(keys[..count], children[..count + 1])
    }

    /** A node with one separator and its two children. */
    constructor (k: int, leftChild: nat, rightChild: nat)
      ensures Valid() && Contents() == Inner([k], [leftChild, rightChild]) && fresh(keys) && fresh(children)
    {
      count := 1;
      keys := new int[INNER_MAX];
      children := new nat[INNER_MAX];
      new;
      keys[0] := k;
      children[0] := leftChild;
      children[1] := rightChild;
      assert keys[..1] == [k] && children[..2] == [leftChild, rightChild];
    }

    method Insert(k: int, child: nat)
      requires Valid() && count < INNER_MAX - 1 && k !in keys[..count]
      modifies this, keys, children
      ensures Valid() && Contents() == Grow(old(Contents()), k, child)
    {
      var pos := FindLowerBound(keys, count, k);
      ghost var ks, cs := keys[..count], children[..count + 1];
      LowerBoundFinds(ks, k);
      IncreasingInsert(ks, k);
      hide LowerBound;
      InsertAt(keys, pos, count, k);
      InsertChild(children, pos, count + 1, child);
      count := count + 1;
    }

    method Split() returns (newInner: BTreeInner, sep: int)
      requires Valid() && count == INNER_MAX - 1
      modifies this
      ensures Valid() && newInner.Valid() && fresh(newInner)
      ensures Contents() == LeftHalf(old(Contents()))
      ensures newInner.Contents() == RightHalf(old(Contents()))
      ensures sep == Separator(old(Contents()))
    {
      ghost var ks, cs := keys[..count], children[..count + 1];
      newInner := new BTreeInner(0, 0, 0);
      newInner.count := count - count / 2;
      count := count - newInner.count - 1;
      sep := keys[count];
      CopyTo(keys, count + 1, newInner.count, newInner.keys);
      CopyTo(children, count + 1, newInner.count + 1, newInner.children);
      assert keys[..count] == ks[..count] && newInner.keys[..newInner.count] == ks[count + 1..];
      assert children[..count + 1] == cs[..count + 1] && newInner.children[..newInner.count + 1] == cs[count + 1..];
    }
  }
}
