/** Removal from the radix tree: nodes shrink, and a node left with one child is collapsed into it. */
module ArtRemove {
  import opened ArtTree

  /** The count field is one byte wide. */
  function Count(n: Node): nat
    requires n.Inner?
  {
    |n.children| % 256
  }

  predicate IsUnderfull(n: Node)
    requires n.Inner?
  {
    match n.kind
    case N4 => false
    case N16 => Count(n) == 3
    case N48 => Count(n) == 12
    case N256 => Count(n) == 37
  }

  function Smaller(kind: Kind): Kind {
    match kind
    case N256 => N48
    case N48 => N16
    case _ => N4
  }

  /** removeAndShrink: one child less, in a node of the next smaller kind if this one is underfull. */
  function DropChild(n: Node, b: Byte, root: bool): Node
    requires n.Inner?
  {
    n.(kind := if IsUnderfull(n) && !root then Smaller(n.kind) else n.kind, children := n.children - {b})
  }

  /** addPrefixBefore: the bytes of the collapsed parent and the byte that led here come before the own prefix. */
  function Prepend(parent: Node, b: Byte, n: Node): Node
    requires parent.Inner? && n.Inner? && |parent.stored| == Min(parent.prefixLength, MAX_STORED)
    requires |n.stored| == Min(n.prefixLength, MAX_STORED)
  {
    var copied := Min(MAX_STORED, parent.prefixLength + 1);
    var own := n.stored[..Min(n.prefixLength, MAX_STORED - copied)];
    var before := if parent.prefixLength < MAX_STORED then parent.stored + [b] else parent.stored;
    n.(prefixLength := n.prefixLength + parent.prefixLength + 1, stored := before + own)
  }

  /** The other child of a node with two. */
  function SecondChild(n: Node, b: Byte): (c: Byte)
    requires n.Inner? && |n.children| == 2 && b in n.children
    ensures c in n.children && c != b && n.children.Keys == {b, c}
  {
    var rest := n.children - {b};
    RestIsOne(n.children, b);
    assert exists d :: d in n.children && d != b && d in rest;
    var c := FirstChild(rest, 0);
    assert c < 256;
    assert forall d :: d in n.children.Keys <==> d == b || d == c;
    c
  }

  lemma {:induction false} RestIsOne(cs: map<Byte, Node>, b: Byte)
    requires |cs| == 2 && b in cs
    ensures forall c, d :: c in cs && d in cs && c != b && d != b ==> c == d
    ensures exists c :: c in cs && c != b
  {
    var keys := cs.Keys - {b};
    assert |cs.Keys| == |cs|;
    assert |keys| == 1;
    assert (cs - {b}).Keys == keys;
    var c :| c in keys;
    assert |keys - {c}| == 0;
    forall d | d in cs && d != b
      ensures d == c
    {
      assert d == c || d in keys - {c};
    }
    assert c in cs && c != b;
  }

  /** The shape alone: prefixes stay within the keys and every node below the root is of the right size. */
  ghost predicate Deep(n: Node, level: nat, len: nat) {
    n.Inner? ==>
      && level + n.prefixLength < len
      && |n.stored| == Min(n.prefixLength, MAX_STORED)
      && forall b :: b in n.children ==>
           && Deep(n.children[b], level + n.prefixLength + 1, len)
           && (n.children[b].Inner? ==> Sized(n.children[b].kind, |n.children[b].children|))
  }

  lemma {:induction false} UnderDeep(load: nat -> Key, len: nat, n: Node, path: Key, p: Key)
    requires Under(load, len, n, path, p)
    ensures Deep(n, |path|, len)
    decreases n
  {
    forall b | b in n.children
      ensures Deep(n.children[b], |path| + n.prefixLength + 1, len)
      ensures n.children[b].Inner? ==> Sized(n.children[b].kind, |n.children[b].children|)
    {
      var child := n.children[b];
      assert Ok(load, len, child, Extend(path, p, b));
      if child.Inner? {
        var q :| Under(load, len, child, Extend(path, p, b), q);
        UnderDeep(load, len, child, Extend(path, p, b), q);
      }
    }
  }

  /** What replaces the node after the removal. A node left with one child gives way to that child. */
  function Remove(n: Node, k: Key, tid: nat, level: nat, root: bool): Node
    requires n.Inner? && Deep(n, level, |k|) && (!root ==> Sized(n.kind, |n.children|))
    decreases n
  {
    var check := CheckPrefix(n, k, level);
    if check.NoMatch? then n
    else
      var b := k[check.level];
      if b !in n.children then n
      else
        var child := n.children[b];
        if child.Inner? then n.(children := n.children[b := Remove(child, k, tid, check.level + 1, false)])
        else if child.tid != tid then n
        else
          assert forall c :: c in n.children ==> Deep(n.children[c], level + n.prefixLength + 1, |k|);
          RemoveLeaf(n, b, root)
  }

  /** The leaf at byte b goes, and the node with it if it had two children. */
  function RemoveLeaf(n: Node, b: Byte, root: bool): Node
    requires n.Inner? && b in n.children && (!root ==> Sized(n.kind, |n.children|))
    requires |n.stored| == Min(n.prefixLength, MAX_STORED)
    requires forall c :: c in n.children && n.children[c].Inner? ==> |n.children[c].stored| == Min(n.children[c].prefixLength, MAX_STORED)
  {
    if Count(n) == 2 && !root then
      var c := SecondChild(n, b);
      if n.children[c].Leaf? then n.children[c] else Prepend(n, c, n.children[c])
    else DropChild(n, b, root)
  }

  // ----- what removal leaves -----

  /** Everything but the identifier. */
  ghost predicate Removed(n: Node, tid: nat, n': Node) {
    forall x :: Has(n', x) <==> Has(n, x) && x != tid
  }

  lemma {:induction false} NotThere(n: Node, tid: nat)
    requires !Has(n, tid)
    ensures Removed(n, tid, n)
  {
  }

  /** A node with two children is an N4, so its second child can always be asked for. */
  lemma {:induction false} TwoMeansN4(n: Node)
    requires n.Inner? && Sized(n.kind, |n.children|)
    ensures Count(n) == 2 <==> |n.children| == 2
    ensures Count(n) == 2 ==> n.kind == N4
    ensures |n.children| >= 2
  {
  }

  lemma {:induction false} DroppedSize(n: Node, b: Byte)
    requires n.Inner? && b in n.children && Sized(n.kind, |n.children|) && Count(n) != 2
    ensures Sized(DropChild(n, b, false).kind, |DropChild(n, b, false).children|)
  {
    var cs := n.children - {b};
    assert cs.Keys == n.children.Keys - {b};
    assert |cs.Keys| == |cs| && |n.children.Keys| == |n.children|;
  }

  lemma {:induction false} HasDropped(n: Node, b: Byte, n': Node, x: nat)
    requires n.Inner? && n'.Inner? && n'.children == n.children - {b}
    ensures Has(n', x) <==> HasElsewhere(n, b, x)
  {
    if HasElsewhere(n, b, x) {
      var a :| a in n.children && a != b && Has(n.children[a], x);
      assert a in n'.children && Has(n'.children[a], x);
    }
    if Has(n', x) {
      var a :| a in n'.children && Has(n'.children[a], x);
      assert a in n.children && a != b && Has(n.children[a], x);
    }
  }

  lemma {:induction false} UnderDropped(load: nat -> Key, len: nat, n: Node, path: Key, p: Key, b: Byte, n': Node)
    requires Under(load, len, n, path, p)
    requires n'.Inner? && n'.prefixLength == n.prefixLength && n'.stored == n.stored && n'.children == n.children - {b}
    ensures Under(load, len, n', path, p)
  {
  }

  /** What is elsewhere is all that is left when the leaf with the key goes. */
  lemma {:induction false} ElsewhereIsLeft(load: nat -> Key, k: Key, n: Node, path: Key, p: Key, tid: nat, x: nat)
    requires Under(load, |k|, n, path, p) && load(tid) == k
    requires k[|path| + |p|] in n.children && n.children[k[|path| + |p|]] == Leaf(tid)
    ensures HasElsewhere(n, k[|path| + |p|], x) <==> Has(n, x) && x != tid
  {
    HasSplit(n, k[|path| + |p|], x);
    if HasElsewhere(n, k[|path| + |p|], x) {
      ElsewhereDiffers(load, |k|, n, path, p, k, x);
    }
  }

  lemma {:induction false} ShorterPath(load: nat -> Key, len: nat, t: nat, path: Key, p: Key, b: Byte)
    requires Ok(load, len, Leaf(t), Extend(path, p, b))
    ensures Ok(load, len, Leaf(t), path)
  {
    assert load(t)[..|path|] == Extend(path, p, b)[..|path|];
  }

  /** The stored bytes after a collapse are the first bytes of the joined prefix. */
  lemma {:induction false} PrependStored(parent: Node, b: Byte, n: Node, p: Key, q: Key)
    requires parent.Inner? && n.Inner? && |p| == parent.prefixLength && |q| == n.prefixLength
    requires parent.stored == Stored(p) && n.stored == Stored(q)
    ensures Prepend(parent, b, n).prefixLength == |p + [b] + q|
    ensures Prepend(parent, b, n).stored == Stored(p + [b] + q)
  {
    var whole := p + [b] + q;
    var r := Prepend(parent, b, n).stored;
    if |p| >= MAX_STORED {
      assert r == p[..MAX_STORED];
    } else {
      var own := Min(|q|, MAX_STORED - |p| - 1);
      assert r == p + [b] + q[..own];
    }
  }

  lemma {:induction false} PrependUnder(load: nat -> Key, len: nat, parent: Node, path: Key, p: Key, b: Byte, q: Key)
    requires Under(load, len, parent, path, p) && b in parent.children
    requires Under(load, len, parent.children[b], Extend(path, p, b), q)
    ensures |parent.stored| == Min(parent.prefixLength, MAX_STORED)
    ensures |parent.children[b].stored| == Min(parent.children[b].prefixLength, MAX_STORED)
    ensures Under(load, len, Prepend(parent, b, parent.children[b]), path, p + [b] + q)
  {
    var n := parent.children[b];
    var r := Prepend(parent, b, n);
    PrependStored(parent, b, n, p, q);
    forall a | a in r.children
      ensures Ok(load, len, r.children[a], Extend(path, p + [b] + q, a))
    {
      assert Extend(path, p + [b] + q, a) == Extend(Extend(path, p, b), q, a);
    }
  }

  /** The result of a removal in place of a node at the end of a path. */
  ghost predicate ResultOk(load: nat -> Key, len: nat, n: Node, path: Key, root: bool) {
    if root then InnerOk(load, len, n, path, true) else Ok(load, len, n, path)
  }

  lemma {:induction false} DropIsCorrect(load: nat -> Key, k: Key, n: Node, path: Key, p: Key, tid: nat, b: Byte, root: bool)
    requires Under(load, |k|, n, path, p) && RightSize(n, path, root) && load(tid) == k && |path| + |p| < |k| && b == k[|path| + |p|]
    requires b in n.children && n.children[b] == Leaf(tid) && (Count(n) != 2 || root)
    ensures ResultOk(load, |k|, DropChild(n, b, root), path, root) && Removed(n, tid, DropChild(n, b, root))
  {
    var n' := DropChild(n, b, root);
    forall x
      ensures Has(n', x) <==> Has(n, x) && x != tid
    {
      HasDropped(n, b, n', x);
      ElsewhereIsLeft(load, k, n, path, p, tid, x);
    }
    UnderDropped(load, |k|, n, path, p, b, n');
    if !root {
      DroppedSize(n, b);
    }
    assert RightSize(n', path, root);
    NowOk(load, |k|, n', path, p, root);
    if !root {
      InnerIsOk(load, |k|, n', path);
    }
  }

  lemma {:induction false} HasSecond(n: Node, b: Byte, x: nat)
    requires n.Inner? && |n.children| == 2 && b in n.children
    ensures HasElsewhere(n, b, x) <==> Has(n.children[SecondChild(n, b)], x)
  {
    var c := SecondChild(n, b);
    assert forall a :: a in n.children ==> a in n.children.Keys;
  }

  lemma {:induction false} CollapseIsCorrect(load: nat -> Key, k: Key, n: Node, path: Key, p: Key, tid: nat, b: Byte)
    requires Under(load, |k|, n, path, p) && |n.children| == 2 && load(tid) == k && |path| + |p| < |k| && b == k[|path| + |p|]
    requires b in n.children && n.children[b] == Leaf(tid) && |n.stored| == Min(n.prefixLength, MAX_STORED)
    ensures var c := SecondChild(n, b);
      if n.children[c].Leaf? then Ok(load, |k|, n.children[c], path) && Removed(n, tid, n.children[c])
      else
        && |n.children[c].stored| == Min(n.children[c].prefixLength, MAX_STORED)
        && Ok(load, |k|, Prepend(n, c, n.children[c]), path)
        && Removed(n, tid, Prepend(n, c, n.children[c]))
  {
    var c := SecondChild(n, b);
    var second := n.children[c];
    assert Ok(load, |k|, second, Extend(path, p, c));
    forall x
      ensures Has(second, x) <==> Has(n, x) && x != tid
    {
      HasSecond(n, b, x);
      ElsewhereIsLeft(load, k, n, path, p, tid, x);
    }
    if second.Leaf? {
      ShorterPath(load, |k|, second.tid, path, p, c);
    } else {
      var q :| Under(load, |k|, second, Extend(path, p, c), q);
      PrependUnder(load, |k|, n, path, p, c, q);
      var r := Prepend(n, c, second);
      assert Sized(r.kind, |r.children|);
      NowOk(load, |k|, r, path, p + [c] + q, false);
      InnerIsOk(load, |k|, r, path);
      forall x
        ensures Has(r, x) <==> Has(second, x)
      {
        SameHas(second, r, x);
      }
    }
  }

  lemma {:induction false} RemoveLeafIsCorrect(load: nat -> Key, k: Key, n: Node, path: Key, p: Key, tid: nat, b: Byte, root: bool)
    requires Under(load, |k|, n, path, p) && RightSize(n, path, root) && load(tid) == k && |path| + |p| < |k| && b == k[|path| + |p|]
    requires b in n.children && n.children[b] == Leaf(tid) && |n.stored| == Min(n.prefixLength, MAX_STORED)
    requires forall c :: c in n.children && n.children[c].Inner? ==> |n.children[c].stored| == Min(n.children[c].prefixLength, MAX_STORED)
    ensures ResultOk(load, |k|, RemoveLeaf(n, b, root), path, root) && Removed(n, tid, RemoveLeaf(n, b, root))
  {
    hide Has, Ok, Under, Removed;
    if Count(n) == 2 && !root {
      TwoMeansN4(n);
      CollapseIsCorrect(load, k, n, path, p, tid, b);
    } else {
      hide ResultOk;
      DropIsCorrect(load, k, n, path, p, tid, b, root);
    }
  }

  /** If the identifier is below the node, the search for its key goes on to the child that holds it. */
  lemma {:induction false} SearchFinds(load: nat -> Key, k: Key, n: Node, path: Key, p: Key, tid: nat, b: Byte)
    requires Under(load, |k|, n, path, p) && load(tid) == k && Has(n, tid) && |path| + |p| < |k| && b == k[|path| + |p|]
    ensures |n.stored| <= n.prefixLength && CheckPrefix(n, k, |path|).Match?
    ensures b in n.children && Has(n.children[b], tid)
  {
    MismatchMeansAbsent(load, |k|, n, path, p, k, tid);
  }

  lemma {:induction false} CheckedLevel(n: Node, k: Key, level: nat)
    requires n.Inner? && |n.stored| <= n.prefixLength
    ensures CheckPrefix(n, k, level).Match? ==> CheckPrefix(n, k, level).level == level + n.prefixLength
  {
  }

  /** Replacing the child for the key's next byte by what a removal left of it. */
  lemma {:induction false} ChildRemoved(load: nat -> Key, k: Key, n: Node, path: Key, p: Key, tid: nat, b: Byte, c: Node, root: bool)
    requires Under(load, |k|, n, path, p) && RightSize(n, path, root)
    requires load(tid) == k && |path| + |p| < |k| && b == k[|path| + |p|] && b in n.children
    requires Ok(load, |k|, c, Extend(path, p, b)) && Removed(n.children[b], tid, c)
    ensures var n' := n.(children := n.children[b := c]); ResultOk(load, |k|, n', path, root) && Removed(n, tid, n')
  {
    var n' := n.(children := n.children[b := c]);
    forall x
      ensures Has(n', x) <==> Has(n, x) && x != tid
    {
      HasReplaced(n, b, c, n', x);
      HasSplit(n, b, x);
      if HasElsewhere(n, b, x) {
        ElsewhereDiffers(load, |k|, n, path, p, k, x);
      }
    }
    UnderReplaced(load, |k|, n, path, p, b, c, n');
    SameSize(n, b, c);
    NowOk(load, |k|, n', path, p, root);
    if !root {
      InnerIsOk(load, |k|, n', path);
    }
  }

  lemma {:induction false} Unchanged(load: nat -> Key, len: nat, n: Node, path: Key, p: Key, tid: nat, root: bool)
    requires Under(load, len, n, path, p) && RightSize(n, path, root) && !Has(n, tid)
    ensures ResultOk(load, len, n, path, root) && Removed(n, tid, n)
  {
    NowOk(load, len, n, path, p, root);
    if !root {
      InnerIsOk(load, len, n, path);
    }
  }

  lemma {:induction false} RemoveStays(n: Node, k: Key, tid: nat, level: nat, root: bool, l: nat, b: Byte)
    requires n.Inner? && Deep(n, level, |k|) && (!root ==> Sized(n.kind, |n.children|))
    requires l == level + n.prefixLength && l < |k| && b == k[l]
    requires CheckPrefix(n, k, level).NoMatch? || b !in n.children || (n.children[b].Leaf? && n.children[b].tid != tid)
    ensures Remove(n, k, tid, level, root) == n
  {
    CheckedLevel(n, k, level);
    hide CheckPrefix, RemoveLeaf;
  }

  lemma {:induction false} RemoveGoesOn(n: Node, k: Key, tid: nat, level: nat, root: bool, l: nat, b: Byte)
    requires n.Inner? && Deep(n, level, |k|) && (!root ==> Sized(n.kind, |n.children|))
    requires l == level + n.prefixLength && l < |k| && b == k[l]
    requires CheckPrefix(n, k, level).Match? && b in n.children && n.children[b].Inner?
    ensures Deep(n.children[b], l + 1, |k|) && Sized(n.children[b].kind, |n.children[b].children|)
    ensures Remove(n, k, tid, level, root) == n.(children := n.children[b := Remove(n.children[b], k, tid, l + 1, false)])
  {
    CheckedLevel(n, k, level);
    hide CheckPrefix, RemoveLeaf;
  }

  lemma {:induction false} RemoveTakes(n: Node, k: Key, tid: nat, level: nat, root: bool, l: nat, b: Byte)
    requires n.Inner? && Deep(n, level, |k|) && (!root ==> Sized(n.kind, |n.children|))
    requires l == level + n.prefixLength && l < |k| && b == k[l]
    requires CheckPrefix(n, k, level).Match? && b in n.children && n.children[b] == Leaf(tid)
    ensures |n.stored| == Min(n.prefixLength, MAX_STORED)
    ensures forall c :: c in n.children && n.children[c].Inner? ==> |n.children[c].stored| == Min(n.children[c].prefixLength, MAX_STORED)
    ensures Remove(n, k, tid, level, root) == RemoveLeaf(n, b, root)
  {
    CheckedLevel(n, k, level);
    assert forall c :: c in n.children ==> Deep(n.children[c], l + 1, |k|);
    hide CheckPrefix, RemoveLeaf;
  }

  /** The removal in an inner child was right. */
  ghost predicate BelowRemoved(load: nat -> Key, child: Node, k: Key, tid: nat, path: Key, l: nat) {
    child.Inner? ==>
      && Deep(child, l, |k|)
      && Sized(child.kind, |child.children|)
      && Ok(load, |k|, Remove(child, k, tid, l, false), path)
      && Removed(child, tid, Remove(child, k, tid, l, false))
  }

  lemma {:induction false} AbsentWhenStopped(load: nat -> Key, k: Key, n: Node, path: Key, p: Key, tid: nat, b: Byte)
    requires Under(load, |k|, n, path, p) && load(tid) == k && |path| + |p| < |k| && b == k[|path| + |p|] && |n.stored| <= n.prefixLength
    requires CheckPrefix(n, k, |path|).NoMatch? || b !in n.children || (n.children[b].Leaf? && n.children[b].tid != tid)
    ensures !Has(n, tid)
  {
    if Has(n, tid) {
      SearchFinds(load, k, n, path, p, tid, b);
    }
  }

  lemma {:induction false} StepStays(load: nat -> Key, n: Node, k: Key, tid: nat, path: Key, p: Key, root: bool, l: nat, b: Byte)
    requires Under(load, |k|, n, path, p) && RightSize(n, path, root) && load(tid) == k && n.Inner? && Deep(n, |path|, |k|)
    requires l == |path| + |p| == |path| + n.prefixLength && l < |k| && b == k[l] == k[|path| + |p|]
    requires !root ==> Sized(n.kind, |n.children|)
    requires |n.stored| <= n.prefixLength
    requires CheckPrefix(n, k, |path|).NoMatch? || b !in n.children || (n.children[b].Leaf? && n.children[b].tid != tid)
    ensures ResultOk(load, |k|, Remove(n, k, tid, |path|, root), path, root)
    ensures Removed(n, tid, Remove(n, k, tid, |path|, root))
  {
    AbsentWhenStopped(load, k, n, path, p, tid, b);
    RemoveStays(n, k, tid, |path|, root, l, b);
    hide *;
    Unchanged(load, |k|, n, path, p, tid, root);
  }

  lemma {:induction false} StepGoesOn(load: nat -> Key, n: Node, k: Key, tid: nat, path: Key, p: Key, root: bool, l: nat, b: Byte)
    requires Under(load, |k|, n, path, p) && RightSize(n, path, root) && load(tid) == k && n.Inner? && Deep(n, |path|, |k|)
    requires l == |path| + |p| == |path| + n.prefixLength && l < |k| && b == k[l] == k[|path| + |p|]
    requires !root ==> Sized(n.kind, |n.children|)
    requires |n.stored| <= n.prefixLength && CheckPrefix(n, k, |path|).Match? && b in n.children && n.children[b].Inner?
    requires BelowRemoved(load, n.children[b], k, tid, Extend(path, p, b), l + 1)
    ensures ResultOk(load, |k|, Remove(n, k, tid, |path|, root), path, root)
    ensures Removed(n, tid, Remove(n, k, tid, |path|, root))
  {
    var c := Remove(n.children[b], k, tid, l + 1, false);
    assert Ok(load, |k|, c, Extend(path, p, b)) && Removed(n.children[b], tid, c);
    RemoveGoesOn(n, k, tid, |path|, root, l, b);
    hide *;
    ChildRemoved(load, k, n, path, p, tid, b, c, root);
  }

  lemma {:induction false} StepTakes(load: nat -> Key, n: Node, k: Key, tid: nat, path: Key, p: Key, root: bool, l: nat, b: Byte)
    requires Under(load, |k|, n, path, p) && RightSize(n, path, root) && load(tid) == k && n.Inner? && Deep(n, |path|, |k|)
    requires l == |path| + |p| == |path| + n.prefixLength && l < |k| && b == k[l] == k[|path| + |p|]
    requires !root ==> Sized(n.kind, |n.children|)
    requires |n.stored| <= n.prefixLength && CheckPrefix(n, k, |path|).Match? && b in n.children && n.children[b] == Leaf(tid)
    ensures ResultOk(load, |k|, Remove(n, k, tid, |path|, root), path, root)
    ensures Removed(n, tid, Remove(n, k, tid, |path|, root))
  {
    RemoveTakes(n, k, tid, |path|, root, l, b);
    hide *;
    RemoveLeafIsCorrect(load, k, n, path, p, tid, b, root);
  }

  lemma {:induction false} RemoveStep(load: nat -> Key, n: Node, k: Key, tid: nat, path: Key, p: Key, root: bool, l: nat, b: Byte)
    requires Under(load, |k|, n, path, p) && RightSize(n, path, root) && load(tid) == k && n.Inner? && Deep(n, |path|, |k|)
    requires l == |path| + |p| == |path| + n.prefixLength && l < |k| && b == k[l] == k[|path| + |p|]
    requires !root ==> Sized(n.kind, |n.children|)
    requires |n.stored| <= n.prefixLength
    requires b in n.children ==> BelowRemoved(load, n.children[b], k, tid, Extend(path, p, b), l + 1)
    ensures ResultOk(load, |k|, Remove(n, k, tid, |path|, root), path, root)
    ensures Removed(n, tid, Remove(n, k, tid, |path|, root))
  {
    hide *;
    if CheckPrefix(n, k, |path|).NoMatch? || b !in n.children || (n.children[b].Leaf? && n.children[b].tid != tid) {
      StepStays(load, n, k, tid, path, p, root, l, b);
    } else if n.children[b].Inner? {
      StepGoesOn(load, n, k, tid, path, p, root, l, b);
    } else {
      StepTakes(load, n, k, tid, path, p, root, l, b);
    }
  }

  /** What the shape of a node gives. */
  lemma {:induction false} Facts(load: nat -> Key, len: nat, n: Node, path: Key, p: Key)
    requires Under(load, len, n, path, p)
    ensures n.Inner? && Deep(n, |path|, len) && |p| == n.prefixLength && |path| + |p| < len && |n.stored| <= n.prefixLength
    ensures forall b :: b in n.children ==> Ok(load, len, n.children[b], Extend(path, p, b))
  {
    UnderDeep(load, len, n, path, p);
  }

  lemma {:induction false} ExtendLength(path: Key, p: Key, b: Byte)
    ensures |Extend(path, p, b)| == |path| + |p| + 1
  {
  }

  /**
   * Remove keeps the tree well formed, through shrinking and collapsing nodes, and takes away
   * exactly the identifier, if the tree holds it.
   */
  lemma {:induction false} RemoveIsCorrect(load: nat -> Key, n: Node, k: Key, tid: nat, path: Key, root: bool)
    requires InnerOk(load, |k|, n, path, root) && load(tid) == k
    ensures n.Inner? && Deep(n, |path|, |k|) && (!root ==> Sized(n.kind, |n.children|))
    ensures ResultOk(load, |k|, Remove(n, k, tid, |path|, root), path, root)
    ensures Removed(n, tid, Remove(n, k, tid, |path|, root))
    decreases n
  {
    var p :| Under(load, |k|, n, path, p);
    assert RightSize(n, path, root);
    Facts(load, |k|, n, path, p);
    var l := |path| + |p|;
    var b := k[l];
    if b in n.children && n.children[b].Inner? {
      var path' := Extend(path, p, b);
      ExtendLength(path, p, b);
      assert Ok(load, |k|, n.children[b], path');
      OkInner(load, |k|, n.children[b], path');
      hide Ok, Under, InnerOk, Deep, Extend, Remove, Removed;
      RemoveIsCorrect(load, n.children[b], k, tid, path', false);
      assert BelowRemoved(load, n.children[b], k, tid, path', l + 1);
    }
    hide Ok, Under, InnerOk, Deep, Extend, Remove, Removed, ResultOk;
    RemoveStep(load, n, k, tid, path, p, root, l, b);
  }
}
