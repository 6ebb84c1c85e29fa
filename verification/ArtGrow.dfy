/** Copying one layout into another: growing and shrinking lose no child. */
module ArtGrow {
  import opened ArtLayouts

  ghost predicate Blank(t: seq<int>) {
    |t| == BYTES && forall b :: 0 <= b < BYTES ==> t[b] == 0
  }

  /** The entries of t below i, and null from there on. */
  ghost function FirstPart(t: seq<int>, i: nat): (r: seq<int>)
    requires |t| == BYTES && i <= BYTES
    ensures |r| == BYTES
  {
    seq(BYTES, b requires 0 <= b < BYTES => if b < i then t[b] else 0)
  }

  lemma {:induction false} FirstPartStep(t: seq<int>, i: nat)
    requires |t| == BYTES && i < BYTES
    ensures FirstPart(t, i + 1) == FirstPart(t, i)[i := t[i]]
    ensures FirstPart(t, i)[i] == 0
    ensures t[i] == 0 ==> FirstPart(t, i + 1) == FirstPart(t, i)
    ensures Size(t[..i + 1]) == Size(t[..i]) + if t[i] != 0 then 1 else 0
  {
    assert t[..i + 1][..i] == t[..i];
  }

  lemma {:induction false} FirstPartEnds(t: seq<int>)
    requires |t| == BYTES
    ensures FirstPart(t, BYTES) == t && Blank(FirstPart(t, 0)) && t[..BYTES] == t && t[..0] == []
  {
  }

  lemma {:induction false} BlankIs(t: seq<int>, u: seq<int>)
    requires |t| == BYTES && Blank(u)
    ensures u == FirstPart(t, 0)
  {
  }

  /** Keys and children taken from the front of parallel arrays, in order. */
  lemma {:induction false} TakeNext(ks: seq<int>, cs: seq<int>, i: nat)
    requires Pairs(ks, cs) && i < |ks|
    ensures Pairs(ks[..i], cs[..i]) && TableOf(ks[..i + 1], cs[..i + 1]) == TableOf(ks[..i], cs[..i])[ks[i] := cs[i]]
    ensures TableOf(ks[..i], cs[..i])[ks[i]] == 0 && IsByte(ks[i]) && cs[i] != 0
  {
    PairsInsert(ks[..i], cs[..i], i, ks[i], cs[i]);
    FindNone(ks[..i], cs[..i], ks[i]);
    assert ks[..i][..i] + [ks[i]] + ks[..i][i..] == ks[..i + 1] && cs[..i][..i] + [cs[i]] + cs[..i][i..] == cs[..i + 1];
  }

  lemma {:induction false} TakeNone(t: seq<int>)
    requires Blank(t)
    ensures t == TableOf([], [])
  {
  }

  // ----- copies -----

  method CopyN4ToN16(a: N4, n: N16)
    requires a.Valid() && n.Valid() && Blank(n.View()) && n.count == 0
    requires a.keys != n.keys && a.keys != n.children && a.children != n.keys && a.children != n.children
    modifies n`count, n.keys, n.children
    ensures n.Valid() && n.View() == a.View() && n.count == a.count
  {
    ghost var ks, cs := a.keys[..a.count], a.children[..a.count];
    TakeNone(n.View());
    assert ks[..0] == [] && cs[..0] == [];
    hide Pairs, TableOf;
    var i := 0;
    while i < a.count
      invariant 0 <= i <= a.count && n.Valid() && n.count == i
      invariant n.View() == TableOf(ks[..i], cs[..i])
    {
      TakeNext(ks, cs, i);
      n.Insert(a.keys[i], a.children[i]);
      i := i + 1;
    }
    assert ks[..|ks|] == ks && cs[..|cs|] == cs;
  }

  method CopyN16ToN48(a: N16, n: N48)
    requires a.Valid() && n.Valid() && Blank(n.View()) && n.count == 0 && a.count <= 48
    requires a.keys != n.childIndex && a.keys != n.children && a.children != n.childIndex && a.children != n.children
    modifies n`count, n.childIndex, n.children
    ensures n.Valid() && n.View() == a.View() && n.count == a.count
  {
    ghost var ks, cs := Flipped(a.keys[..a.count]), a.children[..a.count];
    assert forall j :: 0 <= j < a.count ==> ks[j] == Flip(a.keys[..a.count][j]) && a.keys[..a.count][j] == a.keys[j];
    TakeNone(n.View());
    assert ks[..0] == [] && cs[..0] == [];
    hide Pairs, TableOf, Flipped, Indexed, Through;
    var i := 0;
    while i < a.count
      invariant 0 <= i <= a.count && n.Valid() && n.count == i
      invariant n.View() == TableOf(ks[..i], cs[..i])
    {
      TakeNext(ks, cs, i);
      n.Insert(Flip(a.keys[i]), a.children[i]);
      i := i + 1;
    }
    assert ks[..|ks|] == ks && cs[..|cs|] == cs;
  }

  method CopyN16ToN4(a: N16, n: N4)
    requires a.Valid() && n.Valid() && Blank(n.View()) && n.count == 0 && a.count <= 4
    requires a.keys != n.keys && a.keys != n.children && a.children != n.keys && a.children != n.children
    modifies n`count, n.keys, n.children
    ensures n.Valid() && n.View() == a.View() && n.count == a.count
  {
    ghost var ks, cs := Flipped(a.keys[..a.count]), a.children[..a.count];
    assert forall j :: 0 <= j < a.count ==> ks[j] == Flip(a.keys[..a.count][j]) && a.keys[..a.count][j] == a.keys[j];
    TakeNone(n.View());
    assert ks[..0] == [] && cs[..0] == [];
    hide Pairs, TableOf, Flipped, Indexed, Through;
    var i := 0;
    while i < a.count
      invariant 0 <= i <= a.count && n.Valid() && n.count == i
      invariant n.View() == TableOf(ks[..i], cs[..i])
    {
      TakeNext(ks, cs, i);
      n.Insert(Flip(a.keys[i]), a.children[i]);
      i := i + 1;
    }
    assert ks[..|ks|] == ks && cs[..|cs|] == cs;
  }

  method CopyN48ToN256(a: N48, n: N256)
    requires a.Valid() && n.Valid() && Blank(n.View())
    requires a.childIndex != n.children && a.children != n.children
    modifies n`count, n.children
    ensures n.Valid() && n.View() == a.View()
  {
    ghost var t := a.View();
    BlankIs(t, n.View());
    FirstPartEnds(t);
    hide Pairs, TableOf, Flipped, FirstPart;
    var i := 0;
    while i < BYTES
      invariant 0 <= i <= BYTES && n.Valid() && a.Valid() && a.View() == t
      invariant n.View() == FirstPart(t, i)
    {
      FirstPartStep(t, i);
      var c := a.GetChild(i);
      if c != 0 {
        n.Insert(i, c);
      }
      i := i + 1;
    }
  }

  method CopyN48ToN16(a: N48, n: N16)
    requires a.Valid() && n.Valid() && Blank(n.View()) && n.count == 0 && Size(a.View()) <= 16
    requires a.childIndex != n.keys && a.childIndex != n.children && a.children != n.keys && a.children != n.children
    modifies n`count, n.keys, n.children
    ensures n.Valid() && n.View() == a.View() && n.count == Size(a.View())
  {
    ghost var t := a.View();
    BlankIs(t, n.View());
    FirstPartEnds(t);
    hide Pairs, TableOf, Flipped, FirstPart;
    var i := 0;
    while i < BYTES
      invariant 0 <= i <= BYTES && n.Valid() && a.Valid() && a.View() == t
      invariant n.View() == FirstPart(t, i) && n.count == Size(t[..i])
    {
      FirstPartStep(t, i);
      SizePrefix(t, i + 1);
      var c := a.GetChild(i);
      if c != 0 {
        n.Insert(i, c);
      }
      i := i + 1;
    }
  }

  method CopyN256ToN48(a: N256, n: N48)
    requires a.Valid() && n.Valid() && Blank(n.View()) && n.count == 0 && Size(a.View()) <= 48
    requires a.children != n.childIndex && a.children != n.children
    modifies n`count, n.childIndex, n.children
    ensures n.Valid() && n.View() == a.View() && n.count == Size(a.View())
  {
    ghost var t := a.View();
    BlankIs(t, n.View());
    FirstPartEnds(t);
    hide Pairs, TableOf, Flipped, FirstPart;
    var i := 0;
    while i < BYTES
      invariant 0 <= i <= BYTES && n.Valid() && a.Valid() && a.View() == t
      invariant n.View() == FirstPart(t, i) && n.count == Size(t[..i])
    {
      FirstPartStep(t, i);
      SizePrefix(t, i + 1);
      var c := a.GetChild(i);
      if c != 0 {
        n.Insert(i, c);
      }
      i := i + 1;
    }
  }

  // ----- grow -----

  method GrowN4(a: N4, k: int, c: int) returns (big: N16)
    requires a.Valid() && a.count == 4 && IsByte(k) && a.View()[k] == 0 && c != 0
    ensures big.Valid() && fresh(big) && fresh(big.keys) && fresh(big.children) && big.View() == a.View()[k := c] && big.count == 5
  {
    big := new N16();
    CopyN4ToN16(a, big);
    big.Insert(k, c);
  }

  method GrowN16(a: N16, k: int, c: int) returns (big: N48)
    requires a.Valid() && a.count == 16 && IsByte(k) && a.View()[k] == 0 && c != 0
    ensures big.Valid() && fresh(big) && fresh(big.childIndex) && fresh(big.children) && big.View() == a.View()[k := c] && big.count == 17
  {
    big := new N48();
    CopyN16ToN48(a, big);
    big.Insert(k, c);
  }

  method GrowN48(a: N48, k: int, c: int) returns (big: N256)
    requires a.Valid() && a.count == 48 && IsByte(k) && a.View()[k] == 0 && c != 0
    ensures big.Valid() && fresh(big) && fresh(big.children) && big.View() == a.View()[k := c] && big.count == 49
  {
    big := new N256();
    CopyN48ToN256(a, big);
    SizeUpdate(big.View(), k, c);
    big.Insert(k, c);
  }

  // ----- shrink -----

  method ShrinkN16(a: N16, k: int) returns (small: N4)
    requires a.Valid() && a.count == 3 && IsByte(k) && a.View()[k] != 0
    ensures small.Valid() && fresh(small) && fresh(small.keys) && fresh(small.children) && small.View() == a.View()[k := 0] && small.count == 2
  {
    small := new N4();
    CopyN16ToN4(a, small);
    small.Remove(k);
  }

  method ShrinkN48(a: N48, k: int) returns (small: N16)
    requires a.Valid() && a.count == 12 && IsByte(k) && a.View()[k] != 0
    ensures small.Valid() && fresh(small) && fresh(small.keys) && fresh(small.children) && small.View() == a.View()[k := 0] && small.count == 11
  {
    small := new N16();
    CopyN48ToN16(a, small);
    small.Remove(k);
  }

  /** The count field says 37 only when there are 37 children, although it is a byte. */
  method ShrinkN256(a: N256, k: int) returns (small: N48)
    requires a.Valid() && a.count == 37 && IsByte(k) && a.View()[k] != 0
    ensures small.Valid() && fresh(small) && fresh(small.childIndex) && fresh(small.children) && small.View() == a.View()[k := 0] && small.count == 36
  {
    small := new N48();
    CopyN256ToN48(a, small);
    small.Remove(k);
  }
}
