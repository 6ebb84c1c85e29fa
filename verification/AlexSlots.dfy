/** The gapped array of a data node as a sequence of slots, and the sorted pairs it stands for. */
module AlexSlots {

  /** The greatest value of the key type, which no stored key has. */
  const SENTINEL := 0xFFFF_FFFF_FFFF_FFFF

  datatype Slot = Slot(key: int, payload: int, filled: bool)

  datatype Pair = Pair(key: int, payload: int)

  /** What the slots hold, from left to right. */
  function Pairs(s: seq<Slot>): seq<Pair> {
    if s == [] then []
    else (if s[0].filled then [Pair(s[0].key, s[0].payload)] else []) + Pairs(s[1..])
  }

  function NextKey(s: seq<Slot>, i: nat): int
    requires i < |s|
  {
    if i + 1 < |s| then s[i + 1].key else SENTINEL
  }

  ghost predicate Sorted(s: seq<Slot>) {
    forall i, j :: 0 <= i < j < |s| ==> s[i].key <= s[j].key
  }

  /** A gap repeats the key after it, or the sentinel, and a key is below the sentinel. */
  predicate SlotOk(s: seq<Slot>, i: nat)
    requires i < |s|
  {
    if s[i].filled then s[i].key < SENTINEL else s[i].key == NextKey(s, i)
  }

  /** The gapped-array invariant: the last slot of each value is filled, and the tail is the sentinel. */
  ghost predicate SlotsOk(s: seq<Slot>) {
    Sorted(s) && forall i :: 0 <= i < |s| ==> SlotOk(s, i)
  }

  lemma {:induction false} PairsConcat(a: seq<Slot>, b: seq<Slot>)
    ensures Pairs(a + b) == Pairs(a) + Pairs(b)
  {
    if a == [] {
      assert a + b == b;
    } else {
      PairsConcat(a[1..], b);
      assert (a + b)[0] == a[0] && (a + b)[1..] == a[1..] + b;
      Regroup(if a[0].filled then [Pair(a[0].key, a[0].payload)] else [], Pairs(a[1..]), Pairs(b));
    }
  }

  lemma {:induction false} PairsSplit(s: seq<Slot>, i: nat)
    requires i <= |s|
    ensures Pairs(s) == Pairs(s[..i]) + Pairs(s[i..])
  {
    PairsConcat(s[..i], s[i..]);
    assert s == s[..i] + s[i..];
  }

  lemma {:induction false} PairsThree(s: seq<Slot>, l: nat, u: nat)
    requires l <= u <= |s|
    ensures Pairs(s) == Pairs(s[..l]) + Pairs(s[l..u]) + Pairs(s[u..])
  {
    hide Pairs;
    PairsSplit(s, u);
    PairsSplit(s[..u], l);
    assert s[..u][..l] == s[..l] && s[..u][l..] == s[l..u];
  }

  lemma {:induction false} NoPairs(s: seq<Slot>)
    requires forall i :: 0 <= i < |s| ==> !s[i].filled
    ensures Pairs(s) == []
  {
    if s != [] {
      NoPairs(s[1..]);
    }
  }

  /** Every pair is the content of some filled slot. */
  lemma {:induction false} PairsFrom(s: seq<Slot>, x: Pair)
    ensures x in Pairs(s) <==> exists i :: 0 <= i < |s| && s[i].filled && s[i].key == x.key && s[i].payload == x.payload
  {
    if s != [] {
      PairsFrom(s[1..], x);
      assert forall i :: 1 <= i < |s| ==> s[i] == s[1..][i - 1];
      if exists i :: 0 <= i < |s| && s[i].filled && s[i].key == x.key && s[i].payload == x.payload {
        var i :| 0 <= i < |s| && s[i].filled && s[i].key == x.key && s[i].payload == x.payload;
        if i > 0 {
          assert s[1..][i - 1].filled;
        }
      }
    }
  }

  // ----- the sorted multimap -----

  ghost predicate InOrder(c: seq<Pair>) {
    forall i, j :: 0 <= i < j < |c| ==> c[i].key <= c[j].key
  }

  /** The pair enters to the right of every pair whose key is not greater. */
  function Added(c: seq<Pair>, x: Pair): seq<Pair> {
    if c == [] || c[0].key > x.key then [x] + c else [c[0]] + Added(c[1..], x)
  }

  predicate UpTo(c: seq<Pair>, k: int) {
    forall i :: 0 <= i < |c| ==> c[i].key <= k
  }

  predicate Above(c: seq<Pair>, k: int) {
    forall i :: 0 <= i < |c| ==> k < c[i].key
  }

  lemma {:induction false} AddedBetween(a: seq<Pair>, b: seq<Pair>, x: Pair)
    requires UpTo(a, x.key) && Above(b, x.key)
    ensures Added(a + b, x) == a + [x] + b
  {
    if a == [] {
      assert a + b == b;
    } else {
      assert (a + b)[1..] == a[1..] + b;
      AddedBetween(a[1..], b, x);
    }
  }

  /** The pairs of slots whose keys are all in a range have keys in that range. */
  lemma {:induction false} PairsUpTo(s: seq<Slot>, k: int)
    requires forall i :: 0 <= i < |s| ==> s[i].key <= k
    ensures UpTo(Pairs(s), k)
  {
    forall i | 0 <= i < |Pairs(s)|
      ensures Pairs(s)[i].key <= k
    {
      PairsFrom(s, Pairs(s)[i]);
    }
  }

  lemma {:induction false} PairsAbove(s: seq<Slot>, k: int)
    requires forall i :: 0 <= i < |s| ==> k < s[i].key
    ensures Above(Pairs(s), k)
  {
    forall i | 0 <= i < |Pairs(s)|
      ensures k < Pairs(s)[i].key
    {
      PairsFrom(s, Pairs(s)[i]);
    }
  }

  lemma {:induction false} PairsInOrder(s: seq<Slot>)
    requires Sorted(s)
    ensures InOrder(Pairs(s))
  {
    if s != [] {
      PairsInOrder(s[1..]);
      if s[0].filled {
        forall j | 0 <= j < |Pairs(s[1..])|
          ensures s[0].key <= Pairs(s[1..])[j].key
        {
          PairsFrom(s[1..], Pairs(s[1..])[j]);
        }
      }
    }
  }

  // ----- where a key belongs -----

  /** The slots below u have keys up to k, the others greater ones. */
  ghost predicate UpperBound(s: seq<Slot>, k: int, u: nat) {
    && u <= |s|
    && (forall i :: 0 <= i < u ==> s[i].key <= k)
    && (forall i :: u <= i < |s| ==> k < s[i].key)
  }

  ghost predicate LowerBound(s: seq<Slot>, k: int, l: nat) {
    && l <= |s|
    && (forall i :: 0 <= i < l ==> s[i].key < k)
    && (forall i :: l <= i < |s| ==> k <= s[i].key)
  }

  lemma {:induction false} BelowBoundFilled(s: seq<Slot>, k: int, u: nat)
    requires SlotsOk(s) && UpperBound(s, k, u) && u > 0 && k < SENTINEL
    ensures s[u - 1].filled
  {
    assert SlotOk(s, u - 1);
  }

  lemma {:induction false} OnePair(x: Pair)
    ensures Pairs([Slot(x.key, x.payload, true)]) == [x]
  {
    assert [Slot(x.key, x.payload, true)][1..] == [];
  }

  /** A gap can be left out. */
  lemma {:induction false} DropGap(s: seq<Slot>, i: nat, j: nat, gap: nat)
    requires i <= gap < j <= |s| && !s[gap].filled
    ensures Pairs(s[i..j]) == Pairs(s[i..gap] + s[gap + 1..j])
  {
    hide Pairs;
    PairsSplit(s[i..j], gap - i);
    assert s[i..j][..gap - i] == s[i..gap];
    PairsSplit(s[i..j][gap - i..], 1);
    assert s[i..j][gap - i..][1..] == s[gap + 1..j];
    NoPairs(s[i..j][gap - i..][..1]);
    PairsConcat(s[i..gap], s[gap + 1..j]);
  }

  /** A slot sequence with x between two parts has the pair added, when the parts are those below and above its key. */
  lemma {:induction false} AddedInSlots(s: seq<Slot>, s': seq<Slot>, u: nat, x: Pair, a: seq<Slot>, b: seq<Slot>)
    requires UpperBound(s, x.key, u)
    requires s' == a + [Slot(x.key, x.payload, true)] + b
    requires Pairs(a) == Pairs(s[..u]) && Pairs(b) == Pairs(s[u..])
    ensures Pairs(s') == Added(Pairs(s), x)
    ensures |Pairs(s')| == |Pairs(s)| + 1
  {
    var one := [Slot(x.key, x.payload, true)];
    OnePair(x);
    hide Pairs, Added;
    PairsConcat(a + one, b);
    PairsConcat(a, one);
    PairsSplit(s, u);
    PairsUpTo(s[..u], x.key);
    PairsAbove(s[u..], x.key);
    AddedBetween(Pairs(s[..u]), Pairs(s[u..]), x);
  }

  // ----- overwriting gaps -----

  /** The gaps just before position i take this key, back to the previous filled slot. */
  function Spread(s: seq<Slot>, i: nat, key: int): (r: seq<Slot>)
    requires i <= |s|
    ensures |r| == |s| && forall m :: i <= m < |s| ==> r[m] == s[m]
    decreases i
  {
    if i == 0 || s[i - 1].filled then s else Spread(s[i - 1 := s[i - 1].(key := key)], i - 1, key)
  }

  lemma {:induction false} SpreadIs(s: seq<Slot>, i: nat, key: int, j: nat)
    requires j <= i <= |s| && (j > 0 ==> s[j - 1].filled)
    requires forall m :: j <= m < i ==> !s[m].filled
    ensures forall m :: 0 <= m < |s| ==> Spread(s, i, key)[m] == if j <= m < i then s[m].(key := key) else s[m]
    decreases i
  {
    if j < i {
      SpreadIs(s[i - 1 := s[i - 1].(key := key)], i - 1, key, j);
    }
  }

  /** insert_element_at: the pair at pos, and its key in the gaps before it. */
  function Placed(s: seq<Slot>, pos: nat, x: Pair): (r: seq<Slot>)
    requires pos < |s|
    ensures |r| == |s| && r[pos] == Slot(x.key, x.payload, true)
  {
    Spread(s[pos := Slot(x.key, x.payload, true)], pos, x.key)
  }

  /** The slots after a placement, one by one. */
  ghost predicate PlacedAt(s: seq<Slot>, u: nat, pos: nat, x: Pair, s': seq<Slot>) {
    && u <= pos < |s| == |s'|
    && (forall m :: 0 <= m < u ==> s'[m] == s[m])
    && (forall m :: u <= m < pos ==> s'[m] == s[m].(key := x.key))
    && s'[pos] == Slot(x.key, x.payload, true)
    && (forall m :: pos < m < |s| ==> s'[m] == s[m])
  }

  lemma {:induction false} PlacedIs(s: seq<Slot>, u: nat, pos: nat, x: Pair)
    requires u <= pos < |s| && (u > 0 ==> s[u - 1].filled)
    requires forall m :: u <= m < pos ==> !s[m].filled
    ensures PlacedAt(s, u, pos, x, Placed(s, pos, x))
  {
    SpreadIs(s[pos := Slot(x.key, x.payload, true)], pos, x.key, u);
    hide Spread;
  }

  lemma {:induction false} PlacedOk(s: seq<Slot>, u: nat, pos: nat, x: Pair, s': seq<Slot>)
    requires SlotsOk(s) && x.key < SENTINEL && UpperBound(s, x.key, u) && PlacedAt(s, u, pos, x, s')
    requires forall m :: u <= m <= pos ==> !s[m].filled
    ensures SlotsOk(s')
  {
    if u > 0 {
      BelowBoundFilled(s, x.key, u);
    }
    forall i | 0 <= i < |s'|
      ensures SlotOk(s', i)
    {
      assert SlotOk(s, i);
    }
  }

  lemma {:induction false} PlacedPairs(s: seq<Slot>, u: nat, pos: nat, x: Pair, s': seq<Slot>)
    requires UpperBound(s, x.key, u) && PlacedAt(s, u, pos, x, s')
    requires forall m :: u <= m <= pos ==> !s[m].filled
    ensures Pairs(s') == Added(Pairs(s), x) && |Pairs(s')| == |Pairs(s)| + 1
  {
    hide Pairs, Added;
    var gaps := s[u..pos + 1];
    assert s' == s'[..pos] + [Slot(x.key, x.payload, true)] + s'[pos + 1..];
    assert s'[..pos] == s[..u] + s'[u..pos];
    PairsConcat(s[..u], s'[u..pos]);
    NoPairs(s'[u..pos]);
    assert s[u..] == gaps + s'[pos + 1..];
    PairsConcat(gaps, s'[pos + 1..]);
    NoPairs(gaps);
    AddedInSlots(s, s', u, x, s'[..pos], s'[pos + 1..]);
  }

  /** Placing a pair in a gap, with only gaps back to where its key belongs. */
  lemma {:induction false} PlaceInGap(s: seq<Slot>, u: nat, pos: nat, x: Pair)
    requires SlotsOk(s) && x.key < SENTINEL && UpperBound(s, x.key, u) && u <= pos < |s|
    requires forall m :: u <= m <= pos ==> !s[m].filled
    ensures SlotsOk(Placed(s, pos, x)) && Pairs(Placed(s, pos, x)) == Added(Pairs(s), x)
    ensures |Pairs(Placed(s, pos, x))| == |Pairs(s)| + 1
  {
    if u > 0 {
      BelowBoundFilled(s, x.key, u);
    }
    hide Placed, SlotsOk, Pairs, Added, UpperBound;
    PlacedIs(s, u, pos, x);
    PlacedOk(s, u, pos, x, Placed(s, pos, x));
    PlacedPairs(s, u, pos, x, Placed(s, pos, x));
  }

  // ----- shifting towards a gap -----

  /** The slots from u up to the gap each move one to the right. */
  function ShiftedRight(s: seq<Slot>, u: nat, gap: nat): seq<Slot>
    requires u <= gap < |s|
  {
    s[..u] + [s[u].(filled := true)] + s[u..gap] + s[gap + 1..]
  }

  function ShiftedLeft(s: seq<Slot>, u: nat, gap: nat): seq<Slot>
    requires gap < u <= |s|
  {
    s[..gap] + s[gap + 1..u] + [s[u - 1].(filled := true)] + s[u..]
  }

  lemma {:induction false} PlaceAfterShiftRight(s: seq<Slot>, u: nat, gap: nat, x: Pair)
    requires SlotsOk(s) && x.key < SENTINEL && UpperBound(s, x.key, u) && u <= gap < |s| && !s[gap].filled
    requires forall m :: u <= m < gap ==> s[m].filled
    ensures var s' := Placed(ShiftedRight(s, u, gap), u, x);
      SlotsOk(s') && Pairs(s') == Added(Pairs(s), x) && |Pairs(s')| == |Pairs(s)| + 1
  {
    var one := [Slot(x.key, x.payload, true)];
    if u > 0 {
      BelowBoundFilled(s, x.key, u);
    }
    ShiftRightOk(s, u, gap, x);
    hide SlotsOk, Pairs, Added, UpperBound;
    var s' := s[..u] + one + s[u..gap] + s[gap + 1..];
    PlacedShiftedRight(s, u, gap, x);
    hide Placed, ShiftedRight;
    DropGap(s, u, |s|, gap);
    assert s[gap + 1..|s|] == s[gap + 1..] && s[u..|s|] == s[u..];
    Regroup(s[..u] + one, s[u..gap], s[gap + 1..]);
    AddedInSlots(s, s', u, x, s[..u], s[u..gap] + s[gap + 1..]);
  }

  lemma {:induction false} Regroup<T>(a: seq<T>, b: seq<T>, c: seq<T>)
    ensures a + b + c == a + (b + c)
  {
  }

  lemma {:induction false} PlacedShiftedRight(s: seq<Slot>, u: nat, gap: nat, x: Pair)
    requires u <= gap < |s| && (u > 0 ==> s[u - 1].filled)
    ensures Placed(ShiftedRight(s, u, gap), u, x) == s[..u] + [Slot(x.key, x.payload, true)] + s[u..gap] + s[gap + 1..]
  {
    var t := ShiftedRight(s, u, gap);
    assert u > 0 ==> t[u - 1] == s[u - 1];
    PlacedIs(t, u, u, x);
    hide Placed;
    assert Placed(t, u, x) == t[u := Slot(x.key, x.payload, true)];
  }

  /** A key between its neighbours, with the slots up to a gap moved by one, leaves the keys in order. */
  lemma {:induction false} ShiftedSorted(s: seq<Slot>, u: nat, gap: nat, k: int, s': seq<Slot>)
    requires Sorted(s) && UpperBound(s, k, u) && u <= gap < |s| == |s'| && s'[u].key == k
    requires forall i :: 0 <= i < u ==> s'[i] == s[i]
    requires forall i :: u < i <= gap ==> s'[i] == s[i - 1]
    requires forall i :: gap < i < |s| ==> s'[i] == s[i]
    ensures Sorted(s')
  {
    forall i, j | 0 <= i < j < |s'|
      ensures s'[i].key <= s'[j].key
    {
      var i' := if u < i <= gap then i - 1 else i;
      var j' := if u < j <= gap then j - 1 else j;
      assert i == u || s'[i] == s[i'];
      assert j == u || s'[j] == s[j'];
    }
  }

  lemma {:induction false} ShiftRightOk(s: seq<Slot>, u: nat, gap: nat, x: Pair)
    requires SlotsOk(s) && x.key < SENTINEL && UpperBound(s, x.key, u) && u <= gap < |s| && !s[gap].filled
    requires forall m :: u <= m < gap ==> s[m].filled
    ensures SlotsOk(s[..u] + [Slot(x.key, x.payload, true)] + s[u..gap] + s[gap + 1..])
  {
    var s' := s[..u] + [Slot(x.key, x.payload, true)] + s[u..gap] + s[gap + 1..];
    assert forall i :: 0 <= i < u ==> s'[i] == s[i];
    assert forall i :: u < i <= gap ==> s'[i] == s[i - 1];
    assert forall i :: gap < i < |s| ==> s'[i] == s[i];
    ShiftedSorted(s, u, gap, x.key, s');
    hide Sorted;
    forall i | 0 <= i < |s'|
      ensures SlotOk(s', i)
    {
      assert SlotOk(s, i);
      if u < i <= gap {
        assert SlotOk(s, i - 1);
      }
      if i + 1 == u {
        BelowBoundFilled(s, x.key, u);
      }
    }
  }

  lemma {:induction false} PlaceAfterShiftLeft(s: seq<Slot>, u: nat, gap: nat, x: Pair)
    requires SlotsOk(s) && x.key < SENTINEL && UpperBound(s, x.key, u) && gap < u <= |s| && !s[gap].filled
    requires forall m :: gap < m < u ==> s[m].filled
    ensures var s' := Placed(ShiftedLeft(s, u, gap), u - 1, x);
      SlotsOk(s') && Pairs(s') == Added(Pairs(s), x) && |Pairs(s')| == |Pairs(s)| + 1
  {
    var one := [Slot(x.key, x.payload, true)];
    BelowBoundFilled(s, x.key, u);
    assert gap < u - 1;
    ShiftLeftOk(s, u, gap, x);
    hide SlotsOk, Pairs, Added, UpperBound;
    var s' := s[..gap] + s[gap + 1..u] + one + s[u..];
    assert ShiftedLeft(s, u, gap)[u - 2] == s[u - 1];
    PlacedIs(ShiftedLeft(s, u, gap), u - 1, u - 1, x);
    assert Placed(ShiftedLeft(s, u, gap), u - 1, x) == s' by { hide Placed; }
    hide Placed;
    DropGap(s, 0, u, gap);
    assert s[0..u] == s[..u] && s[0..gap] == s[..gap];
    AddedInSlots(s, s', u, x, s[..gap] + s[gap + 1..u], s[u..]);
  }

  lemma {:induction false} ShiftLeftOk(s: seq<Slot>, u: nat, gap: nat, x: Pair)
    requires SlotsOk(s) && x.key < SENTINEL && UpperBound(s, x.key, u) && gap < u - 1 < |s| && !s[gap].filled
    requires forall m :: gap < m < u ==> s[m].filled
    ensures SlotsOk(s[..gap] + s[gap + 1..u] + [Slot(x.key, x.payload, true)] + s[u..])
  {
    var s' := s[..gap] + s[gap + 1..u] + [Slot(x.key, x.payload, true)] + s[u..];
    assert forall i :: 0 <= i < gap ==> s'[i] == s[i];
    assert forall i :: gap <= i < u - 1 ==> s'[i] == s[i + 1];
    assert forall i :: u <= i < |s| ==> s'[i] == s[i];
    assert SlotOk(s, gap);
    forall i | 0 <= i < |s'|
      ensures SlotOk(s', i)
    {
      assert SlotOk(s, i);
      if gap <= i < u - 1 {
        assert SlotOk(s, i + 1);
      }
    }
  }

  // ----- erasing -----

  /** The slots from l up to u become gaps with the key that follows them. */
  function Cleared(s: seq<Slot>, l: nat, u: nat): (r: seq<Slot>)
    requires l <= u <= |s|
    ensures |r| == |s|
  {
    var next := if u < |s| then s[u].key else SENTINEL;
    seq(|s|, i requires 0 <= i < |s| => if l <= i < u then Slot(next, s[i].payload, false) else s[i])
  }

  lemma {:induction false} ClearedOk(s: seq<Slot>, l: nat, u: nat)
    requires SlotsOk(s) && l <= u <= |s| && (0 < l < u ==> s[l - 1].filled)
    ensures SlotsOk(Cleared(s, l, u))
    ensures Pairs(Cleared(s, l, u)) == Pairs(s[..l]) + Pairs(s[u..])
    ensures Pairs(s) == Pairs(s[..l]) + Pairs(s[l..u]) + Pairs(s[u..])
  {
    var s' := Cleared(s, l, u);
    ClearedSorted(s, l, u);
    hide SlotsOk, Sorted, Pairs;
    PairsThree(s, l, u);
    PairsThree(s', l, u);
    ClearedParts(s, l, u);
    hide Cleared;
    NoPairs(s'[l..u]);
  }

  lemma {:induction false} ClearedParts(s: seq<Slot>, l: nat, u: nat)
    requires l <= u <= |s|
    ensures var s' := Cleared(s, l, u);
      s'[..l] == s[..l] && s'[u..] == s[u..] && forall i :: 0 <= i < u - l ==> !s'[l..u][i].filled
  {
  }

  lemma {:induction false} ClearedSorted(s: seq<Slot>, l: nat, u: nat)
    requires SlotsOk(s) && l <= u <= |s| && (0 < l < u ==> s[l - 1].filled)
    ensures SlotsOk(Cleared(s, l, u))
  {
    var s' := Cleared(s, l, u);
    KeysBelowSentinel(s);
    forall i | 0 <= i < |s'|
      ensures SlotOk(s', i)
    {
      assert SlotOk(s, i);
    }
  }

  lemma {:induction false} KeysBelowSentinel(s: seq<Slot>)
    requires SlotsOk(s)
    ensures forall i :: 0 <= i < |s| ==> s[i].key <= SENTINEL
  {
    if s != [] {
      assert SlotOk(s, |s| - 1);
    }
  }

  /** The pairs whose keys are not between lo and hi, both included. */
  function Removed(c: seq<Pair>, lo: int, hi: int): seq<Pair> {
    if c == [] then []
    else (if lo <= c[0].key <= hi then [] else [c[0]]) + Removed(c[1..], lo, hi)
  }

  lemma {:induction false} RemovedConcat(a: seq<Pair>, b: seq<Pair>, lo: int, hi: int)
    ensures Removed(a + b, lo, hi) == Removed(a, lo, hi) + Removed(b, lo, hi)
  {
    if a == [] {
      assert a + b == b;
    } else {
      assert (a + b)[0] == a[0] && (a + b)[1..] == a[1..] + b;
      RemovedConcat(a[1..], b, lo, hi);
      Regroup(if lo <= a[0].key <= hi then [] else [a[0]], Removed(a[1..], lo, hi), Removed(b, lo, hi));
    }
  }

  lemma {:induction false} RemovedNone(c: seq<Pair>, lo: int, hi: int)
    requires forall i :: 0 <= i < |c| ==> c[i].key < lo || hi < c[i].key
    ensures Removed(c, lo, hi) == c
  {
    if c != [] {
      RemovedNone(c[1..], lo, hi);
    }
  }

  lemma {:induction false} RemovedAll(c: seq<Pair>, lo: int, hi: int)
    requires forall i :: 0 <= i < |c| ==> lo <= c[i].key <= hi
    ensures Removed(c, lo, hi) == []
  {
    if c != [] {
      RemovedAll(c[1..], lo, hi);
    }
  }

  /** Clearing exactly the slots whose keys are in the range removes exactly the pairs of the range. */
  lemma {:induction false} ClearedRange(s: seq<Slot>, l: nat, u: nat, lo: int, hi: int)
    requires SlotsOk(s) && LowerBound(s, lo, l) && UpperBound(s, hi, u) && l <= u
    ensures SlotsOk(Cleared(s, l, u))
    ensures Pairs(Cleared(s, l, u)) == Removed(Pairs(s), lo, hi)
    ensures |Pairs(s)| == |Pairs(Cleared(s, l, u))| + |Pairs(s[l..u])|
  {
    if 0 < l < u {
      assert SlotOk(s, l - 1);
    }
    ClearedOk(s, l, u);
    var a, m, b := Pairs(s[..l]), Pairs(s[l..u]), Pairs(s[u..]);
    hide Pairs;
    PairsUpTo(s[..l], lo - 1);
    PairsUpTo(s[l..u], hi);
    PairsAbove(s[l..u], lo - 1);
    PairsAbove(s[u..], hi);
    hide SlotsOk, Pairs, Cleared, Removed, UpTo, Above;
    RemovedMiddle(a, m, b, lo, hi);
  }

  lemma {:induction false} RemovedMiddle(a: seq<Pair>, m: seq<Pair>, b: seq<Pair>, lo: int, hi: int)
    requires UpTo(a, lo - 1) && UpTo(m, hi) && Above(m, lo - 1) && Above(b, hi)
    ensures Removed(a + m + b, lo, hi) == a + b
  {
    RemovedNone(a, lo, hi);
    RemovedAll(m, lo, hi);
    RemovedNone(b, lo, hi);
    hide Removed, UpTo, Above;
    RemovedConcat(a + m, b, lo, hi);
    RemovedConcat(a, m, lo, hi);
  }

  /** Without the first pair that has the key. */
  function RemovedFirst(c: seq<Pair>, k: int): seq<Pair> {
    if c == [] then [] else if c[0].key == k then c[1..] else [c[0]] + RemovedFirst(c[1..], k)
  }

  lemma {:induction false} RemovedFirstIs(a: seq<Pair>, x: Pair, b: seq<Pair>)
    requires UpTo(a, x.key - 1)
    ensures RemovedFirst(a + [x] + b, x.key) == a + b
  {
    var c := a + [x] + b;
    if a == [] {
      assert c[1..] == b;
    } else {
      assert c[0] == a[0] && c[1..] == a[1..] + [x] + b;
      RemovedFirstIs(a[1..], x, b);
    }
  }

  lemma {:induction false} RemovedFirstNone(c: seq<Pair>, k: int)
    requires forall i :: 0 <= i < |c| ==> c[i].key != k
    ensures RemovedFirst(c, k) == c
  {
    if c != [] {
      RemovedFirstNone(c[1..], k);
    }
  }

  /** Clearing the first filled slot with the key, and the gaps before it, removes the first pair with the key. */
  lemma {:induction false} ClearedFirst(s: seq<Slot>, l: nat, pos: nat, k: int)
    requires SlotsOk(s) && LowerBound(s, k, l) && l <= pos < |s| && s[pos].filled && s[pos].key == k
    requires forall m :: l <= m < pos ==> !s[m].filled
    ensures SlotsOk(Cleared(s, l, pos + 1))
    ensures Pairs(Cleared(s, l, pos + 1)) == RemovedFirst(Pairs(s), k)
    ensures |Pairs(s)| == |Pairs(Cleared(s, l, pos + 1))| + 1
  {
    if 0 < l {
      assert SlotOk(s, l - 1);
    }
    hide Pairs, Cleared;
    ClearedOk(s, l, pos + 1);
    PairsUpTo(s[..l], k - 1);
    OneFilled(s, l, pos);
    hide SlotsOk;
    RemovedFirstIs(Pairs(s[..l]), Pair(k, s[pos].payload), Pairs(s[pos + 1..]));
  }

  /** Gaps and then a filled slot hold one pair. */
  lemma {:induction false} OneFilled(s: seq<Slot>, l: nat, pos: nat)
    requires l <= pos < |s| && s[pos].filled && forall m :: l <= m < pos ==> !s[m].filled
    ensures Pairs(s[l..pos + 1]) == [Pair(s[pos].key, s[pos].payload)]
  {
    hide Pairs;
    assert s[l..pos + 1] == s[l..pos] + [s[pos]];
    PairsConcat(s[l..pos], [s[pos]]);
    NoPairs(s[l..pos]);
    OnePair(Pair(s[pos].key, s[pos].payload));
  }

  // ----- filling an array from left to right -----

  /** Slots up to the last filled one. */
  ghost predicate Loaded(s: seq<Slot>) {
    SlotsOk(s) && (s != [] ==> s[|s| - 1].filled)
  }

  /** Gaps that repeat the key of the pair after them, then the pair. */
  lemma {:induction false} LoadNext(s: seq<Slot>, gaps: seq<Slot>, x: Pair)
    requires Loaded(s) && x.key < SENTINEL && (s != [] ==> s[|s| - 1].key <= x.key)
    requires forall i :: 0 <= i < |gaps| ==> !gaps[i].filled && gaps[i].key == x.key
    ensures var s' := s + gaps + [Slot(x.key, x.payload, true)];
      Loaded(s') && Pairs(s') == Pairs(s) + [x] && s'[|s'| - 1].key == x.key
  {
    var one := [Slot(x.key, x.payload, true)];
    PairsConcat(s + gaps, one);
    PairsConcat(s, gaps);
    NoPairs(gaps);
    OnePair(x);
    LoadNextOk(s, gaps, x);
  }

  lemma {:induction false} LoadNextOk(s: seq<Slot>, gaps: seq<Slot>, x: Pair)
    requires Loaded(s) && x.key < SENTINEL && (s != [] ==> s[|s| - 1].key <= x.key)
    requires forall i :: 0 <= i < |gaps| ==> !gaps[i].filled && gaps[i].key == x.key
    ensures Loaded(s + gaps + [Slot(x.key, x.payload, true)])
  {
    var s' := s + gaps + [Slot(x.key, x.payload, true)];
    assert forall i :: 0 <= i < |s| ==> s'[i] == s[i];
    assert forall i :: |s| <= i < |s| + |gaps| ==> s'[i] == gaps[i - |s|];
    forall i | 0 <= i < |s'|
      ensures SlotOk(s', i)
    {
      if i < |s| {
        assert SlotOk(s, i);
      }
    }
  }

  /** The sentinel in every slot that is left. */
  lemma {:induction false} LoadTail(s: seq<Slot>, gaps: seq<Slot>)
    requires Loaded(s)
    requires forall i :: 0 <= i < |gaps| ==> !gaps[i].filled && gaps[i].key == SENTINEL
    ensures SlotsOk(s + gaps) && Pairs(s + gaps) == Pairs(s)
  {
    PairsConcat(s, gaps);
    NoPairs(gaps);
    KeysBelowSentinel(s);
    var s' := s + gaps;
    forall i | 0 <= i < |s'|
      ensures SlotOk(s', i)
    {
      if i < |s| {
        assert SlotOk(s, i);
      }
    }
  }

  // ----- the multimap is what it should be -----

  /** Adding adds one pair and loses none. */
  lemma {:induction false} AddedCounts(c: seq<Pair>, x: Pair)
    ensures multiset(Added(c, x)) == multiset(c) + multiset{x}
  {
    if c != [] && c[0].key <= x.key {
      AddedCounts(c[1..], x);
      assert c == [c[0]] + c[1..];
      assert Added(c, x) == [c[0]] + Added(c[1..], x);
    }
  }

  lemma {:induction false} AddedInOrder(c: seq<Pair>, x: Pair)
    requires InOrder(c)
    ensures InOrder(Added(c, x))
  {
    if c != [] && c[0].key <= x.key {
      var rest := Added(c[1..], x);
      AddedInOrder(c[1..], x);
      forall i | 0 <= i < |rest|
        ensures c[0].key <= rest[i].key
      {
        AddedFrom(c[1..], x, rest[i]);
      }
      Prefixed(c[0], rest);
    }
  }

  lemma {:induction false} AddedFrom(c: seq<Pair>, x: Pair, y: Pair)
    requires y in Added(c, x)
    ensures y == x || y in c
  {
    if c != [] && c[0].key <= x.key && y != c[0] {
      AddedFrom(c[1..], x, y);
    }
  }

  lemma {:induction false} Prefixed(y: Pair, c: seq<Pair>)
    requires InOrder(c) && forall i :: 0 <= i < |c| ==> y.key <= c[i].key
    ensures InOrder([y] + c)
  {
  }

  /** Removing a range keeps exactly the pairs outside the range, as often as they were there. */
  lemma {:induction false} RemovedCounts(c: seq<Pair>, lo: int, hi: int, y: Pair)
    ensures multiset(Removed(c, lo, hi))[y] == if lo <= y.key <= hi then 0 else multiset(c)[y]
  {
    if c != [] {
      var rest := Removed(c[1..], lo, hi);
      RemovedCounts(c[1..], lo, hi, y);
      assert c == [c[0]] + c[1..];
      if lo <= c[0].key <= hi {
        assert Removed(c, lo, hi) == rest;
      } else {
        assert Removed(c, lo, hi) == [c[0]] + rest;
      }
      hide Removed;
    }
  }

  lemma {:induction false} RemovedInOrder(c: seq<Pair>, lo: int, hi: int)
    requires InOrder(c)
    ensures InOrder(Removed(c, lo, hi))
  {
    if c != [] {
      var rest := Removed(c[1..], lo, hi);
      RemovedInOrder(c[1..], lo, hi);
      forall i | 0 <= i < |rest|
        ensures c[0].key <= rest[i].key
      {
        RemovedFrom(c[1..], lo, hi, rest[i]);
      }
      Prefixed(c[0], rest);
      assert [] + rest == rest;
    }
  }

  lemma {:induction false} RemovedFrom(c: seq<Pair>, lo: int, hi: int, y: Pair)
    requires y in Removed(c, lo, hi)
    ensures y in c
  {
    if c != [] && y in Removed(c[1..], lo, hi) {
      RemovedFrom(c[1..], lo, hi, y);
    }
  }
}
