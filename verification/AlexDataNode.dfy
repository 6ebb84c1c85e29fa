/** The data node of ALEX: key and payload arrays with gaps, an occupancy bitmap, and a model that only guides. */
module AlexNode {
  import opened Sequences
  import opened AlexBitmap
  import opened AlexSlots
  import opened AlexSearch

  ghost predicate Fits(ks: seq<int>, ps: seq<int>, bm: seq<Word>) {
    |ks| > 0 && |ps| == |ks| && Shape(bm, |ks|)
  }

  ghost function SlotsOf(ks: seq<int>, ps: seq<int>, bm: seq<Word>): (s: seq<Slot>)
    requires Fits(ks, ps, bm)
    ensures |s| == |ks|
  {
    seq(|ks|, i requires 0 <= i < |ks| => Slot(ks[i], ps[i], Exists(bm, i)))
  }

  lemma PutKeyIs(ks: seq<int>, ps: seq<int>, bm: seq<Word>, i: nat, k: int)
    requires Fits(ks, ps, bm) && i < |ks|
    ensures Fits(ks[i := k], ps, bm)
    ensures var s := SlotsOf(ks, ps, bm); SlotsOf(ks[i := k], ps, bm) == s[i := s[i].(key := k)]
  {
  }

  lemma PutPayloadIs(ks: seq<int>, ps: seq<int>, bm: seq<Word>, i: nat, p: int)
    requires Fits(ks, ps, bm) && i < |ks|
    ensures Fits(ks, ps[i := p], bm)
    ensures var s := SlotsOf(ks, ps, bm); SlotsOf(ks, ps[i := p], bm) == s[i := s[i].(payload := p)]
  {
  }

  /** |= and &= ~ with a single bit. */
  function WithBit(bm: seq<Word>, pos: nat, b: bool): seq<Word>
    requires pos < 64 * |bm|
  {
    var w := bm[pos / 64];
    bm[pos / 64 := if b then w + {pos % 64} else w - {pos % 64}]
  }

  lemma PutBitIs(ks: seq<int>, ps: seq<int>, bm: seq<Word>, i: nat, b: bool)
    requires Fits(ks, ps, bm) && i < |ks|
    ensures Fits(ks, ps, WithBit(bm, i, b))
    ensures var s := SlotsOf(ks, ps, bm); SlotsOf(ks, ps, WithBit(bm, i, b)) == s[i := s[i].(filled := b)]
  {
    ShapeKept(bm, |ks|, i, b);
    forall j | 0 <= j < |ks|
      ensures Exists(WithBit(bm, i, b), j) == if j == i then b else Exists(bm, j)
    {
      BitChanged(bm, i, b, j);
    }
    hide WithBit, Exists, Shape;
  }

  lemma ShapeKept(bm: seq<Word>, cap: nat, i: nat, b: bool)
    requires Shape(bm, cap) && i < cap
    ensures Shape(WithBit(bm, i, b), cap)
  {
    var last := |bm| - 1;
    var room := cap - 64 * last;
    assert i / 64 == last ==> i % 64 < room;
    assert BitsBelow(bm[last], room);
    assert BitsBelow(WithBit(bm, i, b)[last], room);
  }

  lemma BitChanged(bm: seq<Word>, i: nat, b: bool, j: nat)
    requires i < 64 * |bm| && j < 64 * |bm|
    ensures Exists(WithBit(bm, i, b), j) == if j == i then b else Exists(bm, j)
  {
    if j / 64 == i / 64 && j % 64 == i % 64 {
      assert j == i;
    }
  }

  class AlexDataNode {
    var keys: array<int>
    var payloads: array<int>
    var bitmap: array<Word>
    var numKeys: nat
    var model: int -> int
    var expansionThreshold: real
    var contractionThreshold: real
    var maxSlots: nat
    var numInserts: nat

    ghost predicate Layout()
      reads this`keys, this`payloads, this`bitmap, keys, payloads, bitmap
    {
      keys != payloads && Fits(keys[..], payloads[..], bitmap[..])
    }

    ghost function Slots(): seq<Slot>
      reads this`keys, this`payloads, this`bitmap, keys, payloads, bitmap
      requires Layout()
    {
      SlotsOf(keys[..], payloads[..], bitmap[..])
    }

    /** The sorted key-payload multimap the node stands for. */
    ghost function Contents(): seq<Pair>
      reads this`keys, this`payloads, this`bitmap, keys, payloads, bitmap
      requires Layout()
    {
      Pairs(Slots())
    }

    ghost predicate Valid()
      reads this, keys, payloads, bitmap
    {
      && Layout()
      && SlotsOk(Slots())
      && |Contents()| == numKeys
      && 1.0 <= expansionThreshold <= keys.Length as real
    }

    /**
     * The thresholds after n keys were loaded: contract below 0.6 of the slots, expand at 0.8 of the
     * slots or with one key more than loaded, whichever is more.
     */
    ghost predicate Tuned(n: nat)
      reads this
    {
      && contractionThreshold == keys.Length as real * 0.6
      && expansionThreshold >= keys.Length as real * 0.8
      && expansionThreshold >= (n + 1) as real
      && (expansionThreshold == keys.Length as real * 0.8 || expansionThreshold == (n + 1) as real)
    }

    /** The thresholds of a node loaded without keys: expand only when it is full, and never contract. */
    ghost predicate TunedEmpty()
      reads this
    {
      contractionThreshold == 0.0 && expansionThreshold == keys.Length as real
    }

    ghost function Repr(): set<object>
      reads this
    {
      {this, keys, payloads, bitmap}
    }

    method PutKey(i: nat, k: int)
      requires Layout() && i < keys.Length
      modifies keys
      ensures Layout() && Slots() == old(Slots())[i := old(Slots())[i].(key := k)]
    {
      PutKeyIs(keys[..], payloads[..], bitmap[..], i, k);
      keys[i] := k;
      assert keys[..] == old(keys[..])[i := k];
    }

    method PutPayload(i: nat, p: int)
      requires Layout() && i < keys.Length
      modifies payloads
      ensures Layout() && Slots() == old(Slots())[i := old(Slots())[i].(payload := p)]
    {
      PutPayloadIs(keys[..], payloads[..], bitmap[..], i, p);
      payloads[i] := p;
      assert payloads[..] == old(payloads[..])[i := p];
    }

    method PutBit(i: nat, b: bool)
      requires Layout() && i < keys.Length
      modifies bitmap
      ensures Layout() && Slots() == old(Slots())[i := old(Slots())[i].(filled := b)]
    {
      PutBitIs(keys[..], payloads[..], bitmap[..], i, b);
      var w := bitmap[i / 64];
      bitmap[i / 64] := if b then w + {i % 64} else w - {i % 64};
      assert bitmap[..] == WithBit(old(bitmap[..]), i, b);
    }

    method CheckExists(pos: nat) returns (b: bool)
      requires Layout() && pos < keys.Length
      ensures b == Slots()[pos].filled
    {
      b := pos % 64 in bitmap[pos / 64];
    }

    lemma SlotsAre()
      requires Layout()
      ensures |Slots()| == keys.Length == payloads.Length && keys.Length > 0 && Shape(bitmap[..], keys.Length)
      ensures forall i :: 0 <= i < keys.Length ==> Slots()[i] == Slot(keys[i], payloads[i], Exists(bitmap[..], i))
    {
    }

    lemma LayoutHas()
      requires Layout()
      ensures |Slots()| == keys.Length == payloads.Length && keys.Length > 0 && Shape(bitmap[..], keys.Length)
    {
    }

    lemma KeyIs(i: nat)
      requires Layout() && i < keys.Length
      ensures |Slots()| == keys.Length && keys[i] == Slots()[i].key
    {
    }

    // ----- searches -----

    /** What the model predicts, brought into range; nothing below depends on it. */
    method PredictPosition(k: int) returns (pos: nat)
      requires Layout()
      ensures pos < keys.Length && forall q :: 0 <= q < keys.Length ==> Distance(pos, model(k)) <= Distance(q, model(k))
    {
      var p := model(k);
      var m := if p < keys.Length - 1 then p else keys.Length - 1;
      pos := if m > 0 then m else 0;
    }

    lemma KeysAscend()
      requires Layout() && SlotsOk(Slots())
      ensures Ascending(keys[..])
    {
      forall i, j | 0 <= i < j < keys.Length
        ensures keys[i] <= keys[j]
      {
        assert Slots()[i].key <= Slots()[j].key;
      }
    }

    method UpperBoundOf(k: int) returns (r: nat)
      requires Layout() && SlotsOk(Slots())
      ensures UpperBound(Slots(), k, r)
    {
      var m := PredictPosition(k);
      r := UpperBoundFrom(m, k);
    }

    method UpperBoundFrom(m: nat, k: int) returns (r: nat)
      requires Layout() && SlotsOk(Slots()) && m < keys.Length
      ensures UpperBound(Slots(), k, r)
    {
      KeysAscend();
      r := ExponentialSearchUpperBound(keys, m, k);
      assert forall i :: 0 <= i < keys.Length ==> Slots()[i].key == keys[..][i];
    }

    method LowerBoundOf(k: int) returns (r: nat)
      requires Layout() && SlotsOk(Slots())
      ensures LowerBound(Slots(), k, r)
    {
      var m := PredictPosition(k);
      KeysAscend();
      r := ExponentialSearchLowerBound(keys, m, k);
      assert forall i :: 0 <= i < keys.Length ==> Slots()[i].key == keys[..][i];
    }

    /** lower_bound with a real key: an integer is below it exactly when it is below the next integer. */
    method LowerBoundAt(x: real) returns (r: nat)
      requires Layout() && SlotsOk(Slots())
      ensures r <= keys.Length == |Slots()|
      ensures forall i :: 0 <= i < keys.Length ==> (i < r <==> Slots()[i].key as real < x)
    {
      r := LowerBoundOf(Ceiling(x));
      forall i | 0 <= i < keys.Length
        ensures i < r <==> Slots()[i].key as real < x
      {
        BelowCeiling(Slots()[i].key, x);
      }
    }

    /** The last pair with the key, and -1 exactly when there is none. */
    method FindKey(k: int) returns (pos: int)
      requires Valid() && k < SENTINEL
      ensures pos == -1 <==> forall x :: x in Contents() ==> x.key != k
      ensures pos != -1 ==> 0 <= pos < keys.Length && Slots()[pos] == Slot(k, payloads[pos], true)
      ensures pos != -1 ==> Above(Pairs(Slots()[pos + 1..]), k)
    {
      var u := UpperBoundOf(k);
      ghost var s := Slots();
      if u == 0 || keys[u - 1] != k {
        NotThere(s, k, u);
        return -1;
      }
      BelowBoundFilled(s, k, u);
      PairsFrom(s, Pair(k, s[u - 1].payload));
      PairsAbove(s[u..], k);
      return u - 1;
    }

    /** The first filled slot with a key not less, or the capacity; and exactly when the lookup reads past the bitmap. */
    method FindLower(k: int) returns (r: Checked<nat>, ghost l: nat)
      requires Layout() && SlotsOk(Slots())
      ensures LowerBound(Slots(), k, l)
      ensures r.PastBitmap? <==> keys[keys.Length - 1] < k && keys.Length % 64 == 0
      ensures r.Ok? ==> l <= r.value <= keys.Length && (r.value < keys.Length ==> Slots()[r.value].filled)
      ensures r.Ok? ==> forall q :: l <= q < r.value ==> !Slots()[q].filled
    {
      var pos := LowerBoundOf(k);
      l := pos;
      hide SlotsOk, Slots, Shape;
      SlotsAre();
      r := GetNextFilledPosition(bitmap[..], keys.Length, pos, false);
    }

    // ----- inserts -----

    method PutSlot(pos: nat, x: Pair)
      requires Layout() && pos < keys.Length
      modifies keys, payloads, bitmap
      ensures Layout() && Slots() == old(Slots())[pos := Slot(x.key, x.payload, true)]
    {
      SlotsAre();
      hide AlexDataNode.Slots, AlexDataNode.Layout, Shape;
      PutKey(pos, x.key);
      PutPayload(pos, x.payload);
      PutBit(pos, true);
    }

    /** Overwrite the keys of the gaps before a position, back to the previous filled slot. */
    method SpreadBack(pos: nat, k: int)
      requires Layout() && pos < keys.Length
      modifies keys
      ensures Layout() && Slots() == Spread(old(Slots()), pos, k)
    {
      SlotsAre();
      hide AlexDataNode.Slots, AlexDataNode.Layout, Shape;
      var i := pos;
      while true
        invariant 0 <= i <= pos && Layout() && |Slots()| == keys.Length
        invariant Spread(Slots(), i, k) == Spread(old(Slots()), pos, k)
        decreases i
      {
        if i == 0 {
          break;
        }
        var filled := CheckExists(i - 1);
        if filled {
          break;
        }
        i := i - 1;
        PutKey(i, k);
      }
    }

    method InsertElementAt(x: Pair, pos: nat)
      requires Layout() && pos < keys.Length
      modifies keys, payloads, bitmap
      ensures Layout() && Slots() == Placed(old(Slots()), pos, x)
      ensures |Slots()| == keys.Length && Slots()[pos] == Slot(x.key, x.payload, true)
    {
      hide AlexDataNode.Slots, AlexDataNode.Layout, Spread;
      LayoutHas();
      PutSlot(pos, x);
      SpreadBack(pos, x.key);
    }

    /** The slots between the position and the nearest gap are all filled. */
    lemma NoGapBetween(u: nat, gap: int)
      requires Layout() && u <= keys.Length
      requires Nearest(bitmap[..], keys.Length, if u < keys.Length then u else keys.Length - 1, gap)
      ensures 0 <= gap < keys.Length && !Slots()[gap].filled
      ensures gap >= u ==> forall m :: u <= m < gap ==> Slots()[m].filled
      ensures gap < u ==> forall m :: gap < m < u ==> Slots()[m].filled
    {
      forall m | 0 <= m < keys.Length && !Slots()[m].filled
        ensures Gap(bitmap[..], keys.Length, m)
      {
      }
    }

    lemma HasGap()
      requires Layout() && |Pairs(Slots())| < keys.Length
      ensures exists q :: Gap(bitmap[..], keys.Length, q)
    {
      if forall i :: 0 <= i < keys.Length ==> Slots()[i].filled {
        AllFilled(Slots());
      } else {
        var q :| 0 <= q < keys.Length && !Slots()[q].filled;
        assert Gap(bitmap[..], keys.Length, q);
      }
    }

    method PlaceFromRight(x: Pair, u: nat, gap: nat)
      requires Layout() && SlotsOk(Slots()) && x.key < SENTINEL && UpperBound(Slots(), x.key, u)
      requires u < gap < keys.Length && !Slots()[gap].filled && forall m :: u <= m < gap ==> Slots()[m].filled
      modifies keys, payloads, bitmap
      ensures Layout() && SlotsOk(Slots())
      ensures Pairs(Slots()) == Added(old(Pairs(Slots())), x) && |Pairs(Slots())| == old(|Pairs(Slots())|) + 1
      ensures Slots()[u] == Slot(x.key, x.payload, true)
    {
      SlotsAre();
      hide AlexDataNode.Slots, AlexDataNode.Layout, SlotsOk, UpperBound, Pairs, Added, ShiftedRight, ShiftedLeft, Shape, Exists;
      ghost var s := Slots();
      PutBit(gap, true);
      ShiftRight(s, u, gap);
      hide Placed;
      InsertElementAt(x, u);
      PlaceAfterShiftRight(s, u, gap, x);
    }

    method PlaceFromLeft(x: Pair, u: nat, gap: nat)
      requires Layout() && SlotsOk(Slots()) && x.key < SENTINEL && UpperBound(Slots(), x.key, u)
      requires gap < u <= keys.Length && !Slots()[gap].filled && forall m :: gap < m < u ==> Slots()[m].filled
      modifies keys, payloads, bitmap
      ensures Layout() && SlotsOk(Slots())
      ensures Pairs(Slots()) == Added(old(Pairs(Slots())), x) && |Pairs(Slots())| == old(|Pairs(Slots())|) + 1
      ensures Slots()[u - 1] == Slot(x.key, x.payload, true)
    {
      SlotsAre();
      hide AlexDataNode.Slots, AlexDataNode.Layout, SlotsOk, UpperBound, Pairs, Added, ShiftedRight, ShiftedLeft, Shape, Exists;
      ghost var s := Slots();
      PutBit(gap, true);
      ShiftLeft(s, u, gap);
      hide Placed;
      InsertElementAt(x, u - 1);
      PlaceAfterShiftLeft(s, u, gap, x);
      ghost var t := Placed(ShiftedLeft(s, u, gap), u - 1, x);
      assert Slots() == t;
      assert SlotsOk(t);
      assert Pairs(t) == Added(Pairs(s), x);
    }

    /** Shift the slots between the position and the nearest gap by one, and put the pair in the slot that becomes free. */
    method InsertUsingShifts(x: Pair, u: nat) returns (pos: nat)
      requires Layout() && SlotsOk(Slots()) && x.key < SENTINEL && |Pairs(Slots())| < keys.Length
      requires UpperBound(Slots(), x.key, u) && (u < keys.Length ==> Slots()[u].filled)
      modifies keys, payloads, bitmap
      ensures Layout() && SlotsOk(Slots())
      ensures Pairs(Slots()) == Added(old(Pairs(Slots())), x) && |Pairs(Slots())| == old(|Pairs(Slots())|) + 1
      ensures pos < keys.Length && Slots()[pos] == Slot(x.key, x.payload, true)
    {
      SlotsAre();
      assert u <= keys.Length;
      hide AlexDataNode.Slots, AlexDataNode.Layout, SlotsOk, UpperBound, Pairs, Added, Gap, Nearest, Shape, Exists;
      HasGap();
      var gap := ClosestGap(bitmap[..], keys.Length, u);
      assert gap != -1;
      NoGapBetween(u, gap);
      if gap >= u {
        PlaceFromRight(x, u, gap);
        pos := u;
      } else {
        PlaceFromLeft(x, u, gap);
        pos := u - 1;
      }
    }

    method ShiftRight(ghost s: seq<Slot>, u: nat, gap: nat)
      requires Layout() && |s| == keys.Length && u < gap < keys.Length && Slots() == s[gap := s[gap].(filled := true)]
      requires forall m :: u <= m < gap ==> s[m].filled
      modifies keys, payloads
      ensures Layout() && Slots() == ShiftedRight(s, u, gap)
    {
      hide AlexDataNode.Slots, AlexDataNode.Layout;
      SlotsAre();
      ShiftStart(s, gap);
      var i := gap;
      hide ShiftedRight, ShiftedLeft, Shape;
      while i > u
        invariant u <= i <= gap && Layout()
        invariant Slots() == ShiftedRight(s, i, gap)
      {
        SlotsAre();
        PutKey(i, keys[i - 1]);
        PutPayload(i, payloads[i - 1]);
        ShiftRightStep(s, i, gap);
        i := i - 1;
      }
    }

    method ShiftLeft(ghost s: seq<Slot>, u: nat, gap: nat)
      requires Layout() && |s| == keys.Length && gap < u <= keys.Length && Slots() == s[gap := s[gap].(filled := true)]
      requires forall m :: gap < m < u ==> s[m].filled
      modifies keys, payloads
      ensures Layout() && Slots() == ShiftedLeft(s, u, gap)
    {
      hide AlexDataNode.Slots, AlexDataNode.Layout;
      SlotsAre();
      ShiftStart(s, gap);
      var i := gap;
      hide ShiftedRight, ShiftedLeft, Shape;
      while i < u - 1
        invariant gap <= i <= u - 1 && Layout()
        invariant Slots() == ShiftedLeft(s, i + 1, gap)
      {
        SlotsAre();
        PutKey(i, keys[i + 1]);
        PutPayload(i, payloads[i + 1]);
        ShiftLeftStep(s, i, gap);
        i := i + 1;
      }
    }

    // ----- loading -----

    /** The pairs in the order the iterator yields them. */
    method Collect() returns (c: seq<Pair>)
      requires Layout()
      ensures c == Contents()
    {
      LayoutHas();
      assert Slots()[0..keys.Length] == Slots();
      var r := CollectRange(0, keys.Length);
      c := r.value;
    }

    /** The pairs an iterator that starts at left yields before it comes to right; or it read past the bitmap. */
    method CollectRange(left: nat, right: nat) returns (r: Checked<seq<Pair>>)
      requires Layout() && left <= right <= keys.Length
      ensures |Slots()| == keys.Length
      ensures r.PastBitmap? <==> left == keys.Length && keys.Length % 64 == 0
      ensures r.Ok? ==> r.value == Pairs(Slots()[left..right])
    {
      LayoutHas();
      hide AlexDataNode.Layout, AlexDataNode.Slots, Shape, Stands, Ahead, FirstFilled, Exists;
      var it := Initialize(bitmap[..], keys.Length, left);
      if it.PastBitmap? {
        return PastBitmap;
      }
      var (idx, cursor) := it.value;
      var c: seq<Pair> := [];
      NoneYet(Slots(), left);
      hide Pairs;
      ghost var start := left;
      while idx < right && idx != -1
        invariant left <= start <= keys.Length && c == Pairs(Slots()[left..start]) && start <= right
        invariant Stands(bitmap[..], keys.Length, start, idx, cursor)
        decreases keys.Length - start
      {
        StandsAt(start, idx, cursor);
        c := c + [Pair(keys[idx], payloads[idx])];
        NextPair(Slots(), left, start, idx);
        start := idx + 1;
        idx, cursor := Advance(bitmap[..], keys.Length, start, cursor);
      }
      StandsAt(start, idx, cursor);
      NoMorePairs(Slots(), left, start, right);
      return Ok(c);
    }

    /** Where an iterator stands, in terms of the slots. */
    lemma StandsAt(start: nat, idx: int, cursor: Cursor)
      requires Layout() && Shape(bitmap[..], keys.Length) && Stands(bitmap[..], keys.Length, start, idx, cursor)
      ensures |Slots()| == keys.Length == payloads.Length && -1 <= idx < keys.Length
      ensures idx == -1 ==> forall q :: start <= q < keys.Length ==> !Slots()[q].filled
      ensures idx != -1 ==> start <= idx && Slots()[idx] == Slot(keys[idx], payloads[idx], true)
      ensures idx != -1 ==> forall q :: start <= q < idx ==> !Slots()[q].filled
      ensures idx != -1 ==> Ahead(bitmap[..], keys.Length, idx + 1, cursor)
    {
      SlotsAre();
      hide Ahead, Exists;
    }

    /** The number of keys in a range, by the bitmap, is the number of its pairs. */
    lemma {:induction false} RangeCounted(left: nat, right: nat)
      requires Layout() && left <= right <= keys.Length <= 64 * |bitmap[..]|
      ensures |Slots()| == keys.Length && CountIn(bitmap[..], left, right) == |Pairs(Slots()[left..right])|
    {
      SlotsAre();
      if left < right {
        RangeCounted(left, right - 1);
        var s := Slots();
        hide AlexDataNode.Layout, AlexDataNode.Slots, Shape, Exists;
        if s[right - 1].filled {
          NextPair(s, left, right - 1, right - 1);
        } else {
          NoMorePairs(s, left, right - 1, right);
        }
      } else {
        NoneYet(Slots(), left);
      }
    }

    /** The keys of the gaps before a pair, and the pair. */
    method PutNext(from: nat, position: nat, x: Pair)
      requires Layout() && from <= position < keys.Length
      requires forall j :: from <= j < keys.Length ==> !Slots()[j].filled
      requires Loaded(Slots()[..from]) && x.key < SENTINEL && (from > 0 ==> Slots()[from - 1].key <= x.key)
      modifies keys, payloads, bitmap
      ensures Layout() && Loaded(Slots()[..position + 1]) && Slots()[position].key == x.key
      ensures Pairs(Slots()[..position + 1]) == old(Pairs(Slots()[..from])) + [x]
      ensures forall j :: position < j < keys.Length ==> !Slots()[j].filled
      ensures PutAfter(old(Slots()), from - 1, position, x.key, Slots())
    {
      hide AlexDataNode.Layout, AlexDataNode.Slots, Pairs, SlotsOk, Loaded, Shape, Exists;
      SlotsAre();
      ghost var s := Slots();
      FillKeys(from, position, x.key);
      PutSlot(position, x);
      LoadNextSlots(s, Slots(), from, position, x);
    }

    method FillKeys(from: nat, to: nat, k: int)
      requires Layout() && from <= to <= keys.Length
      modifies keys
      ensures Layout() && |Slots()| == |old(Slots())| == keys.Length
      ensures forall j :: 0 <= j < keys.Length ==>
        Slots()[j] == if from <= j < to then old(Slots())[j].(key := k) else old(Slots())[j]
    {
      hide AlexDataNode.Layout, AlexDataNode.Slots;
      SlotsAre();
      var i := from;
      while i < to
        invariant from <= i <= to && Layout() && |Slots()| == keys.Length
        invariant forall j :: 0 <= j < keys.Length ==>
          Slots()[j] == if from <= j < i then old(Slots())[j].(key := k) else old(Slots())[j]
      {
        PutKey(i, k);
        i := i + 1;
      }
    }

    /** The first i pairs are in the slots up to last, and nothing is after that. */
    ghost predicate Progress(values: seq<Pair>, i: nat, last: int)
      reads this`keys, this`payloads, this`bitmap, keys, payloads, bitmap
    {
      && Layout()
      && i <= |values|
      && -1 <= last < keys.Length
      && Loaded(Slots()[..last + 1])
      && Pairs(Slots()[..last + 1]) == values[..i]
      && (forall j :: last < j < keys.Length ==> !Slots()[j].filled)
      && (last >= 0 ==> i > 0 && Slots()[last].key == values[i - 1].key)
    }

    ghost predicate Loadable(values: seq<Pair>) {
      InOrder(values) && forall i :: 0 <= i < |values| ==> values[i].key < SENTINEL
    }

    lemma LoadableAt(values: seq<Pair>, i: nat)
      requires Loadable(values) && i < |values|
      ensures values[i].key < SENTINEL && (i > 0 ==> values[i - 1].key <= values[i].key)
      ensures values[..i + 1] == values[..i] + [values[i]]
    {
    }

    lemma NoProgress(values: seq<Pair>)
      requires Layout() && forall j :: 0 <= j < keys.Length ==> !Slots()[j].filled
      ensures Progress(values, 0, -1)
    {
      NothingLoaded(Slots());
    }

    method PutValue(values: seq<Pair>, i: nat, last: int, position: nat)
      requires Progress(values, i, last) && Loadable(values) && i < |values| && last < position < keys.Length
      modifies keys, payloads, bitmap
      ensures Progress(values, i + 1, position)
      ensures old(Layout()) && Layout() && PutAfter(old(Slots()), last, position, values[i].key, Slots())
    {
      LoadableAt(values, i);
      SlotsAre();
      hide AlexDataNode.Layout, AlexDataNode.Slots, AlexDataNode.Loadable, Pairs, Loaded, Shape, Exists, PutAfter;
      ghost var before := values[..i];
      assert Pairs(Slots()[..last + 1]) == before;
      PutNext(last + 1, position, values[i]);
      SlotsAre();
      Progresses(values, i, position, before);
    }

    lemma Progresses(values: seq<Pair>, i: nat, position: nat, before: seq<Pair>)
      requires Layout() && i < |values| && position < keys.Length && before + [values[i]] == values[..i + 1]
      requires Loaded(Slots()[..position + 1]) && Slots()[position].key == values[i].key
      requires Pairs(Slots()[..position + 1]) == before + [values[i]]
      requires forall j :: position < j < keys.Length ==> !Slots()[j].filled
      ensures Progress(values, i + 1, position)
    {
    }

    /** Pairs packed from slot first on, after what was there up to end. */
    ghost predicate Packing(values: seq<Pair>, i: nat, last: int, s: seq<Slot>, end: int, first: nat, position: int)
      reads this`keys, this`payloads, this`bitmap, keys, payloads, bitmap
    {
      && Progress(values, i, last)
      && PackedAfter(s, end, first, position, Slots())
      && last == if position > first then position - 1 else end
    }

    lemma PackingStarts(values: seq<Pair>, i: nat, end: int, first: nat)
      requires Progress(values, i, end) && end < first <= keys.Length
      ensures Layout() && Packing(values, i, end, Slots(), end, first, first)
    {
      ProgressHas(values, i, end);
      hide AlexDataNode.Progress, AlexDataNode.Slots, AlexDataNode.Layout;
      PackedNone(Slots(), end, first);
    }

    lemma PackingEnds(values: seq<Pair>, last: int, s: seq<Slot>, end: int, first: nat)
      requires first < keys.Length && Packing(values, |values|, last, s, end, first, keys.Length)
      ensures Progress(values, |values|, last) && last == keys.Length - 1
      ensures Layout() && PackedAfter(s, end, first, keys.Length, Slots())
    {
      hide AlexDataNode.Slots, AlexDataNode.Layout, PackedAfter;
    }

    method PackOne(values: seq<Pair>, i: nat, last: int, position: nat, ghost s: seq<Slot>, ghost end: int, ghost first: nat)
      requires Packing(values, i, last, s, end, first, position) && Loadable(values) && i < |values| && last < position < keys.Length
      modifies keys, payloads, bitmap
      ensures Packing(values, i + 1, position, s, end, first, position + 1)
    {
      ProgressHas(values, i, last);
      hide AlexDataNode.Progress, AlexDataNode.Loadable, AlexDataNode.Layout, AlexDataNode.Slots, Shape, Pairs, SlotsOk;
      assert first <= position;
      hide PackedAfter, PutAfter;
      ghost var s1 := Slots();
      PutValue(values, i, last, position);
      PackedMore(s, end, first, last, position, values[i].key, s1, Slots());
    }

    /** Fill the rest of the store contiguously, up to its last slot. */
    method FillRest(values: seq<Pair>, from: nat, end: int, first: nat, ghost s: seq<Slot>) returns (last: int)
      requires Packing(values, from, end, s, end, first, first) && Loadable(values) && from < |values|
      requires -1 <= end < first == keys.Length - (|values| - from)
      modifies keys, payloads, bitmap
      ensures Packing(values, |values|, last, s, end, first, keys.Length)
    {
      hide AlexDataNode.Packing, AlexDataNode.Progress, AlexDataNode.Loadable, AlexDataNode.Layout, AlexDataNode.Slots, PackedAfter;
      var i, position := from, first;
      last := end;
      while i < |values|
        invariant from <= i <= |values| && -1 <= last < position == keys.Length - (|values| - i)
        invariant Packing(values, i, last, s, end, first, position)
      {
        PackOne(values, i, last, position, s, end, first);
        last := position;
        position := position + 1;
        i := i + 1;
      }
    }

    /** Progress, with every pair so far placed by the model, and when all are in, placed by it or packed at the end. */
    ghost predicate Filling(values: seq<Pair>, i: nat, last: int)
      reads this`keys, this`payloads, this`bitmap, this`model, keys, payloads, bitmap
    {
      && Progress(values, i, last)
      && if i < |values| then Guided(Slots(), model, last + 1) else PlacedByModel(Slots(), model)
    }

    lemma ProgressHas(values: seq<Pair>, i: nat, last: int)
      requires Progress(values, i, last)
      ensures Layout() && |Slots()| == keys.Length && -1 <= last < keys.Length && (last >= 0 ==> Slots()[last].filled)
      ensures forall j :: last < j < keys.Length ==> !Slots()[j].filled
    {
      SlotsAre();
      hide AlexDataNode.Slots, AlexDataNode.Layout, Pairs, SlotsOk;
      if last >= 0 {
        assert Slots()[..last + 1][last] == Slots()[last];
      }
    }

    lemma FillingStarts(values: seq<Pair>)
      requires Layout() && forall j :: 0 <= j < keys.Length ==> !Slots()[j].filled
      ensures Filling(values, 0, -1)
    {
      NoProgress(values);
      ProgressHas(values, 0, -1);
      hide AlexDataNode.Layout, AlexDataNode.Slots, AlexDataNode.Progress;
      assert Guided(Slots(), model, 0);
      GuidedThenGaps(Slots(), model, 0);
    }

    method FillGuided(values: seq<Pair>, i: nat, last: int, position: nat)
      requires Filling(values, i, last) && Loadable(values) && i < |values|
      requires -1 <= last < position < keys.Length
      requires position == if model(values[i].key) < last + 1 then last + 1 else model(values[i].key)
      modifies keys, payloads, bitmap
      ensures Filling(values, i + 1, position)
    {
      ProgressHas(values, i, last);
      hide AlexDataNode.Progress, AlexDataNode.Loadable, AlexDataNode.Layout, AlexDataNode.Slots;
      hide Guided, PlacedByModel, PutAfter;
      ghost var s, m := Slots(), model;
      assert Guided(s, m, last + 1);
      PutValue(values, i, last, position);
      GuidedMore(s, m, last, position, values[i].key, Slots());
      ProgressHas(values, i + 1, position);
      GuidedThenGaps(Slots(), m, position + 1);
    }

    method FillPacked(values: seq<Pair>, i: nat, last: int) returns (last': int)
      requires Filling(values, i, last) && Loadable(values) && i < |values|
      requires -1 <= last && last + 1 + (|values| - i) <= keys.Length
      modifies keys, payloads, bitmap
      ensures Filling(values, |values|, last') && last' == keys.Length - 1
    {
      var first := keys.Length - (|values| - i);
      PackingStarts(values, i, last, first);
      hide AlexDataNode.Progress, AlexDataNode.Packing, AlexDataNode.Loadable, AlexDataNode.Layout, AlexDataNode.Slots;
      hide Guided, PlacedByModel, PackedAfter;
      ghost var s, m := Slots(), model;
      assert Guided(s, m, last + 1) && |s| == keys.Length by { ProgressHas(values, i, last); }
      last' := FillRest(values, i, last, first, s);
      PackingEnds(values, last', s, last, first);
      GuidedThenFull(s, m, last, first, Slots());
    }

    /**
     * A pair goes to its predicted slot or the next free one; when the rest would not fit after that,
     * all the rest goes to the end without gaps.
     */
    method FillNext(values: seq<Pair>, i: nat, last: int) returns (i': nat, last': int)
      requires Filling(values, i, last) && Loadable(values) && i < |values|
      requires -1 <= last && last + 1 + (|values| - i) <= keys.Length
      modifies keys, payloads, bitmap
      ensures i < i' <= |values| && Filling(values, i', last')
      ensures -1 <= last' && last' + 1 + (|values| - i') <= keys.Length
      ensures i' == |values| ==> (last' == keys.Length - 1 || model(values[|values| - 1].key) < keys.Length - 1)
    {
      hide AlexDataNode.Filling, AlexDataNode.Loadable;
      var remaining := |values| - i;
      var position := model(values[i].key);
      position := if position < last + 1 then last + 1 else position;
      if keys.Length - position < remaining {
        last' := FillPacked(values, i, last);
        i' := |values|;
      } else {
        FillGuided(values, i, last, position);
        i', last' := i + 1, position;
      }
    }

    /** Whatever the model predicts, all pairs fit and end up in the slots in their order. */
    method Fill(values: seq<Pair>)
      requires Layout() && |values| <= keys.Length && Loadable(values)
      requires forall j :: 0 <= j < keys.Length ==> !Slots()[j].filled
      modifies keys, payloads, bitmap
      ensures Layout() && SlotsOk(Slots()) && Contents() == values && PlacedByModel(Slots(), model)
      ensures values != [] && model(values[|values| - 1].key) >= keys.Length - 1 ==>
        keys[keys.Length - 1] == values[|values| - 1].key
    {
      hide AlexDataNode.Layout, AlexDataNode.Slots, AlexDataNode.Filling, AlexDataNode.Loadable, AlexDataNode.Contents, SlotsOk;
      hide PlacedByModel;
      FillingStarts(values);
      var i, last := 0, -1;
      while i < |values|
        invariant 0 <= i <= |values| && -1 <= last && last + 1 + (|values| - i) <= keys.Length
        invariant Filling(values, i, last)
        invariant values != [] && i == |values| ==> (last == keys.Length - 1 || model(values[|values| - 1].key) < keys.Length - 1)
      {
        i, last := FillNext(values, i, last);
      }
      FinishFill(values, last);
    }

    method FinishFill(values: seq<Pair>, last: int)
      requires Filling(values, |values|, last)
      modifies keys
      ensures Layout() && SlotsOk(Slots()) && Contents() == values && PlacedByModel(Slots(), model)
      ensures values != [] && last == keys.Length - 1 ==> keys[keys.Length - 1] == values[|values| - 1].key
    {
      SlotsAre();
      hide AlexDataNode.Layout, AlexDataNode.Slots, Pairs, SlotsOk, Loaded, Shape, PlacedByModel;
      ghost var was := Slots();
      assert values[..|values|] == values;
      assert Loaded(was[..last + 1]) && Pairs(was[..last + 1]) == values && PlacedByModel(was, model);
      FillKeys(last + 1, keys.Length, SENTINEL);
      SlotsAre();
      TailFilled(was, values, last, model, Slots());
    }

    /** max(num_keys / density, num_keys + 1) slots, all of them gaps. */
    method Allocate(n: nat, density: real)
      requires 0.0 < density
      modifies this
      ensures Layout() && keys.Length == Capacity(n, density) && (forall j :: 0 <= j < keys.Length ==> !Slots()[j].filled)
      ensures fresh(keys) && fresh(payloads) && fresh(bitmap)
      ensures unchanged(this`model, this`maxSlots, this`numInserts, this`numKeys)
    {
      var cap := Capacity(n, density);
      keys := new int[cap];
      payloads := new int[cap];
      var words: nat := (cap + 63) / 64;
      bitmap := new Word[words](i => {});
      assert forall j :: 0 <= j < cap ==> !Exists(bitmap[..], j);
    }

    /** The thresholds after loading: expand at 0.8 of the slots, or just above the number of keys, but not above the slots. */
    method SetThresholds(n: nat)
      requires n < keys.Length
      modifies this`expansionThreshold, this`contractionThreshold
      ensures Tuned(n)
    {
      var cap := keys.Length as real;
      var most := if cap * 0.8 < (n + 1) as real then (n + 1) as real else cap * 0.8;
      expansionThreshold := if most < cap then most else cap;
      contractionThreshold := cap * 0.6;
    }

    /** Whatever the model predicts, the node then stands for exactly these pairs. */
    constructor BulkLoad(values: seq<Pair>, predict: int -> int, slots: nat)
      requires InOrder(values) && forall i :: 0 <= i < |values| ==> values[i].key < SENTINEL
      ensures Valid() && Contents() == values && keys.Length == Capacity(|values|, 0.7) && PlacedByModel(Slots(), predict)
      ensures (if values == [] then TunedEmpty() else Tuned(|values|)) && numInserts == 0 && maxSlots == slots && model == predict
      ensures values != [] && predict(values[|values| - 1].key) >= keys.Length - 1 ==>
        keys[keys.Length - 1] == values[|values| - 1].key
      ensures fresh(keys) && fresh(payloads) && fresh(bitmap)
    {
      keys := new int[0];
      payloads := new int[0];
      bitmap := new Word[0];
      numKeys := |values|;
      model := predict;
      maxSlots := slots;
      numInserts := 0;
      expansionThreshold := 1.0;
      contractionThreshold := 0.0;
      new;
      Reload(values, 0.7);
      if |values| == 0 {
        expansionThreshold := keys.Length as real;
        contractionThreshold := 0.0;
      }
    }

    /** A node before anything is loaded into it. */
    constructor Unloaded(slots: nat)
      ensures maxSlots == slots && fresh(keys) && fresh(payloads) && fresh(bitmap)
    {
      keys := new int[0];
      payloads := new int[0];
      bitmap := new Word[0];
      numKeys := 0;
      model := k => 0;
      maxSlots := slots;
      numInserts := 0;
      expansionThreshold := 1.0;
      contractionThreshold := 0.0;
    }

    /**
     * Load the pairs in the slots from left up to right of another node: whatever the model predicts,
     * this node then stands for exactly these pairs. The number of keys is counted with an iterator
     * unless it was computed before, and then it has to be the true one. The iterator reads past the
     * bitmap exactly when it is needed and starts at the end of a bitmap without a partial word.
     */
    method BulkLoadFromExisting(source: AlexDataNode, left: nat, right: nat, precomputed: Option<nat>, predict: int -> int)
      returns (r: Checked<nat>)
      requires this != source && source.Layout() && SlotsOk(source.Slots()) && left <= right <= source.keys.Length == |source.Slots()|
      requires precomputed.Some? ==> precomputed.value == |Pairs(source.Slots()[left..right])|
      modifies this
      ensures r.PastBitmap? <==> precomputed.None? && left == source.keys.Length && source.keys.Length % 64 == 0
      ensures r.Ok? ==> Valid() && Contents() == Pairs(source.Slots()[left..right]) && r.value == numKeys
      ensures r.Ok? ==> fresh(keys) && fresh(payloads) && fresh(bitmap) && unchanged(this`maxSlots)
      ensures r.Ok? ==> PlacedByModel(Slots(), predict) && model == predict
      ensures r.Ok? ==> keys.Length == Capacity(numKeys, 0.6) && if numKeys == 0 then TunedEmpty() else Tuned(numKeys)
    {
      hide AlexDataNode.Slots, AlexDataNode.Layout, SlotsOk, Pairs;
      source.RangeLoadable(left, right);
      ghost var pairs := Pairs(source.Slots()[left..right]);
      var count;
      if precomputed.None? {
        var counted := source.CollectRange(left, right);
        if counted.PastBitmap? {
          return PastBitmap;
        }
        count := |counted.value|;
      } else {
        count := precomputed.value;
      }
      numKeys := count;
      model := predict;
      if count == 0 {
        ReloadNothing();
        return Ok(0);
      }
      var values := source.CollectRange(left, right);
      Reload(values.value, 0.6);
      return Ok(count);
    }

    /** A node without keys expands only when it is full and never contracts. */
    method ReloadNothing()
      requires numKeys == 0
      modifies this
      ensures Valid() && Contents() == [] && keys.Length == Capacity(0, 0.6) && TunedEmpty() && PlacedByModel(Slots(), model)
      ensures fresh(keys) && fresh(payloads) && fresh(bitmap)
      ensures unchanged(this`model, this`maxSlots, this`numInserts, this`numKeys)
    {
      Reload([], 0.6);
      expansionThreshold := keys.Length as real;
      contractionThreshold := 0.0;
    }

    lemma RangeLoadable(left: nat, right: nat)
      requires Layout() && SlotsOk(Slots()) && left <= right <= keys.Length == |Slots()|
      ensures Loadable(Pairs(Slots()[left..right]))
      ensures left == right ==> Pairs(Slots()[left..right]) == []
    {
      var s := Slots();
      CollectedLoadable();
      PairsThree(s, left, right);
      var a, b, c := Pairs(s[..left]), Pairs(s[left..right]), Pairs(s[right..]);
      assert Pairs(s) == a + b + c;
      assert forall i :: 0 <= i < |b| ==> b[i] == Pairs(s)[|a| + i];
    }

    /** More or fewer slots and another model; the same pairs in the same order. */
    method Resize(density: real, predict: int -> int)
      requires Layout() && SlotsOk(Slots()) && |Contents()| == numKeys && 0.0 < density
      requires numKeys == 0 ==> 1.0 <= expansionThreshold <= keys.Length as real
      modifies this
      ensures Valid() && Contents() == old(Contents())
      ensures unchanged(this`numKeys, this`maxSlots, this`numInserts)
      ensures numKeys > 0 ==> fresh(keys) && fresh(payloads) && fresh(bitmap)
      ensures numKeys > 0 ==> keys.Length == Capacity(numKeys, density) && Tuned(numKeys) && model == predict
      ensures numKeys > 0 ==> PlacedByModel(Slots(), predict)
      ensures numKeys == 0 ==> unchanged(this)
    {
      if numKeys == 0 {
        return;
      }
      hide AlexDataNode.Slots, AlexDataNode.Layout, AlexDataNode.Contents, SlotsOk;
      var values := Collect();
      CollectedLoadable();
      model := predict;
      Reload(values, density);
    }

    method Reload(values: seq<Pair>, density: real)
      requires Loadable(values) && |values| == numKeys && 0.0 < density
      modifies this
      ensures Valid() && Contents() == values && keys.Length == Capacity(numKeys, density) && Tuned(numKeys)
      ensures PlacedByModel(Slots(), model)
      ensures values != [] && model(values[|values| - 1].key) >= keys.Length - 1 ==>
        keys[keys.Length - 1] == values[|values| - 1].key
      ensures fresh(keys) && fresh(payloads) && fresh(bitmap)
      ensures unchanged(this`model, this`maxSlots, this`numInserts, this`numKeys)
    {
      hide AlexDataNode.Slots, AlexDataNode.Layout, SlotsOk, Loadable;
      Allocate(|values|, density);
      Fill(values);
      SetThresholds(|values|);
    }

    lemma CollectedLoadable()
      requires Layout() && SlotsOk(Slots())
      ensures InOrder(Contents()) && forall i :: 0 <= i < |Contents()| ==> Contents()[i].key < SENTINEL
    {
      var s := Slots();
      PairsInOrder(s);
      forall i | 0 <= i < |Contents()|
        ensures Contents()[i].key < SENTINEL
      {
        PairsFrom(s, Contents()[i]);
        var j :| 0 <= j < |s| && s[j].filled && s[j].key == Contents()[i].key && s[j].payload == Contents()[i].payload;
        assert SlotOk(s, j);
      }
    }

    /** Where a key goes: a gap with only gaps back to its upper bound, or the upper bound itself. */
    method FindInsertPosition(k: int) returns (pos: nat, u: nat)
      requires Layout() && SlotsOk(Slots())
      ensures UpperBound(Slots(), k, u) && u <= pos <= keys.Length
      ensures pos == u || (pos < keys.Length && forall m :: u <= m <= pos ==> !Slots()[m].filled)
      ensures forall q :: u <= q < keys.Length && (forall m :: u <= m <= q ==> !Slots()[m].filled) ==>
        Distance(pos, model(k)) <= Distance(q, model(k))
    {
      var predicted := PredictPosition(k);
      u := UpperBoundFrom(predicted, k);
      SlotsAre();
      assert u <= keys.Length;
      hide AlexDataNode.Slots, AlexDataNode.Layout, SlotsOk, UpperBound, Shape;
      if predicted <= u {
        return u, u;
      }
      var filled := CheckExists(u);
      if filled {
        return u, u;
      }
      var next := GetNextFilledPosition(bitmap[..], keys.Length, u, true);
      pos := if predicted < next.value - 1 then predicted else next.value - 1;
    }

    // ----- insert and erase -----

    /** A pair goes in after all pairs with keys up to its own, or nothing changes and the code says why. */
    method Insert(x: Pair, allowDuplicates: bool, costs: Costs, predict: int -> int) returns (code: int, pos: int)
      requires Valid() && x.key < SENTINEL
      modifies this, keys, payloads, bitmap
      ensures Valid()
      ensures var due := old(numInserts) % 64 == 0 && costs.catastrophic;
        var full := old(numKeys as real >= expansionThreshold);
        var tooLarge := old(numKeys as real > maxSlots as real * 0.6);
        && (due ==> code == 2)
        && (!due && full && costs.deviates ==> code == 1)
        && (!due && full && !costs.deviates && costs.catastrophic ==> code == 2)
        && (!due && full && !costs.deviates && !costs.catastrophic ==> (code == 3 <==> tooLarge))
        && (!due && (!full || (!costs.deviates && !costs.catastrophic && !tooLarge)) ==>
              code == if !allowDuplicates && HasKey(old(Contents()), x.key) then -1 else 0)
      ensures numInserts == old(numInserts) + (if code == 0 then 1 else 0) && unchanged(this`maxSlots)
      ensures if code <= 0 && old(numKeys as real >= expansionThreshold)
        then keys.Length == Capacity(old(numKeys), 0.6) && Tuned(old(numKeys)) && model == predict
        else unchanged(this`keys, this`expansionThreshold, this`contractionThreshold, this`model)
      ensures Contents() == if code == 0 then Added(old(Contents()), x) else old(Contents())
      ensures code == 0 ==> 0 <= pos < keys.Length && Slots()[pos] == Slot(x.key, x.payload, true)
      ensures code == -1 ==> 0 <= pos < keys.Length && Slots()[pos].filled && Slots()[pos].key == x.key
      ensures code > 0 ==> pos == -1
    {
      hide AlexDataNode.Layout, AlexDataNode.Slots, AlexDataNode.Contents, SlotsOk, Added, HasKey, PlacedByModel;
      if numInserts % 64 == 0 && costs.catastrophic {
        return 2, -1;
      }
      if numKeys as real >= expansionThreshold {
        if costs.deviates {
          return 1, -1;
        }
        if costs.catastrophic {
          return 2, -1;
        }
        if numKeys as real > maxSlots as real * 0.6 {
          return 3, -1;
        }
        Resize(0.6, predict);
      }
      code, pos := Place(x, allowDuplicates);
    }

    /** Find the place for a pair and put it there. */
    method Place(x: Pair, allowDuplicates: bool) returns (code: int, pos: int)
      requires Valid() && x.key < SENTINEL && numKeys < keys.Length
      modifies this`numKeys, this`numInserts, keys, payloads, bitmap
      ensures Valid() && numInserts == old(numInserts) + if code == 0 then 1 else 0
      ensures code == if !allowDuplicates && HasKey(old(Contents()), x.key) then -1 else 0
      ensures Contents() == if code == 0 then Added(old(Contents()), x) else old(Contents())
      ensures code == 0 ==> 0 <= pos < keys.Length && Slots()[pos] == Slot(x.key, x.payload, true)
      ensures code == -1 ==> 0 <= pos < keys.Length && Slots()[pos].filled && Slots()[pos].key == x.key
    {
      hide AlexDataNode.Slots, AlexDataNode.Layout, SlotsOk, UpperBound, Added, Pairs, Shape, HasKey;
      SlotsAre();
      var q, u := FindInsertPosition(x.key);
      KeyAt(Slots(), x.key, u);
      if !allowDuplicates && u > 0 && keys[u - 1] == x.key {
        return -1, u - 1;
      }
      var filled := true;
      if q < keys.Length {
        filled := CheckExists(q);
      }
      if !filled {
        PlaceInGap(Slots(), u, q, x);
        InsertElementAt(x, q);
        pos := q;
      } else {
        pos := InsertUsingShifts(x, u);
      }
      numKeys := numKeys + 1;
      numInserts := numInserts + 1;
      code := 0;
    }

    /** The key after a position, or the sentinel at the end. */
    method KeyAfter(u: nat) returns (k: int)
      requires Layout() && 0 < u <= keys.Length
      ensures k == NextKey(Slots(), u - 1)
    {
      k := if u < keys.Length then keys[u] else SENTINEL;
    }

    method ClearSlot(pos: nat, next: int)
      requires Layout() && pos < keys.Length
      modifies keys, bitmap
      ensures Layout() && Slots() == old(Slots())[pos := Slot(next, old(Slots())[pos].payload, false)]
    {
      SlotsAre();
      hide AlexDataNode.Slots, AlexDataNode.Layout, Shape, Exists;
      PutKey(pos, next);
      PutBit(pos, false);
    }

    /** Turn the slots below u into gaps as long as their keys are not below lo. */
    method ClearWhile(u: nat, lo: int) returns (erased: nat, ghost l: nat)
      requires Layout() && u <= keys.Length
      modifies keys, bitmap
      ensures Layout() && l <= u && Slots() == Cleared(old(Slots()), l, u)
      ensures erased == |Pairs(old(Slots())[l..u])|
      ensures forall i :: l <= i < u ==> lo <= old(Slots())[i].key
      ensures l > 0 ==> old(Slots())[l - 1].key < lo
    {
      hide AlexDataNode.Slots, AlexDataNode.Layout, Cleared, Pairs;
      ghost var s := Slots();
      erased, l := 0, u;
      LayoutHas();
      ClearedNothing(s, u);
      if u == 0 {
        return;
      }
      KeyIs(u - 1);
      var pos := u;
      var next := KeyAfter(u);
      while pos > 0 && keys[pos - 1] >= lo
        invariant 0 <= pos <= u && Layout()
        invariant Slots() == Cleared(s, pos, u) && erased == |Pairs(s[pos..u])|
        invariant pos > 0 ==> keys[pos - 1] == s[pos - 1].key
        invariant forall i :: pos <= i < u ==> lo <= s[i].key
      {
        pos := pos - 1;
        var n := ClearOne(s, pos, u, next);
        erased := erased + n;
      }
      l := pos;
    }

    method ClearOne(ghost s: seq<Slot>, pos: nat, u: nat, next: int) returns (n: nat)
      requires Layout() && pos < u <= keys.Length == |s| && Slots() == Cleared(s, pos + 1, u) && next == NextKey(s, u - 1)
      modifies keys, bitmap
      ensures Layout() && Slots() == Cleared(s, pos, u)
      ensures n + |Pairs(s[pos + 1..u])| == |Pairs(s[pos..u])|
      ensures pos > 0 ==> keys[pos - 1] == s[pos - 1].key
    {
      ClearedMore(s, pos, u);
      hide AlexDataNode.Slots, AlexDataNode.Layout, Shape, Exists, Cleared, Pairs;
      var filled := CheckExists(pos);
      n := if filled then 1 else 0;
      ClearSlot(pos, next);
      SlotsAre();
      if pos > 0 {
        ClearedMore(s, pos - 1, u);
      }
    }

    /** The contraction check that ends every erase. */
    method Contract(predict: int -> int)
      requires Valid()
      modifies this
      ensures Valid() && Contents() == old(Contents()) && unchanged(this`numKeys, this`numInserts, this`maxSlots)
      ensures if numKeys > 0 && numKeys as real < old(contractionThreshold)
        then keys.Length == Capacity(numKeys, 0.8) && Tuned(numKeys) && model == predict && fresh(keys) && fresh(payloads) && fresh(bitmap)
        else unchanged(this)
    {
      if numKeys as real < contractionThreshold {
        Resize(0.8, predict);
      }
    }

    /** All pairs with keys from start up to end, included or not, and no others. */
    method EraseRange(start: int, end: int, inclusive: bool, predict: int -> int) returns (erased: nat)
      requires Valid()
      modifies this, keys, bitmap
      ensures Valid()
      ensures Contents() == Removed(old(Contents()), start, if inclusive then end else end - 1)
      ensures erased == |old(Contents())| - |Contents()|
      ensures if old(keys[0]) <= (if inclusive then end else end - 1) && numKeys > 0 && numKeys as real < old(contractionThreshold)
        then keys.Length == Capacity(numKeys, 0.8) && Tuned(numKeys) && model == predict
        else unchanged(this`keys, this`expansionThreshold, this`contractionThreshold, this`model)
      ensures unchanged(this`numInserts, this`maxSlots)
    {
      var u;
      if inclusive {
        u := UpperBoundOf(end);
      } else {
        u := LowerBoundOf(end);
      }
      ghost var hi := if inclusive then end else end - 1;
      FirstKey(hi, u);
      if u == 0 {
        ErasedRange(Slots(), 0, 0, start, hi);
        ClearedNothing(Slots(), 0);
        return 0;
      }
      erased := EraseBelow(u, start, hi, predict);
    }

    /** All pairs with the key. */
    method Erase(k: int, predict: int -> int) returns (erased: nat)
      requires Valid()
      modifies this, keys, bitmap
      ensures Valid()
      ensures Contents() == Removed(old(Contents()), k, k)
      ensures erased == |old(Contents())| - |Contents()|
      ensures if k in old(keys[..]) && numKeys > 0 && numKeys as real < old(contractionThreshold)
        then keys.Length == Capacity(numKeys, 0.8) && Tuned(numKeys) && model == predict
        else unchanged(this`keys, this`expansionThreshold, this`contractionThreshold, this`model)
      ensures unchanged(this`numInserts, this`maxSlots)
    {
      var u := UpperBoundOf(k);
      LastOfKey(k, u);
      if u == 0 || keys[u - 1] != k {
        NothingToErase(Slots(), k, u);
        return 0;
      }
      erased := EraseBelow(u, k, k, predict);
    }

    lemma LastOfKey(k: int, u: nat)
      requires Layout() && SlotsOk(Slots()) && UpperBound(Slots(), k, u)
      ensures u <= keys.Length && (k in keys[..] <==> u > 0 && keys[u - 1] == k)
    {
      assert forall i :: 0 <= i < keys.Length ==> Slots()[i].key == keys[i];
    }

    lemma FirstKey(k: int, u: nat)
      requires Layout() && SlotsOk(Slots()) && UpperBound(Slots(), k, u)
      ensures u == 0 <==> k < keys[0]
    {
      assert Slots()[0].key == keys[0];
    }

    method EraseBelow(u: nat, lo: int, ghost hi: int, predict: int -> int) returns (erased: nat)
      requires Valid() && UpperBound(Slots(), hi, u)
      modifies this, keys, bitmap
      ensures Valid()
      ensures Contents() == Removed(old(Contents()), lo, hi)
      ensures erased == |old(Contents())| - |Contents()|
      ensures if numKeys > 0 && numKeys as real < old(contractionThreshold)
        then keys.Length == Capacity(numKeys, 0.8) && Tuned(numKeys) && model == predict
        else unchanged(this`keys, this`expansionThreshold, this`contractionThreshold, this`model)
      ensures unchanged(this`numInserts, this`maxSlots)
    {
      ghost var l;
      ghost var s := Slots();
      erased, l := ClearWhile(u, lo);
      ErasedRange(s, l, u, lo, hi);
      numKeys := numKeys - erased;
      Contract(predict);
    }

    /** The first pair with the key; or the search for it read past the bitmap. */
    method EraseOne(k: int, predict: int -> int) returns (r: Checked<nat>)
      requires Valid()
      modifies this, keys, bitmap
      ensures Valid()
      ensures r.PastBitmap? <==> old(keys[keys.Length - 1]) < k && old(keys.Length) % 64 == 0
      ensures r.PastBitmap? ==> Contents() == old(Contents())
      ensures r.Ok? ==> Contents() == RemovedFirst(old(Contents()), k)
      ensures r.Ok? ==> r.value == |old(Contents())| - |Contents()|
      ensures if r.Ok? && r.value > 0 && numKeys > 0 && numKeys as real < old(contractionThreshold)
        then keys.Length == Capacity(numKeys, 0.8) && Tuned(numKeys) && model == predict
        else unchanged(this`keys, this`expansionThreshold, this`contractionThreshold, this`model)
      ensures unchanged(this`numInserts, this`maxSlots)
    {
      var pos;
      ghost var l;
      pos, l := FindLower(k);
      if pos.PastBitmap? {
        return PastBitmap;
      }
      if pos.value == keys.Length || keys[pos.value] != k {
        FirstNotThere(Slots(), k, l, pos.value);
        return Ok(0);
      }
      EraseOneAt(pos.value, l, predict);
      return Ok(1);
    }

    method EraseOneAt(pos: nat, ghost l: nat, predict: int -> int)
      requires Valid() && l <= pos < keys.Length && Slots()[pos].filled && LowerBound(Slots(), Slots()[pos].key, l)
      requires forall q :: l <= q < pos ==> !Slots()[q].filled
      modifies this, keys, bitmap
      ensures Valid() && Contents() == RemovedFirst(old(Contents()), old(Slots()[pos].key))
      ensures |Contents()| == |old(Contents())| - 1
      ensures if numKeys > 0 && numKeys as real < old(contractionThreshold)
        then keys.Length == Capacity(numKeys, 0.8) && Tuned(numKeys) && model == predict
        else unchanged(this`keys, this`expansionThreshold, this`contractionThreshold, this`model)
      ensures unchanged(this`numInserts, this`maxSlots)
    {
      hide AlexDataNode.Slots, AlexDataNode.Layout, AlexDataNode.Contents, SlotsOk, LowerBound, RemovedFirst, Pairs;
      ClearFirst(pos, l);
      numKeys := numKeys - 1;
      Contract(predict);
    }

    method ClearFirst(pos: nat, ghost l: nat)
      requires Layout() && SlotsOk(Slots()) && l <= pos < keys.Length && Slots()[pos].filled
      requires LowerBound(Slots(), Slots()[pos].key, l) && forall q :: l <= q < pos ==> !Slots()[q].filled
      modifies keys, bitmap
      ensures Layout() && SlotsOk(Slots()) && Contents() == RemovedFirst(old(Contents()), old(Slots()[pos].key))
      ensures |Contents()| == |old(Contents())| - 1
    {
      hide AlexDataNode.Slots, AlexDataNode.Layout, SlotsOk, LowerBound, Spread, RemovedFirst, Pairs;
      LayoutHas();
      FirstCleared(Slots(), l, pos);
      var next := KeyAfter(pos + 1);
      ClearSlot(pos, next);
      SpreadBack(pos, next);
    }
  }

  lemma NothingToErase(s: seq<Slot>, k: int, u: nat)
    requires Sorted(s) && UpperBound(s, k, u) && (u == 0 || s[u - 1].key != k)
    ensures Removed(Pairs(s), k, k) == Pairs(s)
  {
    NotThere(s, k, u);
    forall i | 0 <= i < |Pairs(s)|
      ensures Pairs(s)[i].key != k
    {
      assert Pairs(s)[i] in Pairs(s);
    }
    RemovedNone(Pairs(s), k, k);
  }

  lemma FirstNotThere(s: seq<Slot>, k: int, l: nat, pos: nat)
    requires SlotsOk(s) && LowerBound(s, k, l) && l <= pos <= |s| && (forall q :: l <= q < pos ==> !s[q].filled)
    requires pos < |s| ==> s[pos].key != k
    ensures RemovedFirst(Pairs(s), k) == Pairs(s)
  {
    forall i | 0 <= i < |Pairs(s)|
      ensures Pairs(s)[i].key != k
    {
      PairsFrom(s, Pairs(s)[i]);
    }
    RemovedFirstNone(Pairs(s), k);
  }

  lemma ErasedRange(s: seq<Slot>, l: nat, u: nat, lo: int, hi: int)
    requires SlotsOk(s) && UpperBound(s, hi, u) && l <= u
    requires forall i :: l <= i < u ==> lo <= s[i].key
    requires l > 0 ==> s[l - 1].key < lo
    ensures SlotsOk(Cleared(s, l, u)) && Pairs(Cleared(s, l, u)) == Removed(Pairs(s), lo, hi)
    ensures |Pairs(s)| == |Pairs(Cleared(s, l, u))| + |Pairs(s[l..u])|
  {
    if l < u {
      assert lo <= s[l].key <= hi;
      ClearedRange(s, l, u, lo, hi);
    } else if lo <= hi {
      ClearedRange(s, l, u, lo, hi);
    } else {
      ClearedNothing(s, u);
      RemovedNone(Pairs(s), lo, hi);
    }
  }

  /** The slots after erase_one_at. */
  lemma FirstCleared(s: seq<Slot>, l: nat, pos: nat)
    requires SlotsOk(s) && l <= pos < |s| && s[pos].filled
    requires LowerBound(s, s[pos].key, l) && forall q :: l <= q < pos ==> !s[q].filled
    ensures var next := NextKey(s, pos);
      var t := Spread(s[pos := Slot(next, s[pos].payload, false)], pos, next);
      SlotsOk(t) && Pairs(t) == RemovedFirst(Pairs(s), s[pos].key) && |Pairs(t)| == |Pairs(s)| - 1
  {
    if l > 0 {
      assert SlotOk(s, l - 1);
    }
    ClearedBySpread(s, l, pos);
    hide Spread, Cleared, RemovedFirst, Pairs;
    ClearedFirst(s, l, pos, s[pos].key);
  }

  /** Clearing one slot and overwriting the gaps before it. */
  lemma ClearedBySpread(s: seq<Slot>, l: nat, pos: nat)
    requires l <= pos < |s| && (l > 0 ==> s[l - 1].filled) && forall q :: l <= q < pos ==> !s[q].filled
    ensures var next := NextKey(s, pos);
      Spread(s[pos := Slot(next, s[pos].payload, false)], pos, next) == Cleared(s, l, pos + 1)
  {
    var next := NextKey(s, pos);
    SpreadIs(s[pos := Slot(next, s[pos].payload, false)], pos, next, l);
  }

  lemma ClearedNothing(s: seq<Slot>, u: nat)
    requires u <= |s|
    ensures Cleared(s, u, u) == s && Pairs(s[u..u]) == []
  {
  }

  /** One more slot is cleared. */
  lemma ClearedMore(s: seq<Slot>, i: nat, u: nat)
    requires i < u <= |s|
    ensures Cleared(s, i + 1, u)[i] == s[i] && |Cleared(s, i + 1, u)| == |s|
    ensures Cleared(s, i, u) == Cleared(s, i + 1, u)[i := Slot(NextKey(s, u - 1), s[i].payload, false)]
    ensures |Pairs(s[i..u])| == |Pairs(s[i + 1..u])| + if s[i].filled then 1 else 0
  {
    assert s[i..u][1..] == s[i + 1..u];
  }

  /** What the cost model says at the time of the call. */
  datatype Costs = Costs(catastrophic: bool, deviates: bool)

  ghost predicate HasKey(c: seq<Pair>, k: int) {
    exists x :: x in c && x.key == k
  }

  /** A key is stored exactly when the slot below its upper bound has it, and that slot is then filled. */
  lemma KeyAt(s: seq<Slot>, k: int, u: nat)
    requires SlotsOk(s) && UpperBound(s, k, u) && k < SENTINEL
    ensures u <= |s| && (HasKey(Pairs(s), k) <==> u > 0 && s[u - 1].key == k)
    ensures u > 0 ==> s[u - 1].filled
  {
    if u > 0 && s[u - 1].key == k {
      BelowBoundFilled(s, k, u);
      PairsFrom(s, Pair(k, s[u - 1].payload));
      assert Pair(k, s[u - 1].payload) in Pairs(s);
    } else {
      NotThere(s, k, u);
    }
    if u > 0 {
      BelowBoundFilled(s, k, u);
    }
  }

  /** max(num_keys / density, num_keys + 1), with the quotient cut to an integer. */
  function Capacity(n: nat, density: real): (cap: nat)
    requires 0.0 < density
    ensures n < cap && n as real / density < (cap + 1) as real
    ensures cap == n + 1 || cap as real <= n as real / density
  {
    var cap := (n as real / density).Floor;
    if cap < n + 1 then n + 1 else cap
  }

  /** A pair is in its predicted slot, or right after the pair before it when that slot is further left. */
  ghost predicate ByModel(s: seq<Slot>, m: int -> int, q: nat)
    requires q < |s|
  {
    s[q].filled ==> q == m(s[q].key) || (m(s[q].key) < q && (q == 0 || s[q - 1].filled))
  }

  ghost predicate FullFrom(s: seq<Slot>, q: nat) {
    forall j :: q <= j < |s| ==> s[j].filled
  }

  ghost predicate Guided(s: seq<Slot>, m: int -> int, n: nat) {
    n <= |s| && forall q :: 0 <= q < n ==> ByModel(s, m, q)
  }

  /** Every pair is placed by the model, or there is no gap from it to the end. */
  ghost predicate PlacedByModel(s: seq<Slot>, m: int -> int) {
    forall q :: 0 <= q < |s| ==> ByModel(s, m, q) || FullFrom(s, q)
  }

  /** What putting one pair into a later slot leaves. */
  ghost predicate PutAfter(s: seq<Slot>, last: int, position: int, k: int, s': seq<Slot>) {
    && -1 <= last < position < |s| == |s'|
    && (forall j :: 0 <= j <= last ==> s'[j] == s[j])
    && (forall j :: last < j < position ==> !s'[j].filled)
    && s'[position].filled && s'[position].key == k
  }

  lemma GuidedMore(s: seq<Slot>, m: int -> int, last: int, position: int, k: int, s': seq<Slot>)
    requires -1 <= last && Guided(s, m, last + 1) && PutAfter(s, last, position, k, s') && (last >= 0 ==> s[last].filled)
    requires position == if m(k) < last + 1 then last + 1 else m(k)
    ensures Guided(s', m, position + 1)
  {
    forall q | 0 <= q < position + 1
      ensures ByModel(s', m, q)
    {
      if q <= last {
        assert ByModel(s, m, q);
      }
    }
  }

  /** The rest packed at the end after pairs placed by the model. */
  lemma GuidedThenFull(s: seq<Slot>, m: int -> int, end: int, first: nat, s': seq<Slot>)
    requires -1 <= end && Guided(s, m, end + 1) && PackedAfter(s, end, first, |s|, s')
    ensures PlacedByModel(s', m)
  {
    forall q | 0 <= q < |s'|
      ensures ByModel(s', m, q) || FullFrom(s', q)
    {
      if q <= end {
        assert ByModel(s, m, q);
      }
    }
  }

  /** Slots up to end as they were, gaps up to first, and filled slots from there up to position. */
  ghost predicate PackedAfter(s: seq<Slot>, end: int, first: nat, position: int, s': seq<Slot>) {
    && -1 <= end < first <= position <= |s| == |s'|
    && (forall j :: 0 <= j <= end ==> s'[j] == s[j])
    && (forall j :: end < j < first ==> !s'[j].filled)
    && (forall j :: first <= j < position ==> s'[j].filled)
  }

  lemma PackedNone(s: seq<Slot>, end: int, first: nat)
    requires -1 <= end < first <= |s| && forall j :: end < j < |s| ==> !s[j].filled
    ensures PackedAfter(s, end, first, first, s)
  {
  }

  lemma PackedMore(s: seq<Slot>, end: int, first: nat, last: int, position: int, k: int, s1: seq<Slot>, s2: seq<Slot>)
    requires PackedAfter(s, end, first, position, s1) && PutAfter(s1, last, position, k, s2)
    requires last == if position > first then position - 1 else end
    ensures PackedAfter(s, end, first, position + 1, s2)
  {
  }

  lemma GuidedThenGaps(s: seq<Slot>, m: int -> int, n: nat)
    requires Guided(s, m, n) && forall j :: n <= j < |s| ==> !s[j].filled
    ensures PlacedByModel(s, m)
  {
  }

  /** The sentinels after the last pair. */
  lemma TailFilled(s: seq<Slot>, values: seq<Pair>, last: int, m: int -> int, s': seq<Slot>)
    requires -1 <= last < |s| == |s'| && Loaded(s[..last + 1]) && Pairs(s[..last + 1]) == values && PlacedByModel(s, m)
    requires forall j :: last < j < |s| ==> !s[j].filled
    requires forall j :: 0 <= j < |s| ==> s'[j] == if last < j then s[j].(key := SENTINEL) else s[j]
    ensures SlotsOk(s') && Pairs(s') == values && PlacedByModel(s', m)
  {
    hide Pairs, SlotsOk, Loaded, PlacedByModel;
    StillPlaced(s, m, s');
    assert s' == s[..last + 1] + s'[last + 1..];
    LoadTail(s[..last + 1], s'[last + 1..]);
  }

  /** Only the keys of gaps change. */
  lemma StillPlaced(s: seq<Slot>, m: int -> int, s': seq<Slot>)
    requires PlacedByModel(s, m) && |s'| == |s|
    requires forall j :: 0 <= j < |s| ==> s'[j].filled == s[j].filled && (s[j].filled ==> s'[j] == s[j])
    ensures PlacedByModel(s', m)
  {
    forall q | 0 <= q < |s'|
      ensures ByModel(s', m, q) || FullFrom(s', q)
    {
      assert ByModel(s, m, q) || FullFrom(s, q);
    }
  }

  function Distance(p: int, q: int): nat {
    if p < q then q - p else p - q
  }

  function Ceiling(x: real): int {
    -((-x).Floor)
  }

  lemma BelowCeiling(n: int, x: real)
    ensures n as real < x <==> n < Ceiling(x)
  {
    var f := (-x).Floor;
    assert f as real <= -x < (f + 1) as real;
  }

  lemma NoneYet(s: seq<Slot>, left: nat)
    requires left <= |s|
    ensures Pairs(s[left..left]) == []
  {
  }

  lemma {:induction false} NoMorePairs(s: seq<Slot>, left: nat, start: nat, right: nat)
    requires left <= start <= right <= |s| && forall q :: start <= q < right ==> !s[q].filled
    ensures Pairs(s[left..right]) == Pairs(s[left..start])
  {
    assert s[left..right] == s[left..start] + s[start..right];
    PairsConcat(s[left..start], s[start..right]);
    NoPairs(s[start..right]);
  }

  lemma NothingLoaded(s: seq<Slot>)
    ensures Loaded(s[..0]) && Pairs(s[..0]) == []
  {
  }

  /** From one filled slot to the next the pairs grow by one. */
  lemma NextPair(s: seq<Slot>, left: nat, start: nat, idx: nat)
    requires left <= start <= idx < |s| && s[idx].filled && forall q :: start <= q < idx ==> !s[q].filled
    ensures Pairs(s[left..idx + 1]) == Pairs(s[left..start]) + [Pair(s[idx].key, s[idx].payload)]
  {
    hide Pairs;
    assert s[left..idx + 1] == s[left..start] + s[start..idx] + [s[idx]];
    PairsConcat(s[left..start] + s[start..idx], [s[idx]]);
    PairsConcat(s[left..start], s[start..idx]);
    NoPairs(s[start..idx]);
    OnePair(Pair(s[idx].key, s[idx].payload));
  }

  lemma LoadNextSlots(s: seq<Slot>, t: seq<Slot>, from: nat, position: nat, x: Pair)
    requires from <= position < |s| == |t| && t[position] == Slot(x.key, x.payload, true)
    requires forall j :: 0 <= j < from ==> t[j] == s[j]
    requires forall j :: from <= j < position ==> !t[j].filled && t[j].key == x.key
    requires Loaded(s[..from]) && x.key < SENTINEL && (from > 0 ==> s[from - 1].key <= x.key)
    ensures Loaded(t[..position + 1]) && Pairs(t[..position + 1]) == Pairs(s[..from]) + [x]
  {
    hide Loaded, Pairs;
    var gaps := t[from..position];
    assert t[..position + 1] == s[..from] + gaps + [Slot(x.key, x.payload, true)];
    LoadNext(s[..from], gaps, x);
  }

  lemma {:induction false} AllFilled(s: seq<Slot>)
    requires forall i :: 0 <= i < |s| ==> s[i].filled
    ensures |Pairs(s)| == |s|
  {
    if s != [] {
      AllFilled(s[1..]);
    }
  }

  lemma ShiftStart(s: seq<Slot>, gap: nat)
    requires gap < |s|
    ensures ShiftedRight(s, gap, gap) == s[gap := s[gap].(filled := true)]
    ensures ShiftedLeft(s, gap + 1, gap) == s[gap := s[gap].(filled := true)]
  {
  }

  lemma ShiftRightStep(s: seq<Slot>, i: nat, gap: nat)
    requires 0 < i <= gap < |s| && s[i - 1].filled && (i < gap ==> s[i].filled)
    ensures var t := ShiftedRight(s, i, gap);
      && |t| == |s|
      && t[i := t[i].(key := t[i - 1].key)][i := t[i].(key := t[i - 1].key, payload := t[i - 1].payload)] == ShiftedRight(s, i - 1, gap)
  {
  }

  lemma ShiftLeftStep(s: seq<Slot>, i: nat, gap: nat)
    requires gap <= i && i + 1 < |s| && s[i + 1].filled && (gap < i ==> s[i].filled)
    ensures var t := ShiftedLeft(s, i + 1, gap);
      && |t| == |s|
      && t[i := t[i].(key := t[i + 1].key)][i := t[i].(key := t[i + 1].key, payload := t[i + 1].payload)] == ShiftedLeft(s, i + 2, gap)
  {
  }

  lemma NotThere(s: seq<Slot>, k: int, u: nat)
    requires UpperBound(s, k, u) && Sorted(s) && (u == 0 || s[u - 1].key != k)
    ensures forall x :: x in Pairs(s) ==> x.key != k
  {
    forall x | x in Pairs(s)
      ensures x.key != k
    {
      PairsFrom(s, x);
    }
  }

  /** The number of keys of a range by the bitmap, when the old model is used again. */
  method CountedFirst(source: AlexDataNode, left: nat, right: nat, reuseModel: bool) returns (r: Checked<Option<nat>>)
    requires source.Layout() && left <= right <= source.keys.Length == |source.Slots()|
    ensures r.PastBitmap? <==> reuseModel && left == source.keys.Length && source.keys.Length % 64 == 0
    ensures r.Ok? ==> r.value == if reuseModel then Some(|Pairs(source.Slots()[left..right])|) else None
  {
    if !reuseModel {
      return Ok(None);
    }
    source.SlotsAre();
    hide AlexDataNode.Slots, AlexDataNode.Layout, Pairs, CountIn, Shape;
    var n := NumKeysInRange(source.bitmap[..], source.keys.Length, left, right);
    if n.PastBitmap? {
      return PastBitmap;
    }
    InWhichWord(source.bitmap[..], source.keys.Length, right);
    source.RangeCounted(left, right);
    return Ok(Some(n.value));
  }

  /** bulk_load_leaf_node_from_existing: a new node with the pairs of a range, counted first when the old model is used again. */
  method LeafFromExisting(source: AlexDataNode, left: nat, right: nat, reuseModel: bool, predict: int -> int, slots: nat)
    returns (r: Checked<AlexDataNode>)
    requires source.Layout() && SlotsOk(source.Slots()) && left <= right <= source.keys.Length
    ensures |source.Slots()| == source.keys.Length
    ensures r.PastBitmap? <==> left == source.keys.Length && source.keys.Length % 64 == 0
    ensures r.Ok? ==> r.value.Valid() && r.value.Contents() == Pairs(source.Slots()[left..right])
    ensures r.Ok? ==> r.value.model == predict && r.value.maxSlots == slots
    ensures r.Ok? ==> fresh(r.value.Repr())
  {
    source.SlotsAre();
    hide AlexDataNode.Slots, AlexDataNode.Layout, AlexDataNode.Valid, SlotsOk, Pairs, PlacedByModel, Capacity, CountIn, Shape;
    var precomputed := CountedFirst(source, left, right, reuseModel);
    if precomputed.PastBitmap? {
      return PastBitmap;
    }
    var node := new AlexDataNode.Unloaded(slots);
    var loaded := node.BulkLoadFromExisting(source, left, right, precomputed.value, predict);
    if loaded.PastBitmap? {
      return PastBitmap;
    }
    return Ok(node);
  }

  /**
   * The read past the bitmap happens to a freshly loaded node: 45 pairs get 64 slots, and when the
   * model sends the greatest key to the last slot or beyond, every lookup of a greater key makes it.
   */
  method LookupPastBitmap(values: seq<Pair>, predict: int -> int, k: int) returns (node: AlexDataNode, r: Checked<nat>)
    requires |values| == 45 && InOrder(values) && forall i :: 0 <= i < |values| ==> values[i].key < SENTINEL
    requires predict(values[44].key) >= 63 && values[44].key < k
    ensures node.Valid() && node.Contents() == values && node.keys.Length == 64 && node.keys[63] == values[44].key < k
    ensures r.PastBitmap?
  {
    node := new AlexDataNode.BulkLoad(values, predict, 1024);
    assert Capacity(45, 0.7) == 64;
    ghost var l;
    r, l := node.FindLower(k);
  }
}
