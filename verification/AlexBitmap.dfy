/**
 * The occupancy bitmap of a data node: one bit for each slot, 64 to a word. A word is given as the
 * set of its one bits; the bits past the last slot are zero.
 */
module AlexBitmap {

  type Word = w: set<nat> | forall b :: b in w ==> b < 64 witness {}

  /** (1 << n) - 1 */
  function Below(n: nat): (w: set<nat>)
    ensures forall b: nat :: b in w <==> b < n
    ensures |w| == n
  {
    if n == 0 then {} else Below(n - 1) + {n - 1}
  }

  predicate IsBit(b: nat) {
    b < 64
  }

  /** static_cast<uint64_t>(-1) */
  function AllOnes(): (w: Word)
    ensures forall b: nat :: b in w <==> b < 64
  {
    set b: nat | b < 64 && IsBit(b)
  }

  /** The complement of a word. */
  function Not(w: Word): (r: Word)
    ensures forall b: nat :: b in r <==> b < 64 && b !in w
  {
    AllOnes() - w
  }

  function OneFrom(w: Word, b: nat): (r: nat)
    requires b <= 64
    ensures b <= r <= 64 && (r < 64 ==> r in w)
    ensures forall c :: b <= c < r ==> c !in w
    decreases 64 - b
  {
    if b == 64 || b in w then b else OneFrom(w, b + 1)
  }

  /** _tzcnt_u64: the smallest one bit, or 64. */
  function TrailingZeros(w: Word): (r: nat)
    ensures r <= 64 && (r < 64 ==> r in w) && (r == 64 <==> w == {})
    ensures forall c :: c in w ==> r <= c
  {
    var r := OneFrom(w, 0);
    assert r == 64 ==> forall c :: c in w ==> c < 64;
    r
  }

  function OneBelow(w: Word, b: nat): (r: nat)
    requires b <= 64
    ensures r <= b && (r > 0 ==> r - 1 in w)
    ensures forall c :: r <= c < b ==> c !in w
  {
    if b == 0 || b - 1 in w then b else OneBelow(w, b - 1)
  }

  /** _lzcnt_u64: the distance of the largest one bit from the top, or 64. */
  function LeadingZeros(w: Word): (r: nat)
    ensures r <= 64 && (r < 64 ==> 63 - r in w) && (r == 64 <==> w == {})
    ensures forall c :: c in w ==> c <= 63 - r
  {
    64 - OneBelow(w, 64)
  }

  // ----- gaps -----

  /** No bit of the word is at or past the position. */
  predicate BitsBelow(w: Word, room: int) {
    forall b :: b in w ==> b < room
  }

  ghost predicate Shape(bitmap: seq<Word>, cap: nat) {
    && cap > 0
    && |bitmap| == (cap + 63) / 64
    && BitsBelow(bitmap[|bitmap| - 1], cap - 64 * (|bitmap| - 1))
  }

  predicate Exists(bitmap: seq<Word>, pos: nat)
    requires pos < 64 * |bitmap|
  {
    pos % 64 in bitmap[pos / 64]
  }

  ghost predicate Gap(bitmap: seq<Word>, cap: nat, pos: int)
    requires Shape(bitmap, cap)
  {
    0 <= pos < cap && !Exists(bitmap, pos)
  }

  function Abs(x: int): nat {
    if x < 0 then -x else x
  }

  /** r is a gap and none is closer to pos. */
  ghost predicate Nearest(bitmap: seq<Word>, cap: nat, pos: int, r: int)
    requires Shape(bitmap, cap)
  {
    && Gap(bitmap, cap, r)
    && forall q :: Gap(bitmap, cap, q) ==> Abs(r - pos) <= Abs(q - pos)
  }

  /** What the search promises for a position: the nearest gap, or -1 when there is none. */
  ghost predicate GapAnswer(bitmap: seq<Word>, cap: nat, pos: int, r: int)
    requires Shape(bitmap, cap)
  {
    if r == -1 then forall q :: !Gap(bitmap, cap, q) else Nearest(bitmap, cap, pos, r)
  }

  /** No slot of this word is a gap. */
  ghost predicate Packed(bitmap: seq<Word>, cap: nat, i: int)
    requires Shape(bitmap, cap)
  {
    0 <= i < |bitmap| ==> forall b: nat :: b < 64 && b < cap - 64 * i ==> b in bitmap[i]
  }

  lemma GapInWord(bitmap: seq<Word>, cap: nat, q: int)
    requires Shape(bitmap, cap) && Gap(bitmap, cap, q)
    ensures 0 <= q / 64 < |bitmap| && !Packed(bitmap, cap, q / 64)
  {
    assert 64 * (q / 64) + q % 64 == q;
  }

  /** A last word with as many ones as it has slots has no gap. */
  lemma PackedByCount(bitmap: seq<Word>, cap: nat)
    requires Shape(bitmap, cap)
    ensures var last := |bitmap| - 1; |bitmap[last]| == cap - 64 * last <==> Packed(bitmap, cap, last)
  {
    var last := |bitmap| - 1;
    var all := Below(cap - 64 * last);
    assert bitmap[last] <= all;
    if |bitmap[last]| == |all| {
      SubsetSameSize(bitmap[last], all);
    }
    if Packed(bitmap, cap, last) {
      assert bitmap[last] == all;
    }
  }

  lemma SubsetSameSize(a: set<nat>, b: set<nat>)
    requires a <= b && |a| == |b|
    ensures a == b
  {
    assert b == a + (b - a);
    assert |b| == |a| + |b - a|;
  }

  /** A word that is all ones is packed. */
  lemma FullIsPacked(bitmap: seq<Word>, cap: nat, i: nat)
    requires Shape(bitmap, cap) && i < |bitmap|
    ensures bitmap[i] == AllOnes() ==> Packed(bitmap, cap, i)
    ensures i < |bitmap| - 1 && Packed(bitmap, cap, i) ==> bitmap[i] == AllOnes()
  {
    if i < |bitmap| - 1 && Packed(bitmap, cap, i) {
      assert forall b: nat :: b in bitmap[i] <==> b in AllOnes();
    }
  }

  /** ((i + 1) << 6) - lzcnt(~w) - 1 */
  function LastZero(w: Word, i: nat): int {
    64 * (i + 1) - LeadingZeros(Not(w)) - 1
  }

  /** (i << 6) + tzcnt(~w) */
  function FirstZero(w: Word, i: nat): int {
    64 * i + TrailingZeros(Not(w))
  }

  lemma LastGapOf(bitmap: seq<Word>, cap: nat, i: nat)
    requires Shape(bitmap, cap) && i < |bitmap| - 1 && bitmap[i] != AllOnes()
    ensures var g := LastZero(bitmap[i], i);
      Gap(bitmap, cap, g) && g / 64 == i && forall q :: Gap(bitmap, cap, q) && q / 64 == i ==> q <= g
  {
    var w := bitmap[i];
    var g := LastZero(w, i);
    NotEmpty(w);
    assert g / 64 == i && g % 64 == g - 64 * i;
    forall q | Gap(bitmap, cap, q) && q / 64 == i
      ensures q <= g
    {
      assert q % 64 in Not(w);
    }
  }

  lemma NotEmpty(w: Word)
    ensures Not(w) == {} ==> w == AllOnes()
  {
    if Not(w) == {} {
      assert forall b: nat :: b in w <==> b in AllOnes();
    }
  }

  lemma FirstGapOf(bitmap: seq<Word>, cap: nat, i: nat)
    requires Shape(bitmap, cap) && i < |bitmap|
    ensures var g := FirstZero(bitmap[i], i);
      && 64 * i <= g
      && (g < 64 * (i + 1) && g < cap ==> Gap(bitmap, cap, g) && g / 64 == i)
      && forall q :: Gap(bitmap, cap, q) && q / 64 == i ==> g <= q
  {
    var w := bitmap[i];
    var g := FirstZero(w, i);
    if g < 64 * (i + 1) && g < cap {
      assert g / 64 == i && g % 64 == g - 64 * i;
    }
    forall q | Gap(bitmap, cap, q) && q / 64 == i
      ensures g <= q
    {
      assert q % 64 in Not(w);
    }
  }

  // ----- the search for the closest gap -----

  predicate IsFull(w: Word) {
    w == AllOnes()
  }

  /** All words from i up to j, both excluded, are packed. */
  ghost predicate PackedBetween(bitmap: seq<Word>, cap: nat, i: int, j: int)
    requires Shape(bitmap, cap)
  {
    forall m :: i < m < j ==> Packed(bitmap, cap, m)
  }

  lemma PackMore(bitmap: seq<Word>, cap: nat, i: int, j: int)
    requires Shape(bitmap, cap) && PackedBetween(bitmap, cap, i, j)
    ensures Packed(bitmap, cap, i) ==> PackedBetween(bitmap, cap, i - 1, j)
    ensures Packed(bitmap, cap, j) ==> PackedBetween(bitmap, cap, i, j + 1)
  {
    hide Packed, Shape;
  }

  /** No gap lies between g and pos, g and pos excluded. */
  ghost predicate LeftBound(bitmap: seq<Word>, cap: nat, pos: int, g: int)
    requires Shape(bitmap, cap)
  {
    forall q :: Gap(bitmap, cap, q) && q < pos ==> q <= g
  }

  /** No gap lies from pos up to g, g excluded. */
  ghost predicate RightBound(bitmap: seq<Word>, cap: nat, pos: int, g: int)
    requires Shape(bitmap, cap)
  {
    forall q :: Gap(bitmap, cap, q) && q >= pos ==> g <= q
  }

  lemma PickLeft(bitmap: seq<Word>, cap: nat, pos: int, lg: int, rg: int)
    requires Shape(bitmap, cap) && LeftBound(bitmap, cap, pos, lg) && RightBound(bitmap, cap, pos, rg)
    requires Gap(bitmap, cap, lg) && lg < pos && (pos - lg <= rg - pos || rg >= cap)
    ensures Nearest(bitmap, cap, pos, lg)
  {
    hide Shape;
  }

  lemma PickRight(bitmap: seq<Word>, cap: nat, pos: int, lg: int, rg: int)
    requires Shape(bitmap, cap) && LeftBound(bitmap, cap, pos, lg) && RightBound(bitmap, cap, pos, rg)
    requires Gap(bitmap, cap, rg) && pos <= rg && (rg - pos <= pos - lg || lg < 0)
    ensures Nearest(bitmap, cap, pos, rg)
  {
    hide Shape;
  }

  /** What the nearest word on the left that may have a gap says. */
  lemma BoundOnLeft(bitmap: seq<Word>, cap: nat, pos: nat, word: nat, i: int)
    requires Shape(bitmap, cap) && pos < cap && InWord(pos, word) && -1 <= i < word && PackedBetween(bitmap, cap, i, word + 1)
    ensures LeftBound(bitmap, cap, pos, 64 * i + 63)
    ensures 0 <= i && !IsFull(bitmap[i]) ==> var g := LastZero(bitmap[i], i);
      64 * i <= g <= 64 * i + 63 && Gap(bitmap, cap, g) && LeftBound(bitmap, cap, pos, g)
    ensures 0 <= i && IsFull(bitmap[i]) ==> Packed(bitmap, cap, i) && LeftBound(bitmap, cap, pos, 64 * i - 1)
  {
    if 0 <= i && !IsFull(bitmap[i]) {
      LastGapOf(bitmap, cap, i);
    }
    forall q | Gap(bitmap, cap, q) && q < pos
      ensures q / 64 <= i
      ensures 0 <= i && IsFull(bitmap[i]) ==> q / 64 < i
    {
      GapInWord(bitmap, cap, q);
      if 0 <= i && IsFull(bitmap[i]) {
        FullIsPacked(bitmap, cap, i);
      }
    }
  }

  lemma BoundOnRight(bitmap: seq<Word>, cap: nat, pos: nat, word: nat, j: int)
    requires Shape(bitmap, cap) && pos < cap && InWord(pos, word) && word < j <= |bitmap| && PackedBetween(bitmap, cap, word - 1, j)
    ensures RightBound(bitmap, cap, pos, 64 * j)
    ensures j == |bitmap| ==> RightBound(bitmap, cap, pos, cap)
    ensures j < |bitmap| ==> var g := FirstZero(bitmap[j], j);
      64 * j <= g <= 64 * j + 64 && RightBound(bitmap, cap, pos, g) && (g < cap && !IsFull(bitmap[j]) ==> Gap(bitmap, cap, g))
    ensures j < |bitmap| && IsFull(bitmap[j]) ==> FirstZero(bitmap[j], j) == 64 * j + 64
    ensures j < |bitmap| && (IsFull(bitmap[j]) || FirstZero(bitmap[j], j) >= cap) ==> Packed(bitmap, cap, j)
  {
    if j < |bitmap| {
      FirstGapOf(bitmap, cap, j);
      FullWord(bitmap[j]);
      FullIsPacked(bitmap, cap, j);
      if FirstZero(bitmap[j], j) >= cap {
        FirstBeyond(bitmap, cap, j);
      }
    }
    forall q | Gap(bitmap, cap, q) && q >= pos
      ensures q / 64 >= j
    {
      GapInWord(bitmap, cap, q);
    }
  }

  lemma FullWord(w: Word)
    ensures w == AllOnes() <==> Not(w) == {}
    ensures w == AllOnes() <==> TrailingZeros(Not(w)) == 64
  {
    if Not(w) == {} {
      assert forall b: nat :: b in w <==> b in AllOnes();
    }
  }

  lemma FirstBeyond(bitmap: seq<Word>, cap: nat, i: nat)
    requires Shape(bitmap, cap) && i < |bitmap| && FirstZero(bitmap[i], i) >= cap
    ensures Packed(bitmap, cap, i)
  {
    forall b: nat | b < 64 && b < cap - 64 * i
      ensures b in bitmap[i]
    {
      assert b in Not(bitmap[i]) <==> b !in bitmap[i];
    }
  }

  lemma NoneAtAll(bitmap: seq<Word>, cap: nat, pos: nat)
    requires Shape(bitmap, cap) && pos < cap && PackedBetween(bitmap, cap, -1, |bitmap|)
    ensures forall q :: !Gap(bitmap, cap, q)
  {
    forall q | Gap(bitmap, cap, q)
      ensures false
    {
      GapInWord(bitmap, cap, q);
    }
  }

  predicate InWord(pos: nat, word: nat) {
    64 * word <= pos < 64 * word + 64
  }

  lemma WordOf(bitmap: seq<Word>, cap: nat, pos: nat, word: nat)
    requires Shape(bitmap, cap) && pos < cap && InWord(pos, word)
    ensures word < |bitmap| && (cap - 1) / 64 == |bitmap| - 1
  {
  }

  /** Both blocks at distance d have a zero. */
  method CompareBoth(bitmap: seq<Word>, cap: nat, pos: nat, word: nat, d: nat) returns (r: int)
    requires Shape(bitmap, cap) && pos < cap && InWord(pos, word) && 1 <= d <= word && word + d < |bitmap|
    requires PackedBetween(bitmap, cap, word - d, word + d)
    requires !IsFull(bitmap[word - d]) && !IsFull(bitmap[word + d])
    ensures Nearest(bitmap, cap, pos, r)
  {
    hide Packed, Gap, Nearest, Shape, LeftBound, RightBound, PackedBetween, LastZero, FirstZero, IsFull;
    Narrow(bitmap, cap, word - d, word + d, word);
    BoundOnLeft(bitmap, cap, pos, word, word - d);
    BoundOnRight(bitmap, cap, pos, word, word + d);
    var lg := LastZero(bitmap[word - d], word - d);
    var rg := FirstZero(bitmap[word + d], word + d);
    if pos - lg <= rg - pos || rg >= cap {
      PickLeft(bitmap, cap, pos, lg, rg);
      return lg;
    } else {
      PickRight(bitmap, cap, pos, lg, rg);
      return rg;
    }
  }

  /** Only the left block at distance d has a zero: the next block to the right may still have a closer one. */
  method CompareLeft(bitmap: seq<Word>, cap: nat, pos: nat, word: nat, d: nat) returns (r: int)
    requires Shape(bitmap, cap) && pos < cap && InWord(pos, word) && 1 <= d <= word && word + d < |bitmap|
    requires PackedBetween(bitmap, cap, word - d, word + d)
    requires !IsFull(bitmap[word - d]) && IsFull(bitmap[word + d])
    ensures Nearest(bitmap, cap, pos, r)
  {
    var bit := pos - 64 * word;
    hide Packed, Gap, Nearest, Shape, LeftBound, RightBound, PackedBetween, LastZero, FirstZero, IsFull;
    Narrow(bitmap, cap, word - d, word + d, word);
    BoundOnLeft(bitmap, cap, pos, word, word - d);
    BoundOnRight(bitmap, cap, pos, word, word + d);
    PackMore(bitmap, cap, word - 1, word + d);
    BoundOnRight(bitmap, cap, pos, word, word + d + 1);
    var lg := LastZero(bitmap[word - d], word - d);
    if bit > 32 && word + d + 1 < |bitmap| && !IsFull(bitmap[word + d + 1]) {
      var rg := FirstZero(bitmap[word + d + 1], word + d + 1);
      if pos - lg <= rg - pos || rg >= cap {
        PickLeft(bitmap, cap, pos, lg, rg);
        return lg;
      } else {
        PickRight(bitmap, cap, pos, lg, rg);
        return rg;
      }
    } else {
      PickLeft(bitmap, cap, pos, lg,
        if bit <= 32 then 64 * (word + d + 1)
        else if word + d + 1 == |bitmap| then cap
        else FirstZero(bitmap[word + d + 1], word + d + 1));
      return lg;
    }
  }

  /** Only the right block at distance d has a gap: the next block to the left may still have a closer one. */
  method CompareRight(bitmap: seq<Word>, cap: nat, pos: nat, word: nat, d: nat) returns (r: int)
    requires Shape(bitmap, cap) && pos < cap && InWord(pos, word) && 1 <= d <= word && word + d < |bitmap|
    requires PackedBetween(bitmap, cap, word - d, word + d)
    requires IsFull(bitmap[word - d]) && !IsFull(bitmap[word + d])
    requires FirstZero(bitmap[word + d], word + d) < cap
    ensures Nearest(bitmap, cap, pos, r)
  {
    var bit := pos - 64 * word;
    hide Packed, Gap, Nearest, Shape, LeftBound, RightBound, PackedBetween, LastZero, FirstZero, IsFull;
    Narrow(bitmap, cap, word - d, word + d, word);
    BoundOnLeft(bitmap, cap, pos, word, word - d);
    BoundOnRight(bitmap, cap, pos, word, word + d);
    PackMore(bitmap, cap, word - d, word + 1);
    BoundOnLeft(bitmap, cap, pos, word, word - d - 1);
    var rg := FirstZero(bitmap[word + d], word + d);
    if bit < 32 && word - d > 0 && !IsFull(bitmap[word - d - 1]) {
      var lg := LastZero(bitmap[word - d - 1], word - d - 1);
      if pos - lg <= rg - pos || rg >= cap {
        PickLeft(bitmap, cap, pos, lg, rg);
        return lg;
      } else {
        PickRight(bitmap, cap, pos, lg, rg);
        return rg;
      }
    } else {
      PickRight(bitmap, cap, pos, if bit >= 32 || word == d then 64 * (word - d) - 1 else 64 * (word - d - 1) - 1, rg);
      return rg;
    }
  }

  /** Nothing is left on the right: the first block to the left with a zero. */
  method ScanLeft(bitmap: seq<Word>, cap: nat, pos: nat, word: nat, start: int) returns (r: int)
    requires Shape(bitmap, cap) && pos < cap && InWord(pos, word) && -1 <= start < word && PackedBetween(bitmap, cap, start, |bitmap|)
    ensures GapAnswer(bitmap, cap, pos, r)
  {
    WordOf(bitmap, cap, pos, word);
    hide Packed, Gap, Nearest, Shape, LeftBound, RightBound, PackedBetween, LastZero, FirstZero, IsFull;
    Narrow(bitmap, cap, start, |bitmap|, word);
    BoundOnRight(bitmap, cap, pos, word, |bitmap|);
    var i := start;
    while i >= 0
      invariant -1 <= i < word
      invariant PackedBetween(bitmap, cap, i, |bitmap|)
    {
      Narrow(bitmap, cap, i, |bitmap|, word);
      BoundOnLeft(bitmap, cap, pos, word, i);
      if !IsFull(bitmap[i]) {
        PickLeft(bitmap, cap, pos, LastZero(bitmap[i], i), cap);
        return LastZero(bitmap[i], i);
      }
      PackMore(bitmap, cap, i, |bitmap|);
      i := i - 1;
    }
    NoneAtAll(bitmap, cap, pos);
    return -1;
  }

  /** Nothing is left on the left: the first block to the right with a zero, unless that is past the last slot. */
  method ScanRight(bitmap: seq<Word>, cap: nat, pos: nat, word: nat, start: nat) returns (r: int)
    requires Shape(bitmap, cap) && pos < cap && InWord(pos, word) && word < start <= |bitmap| && PackedBetween(bitmap, cap, -1, start)
    ensures GapAnswer(bitmap, cap, pos, r)
  {
    WordOf(bitmap, cap, pos, word);
    hide Packed, Gap, Nearest, Shape, LeftBound, RightBound, PackedBetween, LastZero, FirstZero, IsFull;
    Narrow(bitmap, cap, -1, start, word);
    BoundOnLeft(bitmap, cap, pos, word, -1);
    var i := start;
    while i <= (cap - 1) / 64
      invariant word < i <= |bitmap|
      invariant PackedBetween(bitmap, cap, -1, i)
    {
      Narrow(bitmap, cap, -1, i, word);
      BoundOnRight(bitmap, cap, pos, word, i);
      PackMore(bitmap, cap, -1, i);
      if !IsFull(bitmap[i]) {
        var rg := FirstZero(bitmap[i], i);
        if rg >= cap {
          LastWord(bitmap, cap, i);
          NoneAtAll(bitmap, cap, pos);
          return -1;
        } else {
          PickRight(bitmap, cap, pos, -1, rg);
          return rg;
        }
      }
      i := i + 1;
    }
    NoneAtAll(bitmap, cap, pos);
    return -1;
  }

  lemma NextDistance(bitmap: seq<Word>, cap: nat, pos: nat, word: nat, d: nat)
    requires Shape(bitmap, cap) && pos < cap && InWord(pos, word) && 1 <= d <= word && word + d < |bitmap|
    requires PackedBetween(bitmap, cap, word - d, word + d)
    requires IsFull(bitmap[word - d]) && (IsFull(bitmap[word + d]) || FirstZero(bitmap[word + d], word + d) >= cap)
    ensures PackedBetween(bitmap, cap, word - d - 1, word + d + 1)
  {
    hide Packed, Gap, Shape, LeftBound, RightBound, PackedBetween, LastZero, FirstZero, IsFull;
    Narrow(bitmap, cap, word - d, word + d, word);
    BoundOnLeft(bitmap, cap, pos, word, word - d);
    BoundOnRight(bitmap, cap, pos, word, word + d);
    PackMore(bitmap, cap, word - d, word + d);
    PackMore(bitmap, cap, word - d - 1, word + d);
  }

  /** The block of 64 slots around pos has no gap: search the blocks next to it, nearest first. */
  method GapInOtherBlocks(bitmap: seq<Word>, cap: nat, pos: nat, word: nat) returns (r: int)
    requires Shape(bitmap, cap) && pos < cap && InWord(pos, word) && Packed(bitmap, cap, word)
    ensures GapAnswer(bitmap, cap, pos, r)
  {
    WordOf(bitmap, cap, pos, word);
    hide Packed, Gap, Nearest, Shape, LeftBound, RightBound, PackedBetween, LastZero, FirstZero, IsFull;
    var maxLeft := word;
    var maxRight := (cap - 1) / 64 - word;
    var both := if maxLeft < maxRight then maxLeft else maxRight;
    var d := 1;
    JustOne(bitmap, cap, word);
    while d <= both
      invariant 1 <= d <= both + 1
      invariant PackedBetween(bitmap, cap, word - d, word + d)
    {
      var left, right := bitmap[word - d], bitmap[word + d];
      if !IsFull(left) && !IsFull(right) {
        r := CompareBoth(bitmap, cap, pos, word, d);
        return;
      } else if !IsFull(left) {
        r := CompareLeft(bitmap, cap, pos, word, d);
        return;
      } else if !IsFull(right) && FirstZero(right, word + d) < cap {
        r := CompareRight(bitmap, cap, pos, word, d);
        return;
      }
      NextDistance(bitmap, cap, pos, word, d);
      d := d + 1;
    }
    if maxLeft > maxRight {
      r := ScanLeft(bitmap, cap, pos, word, word - d);
    } else {
      r := ScanRight(bitmap, cap, pos, word, word + d);
    }
  }

  lemma JustOne(bitmap: seq<Word>, cap: nat, i: int)
    requires Shape(bitmap, cap) && Packed(bitmap, cap, i)
    ensures PackedBetween(bitmap, cap, i - 1, i + 1)
  {
  }

  lemma Narrow(bitmap: seq<Word>, cap: nat, i: int, j: int, word: int)
    requires Shape(bitmap, cap) && PackedBetween(bitmap, cap, i, j) && i < word < j
    ensures PackedBetween(bitmap, cap, i, word + 1) && PackedBetween(bitmap, cap, word - 1, j)
  {
    hide Packed, Shape;
  }

  lemma LastWord(bitmap: seq<Word>, cap: nat, i: nat)
    requires Shape(bitmap, cap) && i < |bitmap| && !IsFull(bitmap[i]) && FirstZero(bitmap[i], i) >= cap
    ensures i == |bitmap| - 1
  {
    FullWord(bitmap[i]);
  }

  /** Distance to the first zero at or after the position, in its own block or the next. */
  function RightDistance(bitmap: seq<Word>, pos: nat, word: nat): int
    requires InWord(pos, word) && word < |bitmap|
  {
    var bit := pos - 64 * word;
    var gaps := Not(bitmap[word] + Below(bit));
    if gaps != {} then TrailingZeros(gaps) - bit
    else if word + 1 < |bitmap| then 64 + TrailingZeros(Not(bitmap[word + 1])) - bit
    else 64
  }

  /** Distance to the last zero before the position, in its own block or the one before. */
  function LeftDistance(bitmap: seq<Word>, pos: nat, word: nat): int
    requires InWord(pos, word) && word < |bitmap|
  {
    var bit := pos - 64 * word;
    var gaps := Not(bitmap[word]) * Below(bit);
    if gaps != {} then bit - (63 - LeadingZeros(gaps))
    else if word > 0 then bit + LeadingZeros(Not(bitmap[word - 1])) + 1
    else 64
  }

  /** Being a gap, in terms of a word and a bit. */
  lemma GapAt(bitmap: seq<Word>, cap: nat, q: nat, word: nat)
    requires Shape(bitmap, cap) && InWord(q, word)
    ensures Gap(bitmap, cap, q) ==> word < |bitmap| && q - 64 * word !in bitmap[word]
    ensures q < cap && word < |bitmap| && q - 64 * word !in bitmap[word] ==> Gap(bitmap, cap, q)
  {
    assert q / 64 == word && q % 64 == q - 64 * word;
  }

  lemma RightSideGap(bitmap: seq<Word>, cap: nat, pos: nat, word: nat)
    requires Shape(bitmap, cap) && pos < cap && InWord(pos, word) && word < |bitmap|
    ensures var d := RightDistance(bitmap, pos, word); d >= 0 && (d < 64 && pos + d < cap ==> Gap(bitmap, cap, pos + d))
  {
    hide Gap, Shape;
    var d := RightDistance(bitmap, pos, word);
    if d < 64 && pos + d < cap {
      GapAt(bitmap, cap, pos + d, if InWord(pos + d, word) then word else word + 1);
    }
  }

  lemma RightInBlock(bitmap: seq<Word>, cap: nat, pos: nat, word: nat, q: nat)
    requires Shape(bitmap, cap) && InWord(pos, word) && word < |bitmap|
    requires Gap(bitmap, cap, q) && pos <= q && InWord(q, word)
    ensures pos + RightDistance(bitmap, pos, word) <= q
  {
    GapAt(bitmap, cap, q, word);
    hide Gap, Shape;
    assert q - 64 * word in Not(bitmap[word] + Below(pos - 64 * word));
  }

  lemma RightInNext(bitmap: seq<Word>, cap: nat, pos: nat, word: nat, q: nat)
    requires Shape(bitmap, cap) && InWord(pos, word) && word < |bitmap|
    requires Gap(bitmap, cap, q) && InWord(q, word + 1)
    ensures pos + RightDistance(bitmap, pos, word) <= q
  {
    GapAt(bitmap, cap, q, word + 1);
    hide Gap, Shape;
    assert q - 64 * (word + 1) in Not(bitmap[word + 1]);
  }

  lemma RightAtMost(bitmap: seq<Word>, pos: nat, word: nat)
    requires InWord(pos, word) && word < |bitmap|
    ensures pos + RightDistance(bitmap, pos, word) <= 64 * word + 128
    ensures word + 1 < |bitmap| || pos + RightDistance(bitmap, pos, word) <= 64 * word + 127
  {
  }

  lemma RightSideBound(bitmap: seq<Word>, cap: nat, pos: nat, word: nat, q: nat)
    requires Shape(bitmap, cap) && pos < cap && InWord(pos, word) && word < |bitmap|
    requires Gap(bitmap, cap, q) && pos <= q
    ensures pos + RightDistance(bitmap, pos, word) <= q
  {
    hide RightDistance, Gap, Shape;
    if InWord(q, word) {
      RightInBlock(bitmap, cap, pos, word, q);
    } else if InWord(q, word + 1) {
      RightInNext(bitmap, cap, pos, word, q);
    } else {
      RightAtMost(bitmap, pos, word);
    }
  }

  lemma LeftSideGap(bitmap: seq<Word>, cap: nat, pos: nat, word: nat)
    requires Shape(bitmap, cap) && pos < cap && InWord(pos, word) && word < |bitmap|
    ensures var d := LeftDistance(bitmap, pos, word); d > 0 && (d < 64 ==> Gap(bitmap, cap, pos - d))
  {
    hide Gap, Shape;
    var d := LeftDistance(bitmap, pos, word);
    if d < 64 {
      GapAt(bitmap, cap, pos - d, if InWord(pos - d, word) then word else word - 1);
    }
  }

  lemma LeftInBlock(bitmap: seq<Word>, cap: nat, pos: nat, word: nat, q: nat)
    requires Shape(bitmap, cap) && InWord(pos, word) && word < |bitmap|
    requires Gap(bitmap, cap, q) && q < pos && InWord(q, word)
    ensures q <= pos - LeftDistance(bitmap, pos, word)
  {
    GapAt(bitmap, cap, q, word);
    hide Gap, Shape;
    assert q - 64 * word in Not(bitmap[word]) * Below(pos - 64 * word);
  }

  lemma LeftInPrevious(bitmap: seq<Word>, cap: nat, pos: nat, word: nat, q: nat)
    requires Shape(bitmap, cap) && InWord(pos, word) && 0 < word < |bitmap|
    requires Gap(bitmap, cap, q) && InWord(q, word - 1)
    ensures q <= pos - LeftDistance(bitmap, pos, word)
  {
    GapAt(bitmap, cap, q, word - 1);
    hide Gap, Shape;
    assert q - 64 * (word - 1) in Not(bitmap[word - 1]);
  }

  lemma LeftAtMost(bitmap: seq<Word>, pos: nat, word: nat)
    requires InWord(pos, word) && 0 < word < |bitmap|
    ensures pos - LeftDistance(bitmap, pos, word) >= 64 * (word - 1) - 1
  {
  }

  lemma LeftSideBound(bitmap: seq<Word>, cap: nat, pos: nat, word: nat, q: nat)
    requires Shape(bitmap, cap) && pos < cap && InWord(pos, word) && word < |bitmap|
    requires Gap(bitmap, cap, q) && q < pos
    ensures q <= pos - LeftDistance(bitmap, pos, word)
  {
    hide LeftDistance, Gap, Shape;
    if InWord(q, word) {
      LeftInBlock(bitmap, cap, pos, word, q);
    } else if InWord(q, word - 1) {
      LeftInPrevious(bitmap, cap, pos, word, q);
    } else {
      LeftAtMost(bitmap, pos, word);
    }
  }

  lemma Sides(bitmap: seq<Word>, cap: nat, pos: nat, word: nat)
    requires Shape(bitmap, cap) && pos < cap && InWord(pos, word) && word < |bitmap|
    ensures LeftBound(bitmap, cap, pos, pos - LeftDistance(bitmap, pos, word))
    ensures RightBound(bitmap, cap, pos, pos + RightDistance(bitmap, pos, word))
  {
    hide RightDistance, LeftDistance, Gap, Shape;
    forall q: int | Gap(bitmap, cap, q) && q >= pos
      ensures pos + RightDistance(bitmap, pos, word) <= q
    {
      RightSideBound(bitmap, cap, pos, word, q);
    }
    forall q: int | Gap(bitmap, cap, q) && q < pos
      ensures q <= pos - LeftDistance(bitmap, pos, word)
    {
      GapNonNegative(bitmap, cap, q);
      LeftSideBound(bitmap, cap, pos, word, q);
    }
  }

  lemma OneIsClose(bitmap: seq<Word>, cap: nat, pos: nat, word: nat)
    requires Shape(bitmap, cap) && pos < cap && InWord(pos, word) && word < |bitmap| && !Packed(bitmap, cap, word)
    requires LeftBound(bitmap, cap, pos, pos - LeftDistance(bitmap, pos, word))
    requires RightBound(bitmap, cap, pos, pos + RightDistance(bitmap, pos, word))
    ensures LeftDistance(bitmap, pos, word) < 64
      || (RightDistance(bitmap, pos, word) < 64 && pos + RightDistance(bitmap, pos, word) < cap)
  {
    hide RightDistance, LeftDistance;
    GapOfWord(bitmap, cap, word);
    hide Gap, Shape, Packed;
  }

  lemma GapOfWord(bitmap: seq<Word>, cap: nat, word: nat)
    requires Shape(bitmap, cap) && word < |bitmap| && !Packed(bitmap, cap, word)
    ensures exists q: nat :: InWord(q, word) && Gap(bitmap, cap, q)
  {
    var b: nat :| b < 64 && b < cap - 64 * word && b !in bitmap[word];
    GapAt(bitmap, cap, 64 * word + b, word);
    assert InWord(64 * word + b, word) && Gap(bitmap, cap, 64 * word + b);
  }

  /** The block around pos has a gap: the nearest is there or just across its border. */
  method GapInBlock(bitmap: seq<Word>, cap: nat, pos: nat, word: nat) returns (r: int)
    requires Shape(bitmap, cap) && pos < cap && InWord(pos, word) && word < |bitmap| && !Packed(bitmap, cap, word)
    ensures Nearest(bitmap, cap, pos, r)
  {
    hide RightDistance, LeftDistance, Nearest, Gap, Shape, Packed, LeftBound, RightBound;
    var right := RightDistance(bitmap, pos, word);
    var left := LeftDistance(bitmap, pos, word);
    RightSideGap(bitmap, cap, pos, word);
    LeftSideGap(bitmap, cap, pos, word);
    Sides(bitmap, cap, pos, word);
    OneIsClose(bitmap, cap, pos, word);
    if right < left && pos + right < cap {
      PickRight(bitmap, cap, pos, pos - left, pos + right);
      return pos + right;
    } else {
      PickLeft(bitmap, cap, pos, pos - left, pos + right);
      return pos - left;
    }
  }

  lemma GapNonNegative(bitmap: seq<Word>, cap: nat, q: int)
    requires Shape(bitmap, cap) && Gap(bitmap, cap, q)
    ensures q >= 0
  {
  }

  /** The gap nearest to min(pos, cap - 1) for every bitmap, also with a partial last word; -1 exactly when there is no gap. */
  method ClosestGap(bitmap: seq<Word>, cap: nat, from: nat) returns (r: int)
    requires Shape(bitmap, cap)
    ensures GapAnswer(bitmap, cap, if from < cap then from else cap - 1, r)
  {
    var pos := if from < cap then from else cap - 1;
    var word := pos / 64;
    hide Shape, Packed, Nearest, IsFull, Below;
    WordOf(bitmap, cap, pos, word);
    BlockPacked(bitmap, cap, word);
    if IsFull(bitmap[word]) || (word == |bitmap| - 1 && |bitmap[word]| == cap - 64 * (|bitmap| - 1)) {
      hide GapAnswer;
      r := GapInOtherBlocks(bitmap, cap, pos, word);
    } else {
      r := GapInBlock(bitmap, cap, pos, word);
      NearestIsGap(bitmap, cap, pos, r);
    }
  }

  /** The test for a block without a gap. */
  lemma BlockPacked(bitmap: seq<Word>, cap: nat, word: nat)
    requires Shape(bitmap, cap) && word < |bitmap|
    ensures IsFull(bitmap[word]) || (word == |bitmap| - 1 && |bitmap[word]| == cap - 64 * (|bitmap| - 1))
      <==> Packed(bitmap, cap, word)
  {
    hide Shape, Packed, IsFull;
    FullOrNot(bitmap, cap, word);
    PackedByCount(bitmap, cap);
  }

  lemma FullOrNot(bitmap: seq<Word>, cap: nat, i: nat)
    requires Shape(bitmap, cap) && i < |bitmap|
    ensures IsFull(bitmap[i]) ==> Packed(bitmap, cap, i)
    ensures i < |bitmap| - 1 && Packed(bitmap, cap, i) ==> IsFull(bitmap[i])
  {
    FullIsPacked(bitmap, cap, i);
  }

  lemma NearestIsGap(bitmap: seq<Word>, cap: nat, pos: int, r: int)
    requires Shape(bitmap, cap) && Nearest(bitmap, cap, pos, r)
    ensures r >= 0
  {
  }
}
