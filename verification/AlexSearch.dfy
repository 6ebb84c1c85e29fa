/** Exponential search around a predicted slot, and the walk along the bitmap to the next filled slot. */
module AlexSearch {
  import opened Sequences
  import opened AlexBitmap

  /** The first position whose key is greater. */
  ghost predicate IsUpper(a: seq<int>, k: int, r: int) {
    && 0 <= r <= |a|
    && (forall i :: 0 <= i < r ==> a[i] <= k)
    && (forall i :: r <= i < |a| ==> k < a[i])
  }

  /** The first position whose key is not less. */
  ghost predicate IsLower(a: seq<int>, k: int, r: int) {
    && 0 <= r <= |a|
    && (forall i :: 0 <= i < r ==> a[i] < k)
    && (forall i :: r <= i < |a| ==> k <= a[i])
  }

  method BinarySearchUpperBound(a: array<int>, left: nat, right: nat, k: int) returns (r: nat)
    requires Ascending(a[..]) && left <= right <= a.Length
    requires left > 0 ==> a[left - 1] <= k
    requires right < a.Length ==> k < a[right]
    ensures IsUpper(a[..], k, r)
  {
    var l, h := left, right;
    while l < h
      invariant left <= l <= h <= right
      invariant l > 0 ==> a[l - 1] <= k
      invariant h < a.Length ==> k < a[h]
    {
      var mid := l + (h - l) / 2;
      if a[mid] <= k {
        l := mid + 1;
      } else {
        h := mid;
      }
    }
    return l;
  }

  method BinarySearchLowerBound(a: array<int>, left: nat, right: nat, k: int) returns (r: nat)
    requires Ascending(a[..]) && left <= right <= a.Length
    requires left > 0 ==> a[left - 1] < k
    requires right < a.Length ==> k <= a[right]
    ensures IsLower(a[..], k, r)
  {
    var l, h := left, right;
    while l < h
      invariant left <= l <= h <= right
      invariant l > 0 ==> a[l - 1] < k
      invariant h < a.Length ==> k <= a[h]
    {
      var mid := l + (h - l) / 2;
      if a[mid] >= k {
        h := mid;
      } else {
        l := mid + 1;
      }
    }
    return l;
  }

  /** From any start slot the doubling steps bracket the true bound. */
  method ExponentialSearchUpperBound(a: array<int>, m: nat, k: int) returns (r: nat)
    requires Ascending(a[..]) && m < a.Length
    ensures IsUpper(a[..], k, r)
  {
    var bound := 1;
    var l, h;
    if a[m] > k {
      var size := m;
      while bound < size && a[m - bound] > k
        invariant bound >= 1 && bound / 2 <= m && k < a[m - bound / 2]
        decreases size - bound
      {
        bound := bound * 2;
      }
      l := m - if bound < size then bound else size;
      h := m - bound / 2;
      assert l > 0 ==> a[l] <= k;
    } else {
      var size := a.Length - m;
      while bound < size && a[m + bound] <= k
        invariant bound >= 1 && m + bound / 2 < a.Length && a[m + bound / 2] <= k
        decreases size - bound
      {
        bound := bound * 2;
      }
      l := m + bound / 2;
      h := m + if bound < size then bound else size;
    }
    r := BinarySearchUpperBound(a, l, h, k);
  }

  method ExponentialSearchLowerBound(a: array<int>, m: nat, k: int) returns (r: nat)
    requires Ascending(a[..]) && m < a.Length
    ensures IsLower(a[..], k, r)
  {
    var bound := 1;
    var l, h;
    if a[m] >= k {
      var size := m;
      while bound < size && a[m - bound] >= k
        invariant bound >= 1 && bound / 2 <= m && k <= a[m - bound / 2]
        decreases size - bound
      {
        bound := bound * 2;
      }
      l := m - if bound < size then bound else size;
      h := m - bound / 2;
      assert l > 0 ==> a[l] < k;
    } else {
      var size := a.Length - m;
      while bound < size && a[m + bound] < k
        invariant bound >= 1 && m + bound / 2 < a.Length && a[m + bound / 2] < k
        decreases size - bound
      {
        bound := bound * 2;
      }
      l := m + bound / 2;
      h := m + if bound < size then bound else size;
    }
    r := BinarySearchLowerBound(a, l, h, k);
  }

  // ----- the next filled slot -----

  /** A result, or the word past the end of the bitmap was read. */
  datatype Checked<T> = Ok(value: T) | PastBitmap

  /** r is the first filled slot from start on, or the capacity. */
  ghost predicate FirstFilled(bitmap: seq<Word>, cap: nat, start: nat, r: nat)
    requires Shape(bitmap, cap)
  {
    && start <= r <= cap
    && (r < cap ==> Exists(bitmap, r))
    && forall q :: start <= q < r ==> !Exists(bitmap, q)
  }

  lemma ExistsAt(bitmap: seq<Word>, cap: nat, q: nat, word: nat)
    requires Shape(bitmap, cap) && InWord(q, word) && q < cap
    ensures word < |bitmap| && (Exists(bitmap, q) <==> q - 64 * word in bitmap[word])
  {
    assert q / 64 == word && q % 64 == q - 64 * word;
  }

  /** The first one in a word, when all words before it and all bits before from in it are zero. */
  lemma FirstOne(bitmap: seq<Word>, cap: nat, start: nat, word: nat, data: Word)
    requires Shape(bitmap, cap) && start < cap && word < |bitmap| && data <= bitmap[word] && data != {}
    requires forall q :: start <= q < cap && q < 64 * word ==> !Exists(bitmap, q)
    requires forall b :: b in bitmap[word] && b !in data ==> 64 * word + b < start
    requires forall b :: b in data ==> start <= 64 * word + b
    ensures FirstFilled(bitmap, cap, start, 64 * word + TrailingZeros(data))
  {
    var b := TrailingZeros(data);
    var r := 64 * word + b;
    assert b in data;
    assert r < cap by {
      if word == |bitmap| - 1 {
        assert BitsBelow(bitmap[word], cap - 64 * word);
      }
    }
    ExistsAt(bitmap, cap, r, word);
    forall q | start <= q < r
      ensures !Exists(bitmap, q)
    {
      if q >= 64 * word {
        ExistsAt(bitmap, cap, q, word);
      }
    }
  }

  lemma NoneInWord(bitmap: seq<Word>, cap: nat, start: nat, word: nat, data: Word)
    requires Shape(bitmap, cap) && word < |bitmap| && data == {}
    requires forall q :: start <= q < cap && q < 64 * word ==> !Exists(bitmap, q)
    requires forall b :: b in bitmap[word] && b !in data ==> 64 * word + b < start
    ensures forall q :: start <= q < cap && q < 64 * (word + 1) ==> !Exists(bitmap, q)
  {
    forall q | start <= q < cap && q < 64 * (word + 1)
      ensures !Exists(bitmap, q)
    {
      if q >= 64 * word {
        ExistsAt(bitmap, cap, q, word);
      }
    }
  }

  /** Reads past the bitmap exactly when asked about the capacity itself and the capacity is a multiple of 64. */
  method GetNextFilledPosition(bitmap: seq<Word>, cap: nat, from: nat, exclusive: bool) returns (r: Checked<nat>)
    requires Shape(bitmap, cap) && from <= cap && (exclusive ==> from < cap)
    ensures r.PastBitmap? <==> !exclusive && from == cap && cap % 64 == 0
    ensures r.Ok? ==> FirstFilled(bitmap, cap, if exclusive then from + 1 else from, r.value)
  {
    var pos := from;
    if exclusive {
      pos := pos + 1;
      if pos == cap {
        return Ok(cap);
      }
    }
    var word := pos / 64;
    if word >= |bitmap| {
      return PastBitmap;
    }
    var data: Word := bitmap[word] - Below(pos - 64 * word);
    if pos == cap {
      assert data == {} by {
        assert word == |bitmap| - 1;
        assert BitsBelow(bitmap[word], pos - 64 * word);
      }
    }
    while data == {}
      invariant word < |bitmap| && data <= bitmap[word]
      invariant forall q :: pos <= q < cap && q < 64 * word ==> !Exists(bitmap, q)
      invariant forall b :: b in bitmap[word] && b !in data ==> 64 * word + b < pos
      invariant forall b :: b in data ==> pos <= 64 * word + b
      invariant pos == cap ==> data == {} && word == |bitmap| - 1
      decreases |bitmap| - word
    {
      NoneInWord(bitmap, cap, pos, word, data);
      word := word + 1;
      if word >= |bitmap| {
        return Ok(cap);
      }
      data := bitmap[word];
    }
    FirstOne(bitmap, cap, pos, word, data);
    return Ok(64 * word + TrailingZeros(data));
  }

  // ----- the iterator -----

  /** The word the iterator is in and the ones of it that are still to come. */
  datatype Cursor = Cursor(word: nat, data: Word)

  /** Everything from start on is still to come, and nothing before it. */
  ghost predicate Ahead(bitmap: seq<Word>, cap: nat, start: nat, c: Cursor)
    requires Shape(bitmap, cap)
  {
    && c.word < |bitmap|
    && start <= cap
    && start <= 64 * c.word + 64
    && c.data <= bitmap[c.word]
    && (forall q :: start <= q < cap && q < 64 * c.word ==> !Exists(bitmap, q))
    && (forall b :: b in bitmap[c.word] && b !in c.data ==> 64 * c.word + b < start)
    && (forall b :: b in c.data ==> start <= 64 * c.word + b)
  }

  /** The iterator is at the first filled slot from start on, or at the end when there is none. */
  ghost predicate Stands(bitmap: seq<Word>, cap: nat, start: nat, idx: int, c: Cursor)
    requires Shape(bitmap, cap)
  {
    if idx == -1 then forall q :: start <= q < cap ==> !Exists(bitmap, q)
    else 0 <= idx < cap && FirstFilled(bitmap, cap, start, idx) && Ahead(bitmap, cap, idx + 1, c)
  }

  /**
   * initialize: an iterator that starts at any slot stands at the next filled one. It reads past the
   * bitmap exactly when it starts at the capacity and the capacity is a multiple of 64.
   */
  method Initialize(bitmap: seq<Word>, cap: nat, from: nat) returns (r: Checked<(int, Cursor)>)
    requires Shape(bitmap, cap) && from <= cap
    ensures r.PastBitmap? <==> from == cap && cap % 64 == 0
    ensures r.Ok? ==> Stands(bitmap, cap, from, r.value.0, r.value.1)
  {
    var word := from / 64;
    if word >= |bitmap| {
      return PastBitmap;
    }
    var cursor := Cursor(word, bitmap[word] - Below(from - 64 * word));
    var idx;
    idx, cursor := Advance(bitmap, cap, from, cursor);
    return Ok((idx, cursor));
  }

  /** operator++: on to the next filled slot, or the end. */
  method Advance(bitmap: seq<Word>, cap: nat, ghost start: nat, c: Cursor) returns (idx: int, c': Cursor)
    requires Shape(bitmap, cap) && Ahead(bitmap, cap, start, c)
    ensures Stands(bitmap, cap, start, idx, c')
  {
    var word, data := c.word, c.data;
    while data == {}
      invariant Ahead(bitmap, cap, start, Cursor(word, data))
      decreases |bitmap| - word
    {
      NoneInWord(bitmap, cap, start, word, data);
      word := word + 1;
      if word >= |bitmap| {
        return -1, c;
      }
      data := bitmap[word];
      NextWord(bitmap, cap, start, word);
    }
    var b := TrailingZeros(data);
    InRange(bitmap, cap, word, b);
    FirstOne(bitmap, cap, start, word, data);
    idx := 64 * word + b;
    c' := Cursor(word, data - {b});
    Consumed(bitmap, cap, start, word, data);
  }

  lemma InRange(bitmap: seq<Word>, cap: nat, word: nat, b: nat)
    requires Shape(bitmap, cap) && word < |bitmap| && b in bitmap[word]
    ensures 64 * word + b < cap
  {
    if word == |bitmap| - 1 {
      assert BitsBelow(bitmap[word], cap - 64 * word);
    }
  }

  lemma NextWord(bitmap: seq<Word>, cap: nat, start: nat, word: nat)
    requires Shape(bitmap, cap) && word < |bitmap| && start <= cap
    requires forall q :: start <= q < cap && q < 64 * word ==> !Exists(bitmap, q)
    ensures start <= 64 * word ==> Ahead(bitmap, cap, start, Cursor(word, bitmap[word]))
  {
  }

  lemma Consumed(bitmap: seq<Word>, cap: nat, start: nat, word: nat, data: Word)
    requires Shape(bitmap, cap) && Ahead(bitmap, cap, start, Cursor(word, data)) && data != {}
    requires FirstFilled(bitmap, cap, start, 64 * word + TrailingZeros(data)) && 64 * word + TrailingZeros(data) < cap
    ensures var b := TrailingZeros(data);
      Ahead(bitmap, cap, 64 * word + b + 1, Cursor(word, data - {b}))
  {
    var b := TrailingZeros(data);
    assert forall a :: a in data && a != b ==> b < a;
  }

  // ----- counting -----

  /** The number of filled slots in a range. */
  ghost function CountIn(bitmap: seq<Word>, left: nat, right: nat): nat
    requires left <= right <= 64 * |bitmap|
  {
    if left == right then 0 else CountIn(bitmap, left, right - 1) + if Exists(bitmap, right - 1) then 1 else 0
  }

  lemma {:induction false} CountSplits(bitmap: seq<Word>, left: nat, mid: nat, right: nat)
    requires left <= mid <= right <= 64 * |bitmap|
    ensures CountIn(bitmap, left, right) == CountIn(bitmap, left, mid) + CountIn(bitmap, mid, right)
  {
    if mid < right {
      CountSplits(bitmap, left, mid, right - 1);
    }
  }

  /** The ones of a word from bit a up to bit b. */
  lemma {:induction false} CountInWord(bitmap: seq<Word>, word: nat, a: nat, b: nat, data: set<nat>)
    requires word < |bitmap| && a <= b <= 64
    requires forall c :: c in data <==> c in bitmap[word] && a <= c < b
    ensures |data| == CountIn(bitmap, 64 * word + a, 64 * word + b)
  {
    if a == b {
      assert data == {};
    } else {
      var c := b - 1;
      CountInWord(bitmap, word, a, c, data - {c});
      assert (64 * word + c) / 64 == word && (64 * word + c) % 64 == c;
      assert c in data ==> data == (data - {c}) + {c};
      assert c !in data ==> data == data - {c};
    }
  }

  /** pos >> 6 */
  function WordOf(pos: nat): nat {
    pos / 64
  }

  lemma {:induction false} InWhichWord(bitmap: seq<Word>, cap: nat, pos: nat)
    requires Shape(bitmap, cap) && pos <= cap
    ensures 64 * WordOf(pos) <= pos < 64 * WordOf(pos) + 64 && cap <= 64 * |bitmap| && WordOf(pos) <= |bitmap|
    ensures WordOf(pos) == |bitmap| <==> pos == cap && cap % 64 == 0
  {
  }

  /** num_keys_in_range: word by word, with the same read past the bitmap as the iterator. */
  method NumKeysInRange(bitmap: seq<Word>, cap: nat, left: nat, right: nat) returns (r: Checked<nat>)
    requires Shape(bitmap, cap) && left <= right <= cap
    ensures r.PastBitmap? <==> left == cap && cap % 64 == 0
    ensures r.Ok? ==> r.value == CountIn(bitmap, left, right)
  {
    hide *;
    InWhichWord(bitmap, cap, left);
    InWhichWord(bitmap, cap, right);
    var leftWord, rightWord := WordOf(left), WordOf(right);
    var leftBit, rightBit := left - 64 * leftWord, right - 64 * rightWord;
    var n;
    if leftWord == rightWord {
      if leftWord == |bitmap| {
        return PastBitmap;
      }
      n := CountPart(bitmap, leftWord, leftBit, rightBit);
    } else {
      n := CountPart(bitmap, leftWord, leftBit, 64);
      n := CountWords(bitmap, left, leftWord + 1, rightWord, n);
      if rightWord != |bitmap| {
        var last := CountPart(bitmap, rightWord, 0, rightBit);
        CountSplits(bitmap, left, 64 * rightWord, right);
        n := n + last;
      }
    }
    return Ok(n);
  }

  /** The masked ones of one word. */
  method CountPart(bitmap: seq<Word>, word: nat, a: nat, b: nat) returns (n: nat)
    requires word < |bitmap| && a <= b <= 64
    ensures n == CountIn(bitmap, 64 * word + a, 64 * word + b)
  {
    var data := (bitmap[word] - Below(a)) * Below(b);
    CountInWord(bitmap, word, a, b, data);
    return |data|;
  }

  /** The loop over the words that lie in the range as a whole. */
  method CountWords(bitmap: seq<Word>, ghost left: nat, from: nat, to: nat, sofar: nat) returns (n: nat)
    requires from <= to <= |bitmap| && left <= 64 * from && sofar == CountIn(bitmap, left, 64 * from)
    ensures n == CountIn(bitmap, left, 64 * to)
  {
    hide CountIn;
    n := sofar;
    var i := from;
    while i < to
      invariant from <= i <= to && n == CountIn(bitmap, left, 64 * i)
    {
      CountInWord(bitmap, i, 0, 64, bitmap[i]);
      CountSplits(bitmap, left, 64 * i, 64 * i + 64);
      n := n + |bitmap[i]|;
      i := i + 1;
    }
  }
}
