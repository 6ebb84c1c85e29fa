/**
 * The four layouts of an inner node. Each stands for a table with one entry for each byte, the
 * child there or the null pointer 0.
 */
module ArtLayouts {
  import opened Sequences

  const BYTES := 256

  predicate IsByte(b: int) {
    0 <= b < BYTES
  }

  ghost predicate AreBytes(ks: seq<int>) {
    forall i :: 0 <= i < |ks| ==> IsByte(ks[i])
  }

  ghost predicate NonNull(cs: seq<int>) {
    forall i :: 0 <= i < |cs| ==> cs[i] != 0
  }

  /** The child next to the key in parallel arrays, or 0. */
  function Find(ks: seq<int>, cs: seq<int>, b: int): int
    requires |ks| == |cs|
  {
    if ks == [] then 0 else if ks[0] == b then cs[0] else Find(ks[1..], cs[1..], b)
  }

  lemma {:induction false} FindAt(ks: seq<int>, cs: seq<int>, i: nat)
    requires |ks| == |cs| && Increasing(ks) && i < |ks|
    ensures Find(ks, cs, ks[i]) == cs[i]
  {
    if i > 0 {
      FindAt(ks[1..], cs[1..], i - 1);
    }
  }

  lemma {:induction false} FindNone(ks: seq<int>, cs: seq<int>, b: int)
    requires |ks| == |cs| && forall i :: 0 <= i < |ks| ==> ks[i] != b
    ensures Find(ks, cs, b) == 0
  {
    if ks != [] {
      FindNone(ks[1..], cs[1..], b);
    }
  }

  lemma {:induction false} FindConcat(ks: seq<int>, cs: seq<int>, ks': seq<int>, cs': seq<int>, b: int)
    requires |ks| == |cs| && |ks'| == |cs'|
    ensures Find(ks + ks', cs + cs', b) == if b in ks then Find(ks, cs, b) else Find(ks', cs', b)
  {
    if ks == [] {
      assert ks + ks' == ks' && cs + cs' == cs';
    } else {
      assert (ks + ks')[1..] == ks[1..] + ks' && (cs + cs')[1..] == cs[1..] + cs';
      assert b in ks <==> b == ks[0] || b in ks[1..];
      FindConcat(ks[1..], cs[1..], ks', cs', b);
    }
  }

  lemma {:induction false} FindInsert(ks: seq<int>, cs: seq<int>, pos: nat, k: int, c: int, b: int)
    requires |ks| == |cs| && pos <= |ks| && k !in ks
    ensures Find(ks[..pos] + [k] + ks[pos..], cs[..pos] + [c] + cs[pos..], b) == if b == k then c else Find(ks, cs, b)
  {
    FindConcat(ks[..pos] + [k], cs[..pos] + [c], ks[pos..], cs[pos..], b);
    FindConcat(ks[..pos], cs[..pos], [k], [c], b);
    FindConcat(ks[..pos], cs[..pos], ks[pos..], cs[pos..], b);
    assert ks[..pos] + ks[pos..] == ks && cs[..pos] + cs[pos..] == cs;
    assert [k][1..] == [] && [c][1..] == [];
    assert b in ks[..pos] + [k] <==> b in ks[..pos] || b == k;
    assert b in ks[..pos] ==> b in ks;
  }

  lemma {:induction false} FindRemove(ks: seq<int>, cs: seq<int>, pos: nat, b: int)
    requires |ks| == |cs| && pos < |ks| && Increasing(ks)
    ensures Find(ks[..pos] + ks[pos + 1..], cs[..pos] + cs[pos + 1..], b) == if b == ks[pos] then 0 else Find(ks, cs, b)
  {
    var ks', cs' := ks[..pos] + ks[pos + 1..], cs[..pos] + cs[pos + 1..];
    if b == ks[pos] {
      FindNone(ks', cs', b);
    } else {
      assert forall i :: 0 <= i < |ks'| ==> ks'[i] != ks[pos];
      FindInsert(ks', cs', pos, ks[pos], cs[pos], b);
      assert ks'[..pos] + [ks[pos]] + ks'[pos..] == ks && cs'[..pos] + [cs[pos]] + cs'[pos..] == cs;
    }
  }

  /** The table of parallel arrays. */
  ghost function TableOf(ks: seq<int>, cs: seq<int>): (t: seq<int>)
    requires |ks| == |cs|
    ensures |t| == BYTES
  {
    seq(BYTES, b => Find(ks, cs, b))
  }

  /** The number of entries that are not null. */
  function Size(t: seq<int>): (n: nat)
    ensures n <= |t|
  {
    if t == [] then 0 else Size(t[..|t| - 1]) + if t[|t| - 1] != 0 then 1 else 0
  }

  lemma {:induction false} SizeUpdate(t: seq<int>, b: nat, c: int)
    requires b < |t|
    ensures Size(t[b := c]) + (if t[b] != 0 then 1 else 0) == Size(t) + if c != 0 then 1 else 0
  {
    var n := |t| - 1;
    if b < n {
      assert t[b := c][..n] == t[..n][b := c];
      SizeUpdate(t[..n], b, c);
    } else {
      assert t[b := c][..n] == t[..n];
    }
  }

  lemma {:induction false} SizePrefix(t: seq<int>, i: nat)
    requires i <= |t|
    ensures Size(t[..i]) <= Size(t)
  {
    if i < |t| {
      SizePrefix(t[..|t| - 1], i);
      assert t[..|t| - 1][..i] == t[..i];
    } else {
      assert t[..i] == t;
    }
  }

  lemma {:induction false} SizeOfNulls(t: seq<int>)
    requires forall i :: 0 <= i < |t| ==> t[i] == 0
    ensures Size(t) == 0
  {
    if t != [] {
      SizeOfNulls(t[..|t| - 1]);
    }
  }

  /** memmove both arrays by one place to the right, then store the key and the child. */
  method InsertPair(keys: array<int>, children: array<int>, pos: nat, count: nat, k: int, c: int)
    requires pos <= count < keys.Length && count < children.Length && keys != children
    modifies keys, children
    ensures keys[..count + 1] == old(keys[..count])[..pos] + [k] + old(keys[..count])[pos..]
    ensures children[..count + 1] == old(children[..count])[..pos] + [c] + old(children[..count])[pos..]
  {
    InsertAt(keys, pos, count, k);
    InsertAt(children, pos, count, c);
  }

  method RemovePair(keys: array<int>, children: array<int>, pos: nat, count: nat)
    requires pos < count <= keys.Length && count <= children.Length && keys != children
    modifies keys, children
    ensures keys[..count - 1] == old(keys[..count])[..pos] + old(keys[..count])[pos + 1..]
    ensures children[..count - 1] == old(children[..count])[..pos] + old(children[..count])[pos + 1..]
  {
    RemoveAt(keys, pos, count);
    RemoveAt(children, pos, count);
  }

  lemma {:induction false} SortedInsert(ks: seq<int>, pos: nat, k: int)
    requires Increasing(ks) && pos <= |ks| && (pos > 0 ==> ks[pos - 1] < k) && (pos < |ks| ==> k < ks[pos])
    ensures Increasing(ks[..pos] + [k] + ks[pos..]) && k !in ks
  {
  }

  lemma {:induction false} SortedRemove(ks: seq<int>, pos: nat)
    requires Increasing(ks) && pos < |ks|
    ensures Increasing(ks[..pos] + ks[pos + 1..])
  {
  }

  /** Parallel arrays of sorted keys and their children. */
  ghost predicate Pairs(ks: seq<int>, cs: seq<int>) {
    |ks| == |cs| && Increasing(ks) && AreBytes(ks) && NonNull(cs)
  }

  lemma {:induction false} PairsInsert(ks: seq<int>, cs: seq<int>, pos: nat, k: int, c: int)
    requires Pairs(ks, cs) && IsByte(k) && c != 0 && pos <= |ks|
    requires (pos > 0 ==> ks[pos - 1] < k) && (pos < |ks| ==> k < ks[pos])
    ensures Pairs(ks[..pos] + [k] + ks[pos..], cs[..pos] + [c] + cs[pos..])
    ensures TableOf(ks[..pos] + [k] + ks[pos..], cs[..pos] + [c] + cs[pos..]) == TableOf(ks, cs)[k := c]
  {
    SortedInsert(ks, pos, k);
    var ks', cs' := ks[..pos] + [k] + ks[pos..], cs[..pos] + [c] + cs[pos..];
    forall b | 0 <= b < BYTES
      ensures TableOf(ks', cs')[b] == TableOf(ks, cs)[k := c][b]
    {
      FindInsert(ks, cs, pos, k, c, b);
    }
  }

  lemma {:induction false} PairsRemove(ks: seq<int>, cs: seq<int>, pos: nat)
    requires Pairs(ks, cs) && pos < |ks|
    ensures Pairs(ks[..pos] + ks[pos + 1..], cs[..pos] + cs[pos + 1..])
    ensures TableOf(ks[..pos] + ks[pos + 1..], cs[..pos] + cs[pos + 1..]) == TableOf(ks, cs)[ks[pos] := 0]
  {
    SortedRemove(ks, pos);
    var ks', cs' := ks[..pos] + ks[pos + 1..], cs[..pos] + cs[pos + 1..];
    forall b | 0 <= b < BYTES
      ensures TableOf(ks', cs')[b] == TableOf(ks, cs)[ks[pos] := 0][b]
    {
      FindRemove(ks, cs, pos, b);
    }
  }

  lemma {:induction false} PairsChange(ks: seq<int>, cs: seq<int>, pos: nat, c: int)
    requires Pairs(ks, cs) && pos < |ks| && c != 0
    ensures Pairs(ks, cs[pos := c]) && TableOf(ks, cs[pos := c]) == TableOf(ks, cs)[ks[pos] := c]
  {
    var t, t' := TableOf(ks, cs), TableOf(ks, cs[pos := c]);
    forall b | 0 <= b < BYTES
      ensures t'[b] == t[ks[pos] := c][b]
    {
      if b in ks {
        var i :| 0 <= i < |ks| && ks[i] == b;
        FindAt(ks, cs, i);
        FindAt(ks, cs[pos := c], i);
      } else {
        FindNone(ks, cs, b);
        FindNone(ks, cs[pos := c], b);
      }
    }
  }

  /** A key has an entry exactly when it is among the keys. */
  lemma {:induction false} PairsHas(ks: seq<int>, cs: seq<int>, b: int)
    requires Pairs(ks, cs) && IsByte(b)
    ensures TableOf(ks, cs)[b] != 0 <==> b in ks
  {
    if b in ks {
      var i :| 0 <= i < |ks| && ks[i] == b;
      FindAt(ks, cs, i);
    } else {
      FindNone(ks, cs, b);
    }
  }

  lemma {:induction false} PairsSize(ks: seq<int>, cs: seq<int>)
    requires Pairs(ks, cs)
    ensures Size(TableOf(ks, cs)) == |ks|
  {
    var n := |ks| - 1;
    if n < 0 {
      SizeOfNulls(TableOf(ks, cs));
    } else {
      PairsSize(ks[..n], cs[..n]);
      PairsInsert(ks[..n], cs[..n], n, ks[n], cs[n]);
      assert ks[..n][..n] + [ks[n]] + ks[..n][n..] == ks && cs[..n][..n] + [cs[n]] + cs[..n][n..] == cs;
      FindNone(ks[..n], cs[..n], ks[n]);
      SizeUpdate(TableOf(ks[..n], cs[..n]), ks[n], cs[n]);
    }
  }

  /** Up to four keys, in order, each next to its child. */
  class N4 {
    const keys: array<int>
    const children: array<int>
    var count: nat

    ghost predicate Valid()
      reads this, keys, children
    {
      && keys.Length == children.Length == 4
      && keys != children
      && count <= 4
      && Pairs(keys[..count], children[..count])
    }

    ghost function View(): seq<int>
      reads this, keys, children
      requires Valid()
    {
      TableOf(keys[..count], children[..count])
    }

    constructor ()
      ensures Valid() && Size(View()) == count == 0 && (forall b :: IsByte(b) ==> View()[b] == 0)
      ensures fresh(keys) && fresh(children)
    {
      keys := new int[4];
      children := new int[4];
      count := 0;
      new;
      SizeOfNulls(TableOf([], []));
    }

    method Insert(k: int, c: int)
      requires Valid() && count < 4 && IsByte(k) && View()[k] == 0 && c != 0
      modifies this`count, keys, children
      ensures Valid() && View() == old(View())[k := c] && count == old(count) + 1
    {
      ghost var ks, cs := keys[..count], children[..count];
      PairsHas(ks, cs, k);
      var pos := 0;
      while pos < count && keys[pos] < k
        invariant 0 <= pos <= count
        invariant pos > 0 ==> keys[pos - 1] < k
      {
        pos := pos + 1;
      }
      assert pos < count ==> ks[pos] in ks;
      PairsInsert(ks, cs, pos, k, c);
      InsertPair(keys, children, pos, count, k, c);
      count := count + 1;
    }

    /** The position of the key, or the count. */
    method Locate(k: int) returns (i: nat)
      requires Valid() && IsByte(k)
      ensures i <= count && (i < count ==> keys[i] == k && View()[k] == children[i]) && (i == count ==> View()[k] == 0)
    {
      i := 0;
      while i < count && keys[i] != k
        invariant 0 <= i <= count
        invariant forall j :: 0 <= j < i ==> keys[j] != k
      {
        i := i + 1;
      }
      if i < count {
        FindAt(keys[..count], children[..count], i);
      } else {
        FindNone(keys[..count], children[..count], k);
      }
    }

    method GetChild(k: int) returns (c: int)
      requires Valid() && IsByte(k)
      ensures c == View()[k]
    {
      var i := Locate(k);
      c := if i < count then children[i] else 0;
    }

    method Change(k: int, c: int)
      requires Valid() && IsByte(k) && View()[k] != 0 && c != 0
      modifies children
      ensures Valid() && View() == old(View())[k := c]
    {
      var i := Locate(k);
      PairsChange(keys[..count], children[..count], i, c);
      children[i] := c;
      assert children[..count] == old(children[..count])[i := c];
    }

    method Remove(k: int)
      requires Valid() && IsByte(k)
      modifies this`count, keys, children
      ensures Valid() && View() == old(View())[k := 0]
      ensures count == old(count) - if old(View())[k] != 0 then 1 else 0
    {
      ghost var ks, cs := keys[..count], children[..count];
      PairsHas(ks, cs, k);
      var i := Locate(k);
      if i < count {
        assert ks[i] in ks;
        PairsRemove(ks, cs, i);
        hide Pairs, TableOf;
        RemovePair(keys, children, i, count);
        count := count - 1;
      }
    }

    /** The other child of two, with its key. */
    method GetSecondChild(k: int) returns (c: int, key: int)
      requires Valid() && count == 2 && IsByte(k) && View()[k] != 0
      ensures IsByte(key) && key != k && c == View()[key] != 0
      ensures forall b :: IsByte(b) && View()[b] != 0 ==> b == k || b == key
    {
      ghost var ks, cs := keys[..count], children[..count];
      PairsHas(ks, cs, k);
      var i := if keys[0] != k then 0 else 1;
      c, key := children[i], keys[i];
      FindAt(ks, cs, i);
      assert cs[i] != 0 && IsByte(ks[i]);
      forall b | IsByte(b) && View()[b] != 0
        ensures b == k || b == key
      {
        PairsHas(ks, cs, b);
      }
    }
  }

  // ----- N16 -----

  /** keyByte ^ 128 */
  function Flip(b: int): int {
    if b < 128 then b + 128 else b - 128
  }

  /** A byte read as a signed number, as the vector comparison does. */
  function Signed(b: int): int {
    if b < 128 then b else b - 256
  }

  ghost function Flipped(ks: seq<int>): (r: seq<int>)
    ensures |r| == |ks|
  {
    seq(|ks|, i requires 0 <= i < |ks| => Flip(ks[i]))
  }

  lemma {:induction false} FlippedInsert(ks: seq<int>, pos: nat, x: int)
    requires pos <= |ks| && AreBytes(ks) && IsByte(x)
    ensures Flipped(ks[..pos] + [x] + ks[pos..]) == Flipped(ks)[..pos] + [Flip(x)] + Flipped(ks)[pos..]
    ensures AreBytes(ks[..pos] + [x] + ks[pos..])
  {
  }

  lemma {:induction false} FlippedRemove(ks: seq<int>, pos: nat)
    requires pos < |ks| && AreBytes(ks)
    ensures Flipped(ks[..pos] + ks[pos + 1..]) == Flipped(ks)[..pos] + Flipped(ks)[pos + 1..]
    ensures AreBytes(ks[..pos] + ks[pos + 1..])
  {
  }

  /** Up to sixteen keys with their sign bit flipped, so that signed comparison orders them as bytes. */
  class N16 {
    const keys: array<int>
    const children: array<int>
    var count: nat

    ghost predicate Valid()
      reads this, keys, children
    {
      && keys.Length == children.Length == 16
      && keys != children
      && count <= 16
      && AreBytes(keys[..count])
      && Pairs(Flipped(keys[..count]), children[..count])
    }

    ghost function View(): seq<int>
      reads this, keys, children
      requires Valid()
    {
      TableOf(Flipped(keys[..count]), children[..count])
    }

    constructor ()
      ensures Valid() && Size(View()) == count == 0 && (forall b :: IsByte(b) ==> View()[b] == 0)
      ensures fresh(keys) && fresh(children)
    {
      keys := new int[16];
      children := new int[16];
      count := 0;
      new;
      SizeOfNulls(TableOf([], []));
      assert Flipped(keys[..0]) == [];
    }

    method Insert(k: int, c: int)
      requires Valid() && count < 16 && IsByte(k) && View()[k] == 0 && c != 0
      modifies this`count, keys, children
      ensures Valid() && View() == old(View())[k := c] && count == old(count) + 1
    {
      ghost var stored, cs := keys[..count], children[..count];
      ghost var ks := Flipped(stored);
      var pos := Position(k);
      PairsInsert(ks, cs, pos, k, c);
      FlippedInsert(stored, pos, Flip(k));
      assert Flip(Flip(k)) == k;
      hide Flipped, Pairs, TableOf;
      InsertPair(keys, children, pos, count, Flip(k), c);
      count := count + 1;
    }

    /** The number of keys not greater, by signed comparison of the flipped bytes. */
    method Position(k: int) returns (pos: nat)
      requires Valid() && IsByte(k) && View()[k] == 0
      ensures var ks := Flipped(keys[..count]);
        pos <= count && (pos > 0 ==> ks[pos - 1] < k) && (pos < count ==> k < ks[pos])
    {
      ghost var ks := Flipped(keys[..count]);
      PairsHas(ks, children[..count], k);
      pos := 0;
      while pos < count && !(Signed(Flip(k)) < Signed(keys[pos]))
        invariant 0 <= pos <= count
        invariant pos > 0 ==> Signed(keys[pos - 1]) <= Signed(Flip(k))
      {
        pos := pos + 1;
      }
      assert forall i :: 0 <= i < count ==> ks[i] in ks && IsByte(keys[..count][i]) && ks[i] == Signed(keys[i]) + 128;
    }

    /** getChildPos: the position of the key, or the count. */
    method Locate(k: int) returns (i: nat)
      requires Valid() && IsByte(k)
      ensures i <= count && (i < count ==> keys[i] == Flip(k) && View()[k] == children[i]) && (i == count ==> View()[k] == 0)
    {
      i := 0;
      while i < count && keys[i] != Flip(k)
        invariant 0 <= i <= count
        invariant forall j :: 0 <= j < i ==> keys[j] != Flip(k)
      {
        i := i + 1;
      }
      ghost var ks, cs := Flipped(keys[..count]), children[..count];
      assert forall j :: 0 <= j < count ==> IsByte(keys[..count][j]) && ks[j] == Flip(keys[j]);
      if i < count {
        FindAt(ks, cs, i);
      } else {
        FindNone(ks, cs, k);
      }
    }

    method GetChild(k: int) returns (c: int)
      requires Valid() && IsByte(k)
      ensures c == View()[k]
    {
      var i := Locate(k);
      c := if i < count then children[i] else 0;
    }

    method Change(k: int, c: int)
      requires Valid() && IsByte(k) && View()[k] != 0 && c != 0
      modifies children
      ensures Valid() && View() == old(View())[k := c]
    {
      var i := Locate(k);
      ghost var ks := Flipped(keys[..count]);
      PairsChange(ks, children[..count], i, c);
      children[i] := c;
      assert children[..count] == old(children[..count])[i := c];
      assert ks[i] == Flip(Flip(k)) == k;
    }

    method Remove(k: int)
      requires Valid() && IsByte(k) && View()[k] != 0
      modifies this`count, keys, children
      ensures Valid() && View() == old(View())[k := 0] && count == old(count) - 1
    {
      ghost var stored := keys[..count];
      ghost var ks, cs := Flipped(stored), children[..count];
      var i := Locate(k);
      assert ks[i] == Flip(Flip(k)) == k;
      PairsRemove(ks, cs, i);
      FlippedRemove(stored, i);
      hide Flipped, Pairs, TableOf;
      RemovePair(keys, children, i, count);
      count := count - 1;
    }
  }

  // ----- N256 -----

  /** A child for each byte; the count is one byte wide. */
  class N256 {
    const children: array<int>
    var count: nat

    ghost predicate Valid()
      reads this, children
    {
      children.Length == BYTES && count == Size(children[..]) % 256
    }

    ghost function View(): seq<int>
      reads this, children
      requires Valid()
    {
      children[..]
    }

    constructor ()
      ensures Valid() && Size(View()) == 0 && (forall b :: IsByte(b) ==> View()[b] == 0) && fresh(children)
    {
      children := new int[BYTES](i => 0);
      count := 0;
      new;
      SizeOfNulls(children[..]);
    }

    method Insert(k: int, c: int)
      requires Valid() && IsByte(k) && View()[k] == 0 && c != 0
      modifies this`count, children
      ensures Valid() && View() == old(View())[k := c]
    {
      SizeUpdate(children[..], k, c);
      children[k] := c;
      assert children[..] == old(children[..])[k := c];
      count := (count + 1) % 256;
    }

    method GetChild(k: int) returns (c: int)
      requires Valid() && IsByte(k)
      ensures c == View()[k]
    {
      c := children[k];
    }

    method Change(k: int, c: int)
      requires Valid() && IsByte(k) && View()[k] != 0 && c != 0
      modifies children
      ensures Valid() && View() == old(View())[k := c]
    {
      SizeUpdate(children[..], k, c);
      children[k] := c;
      assert children[..] == old(children[..])[k := c];
    }

    method Remove(k: int)
      requires Valid() && IsByte(k) && View()[k] != 0
      modifies this`count, children
      ensures Valid() && View() == old(View())[k := 0]
    {
      SizeUpdate(children[..], k, 0);
      children[k] := 0;
      assert children[..] == old(children[..])[k := 0];
      count := (count + 255) % 256;
    }
  }

  // ----- N48 -----

  const EMPTY_MARKER := 48

  /** Every index is empty or leads to a child of its own. */
  ghost predicate Indexed(index: seq<int>, cs: seq<int>) {
    && |index| == BYTES
    && |cs| == 48
    && (forall b :: 0 <= b < BYTES ==> 0 <= index[b] <= EMPTY_MARKER)
    && (forall b :: 0 <= b < BYTES && index[b] != EMPTY_MARKER ==> cs[index[b]] != 0)
    && (forall a, b :: 0 <= a < b < BYTES && index[a] != EMPTY_MARKER ==> index[a] != index[b])
  }

  ghost function Through(index: seq<int>, cs: seq<int>): (t: seq<int>)
    requires Indexed(index, cs)
    ensures |t| == BYTES
  {
    seq(BYTES, b requires 0 <= b < BYTES => if index[b] == EMPTY_MARKER then 0 else cs[index[b]])
  }

  lemma {:induction false} ThroughInsert(index: seq<int>, cs: seq<int>, k: int, pos: nat, c: int)
    requires Indexed(index, cs) && IsByte(k) && pos < 48 && cs[pos] == 0 && c != 0 && index[k] == EMPTY_MARKER
    ensures Indexed(index[k := pos], cs[pos := c])
    ensures Through(index[k := pos], cs[pos := c]) == Through(index, cs)[k := c]
  {
  }

  lemma {:induction false} ThroughChange(index: seq<int>, cs: seq<int>, k: int, c: int)
    requires Indexed(index, cs) && IsByte(k) && c != 0 && index[k] != EMPTY_MARKER
    ensures Indexed(index, cs[index[k] := c])
    ensures Through(index, cs[index[k] := c]) == Through(index, cs)[k := c]
  {
    assert forall b :: 0 <= b < BYTES && b != k ==> index[b] != index[k];
  }

  lemma {:induction false} ThroughRemove(index: seq<int>, cs: seq<int>, k: int)
    requires Indexed(index, cs) && IsByte(k) && index[k] != EMPTY_MARKER
    ensures Indexed(index[k := EMPTY_MARKER], cs[index[k] := 0])
    ensures Through(index[k := EMPTY_MARKER], cs[index[k] := 0]) == Through(index, cs)[k := 0]
  {
    assert forall b :: 0 <= b < BYTES && b != k ==> index[b] != index[k];
  }

  lemma {:induction false} SomeNull(t: seq<int>)
    requires Size(t) < |t|
    ensures exists i :: 0 <= i < |t| && t[i] == 0
  {
    var n := |t| - 1;
    if t[n] != 0 {
      SomeNull(t[..n]);
      var i :| 0 <= i < n && t[..n][i] == 0;
      assert t[i] == 0;
    }
  }

  /** An index for each byte into forty-eight slots that are reused. */
  class N48 {
    const childIndex: array<int>
    const children: array<int>
    var count: nat

    ghost predicate Valid()
      reads this, childIndex, children
    {
      && childIndex.Length == BYTES
      && children.Length == 48
      && childIndex != children
      && Indexed(childIndex[..], children[..])
      && Size(children[..]) == count == Size(View())
    }

    ghost function View(): seq<int>
      reads this, childIndex, children
      requires Indexed(childIndex[..], children[..])
    {
      Through(childIndex[..], children[..])
    }

    constructor ()
      ensures Valid() && count == 0 && (forall b :: IsByte(b) ==> View()[b] == 0)
      ensures fresh(childIndex) && fresh(children)
    {
      childIndex := new int[BYTES](i => EMPTY_MARKER);
      children := new int[48](i => 0);
      count := 0;
      new;
      SizeOfNulls(children[..]);
      SizeOfNulls(View());
    }

    /** The slot after the last, or the first free one if that is taken. */
    method FreeSlot() returns (pos: nat)
      requires Valid() && count < 48
      ensures pos < 48 && children[pos] == 0
    {
      pos := count;
      if children[pos] != 0 {
        SomeNull(children[..]);
        ghost var free :| 0 <= free < 48 && children[..][free] == 0;
        pos := 0;
        while children[pos] != 0
          invariant 0 <= pos <= free
          decreases free - pos
        {
          pos := pos + 1;
        }
      }
    }

    method Insert(k: int, c: int)
      requires Valid() && count < 48 && IsByte(k) && View()[k] == 0 && c != 0
      modifies this`count, childIndex, children
      ensures Valid() && View() == old(View())[k := c] && count == old(count) + 1
    {
      var pos := FreeSlot();
      ghost var index, cs, t := childIndex[..], children[..], View();
      assert index[k] == EMPTY_MARKER;
      ThroughInsert(index, cs, k, pos, c);
      SizeUpdate(cs, pos, c);
      SizeUpdate(t, k, c);
      hide Indexed, Through;
      children[pos] := c;
      childIndex[k] := pos;
      count := count + 1;
      assert childIndex[..] == index[k := pos] && children[..] == cs[pos := c];
    }

    method GetChild(k: int) returns (c: int)
      requires Valid() && IsByte(k)
      ensures c == View()[k]
    {
      c := if childIndex[k] == EMPTY_MARKER then 0 else children[childIndex[k]];
    }

    method Change(k: int, c: int)
      requires Valid() && IsByte(k) && View()[k] != 0 && c != 0
      modifies children
      ensures Valid() && View() == old(View())[k := c]
    {
      ghost var index, cs, t := childIndex[..], children[..], View();
      ThroughChange(index, cs, k, c);
      SizeUpdate(cs, index[k], c);
      SizeUpdate(t, k, c);
      children[childIndex[k]] := c;
      assert childIndex[..] == index && children[..] == cs[index[k] := c];
    }

    method Remove(k: int)
      requires Valid() && IsByte(k) && View()[k] != 0
      modifies this`count, childIndex, children
      ensures Valid() && View() == old(View())[k := 0] && count == old(count) - 1
    {
      ghost var index, cs, t := childIndex[..], children[..], View();
      ThroughRemove(index, cs, k);
      SizeUpdate(cs, index[k], 0);
      SizeUpdate(t, k, 0);
      children[childIndex[k]] := 0;
      childIndex[k] := EMPTY_MARKER;
      count := count - 1;
      assert childIndex[..] == index[k := EMPTY_MARKER] && children[..] == cs[index[k] := 0];
    }
  }
}
