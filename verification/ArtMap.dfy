/** Any sequence of inserts and removals makes the radix tree agree with a finite map. */
module ArtMap {
  import opened ArtTree
  import opened ArtRemove

  datatype Op = Put(key: Key, tid: nat) | Take(key: Key, tid: nat)

  /** The identifier is not zero and its key can be loaded; all keys have one length. */
  predicate ValidOp(load: nat -> Key, len: nat, op: Op) {
    |op.key| == len && load(op.tid) == op.key && op.tid > 0
  }

  function Empty(): Node {
    Inner(N256, 0, [], map[])
  }

  lemma {:induction false} EmptyOk(load: nat -> Key, len: nat)
    requires len > 0
    ensures InnerOk(load, len, Empty(), [], true)
  {
    assert Under(load, len, Empty(), [], []);
  }

  lemma {:induction false} RootPath(k: Key)
    ensures Upto(k, 0) == []
  {
  }

  /** One operation on the root. */
  function Apply(load: nat -> Key, len: nat, n: Node, op: Op): (n': Node)
    requires InnerOk(load, len, n, [], true) && ValidOp(load, len, op)
    ensures InnerOk(load, len, n', [], true)
  {
    RootPath(op.key);
    match op
    case Put(k, tid) =>
      InsertIsCorrect(load, n, k, tid, 0, true);
      Insert(load, n, k, tid, 0, true)
    case Take(k, tid) =>
      RemoveIsCorrect(load, n, k, tid, [], true);
      Remove(n, k, tid, 0, true)
  }

  ghost predicate ValidOps(load: nat -> Key, len: nat, ops: seq<Op>) {
    len > 0 && forall i :: 0 <= i < |ops| ==> ValidOp(load, len, ops[i])
  }

  function After(load: nat -> Key, len: nat, ops: seq<Op>): (n: Node)
    requires ValidOps(load, len, ops)
    ensures InnerOk(load, len, n, [], true)
  {
    if ops == [] then
      EmptyOk(load, len);
      Empty()
    else
      Apply(load, len, After(load, len, ops[..|ops| - 1]), ops[|ops| - 1])
  }

  // ----- the finite map -----

  function ApplyToMap(m: map<Key, nat>, op: Op): map<Key, nat> {
    match op
    case Put(k, tid) => m[k := tid]
    case Take(k, tid) => if k in m && m[k] == tid then m - {k} else m
  }

  function MapAfter(ops: seq<Op>): map<Key, nat> {
    if ops == [] then map[] else ApplyToMap(MapAfter(ops[..|ops| - 1]), ops[|ops| - 1])
  }

  /** The tree holds exactly the identifiers of the map, under the keys of the map. */
  ghost predicate Agree(load: nat -> Key, n: Node, m: map<Key, nat>) {
    && (forall x :: Has(n, x) <==> load(x) in m && m[load(x)] == x)
    && (forall k :: k in m ==> load(m[k]) == k && m[k] > 0)
  }

  lemma {:induction false} AgreeStep(load: nat -> Key, len: nat, n: Node, m: map<Key, nat>, op: Op)
    requires InnerOk(load, len, n, [], true) && ValidOp(load, len, op) && Agree(load, n, m)
    ensures Agree(load, Apply(load, len, n, op), ApplyToMap(m, op))
  {
    RootPath(op.key);
    var n' := Apply(load, len, n, op);
    match op {
      case Put(k, tid) =>
        InsertIsCorrect(load, n, k, tid, 0, true);
        assert Inserted(load, n, k, tid, n');
        hide Has, InnerOk, Apply;
      case Take(k, tid) =>
        RemoveIsCorrect(load, n, k, tid, [], true);
        assert Removed(n, tid, n');
        hide Has, InnerOk, Apply;
    }
  }

  /** After any sequence of operations the tree and the map agree. */
  lemma {:induction false} TreeIsMap(load: nat -> Key, len: nat, ops: seq<Op>)
    requires ValidOps(load, len, ops)
    ensures Agree(load, After(load, len, ops), MapAfter(ops))
  {
    if ops != [] {
      var front, last := ops[..|ops| - 1], ops[|ops| - 1];
      TreeIsMap(load, len, front);
      AgreeStep(load, len, After(load, len, front), MapAfter(front), last);
    }
  }

  /** So a lookup returns what the map has for the key, and 0 when it has nothing. */
  method LookupAfter(load: nat -> Key, ops: seq<Op>, k: Key) returns (tid: nat)
    requires ValidOps(load, |k|, ops)
    ensures tid == if k in MapAfter(ops) then MapAfter(ops)[k] else 0
  {
    TreeIsMap(load, |k|, ops);
    tid := Lookup(load, After(load, |k|, ops), k);
    hide Has, InnerOk, After, MapAfter;
  }
}
