/** What the models share: order of integers, an optional value, and moving parts of an array by one place. */
module Sequences {

  datatype Option<T> = None | Some(value: T)

  predicate Ascending(s: seq<int>) {
    forall i, j :: 0 <= i < j < |s| ==> s[i] <= s[j]
  }

  predicate Increasing(s: seq<int>) {
    forall i, j :: 0 <= i < j < |s| ==> s[i] < s[j]
  }

  /** memmove by one place to the right, then a store: x enters at pos. */
  method InsertAt<T>(a: array<T>, pos: nat, count: nat, x: T)
    requires pos <= count < a.Length
    modifies a
    ensures a[..count + 1] == old(a[..count])[..pos] + [x] + old(a[..count])[pos..]
  {
    ghost var was := a[..count];
    forall i | pos <= i < count {
      a[i + 1] := a[i];
    }
    a[pos] := x;
    assert forall i :: 0 <= i < pos ==> a[i] == was[i];
    assert forall i :: pos < i <= count ==> a[i] == was[i - 1];
  }

  /** memmove by one place to the left: the element at pos goes. */
  method RemoveAt<T>(a: array<T>, pos: nat, count: nat)
    requires pos < count <= a.Length
    modifies a
    ensures a[..count - 1] == old(a[..count])[..pos] + old(a[..count])[pos + 1..]
  {
    ghost var was := a[..count];
    forall i | pos <= i < count - 1 {
      a[i] := a[i + 1];
    }
    assert forall i :: 0 <= i < pos ==> a[i] == was[i];
    assert forall i :: pos <= i < count - 1 ==> a[i] == was[i + 1];
  }

  /** memcpy of n elements from position `from` on. */
  method CopyTo<T>(a: array<T>, from: nat, n: nat, b: array<T>)
    requires from + n <= a.Length && n <= b.Length && a != b
    modifies b
    ensures b[..n] == a[from..from + n]
  {
    forall i | 0 <= i < n {
      b[i] := a[from + i];
    }
  }
}
