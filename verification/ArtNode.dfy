/**
 * A node of the radix tree and the layout object that stores it: the tree as a value says which kind
 * a node has and which child is at which byte, and the layouts say where the pointers are. Each
 * operation on the layout is the operation on the value. Pointers are numbers, and `at` says which
 * node a pointer leads to.
 */
module ArtNode {
  import opened ArtTree
  import opened ArtRemove
  import Layouts = ArtLayouts
  import Copies = ArtGrow

  datatype Layout =
    | Small(n4: Layouts.N4)
    | Medium(n16: Layouts.N16)
    | Large(n48: Layouts.N48)
    | Direct(n256: Layouts.N256)

  function KindOf(l: Layout): Kind {
    match l
    case Small(_) => N4
    case Medium(_) => N16
    case Large(_) => N48
    case Direct(_) => N256
  }

  ghost function Footprint(l: Layout): set<object> {
    match l
    case Small(a) => {a, a.keys, a.children}
    case Medium(a) => {a, a.keys, a.children}
    case Large(a) => {a, a.childIndex, a.children}
    case Direct(a) => {a, a.children}
  }

  ghost predicate Valid(l: Layout)
    reads Footprint(l)
  {
    match l
    case Small(a) => a.Valid()
    case Medium(a) => a.Valid()
    case Large(a) => a.Valid()
    case Direct(a) => a.Valid()
  }

  ghost function View(l: Layout): seq<int>
    reads Footprint(l)
    requires Valid(l)
  {
    match l
    case Small(a) => a.View()
    case Medium(a) => a.View()
    case Large(a) => a.View()
    case Direct(a) => a.View()
  }

  /** The pointer at each byte leads to the child at that byte, and is null where there is none. */
  ghost predicate Leads(t: seq<int>, cs: map<Byte, Node>, at: map<int, Node>) {
    && |t| == Layouts.BYTES
    && (forall b: Byte :: b in cs <==> t[b] != 0)
    && (forall b: Byte :: b in cs ==> t[b] in at && at[t[b]] == cs[b])
  }

  /** The layout object stores the node: it is of the node's kind and leads to the node's children. */
  ghost predicate Stores(l: Layout, n: Node, at: map<int, Node>)
    reads Footprint(l)
  {
    n.Inner? && Valid(l) && KindOf(l) == n.kind && Leads(View(l), n.children, at)
  }

  // ----- tables and maps -----

  lemma {:induction false} LeadsAdd(t: seq<int>, cs: map<Byte, Node>, at: map<int, Node>, b: Byte, c: int)
    requires Leads(t, cs, at) && c != 0 && c in at
    ensures Leads(t[b := c], cs[b := at[c]], at)
  {
  }

  lemma {:induction false} LeadsDrop(t: seq<int>, cs: map<Byte, Node>, at: map<int, Node>, b: Byte)
    requires Leads(t, cs, at)
    ensures Leads(t[b := 0], cs - {b}, at)
  {
  }

  /** The bytes below i that have a child. */
  ghost function Before(cs: map<Byte, Node>, i: nat): set<Byte> {
    set b | b in cs && b < i
  }

  lemma {:induction false} SizeBefore(t: seq<int>, cs: map<Byte, Node>, at: map<int, Node>, i: nat)
    requires Leads(t, cs, at) && i <= Layouts.BYTES
    ensures Layouts.Size(t[..i]) == |Before(cs, i)|
  {
    if i == 0 {
      assert Before(cs, 0) == {};
    } else {
      SizeBefore(t, cs, at, i - 1);
      BeforeStep(cs, i - 1);
      assert t[..i][..i - 1] == t[..i - 1];
      hide Before;
    }
  }

  lemma {:induction false} BeforeStep(cs: map<Byte, Node>, b: Byte)
    ensures |Before(cs, b + 1)| == |Before(cs, b)| + if b in cs then 1 else 0
  {
    if b in cs {
      assert Before(cs, b + 1) == Before(cs, b) + {b} && b !in Before(cs, b);
    } else {
      assert Before(cs, b + 1) == Before(cs, b);
    }
  }

  /** The number of pointers that are not null is the number of children. */
  lemma {:induction false} LeadsSize(t: seq<int>, cs: map<Byte, Node>, at: map<int, Node>)
    requires Leads(t, cs, at)
    ensures Layouts.Size(t) == |cs|
  {
    SizeBefore(t, cs, at, Layouts.BYTES);
    assert t[..Layouts.BYTES] == t;
    assert Before(cs, Layouts.BYTES) == cs.Keys;
    assert |cs.Keys| == |cs|;
  }

  /** What the count field of a layout says: the number of children, in an N256 only its last byte. */
  function CountOf(l: Layout): nat
    reads Footprint(l)
  {
    match l
    case Small(a) => a.count
    case Medium(a) => a.count
    case Large(a) => a.count
    case Direct(a) => a.count
  }

  lemma {:induction false} CountIs(l: Layout, n: Node, at: map<int, Node>)
    requires Stores(l, n, at)
    ensures CountOf(l) == Count(n) && (n.kind != N256 ==> CountOf(l) == |n.children|)
  {
    LeadsSize(View(l), n.children, at);
    hide Leads;
    match l {
      case Small(a) => Layouts.PairsSize(a.keys[..a.count], a.children[..a.count]);
      case Medium(a) => Layouts.PairsSize(Layouts.Flipped(a.keys[..a.count]), a.children[..a.count]);
      case Large(a) =>
      case Direct(a) =>
    }
  }

  // ----- the operations -----

  /** The pointer at a byte leads to the child there, and is null exactly when there is none. */
  method GetChild(l: Layout, b: Byte, ghost n: Node, ghost at: map<int, Node>) returns (c: int)
    requires Stores(l, n, at)
    ensures c == 0 <==> b !in n.children
    ensures c != 0 ==> c in at && at[c] == n.children[b]
  {
    match l
    case Small(a) => c := a.GetChild(b);
    case Medium(a) => c := a.GetChild(b);
    case Large(a) => c := a.GetChild(b);
    case Direct(a) => c := a.GetChild(b);
  }

  /** N::change: another child at a byte that has one. */
  method Change(l: Layout, b: Byte, c: int, ghost n: Node, ghost at: map<int, Node>)
    requires Stores(l, n, at) && b in n.children && c != 0 && c in at
    modifies Footprint(l)
    ensures Stores(l, n.(children := n.children[b := at[c]]), at)
  {
    LeadsAdd(View(l), n.children, at, b, c);
    assert View(l)[b] != 0;
    hide Leads, Layouts.Pairs, Layouts.TableOf, Layouts.Size, Layouts.Indexed, Layouts.Through, Layouts.Flipped, Layouts.AreBytes;
    match l
    case Small(a) => a.Change(b, c);
    case Medium(a) => a.Change(b, c);
    case Large(a) => a.Change(b, c);
    case Direct(a) => a.Change(b, c);
  }

  method InsertSmall(a: Layouts.N4, b: Byte, c: int, ghost t: seq<int>) returns (l: Layout)
    requires a.Valid() && a.View()[b] == 0 && c != 0 && t == a.View()[b := c]
    modifies Footprint(Small(a))
    ensures Valid(l) && View(l) == t && (l == Small(a) || fresh(Footprint(l)))
    ensures KindOf(l) == if old(a.count) == 4 then N16 else N4
  {
    if a.count == 4 {
      var big := Copies.GrowN4(a, b, c);
      l := Medium(big);
    } else {
      a.Insert(b, c);
      l := Small(a);
    }
  }

  method InsertMedium(a: Layouts.N16, b: Byte, c: int, ghost t: seq<int>) returns (l: Layout)
    requires a.Valid() && a.View()[b] == 0 && c != 0 && t == a.View()[b := c]
    modifies Footprint(Medium(a))
    ensures Valid(l) && View(l) == t && (l == Medium(a) || fresh(Footprint(l)))
    ensures KindOf(l) == if old(a.count) == 16 then N48 else N16
  {
    if a.count == 16 {
      var big := Copies.GrowN16(a, b, c);
      l := Large(big);
    } else {
      a.Insert(b, c);
      l := Medium(a);
    }
  }

  method InsertLarge(a: Layouts.N48, b: Byte, c: int, ghost t: seq<int>) returns (l: Layout)
    requires a.Valid() && a.View()[b] == 0 && c != 0 && t == a.View()[b := c]
    modifies Footprint(Large(a))
    ensures Valid(l) && View(l) == t && (l == Large(a) || fresh(Footprint(l)))
    ensures KindOf(l) == if old(a.count) == 48 then N256 else N48
  {
    if a.count == 48 {
      var big := Copies.GrowN48(a, b, c);
      l := Direct(big);
    } else {
      a.Insert(b, c);
      l := Large(a);
    }
  }

  /** N::insertGrow: one more child, in place or in a copy of the next kind, exactly as the value grows. */
  method InsertGrow(l: Layout, b: Byte, c: int, ghost n: Node, ghost at: map<int, Node>) returns (l': Layout)
    requires Stores(l, n, at) && b !in n.children && c != 0 && c in at
    modifies Footprint(l)
    ensures Stores(l', AddChild(n, b, at[c]), at)
    ensures l' == l || fresh(Footprint(l'))
  {
    CountIs(l, n, at);
    LeadsAdd(View(l), n.children, at, b, c);
    assert View(l)[b] == 0;
    ghost var t := View(l)[b := c];
    hide Leads, Layouts.Pairs, Layouts.TableOf, Layouts.Size, Layouts.Indexed, Layouts.Through, Layouts.Flipped, Layouts.AreBytes;
    match l
    case Small(a) => l' := InsertSmall(a, b, c, t);
    case Medium(a) => l' := InsertMedium(a, b, c, t);
    case Large(a) => l' := InsertLarge(a, b, c, t);
    case Direct(a) =>
      a.Insert(b, c);
      l' := l;
  }

  method RemoveMedium(a: Layouts.N16, b: Byte, root: bool, ghost t: seq<int>) returns (l: Layout)
    requires a.Valid() && a.View()[b] != 0 && t == a.View()[b := 0]
    modifies Footprint(Medium(a))
    ensures Valid(l) && View(l) == t && (l == Medium(a) || fresh(Footprint(l)))
    ensures KindOf(l) == if old(a.count) == 3 && !root then N4 else N16
  {
    if a.count == 3 && !root {
      var small := Copies.ShrinkN16(a, b);
      l := Small(small);
    } else {
      a.Remove(b);
      l := Medium(a);
    }
  }

  method RemoveLarge(a: Layouts.N48, b: Byte, root: bool, ghost t: seq<int>) returns (l: Layout)
    requires a.Valid() && a.View()[b] != 0 && t == a.View()[b := 0]
    modifies Footprint(Large(a))
    ensures Valid(l) && View(l) == t && (l == Large(a) || fresh(Footprint(l)))
    ensures KindOf(l) == if old(a.count) == 12 && !root then N16 else N48
  {
    if a.count == 12 && !root {
      var small := Copies.ShrinkN48(a, b);
      l := Medium(small);
    } else {
      a.Remove(b);
      l := Large(a);
    }
  }

  method RemoveDirect(a: Layouts.N256, b: Byte, root: bool, ghost t: seq<int>) returns (l: Layout)
    requires a.Valid() && a.View()[b] != 0 && t == a.View()[b := 0]
    modifies Footprint(Direct(a))
    ensures Valid(l) && View(l) == t && (l == Direct(a) || fresh(Footprint(l)))
    ensures KindOf(l) == if old(a.count) == 37 && !root then N48 else N256
  {
    if a.count == 37 && !root {
      var small := Copies.ShrinkN256(a, b);
      l := Large(small);
    } else {
      a.Remove(b);
      l := Direct(a);
    }
  }

  /** N::removeAndShrink: one child less, in place or in a copy of the next smaller kind, exactly as the value shrinks. */
  method RemoveAndShrink(l: Layout, b: Byte, root: bool, ghost n: Node, ghost at: map<int, Node>) returns (l': Layout)
    requires Stores(l, n, at) && b in n.children
    modifies Footprint(l)
    ensures Stores(l', DropChild(n, b, root), at)
    ensures l' == l || fresh(Footprint(l'))
  {
    CountIs(l, n, at);
    LeadsDrop(View(l), n.children, at, b);
    assert View(l)[b] != 0;
    ghost var t := View(l)[b := 0];
    hide Count, Leads, Layouts.Pairs, Layouts.TableOf, Layouts.Size, Layouts.Indexed, Layouts.Through, Layouts.Flipped, Layouts.AreBytes;
    match l
    case Small(a) =>
      a.Remove(b);
      l' := l;
    case Medium(a) => l' := RemoveMedium(a, b, root, t);
    case Large(a) => l' := RemoveLarge(a, b, root, t);
    case Direct(a) => l' := RemoveDirect(a, b, root, t);
  }

  /** getSecondChild on a node with two children, which is an N4: the other child and its byte. */
  method GetSecondChild(l: Layout, b: Byte, ghost n: Node, ghost at: map<int, Node>) returns (c: int, key: Byte)
    requires Stores(l, n, at) && n.kind == N4 && |n.children| == 2 && b in n.children
    ensures key == SecondChild(n, b) && c in at && at[c] == n.children[key]
  {
    CountIs(l, n, at);
    ghost var other := SecondChild(n, b);
    assert l.n4.View()[b] != 0 && l.n4.View()[other] != 0;
    var k;
    c, k := l.n4.GetSecondChild(b);
    key := k;
  }
}
