/**
  The intrusive circular list of include/ds.h.

  Everything executable in this file comes from a macro: DS_InitList, DS_ListEmpty, DS_ListHead,
  DS_ListTail, DS_ListIterDone, DS_AppendLink, DS_InsertLink and DS_RemoveLink.  A DSList is a
  struct whose only member is a DSLink, so a list is named by the address of that link: its
  sentinel.

  The abstract state is a map from each sentinel to the sequence of links between it and itself.
  Several lists live in one heap, and DS_RemoveLink is never told which of them holds its link.
 */
module DsList {

  class DSLink {
    var next: DSLink?
    var prev: DSLink?
    var thing: int

    // A link as DS_NewLink leaves it, outside every list.
    constructor (thing: int)
      ensures next == null && prev == null && this.thing == thing
    {
      next, prev := null, null;
      this.thing := thing;
    }
  }

  // ---------- Rings ----------

  type Lists = map<DSLink, seq<DSLink>>

  // The first and the last link of a list; the sentinel itself when the list is empty.
  ghost function First(s: DSLink, xs: seq<DSLink>): DSLink {
    if xs == [] then s else xs[0]
  }

  ghost function Last(s: DSLink, xs: seq<DSLink>): DSLink {
    if xs == [] then s else xs[|xs| - 1]
  }

  ghost predicate Distinct(s: DSLink, xs: seq<DSLink>) {
    && s !in xs
    && forall i, j :: 0 <= i < j < |xs| ==> xs[i] != xs[j]
  }

  // What the link at position i points to, in each direction.
  ghost function Succ(s: DSLink, xs: seq<DSLink>, i: nat): DSLink {
    if i + 1 < |xs| then xs[i + 1] else s
  }

  ghost function Pred(s: DSLink, xs: seq<DSLink>, i: nat): DSLink
    requires i < |xs|
  {
    if i == 0 then s else xs[i - 1]
  }

  ghost predicate Ring(s: DSLink, xs: seq<DSLink>)
    reads s, xs
  {
    && Distinct(s, xs)
    && s.next == First(s, xs) && s.prev == Last(s, xs)
    && forall i {:trigger xs[i].next} {:trigger xs[i].prev} :: 0 <= i < |xs| ==>
         xs[i].next == Succ(s, xs, i) && xs[i].prev == Pred(s, xs, i)
  }

  ghost function Nodes(m: Lists): set<DSLink> {
    m.Keys + Members(m)
  }

  ghost function Members(m: Lists): (r: set<DSLink>)
    ensures forall s :: s in m ==> forall x :: x in m[s] ==> x in r
  {
    set s, x | s in m && x in m[s] :: x
  }

  // Distinct lists share no link, neither member nor sentinel.
  ghost predicate Apart(m: Lists) {
    && (forall s, t :: s in m && t in m ==> s !in m[t])
    && forall s, t, i, j :: s in m && t in m && s != t && 0 <= i < |m[s]| && 0 <= j < |m[t]| ==> m[s][i] != m[t][j]
  }

  ghost predicate WellFormed(m: Lists)
    reads Nodes(m)
  {
    && Apart(m)
    && forall s :: s in m ==> Ring(s, m[s])
  }

  // ---------- What the operations mean on the abstract state ----------

  ghost function Initialised(m: Lists, s: DSLink): Lists {
    m[s := []]
  }

  ghost function Appended(m: Lists, s: DSLink, x: DSLink): Lists
    requires s in m
  {
    m[s := m[s] + [x]]
  }

  ghost function Inserted(m: Lists, s: DSLink, x: DSLink): Lists
    requires s in m
  {
    m[s := [x] + m[s]]
  }

  ghost function Without(xs: seq<DSLink>, x: DSLink): (r: seq<DSLink>)
  {
    if xs == [] then [] else (if xs[0] == x then [] else [xs[0]]) + Without(xs[1..], x)
  }

  // The link leaves whichever list it is in; no list is named.
  ghost function Removed(m: Lists, x: DSLink): Lists {
    map s | s in m :: Without(m[s], x)
  }

  lemma {:induction false} WithoutAbsent(xs: seq<DSLink>, x: DSLink)
    requires x !in xs
    ensures Without(xs, x) == xs
  {
    if xs != [] {
      WithoutAbsent(xs[1..], x);
    }
  }

  lemma {:induction false} WithoutSubset(xs: seq<DSLink>, x: DSLink)
    ensures forall y :: y in Without(xs, x) ==> y in xs && y != x
  {
    if xs != [] {
      WithoutSubset(xs[1..], x);
    }
  }

  // Where a link occurs once, removing it is deleting that one index.
  lemma {:induction false} WithoutIsDelete(xs: seq<DSLink>, k: nat)
    requires k < |xs|
    requires forall i, j :: 0 <= i < j < |xs| ==> xs[i] != xs[j]
    ensures Without(xs, xs[k]) == xs[..k] + xs[k + 1..]
  {
    if k == 0 {
      WithoutAbsent(xs[1..], xs[0]);
    } else {
      WithoutIsDelete(xs[1..], k - 1);
      assert xs[..k] + xs[k + 1..] == [xs[0]] + (xs[1..][..k - 1] + xs[1..][k..]);
    }
  }

  // Removal touches only the list that holds the link ...
  lemma RemovedFromOne(m: Lists, s: DSLink, x: DSLink)
    requires Apart(m) && s in m && x in m[s]
    ensures Removed(m, x) == m[s := Without(m[s], x)]
  {
    forall t | t in m && t != s
      ensures Removed(m, x)[t] == m[t]
    {
      WithoutAbsent(m[t], x);
    }
  }

  // ... and there deletes exactly its index.
  lemma RemovedIsDeleteAt(m: Lists, s: DSLink, k: nat)
    requires Apart(m) && s in m && Distinct(s, m[s]) && k < |m[s]|
    ensures Removed(m, m[s][k]) == m[s := m[s][..k] + m[s][k + 1..]]
  {
    RemovedFromOne(m, s, m[s][k]);
    WithoutIsDelete(m[s], k);
  }

  // Replacing the links of one list by some of its own and some that were in no list.
  lemma ApartReplaced(m: Lists, s: DSLink, xs: seq<DSLink>)
    requires Apart(m) && (s in m || s !in Members(m)) && s !in xs
    requires forall y :: y in xs ==> y !in Nodes(m) || (s in m && y in m[s])
    ensures Apart(m[s := xs])
  {
    var n := m[s := xs];
    forall t, i | t in m && t != s && 0 <= i < |m[t]|
      ensures t !in xs && m[t][i] != s && m[t][i] !in xs
    {
      assert m[t][i] in Members(m);
    }
  }

  // ---------- The macros ----------

  method DS_InitList(lst: DSLink)
    modifies lst
    ensures Ring(lst, []) && lst.thing == 0
  {
    lst.next := lst;
    lst.prev := lst;
    lst.thing := 0;
  }

  method DS_AppendLink(lst: DSLink, lnk: DSLink, ghost xs: seq<DSLink>)
    requires Ring(lst, xs) && lnk != lst && lnk !in xs
    modifies lnk`next, lnk`prev, lst`prev, Last(lst, xs)`next
    ensures Ring(lst, xs + [lnk])
  {
    lnk.next := lst;
    lnk.prev := lst.prev;
    lst.prev.next := lnk;
    lst.prev := lnk;
  }

  method DS_InsertLink(lst: DSLink, lnk: DSLink, ghost xs: seq<DSLink>)
    requires Ring(lst, xs) && lnk != lst && lnk !in xs
    modifies lnk`next, lnk`prev, lst`next, First(lst, xs)`prev
    ensures Ring(lst, [lnk] + xs)
  {
    lnk.next := lst.next;
    lnk.prev := lst;
    lst.next.prev := lnk;
    lst.next := lnk;
  }

  method DS_RemoveLink(lnk: DSLink, ghost s: DSLink, ghost xs: seq<DSLink>, ghost k: nat)
    requires Ring(s, xs) && k < |xs| && xs[k] == lnk
    modifies lnk`next, lnk`prev, Succ(s, xs, k)`prev, Pred(s, xs, k)`next
    ensures Ring(s, Without(xs, lnk))
    ensures lnk.next == null && lnk.prev == null
  {
    ghost var ys := xs[..k] + xs[k + 1..];
    WithoutIsDelete(xs, k);
    DistinctMinus(s, xs, k);
    RingMinus(s, xs, k);
    lnk.next.prev := lnk.prev;
    lnk.prev.next := lnk.next;
    lnk.next := null;
    lnk.prev := null;
    assert Ring(s, ys);
  }

  lemma DistinctMinus(s: DSLink, xs: seq<DSLink>, k: nat)
    requires Distinct(s, xs) && k < |xs|
    ensures Distinct(s, xs[..k] + xs[k + 1..]) && xs[k] !in xs[..k] + xs[k + 1..]
  {
    var ys := xs[..k] + xs[k + 1..];
    assert forall i :: 0 <= i < |ys| ==> ys[i] == xs[if i < k then i else i + 1];
  }

  // The links that remain, as they stand before the removal: only the two neighbours mention xs[k].
  lemma RingMinus(s: DSLink, xs: seq<DSLink>, k: nat)
    requires Ring(s, xs) && k < |xs|
    ensures var ys := xs[..k] + xs[k + 1..];
      && s.next == (if k == 0 then xs[k] else First(s, ys))
      && s.prev == (if k == |ys| then xs[k] else Last(s, ys))
      && Succ(s, xs, k) == (if k < |ys| then ys[k] else s)
      && Pred(s, xs, k) == (if k > 0 then ys[k - 1] else s)
      && forall i {:trigger ys[i].next} {:trigger ys[i].prev} :: 0 <= i < |ys| ==>
        && ys[i].next == (if i + 1 == k then xs[k] else Succ(s, ys, i))
        && ys[i].prev == (if i == k then xs[k] else Pred(s, ys, i))
  {
    var ys := xs[..k] + xs[k + 1..];
    forall i | 0 <= i < |ys|
      ensures ys[i].next == (if i + 1 == k then xs[k] else Succ(s, ys, i))
      ensures ys[i].prev == (if i == k then xs[k] else Pred(s, ys, i))
    {
      var j := if i < k then i else i + 1;
      assert ys[i] == xs[j] && xs[j].next == Succ(s, xs, j) && xs[j].prev == Pred(s, xs, j);
    }
  }

  // ---------- The macros among several lists ----------

  method InitAmong(lst: DSLink, ghost m: Lists)
    requires WellFormed(m) && lst !in Members(m)
    modifies lst
    ensures WellFormed(Initialised(m, lst))
  {
    ApartReplaced(m, lst, []);
    DS_InitList(lst);
  }

  method AppendAmong(lst: DSLink, lnk: DSLink, ghost m: Lists)
    requires WellFormed(m) && lst in m && lnk !in Nodes(m)
    modifies lnk`next, lnk`prev, lst`prev, Last(lst, m[lst])`next
    ensures WellFormed(Appended(m, lst, lnk))
  {
    ApartReplaced(m, lst, m[lst] + [lnk]);
    DS_AppendLink(lst, lnk, m[lst]);
  }

  method InsertAmong(lst: DSLink, lnk: DSLink, ghost m: Lists)
    requires WellFormed(m) && lst in m && lnk !in Nodes(m)
    modifies lnk`next, lnk`prev, lst`next, First(lst, m[lst])`prev
    ensures WellFormed(Inserted(m, lst, lnk))
  {
    ApartReplaced(m, lst, [lnk] + m[lst]);
    DS_InsertLink(lst, lnk, m[lst]);
  }

  method RemoveFrom(lnk: DSLink, ghost m: Lists, ghost s: DSLink, ghost k: nat)
    requires WellFormed(m) && s in m && k < |m[s]| && m[s][k] == lnk
    modifies lnk`next, lnk`prev, Succ(s, m[s], k)`prev, Pred(s, m[s], k)`next
    ensures WellFormed(m[s := Without(m[s], lnk)])
    ensures lnk.next == null && lnk.prev == null
  {
    WithoutSubset(m[s], lnk);
    ApartReplaced(m, s, Without(m[s], lnk));
    DS_RemoveLink(lnk, s, m[s], k);
  }

  // No list is passed in: the list that holds the link is named only in the proof.
  method RemoveAmong(lnk: DSLink, ghost m: Lists)
    requires WellFormed(m) && lnk in Members(m)
    modifies lnk, lnk.next, lnk.prev
    ensures WellFormed(Removed(m, lnk))
    ensures lnk.next == null && lnk.prev == null
  {
    ghost var s :| s in m && lnk in m[s];
    ghost var k :| 0 <= k < |m[s]| && m[s][k] == lnk;
    RemovedFromOne(m, s, lnk);
    assert lnk.next == Succ(s, m[s], k) && lnk.prev == Pred(s, m[s], k);
    RemoveFrom(lnk, m, s, k);
  }

  // ---------- Runs ----------

  datatype Op =
    | Init(lst: DSLink)
    | Append(lst: DSLink, lnk: DSLink)
    | Insert(lst: DSLink, lnk: DSLink)
    | Remove(lnk: DSLink)

  // What the macros ask of their callers: a list is initialised before it is used, a link is put
  // into one list at a time, and only a link that is in some list is removed.
  ghost predicate Allowed(m: Lists, op: Op) {
    match op
    case Init(s) => s !in Members(m)
    case Append(s, x) => s in m && x !in Nodes(m)
    case Insert(s, x) => s in m && x !in Nodes(m)
    case Remove(x) => x in Members(m)
  }

  ghost function Apply(m: Lists, op: Op): Lists
    requires Allowed(m, op)
  {
    match op
    case Init(s) => Initialised(m, s)
    case Append(s, x) => Appended(m, s, x)
    case Insert(s, x) => Inserted(m, s, x)
    case Remove(x) => Removed(m, x)
  }

  ghost predicate AllAllowed(m: Lists, ops: seq<Op>)
    decreases |ops|
  {
    ops == [] || (Allowed(m, ops[0]) && AllAllowed(Apply(m, ops[0]), ops[1..]))
  }

  ghost function Final(m: Lists, ops: seq<Op>): Lists
    requires AllAllowed(m, ops)
    decreases |ops|
  {
    if ops == [] then m else Final(Apply(m, ops[0]), ops[1..])
  }

  function Mentioned(op: Op): set<DSLink> {
    match op
    case Init(s) => {s}
    case Append(s, x) => {s, x}
    case Insert(s, x) => {s, x}
    case Remove(x) => {x}
  }

  function AllMentioned(ops: seq<Op>): set<DSLink>
    decreases |ops|
  {
    if ops == [] then {} else Mentioned(ops[0]) + AllMentioned(ops[1..])
  }

  lemma NodesApplied(m: Lists, op: Op)
    requires Allowed(m, op)
    ensures Nodes(Apply(m, op)) <= Nodes(m) + Mentioned(op)
  {
    if op.Remove? {
      forall s | s in m {
        WithoutSubset(m[s], op.lnk);
      }
    }
  }

  // Every finite run of the macros over any number of lists in one heap keeps every list a ring
  // and computes, on each list, what its abstract sequence says.
  method Run(ops: seq<Op>, ghost m: Lists)
    requires WellFormed(m) && AllAllowed(m, ops)
    modifies Nodes(m) + AllMentioned(ops)
    ensures WellFormed(Final(m, ops))
    decreases |ops|
  {
    if ops != [] {
      NodesApplied(m, ops[0]);
      assert Mentioned(ops[0]) <= AllMentioned(ops) && AllMentioned(ops[1..]) <= AllMentioned(ops);
      match ops[0] {
        case Init(s) => InitAmong(s, m);
        case Append(s, x) => AppendAmong(s, x, m);
        case Insert(s, x) => InsertAmong(s, x, m);
        case Remove(x) => RemoveAmong(x, m);
      }
      Run(ops[1..], Apply(m, ops[0]));
    }
  }

  // ---------- Loops over the macros ----------

  // From the head until DS_ListIterDone: every link once, in order.
  method Walk(lst: DSLink, ghost xs: seq<DSLink>) returns (visited: seq<DSLink>)
    requires Ring(lst, xs)
    ensures visited == xs
  {
    visited := [];
    var lnk := lst.next;
    while lnk != lst
      invariant |visited| <= |xs| && visited == xs[..|visited|]
      invariant lnk == (if |visited| < |xs| then xs[|visited|] else lst)
      decreases |xs| - |visited|
    {
      visited := visited + [lnk];
      lnk := lnk.next;
    }
  }

  ghost function Kept(xs: seq<DSLink>, drop: DSLink -> bool): seq<DSLink> {
    if xs == [] then []
    else Kept(xs[..|xs| - 1], drop) + (if drop(xs[|xs| - 1]) then [] else [xs[|xs| - 1]])
  }

  lemma {:induction false} KeptSubset(xs: seq<DSLink>, drop: DSLink -> bool)
    ensures forall x :: x in Kept(xs, drop) ==> x in xs
  {
    if xs != [] {
      KeptSubset(xs[..|xs| - 1], drop);
    }
  }

  // The list when the first i links have been looked at.
  ghost function Halfway(xs: seq<DSLink>, drop: DSLink -> bool, i: nat): seq<DSLink>
    requires i <= |xs|
  {
    if i == 0 then xs
    else if drop(xs[i - 1]) then Without(Halfway(xs, drop, i - 1), xs[i - 1])
    else Halfway(xs, drop, i - 1)
  }

  lemma WithoutMiddle(xs: seq<DSLink>, x: DSLink, ys: seq<DSLink>)
    requires x !in xs && x !in ys
    ensures Without(xs + ([x] + ys), x) == xs + ys
  {
    var zs := [x] + ys;
    assert zs[0] == x && zs[1..] == ys;
    WithoutAbsent(ys, x);
    assert Without(zs, x) == ys by {
      assert Without(zs, x) == [] + Without(zs[1..], x);
    }
    WithoutConcat(xs, zs, x);
    WithoutAbsent(xs, x);
  }

  lemma {:induction false} HalfwayIsKept(s: DSLink, xs: seq<DSLink>, drop: DSLink -> bool, i: nat)
    requires i <= |xs| && Distinct(s, xs)
    ensures Halfway(xs, drop, i) == Kept(xs[..i], drop) + xs[i..]
  {
    if i == 0 {
      assert Kept(xs[..0], drop) + xs[0..] == xs;
    } else {
      HalfwayIsKept(s, xs, drop, i - 1);
      assert xs[..i][..i - 1] == xs[..i - 1];
      var kept, x := Kept(xs[..i - 1], drop), xs[i - 1];
      KeptSubset(xs[..i - 1], drop);
      assert xs[i - 1..] == [x] + xs[i..];
      assert x !in kept && x !in xs[i..];
      WithoutMiddle(kept, x, xs[i..]);
      assert kept + ([x] + xs[i..]) == (kept + [x]) + xs[i..];
    }
  }

  // Where the loop stands in it.
  lemma HalfwayAt(s: DSLink, xs: seq<DSLink>, drop: DSLink -> bool, i: nat) returns (k: nat)
    requires i < |xs| && Distinct(s, xs)
    ensures var ys := Halfway(xs, drop, i);
      && k < |ys| && ys[k] == xs[i] && Succ(s, ys, k) == Succ(s, xs, i)
      && (Pred(s, ys, k) == s || Pred(s, ys, k) in xs)
  {
    var kept := Kept(xs[..i], drop);
    HalfwayIsKept(s, xs, drop, i);
    KeptSubset(xs[..i], drop);
    k := |kept|;
    assert k == 0 || kept[k - 1] in xs[..i];
  }

  // A loop that saves next before it removes leaves exactly the links it did not remove.
  method RemoveEach(lst: DSLink, drop: DSLink -> bool, ghost xs: seq<DSLink>)
    requires Ring(lst, xs)
    modifies lst, xs
    ensures Ring(lst, Kept(xs, drop))
  {
    ghost var i, ys := 0, xs;
    var lnk := lst.next;
    while lnk != lst
      invariant 0 <= i <= |xs| && Ring(lst, ys)
      invariant ys == Halfway(xs, drop, i)
      invariant lnk == (if i < |xs| then xs[i] else lst)
      decreases |xs| - i
    {
      ghost var k := HalfwayAt(lst, xs, drop, i);
      var after := lnk.next;
      assert after == Succ(lst, ys, k);
      if drop(lnk) {
        DS_RemoveLink(lnk, lst, ys, k);
        ys := Without(ys, lnk);
      }
      lnk := after;
      i := i + 1;
    }
    assert ys == Kept(xs, drop) by {
      HalfwayIsKept(lst, xs, drop, |xs|);
      assert xs[..|xs|] == xs && Kept(xs, drop) + [] == Kept(xs, drop);
    }
  }

  // On one list among several the loop changes that list alone.
  method RemoveEachAmong(lst: DSLink, drop: DSLink -> bool, ghost m: Lists)
    requires WellFormed(m) && lst in m
    modifies lst, m[lst]
    ensures WellFormed(m[lst := Kept(m[lst], drop)])
  {
    KeptSubset(m[lst], drop);
    ApartReplaced(m, lst, Kept(m[lst], drop));
    RemoveEach(lst, drop, m[lst]);
  }

  lemma RingEmpty(s: DSLink, xs: seq<DSLink>)
    requires Ring(s, xs)
    ensures s.next == s <==> xs == []
  {
  }

  method TakeHead(lst: DSLink, ghost xs: seq<DSLink>, ghost all: set<DSLink>) returns (head: DSLink)
    requires Ring(lst, xs) && xs != [] && forall x :: x in xs ==> x in all
    modifies {lst} + all
    ensures head == xs[0] && Ring(lst, xs[1..])
  {
    head := lst.next;
    WithoutAbsent(xs[1..], head);
    DS_RemoveLink(head, lst, xs, 0);
  }

  lemma HeadMoves(taken: seq<DSLink>, rest: seq<DSLink>, all: set<DSLink>)
    requires rest != [] && forall x :: x in rest ==> x in all
    ensures taken + [rest[0]] + rest[1..] == taken + rest && forall x :: x in rest[1..] ==> x in all
  {
  }

  // Taking the head until the list is empty yields the links front to back.
  method Drain(lst: DSLink, ghost xs: seq<DSLink>) returns (taken: seq<DSLink>)
    requires Ring(lst, xs)
    modifies lst, xs
    ensures taken == xs && Ring(lst, [])
  {
    hide Ring;
    taken := [];
    ghost var rest := xs;
    ghost var all := set x | x in xs;
    RingEmpty(lst, rest);
    while lst.next != lst
      invariant taken + rest == xs && Ring(lst, rest)
      invariant forall x :: x in rest ==> x in all
      invariant lst.next == lst <==> rest == []
      decreases |rest|
    {
      HeadMoves(taken, rest, all);
      var head := TakeHead(lst, rest, all);
      RingEmpty(lst, rest[1..]);
      taken := taken + [head];
      rest := rest[1..];
    }
  }

  // Removing the link just appended restores every other link and the sentinel.
  method AppendThenRemove(lst: DSLink, lnk: DSLink, ghost m: Lists)
    requires WellFormed(m) && lst in m && lnk !in Nodes(m)
    modifies lnk, lst, Last(lst, m[lst])
    ensures WellFormed(m)
    ensures forall x :: x in Nodes(m) ==> x.next == old(x.next) && x.prev == old(x.prev)
  {
    AppendAmong(lst, lnk, m);
    RemoveAppended(m, lst, lnk);
    RemoveAmong(lnk, Appended(m, lst, lnk));
    forall x | x in Nodes(m)
      ensures x.next == old(x.next) && x.prev == old(x.prev)
    {
      var s :| s in m && (x == s || x in m[s]);
      assert Ring(s, m[s]) && old(Ring(s, m[s]));
      if x != s {
        var i :| 0 <= i < |m[s]| && m[s][i] == x;
        assert m[s][i].next == Succ(s, m[s], i) && m[s][i].prev == Pred(s, m[s], i);
        assert old(m[s][i].next) == Succ(s, m[s], i) && old(m[s][i].prev) == Pred(s, m[s], i);
      }
    }
  }

  lemma RemoveAppended(m: Lists, s: DSLink, x: DSLink)
    requires Apart(m) && s in m && x !in Nodes(m)
    ensures Removed(Appended(m, s, x), x) == m
  {
    var n := Appended(m, s, x);
    forall t | t in m
      ensures Removed(n, x)[t] == m[t]
    {
      WithoutAbsent(m[t], x);
      WithoutConcat(m[t], [x], x);
    }
  }

  lemma {:induction false} WithoutConcat(xs: seq<DSLink>, ys: seq<DSLink>, x: DSLink)
    ensures Without(xs + ys, x) == Without(xs, x) + Without(ys, x)
  {
    if xs == [] {
      assert xs + ys == ys;
    } else {
      var zs := xs + ys;
      assert zs[1..] == xs[1..] + ys && zs[0] == xs[0];
      WithoutConcat(xs[1..], ys, x);
      Joined(if xs[0] == x then [] else [xs[0]], Without(xs[1..], x), Without(ys, x));
    }
  }

  lemma Joined<T>(a: seq<T>, b: seq<T>, c: seq<T>)
    ensures a + (b + c) == (a + b) + c
  {
  }

  ghost function Appends(s: DSLink, xs: seq<DSLink>): seq<Op> {
    if xs == [] then [] else [Append(s, xs[0])] + Appends(s, xs[1..])
  }

  ghost function Inserts(s: DSLink, xs: seq<DSLink>): seq<Op> {
    if xs == [] then [] else [Insert(s, xs[0])] + Inserts(s, xs[1..])
  }

  ghost function Reversed(xs: seq<DSLink>): seq<DSLink> {
    if xs == [] then [] else Reversed(xs[1..]) + [xs[0]]
  }

  lemma RunFrom(m: Lists, op: Op, rest: seq<Op>)
    requires Allowed(m, op)
    ensures AllAllowed(m, [op] + rest) <==> AllAllowed(Apply(m, op), rest)
    ensures AllAllowed(m, [op] + rest) ==> Final(m, [op] + rest) == Final(Apply(m, op), rest)
  {
    assert ([op] + rest)[1..] == rest;
  }

  // With Drain: first in, first out after appends; last in, first out after inserts.
  lemma {:induction false} AppendsQueue(m: Lists, s: DSLink, xs: seq<DSLink>)
    requires s in m && Distinct(s, xs) && (forall x :: x in xs ==> x !in Nodes(m))
    ensures AllAllowed(m, Appends(s, xs)) && Final(m, Appends(s, xs)) == m[s := m[s] + xs]
    decreases |xs|
  {
    if xs == [] {
      assert m[s] + xs == m[s] && m[s := m[s]] == m;
    } else {
      var n := Appended(m, s, xs[0]);
      NodesApplied(m, Append(s, xs[0]));
      AppendsQueue(n, s, xs[1..]);
      RunFrom(m, Append(s, xs[0]), Appends(s, xs[1..]));
      assert m[s] + [xs[0]] + xs[1..] == m[s] + xs;
    }
  }

  lemma {:induction false} InsertsStack(m: Lists, s: DSLink, xs: seq<DSLink>)
    requires s in m && Distinct(s, xs) && (forall x :: x in xs ==> x !in Nodes(m))
    ensures AllAllowed(m, Inserts(s, xs)) && Final(m, Inserts(s, xs)) == m[s := Reversed(xs) + m[s]]
    decreases |xs|
  {
    if xs == [] {
      assert Reversed(xs) + m[s] == m[s] && m[s := m[s]] == m;
    } else {
      var n := Inserted(m, s, xs[0]);
      NodesApplied(m, Insert(s, xs[0]));
      InsertsStack(n, s, xs[1..]);
      RunFrom(m, Insert(s, xs[0]), Inserts(s, xs[1..]));
      assert Reversed(xs[1..]) + ([xs[0]] + m[s]) == Reversed(xs) + m[s];
    }
  }

  // Next and prev are mutual inverses on every link of every list, the sentinels included.
  lemma LinksInvert(m: Lists, x: DSLink)
    requires WellFormed(m) && x in Nodes(m)
    ensures x.next != null && x.prev != null && x.next.prev == x && x.prev.next == x
  {
    var s :| s in m && (x == s || x in m[s]);
    if x != s {
      var i :| 0 <= i < |m[s]| && m[s][i] == x;
      assert x.next == Succ(s, m[s], i) && x.prev == Pred(s, m[s], i);
    }
  }
}
