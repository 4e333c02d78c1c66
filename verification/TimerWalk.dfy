/**
  What the two timer lists of the repository share: modules/libimg/src/xpcompat.cpp and
  base/src/xlib/nsTimerXlib.cpp keep records in a linked list, take one out by its address, and
  walk the list calling every function whose time is past, starting over after each call because
  the function may have changed the list.

  How a fire time is computed, where a record is put and when a time is past differ, and are
  parameters here.  So are the callbacks: plan(n) is what the n-th function called does.
 */
module TimerWalk {
  // The address of a record is its identity; ids are not reused.  The closure stands for the function
  // and its data.
  datatype Record<T> = Record(id: nat, closure: nat, when: T)

  // What a caller, or a callback, does.
  datatype Action<A> =
    | Set(closure: nat, ask: A)
    | Clear(id: nat)

  // What the functions called do, in the order called.
  type Plan<A> = nat -> seq<Action<A>>

  // How a list computes the time of a record and where it puts it.
  datatype Kind<!A, !T> = Kind(time: A -> T, place: (seq<Record<T>>, T) -> nat)

  datatype State<T> = State(
    list: seq<Record<T>>,
    fired: seq<Record<T>>,   // functions called so far, oldest first
    cleared: set<nat>,       // ids a caller asked to clear
    issued: nat)             // how many ids were handed out

  function Start<T>(): State<T> {
    State([], [], {}, 0)
  }

  // ---------- The operations on the list ----------

  function Inserted<T>(list: seq<Record<T>>, t: Record<T>, k: nat): seq<Record<T>> {
    if k <= |list| then list[..k] + [t] + list[k..] else list + [t]
  }

  function Unlinked<T>(list: seq<Record<T>>, id: nat): seq<Record<T>> {
    if list == [] then [] else if list[0].id == id then list[1..] else [list[0]] + Unlinked(list[1..], id)
  }

  function Made<A, T>(kind: Kind<A, T>, s: State<T>, closure: nat, ask: A): Record<T> {
    Record(s.issued, closure, kind.time(ask))
  }

  function Done<A, T>(kind: Kind<A, T>, s: State<T>, a: Action<A>): State<T> {
    match a
    case Set(closure, ask) =>
      var t := Made(kind, s, closure, ask);
      s.(list := Inserted(s.list, t, kind.place(s.list, t.when)), issued := s.issued + 1)
    case Clear(id) => s.(list := Unlinked(s.list, id), cleared := s.cleared + {id})
  }

  function AllDone<A, T>(kind: Kind<A, T>, s: State<T>, actions: seq<Action<A>>): State<T>
    decreases |actions|
  {
    if actions == [] then s else AllDone(kind, Done(kind, s, actions[0]), actions[1..])
  }

  lemma InsertedMembers<T(!new)>(list: seq<Record<T>>, t: Record<T>, k: nat)
    ensures forall u :: u in Inserted(list, t, k) <==> u == t || u in list
  {
    if k <= |list| {
      assert list == list[..k] + list[k..];
    }
  }

  // What stands where after an insertion.
  lemma InsertedAt<T>(list: seq<Record<T>>, t: Record<T>, k: nat)
    requires k <= |list|
    ensures var r := Inserted(list, t, k);
      && |r| == |list| + 1 && r[k] == t
      && (forall i :: 0 <= i < k ==> r[i] == list[i])
      && (forall i {:trigger list[i]} :: k <= i < |list| ==> r[i + 1] == list[i])
      && (forall i {:trigger r[i]} :: k < i < |r| ==> r[i] == list[i - 1])
  {
    var r := Inserted(list, t, k);
    forall i {:trigger list[i]} | k <= i < |list|
      ensures r[i + 1] == list[i]
    {
      assert r[i + 1] == list[k..][i - k];
    }
  }

  lemma {:induction false} UnlinkedAt<T>(list: seq<Record<T>>, id: nat, k: nat)
    requires k <= |list| && (forall j :: 0 <= j < k ==> list[j].id != id)
    ensures k == |list| ==> Unlinked(list, id) == list
    ensures k < |list| && list[k].id == id ==> Unlinked(list, id) == list[..k] + list[k + 1..]
  {
    if k > 0 {
      UnlinkedAt(list[1..], id, k - 1);
      assert k < |list| ==> list[..k] == [list[0]] + list[1..][..k - 1];
    }
  }

  // Either no record has the id, or the first that has it is cut out.
  lemma UnlinkedCuts<T>(list: seq<Record<T>>, id: nat) returns (k: nat)
    ensures k <= |list| && forall j :: 0 <= j < k ==> list[j].id != id
    ensures Unlinked(list, id) == if k == |list| then list else list[..k] + list[k + 1..]
    ensures k < |list| ==> list[k].id == id && |Unlinked(list, id)| + 1 == |list|
    ensures var r := Unlinked(list, id);
      forall i {:trigger r[i]} :: 0 <= i < |r| ==> i < |list| && r[i] == list[if i < k then i else i + 1]
  {
    k := 0;
    while k < |list| && list[k].id != id
      invariant k <= |list| && forall j :: 0 <= j < k ==> list[j].id != id
    {
      k := k + 1;
    }
    UnlinkedAt(list, id, k);
    CutAt(list, k);
  }

  lemma CutAt<T>(xs: seq<T>, k: nat)
    ensures k < |xs| ==>
      var r := xs[..k] + xs[k + 1..];
      |r| + 1 == |xs| && forall i {:trigger r[i]} :: 0 <= i < |r| ==> r[i] == xs[if i < k then i else i + 1]
  {
  }

  // ---------- What holds of the ids ----------

  ghost predicate DistinctIds<T>(list: seq<Record<T>>) {
    forall i, j :: 0 <= i < j < |list| ==> list[i].id != list[j].id
  }

  ghost predicate Holds<T(!new)>(list: seq<Record<T>>, id: nat) {
    exists t :: t in list && t.id == id
  }

  ghost predicate Tidy<T(!new)>(s: State<T>) {
    DistinctIds(s.list) && forall t :: t in s.list ==> t.id < s.issued
  }

  // No function was called twice, and every record is listed, called or cleared.  The record whose
  // function is running, if any, is busy: called, and still listed.
  ghost predicate Accounted<T(!new)>(s: State<T>, busy: set<nat>) {
    && Tidy(s) && DistinctIds(s.fired)
    && (forall t :: t in s.list ==> t.id in busy || !Holds(s.fired, t.id))
    && (forall f :: f in s.fired ==> f.id < s.issued)
    && (forall id :: 0 <= id < s.issued ==> Holds(s.list, id) || Holds(s.fired, id) || id in s.cleared)
  }

  lemma UnlinkedMembers<T(!new)>(list: seq<Record<T>>, id: nat)
    requires DistinctIds(list)
    ensures forall u :: u in Unlinked(list, id) <==> u in list && u.id != id
    ensures DistinctIds(Unlinked(list, id))
  {
    hide Unlinked;
    var k := UnlinkedCuts(list, id);
    if k < |list| {
      assert list == list[..k] + [list[k]] + list[k + 1..];
    }
  }

  lemma DoneTidy<A, T(!new)>(kind: Kind<A, T>, s: State<T>, a: Action<A>)
    requires Tidy(s)
    ensures Tidy(Done(kind, s, a)) && s.issued <= Done(kind, s, a).issued
  {
    match a
    case Set(closure, ask) =>
      var t := Made(kind, s, closure, ask);
      InsertedMembers(s.list, t, kind.place(s.list, t.when));
    case Clear(id) =>
      UnlinkedMembers(s.list, id);
      assert forall u :: u in Unlinked(s.list, id) ==> u.id < s.issued;
  }

  // Setting and clearing, inside a callback too, lose no record.
  lemma DoneKeeps<A, T(!new)>(kind: Kind<A, T>, s: State<T>, a: Action<A>, busy: set<nat>)
    requires Accounted(s, busy) && (forall id :: id in busy ==> id < s.issued)
    ensures Accounted(Done(kind, s, a), busy) && Done(kind, s, a).fired == s.fired
  {
    var n := Done(kind, s, a);
    DoneTidy(kind, s, a);
    match a
    case Set(closure, ask) =>
      var t := Made(kind, s, closure, ask);
      InsertedMembers(s.list, t, kind.place(s.list, t.when));
      assert n.list == Inserted(s.list, t, kind.place(s.list, t.when)) && t in n.list;
      assert !Holds(s.fired, t.id);
      assert forall u :: u in n.list ==> u.id in busy || !Holds(n.fired, u.id);
    case Clear(id) =>
      UnlinkedMembers(s.list, id);
  }

  lemma {:induction false} AllDoneKeeps<A, T(!new)>(kind: Kind<A, T>, s: State<T>, actions: seq<Action<A>>,
                                                    busy: set<nat>)
    requires Accounted(s, busy) && (forall id :: id in busy ==> id < s.issued)
    ensures var n := AllDone(kind, s, actions);
      Accounted(n, busy) && n.fired == s.fired && s.issued <= n.issued
    decreases |actions|
  {
    if actions != [] {
      hide Accounted, Done;
      DoneKeeps(kind, s, actions[0], busy);
      IssuedGrows(kind, s, actions[0]);
      AllDoneKeeps(kind, Done(kind, s, actions[0]), actions[1..], busy);
    }
  }

  lemma IssuedGrows<A, T>(kind: Kind<A, T>, s: State<T>, a: Action<A>)
    ensures s.issued <= Done(kind, s, a).issued && Done(kind, s, a).fired == s.fired
  {
  }

  // ---------- The walk ----------

  // Calling the function of the i-th record and then taking the record out.
  function FiredAt<A, T>(kind: Kind<A, T>, s: State<T>, i: nat, plan: Plan<A>): State<T>
    requires i < |s.list|
  {
    var t := s.list[i];
    var after := AllDone(kind, s.(fired := s.fired + [t]), plan(|s.fired|));
    after.(list := Unlinked(after.list, t.id))
  }

  // One trip round the loop, wherever the walk stands, and any number of them.
  function Trip<A, T>(kind: Kind<A, T>, s: State<T>, i: nat, past: T -> bool, plan: Plan<A>): (State<T>, nat) {
    if i >= |s.list| then (s, i)
    else if past(s.list[i].when) then (FiredAt(kind, s, i, plan), 0)
    else (s, i + 1)
  }

  function Trips<A, T>(kind: Kind<A, T>, s: State<T>, i: nat, past: T -> bool, plan: Plan<A>, n: nat)
    : (State<T>, nat)
    decreases n
  {
    if n == 0 then (s, i)
    else
      var (t, j) := Trip(kind, s, i, past, plan);
      Trips(kind, t, j, past, plan, n - 1)
  }

  // Whether the loop has ended after n trips, and the state it has reached.
  predicate Ended<A, T>(kind: Kind<A, T>, s: State<T>, i: nat, past: T -> bool, plan: Plan<A>, n: nat) {
    var (r, j) := Trips(kind, s, i, past, plan, n);
    j >= |r.list|
  }

  function Pass<A, T>(kind: Kind<A, T>, s: State<T>, past: T -> bool, plan: Plan<A>, n: nat): State<T> {
    Trips(kind, s, 0, past, plan, n).0
  }

  // Once the loop has ended it stands, so the state a pass reaches does not depend on the count.
  lemma {:induction false} EndedStands<A, T>(kind: Kind<A, T>, s: State<T>, i: nat, past: T -> bool,
                                             plan: Plan<A>, n: nat, m: nat)
    requires Ended(kind, s, i, past, plan, n) && n <= m
    ensures Trips(kind, s, i, past, plan, m) == Trips(kind, s, i, past, plan, n)
    decreases m
  {
    if n == 0 {
      if m > 0 {
        EndedStands(kind, s, i, past, plan, 0, m - 1);
      }
    } else {
      var (t, j) := Trip(kind, s, i, past, plan);
      EndedStands(kind, t, j, past, plan, n - 1, m - 1);
    }
  }

  ghost predicate NonePast<T>(list: seq<Record<T>>, i: nat, past: T -> bool) {
    i <= |list| && forall j :: 0 <= j < i ==> !past(list[j].when)
  }

  lemma CalledKeeps<T(!new)>(s: State<T>, t: Record<T>)
    requires Accounted(s, {}) && t in s.list
    ensures Accounted(s.(fired := s.fired + [t]), {t.id})
  {
    var n := s.(fired := s.fired + [t]);
    assert forall f :: f in n.fired <==> f == t || f in s.fired;
    forall i | 0 <= i < |s.fired|
      ensures n.fired[i].id != t.id
    {
      assert n.fired[i] in s.fired;
    }
    forall k | 0 <= k < n.issued
      ensures Holds(n.list, k) || Holds(n.fired, k) || k in n.cleared
    {
      if Holds(s.fired, k) {
        var f :| f in s.fired && f.id == k;
        assert f in n.fired;
      }
    }
  }

  lemma UnlinkKeeps<T(!new)>(s: State<T>, t: Record<T>)
    requires Accounted(s, {t.id}) && t in s.fired
    ensures Accounted(s.(list := Unlinked(s.list, t.id)), {})
  {
    hide Unlinked;
    UnlinkedMembers(s.list, t.id);
    var n := s.(list := Unlinked(s.list, t.id));
    assert Tidy(n) && forall u :: u in n.list ==> !Holds(n.fired, u.id);
    forall k | 0 <= k < n.issued
      ensures Holds(n.list, k) || Holds(n.fired, k) || k in n.cleared
    {
      if k == t.id {
        assert t in n.fired;
      } else if Holds(s.list, k) {
        var u :| u in s.list && u.id == k;
        assert u in n.list;
      }
    }
  }

  lemma FiredAtKeeps<A, T(!new)>(kind: Kind<A, T>, s: State<T>, i: nat, plan: Plan<A>)
    requires Accounted(s, {}) && i < |s.list|
    ensures Accounted(FiredAt(kind, s, i, plan), {}) && FiredAt(kind, s, i, plan).fired == s.fired + [s.list[i]]
  {
    var t := s.list[i];
    assert t in s.list && t in s.fired + [t] && t.id < s.issued;
    hide Accounted, AllDone;
    CalledKeeps(s, t);
    AllDoneKeeps(kind, s.(fired := s.fired + [t]), plan(|s.fired|), {t.id});
    UnlinkKeeps(AllDone(kind, s.(fired := s.fired + [t]), plan(|s.fired|)), t);
  }

  // Functions were called from one state to another, and only for records whose time was past.
  ghost predicate CalledPast<T(!new)>(fired: seq<Record<T>>, later: seq<Record<T>>, past: T -> bool) {
    fired <= later && forall k :: |fired| <= k < |later| ==> past(later[k].when)
  }

  lemma CalledPastBefore<T(!new)>(fired: seq<Record<T>>, t: Record<T>, later: seq<Record<T>>, past: T -> bool)
    requires past(t.when) && CalledPast(fired + [t], later, past)
    ensures CalledPast(fired, later, past)
  {
    assert later[|fired|] == (fired + [t])[|fired|] == t;
  }

  // Whatever the callbacks do, at every trip all records are accounted for, what the walk has gone
  // past is not past, and what was called was.
  lemma {:induction false} TripsKeep<A, T(!new)>(kind: Kind<A, T>, s: State<T>, i: nat, past: T -> bool,
                                                 plan: Plan<A>, n: nat)
    requires Accounted(s, {}) && NonePast(s.list, i, past)
    ensures var (r, j) := Trips(kind, s, i, past, plan, n);
      Accounted(r, {}) && NonePast(r.list, j, past) && CalledPast(s.fired, r.fired, past)
    decreases n
  {
    if n > 0 {
      if i < |s.list| && past(s.list[i].when) {
        hide Accounted, FiredAt, CalledPast;
        FiredAtKeeps(kind, s, i, plan);
        var t := FiredAt(kind, s, i, plan);
        TripsKeep(kind, t, 0, past, plan, n - 1);
        CalledPastBefore(s.fired, s.list[i], Trips(kind, t, 0, past, plan, n - 1).0.fired, past);
      } else {
        hide Accounted, FiredAt, CalledPast;
        TripsKeep(kind, s, if i < |s.list| then i + 1 else i, past, plan, n - 1);
      }
    }
  }

  // So a pass that has ended leaves nothing past, has called only what was, nothing twice, and every
  // record is listed, called or cleared.
  lemma PassDrains<A, T(!new)>(kind: Kind<A, T>, s: State<T>, past: T -> bool, plan: Plan<A>, n: nat)
    requires Accounted(s, {}) && Ended(kind, s, 0, past, plan, n)
    ensures var r := Pass(kind, s, past, plan, n);
      && Accounted(r, {}) && CalledPast(s.fired, r.fired, past)
      && (forall t :: t in r.list ==> !past(t.when))
  {
    TripsKeep(kind, s, 0, past, plan, n);
  }

  // ---------- Who is called ----------

  ghost predicate Spares<A>(actions: seq<Action<A>>, id: nat) {
    forall i :: 0 <= i < |actions| ==> actions[i] != Clear(id)
  }

  lemma DoneSpares<A, T(!new)>(kind: Kind<A, T>, s: State<T>, a: Action<A>, t: Record<T>)
    requires Tidy(s) && t in s.list && a != Clear(t.id)
    ensures t in Done(kind, s, a).list
  {
    match a
    case Set(closure, ask) =>
      var u := Made(kind, s, closure, ask);
      InsertedMembers(s.list, u, kind.place(s.list, u.when));
    case Clear(id) => UnlinkedMembers(s.list, id);
  }

  lemma {:induction false} AllDoneSpares<A, T(!new)>(kind: Kind<A, T>, s: State<T>, actions: seq<Action<A>>,
                                                     t: Record<T>)
    requires Tidy(s) && t in s.list && Spares(actions, t.id)
    ensures t in AllDone(kind, s, actions).list
    decreases |actions|
  {
    if actions != [] {
      DoneSpares(kind, s, actions[0], t);
      DoneTidy(kind, s, actions[0]);
      assert Spares(actions[1..], t.id);
      AllDoneSpares(kind, Done(kind, s, actions[0]), actions[1..], t);
    }
  }

  lemma {:induction false} AllDoneTidy<A, T(!new)>(kind: Kind<A, T>, s: State<T>, actions: seq<Action<A>>)
    requires Tidy(s)
    ensures var n := AllDone(kind, s, actions); Tidy(n) && s.issued <= n.issued && n.fired == s.fired
    decreases |actions|
  {
    if actions != [] {
      hide Tidy;
      DoneTidy(kind, s, actions[0]);
      IssuedGrows(kind, s, actions[0]);
      AllDoneTidy(kind, Done(kind, s, actions[0]), actions[1..]);
    }
  }

  lemma FiredAtTidy<A, T(!new)>(kind: Kind<A, T>, s: State<T>, i: nat, plan: Plan<A>)
    requires Tidy(s) && i < |s.list|
    ensures var n := FiredAt(kind, s, i, plan);
      && Tidy(n) && n.fired == s.fired + [s.list[i]] && s.issued <= n.issued
      && forall t :: t in s.list && t.id != s.list[i].id && Spares(plan(|s.fired|), t.id) ==> t in n.list
  {
    var called := s.(fired := s.fired + [s.list[i]]);
    var after := AllDone(kind, called, plan(|s.fired|));
    AllDoneTidy(kind, called, plan(|s.fired|));
    UnlinkedMembers(after.list, s.list[i].id);
    forall t | t in s.list && t.id != s.list[i].id && Spares(plan(|s.fired|), t.id)
      ensures t in FiredAt(kind, s, i, plan).list
    {
      AllDoneSpares(kind, called, plan(|s.fired|), t);
    }
  }

  lemma {:induction false} TripsGrow<A, T(!new)>(kind: Kind<A, T>, s: State<T>, i: nat, past: T -> bool,
                                                 plan: Plan<A>, n: nat)
    requires Tidy(s)
    ensures s.fired <= Trips(kind, s, i, past, plan, n).0.fired
    decreases n
  {
    if n > 0 {
      hide Tidy, FiredAt;
      if i < |s.list| && past(s.list[i].when) {
        FiredAtTidy(kind, s, i, plan);
      }
      var (t, j) := Trip(kind, s, i, past, plan);
      TripsGrow(kind, t, j, past, plan, n - 1);
    }
  }

  lemma CalledStays<A, T(!new)>(kind: Kind<A, T>, s: State<T>, i: nat, past: T -> bool, plan: Plan<A>, n: nat)
    requires Tidy(s) && i < |s.list|
    ensures Holds(Trips(kind, FiredAt(kind, s, i, plan), 0, past, plan, n).0.fired, s.list[i].id)
  {
    var t, r := s.list[i], FiredAt(kind, s, i, plan);
    FiredAtTidy(kind, s, i, plan);
    TripsGrow(kind, r, 0, past, plan, n);
    assert r.fired[|s.fired|] == t && t in Trips(kind, r, 0, past, plan, n).0.fired;
  }

  lemma NotCalledYet<A, T(!new)>(kind: Kind<A, T>, s: State<T>, i: nat, plan: Plan<A>, t: Record<T>)
    requires Tidy(s) && i < |s.list| && t in s.list && s.list[i] != t
    requires !Holds(s.fired, t.id) && Spares(plan(|s.fired|), t.id)
    ensures var r := FiredAt(kind, s, i, plan); Tidy(r) && t in r.list && !Holds(r.fired, t.id)
  {
    FiredAtTidy(kind, s, i, plan);
    IdsApart(s.list);
    assert s.list[i] in s.list;
  }

  // Whatever else is listed, in whatever order, and whatever the callbacks do, a pass that ends calls
  // a record none of them clears exactly if its time is past.
  lemma {:induction false} TripsCall<A, T(!new)>(kind: Kind<A, T>, s: State<T>, i: nat, past: T -> bool,
                                                 plan: Plan<A>, n: nat, t: Record<T>)
    requires Tidy(s) && NonePast(s.list, i, past) && Ended(kind, s, i, past, plan, n)
    requires t in s.list && !Holds(s.fired, t.id) && forall k :: Spares(plan(k), t.id)
    ensures Holds(Trips(kind, s, i, past, plan, n).0.fired, t.id) <==> past(t.when)
    decreases n
  {
    hide Tidy, Holds, FiredAt, Spares;
    if i == |s.list| {
      EndedStands(kind, s, i, past, plan, 0, n);
    } else if !past(s.list[i].when) {
      TripsCall(kind, s, i + 1, past, plan, n - 1, t);
    } else if s.list[i] == t {
      CalledStays(kind, s, i, past, plan, n - 1);
    } else {
      NotCalledYet(kind, s, i, plan, t);
      TripsCall(kind, FiredAt(kind, s, i, plan), 0, past, plan, n - 1, t);
    }
  }

  // ---------- What a record carries ----------

  // A request for a record: the function's closure and what it was asked for with.
  datatype Request<A> = Request(closure: nat, ask: A)

  // The requests among all that callers and callbacks did, in the order made; the k-th gets id k.
  function Requests<A>(log: seq<Action<A>>): seq<Request<A>> {
    if log == [] then []
    else
      var last := log[|log| - 1];
      Requests(log[..|log| - 1]) + (if last.Set? then [Request(last.closure, last.ask)] else [])
  }

  // What the functions called do from one on up to another, as one list.
  function Between<A>(plan: Plan<A>, from: nat, to: nat): seq<Action<A>>
    decreases to - from
  {
    if from >= to then [] else plan(from) + Between(plan, from + 1, to)
  }

  // The record has the closure and the time of the request that got its id.
  ghost predicate Answers<A, T>(kind: Kind<A, T>, t: Record<T>, requests: seq<Request<A>>) {
    && t.id < |requests| && t.closure == requests[t.id].closure && t.when == kind.time(requests[t.id].ask)
  }

  // Ids were handed out in the order asked, every record listed or called carries what was asked for,
  // and those said to be cleared are those a caller asked to clear.
  ghost predicate Carries<A, T(!new)>(kind: Kind<A, T>, s: State<T>, log: seq<Action<A>>) {
    && s.issued == |Requests(log)|
    && (forall t :: t in s.list ==> Answers(kind, t, Requests(log)))
    && (forall t :: t in s.fired ==> Answers(kind, t, Requests(log)))
    && (forall id :: id in s.cleared <==> Clear(id) in log)
  }

  lemma OneMoreRequest<A>(log: seq<Action<A>>, a: Action<A>)
    ensures Requests(log + [a]) == Requests(log) + (if a.Set? then [Request(a.closure, a.ask)] else [])
  {
    assert (log + [a])[..|log|] == log;
  }

  lemma UnlinkedWithin<T(!new)>(list: seq<Record<T>>, id: nat)
    ensures forall u :: u in Unlinked(list, id) ==> u in list
  {
    hide Unlinked;
    var k := UnlinkedCuts(list, id);
    var r := Unlinked(list, id);
    assert forall i :: 0 <= i < |r| ==> r[i] == list[if i < k then i else i + 1];
  }

  lemma DoneCarries<A, T(!new)>(kind: Kind<A, T>, s: State<T>, a: Action<A>, log: seq<Action<A>>)
    requires Carries(kind, s, log)
    ensures Carries(kind, Done(kind, s, a), log + [a])
  {
    OneMoreRequest(log, a);
    assert forall t: Record<T> :: Answers(kind, t, Requests(log)) ==> Answers(kind, t, Requests(log + [a]));
    match a
    case Set(closure, ask) =>
      var t := Made(kind, s, closure, ask);
      InsertedMembers(s.list, t, kind.place(s.list, t.when));
    case Clear(id) => UnlinkedWithin(s.list, id);
  }

  lemma {:induction false} AllDoneCarries<A, T(!new)>(kind: Kind<A, T>, s: State<T>, actions: seq<Action<A>>,
                                                      log: seq<Action<A>>)
    requires Carries(kind, s, log)
    ensures Carries(kind, AllDone(kind, s, actions), log + actions) && AllDone(kind, s, actions).fired == s.fired
    decreases |actions|
  {
    hide Carries, Done;
    if actions == [] {
      assert log + actions == log;
    } else {
      DoneCarries(kind, s, actions[0], log);
      IssuedGrows(kind, s, actions[0]);
      AllDoneCarries(kind, Done(kind, s, actions[0]), actions[1..], log + [actions[0]]);
      assert log + [actions[0]] + actions[1..] == log + actions;
    }
  }

  lemma FiredAtCarries<A, T(!new)>(kind: Kind<A, T>, s: State<T>, i: nat, plan: Plan<A>, log: seq<Action<A>>)
    requires Carries(kind, s, log) && i < |s.list|
    ensures Carries(kind, FiredAt(kind, s, i, plan), log + plan(|s.fired|))
    ensures FiredAt(kind, s, i, plan).fired == s.fired + [s.list[i]]
  {
    var called := s.(fired := s.fired + [s.list[i]]);
    AllDoneCarries(kind, called, plan(|s.fired|), log);
    UnlinkedWithin(AllDone(kind, called, plan(|s.fired|)).list, s.list[i].id);
    hide Answers, AllDone, Unlinked, Requests;
  }

  // At every trip of a pass, whatever the functions called do.
  lemma {:induction false} TripsCarry<A, T(!new)>(kind: Kind<A, T>, s: State<T>, i: nat, past: T -> bool,
                                                  plan: Plan<A>, n: nat, log: seq<Action<A>>)
    requires Carries(kind, s, log)
    ensures var r := Trips(kind, s, i, past, plan, n).0;
      |s.fired| <= |r.fired| && Carries(kind, r, log + Between(plan, |s.fired|, |r.fired|))
    decreases n
  {
    hide Carries, FiredAt;
    if n == 0 {
      assert log + [] == log;
    } else if i < |s.list| && past(s.list[i].when) {
      FiredAtCarries(kind, s, i, plan, log);
      var t, own := FiredAt(kind, s, i, plan), plan(|s.fired|);
      TripsCarry(kind, t, 0, past, plan, n - 1, log + own);
      var rest := Between(plan, |t.fired|, |Trips(kind, t, 0, past, plan, n - 1).0.fired|);
      assert log + own + rest == log + (own + rest);
    } else {
      TripsCarry(kind, s, if i < |s.list| then i + 1 else i, past, plan, n - 1, log);
    }
  }

  // The record was issued, is not listed and was not called.
  ghost predicate Out<T(!new)>(s: State<T>, id: nat) {
    id < s.issued && !Holds(s.list, id) && !Holds(s.fired, id)
  }

  // Clearing a record not yet called takes it out ...
  lemma ClearedIsOut<A, T(!new)>(kind: Kind<A, T>, s: State<T>, id: nat)
    requires Tidy(s) && id < s.issued && !Holds(s.fired, id)
    ensures Out(Done(kind, s, Clear(id)), id)
  {
    UnlinkedMembers(s.list, id);
  }

  lemma {:induction false} AllDoneStaysOut<A, T(!new)>(kind: Kind<A, T>, s: State<T>, actions: seq<Action<A>>,
                                                       id: nat)
    requires Out(s, id)
    ensures Out(AllDone(kind, s, actions), id) && AllDone(kind, s, actions).fired == s.fired
    decreases |actions|
  {
    if actions != [] {
      var a := actions[0];
      if a.Set? {
        var t := Made(kind, s, a.closure, a.ask);
        InsertedMembers(s.list, t, kind.place(s.list, t.when));
      } else {
        UnlinkedWithin(s.list, a.id);
      }
      AllDoneStaysOut(kind, Done(kind, s, a), actions[1..], id);
    }
  }

  // ... and it is never called after that, whatever callbacks do.
  lemma {:induction false} TripsStayOut<A, T(!new)>(kind: Kind<A, T>, s: State<T>, i: nat, past: T -> bool,
                                                    plan: Plan<A>, n: nat, id: nat)
    requires Out(s, id)
    ensures Out(Trips(kind, s, i, past, plan, n).0, id)
    decreases n
  {
    if n > 0 {
      if i < |s.list| && past(s.list[i].when) {
        var called := s.(fired := s.fired + [s.list[i]]);
        assert s.list[i] in s.list;
        AllDoneStaysOut(kind, called, plan(|s.fired|), id);
        UnlinkedWithin(AllDone(kind, called, plan(|s.fired|)).list, s.list[i].id);
        hide AllDone, Unlinked;
        TripsStayOut(kind, FiredAt(kind, s, i, plan), 0, past, plan, n - 1, id);
      } else {
        TripsStayOut(kind, s, if i < |s.list| then i + 1 else i, past, plan, n - 1, id);
      }
    }
  }

  // ---------- When callbacks leave the list alone ----------

  function Fired<T>(list: seq<Record<T>>, past: T -> bool): seq<Record<T>> {
    if list == [] then [] else (if past(list[0].when) then [list[0]] else []) + Fired(list[1..], past)
  }

  function Left<T>(list: seq<Record<T>>, past: T -> bool): seq<Record<T>> {
    if list == [] then [] else (if past(list[0].when) then [] else [list[0]]) + Left(list[1..], past)
  }

  function QuietPass<T>(s: State<T>, past: T -> bool): State<T> {
    s.(list := Left(s.list, past), fired := s.fired + Fired(s.list, past))
  }

  // Every record whose time is past is called, and no other.
  lemma {:induction false} PassPartitions<T(!new)>(list: seq<Record<T>>, past: T -> bool)
    ensures forall t :: t in Fired(list, past) <==> t in list && past(t.when)
    ensures forall t :: t in Left(list, past) <==> t in list && !past(t.when)
    ensures |Fired(list, past)| + |Left(list, past)| == |list|
  {
    if list != [] {
      PassPartitions(list[1..], past);
      assert forall t :: t in list <==> t == list[0] || t in list[1..];
    }
  }

  lemma {:induction false} AllFired<T>(list: seq<Record<T>>, past: T -> bool)
    requires forall i :: 0 <= i < |list| ==> past(list[i].when)
    ensures Fired(list, past) == list
  {
    if list != [] {
      AllFired(list[1..], past);
    }
  }

  lemma {:induction false} FiredFirst<T>(list: seq<Record<T>>, past: T -> bool, k: nat)
    requires NonePast(list, k, past)
    ensures k == |list| ==> Fired(list, past) == [] && Left(list, past) == list
    ensures k < |list| && past(list[k].when) ==>
      var rest := list[..k] + list[k + 1..];
      Fired(list, past) == [list[k]] + Fired(rest, past) && Left(list, past) == Left(rest, past)
  {
    if k > 0 {
      FiredFirst(list[1..], past, k - 1);
      if k < |list| {
        var rest := list[..k] + list[k + 1..];
        assert rest[0] == list[0] && rest[1..] == list[1..][..k - 1] + list[1..][k..];
      }
    } else if |list| > 0 {
      assert list[..0] + list[1..] == list[1..];
    }
  }

  // Calling the i-th record and nothing else.
  function CutOut<T>(s: State<T>, i: nat): State<T>
    requires i < |s.list|
  {
    s.(fired := s.fired + [s.list[i]], list := s.list[..i] + s.list[i + 1..])
  }

  lemma QuietlyFiredAt<A, T>(kind: Kind<A, T>, s: State<T>, i: nat, plan: Plan<A>)
    requires i < |s.list| && DistinctIds(s.list) && plan(|s.fired|) == []
    ensures FiredAt(kind, s, i, plan) == CutOut(s, i) && DistinctIds(CutOut(s, i).list)
  {
    UnlinkedAt(s.list, s.list[i].id, i);
    CutAt(s.list, i);
  }

  lemma QuietlyCut<T>(s: State<T>, i: nat, past: T -> bool)
    requires NonePast(s.list, i, past)
    ensures i == |s.list| ==> QuietPass(s, past) == s
    ensures i < |s.list| && past(s.list[i].when) ==> QuietPass(CutOut(s, i), past) == QuietPass(s, past)
  {
    FiredFirst(s.list, past, i);
    hide Fired, Left;
    if i < |s.list| && past(s.list[i].when) {
      var t, rest := s.list[i], s.list[..i] + s.list[i + 1..];
      assert s.fired + ([t] + Fired(rest, past)) == (s.fired + [t]) + Fired(rest, past);
    } else {
      assert s.fired + [] == s.fired;
    }
  }

  // The walk that starts over after each call then comes to calling them in list order in one go.
  lemma {:induction false} QuietIsPass<A, T>(kind: Kind<A, T>, s: State<T>, i: nat, past: T -> bool,
                                             plan: Plan<A>) returns (n: nat)
    requires NonePast(s.list, i, past) && DistinctIds(s.list) && forall k :: plan(k) == []
    ensures Trips(kind, s, i, past, plan, n) == (QuietPass(s, past), |QuietPass(s, past).list|)
    decreases |s.list|, |s.list| - i
  {
    QuietlyCut(s, i, past);
    if i == |s.list| {
      n := 0;
    } else {
      hide QuietPass, FiredAt, DistinctIds;
      if past(s.list[i].when) {
        QuietlyFiredAt(kind, s, i, plan);
        n := QuietIsPass(kind, CutOut(s, i), 0, past, plan);
      } else {
        n := QuietIsPass(kind, s, i + 1, past, plan);
      }
      n := n + 1;
    }
  }

  // ---------- When a pass ends ----------

  ghost function Due<T(!new)>(list: seq<Record<T>>, past: T -> bool): set<nat> {
    set t | t in list && past(t.when) :: t.id
  }

  // Whether an action sets a record whose time is past as soon as it is set.
  function AtOnceOne<A, T>(kind: Kind<A, T>, a: Action<A>, past: T -> bool): nat {
    if a.Set? && past(kind.time(a.ask)) then 1 else 0
  }

  // How many records a function sets whose time is past as soon as they are set.
  function AtOnce<A, T>(kind: Kind<A, T>, actions: seq<Action<A>>, past: T -> bool): nat {
    if actions == [] then 0
    else AtOnceOne(kind, actions[0], past) + AtOnce(kind, actions[1..], past)
  }

  // What the next m functions called set so.
  function AtOnceFrom<A, T>(kind: Kind<A, T>, plan: Plan<A>, from: nat, m: nat, past: T -> bool): nat
    decreases m
  {
    if m == 0 then 0 else AtOnce(kind, plan(from), past) + AtOnceFrom(kind, plan, from + 1, m - 1, past)
  }

  predicate SetsOnly<A>(actions: seq<Action<A>>) {
    forall i :: 0 <= i < |actions| ==> actions[i].Set?
  }

  lemma DoneDue<A, T(!new)>(kind: Kind<A, T>, s: State<T>, a: Action<A>, past: T -> bool)
    requires Tidy(s)
    ensures Due(Done(kind, s, a).list, past) == match a
      case Set(closure, ask) => Due(s.list, past) + (if past(kind.time(ask)) then {s.issued} else {})
      case Clear(id) => Due(s.list, past) - {id}
    ensures s.issued !in Due(s.list, past)
  {
    match a
    case Set(closure, ask) =>
      var t := Made(kind, s, closure, ask);
      InsertedMembers(s.list, t, kind.place(s.list, t.when));
    case Clear(id) =>
      UnlinkedMembers(s.list, id);
      IdsApart(s.list);
  }

  lemma IdsApart<T(!new)>(list: seq<Record<T>>)
    requires DistinctIds(list)
    ensures forall t, u :: t in list && u in list && t.id == u.id ==> t == u
  {
  }

  // How many are due beside record id.
  ghost function Others<T(!new)>(list: seq<Record<T>>, past: T -> bool, id: nat): nat {
    |Due(list, past) - {id}|
  }

  lemma DoneOthers<A, T(!new)>(kind: Kind<A, T>, s: State<T>, a: Action<A>, past: T -> bool, id: nat)
    requires Tidy(s) && id < s.issued
    ensures Others(Done(kind, s, a).list, past, id) <= Others(s.list, past, id) + AtOnceOne(kind, a, past)
    ensures a.Set? ==> Others(Done(kind, s, a).list, past, id) == Others(s.list, past, id) + AtOnceOne(kind, a, past)
  {
    DoneDue(kind, s, a, past);
    hide Tidy, Done, Due;
    var d := Due(s.list, past);
    if a.Clear? {
      NoMore(d, a.id, id);
    } else {
      OneMore(d, s.issued, id);
      assert d + {} == d;
    }
  }

  lemma NoMore(d: set<nat>, x: nat, id: nat)
    ensures |d - {x} - {id}| <= |d - {id}|
  {
    var e := d - {id};
    assert d - {x} - {id} == e - {x};
    assert x in e ==> e == (e - {x}) + {x};
    assert x !in e ==> e - {x} == e;
  }

  lemma OneMore(d: set<nat>, x: nat, id: nat)
    requires x !in d && x != id
    ensures |d + {x} - {id}| == |d - {id}| + 1
  {
    assert d + {x} - {id} == d - {id} + {x};
  }

  // While the function of record id runs.
  lemma {:induction false} AllDoneOthers<A, T(!new)>(kind: Kind<A, T>, s: State<T>, actions: seq<Action<A>>,
                                                     past: T -> bool, id: nat)
    requires Tidy(s) && id < s.issued
    ensures var before, after := Others(s.list, past, id), Others(AllDone(kind, s, actions).list, past, id);
      && after <= before + AtOnce(kind, actions, past)
      && (SetsOnly(actions) ==> after == before + AtOnce(kind, actions, past))
    decreases |actions|
  {
    if actions != [] {
      var a, n := actions[0], Done(kind, s, actions[0]);
      DoneTidy(kind, s, a);
      DoneOthers(kind, s, a, past, id);
      AllDoneOthers(kind, n, actions[1..], past, id);
      hide Tidy, Others, Done, AllDone;
      assert AtOnce(kind, actions, past) == AtOnceOne(kind, a, past) + AtOnce(kind, actions[1..], past);
    }
  }

  // Each call takes one off what is due and adds what its function sets at once, less what that
  // function clears.
  lemma FiredAtDue<A, T(!new)>(kind: Kind<A, T>, s: State<T>, i: nat, past: T -> bool, plan: Plan<A>)
    requires Tidy(s) && i < |s.list| && past(s.list[i].when)
    ensures var n, more := FiredAt(kind, s, i, plan), AtOnce(kind, plan(|s.fired|), past);
      && |Due(n.list, past)| + 1 <= |Due(s.list, past)| + more
      && (SetsOnly(plan(|s.fired|)) ==> |Due(n.list, past)| + 1 == |Due(s.list, past)| + more)
  {
    var t := s.list[i];
    var called := s.(fired := s.fired + [t]);
    var after := AllDone(kind, called, plan(|s.fired|));
    AllDoneTidy(kind, called, plan(|s.fired|));
    AllDoneOthers(kind, called, plan(|s.fired|), past, t.id);
    UnlinkedMembers(after.list, t.id);
    IdsApart(after.list);
    assert Due(Unlinked(after.list, t.id), past) == Due(after.list, past) - {t.id};
    assert t.id in Due(s.list, past);
    assert |Due(s.list, past) - {t.id}| == |Due(s.list, past)| - 1;
  }

  ghost predicate Ends<A, T>(kind: Kind<A, T>, s: State<T>, past: T -> bool, plan: Plan<A>) {
    exists n :: Ended(kind, s, 0, past, plan, n)
  }

  // What is due and what the next m functions set at once is used up by calling m functions.
  ghost predicate UsedUp<A, T(!new)>(kind: Kind<A, T>, s: State<T>, past: T -> bool, plan: Plan<A>, m: nat) {
    |Due(s.list, past)| + AtOnceFrom(kind, plan, |s.fired|, m, past) <= m
  }

  // Then the pass ends, whatever else the callbacks do.
  lemma {:induction false} UsedUpEnds<A, T(!new)>(kind: Kind<A, T>, s: State<T>, i: nat, past: T -> bool,
                                                  plan: Plan<A>, m: nat) returns (n: nat)
    requires Tidy(s) && NonePast(s.list, i, past) && UsedUp(kind, s, past, plan, m)
    ensures Ended(kind, s, i, past, plan, n)
    decreases m, |s.list| - i
  {
    if i == |s.list| {
      n := 0;
    } else if past(s.list[i].when) {
      SomeDue(s.list, i, past);
      FiredAtTidy(kind, s, i, plan);
      FiredAtDue(kind, s, i, past, plan);
      n := UsedUpEnds(kind, FiredAt(kind, s, i, plan), 0, past, plan, m - 1);
      n := n + 1;
    } else {
      n := UsedUpEnds(kind, s, i + 1, past, plan, m);
      n := n + 1;
    }
  }

  lemma SomeDue<T(!new)>(list: seq<Record<T>>, i: nat, past: T -> bool)
    requires i < |list| && past(list[i].when)
    ensures |Due(list, past)| > 0
  {
    assert list[i] in list && list[i].id in Due(list, past);
  }

  // Between two states of a pass: what was due and what was set at once is what was called and what
  // is due still.
  ghost predicate Balanced<A, T(!new)>(kind: Kind<A, T>, s: State<T>, r: State<T>, past: T -> bool,
                                       plan: Plan<A>) {
    && |s.fired| <= |r.fired|
    && |Due(s.list, past)| + AtOnceFrom(kind, plan, |s.fired|, |r.fired| - |s.fired|, past)
       == |r.fired| - |s.fired| + |Due(r.list, past)|
  }

  lemma BalancedBefore<A, T(!new)>(kind: Kind<A, T>, s: State<T>, t: State<T>, r: State<T>, past: T -> bool,
                                   plan: Plan<A>)
    requires |t.fired| == |s.fired| + 1
    requires |Due(t.list, past)| + 1 == |Due(s.list, past)| + AtOnce(kind, plan(|s.fired|), past)
    requires Balanced(kind, t, r, past, plan)
    ensures Balanced(kind, s, r, past, plan)
  {
  }

  // When callbacks set and do not clear, the count is exact at every trip.
  lemma {:induction false} CallsCounted<A, T(!new)>(kind: Kind<A, T>, s: State<T>, i: nat, past: T -> bool,
                                                    plan: Plan<A>, n: nat)
    requires Tidy(s) && NonePast(s.list, i, past) && forall k :: SetsOnly(plan(k))
    ensures var (r, j) := Trips(kind, s, i, past, plan, n);
      NonePast(r.list, j, past) && Balanced(kind, s, r, past, plan)
    decreases n
  {
    assert Balanced(kind, s, s, past, plan);
    hide Tidy, Due, FiredAt, AtOnceFrom, SetsOnly, Balanced;
    if n == 0 {
      assert Trips(kind, s, i, past, plan, n) == (s, i);
    } else if i < |s.list| && past(s.list[i].when) {
      var t := FiredAt(kind, s, i, plan);
      FiredAtTidy(kind, s, i, plan);
      FiredAtDue(kind, s, i, past, plan);
      CallsCounted(kind, t, 0, past, plan, n - 1);
      BalancedBefore(kind, s, t, Trips(kind, t, 0, past, plan, n - 1).0, past, plan);
    } else {
      CallsCounted(kind, s, if i < |s.list| then i + 1 else i, past, plan, n - 1);
    }
  }

  // When callbacks set and do not clear, a pass ends if and only if after some number of calls what
  // was due and what those calls set at once is used up.
  lemma EndsExactly<A, T(!new)>(kind: Kind<A, T>, s: State<T>, past: T -> bool, plan: Plan<A>)
    requires Tidy(s) && forall k :: SetsOnly(plan(k))
    ensures Ends(kind, s, past, plan) <==> exists m :: UsedUp(kind, s, past, plan, m)
  {
    if n :| Ended(kind, s, 0, past, plan, n) {
      var (r, j) := Trips(kind, s, 0, past, plan, n);
      CallsCounted(kind, s, 0, past, plan, n);
      assert UsedUp(kind, s, past, plan, |r.fired| - |s.fired|);
    }
    if m :| UsedUp(kind, s, past, plan, m) {
      var n := UsedUpEnds(kind, s, 0, past, plan, m);
    }
  }

  lemma {:induction false} AtOnceSplits<A, T>(kind: Kind<A, T>, plan: Plan<A>, from: nat, a: nat, b: nat,
                                              past: T -> bool)
    ensures AtOnceFrom(kind, plan, from, a + b, past)
      == AtOnceFrom(kind, plan, from, a, past) + AtOnceFrom(kind, plan, from + a, b, past)
    decreases a
  {
    if a > 0 {
      AtOnceSplits(kind, plan, from + 1, a - 1, b, past);
    }
  }

  lemma {:induction false} NoneAtOnce<A, T>(kind: Kind<A, T>, plan: Plan<A>, from: nat, m: nat, past: T -> bool)
    requires forall k :: from <= k ==> AtOnce(kind, plan(k), past) == 0
    ensures AtOnceFrom(kind, plan, from, m, past) == 0
    decreases m
  {
    if m > 0 {
      NoneAtOnce(kind, plan, from + 1, m - 1, past);
    }
  }

  // So a pass ends once no function sets a record that is past at once any more ...
  lemma EndsWhenCalm<A, T(!new)>(kind: Kind<A, T>, s: State<T>, past: T -> bool, plan: Plan<A>, last: nat)
    requires Tidy(s) && forall k :: last <= k ==> AtOnce(kind, plan(k), past) == 0
    ensures Ends(kind, s, past, plan)
  {
    var due, early := |Due(s.list, past)|, AtOnceFrom(kind, plan, |s.fired|, last, past);
    AtOnceSplits(kind, plan, |s.fired|, last, due + early, past);
    NoneAtOnce(kind, plan, |s.fired| + last, due + early, past);
    assert UsedUp(kind, s, past, plan, last + (due + early));
    var n := UsedUpEnds(kind, s, 0, past, plan, last + (due + early));
  }

  // ... and one that does not end goes on meeting functions that do.
  lemma EndlessGoesOn<A, T(!new)>(kind: Kind<A, T>, s: State<T>, past: T -> bool, plan: Plan<A>, last: nat)
    requires Tidy(s) && !Ends(kind, s, past, plan)
    ensures exists k :: last <= k && AtOnce(kind, plan(k), past) > 0
  {
    if forall k :: last <= k ==> AtOnce(kind, plan(k), past) == 0 {
      EndsWhenCalm(kind, s, past, plan, last);
    }
  }

  // A pass that has something due never ends when each function sets at once at least one record and
  // clears none.
  lemma RearmingNeverEnds<A, T(!new)>(kind: Kind<A, T>, s: State<T>, past: T -> bool, plan: Plan<A>)
    requires Tidy(s) && |Due(s.list, past)| > 0
    requires forall k :: SetsOnly(plan(k)) && AtOnce(kind, plan(k), past) > 0
    ensures !Ends(kind, s, past, plan)
  {
    EndsExactly(kind, s, past, plan);
    forall m
      ensures !UsedUp(kind, s, past, plan, m)
    {
      AtLeastOneEach(kind, plan, |s.fired|, m, past);
    }
  }

  lemma {:induction false} AtLeastOneEach<A, T>(kind: Kind<A, T>, plan: Plan<A>, from: nat, m: nat, past: T -> bool)
    requires forall k :: AtOnce(kind, plan(k), past) > 0
    ensures AtOnceFrom(kind, plan, from, m, past) >= m
    decreases m
  {
    if m > 0 {
      AtLeastOneEach(kind, plan, from + 1, m - 1, past);
    }
  }

  // ---------- Runs ----------

  // A call, or a pass with the moment it goes by and the number of trips after which its loop has
  // ended.
  datatype Event<N, A> =
    | Call(action: Action<A>)
    | Drain(now: N, plan: Plan<A>, trips: nat)

  // past(now) says which times are past for a pass that goes by now.
  function Stepped<N, A, T>(kind: Kind<A, T>, past: N -> T -> bool, s: State<T>, e: Event<N, A>): State<T> {
    match e
    case Call(a) => Done(kind, s, a)
    case Drain(now, plan, trips) => Pass(kind, s, past(now), plan, trips)
  }

  function Run<N, A, T>(kind: Kind<A, T>, past: N -> T -> bool, s: State<T>, events: seq<Event<N, A>>): State<T>
    decreases |events|
  {
    if events == [] then s else Run(kind, past, Stepped(kind, past, s, events[0]), events[1..])
  }

  lemma SteppedKeeps<N, A, T(!new)>(kind: Kind<A, T>, past: N -> T -> bool, s: State<T>, e: Event<N, A>)
    requires Accounted(s, {})
    ensures Accounted(Stepped(kind, past, s, e), {})
  {
    match e
    case Call(a) => DoneKeeps(kind, s, a, {});
    case Drain(now, plan, trips) => TripsKeep(kind, s, 0, past(now), plan, trips);
  }

  lemma {:induction false} RunAccounted<N, A, T(!new)>(kind: Kind<A, T>, past: N -> T -> bool, s: State<T>,
                                                       events: seq<Event<N, A>>)
    requires Accounted(s, {})
    ensures Accounted(Run(kind, past, s, events), {})
    decreases |events|
  {
    if events != [] {
      hide Accounted, Stepped;
      SteppedKeeps(kind, past, s, events[0]);
      RunAccounted(kind, past, Stepped(kind, past, s, events[0]), events[1..]);
    }
  }

  // All that callers and the functions called did, in the order done: read off the events, each
  // pass's functions as many as it called.
  function Happened<N, A, T>(kind: Kind<A, T>, past: N -> T -> bool, s: State<T>, events: seq<Event<N, A>>)
    : seq<Action<A>>
    decreases |events|
  {
    if events == [] then []
    else
      var t := Stepped(kind, past, s, events[0]);
      HappenedIn(events[0], |s.fired|, |t.fired|) + Happened(kind, past, t, events[1..])
  }

  // What happens in one event, given how many functions were called before and after it.
  function HappenedIn<N, A>(e: Event<N, A>, from: nat, to: nat): seq<Action<A>> {
    match e
    case Call(a) => [a]
    case Drain(_, plan, _) => Between(plan, from, to)
  }

  lemma SteppedCarries<N, A, T(!new)>(kind: Kind<A, T>, past: N -> T -> bool, s: State<T>, e: Event<N, A>,
                                      log: seq<Action<A>>)
    requires Carries(kind, s, log)
    ensures var t := Stepped(kind, past, s, e); Carries(kind, t, log + HappenedIn(e, |s.fired|, |t.fired|))
  {
    match e
    case Call(a) => DoneCarries(kind, s, a, log);
    case Drain(now, plan, trips) => TripsCarry(kind, s, 0, past(now), plan, trips, log);
  }

  // Over every run each record carries what was asked for.
  lemma {:induction false} RunCarries<N, A, T(!new)>(kind: Kind<A, T>, past: N -> T -> bool, s: State<T>,
                                                     events: seq<Event<N, A>>, log: seq<Action<A>>)
    requires Carries(kind, s, log)
    ensures Carries(kind, Run(kind, past, s, events), log + Happened(kind, past, s, events))
    decreases |events|
  {
    hide Carries, Stepped, HappenedIn;
    if events == [] {
      assert log + [] == log;
    } else {
      var t := Stepped(kind, past, s, events[0]);
      var own := HappenedIn(events[0], |s.fired|, |t.fired|);
      SteppedCarries(kind, past, s, events[0], log);
      RunCarries(kind, past, t, events[1..], log + own);
      var rest := Happened(kind, past, t, events[1..]);
      assert log + own + rest == log + (own + rest);
    }
  }

  // Over every run, a record cleared before it was called is never called.
  lemma {:induction false} RunStaysOut<N, A, T(!new)>(kind: Kind<A, T>, past: N -> T -> bool, s: State<T>,
                                                      events: seq<Event<N, A>>, id: nat)
    requires Out(s, id)
    ensures Out(Run(kind, past, s, events), id)
    decreases |events|
  {
    if events != [] {
      match events[0] {
        case Call(a) =>
          AllDoneStaysOut(kind, s, [a], id);
          assert AllDone(kind, s, [a]) == Done(kind, s, a);
        case Drain(now, plan, trips) => TripsStayOut(kind, s, 0, past(now), plan, trips, id);
      }
      hide Out, Stepped;
      RunStaysOut(kind, past, Stepped(kind, past, s, events[0]), events[1..], id);
    }
  }

  lemma ClearedNeverCalled<N, A, T(!new)>(kind: Kind<A, T>, past: N -> T -> bool, before: seq<Event<N, A>>, id: nat,
                                          rest: seq<Event<N, A>>)
    requires var s := Run(kind, past, Start(), before); id < s.issued && !Holds(s.fired, id)
    ensures Out(Run(kind, past, Done(kind, Run(kind, past, Start(), before), Clear(id)), rest), id)
  {
    var s := Run(kind, past, Start(), before);
    RunAccounted(kind, past, Start(), before);
    ClearedIsOut(kind, s, id);
    RunStaysOut(kind, past, Done(kind, s, Clear(id)), rest, id);
  }
}
