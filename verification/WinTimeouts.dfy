/**
  The timeout scheduler promised by include/fe_proto.h, as modules/libimg/src/xpcompat.cpp builds
  it for Windows: a list of WinTime records kept in order of fire time.  (That code is compiled
  out there; it is the one implementation in the repository that follows the three guarantees.)

  FE_SetTimeout, FE_ClearTimeout and wfe_ProcessTimeouts come from that code.  The guarantees A
  (timeouts never fail to trigger), B (not before their timestamp) and C (in the order of their
  timestamps) are the documented contract.  GetTickCount and the callbacks are parameters; a
  callback may set and clear timeouts.  SyncTimeoutPeriod, which talks to the operating system's
  timer, is not modelled.
 */
module WinTimeouts {
  import opened TimerWalk

  const DWORD: nat := 0x1_0000_0000

  type Dword = n: nat | n < DWORD

  // What FE_SetTimeout is given and the tick count it reads.
  datatype Asked = Asked(msecs: Dword, tick: Dword)

  type WinTime = Record<Dword>

  function FireTime(ask: Asked): Dword {
    (ask.msecs + ask.tick) % DWORD
  }

  // Behind every record that fires no later.
  function Place(list: seq<WinTime>, f: Dword): nat {
    if list == [] || f < list[0].when then 0 else 1 + Place(list[1..], f)
  }

  const WIN: Kind<Asked, Dword> := Kind((ask: Asked) => FireTime(ask), (list: seq<WinTime>, f: Dword) => Place(list, f))

  function Past(now: Dword): Dword -> bool {
    (f: Dword) => f < now
  }

  lemma {:induction false} PlaceStops(list: seq<WinTime>, f: Dword)
    ensures var k := Place(list, f);
      && k <= |list| && (forall i :: 0 <= i < k ==> list[i].when <= f) && (k < |list| ==> f < list[k].when)
  {
    if list != [] && !(f < list[0].when) {
      PlaceStops(list[1..], f);
    }
  }

  lemma PlaceAt(list: seq<WinTime>, f: Dword, k: nat)
    requires k <= |list| && (forall i :: 0 <= i < k ==> list[i].when <= f) && (k == |list| || f < list[k].when)
    ensures Place(list, f) == k
  {
    PlaceStops(list, f);
  }

  // ---------- Order ----------

  // By timestamp; among equal timestamps, by when they were set.
  predicate Earlier(a: WinTime, b: WinTime) {
    a.when < b.when || (a.when == b.when && a.id < b.id)
  }

  ghost predicate Sorted(list: seq<WinTime>) {
    forall i, j :: 0 <= i < j < |list| ==> Earlier(list[i], list[j])
  }

  // The list is in order; functions were called in order, after their timestamps; nothing listed
  // fires before something already called, unless it is the record whose function is running.
  ghost predicate Ordered(s: State<Dword>, now: Dword) {
    && Sorted(s.list) && Sorted(s.fired)
    && (forall f :: f in s.fired ==> f.when < now)
    && (forall f, t :: f in s.fired && t in s.list ==> f == t || Earlier(f, t))
  }

  ghost predicate Good(s: State<Dword>, now: Dword, busy: set<nat>) {
    Accounted(s, busy) && Ordered(s, now)
  }

  // The clock has not run back, nor past what a DWORD can count.
  predicate InRange(a: Action<Asked>, now: Dword) {
    a.Set? ==> now <= a.ask.tick && a.ask.tick + a.ask.msecs < DWORD
  }

  ghost predicate AllInRange(actions: seq<Action<Asked>>, now: Dword) {
    forall i :: 0 <= i < |actions| ==> InRange(actions[i], now)
  }

  // What the n-th function called does, all calls being made no earlier than now.
  ghost predicate Calm(plan: Plan<Asked>, now: Dword) {
    forall n :: AllInRange(plan(n), now)
  }

  lemma InsertedSorted(list: seq<WinTime>, t: WinTime)
    requires Sorted(list) && forall u :: u in list ==> u.id < t.id
    ensures Sorted(Inserted(list, t, Place(list, t.when)))
  {
    hide Inserted, Place;
    PlaceStops(list, t.when);
    InsertedAt(list, t, Place(list, t.when));
    assert forall i :: 0 <= i < |list| ==> list[i] in list;
  }

  lemma CutSorted(list: seq<WinTime>, id: nat)
    requires Sorted(list)
    ensures Sorted(Unlinked(list, id)) && forall u :: u in Unlinked(list, id) ==> u in list
  {
    hide Unlinked;
    var k := UnlinkedCuts(list, id);
    var r := Unlinked(list, id);
    assert forall i :: 0 <= i < |r| ==> r[i] == list[if i < k then i else i + 1];
  }

  lemma DoneOrdered(s: State<Dword>, a: Action<Asked>, now: Dword)
    requires Ordered(s, now) && InRange(a, now) && forall u :: u in s.list ==> u.id < s.issued
    ensures Ordered(Done(WIN, s, a), now)
  {
    match a
    case Set(closure, ask) =>
      var t: WinTime := Record(s.issued, closure, FireTime(ask));
      InsertedSorted(s.list, t);
      InsertedMembers(s.list, t, Place(s.list, t.when));
    case Clear(id) => CutSorted(s.list, id);
  }

  // Setting and clearing keep all of it, inside a callback too.
  lemma DoneGood(s: State<Dword>, a: Action<Asked>, now: Dword, busy: set<nat>)
    requires Good(s, now, busy) && InRange(a, now) && (forall id :: id in busy ==> id < s.issued)
    ensures Good(Done(WIN, s, a), now, busy)
  {
    DoneKeeps(WIN, s, a, busy);
    DoneOrdered(s, a, now);
  }

  lemma {:induction false} AllDoneGood(s: State<Dword>, actions: seq<Action<Asked>>, now: Dword, busy: set<nat>)
    requires Good(s, now, busy) && AllInRange(actions, now) && (forall id :: id in busy ==> id < s.issued)
    ensures Good(AllDone(WIN, s, actions), now, busy) && AllDone(WIN, s, actions).fired == s.fired
    decreases |actions|
  {
    if actions != [] {
      hide Good, Done;
      DoneGood(s, actions[0], now, busy);
      IssuedGrows(WIN, s, actions[0]);
      AllDoneGood(Done(WIN, s, actions[0]), actions[1..], now, busy);
    }
  }

  lemma UnlinkGood(s: State<Dword>, t: WinTime, now: Dword)
    requires Good(s, now, {t.id}) && t in s.fired
    ensures Good(s.(list := Unlinked(s.list, t.id)), now, {})
  {
    UnlinkKeeps(s, t);
    CutSorted(s.list, t.id);
  }

  // In an ordered list the first record found due is the head.
  lemma DueFirst(s: State<Dword>, i: nat, now: Dword)
    requires Ordered(s, now) && i < |s.list| && s.list[i].when < now && NonePast(s.list, i, Past(now))
    ensures i == 0
  {
    assert i > 0 ==> Earlier(s.list[0], s.list[i]);
  }

  // Calling a due function, with whatever it sets and clears, and taking its record out.
  lemma FiredAtGood(s: State<Dword>, i: nat, now: Dword, plan: Plan<Asked>)
    requires Good(s, now, {}) && Calm(plan, now)
    requires i < |s.list| && s.list[i].when < now && NonePast(s.list, i, Past(now))
    ensures Good(FiredAt(WIN, s, i, plan), now, {}) && FiredAt(WIN, s, i, plan).fired == s.fired + [s.list[i]]
  {
    DueFirst(s, i, now);
    var t := s.list[0];
    assert t in s.list && t in s.fired + [t] && t.id < s.issued;
    hide Good, AllDone;
    AllDoneGood(s.(fired := s.fired + [t]), plan(|s.fired|), now, {t.id});
    UnlinkGood(AllDone(WIN, s.(fired := s.fired + [t]), plan(|s.fired|)), t, now);
  }

  // At every trip of a pass the order holds; when the loop has ended nothing due is left.
  lemma {:induction false} TripsGood(s: State<Dword>, i: nat, now: Dword, plan: Plan<Asked>, n: nat)
    requires Good(s, now, {}) && Calm(plan, now) && NonePast(s.list, i, Past(now))
    ensures var (r, j) := Trips(WIN, s, i, Past(now), plan, n);
      Good(r, now, {}) && s.fired <= r.fired && NonePast(r.list, j, Past(now))
    decreases n
  {
    if n > 0 {
      hide Good, Calm, FiredAt;
      if i < |s.list| && s.list[i].when < now {
        FiredAtGood(s, i, now, plan);
        TripsGood(FiredAt(WIN, s, i, plan), 0, now, plan, n - 1);
      } else {
        var (t, j) := Trip(WIN, s, i, Past(now), plan);
        TripsGood(t, j, now, plan, n - 1);
      }
    }
  }

  // ---------- Whether a pass ends ----------

  // A timeout set during a pass is due in that pass exactly if its sum runs over and past the tick
  // the pass goes by.
  lemma SamePassExactly(ask: Asked, now: Dword)
    requires now <= ask.tick
    ensures Past(now)(FireTime(ask)) <==> ask.tick + ask.msecs >= DWORD && ask.tick + ask.msecs - DWORD < now
  {
    TimestampWraps(ask);
  }

  lemma {:induction false} NoneDueAtOnce(actions: seq<Action<Asked>>, now: Dword)
    requires AllInRange(actions, now)
    ensures AtOnce(WIN, actions, Past(now)) == 0
  {
    if actions != [] {
      assert InRange(actions[0], now);
      if actions[0].Set? {
        SamePassExactly(actions[0].ask, now);
      }
      assert forall i :: 0 <= i < |actions[1..]| ==> InRange(actions[1..][i], now);
      NoneDueAtOnce(actions[1..], now);
    }
  }

  // So as long as the sums fit, every pass ends.
  lemma PassEnds(s: State<Dword>, now: Dword, plan: Plan<Asked>)
    requires Tidy(s) && Calm(plan, now)
    ensures Ends(WIN, s, Past(now), plan)
  {
    forall k: nat
      ensures AtOnce(WIN, plan(k), Past(now)) == 0
    {
      NoneDueAtOnce(plan(k), now);
    }
    EndsWhenCalm(WIN, s, Past(now), plan, 0);
  }

  // ---------- Runs ----------

  type Event = TimerWalk.Event<Dword, Asked>

  function ClockThen(clock: Dword, e: Event): Dword {
    match e
    case Call(a) => if a.Set? then a.ask.tick else clock
    case Drain(now, _, _) => now
  }

  function Stepped(s: State<Dword>, e: Event): State<Dword> {
    TimerWalk.Stepped(WIN, Past, s, e)
  }

  function Run(s: State<Dword>, events: seq<Event>): State<Dword> {
    TimerWalk.Run(WIN, Past, s, events)
  }

  function ClockAfter(clock: Dword, events: seq<Event>): Dword
    decreases |events|
  {
    if events == [] then clock else ClockAfter(ClockThen(clock, events[0]), events[1..])
  }

  // The clock does not go back and no sum runs over.
  ghost predicate LegalStep(s: State<Dword>, clock: Dword, e: Event) {
    match e
    case Call(a) => InRange(a, clock)
    case Drain(now, plan, trips) => clock <= now && Calm(plan, now) && Ended(WIN, s, 0, Past(now), plan, trips)
  }

  ghost predicate Legal(s: State<Dword>, clock: Dword, events: seq<Event>)
    decreases |events|
  {
    events == [] || (
      && LegalStep(s, clock, events[0])
      && Legal(Stepped(s, events[0]), ClockThen(clock, events[0]), events[1..]))
  }

  lemma SteppedGood(s: State<Dword>, clock: Dword, e: Event)
    requires Good(s, clock, {}) && LegalStep(s, clock, e)
    ensures Good(Stepped(s, e), ClockThen(clock, e), {})
  {
    match e
    case Call(a) =>
      DoneGood(s, a, clock, {});
    case Drain(now, plan, trips) =>
      TripsGood(s, 0, now, plan, trips);
  }

  // B and C over whole runs, callbacks that set timeouts included: at every moment each function
  // called so far was called once, in the order of the timestamps and among equal ones in the order
  // set, and after its timestamp.
  lemma {:induction false} RunKeeps(s: State<Dword>, clock: Dword, events: seq<Event>)
    requires Good(s, clock, {}) && Legal(s, clock, events)
    ensures Good(Run(s, events), ClockAfter(clock, events), {})
    decreases |events|
  {
    if events != [] {
      hide Good, LegalStep, Stepped;
      SteppedGood(s, clock, events[0]);
      RunKeeps(Stepped(s, events[0]), ClockThen(clock, events[0]), events[1..]);
    }
  }

  lemma TimeoutsInOrder(events: seq<Event>)
    requires Legal(Start(), 0, events)
    ensures var s := Run(Start(), events);
      && Sorted(s.fired) && DistinctIds(s.fired)
      && forall f :: f in s.fired ==> f.when < ClockAfter(0, events)
  {
    RunKeeps(Start(), 0, events);
  }

  // A: a timeout that no caller cleared has been called once a drain after its timestamp is complete;
  // the ones still listed are not due.
  lemma UnclearedFires(events: seq<Event>, now: Dword, plan: Plan<Asked>, trips: nat, id: nat)
    requires Legal(Start(), 0, events)
    requires LegalStep(Run(Start(), events), ClockAfter(0, events), Drain(now, plan, trips))
    ensures var n := Pass(WIN, Run(Start(), events), Past(now), plan, trips);
      id < n.issued && id !in n.cleared ==>
        Holds(n.fired, id) || exists t :: t in n.list && t.id == id && now <= t.when
  {
    RunKeeps(Start(), 0, events);
    PassDrains(WIN, Run(Start(), events), Past(now), plan, trips);
  }

  // ---------- What is called, and with what ----------

  // Over every run, in range or not: the k-th timeout asked for, by a caller or inside a callback,
  // gets id k, and is listed and called with the closure and the time of that request; an id counts
  // as cleared exactly if someone asked to clear it.
  lemma CalledWithItsClosure(events: seq<Event>, t: WinTime)
    ensures var s, log := Run(Start(), events), Happened(WIN, Past, Start(), events);
      && s.issued == |Requests(log)|
      && (t in s.list || t in s.fired ==>
            && t.id < |Requests(log)|
            && t.closure == Requests(log)[t.id].closure && t.when == FireTime(Requests(log)[t.id].ask))
      && (t.id in s.cleared <==> Clear(t.id) in log)
  {
    RunCarries(WIN, Past, Start(), events, []);
    assert [] + Happened(WIN, Past, Start(), events) == Happened(WIN, Past, Start(), events);
  }

  // ---------- What 32 bits do to the guarantees ----------

  // The timestamp kept is the one asked for exactly when the sum fits a DWORD; otherwise it lies in
  // the past already.
  lemma TimestampWraps(ask: Asked)
    ensures FireTime(ask) == ask.tick + ask.msecs <==> ask.tick + ask.msecs < DWORD
    ensures FireTime(ask) < ask.tick <==> ask.tick + ask.msecs >= DWORD
    ensures ask.tick + ask.msecs >= DWORD ==> FireTime(ask) == ask.tick + ask.msecs - DWORD
  {
    if ask.tick + ask.msecs >= DWORD {
      assert (ask.msecs + ask.tick) % DWORD == ask.msecs + ask.tick - DWORD;
    }
  }

  // Guarantee B then fails: among any other timeouts, one just set is called by a drain at that very
  // tick, unless a callback clears it, exactly when the sum does not fit.
  lemma CalledAtOnceExactly(s: State<Dword>, closure: nat, ask: Asked, plan: Plan<Asked>, trips: nat)
    requires Tidy(s) && !Holds(s.fired, s.issued) && forall k :: Spares(plan(k), s.issued)
    requires Ended(WIN, Done(WIN, s, Set(closure, ask)), 0, Past(ask.tick), plan, trips)
    ensures Holds(Pass(WIN, Done(WIN, s, Set(closure, ask)), Past(ask.tick), plan, trips).fired, s.issued)
      <==> ask.tick + ask.msecs >= DWORD
  {
    TimestampWraps(ask);
    var t: WinTime := Record(s.issued, closure, FireTime(ask));
    DoneTidy(WIN, s, Set(closure, ask));
    InsertedMembers(s.list, t, Place(s.list, t.when));
    TripsCall(WIN, Done(WIN, s, Set(closure, ask)), 0, Past(ask.tick), plan, trips, t);
  }

  // A pass at that tick, whose functions do not clear the record, calls it.
  ghost predicate Calls(s: State<Dword>, now: Dword, plan: Plan<Asked>, trips: nat, id: nat) {
    && (forall k :: Spares(plan(k), id))
    && Ended(WIN, s, 0, Past(now), plan, trips)
    && Holds(Pass(WIN, s, Past(now), plan, trips).fired, id)
  }

  // Guarantee A needs a tick that is later than the timestamp, and a DWORD has none after its last:
  // a listed record can still be called if and only if its timestamp is not the last tick there is.
  lemma EverCalledExactly(s: State<Dword>, clock: Dword, t: WinTime)
    requires Tidy(s) && t in s.list && !Holds(s.fired, t.id)
    ensures (exists now: Dword, plan: Plan<Asked>, trips: nat :: clock <= now && Calls(s, now, plan, trips, t.id))
      <==> t.when < DWORD - 1
  {
    forall now: Dword, plan: Plan<Asked>, trips: nat | Calls(s, now, plan, trips, t.id)
      ensures t.when < DWORD - 1
    {
      TripsCall(WIN, s, 0, Past(now), plan, trips, t);
    }
    var now: Dword := DWORD - 1;
    var quiet: Plan<Asked> := _ => [];
    var trips := QuietIsPass(WIN, s, 0, Past(now), quiet);
    TripsCall(WIN, s, 0, Past(now), quiet, trips, t);
    assert t.when < DWORD - 1 ==> Calls(s, now, quiet, trips, t.id);
  }

  // ---------- The list, updated in place ----------

  class TimeoutList {
    var list: seq<WinTime>
    var fired: seq<WinTime>
    var cleared: set<nat>
    var issued: nat

    function View(): State<Dword>
      reads this
    {
      State(list, fired, cleared, issued)
    }

    constructor ()
      ensures View() == Start()
    {
      list, fired, cleared, issued := [], [], {}, 0;
    }

    method FE_SetTimeout(closure: nat, msecs: Dword, tick: Dword) returns (id: nat)
      modifies this
      ensures View() == Done(WIN, old(View()), Set(closure, Asked(msecs, tick))) && id == old(issued)
    {
      id := issued;
      issued := issued + 1;
      var t: WinTime := Record(id, closure, FireTime(Asked(msecs, tick)));
      ghost var was := list;
      if list == [] {
        list := [t];
      } else if t.when < list[0].when {
        list := [t] + list;
      } else {
        var prev, current := 0, 0;
        while current < |list| && list[current].when <= t.when
          invariant 0 <= current <= |list| && prev == (if current == 0 then 0 else current - 1)
          invariant forall j :: 0 <= j < current ==> list[j].when <= t.when
        {
          prev := current;
          current := current + 1;
        }
        PlaceAt(list, t.when, current);
        list := list[..prev + 1] + [t] + list[prev + 1..];
      }
      assert list == Inserted(was, t, Place(was, t.when));
    }

    // Takes the record out; a record that is not listed is left alone.
    method Unlink(id: nat)
      modifies `list
      ensures list == Unlinked(old(list), id)
    {
      if list != [] && list[0].id == id {
        list := list[1..];
      } else {
        var p := 0;
        while p + 1 < |list| && list[p + 1].id != id
          invariant 0 <= p && (list != [] ==> p < |list|)
          invariant forall j :: 0 <= j <= p && j < |list| ==> list[j].id != id
          decreases |list| - p
        {
          p := p + 1;
        }
        UnlinkedAt(list, id, if list == [] then 0 else p + 1);
        if p + 1 < |list| {
          list := list[..p + 1] + list[p + 2..];
        }
      }
    }

    method FE_ClearTimeout(id: nat)
      modifies this
      ensures View() == Done(WIN, old(View()), Clear(id))
    {
      Unlink(id);
      cleared := cleared + {id};
    }

    method RunFunction(actions: seq<Action<Asked>>)
      modifies this
      ensures View() == AllDone(WIN, old(View()), actions)
    {
      for i := 0 to |actions|
        invariant AllDone(WIN, View(), actions[i..]) == AllDone(WIN, old(View()), actions)
      {
        match actions[i] {
          case Set(closure, ask) => var _ := FE_SetTimeout(closure, ask.msecs, ask.tick);
          case Clear(id) => FE_ClearTimeout(id);
        }
        assert actions[i..][1..] == actions[i + 1..];
      }
    }

    // The loop of any pass that ends, after however many trips.
    method ProcessTimeouts(now: Dword, plan: Plan<Asked>, ghost trips: nat)
      requires Ended(WIN, View(), 0, Past(now), plan, trips)
      modifies this
      ensures View() == Pass(WIN, old(View()), Past(now), plan, trips)
    {
      hide AllDone;
      var p := 0;
      ghost var left := trips;
      while p < |list|
        invariant p <= |list|
        invariant Trips(WIN, View(), p, Past(now), plan, left) == Trips(WIN, old(View()), 0, Past(now), plan, trips)
        invariant Ended(WIN, View(), p, Past(now), plan, left)
        decreases left
      {
        if list[p].when < now {
          var t := list[p];
          fired := fired + [t];
          RunFunction(plan(|fired| - 1));
          Unlink(t.id);
          p := 0;
        } else {
          p := p + 1;
        }
        left := left - 1;
      }
      EndedStands(WIN, View(), p, Past(now), plan, 0, left);
    }
  }
}
