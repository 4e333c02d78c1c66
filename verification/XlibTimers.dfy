/**
  The timer list of base/src/xlib/nsTimerXlib.cpp, the live implementation behind timeouts on Xlib,
  measured against the guarantees of include/fe_proto.h.

  TimerImpl::Init, TimerImpl::Cancel and TimerImpl::ProcessTimeouts come from the code.  Init
  computes the fire time field by field, does not carry microseconds into seconds, multiplies in 32
  bits, and compares seconds and microseconds separately when it looks for a place in the list.  So
  the guarantees hold only under conditions, and the lemmas below say exactly which.

  A timer keeps, beside the time the code stores, the moment it is due: start plus delay.  That
  moment is the nominal timestamp the guarantees speak of; the code never computes it.  The width of
  a C long, the clock and the callbacks are parameters; a callback may set and cancel timers.
 */
module XlibTimers {
  import opened TimerWalk

  const MILLION: nat := 1_000_000
  const UINT32: nat := 0x1_0000_0000

  datatype Long = Bits32 | Bits64

  datatype TimeVal = TimeVal(sec: nat, usec: int)

  // What gettimeofday returns.
  type Moment = t: TimeVal | 0 <= t.usec < MILLION witness TimeVal(0, 0)

  type Delay = d: nat | d < UINT32

  // What Init is given and the clock it reads.
  datatype Asked = Asked(delay: Delay, now: Moment)

  // The time as stored, and when the timer is due.
  datatype Times = Times(stored: TimeVal, due: nat)

  type Timer = Record<Times>

  function Micros(t: Moment): nat {
    t.sec * MILLION + t.usec
  }

  // ---------- When a timer fires ----------

  // The sum as it is kept in a long.
  function AsLong(long: Long, x: nat): int {
    if long == Bits64 || x % UINT32 < UINT32 / 2 then (if long == Bits64 then x else x % UINT32)
    else x % UINT32 - UINT32
  }

  // A 64-bit long holds any sum; one of 32 bits holds the number in its range that leaves the same
  // remainder, as two's complement does.
  lemma LongExactly(long: Long, x: nat, y: int)
    ensures long == Bits64 ==> (AsLong(long, x) == y <==> y == x)
    ensures long == Bits32 ==>
      (AsLong(long, x) == y <==> -(UINT32 / 2) <= y < UINT32 / 2 && (x - y) % UINT32 == 0)
  {
    if long == Bits32 {
      var k := x / UINT32;
      assert x == k * UINT32 + x % UINT32;
      if -(UINT32 / 2) <= y < UINT32 / 2 && (x - y) % UINT32 == 0 {
        var j := (x - y) / UINT32;
        assert x - y == j * UINT32;
        assert y == (k - j) * UINT32 + x % UINT32;
        assert -2 < k - j < 1;
      }
      assert (x - AsLong(long, x)) % UINT32 == 0 by {
        assert x - x % UINT32 == k * UINT32 && x - (x % UINT32 - UINT32) == (k + 1) * UINT32;
      }
    }
  }

  function FireTime(long: Long, delay: Delay, now: Moment): TimeVal {
    TimeVal(now.sec + delay / 1000, AsLong(long, now.usec + delay * 1000 % UINT32))
  }

  predicate Expired(f: TimeVal, now: Moment) {
    f.sec < now.sec || (f.sec == now.sec && f.usec <= now.usec)
  }

  // The first moment at which a fire time counts as past.
  function Instant(f: TimeVal): nat {
    f.sec * MILLION + if f.usec < 0 then 0 else if f.usec < MILLION then f.usec else MILLION
  }

  function MomentOf(micros: nat): (t: Moment)
    ensures Micros(t) == micros
  {
    TimeVal(micros / MILLION, micros % MILLION)
  }

  lemma ExpiredFromInstant(f: TimeVal, now: Moment)
    ensures Expired(f, now) <==> Instant(f) <= Micros(now)
  {
    if f.sec < now.sec {
      assert (now.sec - f.sec) * MILLION >= MILLION;
    } else if now.sec < f.sec {
      assert (f.sec - now.sec) * MILLION >= MILLION;
    }
  }

  ghost predicate CanFireEarly(long: Long, delay: Delay, now: Moment) {
    exists at: Moment :: Expired(FireTime(long, delay, now), at) && Micros(at) < Micros(now) + delay * 1000
  }

  // Guarantee B fails exactly when the microseconds of the start and the odd milliseconds of the
  // delay add up to more than a second, or the 32-bit product has wrapped below the latter, or the
  // sum does not fit a 32-bit long and there is anything to lose.
  lemma EarlyExactly(long: Long, delay: Delay, now: Moment)
    ensures var odd, product := delay % 1000 * 1000, delay * 1000 % UINT32;
      CanFireEarly(long, delay, now)
      <==> (|| now.usec + odd > MILLION
            || product < odd
            || (long == Bits32 && now.usec + product >= UINT32 / 2 && now.usec + odd > 0))
  {
    var f := FireTime(long, delay, now);
    var odd := delay % 1000 * 1000;
    assert delay * 1000 == delay / 1000 * MILLION + odd;
    assert Micros(now) + delay * 1000 == f.sec * MILLION + now.usec + odd;
    var at := MomentOf(Instant(f));
    ExpiredFromInstant(f, at);
    if Instant(f) < Micros(now) + delay * 1000 {
      assert CanFireEarly(long, delay, now);
    } else {
      forall t: Moment | Expired(f, t)
        ensures Micros(t) >= Micros(now) + delay * 1000
      {
        ExpiredFromInstant(f, t);
      }
    }
  }

  // A 900 ms delay asked for at 0.9 s runs at 1.0 s instead of 1.8 s; where a long has 32 bits, a
  // delay of 2200.5 s asked for at 0.1 s runs 0.6 s early.
  lemma EarlyExample(long: Long)
    ensures Expired(FireTime(long, 900, TimeVal(0, 900_000)), TimeVal(1, 0))
    ensures Micros(TimeVal(1, 0)) + 800_000 == Micros(TimeVal(0, 900_000)) + 900 * 1000
    ensures Expired(FireTime(Bits32, 2_200_500, TimeVal(0, 100_000)), TimeVal(2200, 0))
    ensures Micros(TimeVal(2200, 0)) + 600_000 == Micros(TimeVal(0, 100_000)) + 2_200_500 * 1000
  {
  }

  // ---------- Where Init puts it ----------

  predicate NotAfterInBoth(a: TimeVal, b: TimeVal) {
    a.sec <= b.sec && a.usec <= b.usec
  }

  predicate BeforeInBoth(a: TimeVal, b: TimeVal) {
    a.sec < b.sec && a.usec < b.usec
  }

  // How far the search runs: to the first timer not before the new one in both fields.
  function Passed(list: seq<Timer>, f: TimeVal): nat {
    if list == [] || !NotAfterInBoth(list[0].when.stored, f) then 0 else 1 + Passed(list[1..], f)
  }

  // The search starts behind the head, so the place is never before it.
  function Place(list: seq<Timer>, f: TimeVal): (k: nat)
    ensures k <= |list|
  {
    PassedIn(list, f);
    if list == [] || BeforeInBoth(f, list[0].when.stored) then 0
    else if Passed(list, f) == 0 then 1 else Passed(list, f)
  }

  function Put(list: seq<Timer>, t: Timer): seq<Timer> {
    Inserted(list, t, Place(list, t.when.stored))
  }

  lemma {:induction false} PassedIn(list: seq<Timer>, f: TimeVal)
    ensures Passed(list, f) <= |list|
    ensures forall i :: 0 <= i < Passed(list, f) ==> NotAfterInBoth(list[i].when.stored, f)
    ensures Passed(list, f) < |list| ==> !NotAfterInBoth(list[Passed(list, f)].when.stored, f)
  {
    if list != [] && NotAfterInBoth(list[0].when.stored, f) {
      PassedIn(list[1..], f);
    }
  }

  lemma PassedAt(list: seq<Timer>, f: TimeVal, k: nat)
    requires k <= |list| && (forall i :: 0 <= i < k ==> NotAfterInBoth(list[i].when.stored, f))
    requires k == |list| || !NotAfterInBoth(list[k].when.stored, f)
    ensures Passed(list, f) == k
  {
    PassedIn(list, f);
  }

  // Where the search of Init puts the timer, from where its cursor stops.
  lemma PutBehind(list: seq<Timer>, t: Timer, current: nat)
    requires list != [] && !BeforeInBoth(t.when.stored, list[0].when.stored) && current <= |list|
    requires forall i :: 0 <= i < current ==> NotAfterInBoth(list[i].when.stored, t.when.stored)
    requires current == |list| || !NotAfterInBoth(list[current].when.stored, t.when.stored)
    ensures var prev := if current == 0 then 0 else current - 1;
      Put(list, t) == list[..prev + 1] + [t] + list[prev + 1..]
  {
    PassedAt(list, t.when.stored, current);
  }

  lemma PutInFront(list: seq<Timer>, t: Timer)
    requires list == [] || BeforeInBoth(t.when.stored, list[0].when.stored)
    ensures Put(list, t) == [t] + list
  {
    assert list[..0] == [] && list[0..] == list;
  }

  function TimesOf(long: Long, ask: Asked): Times {
    Times(FireTime(long, ask.delay, ask.now), Micros(ask.now) + ask.delay * 1000)
  }

  function Xlib(long: Long): Kind<Asked, Times> {
    Kind((ask: Asked) => TimesOf(long, ask), (list: seq<Timer>, t: Times) => Place(list, t.stored))
  }

  function Past(now: Moment): Times -> bool {
    (t: Times) => Expired(t.stored, now)
  }

  // Setting a timer puts it where Init does.
  lemma SetPuts(long: Long, s: State<Times>, closure: nat, ask: Asked)
    ensures Done(Xlib(long), s, Set(closure, ask)).list == Put(s.list, Made(Xlib(long), s, closure, ask))
    ensures Made(Xlib(long), s, closure, ask).when == TimesOf(long, ask)
  {
  }

  // ---------- Whether a pass ends ----------

  // A timer set during a pass is fired by that very pass exactly if it has no delay and the clock
  // has not moved.
  lemma SamePassExactly(long: Long, delay: Delay, at: Moment, now: Moment)
    requires Micros(now) <= Micros(at)
    ensures Expired(FireTime(long, delay, at), now) <==> delay == 0 && at == now
  {
    assert now.sec <= at.sec && (now.sec == at.sec ==> now.usec <= at.usec);
  }

  // Nothing is set in the past.
  ghost predicate AllAfter(actions: seq<Action<Asked>>, now: Moment) {
    forall i :: 0 <= i < |actions| && actions[i].Set? ==> Micros(now) <= Micros(actions[i].ask.now)
  }

  // The timers set without delay at the moment the pass goes by.
  function SetAtOnce(actions: seq<Action<Asked>>, now: Moment): nat {
    if actions == [] then 0
    else (if actions[0].Set? && actions[0].ask == Asked(0, now) then 1 else 0) + SetAtOnce(actions[1..], now)
  }

  lemma {:induction false} AtOnceIsUndelayed(long: Long, actions: seq<Action<Asked>>, now: Moment)
    requires AllAfter(actions, now)
    ensures AtOnce(Xlib(long), actions, Past(now)) == SetAtOnce(actions, now)
  {
    if actions != [] {
      if actions[0].Set? {
        SamePassExactly(long, actions[0].ask.delay, actions[0].ask.now, now);
      }
      AtOnceIsUndelayed(long, actions[1..], now);
    }
  }

  function SetAtOnceFrom(plan: Plan<Asked>, from: nat, m: nat, now: Moment): nat
    decreases m
  {
    if m == 0 then 0 else SetAtOnce(plan(from), now) + SetAtOnceFrom(plan, from + 1, m - 1, now)
  }

  lemma {:induction false} AtOnceFromIsUndelayed(long: Long, plan: Plan<Asked>, from: nat, m: nat, now: Moment)
    requires forall k :: AllAfter(plan(k), now)
    ensures AtOnceFrom(Xlib(long), plan, from, m, Past(now)) == SetAtOnceFrom(plan, from, m, now)
    decreases m
  {
    if m > 0 {
      AtOnceIsUndelayed(long, plan(from), now);
      AtOnceFromIsUndelayed(long, plan, from + 1, m - 1, now);
    }
  }

  ghost predicate UsedUpAfter(s: State<Times>, now: Moment, plan: Plan<Asked>, m: nat) {
    |Due(s.list, Past(now))| + SetAtOnceFrom(plan, |s.fired|, m, now) <= m
  }

  // A pass whose functions set timers and cancel none ends if and only if, after some number m of
  // calls, the timers past at its start and those its first m functions set without delay at its own
  // moment are no more than m.
  lemma PassEndsExactly(long: Long, s: State<Times>, now: Moment, plan: Plan<Asked>)
    requires Tidy(s) && forall k :: SetsOnly(plan(k)) && AllAfter(plan(k), now)
    ensures Ends(Xlib(long), s, Past(now), plan) <==> exists m :: UsedUpAfter(s, now, plan, m)
  {
    EndsExactly(Xlib(long), s, Past(now), plan);
    forall m
      ensures UsedUp(Xlib(long), s, Past(now), plan, m) <==> UsedUpAfter(s, now, plan, m)
    {
      AtOnceFromIsUndelayed(long, plan, |s.fired|, m, now);
    }
  }

  // Functions that cancel too can only help.
  lemma PassEndsWhenUsedUp(long: Long, s: State<Times>, now: Moment, plan: Plan<Asked>, m: nat)
    requires Tidy(s) && (forall k :: AllAfter(plan(k), now)) && UsedUpAfter(s, now, plan, m)
    ensures Ends(Xlib(long), s, Past(now), plan)
  {
    AtOnceFromIsUndelayed(long, plan, |s.fired|, m, now);
    var n := UsedUpEnds(Xlib(long), s, 0, Past(now), plan, m);
  }

  // The pass reads the clock once, at its start.  From the function on that finds it moved, the pass
  // runs to its end ...
  lemma PassEndsOnceClockMoves(long: Long, s: State<Times>, now: Moment, plan: Plan<Asked>, last: nat)
    requires Tidy(s) && forall k :: AllAfter(plan(k), now)
    requires forall k, i :: last <= k && 0 <= i < |plan(k)| && plan(k)[i].Set? ==> plan(k)[i].ask.now != now
    ensures Ends(Xlib(long), s, Past(now), plan)
  {
    forall k | last <= k
      ensures AtOnce(Xlib(long), plan(k), Past(now)) == 0
    {
      NoneUndelayed(plan(k), now);
      AtOnceIsUndelayed(long, plan(k), now);
    }
    EndsWhenCalm(Xlib(long), s, Past(now), plan, last);
  }

  lemma {:induction false} NoneUndelayed(actions: seq<Action<Asked>>, now: Moment)
    requires forall i :: 0 <= i < |actions| && actions[i].Set? ==> actions[i].ask != Asked(0, now)
    ensures SetAtOnce(actions, now) == 0
  {
    if actions != [] {
      NoneUndelayed(actions[1..], now);
    }
  }

  // ... so one that never ends meets, again and again, a clock that shows the microsecond it started
  // at, and a timer set then without delay.
  lemma EndlessNeedsStoppedClock(long: Long, s: State<Times>, now: Moment, plan: Plan<Asked>, last: nat)
    requires Tidy(s) && (forall k :: AllAfter(plan(k), now)) && !Ends(Xlib(long), s, Past(now), plan)
    ensures exists k, i :: last <= k && 0 <= i < |plan(k)| && plan(k)[i].Set? && plan(k)[i].ask == Asked(0, now)
  {
    EndlessGoesOn(Xlib(long), s, Past(now), plan, last);
    var k :| last <= k && AtOnce(Xlib(long), plan(k), Past(now)) > 0;
    AtOnceIsUndelayed(long, plan(k), now);
    if forall i :: 0 <= i < |plan(k)| && plan(k)[i].Set? ==> plan(k)[i].ask != Asked(0, now) {
      NoneUndelayed(plan(k), now);
    }
  }

  // Every function that sets a timer without delay while the clock stands keeps the pass going.
  lemma RearmingExample(long: Long, s: State<Times>, now: Moment, plan: Plan<Asked>)
    requires Tidy(s) && |Due(s.list, Past(now))| > 0 && forall k :: plan(k) == [Set(0, Asked(0, now))]
    ensures !Ends(Xlib(long), s, Past(now), plan)
  {
    forall k
      ensures SetsOnly(plan(k)) && AtOnce(Xlib(long), plan(k), Past(now)) > 0
    {
      AtOnceIsUndelayed(long, plan(k), now);
      assert SetAtOnce(plan(k), now) > 0;
    }
    RearmingNeverEnds(Xlib(long), s, Past(now), plan);
  }

  // ---------- Guarantee C ----------

  ghost predicate DueSorted(ts: seq<Timer>) {
    forall i, j :: 0 <= i < j < |ts| ==> ts[i].when.due <= ts[j].when.due
  }

  // Seen from the clock, a may stand before b: it is due no later, and if it is due earlier no pass
  // still to come can find b past and a not.
  predicate InTurn(clock: nat, a: Timer, b: Timer) {
    && a.when.due <= b.when.due
    && (a.when.due < b.when.due ==> Instant(a.when.stored) <= Instant(b.when.stored) || Instant(a.when.stored) <= clock)
  }

  ghost predicate Orderly(s: State<Times>, clock: nat) {
    && DueSorted(s.fired)
    && (forall f, t :: f in s.fired && t in s.list ==> f.when.due <= t.when.due)
    && forall i, j :: 0 <= i < j < |s.list| ==> InTurn(clock, s.list[i], s.list[j])
  }

  ghost predicate ListOrderly(list: seq<Timer>, clock: nat) {
    forall i, j :: 0 <= i < j < |list| ==> InTurn(clock, list[i], list[j])
  }

  lemma HeadOrderly(list: seq<Timer>, clock: nat, now: Moment)
    requires list != [] && ListOrderly(list, clock) && clock <= Micros(now)
    ensures ListOrderly(list[1..], clock)
    ensures forall u :: u in list[1..] ==> list[0].when.due <= u.when.due && InTurn(Micros(now), list[0], u)
    ensures forall u :: u in list[1..] && !Past(now)(list[0].when) && Past(now)(u.when) ==>
      u.when.due <= list[0].when.due
  {
    forall u | u in list[1..]
      ensures list[0].when.due <= u.when.due && InTurn(Micros(now), list[0], u)
      ensures !Expired(list[0].when.stored, now) && Expired(u.when.stored, now) ==> u.when.due <= list[0].when.due
    {
      var j :| 0 <= j < |list[1..]| && list[1..][j] == u;
      assert InTurn(clock, list[0], list[j + 1]);
      ExpiredFromInstant(list[0].when.stored, now);
      ExpiredFromInstant(u.when.stored, now);
    }
  }

  lemma InFrontSorted(t: Timer, ts: seq<Timer>)
    requires DueSorted(ts) && forall u :: u in ts ==> t.when.due <= u.when.due
    ensures DueSorted([t] + ts)
  {
    assert forall i :: 0 <= i < |ts| ==> ts[i] in ts;
  }

  lemma {:induction false} PartsOrderly(list: seq<Timer>, clock: nat, now: Moment)
    requires ListOrderly(list, clock) && clock <= Micros(now)
    ensures DueSorted(Fired(list, Past(now))) && ListOrderly(Left(list, Past(now)), Micros(now))
    ensures forall f, t :: f in Fired(list, Past(now)) && t in Left(list, Past(now)) ==> f.when.due <= t.when.due
  {
    if list != [] {
      HeadOrderly(list, clock, now);
      hide InTurn, Past, ListOrderly, DueSorted;
      PartsOrderly(list[1..], clock, now);
      PassPartitions(list[1..], Past(now));
      if Past(now)(list[0].when) {
        InFrontSorted(list[0], Fired(list[1..], Past(now)));
      }
    }
  }

  lemma QuietPassKeeps(s: State<Times>, clock: nat, now: Moment)
    requires Orderly(s, clock) && clock <= Micros(now)
    ensures Orderly(QuietPass(s, Past(now)), Micros(now))
  {
    PartsOrderly(s.list, clock, now);
    PassPartitions(s.list, Past(now));
    var fired := Fired(s.list, Past(now));
    assert forall j :: 0 <= j < |s.fired| ==> s.fired[j] in s.fired;
    assert forall j :: 0 <= j < |fired| ==> fired[j] in s.list;
  }

  // Passes to come, at moments that do not go back.
  ghost predicate Ascending(clock: nat, nows: seq<Moment>) {
    && (forall i :: 0 <= i < |nows| ==> clock <= Micros(nows[i]))
    && (forall i, j :: 0 <= i < j < |nows| ==> Micros(nows[i]) <= Micros(nows[j]))
  }

  function After(s: State<Times>, nows: seq<Moment>): State<Times>
    decreases |nows|
  {
    if nows == [] then s else After(QuietPass(s, Past(nows[0])), nows[1..])
  }

  lemma {:induction false} OrderlyStays(s: State<Times>, clock: nat, nows: seq<Moment>)
    requires Orderly(s, clock) && Ascending(clock, nows)
    ensures DueSorted(After(s, nows).fired)
    decreases |nows|
  {
    if nows != [] {
      QuietPassKeeps(s, clock, nows[0]);
      OrderlyStays(QuietPass(s, Past(nows[0])), Micros(nows[0]), nows[1..]);
    }
  }

  // A moment at which every listed timer is past.
  lemma {:induction false} Late(list: seq<Timer>, clock: nat) returns (now: Moment)
    ensures clock <= Micros(now) && forall t :: t in list ==> Expired(t.when.stored, now)
  {
    if list == [] {
      now := MomentOf(clock);
    } else {
      var rest := Late(list[1..], clock);
      now := TimeVal(rest.sec + list[0].when.stored.sec + 1, rest.usec);
      assert forall t :: t in list <==> t == list[0] || t in list[1..];
    }
  }

  lemma {:induction false} DueSortedFires(list: seq<Timer>, now: Moment)
    requires DueSorted(list)
    ensures DueSorted(Fired(list, Past(now)))
  {
    if list != [] {
      DueSortedFires(list[1..], now);
      PassPartitions(list[1..], Past(now));
      if Past(now)(list[0].when) {
        InFrontSorted(list[0], Fired(list[1..], Past(now)));
      }
    }
  }

  // One pass, whenever it comes, fires in the order of the nominal timestamps if and only if the
  // list stands in that order.
  lemma OnePassGuarantee(list: seq<Timer>)
    ensures DueSorted(list) <==> forall now :: DueSorted(Fired(list, Past(now)))
  {
    forall now: Moment | DueSorted(list)
      ensures DueSorted(Fired(list, Past(now)))
    {
      DueSortedFires(list, now);
    }
    var now := Late(list, 0);
    AllFired(list, Past(now));
  }

  ghost predicate Disorder(ts: seq<Timer>) {
    exists i, j :: 0 <= i < j < |ts| && ts[j].when.due < ts[i].when.due
  }

  // Two timers in the wrong order: one late pass fires them so.
  lemma LateDisorder(s: State<Times>, clock: nat) returns (nows: seq<Moment>)
    requires Disorder(s.fired + s.list)
    ensures Ascending(clock, nows) && !DueSorted(After(s, nows).fired)
  {
    var now := Late(s.list, clock);
    nows := [now];
    AllFired(s.list, Past(now));
    assert After(s, nows) == QuietPass(s, Past(now)) by {
      assert nows[1..] == [];
    }
    assert QuietPass(s, Past(now)).fired == s.fired + s.list;
  }

  // Two in the right order, of which the second counts as past first: a pass between the two
  // instants fires the second alone, and a late pass the first.
  lemma SplitDisorder(s: State<Times>, clock: nat, i: nat, j: nat) returns (nows: seq<Moment>)
    requires i < j < |s.list| && s.list[i].when.due < s.list[j].when.due
    requires Instant(s.list[j].when.stored) < Instant(s.list[i].when.stored) && clock < Instant(s.list[i].when.stored)
    ensures Ascending(clock, nows) && !DueSorted(After(s, nows).fired)
  {
    var a, b := s.list[i], s.list[j];
    var first := MomentOf(Instant(a.when.stored) - 1);
    ExpiredFromInstant(a.when.stored, first);
    ExpiredFromInstant(b.when.stored, first);
    PassPartitions(s.list, Past(first));
    var mid := QuietPass(s, Past(first));
    assert a in mid.list && b in mid.fired;
    var rest := LateBehind(mid, b, a, Micros(first));
    nows := [first] + rest;
    assert nows[1..] == rest;
  }

  lemma LateBehind(s: State<Times>, f: Timer, t: Timer, clock: nat) returns (nows: seq<Moment>)
    requires f in s.fired && t in s.list && t.when.due < f.when.due
    ensures Ascending(clock, nows) && !DueSorted(After(s, nows).fired)
  {
    var i :| 0 <= i < |s.fired| && s.fired[i] == f;
    var j :| 0 <= j < |s.list| && s.list[j] == t;
    var all := s.fired + s.list;
    assert all[i] == f && all[|s.fired| + j] == t;
    nows := LateDisorder(s, clock);
  }

  // Whatever passes follow, the whole firing sequence is in the order of the nominal timestamps, if
  // and only if what is listed and called is orderly.
  lemma OrderGuarantee(s: State<Times>, clock: nat)
    ensures Orderly(s, clock) <==> forall nows :: Ascending(clock, nows) ==> DueSorted(After(s, nows).fired)
  {
    forall nows | Orderly(s, clock) && Ascending(clock, nows)
      ensures DueSorted(After(s, nows).fired)
    {
      OrderlyStays(s, clock, nows);
    }
    if !Orderly(s, clock) {
      var nows := Misfires(s, clock);
    }
  }

  lemma Misfires(s: State<Times>, clock: nat) returns (nows: seq<Moment>)
    requires !Orderly(s, clock)
    ensures Ascending(clock, nows) && !DueSorted(After(s, nows).fired)
  {
    if !DueSorted(s.fired) {
      nows := [];
    } else if f, t :| f in s.fired && t in s.list && t.when.due < f.when.due {
      nows := LateBehind(s, f, t, clock);
    } else {
      var i, j :| 0 <= i < j < |s.list| && !InTurn(clock, s.list[i], s.list[j]);
      if s.list[i].when.due <= s.list[j].when.due {
        nows := SplitDisorder(s, clock, i, j);
      } else {
        var all := s.fired + s.list;
        assert all[|s.fired| + i] == s.list[i] && all[|s.fired| + j] == s.list[j];
        nows := LateDisorder(s, clock);
      }
    }
  }

  // ---------- What Init does to the order ----------

  // Whether the search goes past the i-th timer, read off the fields.
  ghost predicate GoesBehind(list: seq<Timer>, f: TimeVal, i: nat)
    requires i < |list|
  {
    && !BeforeInBoth(f, list[0].when.stored)
    && (i == 0 || forall j :: 0 <= j <= i ==> NotAfterInBoth(list[j].when.stored, f))
  }

  lemma PlaceIsBehind(list: seq<Timer>, f: TimeVal, i: nat)
    requires i < |list|
    ensures i < Place(list, f) <==> GoesBehind(list, f, i)
  {
    PassedIn(list, f);
  }

  // The two-field comparison agrees with the due times: what the search goes past may stand before
  // the new timer, and what it stops at behind it; and nothing called already was due later.
  ghost predicate Fits(s: State<Times>, t: Timer, clock: nat) {
    && (forall f :: f in s.fired ==> f.when.due <= t.when.due)
    && forall i :: 0 <= i < |s.list| ==>
         if GoesBehind(s.list, t.when.stored, i) then InTurn(clock, s.list[i], t) else InTurn(clock, t, s.list[i])
  }

  // Where everything stands after Init, told by the search.
  lemma PutStands(list: seq<Timer>, t: Timer)
    ensures var k, r := Place(list, t.when.stored), Put(list, t);
      && k <= |list| && |r| == |list| + 1 && r[k] == t
      && (forall i :: 0 <= i < |list| ==> (i < k <==> GoesBehind(list, t.when.stored, i)))
      && (forall i :: 0 <= i < k ==> r[i] == list[i])
      && (forall i {:trigger r[i]} :: k < i < |r| ==> r[i] == list[i - 1])
      && (forall u :: u in r <==> u == t || u in list)
  {
    hide Inserted, GoesBehind;
    InsertedAt(list, t, Place(list, t.when.stored));
    InsertedMembers(list, t, Place(list, t.when.stored));
    forall i | 0 <= i < |list|
      ensures i < Place(list, t.when.stored) <==> GoesBehind(list, t.when.stored, i)
    {
      PlaceIsBehind(list, t.when.stored, i);
    }
  }

  lemma FittingKeeps(s: State<Times>, t: Timer, clock: nat)
    requires Orderly(s, clock) && Fits(s, t, clock)
    ensures Orderly(s.(list := Put(s.list, t)), clock)
  {
    hide Place, Put, GoesBehind, InTurn;
    var k, r := Place(s.list, t.when.stored), Put(s.list, t);
    PutStands(s.list, t);
    forall i, j | 0 <= i < j < |r|
      ensures InTurn(clock, r[i], r[j])
    {
    }
  }

  lemma MisfitShows(s: State<Times>, t: Timer, clock: nat)
    requires Orderly(s.(list := Put(s.list, t)), clock)
    ensures Fits(s, t, clock)
  {
    hide Place, Put, GoesBehind, InTurn;
    var k, r := Place(s.list, t.when.stored), Put(s.list, t);
    PutStands(s.list, t);
    forall i | 0 <= i < |s.list|
      ensures if GoesBehind(s.list, t.when.stored, i) then InTurn(clock, s.list[i], t) else InTurn(clock, t, s.list[i])
    {
      if i < k {
        assert InTurn(clock, r[i], r[k]);
      } else {
        assert InTurn(clock, r[k], r[i + 1]);
      }
    }
  }

  // Init keeps the order if and only if the new timer fits.
  lemma InOrderExactly(s: State<Times>, t: Timer, clock: nat)
    requires Orderly(s, clock)
    ensures Orderly(s.(list := Put(s.list, t)), clock) <==> Fits(s, t, clock)
  {
    hide Orderly, Fits;
    if Fits(s, t, clock) {
      FittingKeeps(s, t, clock);
    }
    if Orderly(s.(list := Put(s.list, t)), clock) {
      MisfitShows(s, t, clock);
    }
  }

  // So, set into an orderly state, a timer leaves all passes to come in order if and only if it fits.
  lemma GuaranteeKeptExactly(s: State<Times>, t: Timer, clock: nat)
    requires Orderly(s, clock)
    ensures Fits(s, t, clock)
      <==> forall nows :: Ascending(clock, nows) ==> DueSorted(After(s.(list := Put(s.list, t)), nows).fired)
  {
    InOrderExactly(s, t, clock);
    OrderGuarantee(s.(list := Put(s.list, t)), clock);
  }

  // A timer out of place stays out of place: insertion never repairs the order.
  lemma UnsortedStays(s: State<Times>, t: Timer, clock: nat)
    requires !Orderly(s, clock)
    ensures !Orderly(s.(list := Put(s.list, t)), clock)
  {
    hide Place, Put, GoesBehind, InTurn;
    PutStands(s.list, t);
    var k, r := Place(s.list, t.when.stored), Put(s.list, t);
    if i, j :| 0 <= i < j < |s.list| && !InTurn(clock, s.list[i], s.list[j]) {
      var a, b := if i < k then i else i + 1, if j < k then j else j + 1;
      assert r[a] == s.list[i] && r[b] == s.list[j];
    }
  }

  function AllInserted(s: State<Times>, ts: seq<Timer>): State<Times>
    decreases |ts|
  {
    if ts == [] then s else AllInserted(s.(list := Put(s.list, ts[0])), ts[1..])
  }

  ghost predicate AllFit(s: State<Times>, ts: seq<Timer>, clock: nat)
    decreases |ts|
  {
    ts == [] || (Fits(s, ts[0], clock) && AllFit(s.(list := Put(s.list, ts[0])), ts[1..], clock))
  }

  // Between two passes, however many timers are set: the passes that follow, from the clock on, fire
  // in order if and only if each of them fitted.
  lemma {:induction false} RunInOrderExactly(s: State<Times>, ts: seq<Timer>, clock: nat)
    ensures Orderly(AllInserted(s, ts), clock) <==> Orderly(s, clock) && AllFit(s, ts, clock)
    decreases |ts|
  {
    if ts != [] {
      RunInOrderExactly(s.(list := Put(s.list, ts[0])), ts[1..], clock);
      if Orderly(s, clock) {
        InOrderExactly(s, ts[0], clock);
      } else {
        UnsortedStays(s, ts[0], clock);
      }
    }
  }

  function TimerFor(long: Long, id: nat, ask: Asked): Timer {
    Record(id, 0, TimesOf(long, ask))
  }

  lemma TwoInARow(t0: Timer, t1: Timer, now: Moment)
    requires Expired(t0.when.stored, now) && Expired(t1.when.stored, now)
    requires !NotAfterInBoth(t0.when.stored, t1.when.stored) && !BeforeInBoth(t1.when.stored, t0.when.stored)
    ensures Fired(Put(Put([], t0), t1), Past(now)) == [t0, t1]
  {
    hide Put, Fired;
    PutInFront([], t0);
    PutBehind([t0], t1, 0);
    assert [t0] + [] == [t0] && [t0][..1] + [t1] + [t0][1..] == [t0, t1];
    AllFired([t0, t1], Past(now));
  }

  lemma SmallTimes(long: Long, ask: Asked)
    requires ask.delay < 1000
    ensures TimesOf(long, ask)
      == Times(TimeVal(ask.now.sec, ask.now.usec + ask.delay * 1000), Micros(ask.now) + ask.delay * 1000)
  {
    LongHolds(long, ask.now.usec + ask.delay * 1000);
    assert ask.delay / 1000 == 0 && ask.delay * 1000 % UINT32 == ask.delay * 1000;
    hide AsLong;
  }

  lemma LongHolds(long: Long, x: nat)
    requires x < UINT32 / 2
    ensures AsLong(long, x) == x
  {
  }

  // Two timers set at the same moment, 2 ms and then 1 ms: the longer one fires first.
  lemma OutOfOrderExample(long: Long)
    ensures var t0 := TimerFor(long, 0, Asked(2, TimeVal(0, 0)));
      var t1 := TimerFor(long, 1, Asked(1, TimeVal(0, 0)));
      t1.when.due < t0.when.due && Fired(Put(Put([], t0), t1), Past(TimeVal(0, 5_000))) == [t0, t1]
  {
    SmallTimes(long, Asked(2, TimeVal(0, 0)));
    SmallTimes(long, Asked(1, TimeVal(0, 0)));
    hide Put, Fired, TimesOf;
    TwoInARow(TimerFor(long, 0, Asked(2, TimeVal(0, 0))), TimerFor(long, 1, Asked(1, TimeVal(0, 0))),
              TimeVal(0, 5_000));
  }

  // 900 ms asked for at 0.6 s, then 100 ms at 1.0 s, due at 1.5 s and 1.1 s: the two stored times
  // are in order, the list is in the order of the stored times, and still a pass at 1.2 s fires first
  // what is due last.
  lemma StoredOrderExample(long: Long)
    ensures var t0 := TimerFor(long, 0, Asked(900, TimeVal(0, 600_000)));
      var t1 := TimerFor(long, 1, Asked(100, TimeVal(1, 0)));
      && t0.when == Times(TimeVal(0, 1_500_000), 1_500_000) && t1.when == Times(TimeVal(1, 100_000), 1_100_000)
      && Fired(Put(Put([], t0), t1), Past(TimeVal(1, 200_000))) == [t0, t1]
  {
    SmallTimes(long, Asked(900, TimeVal(0, 600_000)));
    SmallTimes(long, Asked(100, TimeVal(1, 0)));
    hide Put, Fired, TimesOf;
    TwoInARow(TimerFor(long, 0, Asked(900, TimeVal(0, 600_000))), TimerFor(long, 1, Asked(100, TimeVal(1, 0))),
              TimeVal(1, 200_000));
  }

  // ---------- The order inside a pass ----------

  // Every timer set fits where it is set.
  ghost predicate ActionsFit(long: Long, s: State<Times>, actions: seq<Action<Asked>>, clock: nat)
    decreases |actions|
  {
    actions == [] || (
      && (actions[0].Set? ==> Fits(s, Made(Xlib(long), s, actions[0].closure, actions[0].ask), clock))
      && ActionsFit(long, Done(Xlib(long), s, actions[0]), actions[1..], clock))
  }

  ghost predicate PassFits(long: Long, s: State<Times>, i: nat, now: Moment, plan: Plan<Asked>, n: nat)
    decreases n
  {
    || n == 0 || i >= |s.list|
    || (if Expired(s.list[i].when.stored, now) then
          && ActionsFit(long, s.(fired := s.fired + [s.list[i]]), plan(|s.fired|), Micros(now))
          && PassFits(long, FiredAt(Xlib(long), s, i, plan), 0, now, plan, n - 1)
        else PassFits(long, s, i + 1, now, plan, n - 1))
  }

  lemma CutOrderly(s: State<Times>, id: nat, clock: nat)
    requires Orderly(s, clock)
    ensures Orderly(s.(list := Unlinked(s.list, id)), clock)
  {
    hide Unlinked, InTurn;
    var k := UnlinkedCuts(s.list, id);
    var r := Unlinked(s.list, id);
    assert forall i :: 0 <= i < |r| ==> r[i] == s.list[if i < k then i else i + 1];
  }

  lemma DoneOrderly(long: Long, s: State<Times>, a: Action<Asked>, clock: nat)
    requires Orderly(s, clock) && (a.Set? ==> Fits(s, Made(Xlib(long), s, a.closure, a.ask), clock))
    ensures Orderly(Done(Xlib(long), s, a), clock)
  {
    match a
    case Set(closure, ask) =>
      var t := Made(Xlib(long), s, closure, ask);
      SetPuts(long, s, closure, ask);
      InOrderExactly(s, t, clock);
    case Clear(id) =>
      CutOrderly(s, id, clock);
  }

  lemma {:induction false} AllDoneOrderly(long: Long, s: State<Times>, actions: seq<Action<Asked>>, clock: nat)
    requires Orderly(s, clock) && ActionsFit(long, s, actions, clock)
    ensures Orderly(AllDone(Xlib(long), s, actions), clock)
    decreases |actions|
  {
    if actions != [] {
      hide Orderly, Done, Fits, Xlib;
      DoneOrderly(long, s, actions[0], clock);
      AllDoneOrderly(long, Done(Xlib(long), s, actions[0]), actions[1..], clock);
    }
  }

  lemma CalledOrderly(s: State<Times>, i: nat, now: Moment)
    requires Orderly(s, Micros(now)) && i < |s.list| && Expired(s.list[i].when.stored, now)
    requires forall j :: 0 <= j < i ==> !Expired(s.list[j].when.stored, now)
    ensures Orderly(s.(fired := s.fired + [s.list[i]]), Micros(now))
  {
    var t := s.list[i];
    forall u | u in s.list
      ensures t.when.due <= u.when.due
    {
      var j :| 0 <= j < |s.list| && s.list[j] == u;
      ExpiredFromInstant(u.when.stored, now);
      ExpiredFromInstant(t.when.stored, now);
      if j < i {
        assert InTurn(Micros(now), s.list[j], s.list[i]);
      }
    }
    assert forall j :: 0 <= j < |s.fired| ==> s.fired[j] in s.fired;
  }

  lemma FiredAtOrderly(long: Long, s: State<Times>, i: nat, now: Moment, plan: Plan<Asked>)
    requires Orderly(s, Micros(now)) && i < |s.list| && Expired(s.list[i].when.stored, now)
    requires forall j :: 0 <= j < i ==> !Expired(s.list[j].when.stored, now)
    requires ActionsFit(long, s.(fired := s.fired + [s.list[i]]), plan(|s.fired|), Micros(now))
    ensures Orderly(FiredAt(Xlib(long), s, i, plan), Micros(now))
  {
    hide Orderly, ActionsFit, AllDone, Xlib;
    CalledOrderly(s, i, now);
    var called := s.(fired := s.fired + [s.list[i]]);
    AllDoneOrderly(long, called, plan(|s.fired|), Micros(now));
    CutOrderly(AllDone(Xlib(long), called, plan(|s.fired|)), s.list[i].id, Micros(now));
  }

  // A pass whose functions set only timers that fit keeps the order, at every trip.
  lemma {:induction false} PassInOrder(long: Long, s: State<Times>, i: nat, now: Moment, plan: Plan<Asked>, n: nat)
    requires forall j :: 0 <= j < i && j < |s.list| ==> !Expired(s.list[j].when.stored, now)
    requires Orderly(s, Micros(now)) && PassFits(long, s, i, now, plan, n)
    ensures Orderly(Trips(Xlib(long), s, i, Past(now), plan, n).0, Micros(now))
    decreases n
  {
    hide Orderly, ActionsFit, FiredAt, Xlib;
    if n > 0 {
      if i < |s.list| && Expired(s.list[i].when.stored, now) {
        FiredAtOrderly(long, s, i, now, plan);
        PassInOrder(long, FiredAt(Xlib(long), s, i, plan), 0, now, plan, n - 1);
      } else if i < |s.list| {
        PassInOrder(long, s, i + 1, now, plan, n - 1);
      } else {
        EndedStands(Xlib(long), s, i, Past(now), plan, 0, n);
      }
    }
  }

  // ---------- Runs ----------

  type Event = TimerWalk.Event<Moment, Asked>

  function ClockThen(clock: nat, e: Event): nat {
    match e
    case Call(a) => if a.Set? then Micros(a.ask.now) else clock
    case Drain(now, _, _) => Micros(now)
  }

  function Stepped(long: Long, s: State<Times>, e: Event): State<Times> {
    TimerWalk.Stepped(Xlib(long), Past, s, e)
  }

  function Run(long: Long, s: State<Times>, events: seq<Event>): State<Times> {
    TimerWalk.Run(Xlib(long), Past, s, events)
  }

  function ClockAfter(clock: nat, events: seq<Event>): nat
    decreases |events|
  {
    if events == [] then clock else ClockAfter(ClockThen(clock, events[0]), events[1..])
  }

  ghost predicate DrainEnds(long: Long, s: State<Times>, e: Event) {
    e.Drain? ==> Ended(Xlib(long), s, 0, Past(e.now), e.plan, e.trips)
  }

  // The clock never goes back, and each pass ends.
  ghost predicate Legal(long: Long, s: State<Times>, clock: nat, events: seq<Event>)
    decreases |events|
  {
    events == [] || (
      && clock <= ClockThen(clock, events[0]) && DrainEnds(long, s, events[0])
      && Legal(long, Stepped(long, s, events[0]), ClockThen(clock, events[0]), events[1..]))
  }

  ghost predicate EventFits(long: Long, s: State<Times>, e: Event) {
    match e
    case Call(a) => a.Set? ==> Fits(s, Made(Xlib(long), s, a.closure, a.ask), Micros(a.ask.now))
    case Drain(now, plan, trips) => PassFits(long, s, 0, now, plan, trips)
  }

  // Every timer set in the run, by a caller or a callback, fits where it is set.
  ghost predicate RunFits(long: Long, s: State<Times>, events: seq<Event>)
    decreases |events|
  {
    events == [] || (EventFits(long, s, events[0]) && RunFits(long, Stepped(long, s, events[0]), events[1..]))
  }

  lemma SteppedInOrder(long: Long, s: State<Times>, e: Event, clock: nat)
    requires Orderly(s, clock) && EventFits(long, s, e) && clock == ClockThen(clock, e)
    ensures Orderly(Stepped(long, s, e), clock)
  {
    hide Orderly, Fits, PassFits;
    match e
    case Call(a) => DoneOrderly(long, s, a, clock);
    case Drain(now, plan, trips) => PassInOrder(long, s, 0, now, plan, trips);
  }

  lemma {:induction false} RunKeeps(long: Long, s: State<Times>, clock: nat, events: seq<Event>)
    requires Accounted(s, {}) && Legal(long, s, clock, events)
    ensures Accounted(Run(long, s, events), {})
    ensures Orderly(s, clock) && RunFits(long, s, events) ==> Orderly(Run(long, s, events), ClockAfter(clock, events))
    decreases |events|
  {
    if events != [] {
      hide Orderly, Accounted, EventFits, Stepped, DrainEnds;
      var e, clock1 := events[0], ClockThen(clock, events[0]);
      SteppedKeeps(Xlib(long), Past, s, e);
      RunKeeps(long, Stepped(long, s, e), clock1, events[1..]);
      if Orderly(s, clock) && RunFits(long, s, events) {
        SteppedInOrder(long, s, e, clock1);
      }
    }
  }

  // At every moment of the run, all passes to come fire in order (OrderGuarantee).
  ghost predicate OrderlyThroughout(long: Long, s: State<Times>, clock: nat, events: seq<Event>)
    decreases |events|
  {
    && Orderly(s, clock)
    && (events == [] || OrderlyThroughout(long, Stepped(long, s, events[0]), ClockThen(clock, events[0]), events[1..]))
  }

  lemma {:induction false} QuietFits(long: Long, s: State<Times>, i: nat, now: Moment, plan: Plan<Asked>, n: nat)
    requires forall k :: plan(k) == []
    ensures PassFits(long, s, i, now, plan, n)
    decreases n
  {
    if n > 0 && i < |s.list| {
      if Expired(s.list[i].when.stored, now) {
        QuietFits(long, FiredAt(Xlib(long), s, i, plan), 0, now, plan, n - 1);
      } else {
        QuietFits(long, s, i + 1, now, plan, n - 1);
      }
    }
  }

  // A call keeps the order exactly if what it sets fits; a pass without callbacks always does.
  lemma SteppedInOrderExactly(long: Long, s: State<Times>, e: Event, clock: nat)
    requires Orderly(s, clock) && clock == ClockThen(clock, e)
    requires e.Drain? ==> forall k :: e.plan(k) == []
    ensures Orderly(Stepped(long, s, e), clock) <==> EventFits(long, s, e)
  {
    match e
    case Call(a) =>
      if a.Set? {
        var t := Made(Xlib(long), s, a.closure, a.ask);
        SetPuts(long, s, a.closure, a.ask);
        InOrderExactly(s, t, clock);
      } else {
        SteppedInOrder(long, s, e, clock);
      }
    case Drain(now, plan, trips) =>
      QuietFits(long, s, 0, now, plan, trips);
      SteppedInOrder(long, s, e, clock);
  }

  // C exactly: in a run of calls and passes, at every moment all passes to come fire in order if and
  // only if every timer fitted where it was set.
  lemma {:induction false} RunFitsExactly(long: Long, s: State<Times>, clock: nat, events: seq<Event>)
    requires Legal(long, s, clock, events) && Orderly(s, clock)
    requires forall i, k :: 0 <= i < |events| && events[i].Drain? ==> events[i].plan(k) == []
    ensures RunFits(long, s, events) <==> OrderlyThroughout(long, s, clock, events)
    decreases |events|
  {
    if events != [] {
      hide Orderly, EventFits, Stepped, DrainEnds;
      var e, clock1 := events[0], ClockThen(clock, events[0]);
      SteppedInOrderExactly(long, s, e, clock1);
      if Orderly(Stepped(long, s, e), clock1) {
        RunFitsExactly(long, Stepped(long, s, e), clock1, events[1..]);
      }
    }
  }

  // C over whole runs, callbacks that set and cancel timers included: where every timer fits when it
  // is set, the whole firing sequence is in the order of the nominal timestamps.
  lemma TimersInOrder(long: Long, events: seq<Event>)
    requires Legal(long, Start(), 0, events) && RunFits(long, Start(), events)
    ensures DueSorted(Run(long, Start(), events).fired)
  {
    RunKeeps(long, Start(), 0, events);
  }

  // A over whole runs: when a pass has gone by, a timer no one cancelled has fired, once, or its
  // stored time is not past.
  lemma UncancelledFires(long: Long, events: seq<Event>, now: Moment, plan: Plan<Asked>, trips: nat, id: nat)
    requires Legal(long, Start(), 0, events + [Drain(now, plan, trips)])
    ensures var n := Run(long, Start(), events + [Drain(now, plan, trips)]);
      && DistinctIds(n.fired)
      && (id < n.issued && id !in n.cleared ==>
           Holds(n.fired, id) || exists t :: t in n.list && t.id == id && !Expired(t.when.stored, now))
  {
    LastStep(long, Start(), 0, events, Drain(now, plan, trips));
    RunKeeps(long, Start(), 0, events);
    PassDrains(Xlib(long), Run(long, Start(), events), Past(now), plan, trips);
  }

  lemma {:induction false} LastStep(long: Long, s: State<Times>, clock: nat, events: seq<Event>, e: Event)
    requires Legal(long, s, clock, events + [e])
    ensures var r := Run(long, s, events);
      && Legal(long, s, clock, events) && DrainEnds(long, r, e)
      && Run(long, s, events + [e]) == Stepped(long, r, e)
    decreases |events|
  {
    if events == [] {
      assert events + [e] == [e] && [e][1..] == [];
      assert Run(long, Stepped(long, s, e), []) == Stepped(long, s, e);
    } else {
      hide Stepped, DrainEnds;
      assert (events + [e])[1..] == events[1..] + [e] && (events + [e])[0] == events[0];
      LastStep(long, Stepped(long, s, events[0]), ClockThen(clock, events[0]), events[1..], e);
    }
  }

  // ---------- What is fired, and with what ----------

  // Over every run: the k-th timer asked for, by a caller or inside a callback, gets id k, and is
  // listed and fired with the closure and the times of that request; an id counts as cancelled
  // exactly if someone asked to cancel it.
  lemma FiredWithItsClosure(long: Long, events: seq<Event>, t: Timer)
    ensures var s, log := Run(long, Start(), events), Happened(Xlib(long), Past, Start(), events);
      && s.issued == |Requests(log)|
      && (t in s.list || t in s.fired ==>
            && t.id < |Requests(log)|
            && t.closure == Requests(log)[t.id].closure && t.when == TimesOf(long, Requests(log)[t.id].ask))
      && (t.id in s.cleared <==> Clear(t.id) in log)
  {
    RunCarries(Xlib(long), Past, Start(), events, []);
    assert [] + Happened(Xlib(long), Past, Start(), events) == Happened(Xlib(long), Past, Start(), events);
  }

  // ---------- The list, updated in place ----------

  class TimerList {
    const long: Long
    var list: seq<Timer>
    var fired: seq<Timer>
    var cleared: set<nat>
    var issued: nat

    function View(): State<Times>
      reads this
    {
      State(list, fired, cleared, issued)
    }

    constructor (long: Long)
      ensures View() == Start() && this.long == long
    {
      this.long, list, fired, cleared, issued := long, [], [], {}, 0;
    }

    method Init(closure: nat, delay: Delay, now: Moment) returns (id: nat)
      modifies this
      ensures View() == Done(Xlib(long), old(View()), Set(closure, Asked(delay, now))) && id == old(issued)
    {
      hide Put, TimesOf;
      SetPuts(long, View(), closure, Asked(delay, now));
      id := issued;
      var t := Record(id, closure, TimesOf(long, Asked(delay, now)));
      issued := issued + 1;
      if list == [] {
        PutInFront(list, t);
        assert [t] + list == [t];
        list := [t];
      } else if BeforeInBoth(t.when.stored, list[0].when.stored) {
        PutInFront(list, t);
        list := [t] + list;
      } else {
        var prev, current := 0, 0;
        while current < |list| && NotAfterInBoth(list[current].when.stored, t.when.stored)
          invariant 0 <= current <= |list| && prev == (if current == 0 then 0 else current - 1)
          invariant forall j :: 0 <= j < current ==> NotAfterInBoth(list[j].when.stored, t.when.stored)
        {
          prev := current;
          current := current + 1;
        }
        PutBehind(list, t, current);
        list := list[..prev + 1] + [t] + list[prev + 1..];
      }
    }

    // Takes the timer out; one that is not listed is left alone.
    method Unlink(id: nat)
      modifies `list
      ensures list == Unlinked(old(list), id)
    {
      if list != [] && list[0].id == id {
        list := list[1..];
      } else {
        var p := 0;
        while p + 1 < |list| && list[p + 1].id != id
          invariant 0 <= p && (list != [] ==> p < |list|)
          invariant forall j :: 0 <= j <= p && j < |list| ==> list[j].id != id
          decreases |list| - p
        {
          p := p + 1;
        }
        UnlinkedAt(list, id, if list == [] then 0 else p + 1);
        if p + 1 < |list| {
          list := list[..p + 1] + list[p + 2..];
        }
      }
    }

    method Cancel(id: nat)
      modifies this
      ensures View() == Done(Xlib(long), old(View()), Clear(id))
    {
      Unlink(id);
      cleared := cleared + {id};
    }

    // The function of a timer.
    method Fire(actions: seq<Action<Asked>>)
      modifies this
      ensures View() == AllDone(Xlib(long), old(View()), actions)
    {
      for i := 0 to |actions|
        invariant AllDone(Xlib(long), View(), actions[i..]) == AllDone(Xlib(long), old(View()), actions)
      {
        match actions[i] {
          case Set(closure, ask) => var _ := Init(closure, ask.delay, ask.now);
          case Clear(id) => Cancel(id);
        }
        assert actions[i..][1..] == actions[i + 1..];
      }
    }

    // The loop of any pass that ends, after however many trips.
    method ProcessTimeouts(now: Moment, plan: Plan<Asked>, ghost trips: nat)
      requires Ended(Xlib(long), View(), 0, Past(now), plan, trips)
      modifies this
      ensures View() == Pass(Xlib(long), old(View()), Past(now), plan, trips)
    {
      hide AllDone, Xlib;
      var p := 0;
      ghost var left := trips;
      while p < |list|
        invariant p <= |list|
        invariant Trips(Xlib(long), View(), p, Past(now), plan, left)
          == Trips(Xlib(long), old(View()), 0, Past(now), plan, trips)
        invariant Ended(Xlib(long), View(), p, Past(now), plan, left)
        decreases left
      {
        if Expired(list[p].when.stored, now) {
          var t := list[p];
          fired := fired + [t];
          Fire(plan(|fired| - 1));
          Unlink(t.id);
          p := 0;
        } else {
          p := p + 1;
        }
        left := left - 1;
      }
      EndedStands(Xlib(long), View(), p, Past(now), plan, 0, left);
    }
  }
}
