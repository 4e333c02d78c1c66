/**
  Events between the mozilla thread and the mocha thread: include/libevent.h.

  Every rule here is a documented contract: ET_SendEvent queues an event stamped with the document
  of its context, ET_InterruptContext removes what is still pending for a context,
  ET_PostJsEventAck answers an event, ET_lo_DoDocWrite carries text for one document and is
  ignored when that document is no longer loaded.  Acks and writes both come back through
  mozilla_event_queue, so they share one queue and may be dispatched after the document changed.

  The two threads are interleaved one step at a time.  PREventQueue is foreign code and appears as
  a sequence.
 */
module EventChannel {
  import opened Basics

  type Context = nat
  type DocId = nat

  datatype Status = OK | CANCEL | PANIC

  // The part of ETEvent and JSEvent that the protocol uses; the serial number tells closures apart.
  datatype JsEvent = JsEvent(serial: nat, context: Context, docId: DocId)

  datatype Message =
    | Ack(event: JsEvent, verdict: Status)
    | DocWrite(context: Context, docId: DocId, text: string)

  // One call of an ETClosureFunc: what mocha decided and what was passed.
  datatype Delivery = Delivery(event: JsEvent, verdict: Status, status: Status)

  datatype State = State(
    doc: map<Context, DocId>,         // open windows and their documents
    page: map<Context, seq<string>>,  // what was written into each of these documents
    nextDoc: DocId,
    sent: seq<JsEvent>,               // every event so far; its serial number is its index
    pending: seq<JsEvent>,            // sent, not yet taken by mocha
    messages: seq<Message>,           // on the way back
    delivered: seq<Delivery>,         // closures run, oldest first
    dropped: seq<JsEvent>)            // removed by an interrupt

  const START := State(map[], map[], 0, [], [], [], [], [])

  datatype Step =
    | OpenWindow(context: Context)
    | CloseWindow(context: Context)
    | NewDocument(context: Context)
    | Send(context: Context)
    | Interrupt(context: Context)
    | Process(verdict: Status)                                  // mocha thread
    | PostWrite(context: Context, docId: DocId, text: string)   // mocha thread
    | Dispatch                                                  // mozilla thread

  function Current(s: State, c: Context): Option<DocId> {
    if c in s.doc then Some(s.doc[c]) else None
  }

  function LoadInto(s: State, c: Context): State {
    s.(doc := s.doc[c := s.nextDoc], page := s.page[c := []], nextDoc := s.nextDoc + 1)
  }

  function Only(evs: seq<JsEvent>, c: Context): seq<JsEvent> {
    if evs == [] then [] else (if evs[0].context == c then [evs[0]] else []) + Only(evs[1..], c)
  }

  function Except(evs: seq<JsEvent>, c: Context): seq<JsEvent> {
    if evs == [] then [] else (if evs[0].context != c then [evs[0]] else []) + Except(evs[1..], c)
  }

  function Dispatched(s: State, m: Message): State {
    match m
    case Ack(e, v) =>
      s.(delivered := s.delivered + [Delivery(e, v, if Current(s, e.context) == Some(e.docId) then v else PANIC)])
    case DocWrite(c, d, text) =>
      if Current(s, c) == Some(d) && c in s.page then s.(page := s.page[c := s.page[c] + [text]]) else s
  }

  // A step that is not possible changes nothing.
  function Next(s: State, step: Step): State {
    match step
    case OpenWindow(c) => if c in s.doc then s else LoadInto(s, c)
    case CloseWindow(c) => s.(doc := s.doc - {c}, page := s.page - {c})
    case NewDocument(c) => if c in s.doc then LoadInto(s, c) else s
    case Send(c) =>
      if c !in s.doc then s
      else
        var e := JsEvent(|s.sent|, c, s.doc[c]);
        s.(pending := s.pending + [e], sent := s.sent + [e])
    case Interrupt(c) =>
      s.(pending := Except(s.pending, c), dropped := s.dropped + Only(s.pending, c))
    case Process(v) =>
      if s.pending == [] then s
      else s.(pending := s.pending[1..], messages := s.messages + [Ack(s.pending[0], v)])
    case PostWrite(c, d, text) => s.(messages := s.messages + [DocWrite(c, d, text)])
    case Dispatch =>
      if s.messages == [] then s
      else Dispatched(s.(messages := s.messages[1..]), s.messages[0])
  }

  function Run(s: State, steps: seq<Step>): State {
    if steps == [] then s else Next(Run(s, steps[..|steps| - 1]), steps[|steps| - 1])
  }

  // ---------- Where an event is ----------

  function Acked(ms: seq<Message>): seq<JsEvent> {
    if ms == [] then [] else (if ms[0].Ack? then [ms[0].event] else []) + Acked(ms[1..])
  }

  function Finished(ds: seq<Delivery>): seq<JsEvent> {
    if ds == [] then [] else Finished(ds[..|ds| - 1]) + [ds[|ds| - 1].event]
  }

  // Delivered, then acked in flight, then pending.
  function Line(s: State): seq<JsEvent> {
    Finished(s.delivered) + Acked(s.messages) + s.pending
  }

  ghost predicate InOrder(evs: seq<JsEvent>) {
    forall i, j :: 0 <= i < j < |evs| ==> evs[i].serial < evs[j].serial
  }

  ghost predicate Distinct(evs: seq<JsEvent>) {
    forall i, j :: 0 <= i < j < |evs| ==> evs[i] != evs[j]
  }

  // Every event sent is in the line, once and in the order sent, or was dropped, once; not both.
  ghost predicate Placed(sent: seq<JsEvent>, line: seq<JsEvent>, dropped: seq<JsEvent>) {
    && (forall n :: 0 <= n < |sent| ==> sent[n].serial == n)
    && (forall e :: e in sent <==> e in line || e in dropped)
    && (forall e :: e in line ==> e !in dropped)
    && InOrder(line) && Distinct(dropped)
  }

  ghost predicate Conserved(s: State) {
    Placed(s.sent, Line(s), s.dropped)
  }

  lemma {:induction false} AckedConcat(a: seq<Message>, b: seq<Message>)
    ensures Acked(a + b) == Acked(a) + Acked(b)
  {
    if a == [] {
      assert a + b == b;
    } else {
      AckedConcat(a[1..], b);
      assert (a + b)[0] == a[0] && (a + b)[1..] == a[1..] + b;
      var head := if a[0].Ack? then [a[0].event] else [];
      assert head + (Acked(a[1..]) + Acked(b)) == (head + Acked(a[1..])) + Acked(b);
    }
  }

  // Sorting one more event into the two parts.
  lemma ContextStep(evs: seq<JsEvent>, i: nat, c: Context, keep: seq<JsEvent>, drop: seq<JsEvent>)
    requires i < |evs|
    ensures keep + Except(evs[i..], c)
      == (if evs[i].context != c then keep + [evs[i]] else keep) + Except(evs[i + 1..], c)
    ensures drop + Only(evs[i..], c) == (if evs[i].context == c then drop + [evs[i]] else drop) + Only(evs[i + 1..], c)
  {
    assert evs[i..][1..] == evs[i + 1..] && evs[i..][0] == evs[i];
    assert keep + ([evs[i]] + Except(evs[i + 1..], c)) == keep + [evs[i]] + Except(evs[i + 1..], c);
    assert drop + ([evs[i]] + Only(evs[i + 1..], c)) == drop + [evs[i]] + Only(evs[i + 1..], c);
    assert [] + Except(evs[i + 1..], c) == Except(evs[i + 1..], c);
    assert [] + Only(evs[i + 1..], c) == Only(evs[i + 1..], c);
  }

  // An interrupt splits the pending events by context and keeps the order of both parts.
  lemma {:induction false} SplitMembers(evs: seq<JsEvent>, c: Context)
    ensures forall e :: e in Except(evs, c) <==> e in evs && e.context != c
    ensures forall e :: e in Only(evs, c) <==> e in evs && e.context == c
  {
    if evs != [] {
      SplitMembers(evs[1..], c);
      assert forall e :: e in evs <==> e == evs[0] || e in evs[1..];
    }
  }

  lemma RestInOrder(evs: seq<JsEvent>)
    requires evs != [] && InOrder(evs)
    ensures InOrder(evs[1..]) && forall e :: e in evs[1..] ==> evs[0].serial < e.serial
  {
  }

  lemma {:induction false} SplitByContext(evs: seq<JsEvent>, c: Context)
    requires InOrder(evs)
    ensures forall e :: e in Except(evs, c) <==> e in evs && e.context != c
    ensures forall e :: e in Only(evs, c) <==> e in evs && e.context == c
    ensures InOrder(Except(evs, c)) && InOrder(Only(evs, c))
  {
    SplitMembers(evs, c);
    if evs != [] {
      RestInOrder(evs);
      SplitByContext(evs[1..], c);
    }
  }

  // Nothing but a send or an interrupt changes the line: an ack in flight and its delivery hold
  // the same place in it.
  lemma LineMoves(s: State, step: Step)
    requires !step.Send? && !step.Interrupt?
    ensures Line(Next(s, step)) == Line(s)
  {
    match step
    case Process(v) => ProcessMoves(s, v);
    case PostWrite(c, d, text) =>
      AckedConcat(s.messages, [DocWrite(c, d, text)]);
      assert Acked([DocWrite(c, d, text)]) == [];
    case Dispatch => DispatchMoves(s);
    case _ =>
  }

  lemma ProcessMoves(s: State, v: Status)
    ensures Line(Next(s, Process(v))) == Line(s)
  {
    if s.pending != [] {
      var e := s.pending[0];
      AckedConcat(s.messages, [Ack(e, v)]);
      assert Acked([Ack(e, v)]) == [e];
      hide Acked, Finished;
      var f, a, rest := Finished(s.delivered), Acked(s.messages), s.pending[1..];
      assert s.pending == [e] + rest;
      assert f + (a + [e]) + rest == f + a + ([e] + rest);
    }
  }

  lemma DispatchMoves(s: State)
    ensures Line(Next(s, Dispatch)) == Line(s)
  {
    if s.messages != [] && s.messages[0].Ack? {
      var t := Next(s, Dispatch);
      var e, rest := s.messages[0].event, Acked(s.messages[1..]);
      FinishedOneMore(s.delivered, t.delivered[|s.delivered|]);
      assert Finished(s.delivered) + ([e] + rest) + s.pending == Finished(s.delivered) + [e] + rest + s.pending;
    }
  }

  lemma FinishedOneMore(ds: seq<Delivery>, d: Delivery)
    ensures Finished(ds + [d]) == Finished(ds) + [d.event]
  {
    assert (ds + [d])[..|ds|] == ds;
  }

  lemma ConservedStep(s: State, step: Step)
    requires Conserved(s)
    ensures Conserved(Next(s, step))
  {
    var t := Next(s, step);
    match step
    case Send(c) =>
      if c in s.doc {
        SendKeeps(s, t.pending[|s.pending|]);
      }
    case Interrupt(c) => InterruptKeeps(s, c);
    case _ => LineMoves(s, step);
  }

  lemma SendKeeps(s: State, e: JsEvent)
    requires Conserved(s) && e.serial == |s.sent|
    ensures Conserved(s.(pending := s.pending + [e], sent := s.sent + [e]))
  {
    var t := s.(pending := s.pending + [e], sent := s.sent + [e]);
    assert Line(t) == Line(s) + [e];
    forall x | x in s.sent
      ensures x.serial < e.serial
    {
      var n :| 0 <= n < |s.sent| && s.sent[n] == x;
    }
    assert forall i :: 0 <= i < |Line(s)| ==> Line(s)[i] in s.sent;
  }

  lemma InterruptKeeps(s: State, c: Context)
    requires Conserved(s)
    ensures Conserved(Next(s, Interrupt(c)))
  {
    var head := Finished(s.delivered) + Acked(s.messages);
    PartsInOrder(head, s.pending);
    hide InOrder, Placed, Except, Only, Finished, Acked;
    SplitByContext(s.pending, c);
    DropKeeps(s.sent, head, s.pending, s.dropped, Except(s.pending, c), Only(s.pending, c));
  }

  lemma DropKeeps(sent: seq<JsEvent>, head: seq<JsEvent>, tail: seq<JsEvent>, dropped: seq<JsEvent>,
                  keep: seq<JsEvent>, drop: seq<JsEvent>)
    requires Placed(sent, head + tail, dropped)
    requires InOrder(keep) && InOrder(drop)
    requires forall e :: e in tail <==> e in keep || e in drop
    requires forall e :: e in keep ==> e !in drop
    ensures Placed(sent, head + keep, dropped + drop)
  {
    PartsInOrder(head, tail);
    assert forall e :: e in head + tail <==> e in head || e in tail;
    assert forall e :: e in head + keep <==> e in head || e in keep;
    assert forall e :: e in dropped + drop <==> e in dropped || e in drop;
    WholeInOrder(head, tail, keep);
    DropsDistinct(dropped, drop);
  }

  lemma PartsInOrder(head: seq<JsEvent>, tail: seq<JsEvent>)
    requires InOrder(head + tail)
    ensures InOrder(head) && InOrder(tail)
    ensures forall i, j :: 0 <= i < |head| && 0 <= j < |tail| ==> head[i].serial < tail[j].serial
    ensures forall e :: e in head ==> e !in tail
  {
    var xs := head + tail;
    assert forall i :: 0 <= i < |head| ==> head[i] == xs[i];
    assert forall j :: 0 <= j < |tail| ==> tail[j] == xs[|head| + j];
  }

  lemma WholeInOrder(head: seq<JsEvent>, tail: seq<JsEvent>, keep: seq<JsEvent>)
    requires InOrder(head) && InOrder(keep) && (forall e :: e in keep ==> e in tail)
    requires forall i, j :: 0 <= i < |head| && 0 <= j < |tail| ==> head[i].serial < tail[j].serial
    ensures InOrder(head + keep)
  {
    forall i, j | 0 <= i < |head| && 0 <= j < |keep|
      ensures head[i].serial < keep[j].serial
    {
      assert keep[j] in tail;
    }
  }

  lemma DropsDistinct(dropped: seq<JsEvent>, drop: seq<JsEvent>)
    requires Distinct(dropped) && InOrder(drop) && forall e :: e in drop ==> e !in dropped
    ensures Distinct(dropped + drop)
  {
    forall i, j | 0 <= i < |dropped| && 0 <= j < |drop|
      ensures dropped[i] != drop[j]
    {
      assert drop[j] in drop;
    }
  }

  lemma {:induction false} ConservedRun(steps: seq<Step>)
    ensures Conserved(Run(START, steps))
  {
    if steps != [] {
      ConservedRun(steps[..|steps| - 1]);
      ConservedStep(Run(START, steps[..|steps| - 1]), steps[|steps| - 1]);
    }
  }

  // In every interleaving, a sent event not removed by an interrupt is in exactly one of pending,
  // acked in flight and delivered, and no closure runs twice or out of the order sent.
  lemma EventsConserved(steps: seq<Step>, e: JsEvent)
    ensures var s := Run(START, steps);
      && (e in s.sent <==> e in Finished(s.delivered) || e in Acked(s.messages) || e in s.pending || e in s.dropped)
      && !(e in Finished(s.delivered) && e in Acked(s.messages))
      && !(e in Finished(s.delivered) && e in s.pending)
      && !(e in Acked(s.messages) && e in s.pending)
      && (e in s.dropped ==> e !in Finished(s.delivered) && e !in Acked(s.messages) && e !in s.pending)
      && InOrder(Finished(s.delivered))
  {
    var s := Run(START, steps);
    ConservedRun(steps);
    var d, a := Finished(s.delivered), Acked(s.messages);
    assert e in Line(s) <==> e in d || e in a || e in s.pending;
    PartsInOrder(d + a, s.pending);
    PartsInOrder(d, a);
    assert e in d + a <==> e in d || e in a;
  }

  lemma QuietLine(s: State)
    requires s.pending == [] && s.messages == []
    ensures Line(s) == Finished(s.delivered)
  {
    assert Finished(s.delivered) + [] + [] == Finished(s.delivered);
  }

  // When nothing is queued any more and nothing was dropped, every event sent has been answered,
  // in the order sent.
  lemma QuietMeansAnswered(steps: seq<Step>)
    ensures var s := Run(START, steps);
      s.pending == [] && s.messages == [] && s.dropped == [] ==> Finished(s.delivered) == s.sent
  {
    var s := Run(START, steps);
    ConservedRun(steps);
    if s.pending == [] && s.messages == [] && s.dropped == [] {
      QuietLine(s);
      assert InOrder(Line(s)) && forall e :: e in Line(s) <==> e in s.sent;
      hide Run, Line, InOrder, Finished;
      SameEvents(Line(s), s.sent);
    }
  }

  lemma SameEvents(xs: seq<JsEvent>, sent: seq<JsEvent>)
    requires InOrder(xs) && (forall e :: e in xs <==> e in sent)
    requires forall k :: 0 <= k < |sent| ==> sent[k].serial == k
    ensures xs == sent
  {
    SerialIsIndex(xs, sent, |xs|);
    hide InOrder;
    if |xs| < |sent| {
      NothingLeft(xs, sent);
      assert false;
    }
  }

  lemma NothingLeft(xs: seq<JsEvent>, sent: seq<JsEvent>)
    requires |xs| < |sent| && (forall k :: 0 <= k < |xs| ==> xs[k] == sent[k])
    requires forall k :: 0 <= k < |sent| ==> sent[k].serial == k
    ensures sent[|xs|] !in xs
  {
  }

  lemma {:induction false} SerialIsIndex(xs: seq<JsEvent>, sent: seq<JsEvent>, n: nat)
    requires n <= |xs| && InOrder(xs) && (forall e :: e in xs <==> e in sent)
    requires forall k :: 0 <= k < |sent| ==> sent[k].serial == k
    ensures n <= |sent| && forall k :: 0 <= k < n ==> xs[k] == sent[k]
  {
    if n > 0 {
      SerialIsIndex(xs, sent, n - 1);
      var i := n - 1;
      assert xs[i] in sent;
      var j :| 0 <= j < |sent| && sent[j] == xs[i];
      if i < j {
        assert sent[i] in xs;
        var k :| 0 <= k < |xs| && xs[k] == sent[i];
      }
    }
  }

  // ---------- What documents receive ----------

  // Steps that differ at most in the text of a write meant for another document than d.
  ghost predicate StepAlike(a: Step, b: Step, d: DocId) {
    a == b || (a.PostWrite? && b.PostWrite? && a.context == b.context && a.docId == b.docId && a.docId != d)
  }

  ghost predicate MessageAlike(a: Message, b: Message, d: DocId) {
    a == b || (a.DocWrite? && b.DocWrite? && a.context == b.context && a.docId == b.docId && a.docId != d)
  }

  ghost predicate Alike(s: State, t: State, d: DocId) {
    && s.doc == t.doc && s.nextDoc == t.nextDoc && s.sent == t.sent && s.pending == t.pending
    && s.delivered == t.delivered && s.dropped == t.dropped
    && s.page.Keys == t.page.Keys == s.doc.Keys
    && |s.messages| == |t.messages|
    && (forall i :: 0 <= i < |s.messages| ==> MessageAlike(s.messages[i], t.messages[i], d))
    && (forall c :: c in s.doc && s.doc[c] == d ==> s.page[c] == t.page[c])
  }

  lemma AlikeDispatch(s: State, t: State, d: DocId)
    requires Alike(s, t, d)
    ensures Alike(Next(s, Dispatch), Next(t, Dispatch), d)
  {
    if s.messages != [] {
      assert MessageAlike(s.messages[0], t.messages[0], d);
    }
  }

  lemma AlikeStep(s: State, t: State, a: Step, b: Step, d: DocId)
    requires Alike(s, t, d) && StepAlike(a, b, d)
    ensures Alike(Next(s, a), Next(t, b), d)
  {
    match a
    case Dispatch => AlikeDispatch(s, t, d);
    case _ =>
  }

  // No write stamped for another document changes document d: runs that differ in nothing but the
  // text of such writes leave the same text in d.
  lemma {:induction false} OtherWritesCannotReach(xs: seq<Step>, ys: seq<Step>, d: DocId)
    requires |xs| == |ys| && forall i :: 0 <= i < |xs| ==> StepAlike(xs[i], ys[i], d)
    ensures Alike(Run(START, xs), Run(START, ys), d)
  {
    if xs != [] {
      var n := |xs| - 1;
      OtherWritesCannotReach(xs[..n], ys[..n], d);
      AlikeStep(Run(START, xs[..n]), Run(START, ys[..n]), xs[n], ys[n], d);
    }
  }

  // ---------- Documents are never reused ----------

  // The state a run is in after its first n steps.
  function At(steps: seq<Step>, n: nat): State
    requires n <= |steps|
  {
    Run(START, steps[..n])
  }

  lemma AtNext(steps: seq<Step>, n: nat)
    requires n < |steps|
    ensures At(steps, n + 1) == Next(At(steps, n), steps[n])
  {
    assert steps[..n + 1][..n] == steps[..n];
  }

  ghost predicate FreshDocs(s: State) {
    && (forall c :: c in s.doc ==> s.doc[c] < s.nextDoc)
    && (forall b, c :: b in s.doc && c in s.doc && b != c ==> s.doc[b] != s.doc[c])
  }

  lemma FreshStep(s: State, step: Step)
    requires FreshDocs(s)
    ensures FreshDocs(Next(s, step))
  {
  }

  lemma {:induction false} FreshReached(steps: seq<Step>, n: nat)
    requires n <= |steps|
    ensures FreshDocs(At(steps, n))
  {
    if n > 0 {
      FreshReached(steps, n - 1);
      AtNext(steps, n - 1);
      FreshStep(At(steps, n - 1), steps[n - 1]);
    }
  }

  // Document d was given out, and no window but these shows it.
  ghost predicate OnlyIn(s: State, where: set<Context>, d: DocId) {
    d < s.nextDoc && forall c :: c in s.doc && s.doc[c] == d ==> c in where
  }

  lemma OnlyInStep(s: State, step: Step, where: set<Context>, d: DocId)
    requires OnlyIn(s, where, d)
    ensures OnlyIn(Next(s, step), where, d)
  {
  }

  lemma {:induction false} OnlyInStays(steps: seq<Step>, i: nat, j: nat, where: set<Context>, d: DocId)
    requires i <= j <= |steps| && OnlyIn(At(steps, i), where, d)
    ensures OnlyIn(At(steps, j), where, d)
    decreases j - i
  {
    if i < j {
      OnlyInStays(steps, i, j - 1, where, d);
      AtNext(steps, j - 1);
      OnlyInStep(At(steps, j - 1), steps[j - 1], where, d);
    }
  }

  // In every run, a document that was current and no longer is never becomes current again, in any
  // window.
  lemma GoneStaysGone(steps: seq<Step>, i: nat, j: nat, n: nat, c: Context, d: DocId)
    requires i <= j <= n <= |steps|
    requires Current(At(steps, i), c) == Some(d) && Current(At(steps, j), c) != Some(d)
    ensures forall b :: Current(At(steps, n), b) != Some(d)
  {
    FreshReached(steps, i);
    OnlyInStays(steps, i, j, {c}, d);
    assert OnlyIn(At(steps, j), {}, d);
    OnlyInStays(steps, j, n, {}, d);
  }

  // From step i to step j the window shows the document all the time.
  ghost predicate ShownThroughout(steps: seq<Step>, i: nat, j: nat, c: Context, d: DocId)
    requires i <= j <= |steps|
  {
    forall n :: i <= n <= j ==> Current(At(steps, n), c) == Some(d)
  }

  lemma ShownBetween(steps: seq<Step>, i: nat, j: nat, c: Context, d: DocId)
    requires i <= j <= |steps| && Current(At(steps, i), c) == Some(d)
    ensures Current(At(steps, j), c) == Some(d) <==> ShownThroughout(steps, i, j, c, d)
  {
    forall n | i <= n <= j && Current(At(steps, j), c) == Some(d)
      ensures Current(At(steps, n), c) == Some(d)
    {
      if Current(At(steps, n), c) != Some(d) {
        GoneStaysGone(steps, i, n, j, c, d);
      }
    }
  }

  // ---------- Which window shows which document ----------

  // Read off the steps: a window is open if the last of its openings and closings is an opening.
  function IsOpen(steps: seq<Step>, c: Context): bool {
    if steps == [] then false
    else
      var last := steps[|steps| - 1];
      if last == OpenWindow(c) then true
      else if last == CloseWindow(c) then false
      else IsOpen(steps[..|steps| - 1], c)
  }

  // Opening a window that is not open and loading into one that is are the loads.
  predicate LoadsInto(front: seq<Step>, step: Step, c: Context) {
    (step == OpenWindow(c) && !IsOpen(front, c)) || (step == NewDocument(c) && IsOpen(front, c))
  }

  // How many loads there were; documents are numbered in the order loaded.
  function Loads(steps: seq<Step>): nat {
    if steps == [] then 0
    else
      var front, last := steps[..|steps| - 1], steps[|steps| - 1];
      Loads(front) + (if (last.OpenWindow? || last.NewDocument?) && LoadsInto(front, last, last.context) then 1 else 0)
  }

  // The number of the last document loaded into a window.
  function LastLoaded(steps: seq<Step>, c: Context): nat {
    if steps == [] then 0
    else
      var front, last := steps[..|steps| - 1], steps[|steps| - 1];
      if LoadsInto(front, last, c) then Loads(front) else LastLoaded(front, c)
  }

  // In every run a window shows a document exactly while it is open, and it is the last one loaded
  // into it.
  lemma {:induction false} ShowsLastLoaded(steps: seq<Step>, c: Context)
    ensures var s := Run(START, steps);
      Current(s, c) == (if IsOpen(steps, c) then Some(LastLoaded(steps, c)) else None) && s.nextDoc == Loads(steps)
  {
    if steps != [] {
      var front, last := steps[..|steps| - 1], steps[|steps| - 1];
      ShowsLastLoaded(front, c);
      if last.OpenWindow? || last.NewDocument? {
        ShowsLastLoaded(front, last.context);
      }
    }
  }

  // ---------- What closures are told ----------

  ghost predicate SentAt(steps: seq<Step>, i: nat, e: JsEvent)
    requires i < |steps|
  {
    && steps[i] == Send(e.context)
    && Current(At(steps, i), e.context) == Some(e.docId)
    && e.serial == |At(steps, i).sent|
  }

  // An event carries the document its context showed when it was sent.
  lemma {:induction false} StampsAreCurrent(steps: seq<Step>, e: JsEvent)
    requires e in Run(START, steps).sent
    ensures exists i :: 0 <= i < |steps| && SentAt(steps, i, e)
  {
    if steps != [] {
      var n := |steps| - 1;
      if e in Run(START, steps[..n]).sent {
        StampsAreCurrent(steps[..n], e);
        var i :| 0 <= i < n && SentAt(steps[..n], i, e);
        assert steps[..n][..i] == steps[..i];
        assert SentAt(steps, i, e);
      } else {
        assert SentAt(steps, n, e);
      }
    }
  }

  // And the reverse: every send into an open window queues one event, stamped with the document
  // shown then; a send into a window that is not open queues none.
  lemma SendQueues(steps: seq<Step>, i: nat, c: Context)
    requires i < |steps| && steps[i] == Send(c)
    ensures match Current(At(steps, i), c)
      case Some(d) =>
        var e := JsEvent(|At(steps, i).sent|, c, d);
        && SentAt(steps, i, e) && At(steps, i + 1).pending == At(steps, i).pending + [e]
        && e in Run(START, steps).sent
      case None => At(steps, i + 1) == At(steps, i)
  {
    AtNext(steps, i);
    if Current(At(steps, i), c).Some? {
      var e := JsEvent(|At(steps, i).sent|, c, At(steps, i).doc[c]);
      assert At(steps, i + 1).sent[|At(steps, i).sent|] == e;
      LogsGrow(steps, i + 1, |steps|);
      assert steps[..|steps|] == steps;
    }
  }

  // Events sent and deliveries made are never taken back.
  ghost predicate Grown(s: State, t: State) {
    s.sent <= t.sent && s.delivered <= t.delivered
  }

  lemma GrownOn(s: State, t: State, step: Step)
    requires Grown(s, t)
    ensures Grown(s, Next(t, step))
  {
    var u := Next(t, step);
    assert t.sent <= u.sent && t.delivered <= u.delivered;
    hide Next;
  }

  lemma {:induction false} LogsGrow(steps: seq<Step>, i: nat, j: nat)
    requires i <= j <= |steps|
    ensures Grown(At(steps, i), At(steps, j))
    decreases j - i
  {
    if i == j {
      assert Grown(At(steps, i), At(steps, i));
    } else {
      hide *;
      LogsGrow(steps, i, j - 1);
      AtNext(steps, j - 1);
      GrownOn(At(steps, i), At(steps, j - 1), steps[j - 1]);
    }
  }

  // Step j is the one that made delivery k.
  ghost predicate MadeAt(steps: seq<Step>, j: nat, k: nat)
    requires j < |steps|
  {
    && steps[j] == Dispatch
    && |At(steps, j).delivered| == k && |At(steps, j + 1).delivered| == k + 1
  }

  lemma StepDelivers(s: State, step: Step)
    ensures var t := Next(s, step);
      if step == Dispatch && s.messages != [] && s.messages[0].Ack? then
        var e, v := s.messages[0].event, s.messages[0].verdict;
        t.delivered == s.delivered + [Delivery(e, v, if Current(s, e.context) == Some(e.docId) then v else PANIC)]
      else t.delivered == s.delivered
  {
  }

  // Deliveries are never taken back, and each was made by one dispatch of an ack sent before.
  lemma {:induction false} DeliveryMade(steps: seq<Step>, n: nat, k: nat) returns (j: nat)
    requires n <= |steps| && k < |At(steps, n).delivered|
    ensures j < n && MadeAt(steps, j, k)
    ensures var s, x := At(steps, j), At(steps, n).delivered[k];
      && s.messages != [] && s.messages[0] == Ack(x.event, x.verdict)
      && x.status == if Current(s, x.event.context) == Some(x.event.docId) then x.verdict else PANIC
  {
    assert n > 0;
    AtNext(steps, n - 1);
    StepDelivers(At(steps, n - 1), steps[n - 1]);
    hide Next, At;
    if k < |At(steps, n - 1).delivered| {
      j := DeliveryMade(steps, n - 1, k);
      assert At(steps, n).delivered[k] == At(steps, n - 1).delivered[k];
    } else {
      j := n - 1;
    }
  }

  // In every run, the closure of an event is told what mocha decided exactly if the document it was
  // stamped with was current in its window from the moment it was sent to the moment the closure
  // runs; otherwise the closure still runs, with PANIC.
  lemma StatusIsCurrent(steps: seq<Step>, k: nat) returns (i: nat, j: nat)
    requires k < |Run(START, steps).delivered|
    ensures i < j < |steps|
    ensures var x := Run(START, steps).delivered[k];
      && SentAt(steps, i, x.event) && MadeAt(steps, j, k)
      && x.status == if ShownThroughout(steps, i, j, x.event.context, x.event.docId) then x.verdict else PANIC
  {
    assert steps[..|steps|] == steps;
    j := DeliveryMade(steps, |steps|, k);
    var e := Run(START, steps).delivered[k].event;
    ConservedRun(steps[..j]);
    assert e in Acked(At(steps, j).messages);
    StampsAreCurrent(steps[..j], e);
    i :| 0 <= i < j && SentAt(steps[..j], i, e);
    assert steps[..j][..i] == steps[..i];
    ShownBetween(steps, i, j, e.context, e.docId);
  }

  // So once a document is gone, every event stamped with it is answered with PANIC, whatever was
  // decided.
  lemma GonePanics(steps: seq<Step>, i: nat, n: nat, c: Context, d: DocId, k: nat)
    requires i <= n <= |steps| && Current(At(steps, i), c) == Some(d) && Current(At(steps, n), c) != Some(d)
    requires |At(steps, n).delivered| <= k < |Run(START, steps).delivered|
    requires Run(START, steps).delivered[k].event.docId == d
    ensures Run(START, steps).delivered[k].status == PANIC
  {
    assert steps[..|steps|] == steps;
    var j := DeliveryMade(steps, |steps|, k);
    if j < n {
      LogsGrow(steps, j + 1, n);
    } else {
      GoneStaysGone(steps, i, n, j, c, d);
    }
  }

  // ---------- What goes in comes out ----------

  // An interrupt removes the pending events of its context, and nothing else.
  lemma InterruptExactly(steps: seq<Step>, c: Context, e: JsEvent)
    ensures var s := Run(START, steps); var t := Next(s, Interrupt(c));
      && (e in t.pending <==> e in s.pending && e.context != c)
      && (e in t.dropped <==> e in s.dropped || (e in s.pending && e.context == c))
      && t.messages == s.messages && t.delivered == s.delivered && t.sent == s.sent
  {
    var s := Run(START, steps);
    SplitMembers(s.pending, c);
    assert forall x :: x in s.dropped + Only(s.pending, c) <==> x in s.dropped || x in Only(s.pending, c);
  }

  // What the mocha thread decided, with the event it took for it.
  datatype Decision = Decision(event: JsEvent, verdict: Status)

  function Decided(steps: seq<Step>): seq<Decision> {
    if steps == [] then []
    else
      var front, last := steps[..|steps| - 1], steps[|steps| - 1];
      Decided(front) + DecidedBy(Run(START, front), last)
  }

  function DecidedBy(s: State, step: Step): seq<Decision> {
    if step.Process? && s.pending != [] then [Decision(s.pending[0], step.verdict)] else []
  }

  function OnTheirWay(ms: seq<Message>): seq<Decision> {
    if ms == [] then []
    else (if ms[0].Ack? then [Decision(ms[0].event, ms[0].verdict)] else []) + OnTheirWay(ms[1..])
  }

  function Passed(ds: seq<Delivery>): seq<Decision> {
    if ds == [] then [] else Passed(ds[..|ds| - 1]) + [Decision(ds[|ds| - 1].event, ds[|ds| - 1].verdict)]
  }

  lemma {:induction false} OneMoreOnTheWay(a: seq<Message>, m: Message)
    ensures OnTheirWay(a + [m]) == OnTheirWay(a) + (if m.Ack? then [Decision(m.event, m.verdict)] else [])
  {
    if a == [] {
      assert a + [m] == [m] && [m][1..] == [];
    } else {
      OneMoreOnTheWay(a[1..], m);
      assert (a + [m])[1..] == a[1..] + [m] && (a + [m])[0] == a[0];
      var head := if a[0].Ack? then [Decision(a[0].event, a[0].verdict)] else [];
      var own := if m.Ack? then [Decision(m.event, m.verdict)] else [];
      assert head + (OnTheirWay(a[1..]) + own) == (head + OnTheirWay(a[1..])) + own;
    }
  }

  lemma PassedOneMore(ds: seq<Delivery>, d: Delivery)
    ensures Passed(ds + [d]) == Passed(ds) + [Decision(d.event, d.verdict)]
  {
    assert (ds + [d])[..|ds|] == ds;
  }

  // Every decision reaches the closure of the event it was made for, none is lost or exchanged, and
  // they arrive in the order made.
  lemma {:induction false} VerdictsArrive(steps: seq<Step>)
    ensures var s := Run(START, steps); Passed(s.delivered) + OnTheirWay(s.messages) == Decided(steps)
  {
    if steps != [] {
      var front, last := steps[..|steps| - 1], steps[|steps| - 1];
      VerdictsArrive(front);
      VerdictStep(Run(START, front), last);
    }
  }

  lemma VerdictStep(s: State, step: Step)
    ensures var t := Next(s, step);
      Passed(t.delivered) + OnTheirWay(t.messages) == Passed(s.delivered) + OnTheirWay(s.messages) + DecidedBy(s, step)
  {
    match step
    case Process(v) =>
      if s.pending != [] {
        OneMoreOnTheWay(s.messages, Ack(s.pending[0], v));
      }
    case PostWrite(c, d, text) => OneMoreOnTheWay(s.messages, DocWrite(c, d, text));
    case Dispatch => VerdictDispatch(s);
    case _ =>
  }

  lemma VerdictDispatch(s: State)
    ensures var t := Next(s, Dispatch);
      Passed(t.delivered) + OnTheirWay(t.messages) == Passed(s.delivered) + OnTheirWay(s.messages)
  {
    if s.messages != [] && s.messages[0].Ack? {
      var t := Next(s, Dispatch);
      var d, rest := Decision(s.messages[0].event, s.messages[0].verdict), OnTheirWay(s.messages[1..]);
      PassedOneMore(s.delivered, t.delivered[|s.delivered|]);
      assert Passed(s.delivered) + ([d] + rest) == (Passed(s.delivered) + [d]) + rest;
    }
  }

  // What was posted for one document of one window, and what of it is still on the way.
  function Posted(steps: seq<Step>, c: Context, d: DocId): seq<string> {
    if steps == [] then []
    else
      var last := steps[|steps| - 1];
      Posted(steps[..|steps| - 1], c, d)
      + (if last.PostWrite? && last.context == c && last.docId == d then [last.text] else [])
  }

  function OnTheWay(ms: seq<Message>, c: Context, d: DocId): seq<string> {
    if ms == [] then [] else WrittenFor(ms[0], c, d) + OnTheWay(ms[1..], c, d)
  }

  function WrittenFor(m: Message, c: Context, d: DocId): seq<string> {
    if m.DocWrite? && m.context == c && m.docId == d then [m.text] else []
  }

  lemma {:induction false} OnTheWayConcat(a: seq<Message>, m: Message, c: Context, d: DocId)
    ensures OnTheWay(a + [m], c, d) == OnTheWay(a, c, d) + WrittenFor(m, c, d)
  {
    if a == [] {
      assert a + [m] == [m] && [m][1..] == [];
      assert WrittenFor(m, c, d) + [] == WrittenFor(m, c, d);
    } else {
      OnTheWayConcat(a[1..], m, c, d);
      assert (a + [m])[1..] == a[1..] + [m] && (a + [m])[0] == a[0];
      var head, rest, own := WrittenFor(a[0], c, d), OnTheWay(a[1..], c, d), WrittenFor(m, c, d);
      assert head + (rest + own) == (head + rest) + own;
    }
  }

  // The mocha thread stamps a write with a document id that has been given out.
  ghost predicate StampsIssued(steps: seq<Step>) {
    forall i :: 0 <= i < |steps| && steps[i].PostWrite? ==> steps[i].docId < At(steps, i).nextDoc
  }

  ghost predicate WritesFit(s: State, posted: seq<string>, c: Context, d: DocId) {
    && (s.nextDoc <= d ==> posted == [] && OnTheWay(s.messages, c, d) == [])
    && (c in s.doc ==> s.doc[c] < s.nextDoc)
    && (Current(s, c) == Some(d) ==> c in s.page && s.page[c] + OnTheWay(s.messages, c, d) == posted)
  }

  lemma WritesDispatched(s: State, posted: seq<string>, c: Context, d: DocId)
    requires WritesFit(s, posted, c, d)
    ensures WritesFit(Next(s, Dispatch), posted, c, d)
  {
    if s.messages != [] {
      var t, m := Next(s, Dispatch), s.messages[0];
      if m.DocWrite? && m.context == c && m.docId == d && Current(s, c) == Some(d) {
        assert t.page[c] == s.page[c] + [m.text];
        assert OnTheWay(s.messages, c, d) == [m.text] + OnTheWay(t.messages, c, d);
        assert s.page[c] + ([m.text] + OnTheWay(t.messages, c, d)) == t.page[c] + OnTheWay(t.messages, c, d);
      } else {
        assert OnTheWay(s.messages, c, d) == OnTheWay(t.messages, c, d) || Current(s, c) != Some(d);
      }
    }
  }

  lemma WritesStep(s: State, step: Step, posted: seq<string>, c: Context, d: DocId)
    requires WritesFit(s, posted, c, d) && (step.PostWrite? ==> step.docId < s.nextDoc)
    ensures WritesFit(Next(s, step),
      posted + (if step.PostWrite? && step.context == c && step.docId == d then [step.text] else []), c, d)
  {
    match step
    case Process(v) =>
      if s.pending != [] {
        OnTheWayConcat(s.messages, Ack(s.pending[0], v), c, d);
      }
    case PostWrite(b, e, text) => OnTheWayConcat(s.messages, DocWrite(b, e, text), c, d);
    case Dispatch => WritesDispatched(s, posted, c, d);
    case _ =>
  }

  // A document that is showing has received everything posted for it but what is still on the way,
  // each text once and in the order posted.
  lemma {:induction false} WritesArrive(steps: seq<Step>, c: Context, d: DocId)
    requires StampsIssued(steps)
    ensures WritesFit(Run(START, steps), Posted(steps, c, d), c, d)
  {
    if steps != [] {
      var n := |steps| - 1;
      forall i | 0 <= i < n && steps[..n][i].PostWrite?
        ensures steps[..n][i].docId < At(steps[..n], i).nextDoc
      {
        assert steps[..n][..i] == steps[..i];
      }
      WritesArrive(steps[..n], c, d);
      WritesStep(Run(START, steps[..n]), steps[n], Posted(steps[..n], c, d), c, d);
    }
  }

  // ---------- Everything is answered ----------

  function Processes(verdicts: seq<Status>): seq<Step> {
    seq(|verdicts|, i requires 0 <= i < |verdicts| => Process(verdicts[i]))
  }

  function Dispatches(n: nat): seq<Step> {
    seq(n, _ => Dispatch)
  }

  lemma {:induction false} RunConcat(s: State, a: seq<Step>, b: seq<Step>)
    ensures Run(s, a + b) == Run(Run(s, a), b)
    decreases |b|
  {
    if b == [] {
      assert a + b == a;
    } else {
      RunConcat(s, a, b[..|b| - 1]);
      assert (a + b)[..|a + b| - 1] == a + b[..|b| - 1];
    }
  }

  // The mocha thread takes the events in the order queued, one at a time.
  lemma {:induction false} TakenByMocha(s: State, verdicts: seq<Status>)
    requires |verdicts| <= |s.pending|
    ensures var t := Run(s, Processes(verdicts));
      && t.pending == s.pending[|verdicts|..] && |t.messages| == |s.messages| + |verdicts|
      && t.sent == s.sent && t.dropped == s.dropped && Line(t) == Line(s)
  {
    if verdicts == [] {
      assert Processes(verdicts) == [];
    } else {
      var n := |verdicts| - 1;
      TakenByMocha(s, verdicts[..n]);
      assert Processes(verdicts)[..n] == Processes(verdicts[..n]);
      LineMoves(Run(s, Processes(verdicts[..n])), Process(verdicts[n]));
      hide Line;
    }
  }

  // The mozilla thread takes acks and writes in the order posted, one at a time.
  lemma {:induction false} TakenBack(s: State, n: nat)
    requires n <= |s.messages|
    ensures var t := Run(s, Dispatches(n));
      && t.messages == s.messages[n..] && t.pending == s.pending
      && t.sent == s.sent && t.dropped == s.dropped && Line(t) == Line(s)
  {
    if n == 0 {
      assert Dispatches(0) == [];
    } else {
      TakenBack(s, n - 1);
      assert Dispatches(n)[..n - 1] == Dispatches(n - 1);
      LineMoves(Run(s, Dispatches(n - 1)), Dispatch);
      hide Line;
    }
  }

  // From wherever a run has come to, once the mocha thread has taken what is pending, whatever it
  // decides, and the mozilla thread what then is on its way, every event sent and not removed by an
  // interrupt has been answered, in the order sent, and nothing is queued.
  lemma EverythingAnswered(steps: seq<Step>, verdicts: seq<Status>)
    requires |verdicts| == |Run(START, steps).pending|
    ensures var s := Run(START, steps);
      var t := Run(START, steps + Processes(verdicts) + Dispatches(|s.messages| + |verdicts|));
      && t.pending == [] && t.messages == [] && Finished(t.delivered) == Line(s)
      && t.sent == s.sent && t.dropped == s.dropped
  {
    hide *;
    var s := Run(START, steps);
    var m := Run(s, Processes(verdicts));
    TakenByMocha(s, verdicts);
    TakenBack(m, |m.messages|);
    RunConcat(START, steps, Processes(verdicts));
    RunConcat(START, steps + Processes(verdicts), Dispatches(|m.messages|));
    QuietLine(Run(m, Dispatches(|m.messages|)));
  }

  function WhereFinished(ds: seq<Delivery>, e: JsEvent): (k: nat)
    requires e in Finished(ds)
    ensures k < |ds| && ds[k].event == e
  {
    if ds[|ds| - 1].event == e then |ds| - 1 else WhereFinished(ds[..|ds| - 1], e)
  }

  // So every send into an open window ends in a call of its closure, unless an interrupt removed it.
  lemma EverySendAnswered(steps: seq<Step>, verdicts: seq<Status>, i: nat, c: Context, d: DocId) returns (k: nat)
    requires |verdicts| == |Run(START, steps).pending|
    requires i < |steps| && steps[i] == Send(c) && Current(At(steps, i), c) == Some(d)
    ensures var s, e := Run(START, steps), JsEvent(|At(steps, i).sent|, c, d);
      var t := Run(START, steps + Processes(verdicts) + Dispatches(|s.messages| + |verdicts|));
      SentAt(steps, i, e) && (e in s.dropped || (k < |t.delivered| && t.delivered[k].event == e))
  {
    var s, e := Run(START, steps), JsEvent(|At(steps, i).sent|, c, d);
    var t := Run(START, steps + Processes(verdicts) + Dispatches(|s.messages| + |verdicts|));
    SendQueues(steps, i, c);
    EverythingAnswered(steps, verdicts);
    ConservedRun(steps);
    k := if e in s.dropped then 0 else WhereFinished(t.delivered, e);
  }

  // ---------- The two threads' shared state, updated in place ----------

  class EventThreads {
    var doc: map<Context, DocId>
    var page: map<Context, seq<string>>
    var nextDoc: DocId
    var sent: seq<JsEvent>
    var pending: seq<JsEvent>
    var messages: seq<Message>
    var delivered: seq<Delivery>
    var dropped: seq<JsEvent>

    function View(): State
      reads this
    {
      State(doc, page, nextDoc, sent, pending, messages, delivered, dropped)
    }

    constructor ()
      ensures View() == START
    {
      doc, page, nextDoc, sent := map[], map[], 0, [];
      pending, messages, delivered, dropped := [], [], [], [];
    }

    method OpenWindow(c: Context)
      modifies this
      ensures View() == Next(old(View()), Step.OpenWindow(c))
    {
      if c !in doc {
        doc, page, nextDoc := doc[c := nextDoc], page[c := []], nextDoc + 1;
      }
    }

    method CloseWindow(c: Context)
      modifies this
      ensures View() == Next(old(View()), Step.CloseWindow(c))
    {
      doc, page := doc - {c}, page - {c};
    }

    method NewDocument(c: Context)
      modifies this
      ensures View() == Next(old(View()), Step.NewDocument(c))
    {
      if c in doc {
        doc, page, nextDoc := doc[c := nextDoc], page[c := []], nextDoc + 1;
      }
    }

    method ET_SendEvent(c: Context) returns (ok: bool)
      modifies this
      ensures View() == Next(old(View()), Send(c)) && ok == (c in old(doc))
      ensures ok ==> pending == old(pending) + [JsEvent(|old(sent)|, c, old(doc)[c])]
    {
      ok := c in doc;
      if ok {
        var e := JsEvent(|sent|, c, doc[c]);
        pending, sent := pending + [e], sent + [e];
      }
    }

    method ET_InterruptContext(c: Context)
      modifies this
      ensures View() == Next(old(View()), Interrupt(c))
    {
      var keep: seq<JsEvent>, drop: seq<JsEvent>, i := [], [], 0;
      assert pending[0..] == pending && [] + Except(pending, c) == Except(pending, c);
      assert [] + Only(pending, c) == Only(pending, c);
      while i < |pending|
        invariant 0 <= i <= |pending| && View() == old(View())
        invariant keep + Except(pending[i..], c) == Except(pending, c)
        invariant drop + Only(pending[i..], c) == Only(pending, c)
      {
        ContextStep(pending, i, c, keep, drop);
        if pending[i].context == c {
          drop := drop + [pending[i]];
        } else {
          keep := keep + [pending[i]];
        }
        i := i + 1;
      }
      assert keep == Except(pending, c) && drop == Only(pending, c);
      pending, dropped := keep, dropped + drop;
    }

    // The mocha thread takes the oldest event, handles it and posts the answer.
    method HandleEvent(verdict: Status)
      modifies this
      ensures View() == Next(old(View()), Process(verdict))
    {
      if pending != [] {
        var e := pending[0];
        pending := pending[1..];
        ET_PostJsEventAck(e, verdict);
      }
    }

    method ET_PostJsEventAck(e: JsEvent, verdict: Status)
      modifies `messages
      ensures messages == old(messages) + [Ack(e, verdict)]
    {
      messages := messages + [Ack(e, verdict)];
    }

    method ET_lo_DoDocWrite(c: Context, d: DocId, text: string)
      modifies `messages
      ensures View() == Next(old(View()), PostWrite(c, d, text))
    {
      messages := messages + [DocWrite(c, d, text)];
    }

    // The mozilla thread takes one message off its queue.
    method DispatchMessage()
      modifies this
      ensures View() == Next(old(View()), Dispatch)
    {
      if messages == [] {
        return;
      }
      var m := messages[0];
      messages := messages[1..];
      match m
      case Ack(e, v) =>
        var now := if e.context in doc then Some(doc[e.context]) else None;
        var status := if now == Some(e.docId) then v else PANIC;
        delivered := delivered + [Delivery(e, v, status)];
      case DocWrite(c, d, text) =>
        if c in doc && doc[c] == d && c in page {
          page := page[c := page[c] + [text]];
        }
    }
  }
}
