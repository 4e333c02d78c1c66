/**
  Undo, redo, history limit and batching of include/edt.h.

  Documented contracts: the limit bounds the total of both lists and is ignored when negative; a
  batch becomes one command, and a batch without changes leaves the history as it was.  The
  comments leave two things open, and the model settles them: a new edit empties the redo list, and
  lowering the limit drops the commands farthest from the present, undo commands first.
 */
module EditHistory {

  type Document = string

  // A command with the document before and after it.
  datatype Command = Command(before: Document, after: Document)

  datatype Batch = Closed | Open(start: Document, changed: bool)

  datatype State = State(
    doc: Document,
    undo: seq<Command>,   // most recent last
    redo: seq<Command>,   // next to redo last
    limit: nat,
    batch: Batch)

  datatype Op = Edit(doc: Document) | Undo | Redo | SetLimit(limit: int) | Begin | End

  // ---------- The calls ----------

  function Last<T>(xs: seq<T>, n: nat): seq<T> {
    if |xs| <= n then xs else xs[|xs| - n..]
  }

  function Trimmed(s: State): State {
    var redo := Last(s.redo, s.limit);
    s.(redo := redo, undo := Last(s.undo, s.limit - |redo|))
  }

  function Recorded(s: State, c: Command): State {
    Trimmed(s.(undo := s.undo + [c], redo := []))
  }

  // Undo and redo wait until a batch has ended; batches do not nest.
  function Next(s: State, op: Op): State {
    match op
    case Edit(d) =>
      if s.batch.Open? then s.(doc := d, batch := Open(s.batch.start, true))
      else Recorded(s, Command(s.doc, d)).(doc := d)
    case Undo =>
      if s.undo == [] || s.batch.Open? then s
      else
        var c := s.undo[|s.undo| - 1];
        s.(doc := c.before, undo := s.undo[..|s.undo| - 1], redo := s.redo + [c])
    case Redo =>
      if s.redo == [] || s.batch.Open? then s
      else
        var c := s.redo[|s.redo| - 1];
        s.(doc := c.after, redo := s.redo[..|s.redo| - 1], undo := s.undo + [c])
    case SetLimit(n) => if n < 0 then s else Trimmed(s.(limit := n))
    case Begin => if s.batch.Open? then s else s.(batch := Open(s.doc, false))
    case End =>
      if s.batch.Closed? then s
      else if !s.batch.changed then s.(batch := Closed)
      else Recorded(s, Command(s.batch.start, s.doc)).(batch := Closed)
  }

  function Run(s: State, ops: seq<Op>): State {
    if ops == [] then s else Next(Run(s, ops[..|ops| - 1]), ops[|ops| - 1])
  }

  function Start(doc: Document, limit: nat): State {
    State(doc, [], [], limit, Closed)
  }

  // ---------- What every run keeps ----------

  // The document the history lists join at: the one a batch started from while a batch is open.
  function Joint(s: State): Document {
    if s.batch.Open? then s.batch.start else s.doc
  }

  // A command to undo leads to where the next one starts, a command to redo starts where the next
  // one leads; the last of each meets the joint.
  ghost predicate UndoMeets(undo: seq<Command>, joint: Document, i: nat)
    requires i < |undo|
  {
    undo[i].after == if i + 1 < |undo| then undo[i + 1].before else joint
  }

  ghost predicate RedoMeets(redo: seq<Command>, joint: Document, i: nat)
    requires i < |redo|
  {
    redo[i].before == if i + 1 < |redo| then redo[i + 1].after else joint
  }

  ghost predicate Chained(undo: seq<Command>, joint: Document, redo: seq<Command>) {
    && (forall i :: 0 <= i < |undo| ==> UndoMeets(undo, joint, i))
    && (forall i :: 0 <= i < |redo| ==> RedoMeets(redo, joint, i))
  }

  ghost predicate Good(s: State) {
    && Chained(s.undo, Joint(s), s.redo)
    && |s.undo| + |s.redo| <= s.limit
    && (s.batch.Open? && !s.batch.changed ==> s.doc == s.batch.start)
  }

  lemma TrimKeeps(s: State)
    requires Chained(s.undo, Joint(s), s.redo)
    ensures var t := Trimmed(s); Chained(t.undo, Joint(t), t.redo) && |t.undo| + |t.redo| <= t.limit
  {
    var t := Trimmed(s);
    forall i | 0 <= i < |t.undo|
      ensures UndoMeets(t.undo, Joint(t), i)
    {
      assert UndoMeets(s.undo, Joint(s), |s.undo| - |t.undo| + i);
    }
    forall i | 0 <= i < |t.redo|
      ensures RedoMeets(t.redo, Joint(t), i)
    {
      assert RedoMeets(s.redo, Joint(s), |s.redo| - |t.redo| + i);
    }
  }

  lemma RecordKeeps(s: State, c: Command)
    requires Chained(s.undo, c.before, s.redo) && Joint(s) == c.after
    ensures var t := Recorded(s, c); Chained(t.undo, Joint(t), t.redo) && |t.undo| + |t.redo| <= t.limit
  {
    var u := s.(undo := s.undo + [c], redo := []);
    forall i | 0 <= i < |u.undo|
      ensures UndoMeets(u.undo, Joint(u), i)
    {
      if i < |s.undo| {
        assert UndoMeets(s.undo, c.before, i);
      }
    }
    TrimKeeps(u);
  }

  lemma UndoKeeps(s: State)
    requires Good(s) && s.undo != [] && s.batch.Closed?
    ensures Good(Next(s, Undo))
  {
    var n, t := |s.undo| - 1, Next(s, Undo);
    assert UndoMeets(s.undo, s.doc, n);
    forall i | 0 <= i < n
      ensures UndoMeets(t.undo, t.doc, i)
    {
      assert UndoMeets(s.undo, s.doc, i);
    }
    forall i | 0 <= i < |t.redo|
      ensures RedoMeets(t.redo, t.doc, i)
    {
      if i < |s.redo| {
        assert RedoMeets(s.redo, s.doc, i);
      }
    }
  }

  lemma RedoKeeps(s: State)
    requires Good(s) && s.redo != [] && s.batch.Closed?
    ensures Good(Next(s, Redo))
  {
    var n, t := |s.redo| - 1, Next(s, Redo);
    assert RedoMeets(s.redo, s.doc, n);
    forall i | 0 <= i < n
      ensures RedoMeets(t.redo, t.doc, i)
    {
      assert RedoMeets(s.redo, s.doc, i);
    }
    forall i | 0 <= i < |t.undo|
      ensures UndoMeets(t.undo, t.doc, i)
    {
      if i < |s.undo| {
        assert UndoMeets(s.undo, s.doc, i);
      }
    }
  }

  lemma NextKeeps(s: State, op: Op)
    requires Good(s)
    ensures Good(Next(s, op))
  {
    match op
    case Edit(d) =>
      if s.batch.Closed? {
        RecordKeeps(s.(doc := d), Command(s.doc, d));
      }
    case Undo =>
      if s.undo != [] && s.batch.Closed? {
        UndoKeeps(s);
      }
    case Redo =>
      if s.redo != [] && s.batch.Closed? {
        RedoKeeps(s);
      }
    case SetLimit(n) =>
      if n >= 0 {
        TrimKeeps(s.(limit := n));
      }
    case End =>
      if s.batch.Open? && s.batch.changed {
        RecordKeeps(s.(batch := Closed), Command(s.batch.start, s.doc));
      }
    case Begin =>
  }

  lemma {:induction false} GoodAfter(s: State, ops: seq<Op>)
    requires Good(s)
    ensures Good(Run(s, ops))
  {
    if ops != [] {
      GoodAfter(s, ops[..|ops| - 1]);
      NextKeeps(Run(s, ops[..|ops| - 1]), ops[|ops| - 1]);
    }
  }

  // Over every run the lists fit the document and together never exceed the limit.
  lemma RunKeeps(doc: Document, limit: nat, ops: seq<Op>)
    ensures Good(Run(Start(doc, limit), ops))
  {
    GoodAfter(Start(doc, limit), ops);
  }

  // ---------- Undo and redo undo each other ----------

  function Times(op: Op, n: nat): seq<Op> {
    seq(n, _ => op)
  }

  lemma UndoRedo(s: State)
    requires Good(s) && s.batch.Closed? && s.undo != []
    ensures Next(Next(s, Undo), Redo) == s
  {
    var n := |s.undo| - 1;
    assert UndoMeets(s.undo, s.doc, n);
    assert s.undo[..n] + [s.undo[n]] == s.undo;
    assert (s.redo + [s.undo[n]])[..|s.redo|] == s.redo;
  }

  lemma RedoUndo(s: State)
    requires Good(s) && s.batch.Closed? && s.redo != []
    ensures Next(Next(s, Redo), Undo) == s
  {
    var n := |s.redo| - 1;
    assert RedoMeets(s.redo, s.doc, n);
    assert s.redo[..n] + [s.redo[n]] == s.redo;
    assert (s.undo + [s.redo[n]])[..|s.undo|] == s.undo;
  }

  lemma {:induction false} RunConcat(s: State, a: seq<Op>, b: seq<Op>)
    ensures Run(s, a + b) == Run(Run(s, a), b)
    decreases |b|
  {
    if b == [] {
      assert a + b == a;
    } else {
      RunConcat(s, a, b[..|b| - 1]);
      assert (a + b)[..|a + b| - 1] == a + b[..|b| - 1];
    }
  }

  // As many redos as undos restore the document and the whole history.
  lemma {:induction false} UndoRedoTimes(s: State, n: nat)
    requires Good(s) && s.batch.Closed? && n <= |s.undo|
    ensures Run(s, Times(Undo, n) + Times(Redo, n)) == s
    decreases n
  {
    if n == 0 {
      assert Times(Undo, 0) + Times(Redo, 0) == [];
    } else {
      var t := Next(s, Undo);
      NextKeeps(s, Undo);
      UndoRedoTimes(t, n - 1);
      var inner := Times(Undo, n - 1) + Times(Redo, n - 1);
      assert Times(Undo, n) + Times(Redo, n) == [Undo] + inner + [Redo];
      RunConcat(s, [Undo], inner);
      RunConcat(s, [Undo] + inner, [Redo]);
      UndoRedo(s);
    }
  }

  // The limit costs no more commands than it must, and those farthest from the present: redo
  // commands go only when every undo command has gone.
  lemma TrimLosesLeast(s: State)
    ensures var t := Trimmed(s);
      && |t.undo| + |t.redo| == (if |s.undo| + |s.redo| <= s.limit then |s.undo| + |s.redo| else s.limit)
      && t.undo == s.undo[|s.undo| - |t.undo|..] && t.redo == s.redo[|s.redo| - |t.redo|..]
      && (t.undo != [] ==> t.redo == s.redo)
      && t.doc == s.doc && t.limit == s.limit && t.batch == s.batch
  {
  }

  // ---------- The limit ----------

  // Setting a limit puts it in force at once: the lists keep what is nearest the present, as many
  // commands as the limit lets them, and nothing else changes.  A negative one is ignored.
  lemma LimitSet(s: State, n: int)
    ensures var t := Next(s, SetLimit(n));
      if n < 0 then t == s
      else
        && t.limit == n && t.doc == s.doc && t.batch == s.batch
        && |t.undo| + |t.redo| == (if |s.undo| + |s.redo| <= n then |s.undo| + |s.redo| else n)
        && |t.undo| <= |s.undo| && t.undo == s.undo[|s.undo| - |t.undo|..]
        && |t.redo| <= |s.redo| && t.redo == s.redo[|s.redo| - |t.redo|..]
        && (t.undo != [] ==> t.redo == s.redo)
  {
    if n >= 0 {
      TrimLosesLeast(s.(limit := n));
    }
  }

  // The last limit set that is not negative.
  function LastLimit(limit: nat, ops: seq<Op>): nat {
    if ops == [] then limit
    else
      var last := ops[|ops| - 1];
      if last.SetLimit? && last.limit >= 0 then last.limit else LastLimit(limit, ops[..|ops| - 1])
  }

  // Over every run that is the limit in force, so it bounds the total of both lists.
  lemma {:induction false} LimitInForce(doc: Document, limit: nat, ops: seq<Op>)
    ensures var s := Run(Start(doc, limit), ops);
      s.limit == LastLimit(limit, ops) && |s.undo| + |s.redo| <= LastLimit(limit, ops)
  {
    RunKeeps(doc, limit, ops);
    LimitAfter(Start(doc, limit), ops);
  }

  lemma {:induction false} LimitAfter(s: State, ops: seq<Op>)
    ensures Run(s, ops).limit == LastLimit(s.limit, ops)
  {
    if ops != [] {
      LimitAfter(s, ops[..|ops| - 1]);
    }
  }

  // ---------- How far undo goes ----------

  function Min(a: nat, b: nat): nat {
    if a < b then a else b
  }

  // Undoing k times moves the k last commands over, or all there are.
  lemma {:induction false} UndoneTimes(s: State, k: nat)
    requires Good(s) && s.batch.Closed?
    ensures var t, j := Run(s, Times(Undo, k)), Min(k, |s.undo|);
      && Good(t) && t.batch.Closed? && t.undo == s.undo[..|s.undo| - j]
      && t.doc == (if j == 0 then s.doc else s.undo[|s.undo| - j].before)
  {
    if k > 0 {
      UndoneTimes(s, k - 1);
      assert Times(Undo, k)[..k - 1] == Times(Undo, k - 1);
      NextKeeps(Run(s, Times(Undo, k - 1)), Undo);
    } else {
      assert Times(Undo, 0) == [];
    }
  }

  // What an edit leaves: its own command last, nothing to redo.
  lemma Edited(s: State, d: Document, ops: seq<Op>)
    requires Good(s) && s.batch.Closed?
    ensures var e := Next(s, Edit(d));
      && Good(e) && e.batch.Closed? && e.doc == d && e.redo == [] && |s.undo| <= s.limit
      && e.undo == Last(s.undo + [Command(s.doc, d)], s.limit) && Run(s, [Edit(d)] + ops) == Run(e, ops)
  {
    NextKeeps(s, Edit(d));
    RunConcat(s, [Edit(d)], ops);
    assert [Edit(d)][..0] == [];
  }

  // A new edit goes on top of what can be undone: one undo takes it back, and k more show what k
  // undos would have shown before it, as far back as the limit ...
  lemma EditGoesOnTop(s: State, d: Document, k: nat)
    requires Good(s) && s.batch.Closed?
    ensures Run(s, [Edit(d)] + Times(Undo, k + 1)).doc
      == if s.limit == 0 then d else Run(s, Times(Undo, Min(k, s.limit - 1))).doc
  {
    var e := Next(s, Edit(d));
    hide Run, Next, Good, Times;
    Edited(s, d, Times(Undo, k + 1));
    UndoneTimes(e, k + 1);
    if s.limit > 0 {
      UndoneTimes(s, Min(k, s.limit - 1));
    }
  }

  // ... and nothing can be redone after it.
  lemma EditEndsRedo(s: State, d: Document, n: nat)
    requires Good(s) && s.batch.Closed?
    ensures Next(s, Edit(d)).doc == d && Run(s, [Edit(d)] + Times(Redo, n)) == Next(s, Edit(d))
  {
    Edited(s, d, Times(Redo, n));
    NothingToRedo(Next(s, Edit(d)), n);
  }

  lemma {:induction false} NothingToRedo(s: State, n: nat)
    requires s.redo == []
    ensures Run(s, Times(Redo, n)) == s
  {
    if n == 0 {
      assert Times(Redo, 0) == [];
    } else {
      NothingToRedo(s, n - 1);
      assert Times(Redo, n)[..n - 1] == Times(Redo, n - 1);
    }
  }

  function Edits(docs: seq<Document>): seq<Op> {
    seq(|docs|, i requires 0 <= i < |docs| => Edit(docs[i]))
  }

  // The document after the first i edits.
  function Past(doc: Document, docs: seq<Document>, i: nat): Document
    requires i <= |docs|
  {
    if i == 0 then doc else docs[i - 1]
  }

  function Commands(doc: Document, docs: seq<Document>): seq<Command> {
    seq(|docs|, i requires 0 <= i < |docs| => Command(Past(doc, docs, i), Past(doc, docs, i + 1)))
  }

  lemma CommandsGrow(doc: Document, docs: seq<Document>, d: Document)
    ensures Commands(doc, docs + [d]) == Commands(doc, docs) + [Command(Past(doc, docs, |docs|), d)]
  {
    assert forall i :: 0 <= i <= |docs| ==> Past(doc, docs + [d], i) == Past(doc, docs, i);
  }

  // The history holds the latest edits, as many as the limit lets it.
  lemma {:induction false} EditsRecorded(doc: Document, limit: nat, docs: seq<Document>)
    ensures Run(Start(doc, limit), Edits(docs))
      == State(Past(doc, docs, |docs|), Last(Commands(doc, docs), limit), [], limit, Closed)
  {
    if docs != [] {
      hide Last, Commands;
      var n, front := |docs| - 1, docs[..|docs| - 1];
      EditsRecorded(doc, limit, front);
      assert Edits(docs)[..n] == Edits(front);
      var c := Command(Past(doc, front, n), docs[n]);
      CommandsGrow(doc, front, docs[n]);
      assert docs == front + [docs[n]];
    } else {
      assert Edits(docs) == [];
    }
  }

  // So from a fresh document undo goes back one edit at a time, as far as the limit and no farther.
  lemma UndoReaches(doc: Document, limit: nat, docs: seq<Document>, k: nat)
    ensures Run(Start(doc, limit), Edits(docs) + Times(Undo, k)).doc
      == Past(doc, docs, |docs| - Min(k, Min(limit, |docs|)))
  {
    hide Run, Next, Good, Edits, Times;
    var s := Run(Start(doc, limit), Edits(docs));
    RunConcat(Start(doc, limit), Edits(docs), Times(Undo, k));
    RunKeeps(doc, limit, Edits(docs));
    EditsRecorded(doc, limit, docs);
    UndoneTimes(s, k);
    assert |s.undo| == Min(limit, |docs|);
  }

  // ---------- Batches ----------

  // What an open batch does with all but its end: the document is the one last edited to.
  function LastEdit(doc: Document, ops: seq<Op>): Document {
    if ops == [] then doc
    else if ops[|ops| - 1].Edit? then ops[|ops| - 1].doc
    else LastEdit(doc, ops[..|ops| - 1])
  }

  predicate AnyEdit(ops: seq<Op>) {
    exists i :: 0 <= i < |ops| && ops[i].Edit?
  }

  predicate NoneEnds(ops: seq<Op>) {
    forall i :: 0 <= i < |ops| ==> !ops[i].End?
  }

  // While a batch is open undo, redo and another begin do nothing.
  lemma {:induction false} InBatch(s: State, ops: seq<Op>)
    requires s.batch.Open? && NoneEnds(ops)
    ensures var t := Run(s, ops);
      && t.doc == LastEdit(s.doc, ops) && t.batch == Open(s.batch.start, s.batch.changed || AnyEdit(ops))
      && ((forall i :: 0 <= i < |ops| ==> !ops[i].SetLimit?) ==>
            t.undo == s.undo && t.redo == s.redo && t.limit == s.limit)
  {
    if ops != [] {
      InBatch(s, ops[..|ops| - 1]);
      assert ops == ops[..|ops| - 1] + [ops[|ops| - 1]];
    }
  }

  // A batch in which nothing was changed leaves document and history as they were.
  lemma EmptyBatch(s: State, ops: seq<Op>)
    requires s.batch.Closed? && forall i :: 0 <= i < |ops| ==> ops[i] in [Undo, Redo, Begin]
    ensures Run(s, [Begin] + ops + [End]) == s
  {
    BatchRuns(s, ops);
    InBatch(Next(s, Begin), ops);
    NothingEdited(s.doc, ops);
  }

  lemma {:induction false} NothingEdited(doc: Document, ops: seq<Op>)
    requires !AnyEdit(ops)
    ensures LastEdit(doc, ops) == doc
  {
    if ops != [] {
      NothingEdited(doc, ops[..|ops| - 1]);
    }
  }

  lemma BatchRuns(s: State, ops: seq<Op>)
    ensures Run(s, [Begin] + ops + [End]) == Next(Run(Next(s, Begin), ops), End)
  {
    RunConcat(s, [Begin] + ops, [End]);
    RunConcat(s, [Begin], ops);
    assert [Begin][..0] == [] && [End][..0] == [];
  }

  // A batch with changes leaves what one edit to its last document would have left.
  lemma BatchIsOneEdit(s: State, ops: seq<Op>)
    requires s.batch.Closed? && NoneEnds(ops) && AnyEdit(ops) && forall i :: 0 <= i < |ops| ==> !ops[i].SetLimit?
    ensures Run(s, [Begin] + ops + [End]) == Next(s, Edit(LastEdit(s.doc, ops)))
  {
    BatchRuns(s, ops);
    InBatch(Next(s, Begin), ops);
  }

  // However many changes a batch holds, and whatever else is called before its end, one undo takes
  // all of them back, and one redo returns them.
  lemma BatchIsOneCommand(s: State, ops: seq<Op>)
    requires Good(s) && s.batch.Closed? && NoneEnds(ops) && AnyEdit(ops) && LastLimit(s.limit, ops) > 0
    ensures var t := Run(s, [Begin] + ops + [End]);
      && t.doc == LastEdit(s.doc, ops) && t.batch.Closed?
      && Next(t, Undo).doc == s.doc && Next(Next(t, Undo), Redo) == t
  {
    var b := Next(s, Begin);
    var e := Run(b, ops);
    BatchRuns(s, ops);
    InBatch(b, ops);
    LimitAfter(b, ops);
    NextKeeps(s, Begin);
    GoodAfter(b, ops);
    NextKeeps(e, End);
    UndoRedo(Next(e, End));
  }

  // ---------- The editor's history, updated in place ----------

  // Dropping the farthest command of lists that are too long changes nothing in what is kept.
  lemma FarthestGoes(s: State)
    ensures |s.undo| + |s.redo| > s.limit && s.undo != [] ==> Trimmed(s.(undo := s.undo[1..])) == Trimmed(s)
    ensures |s.redo| > s.limit && s.undo == [] ==> Trimmed(s.(redo := s.redo[1..])) == Trimmed(s)
    ensures |s.undo| + |s.redo| <= s.limit ==> Trimmed(s) == s
  {
  }

  class History {
    var doc: Document
    var undo: seq<Command>
    var redo: seq<Command>
    var limit: nat
    var batch: Batch

    function View(): State
      reads this
    {
      State(doc, undo, redo, limit, batch)
    }

    constructor (doc: Document, limit: nat)
      ensures View() == Start(doc, limit)
    {
      this.doc, undo, redo, this.limit, batch := doc, [], [], limit, Closed;
    }

    // Drops commands one at a time until both lists fit.
    method Trim()
      modifies `undo, `redo
      ensures View() == Trimmed(old(View()))
    {
      hide Trimmed;
      while undo != [] && |undo| + |redo| > limit
        invariant Trimmed(View()) == Trimmed(old(View()))
        decreases |undo|
      {
        FarthestGoes(View());
        undo := undo[1..];
      }
      while |redo| > limit
        invariant Trimmed(View()) == Trimmed(old(View()))
        invariant undo == [] || |undo| + |redo| <= limit
        decreases |redo|
      {
        FarthestGoes(View());
        redo := redo[1..];
      }
      FarthestGoes(View());
    }

    method Edit(d: Document)
      modifies this
      ensures View() == Next(old(View()), Op.Edit(d))
    {
      if batch.Open? {
        batch := Open(batch.start, true);
      } else {
        undo, redo := undo + [Command(doc, d)], [];
        Trim();
      }
      doc := d;
    }

    method EDT_Undo()
      modifies this
      ensures View() == Next(old(View()), Undo)
    {
      if undo != [] && batch.Closed? {
        var c := undo[|undo| - 1];
        doc, undo, redo := c.before, undo[..|undo| - 1], redo + [c];
      }
    }

    method EDT_Redo()
      modifies this
      ensures View() == Next(old(View()), Redo)
    {
      if redo != [] && batch.Closed? {
        var c := redo[|redo| - 1];
        doc, redo, undo := c.after, redo[..|redo| - 1], undo + [c];
      }
    }

    method EDT_SetCommandHistoryLimit(n: int)
      modifies this
      ensures View() == Next(old(View()), SetLimit(n))
    {
      if n >= 0 {
        limit := n;
        Trim();
      }
    }

    method EDT_BeginBatchChanges()
      modifies this
      ensures View() == Next(old(View()), Begin)
    {
      if batch.Closed? {
        batch := Open(doc, false);
      }
    }

    method EDT_EndBatchChanges()
      modifies this
      ensures View() == Next(old(View()), End)
    {
      if batch.Open? {
        if batch.changed {
          undo, redo := undo + [Command(batch.start, doc)], [];
          Trim();
        }
        batch := Closed;
      }
    }
  }
}
