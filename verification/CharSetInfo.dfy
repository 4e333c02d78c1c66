/**
  Charset precedence and the relayout flag of include/intl_csi.h, with the METACHARSET enum of
  include/libi18n.h and the CS_ values of include/csid.h.

  Every rule here is a documented contract.  The comment on INTL_CSIInitialize lists alternatives
  that overlap; it is read as two choices made one after the other: its first two points are the
  reset-or-reload choice, the others are the choice of charset.  Where a comment speaks of the
  document charset without saying "field", the highest-ranked one that is set is meant.

  Charset names are given as the csid that INTL_CharSetNameToID finds for them, CS_UNKNOWN when
  there is no name or it is unknown; docToWin stands for INTL_DocToWinCharSetID.  The flag is moved
  by resets, loads and reports alone: INTL_SetCSIRelayoutFlag, which stores any value, is not part of
  this model.
 */
module CharSetInfo {

  type Csid = int

  const CS_DEFAULT: Csid := 0
  const CS_UNKNOWN: Csid := 255

  datatype Relayout = None | HasCharset | RequestRelayout | ForceRelayout | RelayoutDone

  datatype ContextType = Mail | News | Other

  predicate MailOrNews(t: ContextType) {
    t != Other
  }

  predicate Known(x: Csid) {
    x != CS_DEFAULT && x != CS_UNKNOWN
  }

  // ---------- The fields and what each call does to them ----------

  datatype Csi = Csi(over: Csid, http: Csid, meta: Csid, doc: Csid, win: Csid, relayout: Relayout)

  const RESET := Csi(CS_DEFAULT, CS_DEFAULT, CS_DEFAULT, CS_DEFAULT, CS_DEFAULT, None)

  function WithOverride(c: Csi, x: Csid): Csi {
    c.(over := x)
  }

  function WithHttp(c: Csi, x: Csid): Csi {
    if c.over == CS_DEFAULT then c.(http := x) else c
  }

  function WithMeta(c: Csi, x: Csid): Csi {
    if c.over == CS_DEFAULT && c.http == CS_DEFAULT then c.(meta := x) else c
  }

  function WithDoc(c: Csi, x: Csid): Csi {
    if c.over == CS_DEFAULT && c.http == CS_DEFAULT && c.meta == CS_DEFAULT then c.(doc := x) else c
  }

  // The charset a reader of the fields should use: the highest-ranked one that is set.
  function Effective(c: Csi): Csid {
    if c.over != CS_DEFAULT then c.over
    else if c.http != CS_DEFAULT then c.http
    else if c.meta != CS_DEFAULT then c.meta
    else c.doc
  }

  function Initialized(c: Csi, reload: bool, http: Csid, t: ContextType, def: Csid, docToWin: Csid -> Csid): Csi {
    var c1 := if reload then c.(relayout := RelayoutDone) else RESET;
    var c2 := if c1.over != CS_DEFAULT then c1.(doc := c1.over)
              else if Known(http) then c1.(http := http)
              else c1.(doc := if MailOrNews(t) then CS_DEFAULT else def);
    c2.(win := docToWin(Effective(c2)))
  }

  function Reported(c: Csi, tag: Csid, t: ContextType, docToWin: Csid -> Csid): Csi {
    if !Known(tag) || MailOrNews(t) || c.relayout != None then c
    else WithMeta(c, tag).(relayout :=
      if (Known(Effective(c)) && Effective(c) != tag) || c.win != docToWin(tag) then RequestRelayout
      else HasCharset)
  }

  // ---------- The object ----------

  class CharSetInfoObject {
    var overrideDocCSID: Csid
    var httpDocCSID: Csid
    var metaDocCSID: Csid
    var docCSID: Csid
    var winCSID: Csid
    var relayout: Relayout

    function View(): Csi
      reads this
    {
      Csi(overrideDocCSID, httpDocCSID, metaDocCSID, docCSID, winCSID, relayout)
    }

    function DocumentCharset(): Csid
      reads this
      ensures DocumentCharset() == Effective(View())
    {
      if overrideDocCSID != CS_DEFAULT then overrideDocCSID
      else if httpDocCSID != CS_DEFAULT then httpDocCSID
      else if metaDocCSID != CS_DEFAULT then metaDocCSID
      else docCSID
    }

    // INTL_CSICreate: cleared with zeroes, which is what a reset gives.
    constructor ()
      ensures View() == RESET
    {
      overrideDocCSID, httpDocCSID, metaDocCSID := CS_DEFAULT, CS_DEFAULT, CS_DEFAULT;
      docCSID, winCSID, relayout := CS_DEFAULT, CS_DEFAULT, None;
    }

    method Reset()
      modifies this
      ensures View() == RESET
    {
      overrideDocCSID := CS_DEFAULT;
      httpDocCSID := CS_DEFAULT;
      metaDocCSID := CS_DEFAULT;
      docCSID := CS_DEFAULT;
      winCSID := CS_DEFAULT;
      relayout := None;
    }

    method SetOverrideDocCSID(x: Csid)
      modifies this
      ensures View() == WithOverride(old(View()), x)
    {
      overrideDocCSID := x;
    }

    method SetHTTPDocCSID(x: Csid)
      modifies this
      ensures View() == WithHttp(old(View()), x)
    {
      if overrideDocCSID == CS_DEFAULT {
        httpDocCSID := x;
      }
    }

    method SetMetaDocCSID(x: Csid)
      modifies this
      ensures View() == WithMeta(old(View()), x)
    {
      if overrideDocCSID == CS_DEFAULT && httpDocCSID == CS_DEFAULT {
        metaDocCSID := x;
      }
    }

    method SetDocCSID(x: Csid)
      modifies this
      ensures View() == WithDoc(old(View()), x)
    {
      if overrideDocCSID == CS_DEFAULT && httpDocCSID == CS_DEFAULT && metaDocCSID == CS_DEFAULT {
        docCSID := x;
      }
    }

    method Initialize(isMetacharsetReload: bool, http: Csid, t: ContextType, def: Csid, docToWin: Csid -> Csid)
      modifies this
      ensures View() == Initialized(old(View()), isMetacharsetReload, http, t, def, docToWin)
    {
      if !isMetacharsetReload {
        Reset();
      } else {
        relayout := RelayoutDone;
      }
      if overrideDocCSID != CS_DEFAULT {
        docCSID := overrideDocCSID;
      } else if Known(http) {
        httpDocCSID := http;
      } else {
        docCSID := if MailOrNews(t) then CS_DEFAULT else def;
      }
      winCSID := docToWin(DocumentCharset());
    }

    method ReportMetaCharsetTag(tag: Csid, t: ContextType, docToWin: Csid -> Csid)
      modifies this
      ensures View() == Reported(old(View()), tag, t, docToWin)
    {
      if !Known(tag) || MailOrNews(t) || relayout != None {
        return;
      }
      var previous := DocumentCharset();
      SetMetaDocCSID(tag);
      relayout := HasCharset;
      if Known(previous) && previous != tag {
        relayout := RequestRelayout;
      }
      if winCSID != docToWin(tag) {
        relayout := RequestRelayout;
      }
    }

    // Every META tag of a document, in the order met.
    method ReportAll(tags: seq<Csid>, t: ContextType, docToWin: Csid -> Csid)
      modifies this
      ensures View() == AllReported(old(View()), tags, t, docToWin)
    {
      for i := 0 to |tags|
        invariant AllReported(View(), tags[i..], t, docToWin) == AllReported(old(View()), tags, t, docToWin)
      {
        ReportMetaCharsetTag(tags[i], t, docToWin);
        assert tags[i..][1..] == tags[i + 1..];
      }
    }

    // A load, and a reload whenever the load asked for one.  What the server sends may differ
    // each time: documents(n) are the tags of the n-th answer.
    method LoadCycle(documents: nat -> seq<Csid>, http: Csid, t: ContextType, def: Csid, docToWin: Csid -> Csid)
      returns (loads: nat)
      modifies this
      ensures View() == Cycle(documents(0), documents(1), http, t, def, docToWin)
      ensures relayout != RequestRelayout
      ensures loads == if FirstLoad(documents(0), http, t, def, docToWin).relayout == RequestRelayout then 2 else 1
    {
      Initialize(false, http, t, def, docToWin);
      ReportAll(documents(0), t, docToWin);
      loads := 1;
      while relayout == RequestRelayout
        invariant loads == 1 ==> View() == FirstLoad(documents(0), http, t, def, docToWin)
        invariant loads > 1 ==> (
          && loads == 2 && relayout == RelayoutDone
          && FirstLoad(documents(0), http, t, def, docToWin).relayout == RequestRelayout
          && View() == Cycle(documents(0), documents(1), http, t, def, docToWin))
        invariant loads >= 1
        decreases relayout == RequestRelayout
      {
        Initialize(true, http, t, def, docToWin);
        DoneStays(View(), documents(loads), t, docToWin);
        ReportAll(documents(loads), t, docToWin);
        loads := loads + 1;
      }
    }
  }

  // ---------- Precedence over runs of setters ----------

  datatype Rank = Override | Http | Meta | Doc

  datatype Call = Call(rank: Rank, x: Csid)

  function Called(c: Csi, call: Call): Csi {
    match call.rank
    case Override => WithOverride(c, call.x)
    case Http => WithHttp(c, call.x)
    case Meta => WithMeta(c, call.x)
    case Doc => WithDoc(c, call.x)
  }

  function AllCalled(c: Csi, calls: seq<Call>): Csi {
    if calls == [] then c else Called(AllCalled(c, calls[..|calls| - 1]), calls[|calls| - 1])
  }

  // The latest value logged for a source, CS_DEFAULT if there is none.
  function Latest(calls: seq<Call>, rank: Rank): Csid {
    if calls == [] then CS_DEFAULT
    else if calls[|calls| - 1].rank == rank then calls[|calls| - 1].x
    else Latest(calls[..|calls| - 1], rank)
  }

  // Logging every call, then taking the highest-ranked source that spoke.
  function Logged(calls: seq<Call>): Csid {
    if Latest(calls, Override) != CS_DEFAULT then Latest(calls, Override)
    else if Latest(calls, Http) != CS_DEFAULT then Latest(calls, Http)
    else if Latest(calls, Meta) != CS_DEFAULT then Latest(calls, Meta)
    else Latest(calls, Doc)
  }

  // The guards lose values only where a higher source has spoken.
  lemma {:induction false} GuardedFields(calls: seq<Call>)
    requires forall i :: 0 <= i < |calls| ==> calls[i].x != CS_DEFAULT
    ensures var c := AllCalled(RESET, calls);
      && c.over == Latest(calls, Override)
      && (c.over == CS_DEFAULT ==> c.http == Latest(calls, Http))
      && (c.over == CS_DEFAULT && c.http == CS_DEFAULT ==> c.meta == Latest(calls, Meta))
      && (c.over == CS_DEFAULT && c.http == CS_DEFAULT && c.meta == CS_DEFAULT ==> c.doc == Latest(calls, Doc))
  {
    if calls != [] {
      GuardedFields(calls[..|calls| - 1]);
    }
  }

  lemma PrecedenceIsLog(calls: seq<Call>)
    requires forall i :: 0 <= i < |calls| ==> calls[i].x != CS_DEFAULT
    ensures Effective(AllCalled(RESET, calls)) == Logged(calls)
  {
    GuardedFields(calls);
  }

  function OfRank(calls: seq<Call>, rank: Rank): seq<Call> {
    if calls == [] then []
    else OfRank(calls[..|calls| - 1], rank) + (if calls[|calls| - 1].rank == rank then [calls[|calls| - 1]] else [])
  }

  lemma {:induction false} LatestOfRank(calls: seq<Call>, rank: Rank)
    ensures Latest(calls, rank) == var own := OfRank(calls, rank); if own == [] then CS_DEFAULT else own[|own| - 1].x
  {
    if calls != [] {
      LatestOfRank(calls[..|calls| - 1], rank);
    }
  }

  lemma SameLatest(calls: seq<Call>, others: seq<Call>, rank: Rank)
    requires OfRank(calls, rank) == OfRank(others, rank)
    ensures Latest(calls, rank) == Latest(others, rank)
  {
    LatestOfRank(calls, rank);
    LatestOfRank(others, rank);
  }

  // Any reordering that keeps the order within each source gives the same charset.
  lemma OrderAcrossRanksIsFree(calls: seq<Call>, others: seq<Call>)
    requires forall i :: 0 <= i < |calls| ==> calls[i].x != CS_DEFAULT
    requires forall i :: 0 <= i < |others| ==> others[i].x != CS_DEFAULT
    requires forall rank :: OfRank(calls, rank) == OfRank(others, rank)
    ensures Effective(AllCalled(RESET, calls)) == Effective(AllCalled(RESET, others))
  {
    PrecedenceIsLog(calls);
    PrecedenceIsLog(others);
    SameLatest(calls, others, Override);
    SameLatest(calls, others, Http);
    SameLatest(calls, others, Meta);
    SameLatest(calls, others, Doc);
  }

  // ---------- Runs that clear fields too ----------

  // Setting a field back to CS_DEFAULT breaks this: what a guard refused does not come back.
  lemma ClearingLosesRefusedValues()
    ensures var calls := [Call(Override, 3), Call(Http, 5), Call(Override, CS_DEFAULT)];
      Effective(AllCalled(RESET, calls)) == CS_DEFAULT && Logged(calls) == 5
  {
    var one, two := [Call(Override, 3)], [Call(Override, 3), Call(Http, 5)];
    var calls := [Call(Override, 3), Call(Http, 5), Call(Override, CS_DEFAULT)];
    assert one[..0] == [] && two[..1] == one && calls[..2] == two;
    assert AllCalled(RESET, two) == RESET.(over := 3);
    assert Latest(two, Http) == 5 && Latest(one, Meta) == CS_DEFAULT;
  }

  function Field(c: Csi, rank: Rank): Csid {
    match rank
    case Override => c.over
    case Http => c.http
    case Meta => c.meta
    case Doc => c.doc
  }

  // The guard of the setter.
  predicate Guard(c: Csi, rank: Rank) {
    match rank
    case Override => true
    case Http => c.over == CS_DEFAULT
    case Meta => c.over == CS_DEFAULT && c.http == CS_DEFAULT
    case Doc => c.over == CS_DEFAULT && c.http == CS_DEFAULT && c.meta == CS_DEFAULT
  }

  // Let through, or refused with nothing lost: clearing a field that is clear.
  predicate Accepted(c: Csi, call: Call) {
    Guard(c, call.rank) || (call.x == CS_DEFAULT && Field(c, call.rank) == CS_DEFAULT)
  }

  predicate LastAccepted(calls: seq<Call>, rank: Rank) {
    if calls == [] then true
    else
      var front, last := calls[..|calls| - 1], calls[|calls| - 1];
      if last.rank == rank then Accepted(AllCalled(RESET, front), last) else LastAccepted(front, rank)
  }

  // From the highest source down to the first that the log has a value of, the last call of each
  // was accepted.  (An override always is.)
  predicate AcceptedDown(calls: seq<Call>) {
    || Latest(calls, Override) != CS_DEFAULT
    || (&& LastAccepted(calls, Http)
        && (|| Latest(calls, Http) != CS_DEFAULT
            || (&& LastAccepted(calls, Meta)
                && (Latest(calls, Meta) != CS_DEFAULT || LastAccepted(calls, Doc)))))
  }

  lemma {:induction false} AcceptedIsLatest(calls: seq<Call>, rank: Rank)
    requires LastAccepted(calls, rank)
    ensures Field(AllCalled(RESET, calls), rank) == Latest(calls, rank)
  {
    if calls != [] && calls[|calls| - 1].rank != rank {
      AcceptedIsLatest(calls[..|calls| - 1], rank);
    }
  }

  lemma {:induction false} OverrideAccepted(calls: seq<Call>)
    ensures LastAccepted(calls, Override)
  {
    if calls != [] {
      OverrideAccepted(calls[..|calls| - 1]);
    }
  }

  // Whatever the arguments, a run whose last calls were accepted down to the deciding source agrees
  // with its log.
  lemma AcceptedIsLog(calls: seq<Call>)
    requires AcceptedDown(calls)
    ensures Effective(AllCalled(RESET, calls)) == Logged(calls)
  {
    OverrideAccepted(calls);
    forall rank | LastAccepted(calls, rank)
      ensures Field(AllCalled(RESET, calls), rank) == Latest(calls, rank)
    {
      AcceptedIsLatest(calls, rank);
    }
  }

  // No two calls set the same value.
  ghost predicate DistinctValues(calls: seq<Call>) {
    forall i, j :: 0 <= i < j < |calls| && calls[i].x != CS_DEFAULT ==> calls[i].x != calls[j].x
  }

  ghost predicate Made(calls: seq<Call>, rank: Rank, x: Csid) {
    exists i :: 0 <= i < |calls| && calls[i] == Call(rank, x)
  }

  lemma {:induction false} ValuesWereMade(calls: seq<Call>, rank: Rank)
    ensures var x := Field(AllCalled(RESET, calls), rank); x == CS_DEFAULT || Made(calls, rank, x)
    ensures var x := Latest(calls, rank); x == CS_DEFAULT || Made(calls, rank, x)
  {
    if calls != [] {
      var front, last := calls[..|calls| - 1], calls[|calls| - 1];
      ValuesWereMade(front, rank);
      assert calls[|calls| - 1] == Call(last.rank, last.x);
      forall x | Made(front, rank, x)
        ensures Made(calls, rank, x)
      {
        var i :| 0 <= i < |front| && front[i] == Call(rank, x);
        assert calls[i] == Call(rank, x);
      }
    }
  }

  // A refused last call leaves the field with something else than the log.
  lemma {:induction false} RefusedIsNotLatest(calls: seq<Call>, rank: Rank)
    requires DistinctValues(calls) && !LastAccepted(calls, rank)
    ensures Field(AllCalled(RESET, calls), rank) != Latest(calls, rank)
  {
    var front, last := calls[..|calls| - 1], calls[|calls| - 1];
    if last.rank != rank {
      RefusedIsNotLatest(front, rank);
    } else {
      var x := Field(AllCalled(RESET, front), rank);
      ValuesWereMade(front, rank);
      if x != CS_DEFAULT {
        var i :| 0 <= i < |front| && front[i] == Call(rank, x);
        assert calls[i] == Call(rank, x);
      }
    }
  }

  // A field never holds what the log has of another source.
  lemma OtherSource(calls: seq<Call>, rank: Rank, other: Rank)
    requires DistinctValues(calls) && rank != other
    ensures var x := Field(AllCalled(RESET, calls), rank); x != CS_DEFAULT ==> x != Latest(calls, other)
  {
    var x, y := Field(AllCalled(RESET, calls), rank), Latest(calls, other);
    ValuesWereMade(calls, rank);
    ValuesWereMade(calls, other);
    if x == y != CS_DEFAULT {
      var i :| 0 <= i < |calls| && calls[i] == Call(rank, x);
    }
  }

  // A run of distinct values agrees with its log if and only if its last calls were accepted from
  // the highest source down to the deciding one.
  lemma LogExactly(calls: seq<Call>)
    requires DistinctValues(calls)
    ensures Effective(AllCalled(RESET, calls)) == Logged(calls) <==> AcceptedDown(calls)
  {
    if AcceptedDown(calls) {
      AcceptedIsLog(calls);
    } else {
      forall rank, other | rank != other
        ensures var x := Field(AllCalled(RESET, calls), rank); x != CS_DEFAULT ==> x != Latest(calls, other)
      {
        OtherSource(calls, rank, other);
      }
      OverrideAccepted(calls);
      forall rank
        ensures LastAccepted(calls, rank) <==> Field(AllCalled(RESET, calls), rank) == Latest(calls, rank)
      {
        if LastAccepted(calls, rank) {
          AcceptedIsLatest(calls, rank);
        } else {
          RefusedIsNotLatest(calls, rank);
        }
      }
      DisagreesBelow(AllCalled(RESET, calls), calls);
    }
  }

  lemma DisagreesBelow(c: Csi, calls: seq<Call>)
    requires !AcceptedDown(calls)
    requires forall rank :: LastAccepted(calls, rank) <==> Field(c, rank) == Latest(calls, rank)
    requires forall rank, other :: rank != other && Field(c, rank) != CS_DEFAULT ==>
      Field(c, rank) != Latest(calls, other)
    requires LastAccepted(calls, Override)
    ensures Effective(c) != Logged(calls)
  {
    assert Field(c, Override) == CS_DEFAULT;
    assert Field(c, Http) == c.http && Field(c, Meta) == c.meta && Field(c, Doc) == c.doc;
  }

  // ---------- Runs of one shape ----------

  // The same sources in the same order, cleared in the same places.
  ghost predicate SameShape(calls: seq<Call>, others: seq<Call>) {
    && |calls| == |others|
    && forall i :: 0 <= i < |calls| ==>
         calls[i].rank == others[i].rank && (calls[i].x == CS_DEFAULT <==> others[i].x == CS_DEFAULT)
  }

  // The same fields are clear.
  ghost predicate SameCleared(c: Csi, d: Csi) {
    forall r :: Field(c, r) == CS_DEFAULT <==> Field(d, r) == CS_DEFAULT
  }

  // Which calls are accepted depends on the shape alone.
  lemma {:induction false} ShapeDecides(calls: seq<Call>, others: seq<Call>, rank: Rank)
    requires SameShape(calls, others)
    ensures LastAccepted(calls, rank) <==> LastAccepted(others, rank)
    ensures Latest(calls, rank) == CS_DEFAULT <==> Latest(others, rank) == CS_DEFAULT
    ensures SameCleared(AllCalled(RESET, calls), AllCalled(RESET, others))
  {
    if calls != [] {
      var c, d := calls[..|calls| - 1], others[..|others| - 1];
      ShapeDecides(c, d, rank);
      ShapeStep(AllCalled(RESET, c), AllCalled(RESET, d), calls[|calls| - 1], others[|others| - 1]);
    }
  }

  lemma ShapeStep(c: Csi, d: Csi, call: Call, other: Call)
    requires SameCleared(c, d)
    requires call.rank == other.rank && (call.x == CS_DEFAULT <==> other.x == CS_DEFAULT)
    ensures SameCleared(Called(c, call), Called(d, other))
    ensures Accepted(c, call) <==> Accepted(d, other)
  {
    GuardReads(c);
    GuardReads(d);
    forall r: Rank
      ensures Field(Called(c, call), r) == (if r == call.rank && Guard(c, r) then call.x else Field(c, r))
      ensures Field(Called(d, other), r) == (if r == call.rank && Guard(d, r) then other.x else Field(d, r))
    {
    }
  }

  lemma GuardReads(c: Csi)
    ensures Guard(c, Http) <==> Field(c, Override) == CS_DEFAULT
    ensures Guard(c, Meta) <==> Field(c, Override) == CS_DEFAULT && Field(c, Http) == CS_DEFAULT
    ensures Guard(c, Doc)
      <==> Field(c, Override) == CS_DEFAULT && Field(c, Http) == CS_DEFAULT && Field(c, Meta) == CS_DEFAULT
  {
  }

  function Numbered(calls: seq<Call>): seq<Call> {
    seq(|calls|, i requires 0 <= i < |calls| => calls[i].(x := if calls[i].x == CS_DEFAULT then CS_DEFAULT else i + 1))
  }

  // Guarded fields can stand for a log of all calls, whatever values are set, exactly for the
  // shapes of run whose last calls are accepted down to the deciding source.
  lemma LogExactlyByShape(calls: seq<Call>)
    ensures (forall others | SameShape(calls, others) :: Effective(AllCalled(RESET, others)) == Logged(others))
      <==> AcceptedDown(calls)
  {
    forall others, rank | SameShape(calls, others)
      ensures LastAccepted(calls, rank) <==> LastAccepted(others, rank)
      ensures Latest(calls, rank) == CS_DEFAULT <==> Latest(others, rank) == CS_DEFAULT
    {
      ShapeDecides(calls, others, rank);
    }
    forall others | SameShape(calls, others) && AcceptedDown(others)
      ensures Effective(AllCalled(RESET, others)) == Logged(others)
    {
      AcceptedIsLog(others);
    }
    LogExactly(Numbered(calls));
    assert SameShape(calls, Numbered(calls));
  }

  // ---------- One load ----------

  function AllReported(c: Csi, tags: seq<Csid>, t: ContextType, docToWin: Csid -> Csid): Csi
    decreases |tags|
  {
    if tags == [] then c else AllReported(Reported(c, tags[0], t, docToWin), tags[1..], t, docToWin)
  }

  // How often the flag goes over to a request while the tags are reported.
  function Requests(c: Csi, tags: seq<Csid>, t: ContextType, docToWin: Csid -> Csid): nat
    decreases |tags|
  {
    if tags == [] then 0
    else
      var d := Reported(c, tags[0], t, docToWin);
      (if c.relayout != RequestRelayout && d.relayout == RequestRelayout then 1 else 0)
      + Requests(d, tags[1..], t, docToWin)
  }

  lemma {:induction false} DoneStays(c: Csi, tags: seq<Csid>, t: ContextType, docToWin: Csid -> Csid)
    requires c.relayout != None
    ensures AllReported(c, tags, t, docToWin) == c && Requests(c, tags, t, docToWin) == 0
    decreases |tags|
  {
    if tags != [] {
      DoneStays(c, tags[1..], t, docToWin);
    }
  }

  // The one tag that counts, if any.
  function FirstKnown(tags: seq<Csid>): Csid {
    if tags == [] then CS_UNKNOWN else if Known(tags[0]) then tags[0] else FirstKnown(tags[1..])
  }

  // Whatever the tags, one report acts: that of the first known charset, outside mail and news.
  lemma {:induction false} OneReportActs(c: Csi, tags: seq<Csid>, t: ContextType, docToWin: Csid -> Csid)
    ensures AllReported(c, tags, t, docToWin) == Reported(c, FirstKnown(tags), t, docToWin)
    ensures Requests(c, tags, t, docToWin)
      == if c.relayout == None && AllReported(c, tags, t, docToWin).relayout == RequestRelayout then 1 else 0
    decreases |tags|
  {
    if tags != [] {
      var d := Reported(c, tags[0], t, docToWin);
      if d.relayout != None {
        DoneStays(d, tags[1..], t, docToWin);
      } else {
        OneReportActs(d, tags[1..], t, docToWin);
      }
    }
  }

  // What reports do to an object whose flag is NONE, whatever was set before: nothing in mail and
  // news or without a known tag; else the flag is REQUESTRELAYOUT if the first known tag disagrees and
  // HASCHARSET if it does not, and that tag is in the META field unless an override or HTTP guards it.
  lemma ReportsExactly(c: Csi, tags: seq<Csid>, t: ContextType, docToWin: Csid -> Csid)
    requires c.relayout == None
    ensures var d, m := AllReported(c, tags, t, docToWin), FirstKnown(tags);
      && d.over == c.over && d.http == c.http && d.doc == c.doc && d.win == c.win
      && (MailOrNews(t) || !Known(m) ==> d == c)
      && (!MailOrNews(t) && Known(m) ==>
            && (d.relayout == RequestRelayout <==> (Known(Effective(c)) && Effective(c) != m) || c.win != docToWin(m))
            && (d.relayout == RequestRelayout || d.relayout == HasCharset)
            && d.meta == (if c.over == CS_DEFAULT && c.http == CS_DEFAULT then m else c.meta))
  {
    OneReportActs(c, tags, t, docToWin);
  }

  // ---------- Load, report, reload ----------

  function FirstLoad(tags: seq<Csid>, http: Csid, t: ContextType, def: Csid, docToWin: Csid -> Csid): Csi {
    AllReported(Initialized(RESET, false, http, t, def, docToWin), tags, t, docToWin)
  }

  function Cycle(tags: seq<Csid>, again: seq<Csid>, http: Csid, t: ContextType, def: Csid,
                 docToWin: Csid -> Csid): Csi
  {
    var c := FirstLoad(tags, http, t, def, docToWin);
    if c.relayout != RequestRelayout then c
    else AllReported(Initialized(c, true, http, t, def, docToWin), again, t, docToWin)
  }

  // A fresh load forgets all that was set before it, an override too.
  lemma FreshLoadForgets(c: Csi, http: Csid, t: ContextType, def: Csid, docToWin: Csid -> Csid)
    ensures Initialized(c, false, http, t, def, docToWin) == Initialized(RESET, false, http, t, def, docToWin)
    ensures Initialized(c, false, http, t, def, docToWin).over == CS_DEFAULT
    ensures Initialized(c, true, http, t, def, docToWin).over == c.over
  {
  }

  // An override set while a page shows rules its reload, whatever the server says and whatever
  // META tags come with it, and no other setter can take its place.
  lemma {:induction false} OverrideRulesReload(c: Csi, tags: seq<Csid>, calls: seq<Call>, http: Csid, t: ContextType,
                                               def: Csid, docToWin: Csid -> Csid)
    requires c.over != CS_DEFAULT && forall i :: 0 <= i < |calls| ==> calls[i].rank != Override
    ensures var n := AllCalled(AllReported(Initialized(c, true, http, t, def, docToWin), tags, t, docToWin), calls);
      && Effective(n) == c.over && n.doc == c.over && n.win == docToWin(c.over) && n.relayout == RelayoutDone
      && n.over == c.over && n.http == c.http && n.meta == c.meta
    decreases |calls|
  {
    if calls == [] {
      DoneStays(Initialized(c, true, http, t, def, docToWin), tags, t, docToWin);
    } else {
      OverrideRulesReload(c, tags, calls[..|calls| - 1], http, t, def, docToWin);
    }
  }

  // Mail and news contexts never ask for a relayout by this route.
  lemma MailNeverRequests(tags: seq<Csid>, http: Csid, t: ContextType, def: Csid, docToWin: Csid -> Csid)
    requires MailOrNews(t)
    ensures FirstLoad(tags, http, t, def, docToWin) == Initialized(RESET, false, http, t, def, docToWin)
    ensures FirstLoad(tags, http, t, def, docToWin).relayout == None
  {
    OneReportActs(Initialized(RESET, false, http, t, def, docToWin), tags, t, docToWin);
  }

  // What a load starts from, before any META tag.
  function Opening(http: Csid, t: ContextType, def: Csid): Csid {
    if Known(http) then http else if MailOrNews(t) then CS_DEFAULT else def
  }

  // A load asks for a relayout exactly when its first known META tag disagrees with what it
  // started from, in the charset or only in the window charset.
  lemma RequestsExactly(tags: seq<Csid>, http: Csid, t: ContextType, def: Csid, docToWin: Csid -> Csid)
    ensures var e, m := Opening(http, t, def), FirstKnown(tags);
      FirstLoad(tags, http, t, def, docToWin).relayout == RequestRelayout
      <==> !MailOrNews(t) && Known(m) && ((Known(e) && e != m) || docToWin(e) != docToWin(m))
  {
    OneReportActs(Initialized(RESET, false, http, t, def, docToWin), tags, t, docToWin);
  }

  // Field by field, what a fresh load leaves, whatever the object held.  The flag is NONE when no tag
  // acts, REQUESTRELAYOUT when one disagrees, and HASCHARSET otherwise.
  lemma LoadExactly(c: Csi, tags: seq<Csid>, http: Csid, t: ContextType, def: Csid, docToWin: Csid -> Csid)
    ensures var e, m := Opening(http, t, def), FirstKnown(tags);
      var acts, differs := !MailOrNews(t) && Known(m), (Known(e) && e != m) || docToWin(e) != docToWin(m);
      AllReported(Initialized(c, false, http, t, def, docToWin), tags, t, docToWin)
      == Csi(CS_DEFAULT,
             if Known(http) then http else CS_DEFAULT,
             if acts && !Known(http) then m else CS_DEFAULT,
             if Known(http) then CS_DEFAULT else e,
             docToWin(e),
             if !acts then None else if differs then RequestRelayout else HasCharset)
  {
    OneReportActs(Initialized(c, false, http, t, def, docToWin), tags, t, docToWin);
  }

  // And what a reload leaves: it is done whatever tags come, and the charset fields are those there
  // before but for the one that the override, the server or the default decides.
  lemma ReloadExactly(c: Csi, tags: seq<Csid>, http: Csid, t: ContextType, def: Csid, docToWin: Csid -> Csid)
    ensures var d := AllReported(Initialized(c, true, http, t, def, docToWin), tags, t, docToWin);
      && d.relayout == RelayoutDone && d.over == c.over && d.meta == c.meta && d.win == docToWin(Effective(d))
      && d.http == (if c.over == CS_DEFAULT && Known(http) then http else c.http)
      && d.doc == (if c.over != CS_DEFAULT then c.over else if Known(http) then c.doc else Opening(http, t, def))
  {
    DoneStays(Initialized(c, true, http, t, def, docToWin), tags, t, docToWin);
  }

  // The charset a page ends up with after the whole cycle, whatever tags the second answer holds:
  // HTTP if it was given, else the first known META tag, else the default (CS_DEFAULT in mail and
  // news).  The window charset is then the one that goes with it.
  lemma CycleCharset(tags: seq<Csid>, again: seq<Csid>, http: Csid, t: ContextType, def: Csid, docToWin: Csid -> Csid)
    ensures var c := Cycle(tags, again, http, t, def, docToWin);
      && Effective(c) == (if !Known(http) && !MailOrNews(t) && Known(FirstKnown(tags)) then FirstKnown(tags)
                          else Opening(http, t, def))
      && c.win == docToWin(Effective(c))
  {
    var c0 := Initialized(RESET, false, http, t, def, docToWin);
    OneReportActs(c0, tags, t, docToWin);
    var c := FirstLoad(tags, http, t, def, docToWin);
    if c.relayout == RequestRelayout {
      DoneStays(Initialized(c, true, http, t, def, docToWin), again, t, docToWin);
    }
  }
}
