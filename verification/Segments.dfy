/**
  Cutting a sequence into segments by a "where does the next one start" table.

  Nothing here comes from one place in the source: it is what the boundary functions of
  include/libi18n.h share, whatever the charset and whichever of the two zero-byte rules is used.
 */
module Segments {
  import opened Basics

  // w[p] is the start of the segment after one that starts at p; |w| is the end.
  type Walk = w: seq<nat> | forall p :: 0 <= p < |w| ==> p < w[p] <= |w| witness []

  // ---------- Positions met by stepping ----------

  predicate Reaches(w: Walk, from: nat, p: nat)
    requires from <= |w|
    decreases |w| - from
  {
    from == p || (from < |w| && from < p && Reaches(w, w[from], p))
  }

  predicate Boundary(w: Walk, p: nat) {
    Reaches(w, 0, p)
  }

  lemma {:induction false} ReachesIn(w: Walk, from: nat, p: nat)
    requires from <= |w| && Reaches(w, from, p)
    ensures from <= p <= |w|
    decreases |w| - from
  {
    if from != p {
      ReachesIn(w, w[from], p);
    }
  }

  lemma {:induction false} ReachesOnward(w: Walk, from: nat, p: nat, q: nat)
    requires from <= |w| && p <= |w| && Reaches(w, from, p) && Reaches(w, p, q)
    ensures Reaches(w, from, q)
    decreases |w| - from
  {
    if from != p {
      ReachesIn(w, from, p);
      ReachesIn(w, p, q);
      ReachesOnward(w, w[from], p, q);
    }
  }

  // Of two positions met on one walk, the earlier leads to the later.
  lemma {:induction false} ReachesBetween(w: Walk, from: nat, p: nat, q: nat)
    requires from <= |w| && p <= q && p <= |w|
    requires Reaches(w, from, p) && Reaches(w, from, q)
    ensures Reaches(w, p, q)
    decreases |w| - from
  {
    if from != p {
      ReachesIn(w, from, p);
      ReachesBetween(w, w[from], p, q);
    }
  }

  lemma {:induction false} ReachesEnd(w: Walk, from: nat)
    requires from <= |w|
    ensures Reaches(w, from, |w|)
    decreases |w| - from
  {
    if from < |w| {
      ReachesEnd(w, w[from]);
    }
  }

  // ---------- The segment that holds a position ----------

  function Start(w: Walk, from: nat, pos: nat): (p: nat)
    requires from <= pos < |w|
    ensures from <= p <= pos < w[p] && Reaches(w, from, p)
    decreases |w| - from
  {
    if pos < w[from] then from else Start(w, w[from], pos)
  }

  // Every boundary at or before pos is at or before the start of its segment.
  lemma StartIsLast(w: Walk, pos: nat, p: nat)
    requires p <= pos < |w| && Boundary(w, p)
    ensures p <= Start(w, 0, pos) && (w[p] > pos ==> p == Start(w, 0, pos))
  {
    var s := Start(w, 0, pos);
    if p < s {
      ReachesBetween(w, 0, p, s);
      ReachesIn(w, w[p], s);
    } else {
      ReachesBetween(w, 0, s, p);
      if s < p {
        ReachesIn(w, w[s], p);
      }
    }
  }

  // ---------- Counting segments ----------

  function Count(w: Walk, from: nat): nat
    requires from <= |w|
    decreases |w| - from
  {
    if from == |w| then 0 else 1 + Count(w, w[from])
  }

  // Where the walk stands after k steps.
  function Offset(w: Walk, from: nat, k: nat): nat
    requires from <= |w|
    decreases k
  {
    if k == 0 || from == |w| then from else Offset(w, w[from], k - 1)
  }

  // How many whole segments end at or before the limit.
  function CountUpTo(w: Walk, from: nat, limit: nat): nat
    requires from <= |w|
    decreases |w| - from
  {
    if from == |w| || limit < w[from] then 0 else 1 + CountUpTo(w, w[from], limit)
  }

  lemma {:induction false} OffsetReached(w: Walk, from: nat, k: nat)
    requires from <= |w|
    ensures var p := Offset(w, from, k);
      && from <= p <= |w| && Reaches(w, from, p)
      && (k <= Count(w, from) ==> Count(w, p) == Count(w, from) - k)
    decreases k
  {
    if k > 0 && from < |w| {
      OffsetReached(w, w[from], k - 1);
    }
  }

  // Counting what fits undoes walking k segments ...
  lemma {:induction false} CountOfOffset(w: Walk, from: nat, k: nat)
    requires from <= |w| && k <= Count(w, from)
    ensures CountUpTo(w, from, Offset(w, from, k)) == k
    decreases k
  {
    OffsetReached(w, from, k);
    if k > 0 {
      OffsetReached(w, w[from], k - 1);
      CountOfOffset(w, w[from], k - 1);
    }
  }

  // ... and walking what fits comes back exactly from boundaries.
  lemma {:induction false} OffsetOfCount(w: Walk, from: nat, limit: nat)
    requires from <= limit <= |w|
    ensures var p := Offset(w, from, CountUpTo(w, from, limit));
      p <= limit && (p == limit <==> Reaches(w, from, limit))
    decreases |w| - from
  {
    if from < |w| {
      if w[from] <= limit {
        OffsetOfCount(w, w[from], limit);
      } else if Reaches(w, from, limit) && from != limit {
        ReachesIn(w, w[from], limit);
      }
    }
  }

  // One more step from the k-th boundary.
  lemma {:induction false} OffsetStep(w: Walk, from: nat, k: nat)
    requires from <= |w| && k < Count(w, from)
    ensures Offset(w, from, k) < |w| && Offset(w, from, k + 1) == w[Offset(w, from, k)]
    decreases k
  {
    if k > 0 {
      OffsetStep(w, w[from], k - 1);
    }
  }

  // The segment that holds a position is the one after those that end at or before it.
  lemma {:induction false} CountLocates(w: Walk, from: nat, pos: nat)
    requires from <= pos < |w|
    ensures CountUpTo(w, from, pos) < Count(w, from)
    ensures Offset(w, from, CountUpTo(w, from, pos)) == Start(w, from, pos)
    decreases |w| - from
  {
    if w[from] <= pos {
      CountLocates(w, w[from], pos);
    }
  }

  // ---------- The pieces ----------

  function Split<T>(w: Walk, t: seq<T>, from: nat): seq<seq<T>>
    requires from <= |w| == |t|
    decreases |w| - from
  {
    if from == |w| then [] else [t[from..w[from]]] + Split(w, t, w[from])
  }

  // Nothing is lost, and no piece is empty.
  lemma {:induction false} SplitCovers<T>(w: Walk, t: seq<T>, from: nat)
    requires from <= |w| == |t|
    ensures Flatten(Split(w, t, from)) == t[from..]
    ensures |Split(w, t, from)| == Count(w, from)
    ensures forall i :: 0 <= i < |Split(w, t, from)| ==> Split(w, t, from)[i] != []
    decreases |w| - from
  {
    if from < |w| {
      SplitCovers(w, t, w[from]);
      assert t[from..] == t[from..w[from]] + t[w[from]..];
    }
  }

  // The i-th piece lies between the i-th boundary and the next.
  lemma {:induction false} SplitPiece<T>(w: Walk, t: seq<T>, from: nat, i: nat)
    requires from <= |w| == |t| && i < Count(w, from)
    ensures |Split(w, t, from)| == Count(w, from)
    ensures var p := Offset(w, from, i); p < |w| && Split(w, t, from)[i] == t[p..w[p]]
    decreases i
  {
    SplitCovers(w, t, from);
    if i > 0 {
      SplitPiece(w, t, w[from], i - 1);
    }
  }

  // The split starts afresh at each boundary.
  lemma {:induction false} SplitDrop<T>(w: Walk, t: seq<T>, from: nat, k: nat)
    requires from <= |w| == |t| && k <= Count(w, from)
    ensures |Split(w, t, from)| == Count(w, from) && Offset(w, from, k) <= |w|
    ensures Split(w, t, from)[k..] == Split(w, t, Offset(w, from, k))
    decreases k
  {
    SplitCovers(w, t, from);
    if k > 0 {
      SplitDrop(w, t, w[from], k - 1);
      assert Split(w, t, from)[k..] == Split(w, t, w[from])[k - 1..];
    }
  }

  // ---------- Stepping back ----------

  // Segments can only be recognised from the front: the previous one is found by scanning.
  function ScanBack(w: Walk, from: nat, pos: nat): nat
    requires from < pos <= |w|
    decreases |w| - from
  {
    if pos <= w[from] then from else ScanBack(w, w[from], pos)
  }

  lemma {:induction false} ScanBackFinds(w: Walk, from: nat, pos: nat)
    requires from < pos <= |w|
    ensures ScanBack(w, from, pos) == Start(w, from, pos - 1)
    decreases |w| - from
  {
    if w[from] < pos {
      ScanBackFinds(w, w[from], pos);
    }
  }

  lemma BackUndoesOn(w: Walk, p: nat)
    requires p < |w| && Boundary(w, p)
    ensures Boundary(w, w[p]) && ScanBack(w, 0, w[p]) == p
  {
    assert Reaches(w, w[p], w[p]);
    ReachesOnward(w, 0, p, w[p]);
    ScanBackFinds(w, 0, w[p]);
    StartIsLast(w, w[p] - 1, p);
  }

  lemma OnUndoesBack(w: Walk, q: nat)
    requires 0 < q <= |w| && Boundary(w, q)
    ensures var p := ScanBack(w, 0, q); p < q && Boundary(w, p) && w[p] == q
  {
    ScanBackFinds(w, 0, q);
    var p := Start(w, 0, q - 1);
    ReachesBetween(w, 0, p, q);
    ReachesIn(w, w[p], q);
  }

  // ---------- The piece that holds a position ----------

  lemma PieceAt<T>(w: Walk, t: seq<T>, pos: nat)
    requires pos < |w| == |t|
    ensures var k, p := CountUpTo(w, 0, pos), Start(w, 0, pos);
      && k < |Split(w, t, 0)| && Split(w, t, 0)[k] == t[p..w[p]]
      && Offset(w, 0, k) == p
  {
    CountLocates(w, 0, pos);
    SplitPiece(w, t, 0, CountUpTo(w, 0, pos));
  }

  lemma PieceHolds<T>(w: Walk, t: seq<T>, pos: nat)
    requires pos < |w| == |t|
    ensures var k := CountUpTo(w, 0, pos);
      && k < |Split(w, t, 0)|
      && var c, p := Split(w, t, 0)[k], Offset(w, 0, k);
      p <= pos < p + |c| <= |t| && c == t[p..p + |c|]
  {
    PieceAt(w, t, pos);
  }

  lemma NextAfter(w: Walk, pos: nat)
    requires pos < |w|
    ensures w[Start(w, 0, pos)] == Offset(w, 0, CountUpTo(w, 0, pos) + 1)
  {
    CountLocates(w, 0, pos);
    OffsetStep(w, 0, CountUpTo(w, 0, pos));
  }

  lemma PieceBefore(w: Walk, pos: nat)
    requires pos < |w|
    ensures var k, p := CountUpTo(w, 0, pos), Start(w, 0, pos);
      && (0 < k <==> 0 < p)
      && (0 < k ==> ScanBack(w, 0, p) == Offset(w, 0, k - 1))
  {
    var k := CountUpTo(w, 0, pos);
    CountLocates(w, 0, pos);
    if 0 < k {
      OffsetStep(w, 0, k - 1);
      OffsetReached(w, 0, k - 1);
      BackUndoesOn(w, Offset(w, 0, k - 1));
    }
  }
}
