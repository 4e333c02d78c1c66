/**
  The arena of include/ds.h: "low cost" allocation by moving a pointer through chunks.

  The struct is given field by field and its calls by a sentence each; both are documented
  contracts, and the steps below are the plainest that keep them.  The size of a chunk for a large
  item, growing in place, and keeping a smaller item where it is are choices of these steps: the
  header says only that growing works best for the last item.  A chunk is a sequence of bytes whose
  first `link` bytes hold the pointer to the next chunk; an address is a chunk and an offset.  What
  malloc leaves in a new chunk is a parameter of every call.
 */
module DsArena {
  import opened Basics

  datatype Ptr = Ptr(chunk: nat, off: nat)

  // What the caller holds: an address and the size last asked for there.
  datatype Block = Block(at: Ptr, len: nat)

  datatype Arena = Arena(
    chunkSize: nat,
    link: nat,               // size of the link word
    chunks: seq<seq<byte>>,  // firstChunk to lastChunk
    pLast: Option<Ptr>,      // last item allocated
    pCur: nat,               // beginning of the free area in the last chunk; pCurEnd is its end
    live: seq<Block>)

  function PCurEnd(s: Arena): nat {
    if s.chunks == [] then 0 else |s.chunks[|s.chunks| - 1]|
  }

  // ---------- The calls ----------

  function Fresh(n: nat, fill: nat -> byte): seq<byte> {
    seq(n, fill)
  }

  function Max(a: nat, b: nat): nat {
    if a > b then a else b
  }

  // Room for n bytes in the last chunk, in a new chunk if need be.
  function Roomy(s: Arena, n: nat, fill: nat -> byte): Arena {
    if s.chunks != [] && s.pCur + n <= PCurEnd(s) then s
    else s.(chunks := s.chunks + [Fresh(Max(s.chunkSize, s.link + n), fill)], pCur := s.link)
  }

  // Takes n bytes off the free area; the new block is not yet anyone's.
  function Bumped(s: Arena, n: nat, fill: nat -> byte): (Arena, Block)
  {
    var r := Roomy(s, n, fill);
    var b := Block(Ptr(|r.chunks| - 1, r.pCur), n);
    (r.(pCur := r.pCur + n, pLast := Some(b.at)), b)
  }

  function Alloc(s: Arena, n: nat, fill: nat -> byte): Arena {
    var (r, b) := Bumped(s, n, fill);
    r.(live := r.live + [b])
  }

  function Stored(s: Arena, b: Block, data: seq<byte>): Arena
    requires b.at.chunk < |s.chunks| && b.at.off + |data| <= |s.chunks[b.at.chunk]|
  {
    var c := s.chunks[b.at.chunk];
    s.(chunks := s.chunks[b.at.chunk := c[..b.at.off] + data + c[b.at.off + |data|..]])
  }

  function Zeros(n: nat): seq<byte> {
    seq(n, _ => 0)
  }

  function Zalloc(s: Arena, n: nat, fill: nat -> byte): Arena
    requires Sound(s)
  {
    var t := Alloc(s, n, fill);
    AllocSound(s, n, fill);
    Stored(t, t.live[|t.live| - 1], Zeros(n))
  }

  // Whether block i can grow where it is: it was allocated last and ends at the free area.
  predicate InPlace(s: Arena, i: nat, n: nat)
    requires i < |s.live|
  {
    var b := s.live[i];
    s.pLast == Some(b.at) && b.at.chunk + 1 == |s.chunks| && b.at.off + b.len == s.pCur && b.at.off + n <= PCurEnd(s)
  }

  // A smaller size leaves the block where it is; a larger one extends or moves it.
  function Grow(s: Arena, i: nat, n: nat, fill: nat -> byte): Arena
    requires Sound(s) && i < |s.live|
  {
    var b := s.live[i];
    if n <= b.len then s.(live := s.live[i := Block(b.at, n)])
    else if InPlace(s, i, n) then s.(pCur := b.at.off + n, live := s.live[i := Block(b.at, n)])
    else
      var (r, d) := Bumped(s, n, fill);
      BumpedSound(s, n, fill);
      Stored(r, d, Contents(s, b)).(live := s.live[i := d])
  }

  // ---------- What holds ----------

  predicate InChunk(s: Arena, b: Block) {
    && b.at.chunk < |s.chunks| && s.link <= b.at.off
    && b.at.off + b.len <= (if b.at.chunk + 1 == |s.chunks| then s.pCur else |s.chunks[b.at.chunk]|)
  }

  predicate Disjoint(a: Block, b: Block) {
    || a.len == 0 || b.len == 0 || a.at.chunk != b.at.chunk
    || a.at.off + a.len <= b.at.off || b.at.off + b.len <= a.at.off
  }

  // Live blocks lie in their chunks, after the link word, outside the free area, and apart.
  ghost predicate Sound(s: Arena) {
    && (forall k :: 0 <= k < |s.chunks| ==> s.link <= |s.chunks[k]|)
    && (s.chunks != [] ==> s.link <= s.pCur <= PCurEnd(s))
    && (forall i :: 0 <= i < |s.live| ==> InChunk(s, s.live[i]))
    && (forall i, j :: 0 <= i < j < |s.live| ==> Disjoint(s.live[i], s.live[j]))
  }

  function Contents(s: Arena, b: Block): seq<byte>
    requires b.at.chunk < |s.chunks| && b.at.off + b.len <= |s.chunks[b.at.chunk]|
  {
    s.chunks[b.at.chunk][b.at.off..b.at.off + b.len]
  }

  lemma BumpedSound(s: Arena, n: nat, fill: nat -> byte)
    requires Sound(s)
    ensures var (r, b) := Bumped(s, n, fill);
      && Sound(r) && r.live == s.live && InChunk(r, b) && b.len == n
      && |s.chunks| <= |r.chunks| && r.chunks[..|s.chunks|] == s.chunks
      && (forall i :: 0 <= i < |s.live| ==> Disjoint(s.live[i], b))
      && b.at.chunk + 1 == |r.chunks|
  {
    var q := Roomy(s, n, fill);
    assert Sound(q) by {
      assert forall k :: 0 <= k < |s.chunks| ==> q.chunks[k] == s.chunks[k];
    }
  }

  lemma AllocSound(s: Arena, n: nat, fill: nat -> byte)
    requires Sound(s)
    ensures Sound(Alloc(s, n, fill)) && |Alloc(s, n, fill).live| == |s.live| + 1
    ensures Alloc(s, n, fill).live[|s.live|].len == n
  {
    BumpedSound(s, n, fill);
  }

  // ---------- Storing touches one block ----------

  lemma StoredElsewhere(s: Arena, b: Block, data: seq<byte>, c: Block)
    requires Sound(s) && InChunk(s, b) && InChunk(s, c) && |data| <= b.len && Disjoint(b, c)
    ensures Contents(Stored(s, b, data), c) == Contents(s, c)
  {
    var x := s.chunks[b.at.chunk];
    var y := x[..b.at.off] + data + x[b.at.off + |data|..];
    assert Stored(s, b, data).chunks[b.at.chunk] == y && |y| == |x|;
    if b.at.chunk == c.at.chunk {
      assert forall k :: c.at.off <= k < c.at.off + c.len && c.len > 0 && b.len > 0 ==> y[k] == x[k];
      if b.len == 0 {
        assert y == x;
      }
    }
  }

  lemma StoredThere(s: Arena, b: Block, data: seq<byte>)
    requires Sound(s) && InChunk(s, b) && |data| <= b.len
    ensures Sound(Stored(s, b, data))
    ensures Contents(Stored(s, b, data), b) == data + Contents(s, b)[|data|..]
  {
    var x := s.chunks[b.at.chunk];
    var y := x[..b.at.off] + data + x[b.at.off + |data|..];
    var t := Stored(s, b, data);
    assert forall k :: 0 <= k < |t.chunks| ==> |t.chunks[k]| == |s.chunks[k]|;
    assert forall i :: 0 <= i < |s.live| ==> InChunk(t, s.live[i]);
    SpliceSlice(x, b.at.off, data, b.len);
  }

  lemma SpliceSlice(x: seq<byte>, off: nat, data: seq<byte>, len: nat)
    requires off + len <= |x| && |data| <= len
    ensures (x[..off] + data + x[off + |data|..])[off..off + len] == data + x[off..off + len][|data|..]
  {
    var tail := x[off + |data|..];
    assert x[off..off + len][|data|..] == tail[..len - |data|];
    assert x[..off] + data + tail == x[..off] + (data + tail);
    assert (x[..off] + (data + tail))[off..off + len] == (data + tail)[..len];
    assert (data + tail)[..len] == data + tail[..len - |data|];
  }

  // ---------- Refinement: a heap of separate blocks ----------

  datatype Op =
    | AllocOp(n: nat)
    | ZallocOp(n: nat)
    | GrowOp(i: nat, n: nat)
    | WriteOp(i: nat, data: seq<byte>)   // the caller fills its own block

  ghost predicate Legal(s: Arena, op: Op) {
    match op
    case GrowOp(i, n) => i < |s.live|
    case WriteOp(i, data) => i < |s.live| && |data| == s.live[i].len
    case _ => true
  }

  ghost function Apply(s: Arena, op: Op, fill: nat -> byte): Arena
    requires Sound(s) && Legal(s, op)
  {
    match op
    case AllocOp(n) => Alloc(s, n, fill)
    case ZallocOp(n) => Zalloc(s, n, fill)
    case GrowOp(i, n) => Grow(s, i, n, fill)
    case WriteOp(i, data) => Stored(s, s.live[i], data)
  }

  // What each caller sees in its block.
  ghost function View(s: Arena): seq<seq<byte>>
    requires Sound(s)
  {
    seq(|s.live|, i requires 0 <= i < |s.live| => Contents(s, s.live[i]))
  }

  // What a heap in which blocks cannot touch each other would do.
  ghost predicate Separate(v: seq<seq<byte>>, op: Op, w: seq<seq<byte>>) {
    match op
    case AllocOp(n) => |w| == |v| + 1 && w[..|v|] == v && |w[|v|]| == n
    case ZallocOp(n) => w == v + [Zeros(n)]
    case GrowOp(i, n) =>
      && i < |v| == |w| && |w[i]| == n && w == v[i := w[i]]
      && (if |v[i]| <= n then v[i] <= w[i] else w[i] <= v[i])
    case WriteOp(i, data) => i < |v| && w == v[i := data]
  }

  lemma AllocRefines(s: Arena, n: nat, fill: nat -> byte)
    requires Sound(s)
    ensures Sound(Alloc(s, n, fill)) && Separate(View(s), AllocOp(n), View(Alloc(s, n, fill)))
  {
    BumpedSound(s, n, fill);
    var t := Alloc(s, n, fill);
    AllocSound(s, n, fill);
    forall i | 0 <= i < |s.live|
      ensures View(t)[i] == View(s)[i]
    {
      assert t.chunks[..|s.chunks|][s.live[i].at.chunk] == s.chunks[s.live[i].at.chunk];
    }
    assert View(t)[..|s.live|] == View(s);
  }

  lemma ZallocRefines(s: Arena, n: nat, fill: nat -> byte)
    requires Sound(s)
    ensures Sound(Zalloc(s, n, fill)) && Separate(View(s), ZallocOp(n), View(Zalloc(s, n, fill)))
  {
    AllocRefines(s, n, fill);
    AllocSound(s, n, fill);
    var t := Alloc(s, n, fill);
    var k := |s.live|;
    StoredThere(t, t.live[k], Zeros(n));
    forall i | 0 <= i < k
      ensures Contents(Zalloc(s, n, fill), t.live[i]) == View(s)[i]
    {
      StoredElsewhere(t, t.live[k], Zeros(n), t.live[i]);
      assert View(t)[..k][i] == View(t)[i];
    }
    assert View(Zalloc(s, n, fill)) == View(s) + [Zeros(n)];
  }

  lemma WriteRefines(s: Arena, i: nat, data: seq<byte>)
    requires Sound(s) && i < |s.live| && |data| == s.live[i].len
    ensures Sound(Stored(s, s.live[i], data))
    ensures Separate(View(s), WriteOp(i, data), View(Stored(s, s.live[i], data)))
  {
    StoredThere(s, s.live[i], data);
    var t := Stored(s, s.live[i], data);
    forall j | 0 <= j < |s.live| && j != i
      ensures View(t)[j] == View(s)[j]
    {
      StoredElsewhere(s, s.live[i], data, s.live[j]);
    }
    assert View(t) == View(s)[i := data];
  }

  lemma GrowRefines(s: Arena, i: nat, n: nat, fill: nat -> byte)
    requires Sound(s) && i < |s.live|
    ensures Sound(Grow(s, i, n, fill)) && Separate(View(s), GrowOp(i, n), View(Grow(s, i, n, fill)))
  {
    if n <= s.live[i].len {
    } else if InPlace(s, i, n) {
    } else {
      MoveRefines(s, i, n, fill);
    }
  }

  lemma MoveSound(s: Arena, i: nat, n: nat, fill: nat -> byte)
    requires Sound(s) && i < |s.live| && n > s.live[i].len
    ensures var (r, d) := Bumped(s, n, fill);
      && InChunk(r, d) && Sound(Stored(r, d, Contents(s, s.live[i])).(live := s.live[i := d]))
      && Contents(Stored(r, d, Contents(s, s.live[i])), d) == Contents(s, s.live[i]) + Contents(r, d)[s.live[i].len..]
  {
    BumpedSound(s, n, fill);
    var (r, d) := Bumped(s, n, fill);
    StoredThere(r, d, Contents(s, s.live[i]));
  }

  lemma MoveRefines(s: Arena, i: nat, n: nat, fill: nat -> byte)
    requires Sound(s) && i < |s.live| && n > s.live[i].len && !InPlace(s, i, n)
    ensures Sound(Grow(s, i, n, fill)) && Separate(View(s), GrowOp(i, n), View(Grow(s, i, n, fill)))
  {
    var b, t := s.live[i], Grow(s, i, n, fill);
    MoveSound(s, i, n, fill);
    BumpedSound(s, n, fill);
    var (r, d) := Bumped(s, n, fill);
    forall j | 0 <= j < |s.live| && j != i
      ensures View(t)[j] == View(s)[j]
    {
      StoredElsewhere(r, d, Contents(s, b), s.live[j]);
      assert r.chunks[..|s.chunks|][s.live[j].at.chunk] == s.chunks[s.live[j].at.chunk];
    }
    assert View(t) == View(s)[i := View(t)[i]];
  }

  // By these steps a block keeps its address exactly when it does not get larger or it can grow where
  // it is.
  lemma GrowStaysExactly(s: Arena, i: nat, n: nat, fill: nat -> byte)
    requires Sound(s) && i < |s.live| && s.live[i].len > 0
    ensures |Grow(s, i, n, fill).live| == |s.live|
    ensures Grow(s, i, n, fill).live[i].at == s.live[i].at <==> n <= s.live[i].len || InPlace(s, i, n)
  {
    var b := s.live[i];
    assert InChunk(s, b);
    if n > b.len && !InPlace(s, i, n) {
      BumpedSound(s, n, fill);
      var (r, d) := Bumped(s, n, fill);
      assert Disjoint(b, d);
      assert Grow(s, i, n, fill).live[i] == d;
    }
  }

  // Growing works best for the last item: just allocated, it keeps its address and all chunks stay as
  // they are for as long as the free area lasts.
  lemma LastGrowsInPlace(s: Arena, n: nat, m: nat, fill: nat -> byte, more: nat -> byte)
    requires Sound(s)
    ensures var a := Alloc(s, n, fill);
      && |a.live| == |s.live| + 1 && Sound(a)
      && var at, g := a.live[|s.live|].at, Grow(a, |s.live|, m, more);
      at.off + m <= PCurEnd(a) ==> g.live[|s.live|] == Block(at, m) && g.chunks == a.chunks
  {
    AllocSound(s, n, fill);
    BumpedSound(s, n, fill);
  }

  function Sum(ns: seq<nat>): nat {
    if ns == [] then 0 else Sum(ns[..|ns| - 1]) + ns[|ns| - 1]
  }

  function Allocs(s: Arena, ns: seq<nat>, fill: nat -> byte): Arena {
    if ns == [] then s else Alloc(Allocs(s, ns[..|ns| - 1], fill), ns[|ns| - 1], fill)
  }

  // An item that fits goes where the free area begins, and the first item of all fits in a new chunk.
  lemma OneMoreFits(s: Arena, n: nat, fill: nat -> byte)
    requires s.chunks == [] ==> s.link + n <= s.chunkSize
    requires s.chunks != [] ==> s.pCur + n <= PCurEnd(s)
    ensures var t := Alloc(s, n, fill);
      var off := if s.chunks == [] then s.link else s.pCur;
      && t.live == s.live + [Block(Ptr(|t.chunks| - 1, off), n)] && t.pCur == off + n
      && t.chunkSize == s.chunkSize && t.link == s.link
      && (s.chunks != [] ==> t.chunks == s.chunks)
      && (s.chunks == [] ==> |t.chunks| == 1 && |t.chunks[0]| == s.chunkSize)
  {
  }

  // The items lie in one chunk of the usual size, each where the one before it ends.
  ghost predicate Packed(s: Arena, chunkSize: nat, link: nat, ns: seq<nat>) {
    && |s.chunks| == 1 && |s.chunks[0]| == chunkSize && |s.live| == |ns| && s.pCur == link + Sum(ns)
    && forall i :: 0 <= i < |ns| ==> s.live[i] == Block(Ptr(0, link + Sum(ns[..i])), ns[i])
  }

  lemma PackedOneMore(s: Arena, chunkSize: nat, link: nat, ns: seq<nat>, t: Arena)
    requires ns != [] && t.chunks == s.chunks
    requires Packed(s, chunkSize, link, ns[..|ns| - 1])
    requires t.live == s.live + [Block(Ptr(0, s.pCur), ns[|ns| - 1])] && t.pCur == s.pCur + ns[|ns| - 1]
    ensures Packed(t, chunkSize, link, ns)
  {
    var n := |ns| - 1;
    assert forall i :: 0 <= i < n ==> ns[..n][..i] == ns[..i];
  }

  // Allocation is a moving pointer: items that together fit in one chunk are put in one.
  lemma {:induction false} PackedInOneChunk(chunkSize: nat, link: nat, ns: seq<nat>, fill: nat -> byte)
    requires ns != [] && link + Sum(ns) <= chunkSize
    ensures var s := Allocs(Arena(chunkSize, link, [], None, 0, []), ns, fill);
      Packed(s, chunkSize, link, ns) && s.chunkSize == chunkSize && s.link == link
  {
    var n, start := |ns| - 1, Arena(chunkSize, link, [], None, 0, []);
    var s := Allocs(start, ns[..n], fill);
    if n > 0 {
      PackedInOneChunk(chunkSize, link, ns[..n], fill);
      OneMoreFits(s, ns[n], fill);
      PackedOneMore(s, chunkSize, link, ns, Alloc(s, ns[n], fill));
    } else {
      assert ns[..0] == [];
      OneMoreFits(start, ns[0], fill);
    }
    hide Packed, Alloc;
  }

  // Over every run live blocks stay apart, in their chunks and off the free area, and each call
  // changes what it should and nothing else: the arena cannot be told from separate blocks.
  lemma StepRefines(s: Arena, op: Op, fill: nat -> byte)
    requires Sound(s) && Legal(s, op)
    ensures Sound(Apply(s, op, fill)) && Separate(View(s), op, View(Apply(s, op, fill)))
  {
    match op
    case AllocOp(n) => AllocRefines(s, n, fill);
    case ZallocOp(n) => ZallocRefines(s, n, fill);
    case GrowOp(i, n) => GrowRefines(s, i, n, fill);
    case WriteOp(i, data) => WriteRefines(s, i, data);
  }

  // A call and what malloc leaves in the chunk it may need.
  datatype Call = Call(op: Op, fill: nat -> byte)

  ghost predicate AllLegal(s: Arena, calls: seq<Call>)
    requires Sound(s)
    decreases |calls|
  {
    calls == [] || (
      && Legal(s, calls[0].op)
      && (StepRefines(s, calls[0].op, calls[0].fill); AllLegal(Apply(s, calls[0].op, calls[0].fill), calls[1..])))
  }

  // The states a run goes through, first and last included.
  ghost function States(s: Arena, calls: seq<Call>): seq<Arena>
    requires Sound(s) && AllLegal(s, calls)
    decreases |calls|
  {
    if calls == [] then [s]
    else
      StepRefines(s, calls[0].op, calls[0].fill);
      [s] + States(Apply(s, calls[0].op, calls[0].fill), calls[1..])
  }

  lemma {:induction false} RunRefines(s: Arena, calls: seq<Call>)
    requires Sound(s) && AllLegal(s, calls)
    ensures var run := States(s, calls);
      && |run| == |calls| + 1 && run[0] == s && (forall k :: 0 <= k < |run| ==> Sound(run[k]))
      && forall k :: 0 <= k < |calls| ==> Separate(View(run[k]), calls[k].op, View(run[k + 1]))
    decreases |calls|
  {
    if calls != [] {
      StepRefines(s, calls[0].op, calls[0].fill);
      var t := Apply(s, calls[0].op, calls[0].fill);
      RunRefines(t, calls[1..]);
      var run, rest := States(s, calls), States(t, calls[1..]);
      assert run == [s] + rest;
      forall k | 0 <= k < |calls|
        ensures Separate(View(run[k]), calls[k].op, View(run[k + 1]))
      {
        if k > 0 {
          assert run[k] == rest[k - 1] && run[k + 1] == rest[k] && calls[k] == calls[1..][k - 1];
        }
      }
    }
  }

  // ---------- The struct, updated in place ----------

  class DSArena {
    const chunkSize: nat
    const link: nat
    var chunks: seq<seq<byte>>
    var pLast: Option<Ptr>
    var pCur: nat
    var live: seq<Block>

    function State(): Arena
      reads this
    {
      Arena(chunkSize, link, chunks, pLast, pCur, live)
    }

    constructor DS_NewArena(chunkSize: nat, link: nat)
      ensures this.chunkSize == chunkSize && this.link == link
      ensures State() == Arena(chunkSize, link, [], None, 0, []) && Sound(State())
    {
      this.chunkSize, this.link := chunkSize, link;
      chunks, pLast, pCur, live := [], None, 0, [];
    }

    method Take(n: nat, fill: nat -> byte) returns (b: Block)
      modifies this
      ensures (State(), b) == Bumped(old(State()), n, fill)
    {
      if chunks == [] || pCur + n > PCurEnd(State()) {
        chunks := chunks + [Fresh(Max(chunkSize, link + n), fill)];
        pCur := link;
      }
      b := Block(Ptr(|chunks| - 1, pCur), n);
      pCur := pCur + n;
      pLast := Some(b.at);
    }

    // Byte by byte into the block.
    method Store(b: Block, data: seq<byte>)
      requires b.at.chunk < |chunks| && b.at.off + |data| <= |chunks[b.at.chunk]|
      modifies `chunks
      ensures State() == Stored(old(State()), b, data)
    {
      var k, off := b.at.chunk, b.at.off;
      ghost var c := chunks[k];
      ghost var others := chunks;
      for i := 0 to |data|
        invariant |chunks| == |others| && forall j :: 0 <= j < |others| && j != k ==> chunks[j] == others[j]
        invariant chunks[k] == c[..off] + data[..i] + c[off + i..]
      {
        chunks := chunks[k := chunks[k][off + i := data[i]]];
      }
      assert data[..|data|] == data;
      assert chunks == others[k := c[..off] + data + c[off + |data|..]];
    }

    method DS_ArenaAlloc(n: nat, fill: nat -> byte) returns (b: Block)
      modifies this
      ensures State() == Alloc(old(State()), n, fill) && live == old(live) + [b]
    {
      b := Take(n, fill);
      live := live + [b];
    }

    method DS_ArenaZalloc(n: nat, fill: nat -> byte) returns (b: Block)
      requires Sound(State())
      modifies this
      ensures State() == Zalloc(old(State()), n, fill) && live == old(live) + [b]
    {
      AllocSound(State(), n, fill);
      b := DS_ArenaAlloc(n, fill);
      Store(b, Zeros(n));
    }

    method DS_ArenaGrow(i: nat, n: nat, fill: nat -> byte) returns (b: Block)
      requires Sound(State()) && i < |live|
      modifies this
      ensures State() == Grow(old(State()), i, n, fill) && live == old(live)[i := b]
    {
      var o := live[i];
      if n <= o.len {
        b := Block(o.at, n);
      } else if InPlace(State(), i, n) {
        pCur := o.at.off + n;
        b := Block(o.at, n);
      } else {
        BumpedSound(State(), n, fill);
        var data := Contents(State(), o);
        b := Take(n, fill);
        Store(b, data);
      }
      live := live[i := b];
    }
  }
}
