/**
  Character boundaries of include/libi18n.h.

  Everything here is a documented contract; the header contains no code for it.  A charset is
  known only through INTL_IsLeadByte: how many bytes, 0 to 3, follow a given first byte.

  INTL_CharLen and INTL_NextChar treat a zero byte inside a character differently: the first
  counts the bytes actually there, the second advances by one.  Both rules are kept, and every
  theorem that takes a Rule holds of the split either of them makes.
 */
module IntlText {
  import opened Basics
  import opened Segments

  // The values of INTL_IsLeadByte for the 256 bytes.
  type Charset = table: seq<int> | |table| == 256 && forall b :: 0 <= b < 256 ==> 0 <= table[b] <= 3
    witness seq(256, _ => 0)

  // INTL_IsLeadByte(charSetID, ch): bytes in the character that starts with ch, minus 1.
  function IsLeadByte(cs: Charset, ch: byte): int {
    cs[ch as int]
  }

  // The bytes before the terminator.
  type Text = t: seq<byte> | forall i :: 0 <= i < |t| ==> t[i] != 0 witness []

  datatype Rule = ByCharLen | ByNextChar

  // Reading at |t| yields the terminator; nothing past it may be read.
  function ByteAt(t: Text, i: nat): byte
    requires i <= |t|
  {
    if i < |t| then t[i] else 0
  }

  // How many of the n bytes from q on come before a zero byte.
  function NonZeroRun(t: Text, q: nat, n: nat): (k: nat)
    requires q <= |t|
    ensures k == if n <= |t| - q then n else |t| - q
    decreases n
  {
    if n == 0 || ByteAt(t, q) == 0 then 0 else 1 + NonZeroRun(t, q + 1, n - 1)
  }

  function CharLen(cs: Charset, t: Text, p: nat): nat
    requires p < |t|
  {
    1 + NonZeroRun(t, p + 1, IsLeadByte(cs, t[p]))
  }

  function NextChar(cs: Charset, t: Text, p: nat): (q: nat)
    requires p < |t|
    ensures p < q <= |t|
  {
    if NonZeroRun(t, p + 1, IsLeadByte(cs, t[p])) < IsLeadByte(cs, t[p]) then p + 1 else p + 1 + IsLeadByte(cs, t[p])
  }

  function Steps(cs: Charset, r: Rule, t: Text): Walk {
    seq(|t|, p requires 0 <= p < |t| => if r == ByCharLen then p + CharLen(cs, t, p) else NextChar(cs, t, p))
  }

  function Characters(cs: Charset, r: Rule, t: Text): seq<seq<byte>> {
    Split(Steps(cs, r, t), t, 0)
  }

  // ---------- The boundary functions ----------

  predicate CharStarts(cs: Charset, r: Rule, t: Text, p: nat) {
    Boundary(Steps(cs, r, t), p)
  }

  function NextCharIdxInText(cs: Charset, r: Rule, t: Text, pos: nat): nat
    requires pos < |t|
  {
    Steps(cs, r, t)[pos]
  }

  // Characters can only be recognised from the front, so the previous one is found by scanning.
  function PrevCharIdxInText(cs: Charset, r: Rule, t: Text, pos: nat): nat
    requires 0 < pos <= |t|
  {
    ScanBack(Steps(cs, r, t), 0, pos)
  }

  function NextCharIdx(cs: Charset, r: Rule, t: Text, pos: nat): nat
    requires pos < |t|
  {
    NextCharIdxInText(cs, r, t, Start(Steps(cs, r, t), 0, pos))
  }

  // The header does not say what precedes the first character; callers ask only after it.
  function PrevCharIdx(cs: Charset, r: Rule, t: Text, pos: nat): nat
    requires pos < |t| && 0 < Start(Steps(cs, r, t), 0, pos)
  {
    PrevCharIdxInText(cs, r, t, Start(Steps(cs, r, t), 0, pos))
  }

  // pos counts from 1.
  function NthByteOfChar(cs: Charset, r: Rule, t: Text, pos: nat): nat
    requires 0 < pos <= |t|
  {
    var p := Start(Steps(cs, r, t), 0, pos - 1);
    if Steps(cs, r, t)[p] == p + 1 then 0 else pos - p
  }

  function TextByteCountToCharLen(cs: Charset, r: Rule, t: Text, byteCount: nat): nat {
    CountUpTo(Steps(cs, r, t), 0, byteCount)
  }

  function TextCharLenToByteCount(cs: Charset, r: Rule, t: Text, charLen: nat): nat {
    Offset(Steps(cs, r, t), 0, charLen)
  }

  // ---------- What they promise ----------

  // The characters are all of the text, one to four bytes each.
  lemma CharactersCover(cs: Charset, r: Rule, t: Text)
    ensures Flatten(Characters(cs, r, t)) == t
    ensures forall c :: c in Characters(cs, r, t) ==> 1 <= |c| <= 4
  {
    var w := Steps(cs, r, t);
    SplitCovers(w, t, 0);
    assert t[0..] == t;
    forall i | 0 <= i < |Characters(cs, r, t)|
      ensures 1 <= |Characters(cs, r, t)[i]| <= 4
    {
      SplitPiece(w, t, 0, i);
    }
  }

  // Every character has the bytes its first one announces, up to the last: there the rules count
  // what is left of it, or its first byte alone.
  lemma CharacterLengths(cs: Charset, r: Rule, t: Text, k: nat)
    requires k < |Characters(cs, r, t)|
    ensures var c, p := Characters(cs, r, t)[k], TextCharLenToByteCount(cs, r, t, k);
      && c != [] && p < |t|
      && var announced := 1 + IsLeadByte(cs, c[0]);
      |c| == if p + announced <= |t| then announced else if r == ByCharLen then |t| - p else 1
  {
    SplitCovers(Steps(cs, r, t), t, 0);
    SplitPiece(Steps(cs, r, t), t, 0, k);
  }

  // At every boundary the previous index undoes the next index, and the reverse.
  lemma NextThenPrev(cs: Charset, r: Rule, t: Text, p: nat)
    requires p < |t| && CharStarts(cs, r, t, p)
    ensures var q := NextCharIdxInText(cs, r, t, p);
      p < q <= |t| && CharStarts(cs, r, t, q) && PrevCharIdxInText(cs, r, t, q) == p
  {
    BackUndoesOn(Steps(cs, r, t), p);
  }

  lemma PrevThenNext(cs: Charset, r: Rule, t: Text, q: nat)
    requires 0 < q <= |t| && CharStarts(cs, r, t, q)
    ensures var p := PrevCharIdxInText(cs, r, t, q);
      p < q && CharStarts(cs, r, t, p) && NextCharIdxInText(cs, r, t, p) == q
  {
    OnUndoesBack(Steps(cs, r, t), q);
  }

  // Every byte position lies in one character: k is its number, counted from 0.
  lemma AnyByte(cs: Charset, r: Rule, t: Text, pos: nat)
    requires pos < |t|
    ensures var k := TextByteCountToCharLen(cs, r, t, pos);
      && k < |Characters(cs, r, t)|
      && var c, p := Characters(cs, r, t)[k], TextCharLenToByteCount(cs, r, t, k);
      p <= pos < p + |c| <= |t| && c == t[p..p + |c|]
  {
    PieceHolds(Steps(cs, r, t), t, pos);
  }

  // From any byte of character k the next index is where character k + 1 starts ...
  lemma AnyByteNext(cs: Charset, r: Rule, t: Text, pos: nat)
    requires pos < |t|
    ensures NextCharIdx(cs, r, t, pos) == TextCharLenToByteCount(cs, r, t, TextByteCountToCharLen(cs, r, t, pos) + 1)
  {
    NextAfter(Steps(cs, r, t), pos);
  }

  // ... and the byte number is 0 in a single-byte character and counts from 1 in any other.
  lemma AnyByteNth(cs: Charset, r: Rule, t: Text, pos: nat)
    requires pos < |t|
    ensures var k := TextByteCountToCharLen(cs, r, t, pos);
      && k < |Characters(cs, r, t)|
      && NthByteOfChar(cs, r, t, pos + 1)
         == if |Characters(cs, r, t)[k]| == 1 then 0 else pos - TextCharLenToByteCount(cs, r, t, k) + 1
  {
    PieceAt(Steps(cs, r, t), t, pos);
  }

  // The previous index of any byte of character k, unless k is the first, is where k - 1 starts.
  lemma AnyBytePrev(cs: Charset, r: Rule, t: Text, pos: nat)
    requires pos < |t|
    ensures 0 < TextByteCountToCharLen(cs, r, t, pos) <==> 0 < Start(Steps(cs, r, t), 0, pos)
    ensures 0 < TextByteCountToCharLen(cs, r, t, pos) ==>
      PrevCharIdx(cs, r, t, pos) == TextCharLenToByteCount(cs, r, t, TextByteCountToCharLen(cs, r, t, pos) - 1)
  {
    var w := Steps(cs, r, t);
    var k, s := CountUpTo(w, 0, pos), Start(w, 0, pos);
    PieceBefore(w, pos);
    assert TextByteCountToCharLen(cs, r, t, pos) == k;
    if 0 < k {
      assert PrevCharIdxInText(cs, r, t, s) == Offset(w, 0, k - 1);
    }
  }

  // Counting characters and counting bytes undo each other, exactly on boundaries.
  lemma CountsInvert(cs: Charset, r: Rule, t: Text, k: nat, n: nat)
    requires k <= |Characters(cs, r, t)| && n <= |t|
    ensures TextByteCountToCharLen(cs, r, t, TextCharLenToByteCount(cs, r, t, k)) == k
    ensures TextCharLenToByteCount(cs, r, t, TextByteCountToCharLen(cs, r, t, n)) == n <==> CharStarts(cs, r, t, n)
  {
    var w := Steps(cs, r, t);
    SplitCovers(w, t, 0);
    CountOfOffset(w, 0, k);
    OffsetOfCount(w, 0, n);
  }

  // Walking with INTL_NextChar always makes progress and lands exactly on the terminator.
  method WalkText(cs: Charset, t: Text) returns (stop: nat, count: nat)
    ensures stop == |t| && ByteAt(t, stop) == 0
    ensures count == |Characters(cs, ByNextChar, t)|
  {
    stop, count := 0, 0;
    ghost var w := Steps(cs, ByNextChar, t);
    SplitCovers(w, t, 0);
    while ByteAt(t, stop) != 0
      invariant stop <= |t|
      invariant count + Count(w, stop) == Count(w, 0)
      decreases |t| - stop
    {
      stop := NextChar(cs, t, stop);
      count := count + 1;
    }
  }

  // The two rules make the same split unless the text ends inside a character of which two or
  // more bytes are there.
  lemma RulesAgree(cs: Charset, t: Text)
    ensures var cl := Characters(cs, ByCharLen, t);
      cl == Characters(cs, ByNextChar, t)
      <==> (cl == [] || |cl[|cl| - 1]| == 1
            || (|cl[|cl| - 1]| > 0 && |cl[|cl| - 1]| == 1 + IsLeadByte(cs, cl[|cl| - 1][0])))
  {
    RulesAgreeFrom(cs, t, 0);
  }

  lemma {:induction false} RulesAgreeFrom(cs: Charset, t: Text, from: nat)
    requires from <= |t|
    ensures var cl := Split(Steps(cs, ByCharLen, t), t, from);
      cl == Split(Steps(cs, ByNextChar, t), t, from)
      <==> (cl == [] || |cl[|cl| - 1]| == 1
            || (|cl[|cl| - 1]| > 0 && |cl[|cl| - 1]| == 1 + IsLeadByte(cs, cl[|cl| - 1][0])))
    decreases |t| - from
  {
    if from < |t| {
      var w, v := Steps(cs, ByCharLen, t), Steps(cs, ByNextChar, t);
      var cl, cn := Split(w, t, from), Split(v, t, from);
      assert cl[0] == t[from..w[from]] && cn[0] == t[from..v[from]];
      if w[from] == v[from] {
        RulesAgreeFrom(cs, t, w[from]);
        assert cl[1..] == Split(w, t, w[from]) && cn[1..] == Split(v, t, v[from]);
        assert cl == cn <==> cl[1..] == cn[1..] by {
          assert cl == [cl[0]] + cl[1..] && cn == [cn[0]] + cn[1..];
        }
      } else {
        assert |cl[0]| != |cn[0]|;
        assert w[from] == |t|;
      }
    }
  }
}
