/**
  INTL_UCS2ToUTF8 and INTL_UTF8ToUCS2 of include/libi18n.h.

  The header documents the two calls and refers to RFC 2279 for the form; the byte patterns below
  are the one-, two- and three-byte rows of section 2 of that RFC, which are all that a UCS-2 unit
  needs.  The same section tells decoders to protect against invalid sequences: the parser accepts
  only the shortest form, no lone continuation byte and no surrogate, and answers NULL otherwise.
 */
module IntlUtf8 {
  import opened Basics
  import opened Segments
  import opened IntlText
  import opened IntlSearch

  newtype unit = u: int | 0 <= u < 0x1_0000

  predicate Surrogate(u: unit) {
    0xD800 <= u <= 0xDFFF
  }

  predicate NoSurrogates(us: seq<unit>) {
    forall i :: 0 <= i < |us| ==> !Surrogate(us[i])
  }

  // ---------- The printer ----------

  predicate Continues(b: byte) {
    0x80 <= b <= 0xBF
  }

  function EncodeUnit(u: unit): (b: seq<byte>)
    ensures 1 <= |b| <= 3
    ensures |b| == 1 ==> b[0] < 0x80
    ensures |b| == 2 ==> 0xC2 <= b[0] <= 0xDF && Continues(b[1])
    ensures |b| == 3 ==> 0xE0 <= b[0] <= 0xEF && Continues(b[1]) && Continues(b[2])
  {
    if u < 0x80 then [u as byte]
    else if u < 0x800 then [(0xC0 + u / 64) as byte, (0x80 + u % 64) as byte]
    else [(0xE0 + u / 4096) as byte, (0x80 + u / 64 % 64) as byte, (0x80 + u % 64) as byte]
  }

  function UCS2ToUTF8(us: seq<unit>): seq<byte> {
    if us == [] then [] else EncodeUnit(us[0]) + UCS2ToUTF8(us[1..])
  }

  // ---------- The parser ----------

  // The unit at p and the bytes it takes; ByteAt never lets a read pass the terminator.
  function DecodeUnit(t: Text, p: nat): (r: Option<(unit, nat)>)
    requires p < |t|
    ensures r.Some? ==> 1 <= r.value.1 && p + r.value.1 <= |t|
  {
    var b0 := t[p];
    if b0 < 0x80 then Some((b0 as unit, 1))
    else if 0xC2 <= b0 <= 0xDF then
      if !Continues(ByteAt(t, p + 1)) then None
      else Some(((b0 - 0xC0) as unit * 64 + (t[p + 1] - 0x80) as unit, 2))
    else if 0xE0 <= b0 <= 0xEF then
      if !Continues(ByteAt(t, p + 1)) || !Continues(ByteAt(t, p + 2)) then None
      else
        var u := (b0 - 0xE0) as unit * 4096 + (t[p + 1] - 0x80) as unit * 64 + (t[p + 2] - 0x80) as unit;
        if u < 0x800 || Surrogate(u) then None else Some((u, 3))
    else None
  }

  function DecodeFrom(t: Text, p: nat): Option<seq<unit>>
    requires p <= |t|
    decreases |t| - p
  {
    if p == |t| then Some([])
    else match DecodeUnit(t, p)
      case None => None
      case Some((u, n)) =>
        match DecodeFrom(t, p + n)
        case None => None
        case Some(us) => Some([u] + us)
  }

  // The number of units returned through num_chars is the length of the sequence.
  function UTF8ToUCS2(t: Text): Option<seq<unit>> {
    DecodeFrom(t, 0)
  }

  // ---------- One unit ----------

  // Six-bit digits, taken apart and put together.
  lemma Digits(u: int)
    requires 0 <= u
    ensures u == u / 64 * 64 + u % 64
    ensures u == u / 4096 * 4096 + u / 64 % 64 * 64 + u % 64
  {
    assert u / 4096 == u / 64 / 64;
  }

  lemma DigitsUnique(a: int, b: int, c: int)
    requires 0 <= a && 0 <= b < 64 && 0 <= c < 64
    ensures var u := a * 4096 + b * 64 + c; u / 4096 == a && u / 64 == a * 64 + b && u / 64 % 64 == b && u % 64 == c
  {
  }

  lemma DecodeEncodedUnit(t: Text, p: nat, u: unit)
    requires !Surrogate(u) && u != 0 && p + |EncodeUnit(u)| <= |t|
    requires t[p..p + |EncodeUnit(u)|] == EncodeUnit(u)
    ensures DecodeUnit(t, p) == Some((u, |EncodeUnit(u)|))
  {
    var e := EncodeUnit(u);
    assert e[0] == t[p];
    Digits(u as int);
    if 0x80 <= u < 0x800 {
      assert e[1] == t[p + 1];
    } else if 0x800 <= u {
      assert e[1] == t[p + 1] && e[2] == t[p + 2];
    }
  }

  lemma EncodeDecodedUnit(t: Text, p: nat)
    requires p < |t| && DecodeUnit(t, p).Some?
    ensures var (u, n) := DecodeUnit(t, p).value; EncodeUnit(u) == t[p..p + n] && !Surrogate(u) && u != 0
  {
    var (u, n) := DecodeUnit(t, p).value;
    if n == 2 {
      DigitsUnique(0, (t[p] - 0xC0) as int, (t[p + 1] - 0x80) as int);
      assert t[p..p + 2] == [t[p], t[p + 1]];
    } else if n == 3 {
      DigitsUnique((t[p] - 0xE0) as int, (t[p + 1] - 0x80) as int, (t[p + 2] - 0x80) as int);
      assert t[p..p + 3] == [t[p], t[p + 1], t[p + 2]];
    }
  }

  // ---------- Round trips ----------

  function BeforeZero<T(==)>(xs: seq<T>, zero: T): (r: seq<T>)
    ensures r <= xs && zero !in r && (r == xs || xs[|r|] == zero)
  {
    if xs == [] || xs[0] == zero then [] else [xs[0]] + BeforeZero(xs[1..], zero)
  }

  // What a reader of the NULL-terminated result sees of it.
  function AsText(b: seq<byte>): Text {
    BeforeZero(b, 0)
  }

  lemma {:induction false} EncodedNonZero(us: seq<unit>)
    ensures 0 !in us <==> 0 !in UCS2ToUTF8(us)
  {
    if us != [] {
      EncodedNonZero(us[1..]);
      var e := EncodeUnit(us[0]);
      assert 0 in e <==> us[0] == 0 by {
        assert us[0] == 0 ==> e[0] == 0;
      }
      assert us == [us[0]] + us[1..];
    }
  }

  lemma {:induction false} DecodeEncodedFrom(t: Text, p: nat, us: seq<unit>)
    requires p <= |t| && t[p..] == UCS2ToUTF8(us) && NoSurrogates(us) && 0 !in us
    ensures DecodeFrom(t, p) == Some(us)
    decreases |us|
  {
    hide EncodeUnit, DecodeUnit;
    if us != [] {
      var e := EncodeUnit(us[0]);
      assert t[p..p + |e|] == t[p..][..|e|] == e;
      assert t[p + |e|..] == t[p..][|e|..] == UCS2ToUTF8(us[1..]);
      DecodeEncodedUnit(t, p, us[0]);
      assert us == [us[0]] + us[1..];
      DecodeEncodedFrom(t, p + |e|, us[1..]);
    }
  }

  lemma {:induction false} EncodedBeforeZero(us: seq<unit>)
    ensures AsText(UCS2ToUTF8(us)) == UCS2ToUTF8(BeforeZero(us, 0))
  {
    if us != [] {
      var e, rest := EncodeUnit(us[0]), UCS2ToUTF8(us[1..]);
      EncodedBeforeZero(us[1..]);
      if us[0] != 0 {
        BeforeZeroConcat(e, rest);
        assert BeforeZero(us, 0)[1..] == BeforeZero(us[1..], 0);
      }
    }
  }

  lemma {:induction false} BeforeZeroConcat(xs: seq<byte>, ys: seq<byte>)
    requires 0 !in xs
    ensures BeforeZero(xs + ys, 0) == xs + BeforeZero(ys, 0)
  {
    if xs == [] {
      assert xs + ys == ys;
    } else {
      BeforeZeroConcat(xs[1..], ys);
      assert (xs + ys)[1..] == xs[1..] + ys;
    }
  }

  // Decoding the encoding gives back the units before the first zero unit ...
  lemma DecodeEncode(us: seq<unit>)
    requires NoSurrogates(us)
    ensures UTF8ToUCS2(AsText(UCS2ToUTF8(us))) == Some(BeforeZero(us, 0))
  {
    var ks := BeforeZero(us, 0);
    EncodedBeforeZero(us);
    var t := AsText(UCS2ToUTF8(us));
    assert t[0..] == t;
    DecodeEncodedFrom(t, 0, ks);
  }

  // ... so it is the identity exactly on sequences without one.
  lemma RoundTrip(us: seq<unit>)
    requires NoSurrogates(us)
    ensures UTF8ToUCS2(AsText(UCS2ToUTF8(us))) == Some(us) <==> 0 !in us
  {
    DecodeEncode(us);
    var ks := BeforeZero(us, 0);
    assert ks == us <==> 0 !in us;
  }

  // The parser accepts nothing but encodings, and reads each as what it encodes.
  lemma {:induction false} DecodedIsEncoding(t: Text, p: nat)
    requires p <= |t| && DecodeFrom(t, p).Some?
    ensures var us := DecodeFrom(t, p).value; UCS2ToUTF8(us) == t[p..] && NoSurrogates(us) && 0 !in us
    decreases |t| - p
  {
    hide EncodeUnit, DecodeUnit;
    if p < |t| {
      var n := DecodeUnit(t, p).value.1;
      EncodeDecodedUnit(t, p);
      DecodedIsEncoding(t, p + n);
      assert t[p..] == t[p..p + n] + t[p + n..];
    }
  }

  lemma EncodeDecode(t: Text, us: seq<unit>)
    ensures UTF8ToUCS2(t) == Some(us) <==> UCS2ToUTF8(us) == t && NoSurrogates(us) && 0 !in us
  {
    assert t[0..] == t;
    if UTF8ToUCS2(t).Some? {
      DecodedIsEncoding(t, 0);
    }
    if UCS2ToUTF8(us) == t && NoSurrogates(us) && 0 !in us {
      DecodeEncodedFrom(t, 0, us);
    }
  }

  lemma {:induction false} EncodedLength(us: seq<unit>)
    ensures |us| <= |UCS2ToUTF8(us)| <= 3 * |us|
  {
    if us != [] {
      EncodedLength(us[1..]);
    }
  }

  // ---------- UTF-8 as a charset ----------

  // INTL_IsLeadByte for the charset CS_UTF8: section 2 of RFC 2279, first octets.
  function Utf8LeadByte(b: byte): int {
    if 0xC0 <= b <= 0xDF then 1 else if 0xE0 <= b <= 0xEF then 2 else if 0xF0 <= b <= 0xF7 then 3 else 0
  }

  const UTF8: Charset := seq(256, b requires 0 <= b < 256 => Utf8LeadByte(b as byte))

  function EncodeEach(us: seq<unit>): seq<seq<byte>> {
    if us == [] then [] else [EncodeUnit(us[0])] + EncodeEach(us[1..])
  }

  // A walk that steps over every character that is not cut short.
  ghost predicate WholeSteps(w: Walk, t: seq<byte>)
    requires |w| == |t|
  {
    forall p :: 0 <= p < |t| && p + 1 + Utf8LeadByte(t[p]) <= |t| ==> w[p] == p + 1 + Utf8LeadByte(t[p])
  }

  lemma StepsAreWhole(r: Rule, t: Text)
    ensures WholeSteps(Steps(UTF8, r, t), t)
  {
  }

  // The first byte of a unit tells its length and is the only one that is not a continuation.
  ghost predicate CharacterShape(e: seq<byte>) {
    && e != [] && |e| == 1 + Utf8LeadByte(e[0]) && !Continues(e[0])
    && forall i :: 1 <= i < |e| ==> Continues(e[i])
  }

  lemma UnitShape(u: unit)
    ensures CharacterShape(EncodeUnit(u))
  {
    hide EncodeUnit;
    var e := EncodeUnit(u);
    assert |e| == 1 || |e| == 2 || |e| == 3;
  }

  lemma TakeHead(t: seq<byte>, from: nat, e: seq<byte>, rest: seq<byte>)
    requires from <= |t| && t[from..] == e + rest && e != []
    ensures from + |e| <= |t| && t[from..from + |e|] == e && t[from + |e|..] == rest && t[from] == e[0]
  {
    assert t[from] == t[from..][0];
    assert t[from..from + |e|] == t[from..][..|e|];
    assert t[from + |e|..] == t[from..][|e|..];
  }

  lemma SplitStep(w: Walk, t: seq<byte>, from: nat)
    requires from < |w| == |t|
    ensures Split(w, t, from) == [t[from..w[from]]] + Split(w, t, w[from])
  {
  }

  lemma {:induction false} SplitOfEncoding(w: Walk, t: seq<byte>, from: nat, us: seq<unit>)
    requires from <= |t| == |w| && t[from..] == UCS2ToUTF8(us) && WholeSteps(w, t)
    ensures Split(w, t, from) == EncodeEach(us)
    decreases |us|
  {
    hide EncodeUnit;
    if us != [] {
      UnitShape(us[0]);
      var e := EncodeUnit(us[0]);
      TakeHead(t, from, e, UCS2ToUTF8(us[1..]));
      assert w[from] == from + |e|;
      SplitOfEncoding(w, t, w[from], us[1..]);
      SplitStep(w, t, from);
      hide Split;
    }
  }

  // The character boundaries of an encoded text are those of its units, by either rule.
  lemma CharactersOfEncoding(r: Rule, us: seq<unit>)
    requires 0 !in us
    ensures Characters(UTF8, r, AsText(UCS2ToUTF8(us))) == EncodeEach(us)
  {
    EncodedBeforeZero(us);
    assert BeforeZero(us, 0) == us;
    var t := AsText(UCS2ToUTF8(us));
    assert t[0..] == t;
    StepsAreWhole(r, t);
    SplitOfEncoding(Steps(UTF8, r, t), t, 0, us);
  }

  lemma {:induction false} EncodeEachAt(us: seq<unit>, k: nat)
    ensures |EncodeEach(us)| == |us|
    ensures k < |us| ==> EncodeEach(us)[k] == EncodeUnit(us[k])
  {
    if us != [] {
      EncodeEachAt(us[1..], if k == 0 then 0 else k - 1);
    }
  }

  // In such a text the bytes inside characters, and no others, are continuation bytes, and no
  // character is cut short.
  ghost predicate MarkedAt(v: Walk, t: seq<byte>, p: nat)
    requires p < |v| == |t|
  {
    if Start(v, 0, p) < p then Continues(t[p]) else !Continues(t[p]) && v[p] == p + 1 + Utf8LeadByte(t[p])
  }

  ghost predicate SelfMarking(v: Walk, t: seq<byte>)
    requires |v| == |t|
  {
    forall p :: 0 <= p < |t| ==> MarkedAt(v, t, p)
  }

  lemma MarkedInside(t: seq<byte>, s: nat, end: nat, p: nat)
    requires s <= p < end <= |t| && CharacterShape(t[s..end])
    ensures if s < p then Continues(t[p]) else !Continues(t[p]) && end == p + 1 + Utf8LeadByte(t[p])
  {
    assert t[p] == t[s..end][p - s] && t[s] == t[s..end][0];
  }

  lemma EncodingSelfMarks(v: Walk, t: seq<byte>, us: seq<unit>)
    requires |v| == |t| && t == UCS2ToUTF8(us) && WholeSteps(v, t)
    ensures SelfMarking(v, t)
  {
    assert t[0..] == t;
    SplitOfEncoding(v, t, 0, us);
    forall p | 0 <= p < |t|
      ensures MarkedAt(v, t, p)
    {
      PieceAt(v, t, p);
      var k, s := CountUpTo(v, 0, p), Start(v, 0, p);
      EncodeEachAt(us, k);
      UnitShape(us[k]);
      MarkedInside(t, s, v[s], p);
    }
  }

  lemma MarkedBoundary(v: Walk, t: seq<byte>, p: nat)
    requires p < |v| == |t| && Boundary(v, p) && SelfMarking(v, t)
    ensures v[p] == p + 1 + Utf8LeadByte(t[p]) && Boundary(v, v[p])
  {
    StartIsLast(v, p, p);
    assert MarkedAt(v, t, p);
    BackUndoesOn(v, p);
  }

  lemma SameFirstByte(s1: seq<byte>, p: nat, s2: seq<byte>, q: nat)
    requires q < |s2| && BytesAt(s1, p, s2[q..])
    ensures s1[p] == s2[q]
  {
    assert s1[p] == s1[p..p + |s2| - q][0] == s2[q..][0];
  }

  // Bytes that stand at a boundary and are whole characters stop at a boundary.
  lemma {:induction false} WholeCharactersFit(v: Walk, s1: seq<byte>, p: nat, w: Walk, s2: seq<byte>, q: nat)
    requires p <= |v| == |s1| && q <= |w| == |s2| && SelfMarking(v, s1) && SelfMarking(w, s2)
    requires Boundary(v, p) && Boundary(w, q) && BytesAt(s1, p, s2[q..])
    ensures Reaches(v, p, p + |s2| - q)
    decreases |w| - q
  {
    if q < |w| {
      MarkedBoundary(v, s1, p);
      MarkedBoundary(w, s2, q);
      SameFirstByte(s1, p, s2, q);
      BytesSplit(s1, p, v[p], s2, q, w[q]);
      WholeCharactersFit(v, s1, v[p], w, s2, w[q]);
    }
  }

  lemma MarkedStart(w: Walk, t: seq<byte>)
    requires 0 < |w| == |t| && SelfMarking(w, t)
    ensures !Continues(t[0])
  {
    assert MarkedAt(w, t, 0);
  }

  lemma MarkedBy(v: Walk, t: seq<byte>, p: nat)
    requires p < |v| == |t| && SelfMarking(v, t) && !Continues(t[p])
    ensures Boundary(v, p)
  {
    assert MarkedAt(v, t, p);
  }

  lemma BytesAreWhole(v: Walk, s1: seq<byte>, p: nat, w: Walk, s2: seq<byte>)
    requires |v| == |s1| && |w| == |s2| && SelfMarking(v, s1) && SelfMarking(w, s2)
    requires s2 != [] && BytesAt(s1, p, s2)
    ensures Whole(v, s1, p, s2)
  {
    assert s2[0..] == s2;
    SameFirstByte(s1, p, s2, 0);
    MarkedStart(w, s2);
    MarkedBy(v, s1, p);
    WholeCharactersFit(v, s1, p, w, s2, 0);
    WholeFrom(v, s1, p, s2);
  }

  // On UTF-8 encodings the character-aware search is plain byte search: the first place where the
  // bytes of the one stand in the other is always a whole match.
  lemma StrstrIsByteSearch(r: Rule, s1: Text, us: seq<unit>, s2: Text, vs: seq<unit>)
    requires s1 == UCS2ToUTF8(us) && s2 == UCS2ToUTF8(vs)
    ensures match Strstr(UTF8, r, s1, s2)
      case Some(at) => BytesAt(s1, at, s2) && forall p: nat :: p < at ==> !BytesAt(s1, p, s2)
      case None => forall p: nat :: !BytesAt(s1, p, s2)
  {
    var v, w := Steps(UTF8, r, s1), Steps(UTF8, r, s2);
    StepsAreWhole(r, s1);
    StepsAreWhole(r, s2);
    EncodingSelfMarks(v, s1, us);
    EncodingSelfMarks(w, s2, vs);
    StrstrOnBytes(UTF8, r, s1, s2);
    if s2 == [] {
      assert Whole(v, s1, 0, s2);
    } else {
      forall p: nat | BytesAt(s1, p, s2)
        ensures Whole(v, s1, p, s2)
      {
        BytesAreWhole(v, s1, p, w, s2);
      }
    }
  }

  // Other charsets need the character-aware search: here a trail byte equals the character sought.
  function DoubleByteLead(b: byte): int {
    if b >= 0x80 then 1 else 0
  }

  const CUT_TEXT: Text := [0x83, 0x5C]
  const CUT_SOUGHT: Text := [0x5C]

  const DOUBLE_BYTE: Charset := seq(256, b requires 0 <= b < 256 => DoubleByteLead(b as byte))

  lemma ByteSearchCutsCharacters(r: Rule)
    ensures BytesAt(CUT_TEXT, 1, CUT_SOUGHT) && Strstr(DOUBLE_BYTE, r, CUT_TEXT, CUT_SOUGHT) == None
  {
    assert CUT_TEXT[1..2] == CUT_SOUGHT;
    CutSteps(r);
    OneCannotMatchTwo(Steps(DOUBLE_BYTE, r, CUT_TEXT), CUT_TEXT, Steps(DOUBLE_BYTE, r, CUT_SOUGHT), CUT_SOUGHT);
  }

  lemma CutSteps(r: Rule)
    ensures Steps(DOUBLE_BYTE, r, CUT_TEXT) == [2, 2] && Steps(DOUBLE_BYTE, r, CUT_SOUGHT) == [1]
  {
  }

  lemma OneCannotMatchTwo(v: Walk, s1: seq<byte>, w: Walk, s2: seq<byte>)
    requires |s1| == 2 && |s2| == 1 && v == [2, 2] && w == [1]
    ensures SearchFrom(v, s1, 0, w, s2) == None
  {
    assert |s1[0..2]| != |s2[0..1]|;
    assert SearchFrom(v, s1, 2, w, s2) == None;
  }
}
