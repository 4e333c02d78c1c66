/**
  MimeHeaders_get_parameter of include/libmime.h with the extensions of RFC 2231.

  The header documents what the call returns and names the RFC; the extractor below follows
  section 3 (continuations), section 4 (charset and language) and section 4.1 (both together) of
  that RFC.  The printer is its partner: it writes a value in numbered sections, cut anywhere, each
  of them extended or plain, quoted or not, with the line folded between any two.  Quoted strings are
  those of section 3.3 of RFC 822.
 */
module MimeParameter {
  import opened Basics

  datatype Param = Param(attr: string, text: string)

  // What the caller gets; charset and language are set only for extended values.
  datatype Extracted = Extracted(value: seq<byte>, charset: Option<string>, language: Option<string>)

  // ---------- The list of parameters ----------

  function Find(s: string, c: char): (k: nat)
    ensures k <= |s| && (k < |s| ==> s[k] == c) && c !in s[..k]
  {
    if s == [] || s[0] == c then 0
    else
      var k := Find(s[1..], c);
      assert s[..k + 1] == [s[0]] + s[1..][..k];
      k + 1
  }

  // Up to the first semicolon outside a quoted string; a backslash inside one takes the next
  // character with it.
  function Cut(s: string, quoted: bool): (k: nat)
    ensures k <= |s|
    decreases |s|
  {
    if s == [] then 0
    else if !quoted then (if s[0] == ';' then 0 else 1 + Cut(s[1..], s[0] == '"'))
    else if s[0] == '\\' && |s| >= 2 then 2 + Cut(s[2..], true)
    else 1 + Cut(s[1..], s[0] != '"')
  }

  function SkipBlanks(s: string): string {
    if s != [] && Blank(s[0]) then SkipBlanks(s[1..]) else s
  }

  function Unquoted(s: string): string
    decreases |s|
  {
    if s == [] || s[0] == '"' then []
    else if s[0] == '\\' && |s| >= 2 then [s[1]] + Unquoted(s[2..])
    else [s[0]] + Unquoted(s[1..])
  }

  function TextOf(s: string): string {
    if s != [] && s[0] == '"' then Unquoted(s[1..]) else s
  }

  function OneParam(s: string): Param {
    var t := SkipBlanks(s);
    var k := Find(t, '=');
    Param(t[..k], if k < |t| then TextOf(t[k + 1..]) else [])
  }

  // What follows the first semicolon, cut at the others.
  function Params(s: string): seq<Param>
    decreases |s|
  {
    var k := Cut(s, false);
    if k == |s| then [] else
      var rest := s[k + 1..];
      [OneParam(rest[..Cut(rest, false)])] + Params(rest)
  }

  // ---------- A list as it is written ----------

  // A parameter with the blanks before it, which may fold the line, and quoted or not.
  datatype Written = Written(gap: string, param: Param, quoted: bool)

  function Escaped(s: string): string {
    if s == [] then [] else (if s[0] == '"' || s[0] == '\\' then ['\\', s[0]] else [s[0]]) + Escaped(s[1..])
  }

  function Quote(s: string): string {
    "\"" + (Escaped(s) + "\"")
  }

  function Shown(w: Written): string {
    if w.quoted then Quote(w.param.text) else w.param.text
  }

  function Body(w: Written): string {
    w.gap + (w.param.attr + ("=" + Shown(w)))
  }

  function Print(ws: seq<Written>): string {
    if ws == [] then [] else ";" + (Body(ws[0]) + Print(ws[1..]))
  }

  function Values(ws: seq<Written>): seq<Param> {
    seq(|ws|, i requires 0 <= i < |ws| => ws[i].param)
  }

  // Neither a semicolon nor a quote.
  ghost predicate Unmarked(s: string) {
    forall i :: 0 <= i < |s| ==> s[i] != ';' && s[i] != '"'
  }

  ghost predicate Clean(s: string) {
    Unmarked(s) && forall i :: 0 <= i < |s| ==> !Blank(s[i])
  }

  // Any text may be quoted; one that is not has no blank, semicolon or quote.
  ghost predicate Printable(w: Written) {
    AllBlank(w.gap) && Clean(w.param.attr) && '=' !in w.param.attr && (!w.quoted ==> Clean(w.param.text))
  }

  lemma {:induction false} FindFirst(s: string, c: char, k: nat)
    requires k < |s| && s[k] == c && c !in s[..k]
    ensures Find(s, c) == k
  {
    if k > 0 {
      assert s[..k][0] == s[0] && s[1..][..k - 1] == s[..k][1..];
      FindFirst(s[1..], c, k - 1);
    }
  }

  lemma {:induction false} CutPlain(s: string, tail: string)
    requires Unmarked(s)
    ensures Cut(s + tail, false) == |s| + Cut(tail, false)
  {
    if s == [] {
      assert s + tail == tail;
    } else {
      CutPlain(s[1..], tail);
      assert (s + tail)[1..] == s[1..] + tail;
    }
  }

  lemma EscapedStep(s: string, tail: string)
    requires s != []
    ensures var all, rest := Escaped(s) + ("\"" + tail), Escaped(s[1..]) + ("\"" + tail);
      if s[0] == '"' || s[0] == '\\' then |all| >= 2 && all[0] == '\\' && all[1] == s[0] && all[2..] == rest
      else |all| >= 1 && all[0] == s[0] && all[1..] == rest
  {
    var end := "\"" + tail;
    if s[0] == '"' || s[0] == '\\' {
      assert Escaped(s) == ['\\', s[0]] + Escaped(s[1..]);
      TakenOff(['\\', s[0]], Escaped(s[1..]), end);
    } else {
      assert Escaped(s) == [s[0]] + Escaped(s[1..]);
      TakenOff([s[0]], Escaped(s[1..]), end);
    }
  }

  lemma TakenOff(a: string, b: string, c: string)
    ensures ((a + b) + c)[|a|..] == b + c && forall i :: 0 <= i < |a| ==> ((a + b) + c)[i] == a[i]
  {
    assert (a + b) + c == a + (b + c);
  }

  // A quoted text ends at its own closing quote whatever it contains, and unquoting gives it back.
  lemma {:induction false} CutQuoted(s: string, tail: string)
    ensures Cut(Escaped(s) + ("\"" + tail), true) == |Escaped(s)| + 1 + Cut(tail, false)
    ensures Unquoted(Escaped(s) + ("\"" + tail)) == s
    decreases |s|
  {
    var all := Escaped(s) + ("\"" + tail);
    if s == [] {
      assert all == "\"" + tail && all[1..] == tail;
    } else {
      CutQuoted(s[1..], tail);
      EscapedStep(s, tail);
    }
  }

  lemma CutShown(w: Written, tail: string)
    requires Printable(w)
    ensures Cut(Shown(w) + tail, false) == |Shown(w)| + Cut(tail, false)
    ensures TextOf(Shown(w)) == w.param.text
  {
    if w.quoted {
      var inner := Escaped(w.param.text);
      CutQuoted(w.param.text, tail);
      assert (Shown(w) + tail)[1..] == inner + ("\"" + tail);
      CutQuoted(w.param.text, "");
      assert Shown(w)[1..] == inner + ("\"" + "");
    } else {
      CutPlain(w.param.text, tail);
    }
  }

  lemma CutBody(w: Written, tail: string)
    requires Printable(w)
    ensures Cut(Body(w) + tail, false) == |Body(w)| + Cut(tail, false)
  {
    hide Cut, Shown;
    var front := w.gap + (w.param.attr + "=");
    assert Body(w) + tail == front + (Shown(w) + tail);
    assert Unmarked(front) by {
      assert forall i :: 0 <= i < |front| ==> front[i] in w.gap || front[i] in w.param.attr || front[i] == '=';
      assert forall c :: c in w.gap ==> Blank(c);
    }
    CutPlain(front, Shown(w) + tail);
    CutShown(w, tail);
  }

  lemma {:induction false} BlanksSkipped(gap: string, s: string)
    requires AllBlank(gap) && s != [] && !Blank(s[0])
    ensures SkipBlanks(gap + s) == s
  {
    if gap == [] {
      assert gap + s == s;
    } else {
      BlanksSkipped(gap[1..], s);
      assert (gap + s)[1..] == gap[1..] + s;
    }
  }

  lemma PartedBy(a: string, mark: string, b: string)
    ensures var s := a + (mark + b); s[..|a|] == a && s[|a| + |mark|..] == b
    ensures (a + b)[..|a|] == a
  {
  }

  lemma OneParamParts(gap: string, attr: string, shown: string)
    requires AllBlank(gap) && '=' !in attr && (attr == [] || !Blank(attr[0]))
    ensures OneParam(gap + (attr + ("=" + shown))) == Param(attr, TextOf(shown))
  {
    var t := attr + ("=" + shown);
    assert t[0] == if attr == [] then '=' else attr[0];
    PartedBy(attr, "=", shown);
    hide SkipBlanks, TextOf, Find, AllBlank;
    BlanksSkipped(gap, t);
    FindFirst(t, '=', |attr|);
  }

  lemma OneParamOfPrinted(w: Written)
    requires Printable(w)
    ensures OneParam(Body(w)) == w.param
  {
    CutShown(w, "");
    hide Shown, TextOf, OneParam, Cut;
    OneParamParts(w.gap, w.param.attr, Shown(w));
  }

  lemma ParamsStep(front: string, body: string, tail: string)
    requires Cut(front + (";" + (body + tail)), false) == |front| && Cut(body + tail, false) == |body|
    ensures Params(front + (";" + (body + tail))) == [OneParam(body)] + Params(body + tail)
  {
    PartedBy(front, ";", body + tail);
    PartedBy(body, ";", tail);
    hide Cut, OneParam;
  }

  lemma FirstParam(main: string, w: Written, tail: string)
    requires Cut(main + (";" + (Body(w) + tail)), false) == |main| && Printable(w) && (tail == [] || tail[0] == ';')
    ensures Params(main + (";" + (Body(w) + tail))) == [w.param] + Params(Body(w) + tail)
  {
    assert Cut(tail, false) == 0;
    hide *;
    CutBody(w, tail);
    OneParamOfPrinted(w);
    ParamsStep(main, Body(w), tail);
  }

  // Reading a printed list gives the list back, whatever unquoted text stands before its first
  // semicolon, however the lines are folded and whatever is quoted.
  lemma ParamsOfPrinted(main: string, ws: seq<Written>)
    requires Unmarked(main) && forall i :: 0 <= i < |ws| ==> Printable(ws[i])
    ensures Params(main + Print(ws)) == Values(ws)
  {
    CutPlain(main, Print(ws));
    ParamsAfter(main, ws);
  }

  lemma ValuesStep(ws: seq<Written>)
    requires ws != []
    ensures Values(ws) == [ws[0].param] + Values(ws[1..])
  {
  }

  lemma {:induction false} ParamsAfter(main: string, ws: seq<Written>)
    requires forall i :: 0 <= i < |ws| ==> Printable(ws[i])
    requires Cut(main + Print(ws), false) == |main| + Cut(Print(ws), false)
    ensures Params(main + Print(ws)) == Values(ws)
    decreases |ws|
  {
    if ws == [] {
      assert main + [] == main && Values(ws) == [];
    } else {
      hide Params, Body, Printable, Cut, Values;
      var tail := Print(ws[1..]);
      FirstParam(main, ws[0], tail);
      CutBody(ws[0], tail);
      ParamsAfter(Body(ws[0]), ws[1..]);
      ValuesStep(ws);
    }
  }

  // ---------- Percent encoding ----------

  predicate Plain(b: byte) {
    (48 <= b <= 57) || (65 <= b <= 90) || (97 <= b <= 122) || b == 45 || b == 46 || b == 95
  }

  function HexDigit(d: int): char
    requires 0 <= d < 16
  {
    if d < 10 then (48 + d) as char else (55 + d) as char
  }

  function HexValue(c: char): Option<int> {
    if '0' <= c <= '9' then Some(c as int - 48)
    else if 'A' <= c <= 'F' then Some(c as int - 55)
    else if 'a' <= c <= 'f' then Some(c as int - 87)
    else None
  }

  function EncodeByte(b: byte): string {
    if Plain(b) then [b as char] else ['%', HexDigit(b as int / 16), HexDigit(b as int % 16)]
  }

  function Encode(v: seq<byte>): string {
    if v == [] then [] else EncodeByte(v[0]) + Encode(v[1..])
  }

  // A percent sign that two hexadecimal digits do not follow stands for itself.
  function Decode(s: string): seq<byte>
    decreases |s|
  {
    if s == [] then []
    else if s[0] == '%' && |s| >= 3 && HexValue(s[1]).Some? && HexValue(s[2]).Some? then
      [(HexValue(s[1]).value * 16 + HexValue(s[2]).value) as byte] + Decode(s[3..])
    else [(s[0] as int % 256) as byte] + Decode(s[1..])
  }

  lemma {:induction false} DecodeEncode(v: seq<byte>)
    ensures Decode(Encode(v)) == v
  {
    if v != [] {
      DecodeEncode(v[1..]);
    }
  }

  // A byte may be written as it is or as an escape, whose digits may be in either case.
  datatype Form = AsIs | Escape(lowers: (bool, bool))

  function DigitIn(d: int, lower: bool): char
    requires 0 <= d < 16
  {
    if lower then "0123456789abcdef"[d] else "0123456789ABCDEF"[d]
  }

  predicate TwoDigits(s: string) {
    |s| >= 2 && s[0] in "0123456789ABCDEFabcdef" && s[1] in "0123456789ABCDEFabcdef"
  }

  function Spelled(v: seq<byte>, forms: seq<Form>): string
    requires |forms| == |v|
  {
    if v == [] then []
    else
      var b := v[0] as int;
      (match forms[0]
       case AsIs => [b as char]
       case Escape((hi, lo)) => ['%', DigitIn(b / 16, hi), DigitIn(b % 16, lo)])
      + Spelled(v[1..], forms[1..])
  }

  // A percent sign written as it is must not come before two digits.
  predicate Spells(v: seq<byte>, forms: seq<Form>)
    requires |forms| == |v|
  {
    v == [] || (
      && (forms[0].AsIs? && v[0] == 37 ==> !TwoDigits(Spelled(v[1..], forms[1..])))
      && Spells(v[1..], forms[1..]))
  }

  lemma DigitsRead(c: char)
    ensures HexValue(c).Some? <==> c in "0123456789ABCDEFabcdef"
  {
  }

  lemma DigitValue(d: int, lower: bool)
    requires 0 <= d < 16
    ensures HexValue(DigitIn(d, lower)) == Some(d)
  {
  }

  lemma AsIsRead(b: byte, rest: string)
    requires b == 37 ==> !TwoDigits(rest)
    ensures Decode([b as char] + rest) == [b] + Decode(rest)
  {
    var s := [b as char] + rest;
    assert s[1..] == rest && (|s| >= 3 ==> s[1] == rest[0] && s[2] == rest[1]);
    if |rest| >= 2 {
      DigitsRead(rest[0]);
      DigitsRead(rest[1]);
    }
    hide HexValue;
  }

  lemma EscapeRead(hi: int, first: bool, lo: int, second: bool, rest: string)
    requires 0 <= hi < 16 && 0 <= lo < 16
    ensures Decode(['%', DigitIn(hi, first), DigitIn(lo, second)] + rest) == [(hi * 16 + lo) as byte] + Decode(rest)
  {
    var s := ['%', DigitIn(hi, first), DigitIn(lo, second)] + rest;
    assert s[3..] == rest;
    DigitValue(hi, first);
    DigitValue(lo, second);
    hide HexValue, DigitIn;
  }

  // However the bytes were written, they are read back.
  lemma {:induction false} DecodeSpelled(v: seq<byte>, forms: seq<Form>)
    requires |forms| == |v| && Spells(v, forms)
    ensures Decode(Spelled(v, forms)) == v
  {
    if v != [] {
      var rest, b := Spelled(v[1..], forms[1..]), v[0] as int;
      hide Decode, HexValue, DigitIn, TwoDigits;
      DecodeSpelled(v[1..], forms[1..]);
      match forms[0]
      case AsIs => AsIsRead(v[0], rest);
      case Escape((hi, lo)) => EscapeRead(b / 16, hi, b % 16, lo, rest);
    }
  }

  lemma {:induction false} EncodeClean(v: seq<byte>)
    ensures Clean(Encode(v))
  {
    if v != [] {
      EncodeClean(v[1..]);
      var e := EncodeByte(v[0]);
      assert forall i :: 0 <= i < |e| ==> e[i] != ';' && e[i] != '"' && !Blank(e[i]);
    }
  }

  // ---------- Sections ----------

  function Decimal(n: nat): string {
    if n < 10 then [(48 + n) as char] else Decimal(n / 10) + [(48 + n % 10) as char]
  }

  function FromDecimal(s: string): int {
    if s == [] then 0 else FromDecimal(s[..|s| - 1]) * 10 + (s[|s| - 1] as int - 48)
  }

  lemma {:induction false} DecimalReads(n: nat)
    ensures FromDecimal(Decimal(n)) == n
    ensures Decimal(n) != [] && forall i :: 0 <= i < |Decimal(n)| ==> '0' <= Decimal(n)[i] <= '9'
  {
    if n >= 10 {
      DecimalReads(n / 10);
      assert Decimal(n)[..|Decimal(n)| - 1] == Decimal(n / 10);
    } else {
      assert Decimal(n)[..0] == [];
    }
  }

  // name*0*, name*1*, ... or name*0, name*1, ...: the second star marks an extended section.
  function SectionAttr(name: string, i: nat, extended: bool): string {
    name + "*" + Decimal(i) + (if extended then "*" else "")
  }

  predicate Same(a: string, b: string) {
    |a| == |b| && forall i :: 0 <= i < |a| ==> Lower(a[i]) == Lower(b[i])
  }

  function Lookup(ps: seq<Param>, attr: string): Option<string> {
    if ps == [] then None else if Same(ps[0].attr, attr) then Some(ps[0].text) else Lookup(ps[1..], attr)
  }

  // ---------- The extractor ----------

  function Bytes(s: string): seq<byte> {
    seq(|s|, i requires 0 <= i < |s| => (s[i] as int % 256) as byte)
  }

  // charset'language'rest
  function Prefixed(text: string): (Option<string>, Option<string>, string) {
    var k := Find(text, '\'');
    if k == |text| then (None, None, text)
    else
      var t := text[k + 1..];
      var j := Find(t, '\'');
      if j == |t| then (None, None, text) else (Some(text[..k]), Some(t[..j]), t[j + 1..])
  }

  function Section(ps: seq<Param>, name: string, i: nat): Option<seq<byte>> {
    match Lookup(ps, SectionAttr(name, i, true))
    case Some(text) => Some(Decode(if i == 0 then Prefixed(text).2 else text))
    case None =>
      match Lookup(ps, SectionAttr(name, i, false))
      case Some(text) => Some(Bytes(text))
      case None => None
  }

  // Sections i, i + 1, ... up to the first number that is missing.
  function Collect(ps: seq<Param>, name: string, i: nat): seq<byte>
    decreases |ps| - i
  {
    if i >= |ps| then [] else
      match Section(ps, name, i)
      case None => []
      case Some(v) => v + Collect(ps, name, i + 1)
  }

  function ExtractFrom(ps: seq<Param>, name: string): Option<Extracted> {
    if Section(ps, name, 0).Some? then
      match Lookup(ps, SectionAttr(name, 0, true))
      case Some(text) => Some(Extracted(Collect(ps, name, 0), Prefixed(text).0, Prefixed(text).1))
      case None => Some(Extracted(Collect(ps, name, 0), None, None))
    else match Lookup(ps, name + "*")
      case Some(text) => Some(Extracted(Decode(Prefixed(text).2), Prefixed(text).0, Prefixed(text).1))
      case None =>
        match Lookup(ps, name)
        case Some(text) => Some(Extracted(Bytes(text), None, None))
        case None => None
  }

  function GetParameter(headerValue: string, name: string): Option<Extracted> {
    ExtractFrom(Params(headerValue), name)
  }

  // ---------- The printer ----------

  ghost predicate Label(s: string) {
    Clean(s) && '\'' !in s
  }

  // A piece of the value, to be written as an extended or as a plain section.
  datatype Chunk = Chunk(bytes: seq<byte>, extended: bool)

  function Whole(chunks: seq<Chunk>): seq<byte> {
    if chunks == [] then [] else chunks[0].bytes + Whole(chunks[1..])
  }

  function Chars(v: seq<byte>): string {
    seq(|v|, i requires 0 <= i < |v| => v[i] as char)
  }

  // Charset and language go with the first section, if it is extended.
  function SectionParam(name: string, charset: string, language: string, chunks: seq<Chunk>, i: nat): Param
    requires i < |chunks|
  {
    var v := chunks[i].bytes;
    Param(SectionAttr(name, i, chunks[i].extended),
          if !chunks[i].extended then Chars(v)
          else if i == 0 then charset + "'" + language + "'" + Encode(v)
          else Encode(v))
  }

  // What the caller is to get.
  function Expected(charset: string, language: string, chunks: seq<Chunk>): Extracted
    requires chunks != []
  {
    if chunks[0].extended then Extracted(Whole(chunks), Some(charset), Some(language))
    else Extracted(Whole(chunks), None, None)
  }

  // The parameters hold every section, in any order, and otherwise nothing that looks like a
  // section of this name.
  ghost predicate Carries(ps: seq<Param>, name: string, charset: string, language: string, chunks: seq<Chunk>) {
    && (forall i :: 0 <= i < |chunks| ==> SectionParam(name, charset, language, chunks, i) in ps)
    && (forall p :: p in ps ==>
          Foreign(p, name) || exists i :: 0 <= i < |chunks| && p == SectionParam(name, charset, language, chunks, i))
  }

  ghost predicate Foreign(p: Param, name: string) {
    forall j: nat, e: bool :: !Same(p.attr, SectionAttr(name, j, e))
  }

  lemma MarkedByStar(name: string, i: nat, e: bool)
    ensures var a := SectionAttr(name, i, e); |a| > |name| + 1 && (Lower(a[|a| - 1]) == '*' <==> e)
  {
    DecimalReads(i);
    var d, a := Decimal(i), SectionAttr(name, i, e);
    if !e {
      assert a[|a| - 1] == d[|d| - 1];
    }
  }

  lemma SameNumber(name: string, i: nat, j: nat, e: bool)
    requires Same(SectionAttr(name, i, e), SectionAttr(name, j, e))
    ensures i == j
  {
    var a, b, n := SectionAttr(name, i, e), SectionAttr(name, j, e), |name| + 1;
    DecimalReads(i);
    DecimalReads(j);
    forall k | 0 <= k < |Decimal(i)|
      ensures Decimal(i)[k] == Decimal(j)[k]
    {
      assert a[n + k] == Decimal(i)[k] && b[n + k] == Decimal(j)[k];
    }
    assert Decimal(i) == Decimal(j);
  }

  lemma SectionsDiffer(name: string, i: nat, d: bool, j: nat, e: bool)
    ensures Same(SectionAttr(name, i, d), SectionAttr(name, j, e)) <==> i == j && d == e
  {
    MarkedByStar(name, i, d);
    MarkedByStar(name, j, e);
    if d == e && Same(SectionAttr(name, i, d), SectionAttr(name, j, e)) {
      SameNumber(name, i, j, e);
    }
  }

  lemma {:induction false} LookupFinds(ps: seq<Param>, attr: string, text: string)
    requires exists p :: p in ps && Same(p.attr, attr)
    requires forall p :: p in ps && Same(p.attr, attr) ==> p.text == text
    ensures Lookup(ps, attr) == Some(text)
  {
    assert ps != [] ==> ps[0] in ps;
    if !Same(ps[0].attr, attr) {
      LookupFinds(ps[1..], attr, text);
    }
  }

  lemma {:induction false} LookupMisses(ps: seq<Param>, attr: string)
    requires forall p :: p in ps ==> !Same(p.attr, attr)
    ensures Lookup(ps, attr) == None
  {
    if ps != [] {
      assert ps[0] in ps;
      LookupMisses(ps[1..], attr);
    }
  }

  lemma PrefixedOf(charset: string, language: string, rest: string)
    requires Label(charset) && Label(language)
    ensures Prefixed(charset + "'" + language + "'" + rest) == (Some(charset), Some(language), rest)
  {
    var text, t := charset + "'" + language + "'" + rest, language + "'" + rest;
    assert text[..|charset|] == charset && text[|charset| + 1..] == t;
    FindFirst(text, '\'', |charset|);
    assert t[..|language|] == language && t[|language| + 1..] == rest;
    FindFirst(t, '\'', |language|);
  }

  // A section is found under its own mark and not under the other.
  lemma SectionFound(ps: seq<Param>, name: string, charset: string, language: string, chunks: seq<Chunk>, i: nat)
    requires Carries(ps, name, charset, language, chunks) && i < |chunks|
    ensures Lookup(ps, SectionAttr(name, i, chunks[i].extended))
      == Some(SectionParam(name, charset, language, chunks, i).text)
    ensures Lookup(ps, SectionAttr(name, i, !chunks[i].extended)) == None
  {
    var own, e := SectionParam(name, charset, language, chunks, i), chunks[i].extended;
    assert Same(own.attr, SectionAttr(name, i, e));
    forall d: bool, p | p in ps && Same(p.attr, SectionAttr(name, i, d))
      ensures d == e && p.text == own.text
    {
      var j :| 0 <= j < |chunks| && p == SectionParam(name, charset, language, chunks, j);
      SectionsDiffer(name, j, chunks[j].extended, i, d);
    }
    LookupFinds(ps, SectionAttr(name, i, e), own.text);
    LookupMisses(ps, SectionAttr(name, i, !e));
  }

  lemma SectionValue(ps: seq<Param>, name: string, charset: string, language: string, chunks: seq<Chunk>, i: nat)
    requires Carries(ps, name, charset, language, chunks) && i < |chunks|
    requires Label(charset) && Label(language)
    ensures Section(ps, name, i) == Some(chunks[i].bytes)
  {
    hide Encode, Decode, Prefixed, Lookup, SectionAttr, Carries;
    var v := chunks[i].bytes;
    SectionFound(ps, name, charset, language, chunks, i);
    PrefixedOf(charset, language, Encode(v));
    DecodeEncode(v);
    assert Bytes(Chars(v)) == v;
  }

  lemma SectionMissing(ps: seq<Param>, name: string, charset: string, language: string, chunks: seq<Chunk>, n: nat)
    requires Carries(ps, name, charset, language, chunks) && n >= |chunks|
    ensures Section(ps, name, n) == None
  {
    forall e: bool, p | p in ps
      ensures !Same(p.attr, SectionAttr(name, n, e))
    {
      if !Foreign(p, name) {
        var j :| 0 <= j < |chunks| && p == SectionParam(name, charset, language, chunks, j);
        SectionsDiffer(name, j, chunks[j].extended, n, e);
      }
    }
    LookupMisses(ps, SectionAttr(name, n, true));
    LookupMisses(ps, SectionAttr(name, n, false));
  }

  // There are at least as many parameters as sections, so none is cut off.
  lemma {:induction false} EnoughParams(ps: seq<Param>, name: string, charset: string, language: string,
                                        chunks: seq<Chunk>, n: nat) returns (own: set<Param>)
    requires Carries(ps, name, charset, language, chunks) && n <= |chunks|
    ensures |own| == n
    ensures forall p :: p in own ==>
      p in ps && exists i :: 0 <= i < n && p == SectionParam(name, charset, language, chunks, i)
  {
    if n == 0 {
      own := {};
    } else {
      own := EnoughParams(ps, name, charset, language, chunks, n - 1);
      var last := SectionParam(name, charset, language, chunks, n - 1);
      forall p | p in own
        ensures p != last
      {
        var i :| 0 <= i < n - 1 && p == SectionParam(name, charset, language, chunks, i);
        SectionsDiffer(name, i, chunks[i].extended, n - 1, chunks[n - 1].extended);
        assert Same(last.attr, last.attr);
      }
      own := own + {last};
    }
  }

  lemma {:induction false} AtMost(ps: seq<Param>, own: set<Param>)
    requires forall p :: p in own ==> p in ps
    ensures |own| <= |ps|
  {
    if ps == [] {
      assert own == {};
    } else {
      var rest := own - {ps[0]};
      AtMost(ps[1..], rest);
      assert rest + {ps[0]} == own + ({ps[0]} - own);
    }
  }

  lemma {:induction false} Collected(ps: seq<Param>, name: string, charset: string, language: string,
                                     chunks: seq<Chunk>, i: nat)
    requires Carries(ps, name, charset, language, chunks) && i <= |chunks| <= |ps|
    requires Label(charset) && Label(language)
    ensures Collect(ps, name, i) == Whole(chunks[i..])
    decreases |chunks| - i
  {
    if i == |chunks| {
      SectionMissing(ps, name, charset, language, chunks, i);
    } else {
      hide Section;
      SectionValue(ps, name, charset, language, chunks, i);
      Collected(ps, name, charset, language, chunks, i + 1);
      assert chunks[i..] == [chunks[i]] + chunks[i + 1..];
    }
  }

  lemma ExtractCarried(ps: seq<Param>, name: string, charset: string, language: string, chunks: seq<Chunk>)
    requires chunks != [] && Label(charset) && Label(language) && Carries(ps, name, charset, language, chunks)
    ensures ExtractFrom(ps, name) == Some(Expected(charset, language, chunks))
  {
    var own := EnoughParams(ps, name, charset, language, chunks, |chunks|);
    AtMost(ps, own);
    Collected(ps, name, charset, language, chunks, 0);
    assert chunks[0..] == chunks;
    SectionFound(ps, name, charset, language, chunks, 0);
    SectionValue(ps, name, charset, language, chunks, 0);
    PrefixedOf(charset, language, Encode(chunks[0].bytes));
  }

  // Whatever the value, charset, language and cuts, whichever sections are extended or plain, quoted
  // or not, in whatever order they stand among other parameters and wherever the lines are folded,
  // the extractor returns the value whole, with its charset and language if it was given them.
  lemma SectionsRoundTrip(main: string, ws: seq<Written>, name: string, charset: string, language: string,
                          chunks: seq<Chunk>)
    requires Unmarked(main) && (forall i :: 0 <= i < |ws| ==> Printable(ws[i]))
    requires chunks != [] && Label(charset) && Label(language)
    requires Carries(Values(ws), name, charset, language, chunks)
    ensures GetParameter(main + Print(ws), name) == Some(Expected(charset, language, chunks))
  {
    ParamsOfPrinted(main, ws);
    ExtractCarried(Values(ws), name, charset, language, chunks);
  }

  // ---------- In the order printed ----------

  // Plain sections are quoted, extended ones are not.
  function Sections(name: string, charset: string, language: string, chunks: seq<Chunk>,
                    gaps: seq<string>): seq<Written>
    requires |gaps| == |chunks|
  {
    seq(|chunks|, i requires 0 <= i < |chunks| =>
      Written(gaps[i], SectionParam(name, charset, language, chunks, i), !chunks[i].extended))
  }

  lemma SectionPrintable(name: string, charset: string, language: string, chunks: seq<Chunk>, gap: string, i: nat)
    requires Clean(name) && '=' !in name && Label(charset) && Label(language) && AllBlank(gap) && i < |chunks|
    ensures Printable(Written(gap, SectionParam(name, charset, language, chunks, i), !chunks[i].extended))
  {
    DecimalReads(i);
    EncodeClean(chunks[i].bytes);
    var p := SectionParam(name, charset, language, chunks, i);
    assert forall k :: 0 <= k < |p.attr| ==> p.attr[k] in name || p.attr[k] == '*' || '0' <= p.attr[k] <= '9';
    assert forall k :: 0 <= k < |name| ==> name[k] in name;
  }

  lemma PrintExtract(main: string, name: string, charset: string, language: string, chunks: seq<Chunk>,
                     gaps: seq<string>)
    requires Unmarked(main) && Clean(name) && '=' !in name && Label(charset) && Label(language) && chunks != []
    requires |gaps| == |chunks| && forall i :: 0 <= i < |gaps| ==> AllBlank(gaps[i])
    ensures GetParameter(main + Print(Sections(name, charset, language, chunks, gaps)), name)
      == Some(Expected(charset, language, chunks))
  {
    var ws := Sections(name, charset, language, chunks, gaps);
    var ps := Values(ws);
    forall i: nat | i < |chunks|
      ensures SectionParam(name, charset, language, chunks, i) in ps && Printable(ws[i])
    {
      assert ps[i] == SectionParam(name, charset, language, chunks, i);
      SectionPrintable(name, charset, language, chunks, gaps[i], i);
    }
    forall p | p in ps
      ensures exists i :: 0 <= i < |chunks| && p == SectionParam(name, charset, language, chunks, i)
    {
      var i :| 0 <= i < |ps| && ps[i] == p;
    }
    SectionsRoundTrip(main, ws, name, charset, language, chunks);
  }

  // ---------- The simpler forms ----------

  // No parameter is a section of this name, extended or not.
  ghost predicate Unsectioned(ps: seq<Param>, name: string) {
    forall p :: p in ps ==> Foreign(p, name)
  }

  lemma NoSections(ps: seq<Param>, name: string)
    requires Unsectioned(ps, name)
    ensures Section(ps, name, 0) == None
  {
    LookupMisses(ps, SectionAttr(name, 0, true));
    LookupMisses(ps, SectionAttr(name, 0, false));
  }

  // name*=charset'language'value
  lemma ExtendedRoundTrip(main: string, ws: seq<Written>, name: string, charset: string, language: string, v: seq<byte>)
    requires Unmarked(main) && (forall i :: 0 <= i < |ws| ==> Printable(ws[i])) && Unsectioned(Values(ws), name)
    requires Label(charset) && Label(language)
    requires exists p :: p in Values(ws) && Same(p.attr, name + "*")
    requires forall p :: p in Values(ws) && Same(p.attr, name + "*") ==>
      p.text == charset + "'" + language + "'" + Encode(v)
    ensures GetParameter(main + Print(ws), name) == Some(Extracted(v, Some(charset), Some(language)))
  {
    ParamsOfPrinted(main, ws);
    NoSections(Values(ws), name);
    LookupFinds(Values(ws), name + "*", charset + "'" + language + "'" + Encode(v));
    PrefixedOf(charset, language, Encode(v));
    DecodeEncode(v);
  }

  lemma PrefixedWhole(text: string)
    requires forall i, j :: 0 <= i < j < |text| ==> text[i] != '\'' || text[j] != '\''
    ensures Prefixed(text) == (None, None, text)
  {
    var k := Find(text, '\'');
    var t := if k < |text| then text[k + 1..] else [];
    assert forall j {:trigger t[j]} :: 0 <= j < |t| ==> t[j] == text[k + 1 + j];
  }

  // name*=value without the two quotes that part charset and language from it.
  lemma UnlabelledExtended(main: string, ws: seq<Written>, name: string, text: string)
    requires Unmarked(main) && (forall i :: 0 <= i < |ws| ==> Printable(ws[i])) && Unsectioned(Values(ws), name)
    requires exists p :: p in Values(ws) && Same(p.attr, name + "*")
    requires forall p :: p in Values(ws) && Same(p.attr, name + "*") ==> p.text == text
    requires forall i, j :: 0 <= i < j < |text| ==> text[i] != '\'' || text[j] != '\''
    ensures GetParameter(main + Print(ws), name) == Some(Extracted(Decode(text), None, None))
  {
    ParamsOfPrinted(main, ws);
    NoSections(Values(ws), name);
    LookupFinds(Values(ws), name + "*", text);
    PrefixedWhole(text);
    hide Params, Print, Values, Section, Lookup, Prefixed, Decode, Same, Printable;
  }

  // name=text, quoted or not, and NULL when there is no such parameter in any form.
  lemma PlainOrAbsent(main: string, ws: seq<Written>, name: string, text: string)
    requires Unmarked(main) && (forall i :: 0 <= i < |ws| ==> Printable(ws[i])) && Unsectioned(Values(ws), name)
    requires forall p :: p in Values(ws) ==> !Same(p.attr, name + "*")
    requires forall p :: p in Values(ws) && Same(p.attr, name) ==> p.text == text
    ensures GetParameter(main + Print(ws), name)
      == if exists p :: p in Values(ws) && Same(p.attr, name) then Some(Extracted(Bytes(text), None, None)) else None
  {
    var ps := Values(ws);
    ParamsOfPrinted(main, ws);
    NoSections(ps, name);
    LookupMisses(ps, name + "*");
    if exists p :: p in ps && Same(p.attr, name) {
      LookupFinds(ps, name, text);
    } else {
      LookupMisses(ps, name);
    }
  }
}
