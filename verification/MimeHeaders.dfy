/**
  The header block of include/libmime.h and the index that speeds its search.

  Documented contracts: `heads` points to the beginning of each distinct header, just after the
  newline that terminated the previous one; MimeHeaders_get returns the contents of the first
  header of a name or of all of them.  A newline followed by a space or a tab folds a header and
  does not terminate it (section 3.1.1 of RFC 822).

  The header leaves open what separates contents that are appended together and what ends the
  first token; both are parameters.
 */
module MimeHeaders {
  import opened Basics

  // A distinct header begins at p.
  predicate IsHead(buf: string, p: nat) {
    p < |buf| && (p == 0 || (buf[p - 1] == '\n' && buf[p] != ' ' && buf[p] != '\t'))
  }

  // Where the header that holds position p ends.
  function EndOf(buf: string, p: nat): (e: nat)
    requires p < |buf|
    ensures p < e <= |buf| && (e == |buf| || IsHead(buf, e))
    ensures forall q :: p < q < e ==> !IsHead(buf, q)
    decreases |buf| - p
  {
    if p + 1 == |buf| || IsHead(buf, p + 1) then p + 1 else EndOf(buf, p + 1)
  }

  // ---------- One header ----------

  // The header's text starts with the name, in either case, and a colon.
  predicate Named(h: string, name: string) {
    |name| < |h| && h[|name|] == ':' && forall i :: 0 <= i < |name| ==> Lower(h[i]) == Lower(name[i])
  }

  function TrimLeft(s: string): string {
    if s != [] && Blank(s[0]) then TrimLeft(s[1..]) else s
  }

  function TrimRight(s: string): string {
    if s != [] && Blank(s[|s| - 1]) then TrimRight(s[..|s| - 1]) else s
  }

  function Token(s: string, ends: char -> bool): string {
    if s == [] || ends(s[0]) then [] else [s[0]] + Token(s[1..], ends)
  }

  function Contents(h: string, name: string, strip: bool, ends: char -> bool): string
    requires Named(h, name)
  {
    var text := TrimRight(TrimLeft(h[|name| + 1..]));
    if strip then Token(text, ends) else text
  }

  lemma {:induction false} LeftTrimmed(s: string) returns (a: string)
    ensures s == a + TrimLeft(s) && AllBlank(a) && (TrimLeft(s) == [] || !Blank(TrimLeft(s)[0]))
  {
    if s != [] && Blank(s[0]) {
      a := LeftTrimmed(s[1..]);
      a := [s[0]] + a;
    } else {
      a := [];
    }
  }

  lemma {:induction false} RightTrimmed(s: string) returns (b: string)
    ensures s == TrimRight(s) + b && AllBlank(b) && (TrimRight(s) == [] || !Blank(TrimRight(s)[|TrimRight(s)| - 1]))
  {
    if s != [] && Blank(s[|s| - 1]) {
      b := RightTrimmed(s[..|s| - 1]);
      b := b + [s[|s| - 1]];
    } else {
      b := [];
    }
  }

  lemma Trimmed(s: string) returns (a: string, b: string)
    ensures var full := TrimRight(TrimLeft(s));
      && s == a + full + b && AllBlank(a) && AllBlank(b)
      && (full == [] || (!Blank(full[0]) && !Blank(full[|full| - 1])))
  {
    hide TrimLeft, TrimRight;
    a := LeftTrimmed(s);
    var rest := TrimLeft(s);
    b := RightTrimmed(rest);
    var full := TrimRight(rest);
    assert a + (full + b) == a + full + b;
    if full != [] {
      assert rest[0] == full[0];
    }
  }

  lemma {:induction false} TokenIsFirst(s: string, ends: char -> bool)
    ensures var k := |Token(s, ends)|;
      && k <= |s| && Token(s, ends) == s[..k] && (forall i :: 0 <= i < k ==> !ends(s[i]))
      && (k == |s| || ends(s[k]))
  {
    if s != [] && !ends(s[0]) {
      TokenIsFirst(s[1..], ends);
    }
  }

  // The contents are what follows the colon without the blanks around it; stripped, they are its
  // first token: all up to the first character that ends one.
  lemma ContentsExactly(h: string, name: string, ends: char -> bool) returns (a: string, b: string)
    requires Named(h, name)
    ensures var full, token := Contents(h, name, false, ends), Contents(h, name, true, ends);
      && h == h[..|name| + 1] + a + full + b && AllBlank(a) && AllBlank(b)
      && (full == [] || (!Blank(full[0]) && !Blank(full[|full| - 1])))
      && token <= full && (forall i :: 0 <= i < |token| ==> !ends(full[i]))
      && (token == full || ends(full[|token|]))
  {
    assert |name| < |h|;
    hide Token, Named;
    var s := h[|name| + 1..];
    a, b := Trimmed(s);
    var full := Contents(h, name, false, ends);
    TokenIsFirst(full, ends);
    assert h == h[..|name| + 1] + s;
    assert h[..|name| + 1] + (a + full + b) == h[..|name| + 1] + a + full + b;
  }

  // ---------- Reference: a scan of the whole buffer ----------

  // The contents of every header of that name, found by looking at every position.
  function Scan(buf: string, p: nat, name: string, strip: bool, ends: char -> bool): seq<string>
    requires p <= |buf|
    decreases |buf| - p
  {
    if p == |buf| then []
    else (if IsHead(buf, p) && Named(buf[p..EndOf(buf, p)], name)
          then [Contents(buf[p..EndOf(buf, p)], name, strip, ends)] else [])
         + Scan(buf, p + 1, name, strip, ends)
  }

  function Join(xs: seq<string>, sep: string): string {
    if xs == [] then [] else if |xs| == 1 then xs[0] else xs[0] + sep + Join(xs[1..], sep)
  }

  function Alternating(xs: seq<string>, sep: string): seq<string> {
    if xs == [] then []
    else seq(2 * |xs| - 1, i requires 0 <= i < 2 * |xs| - 1 => if i % 2 == 0 then xs[i / 2] else sep)
  }

  lemma AlternatingStep(xs: seq<string>, sep: string)
    requires |xs| > 1
    ensures Alternating(xs, sep) == [xs[0], sep] + Alternating(xs[1..], sep)
  {
    var ys, rest := Alternating(xs, sep), Alternating(xs[1..], sep);
    assert ys[0] == xs[0] && ys[1] == sep && |ys| == |rest| + 2;
    forall i | 0 <= i < |rest|
      ensures ys[i + 2] == rest[i]
    {
      assert (i + 2) / 2 == i / 2 + 1 && (i + 2) % 2 == i % 2;
    }
    hide Alternating;
    assert ys == [xs[0], sep] + rest;
  }

  lemma FlattenTwo(a: string, b: string, rest: seq<string>)
    ensures Flatten([a, b] + rest) == a + b + Flatten(rest)
  {
    assert ([a, b] + rest)[1..] == [b] + rest && ([b] + rest)[1..] == rest;
    assert a + (b + Flatten(rest)) == a + b + Flatten(rest);
  }

  // Joining keeps every text, in order, with the separator between any two.
  lemma {:induction false} JoinAlternates(xs: seq<string>, sep: string)
    ensures Join(xs, sep) == Flatten(Alternating(xs, sep))
  {
    if |xs| > 1 {
      AlternatingStep(xs, sep);
      JoinAlternates(xs[1..], sep);
      hide Alternating, Flatten;
      FlattenTwo(xs[0], sep, Alternating(xs[1..], sep));
    } else if |xs| == 1 {
      assert Alternating(xs, sep) == [xs[0]] && Flatten([xs[0]]) == xs[0] + Flatten([]);
    }
  }

  // Nothing is joined to a single text, and one text more comes after the separator.
  lemma {:induction false} JoinAppends(xs: seq<string>, x: string, sep: string)
    ensures Join(xs + [x], sep) == if xs == [] then x else Join(xs, sep) + sep + x
  {
    if xs == [] {
      assert xs + [x] == [x];
    } else {
      JoinAppends(xs[1..], x, sep);
      assert (xs + [x])[1..] == xs[1..] + [x];
      if |xs| > 1 {
        var a, b := xs[0] + sep, Join(xs[1..], sep);
        assert a + (b + sep + x) == a + b + sep + x;
      }
    }
  }

  // The texts so far, if any, joined to those that follow.
  function JoinedTo(text: string, any: bool, rest: seq<string>, sep: string): string {
    if !any then Join(rest, sep) else if rest == [] then text else text + sep + Join(rest, sep)
  }

  lemma JoinOn(text: string, any: bool, x: string, rest: seq<string>, sep: string)
    ensures JoinedTo(text, any, [x] + rest, sep) == JoinedTo(if any then text + sep + x else x, true, rest, sep)
  {
    assert ([x] + rest)[1..] == rest;
    assert Join([x] + rest, sep) == if rest == [] then x else x + sep + Join(rest, sep);
    hide Join;
    if rest != [] {
      var a, b := text + sep, Join(rest, sep);
      assert a + (x + sep + b) == a + x + sep + b;
    }
  }

  lemma JoinEnds(text: string, any: bool, sep: string)
    ensures JoinedTo(text, any, [], sep) == if any then text else ""
  {
  }

  // NULL for a text that is empty.
  function OrNull(text: string): Option<string> {
    if text == [] then None else Some(text)
  }

  // The scan passes over what lies between two heads.
  lemma {:induction false} ScanToHead(buf: string, p: nat, q: nat, name: string, strip: bool, ends: char -> bool)
    requires p <= q <= |buf| && forall k :: p <= k < q ==> !IsHead(buf, k)
    ensures Scan(buf, p, name, strip, ends) == Scan(buf, q, name, strip, ends)
    decreases q - p
  {
    if p < q {
      ScanToHead(buf, p + 1, q, name, strip, ends);
    }
  }

  // What the scan makes of the header that begins at p and ends at q.
  lemma ScanHeader(buf: string, p: nat, q: nat, name: string, strip: bool, ends: char -> bool)
    requires p < |buf| && IsHead(buf, p) && q == EndOf(buf, p)
    ensures var h, rest := buf[p..q], Scan(buf, q, name, strip, ends);
      Scan(buf, p, name, strip, ends) == if Named(h, name) then [Contents(h, name, strip, ends)] + rest else rest
  {
    hide IsHead, EndOf, Named, Contents;
    ScanToHead(buf, p + 1, q, name, strip, ends);
  }

  // ---------- Headers as they are written ----------

  // A header with the blanks around its contents.
  datatype Written = Written(name: string, before: string, body: string, after: string)

  function Rest(w: Written): string {
    w.before + w.body + w.after
  }

  function PrintOne(w: Written): string {
    w.name + ":" + Rest(w) + "\n"
  }

  function Print(ws: seq<Written>): string {
    if ws == [] then [] else PrintOne(ws[0]) + Print(ws[1..])
  }

  // Each newline folds the line.
  ghost predicate Folds(s: string) {
    forall i :: 0 <= i < |s| && s[i] == '\n' ==> i + 1 < |s| && (s[i + 1] == ' ' || s[i + 1] == '\t')
  }

  ghost predicate Printable(w: Written) {
    && w.name != [] && w.name[0] != ' ' && w.name[0] != '\t' && ':' !in w.name && '\n' !in w.name
    && AllBlank(w.before) && AllBlank(w.after) && Folds(Rest(w))
    && (w.body == [] || (!Blank(w.body[0]) && !Blank(w.body[|w.body| - 1])))
  }

  predicate SameName(a: string, b: string) {
    |a| == |b| && forall i :: 0 <= i < |a| ==> Lower(a[i]) == Lower(b[i])
  }

  // The contents of the headers of a name, in the order written.
  function Matching(ws: seq<Written>, name: string, strip: bool, ends: char -> bool): seq<string> {
    if ws == [] then []
    else
      var text := if strip then Token(ws[0].body, ends) else ws[0].body;
      (if SameName(ws[0].name, name) then [text] else []) + Matching(ws[1..], name, strip, ends)
  }

  lemma {:induction false} TrimUndoes(a: string, full: string, b: string)
    requires AllBlank(a) && AllBlank(b) && (full == [] || (!Blank(full[0]) && !Blank(full[|full| - 1])))
    ensures TrimRight(TrimLeft(a + full + b)) == full
    decreases |a| + |b|
  {
    var s := a + full + b;
    if a != [] {
      assert s[1..] == a[1..] + full + b;
      TrimUndoes(a[1..], full, b);
    } else if full == [] {
      assert s == b;
      if b != [] {
        assert b[1..] == b[1..] + full + [];
        TrimUndoes(b[1..], full, []);
      }
    } else if b != [] {
      assert s[..|s| - 1] == a + full + b[..|b| - 1];
      TrimUndoes(a, full, b[..|b| - 1]);
    } else {
      assert s == full;
    }
  }

  lemma WrittenContents(w: Written, name: string, strip: bool, ends: char -> bool)
    requires Printable(w) && ':' !in name
    ensures Named(PrintOne(w), name) <==> SameName(w.name, name)
    ensures Named(PrintOne(w), name) ==>
      Contents(PrintOne(w), name, strip, ends) == if strip then Token(w.body, ends) else w.body
  {
    var h, n := PrintOne(w), |w.name|;
    assert h[n] == ':' && forall i :: 0 <= i < n ==> h[i] == w.name[i];
    assert Named(h, name) ==> |name| <= n;
    if |name| < n {
      assert h[|name|] == w.name[|name|] && h[|name|] in w.name;
    } else if |name| == n {
      assert h[n + 1..] == w.before + w.body + (w.after + "\n");
      TrimUndoes(w.before, w.body, w.after + "\n");
    }
  }

  // A written header begins where one ends, and no other begins inside it.
  lemma WrittenHeads(buf: string, p: nat, q: nat, w: Written)
    requires Printable(w) && p <= q <= |buf| && buf[p..q] == PrintOne(w) && (p == 0 || buf[p - 1] == '\n')
    ensures p < q && IsHead(buf, p) && buf[q - 1] == '\n'
    ensures forall k :: p < k < q ==> !IsHead(buf, k)
  {
    var one := PrintOne(w);
    assert buf[p] == one[0] == w.name[0] && buf[q - 1] == one[|one| - 1] == '\n';
    hide PrintOne, Printable;
    forall k | p < k < q
      ensures !IsHead(buf, k)
    {
      assert buf[k - 1] == one[k - p - 1] && buf[k] == one[k - p];
      if one[k - p - 1] == '\n' {
        InsideFolds(w, k - p - 1);
      }
    }
  }

  lemma EndsThere(buf: string, p: nat, q: nat)
    requires p < q <= |buf| && (q == |buf| || IsHead(buf, q))
    requires forall k :: p < k < q ==> !IsHead(buf, k)
    ensures EndOf(buf, p) == q
  {
    hide IsHead;
  }

  lemma InsideFolds(w: Written, i: nat)
    requires Printable(w) && i + 1 < |PrintOne(w)| && PrintOne(w)[i] == '\n'
    ensures PrintOne(w)[i + 1] == ' ' || PrintOne(w)[i + 1] == '\t'
  {
    var one, n, rest := PrintOne(w), |w.name| + 1, Rest(w);
    assert forall k :: 0 <= k < |w.name| ==> one[k] == w.name[k] && w.name[k] != '\n';
    if i >= n {
      assert one[i] == rest[i - n] && one[i + 1] == rest[i - n + 1];
    }
  }

  lemma ScanWritten(buf: string, p: nat, q: nat, w: Written, name: string, strip: bool, ends: char -> bool)
    requires Printable(w) && p <= q <= |buf| && buf[p..q] == PrintOne(w) && (p == 0 || buf[p - 1] == '\n')
    requires ':' !in name && (q < |buf| ==> buf[q] != ' ' && buf[q] != '\t')
    ensures p < q && buf[q - 1] == '\n'
    ensures Scan(buf, p, name, strip, ends)
      == (if SameName(w.name, name) then [if strip then Token(w.body, ends) else w.body] else [])
         + Scan(buf, q, name, strip, ends)
  {
    WrittenHeads(buf, p, q, w);
    EndsThere(buf, p, q);
    WrittenContents(w, name, strip, ends);
    hide PrintOne, Printable, Contents, Named, Token, IsHead, EndOf, SameName;
    ScanHeader(buf, p, q, name, strip, ends);
  }

  lemma PrintStarts(ws: seq<Written>)
    requires ws != [] ==> Printable(ws[0])
    ensures Print(ws) == [] || (Print(ws)[0] != ' ' && Print(ws)[0] != '\t')
  {
    if ws != [] {
      assert Print(ws)[0] == ws[0].name[0];
    }
  }

  lemma {:induction false} ScanFrom(buf: string, p: nat, ws: seq<Written>, name: string, strip: bool,
                                    ends: char -> bool)
    requires p <= |buf| && buf[p..] == Print(ws) && (p == 0 || buf[p - 1] == '\n')
    requires ':' !in name && forall i :: 0 <= i < |ws| ==> Printable(ws[i])
    ensures Scan(buf, p, name, strip, ends) == Matching(ws, name, strip, ends)
    decreases |ws|
  {
    if ws != [] {
      var q := p + |PrintOne(ws[0])|;
      PrintStarts(ws[1..]);
      assert buf[p..q] == buf[p..][..q - p] == PrintOne(ws[0]) && buf[q..] == buf[p..][q - p..] == Print(ws[1..]);
      hide Scan, Printable, Print, PrintOne, SameName, Token;
      ScanWritten(buf, p, q, ws[0], name, strip, ends);
      ScanFrom(buf, q, ws[1..], name, strip, ends);
    }
  }

  // Whatever headers were written, folded and padded in whatever way, the contents found of a name
  // are those of its headers, in either case of letters and in the order written.
  lemma PrintScan(ws: seq<Written>, name: string, strip: bool, ends: char -> bool)
    requires ':' !in name && forall i :: 0 <= i < |ws| ==> Printable(ws[i])
    ensures Scan(Print(ws), 0, name, strip, ends) == Matching(ws, name, strip, ends)
  {
    ScanFrom(Print(ws), 0, ws, name, strip, ends);
  }

  // ---------- The index ----------

  // The heads, in order, that lie at or after p.
  function HeadsFrom(buf: string, p: nat): seq<nat>
    requires p <= |buf|
    decreases |buf| - p
  {
    if p == |buf| then [] else (if IsHead(buf, p) then [p] else []) + HeadsFrom(buf, p + 1)
  }

  // Header i of the index: up to where the next one begins.
  function HeaderAt(buf: string, heads: seq<nat>, i: nat): string
    requires i < |heads| && heads[i] <= (if i + 1 < |heads| then heads[i + 1] else |buf|) <= |buf|
  {
    buf[heads[i]..if i + 1 < |heads| then heads[i + 1] else |buf|]
  }

  ghost predicate Index(buf: string, heads: seq<nat>, from: nat) {
    && (forall i :: 0 <= i < |heads| ==> from <= heads[i] < |buf|)
    && (forall i, j :: 0 <= i < j < |heads| ==> heads[i] < heads[j])
    && (forall p :: from <= p < |buf| ==> (IsHead(buf, p) <==> p in heads))
  }

  lemma IndexBefore(buf: string, rest: seq<nat>, p: nat)
    requires p < |buf| && Index(buf, rest, p + 1)
    ensures Index(buf, if IsHead(buf, p) then [p] + rest else rest, p)
  {
    assert forall q :: q in [p] + rest <==> q == p || q in rest;
    hide IsHead;
  }

  lemma HeadsStep(buf: string, p: nat)
    requires p <= |buf|
    ensures p == |buf| ==> HeadsFrom(buf, p) == []
    ensures p < |buf| ==>
      HeadsFrom(buf, p) == if IsHead(buf, p) then [p] + HeadsFrom(buf, p + 1) else HeadsFrom(buf, p + 1)
  {
    hide IsHead;
  }

  lemma IndexEnds(buf: string, heads: seq<nat>)
    ensures Index(buf, heads, |buf|) <==> heads == []
  {
    var first := if heads == [] then 0 else heads[0];
    assert heads != [] ==> first == heads[0];
    hide IsHead;
  }

  lemma {:induction false} HeadsFromIsIndex(buf: string, p: nat)
    requires p <= |buf|
    ensures Index(buf, HeadsFrom(buf, p), p)
    decreases |buf| - p
  {
    hide *;
    HeadsStep(buf, p);
    if p < |buf| {
      HeadsFromIsIndex(buf, p + 1);
      IndexBefore(buf, HeadsFrom(buf, p + 1), p);
    } else {
      IndexEnds(buf, []);
    }
  }

  lemma IndexRest(buf: string, heads: seq<nat>, from: nat) returns (rest: seq<nat>)
    requires from < |buf| && Index(buf, heads, from)
    ensures IsHead(buf, from) ==> heads == [from] + rest
    ensures !IsHead(buf, from) ==> heads == rest
    ensures Index(buf, rest, from + 1)
  {
    rest := heads;
    if IsHead(buf, from) {
      assert from in heads && heads[0] == from;
      rest := heads[1..];
      assert forall p :: p in heads <==> p == from || p in rest;
      assert forall i :: 0 <= i < |rest| ==> rest[i] == heads[i + 1];
    }
    hide IsHead;
  }

  // An index is determined by the buffer.
  lemma {:induction false} IndexUnique(buf: string, heads: seq<nat>, from: nat)
    requires from <= |buf| && Index(buf, heads, from)
    ensures heads == HeadsFrom(buf, from)
    decreases |buf| - from
  {
    hide *;
    HeadsStep(buf, from);
    if from < |buf| {
      var rest := IndexRest(buf, heads, from);
      IndexUnique(buf, rest, from + 1);
    } else {
      IndexEnds(buf, heads);
    }
  }

  // From one head the header lasts until the next.
  lemma HeadToHead(buf: string, heads: seq<nat>, i: nat)
    requires Index(buf, heads, 0) && i < |heads|
    ensures EndOf(buf, heads[i]) == if i + 1 < |heads| then heads[i + 1] else |buf|
  {
    var e := EndOf(buf, heads[i]);
    if e < |buf| {
      assert e in heads;
    }
    if i + 1 < |heads| {
      assert IsHead(buf, heads[i + 1]);
    }
  }

  function AllHeaders(buf: string, heads: seq<nat>, i: nat): seq<string>
    requires Index(buf, heads, 0) && i <= |heads|
    decreases |heads| - i
  {
    if i == |heads| then [] else [HeaderAt(buf, heads, i)] + AllHeaders(buf, heads, i + 1)
  }

  // The index cuts the buffer into its headers and loses nothing.
  lemma {:induction false} IndexPartitions(buf: string, heads: seq<nat>, i: nat)
    requires Index(buf, heads, 0) && i <= |heads|
    ensures |AllHeaders(buf, heads, i)| == |heads| - i
    ensures i < |heads| ==> Flatten(AllHeaders(buf, heads, i)) == buf[heads[i]..]
    ensures buf != [] ==> heads != [] && heads[0] == 0
    decreases |heads| - i
  {
    if buf != [] {
      assert IsHead(buf, 0);
    }
    if i < |heads| {
      IndexPartitions(buf, heads, i + 1);
    }
  }

  function Found(buf: string, heads: seq<nat>, i: nat, name: string, strip: bool, ends: char -> bool): seq<string>
    requires Index(buf, heads, 0) && i <= |heads|
    decreases |heads| - i
  {
    if i == |heads| then []
    else
      var h := HeaderAt(buf, heads, i);
      (if Named(h, name) then [Contents(h, name, strip, ends)] else []) + Found(buf, heads, i + 1, name, strip, ends)
  }

  lemma FoundStep(buf: string, heads: seq<nat>, i: nat, name: string, strip: bool, ends: char -> bool)
    requires Index(buf, heads, 0) && i <= |heads|
    ensures i == |heads| ==> Found(buf, heads, i, name, strip, ends) == []
    ensures i < |heads| ==> heads[i] <= (if i + 1 < |heads| then heads[i + 1] else |buf|) <= |buf|
    ensures i < |heads| ==>
      var h, rest := HeaderAt(buf, heads, i), Found(buf, heads, i + 1, name, strip, ends);
      Found(buf, heads, i, name, strip, ends)
      == if Named(h, name) then [Contents(h, name, strip, ends)] + rest else rest
  {
    hide Named, Contents;
  }

  lemma {:induction false} FoundIsScanned(buf: string, heads: seq<nat>, i: nat, name: string, strip: bool,
                                          ends: char -> bool)
    requires Index(buf, heads, 0) && i <= |heads|
    ensures Found(buf, heads, i, name, strip, ends)
      == Scan(buf, if i < |heads| then heads[i] else |buf|, name, strip, ends)
    decreases |heads| - i
  {
    FoundStep(buf, heads, i, name, strip, ends);
    if i < |heads| {
      var p, q := heads[i], if i + 1 < |heads| then heads[i + 1] else |buf|;
      HeadToHead(buf, heads, i);
      assert p in heads && IsHead(buf, p) && HeaderAt(buf, heads, i) == buf[p..q];
      hide *;
      ScanHeader(buf, p, q, name, strip, ends);
      FoundIsScanned(buf, heads, i + 1, name, strip, ends);
    }
  }

  lemma FoundFromStart(buf: string, heads: seq<nat>)
    requires Index(buf, heads, 0)
    ensures (if heads == [] then |buf| else heads[0]) == 0
  {
    if buf != [] {
      assert IsHead(buf, 0);
    }
  }

  // ---------- The struct ----------

  class HeaderBlock {
    var allHeaders: string
    var doneP: bool
    var heads: seq<nat>

    ghost predicate Valid()
      reads this
    {
      doneP ==> Index(allHeaders, heads, 0)
    }

    constructor ()
      ensures Valid() && allHeaders == [] && !doneP
    {
      allHeaders, doneP, heads := [], false, [];
    }

    method AddText(text: string)
      requires Valid() && !doneP
      modifies this
      ensures Valid() && !doneP && allHeaders == old(allHeaders) + text
    {
      allHeaders := allHeaders + text;
    }

    // The end-of-headers marker has been read: the index is made.
    method Finish()
      requires Valid() && !doneP
      modifies this
      ensures Valid() && doneP && allHeaders == old(allHeaders) && heads == HeadsFrom(allHeaders, 0)
    {
      heads := [];
      var p := 0;
      while p < |allHeaders|
        invariant p <= |allHeaders| && allHeaders == old(allHeaders)
        invariant heads + HeadsFrom(allHeaders, p) == HeadsFrom(allHeaders, 0)
      {
        if IsHead(allHeaders, p) {
          heads := heads + [p];
        }
        p := p + 1;
      }
      assert heads + [] == heads;
      doneP := true;
      HeadsFromIsIndex(allHeaders, 0);
    }

    // The search goes by the index; what it returns is told by a scan of the whole buffer.  The first
    // header of the name answers alone, or all of them joined; NULL when there is none or no contents.
    method Get(name: string, strip: bool, all: bool, sep: string, ends: char -> bool) returns (r: Option<string>)
      requires Valid() && doneP
      ensures var found := Scan(allHeaders, 0, name, strip, ends);
        && (found == [] ==> r == None)
        && (found != [] && !all ==> r == OrNull(found[0]))
        && (found != [] && all ==> r == OrNull(Flatten(Alternating(found, sep))))
    {
      FoundIsScanned(allHeaders, heads, 0, name, strip, ends);
      FoundFromStart(allHeaders, heads);
      assert OrNull("") == None && Index(allHeaders, heads, 0);
      hide *;
      ghost var spec := Found(allHeaders, heads, 0, name, strip, ends);
      var text, i, any := "", 0, false;
      while i < |heads| && (all || !any)
        invariant 0 <= i <= |heads|
        invariant if any then spec != [] else text == "" && Found(allHeaders, heads, i, name, strip, ends) == spec
        invariant !all && any ==> text == spec[0]
        invariant all ==> JoinedTo(text, any, Found(allHeaders, heads, i, name, strip, ends), sep) == Join(spec, sep)
      {
        FoundStep(allHeaders, heads, i, name, strip, ends);
        ghost var rest := Found(allHeaders, heads, i + 1, name, strip, ends);
        var h := HeaderAt(allHeaders, heads, i);
        if Named(h, name) {
          var contents := Contents(h, name, strip, ends);
          JoinOn(text, any, contents, rest, sep);
          text := if any then text + sep + contents else contents;
          any := true;
        }
        i := i + 1;
      }
      FoundStep(allHeaders, heads, |heads|, name, strip, ends);
      JoinAlternates(spec, sep);
      JoinEnds(text, any, sep);
      r := OrNull(text);
    }
  }
}
