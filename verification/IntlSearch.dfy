/**
  Case-sensitive multibyte string comparison of include/libi18n.h.

  Documented contracts throughout: INTL_MatchOneCaseChar, INTL_Strstr, INTL_StrContains,
  INTL_StrIs, INTL_StrBeginWith and INTL_StrEndWith, all of which "consider character
  boundaries".  The functions below step through both strings a character at a time and never
  build the split; the lemmas say what that computes on the two splits, and on the bytes.
 */
module IntlSearch {
  import opened Basics
  import opened Segments
  import opened IntlText

  // INTL_MatchOneCaseChar on positions: whether both are at the same character, and its length.
  function MatchOneCaseChar(v: Walk, s1: seq<byte>, p: nat, w: Walk, s2: seq<byte>, q: nat): (bool, nat)
    requires p < |v| == |s1| && q < |w| == |s2|
  {
    (s1[p..v[p]] == s2[q..w[q]], v[p] - p)
  }

  // Whether the characters of s2 from q on come next in s1 at p.
  predicate MatchFrom(v: Walk, s1: seq<byte>, p: nat, w: Walk, s2: seq<byte>, q: nat)
    requires p <= |v| == |s1| && q <= |w| == |s2|
    decreases |w| - q
  {
    q == |w| || (p < |v| && var (same, len) := MatchOneCaseChar(v, s1, p, w, s2, q);
                            same && MatchFrom(v, s1, p + len, w, s2, w[q]))
  }

  function SearchFrom(v: Walk, s1: seq<byte>, p: nat, w: Walk, s2: seq<byte>): Option<nat>
    requires p <= |v| == |s1| && |w| == |s2|
    decreases |v| - p
  {
    if MatchFrom(v, s1, p, w, s2, 0) then Some(p)
    else if p == |v| then None
    else SearchFrom(v, s1, v[p], w, s2)
  }

  predicate EndsFrom(v: Walk, s1: seq<byte>, p: nat, w: Walk, s2: seq<byte>)
    requires p <= |v| == |s1| && |w| == |s2|
    decreases |v| - p
  {
    (MatchFrom(v, s1, p, w, s2, 0) && p + |s2| == |s1|) || (p < |v| && EndsFrom(v, s1, v[p], w, s2))
  }

  // The address is returned as an index into s1.
  function Strstr(cs: Charset, r: Rule, s1: Text, s2: Text): Option<nat> {
    SearchFrom(Steps(cs, r, s1), s1, 0, Steps(cs, r, s2), s2)
  }

  predicate StrContains(cs: Charset, r: Rule, s1: Text, s2: Text) {
    Strstr(cs, r, s1, s2).Some?
  }

  predicate StrIs(cs: Charset, r: Rule, s1: Text, s2: Text) {
    MatchFrom(Steps(cs, r, s1), s1, 0, Steps(cs, r, s2), s2, 0) && |s1| == |s2|
  }

  predicate StrBeginWith(cs: Charset, r: Rule, s1: Text, s2: Text) {
    MatchFrom(Steps(cs, r, s1), s1, 0, Steps(cs, r, s2), s2, 0)
  }

  predicate StrEndWith(cs: Charset, r: Rule, s1: Text, s2: Text) {
    EndsFrom(Steps(cs, r, s1), s1, 0, Steps(cs, r, s2), s2)
  }

  // ---------- On the two splits ----------

  lemma {:induction false} MatchIsPrefix(v: Walk, s1: seq<byte>, p: nat, w: Walk, s2: seq<byte>, q: nat)
    requires p <= |v| == |s1| && q <= |w| == |s2|
    ensures MatchFrom(v, s1, p, w, s2, q) <==> Split(w, s2, q) <= Split(v, s1, p)
    decreases |w| - q
  {
    if q < |w| && p < |v| {
      var xs, ys := Split(v, s1, p), Split(w, s2, q);
      assert xs == [s1[p..v[p]]] + Split(v, s1, v[p]) && ys == [s2[q..w[q]]] + Split(w, s2, w[q]);
      MatchIsPrefix(v, s1, v[p], w, s2, w[q]);
      PrefixCons(s2[q..w[q]], Split(w, s2, w[q]), s1[p..v[p]], Split(v, s1, v[p]));
    }
  }

  lemma PrefixCons<T>(y: T, ys: seq<T>, x: T, xs: seq<T>)
    ensures [y] + ys <= [x] + xs <==> y == x && ys <= xs
  {
    if [y] + ys <= [x] + xs {
      assert ([y] + ys)[1..] == ys && ([x] + xs)[1..] == xs && ([x] + xs)[..1 + |ys|][1..] == xs[..|ys|];
      assert ([y] + ys)[0] == ([x] + xs)[0];
    }
  }

  // Where an ordinary search for the needle first succeeds.
  ghost predicate FirstAt<T(!new)>(hay: seq<T>, needle: seq<T>, k: nat) {
    k <= |hay| && needle <= hay[k..] && forall j :: 0 <= j < k ==> !(needle <= hay[j..])
  }

  // The answer of an ordinary search, given as where in the text the first match starts.
  ghost predicate IsFirstMatch<T(!new)>(v: Walk, from: nat, hay: seq<T>, needle: seq<T>, answer: Option<nat>)
    requires from <= |v|
  {
    match answer
    case Some(at) => exists k: nat :: FirstAt(hay, needle, k) && at == Offset(v, from, k)
    case None => forall j :: 0 <= j <= |hay| ==> !(needle <= hay[j..])
  }

  lemma {:induction false} SearchFinds(v: Walk, s1: seq<byte>, p: nat, w: Walk, s2: seq<byte>)
    requires p <= |v| == |s1| && |w| == |s2|
    ensures IsFirstMatch(v, p, Split(v, s1, p), Split(w, s2, 0), SearchFrom(v, s1, p, w, s2))
    decreases |v| - p
  {
    var hay, needle := Split(v, s1, p), Split(w, s2, 0);
    MatchIsPrefix(v, s1, p, w, s2, 0);
    assert hay[0..] == hay;
    if MatchFrom(v, s1, p, w, s2, 0) {
      assert FirstAt(hay, needle, 0);
    } else if p < |v| {
      SearchFinds(v, s1, v[p], w, s2);
      var rest := Split(v, s1, v[p]);
      assert hay == [s1[p..v[p]]] + rest;
      assert forall j :: 0 < j <= |hay| ==> hay[j..] == rest[j - 1..];
      if SearchFrom(v, s1, p, w, s2).Some? {
        var k: nat :| FirstAt(rest, needle, k) && SearchFrom(v, s1, p, w, s2).value == Offset(v, v[p], k);
        assert FirstAt(hay, needle, k + 1);
      }
    }
  }

  // INTL_Strstr is ordinary substring search on the two texts split into characters; what it
  // returns is the byte index of the character where the first match starts.
  lemma StrstrOnCharacters(cs: Charset, r: Rule, s1: Text, s2: Text)
    ensures IsFirstMatch(Steps(cs, r, s1), 0, Characters(cs, r, s1), Characters(cs, r, s2), Strstr(cs, r, s1, s2))
  {
    SearchFinds(Steps(cs, r, s1), s1, 0, Steps(cs, r, s2), s2);
  }

  lemma {:induction false} EndsIsSuffix(v: Walk, s1: seq<byte>, p: nat, w: Walk, s2: seq<byte>)
    requires p <= |v| == |s1| && |w| == |s2|
    ensures var xs, ys := Split(v, s1, p), Split(w, s2, 0);
      EndsFrom(v, s1, p, w, s2) <==> |ys| <= |xs| && xs[|xs| - |ys|..] == ys
    decreases |v| - p
  {
    var xs, ys := Split(v, s1, p), Split(w, s2, 0);
    WholeMatch(v, s1, p, w, s2);
    if p < |v| {
      EndsIsSuffix(v, s1, v[p], w, s2);
      var rest := Split(v, s1, v[p]);
      assert xs == [s1[p..v[p]]] + rest;
      if |ys| <= |rest| {
        assert xs[|xs| - |ys|..] == rest[|rest| - |ys|..];
      }
    }
  }

  lemma {:induction false} WholeMatch(v: Walk, s1: seq<byte>, p: nat, w: Walk, s2: seq<byte>)
    requires p <= |v| == |s1| && |w| == |s2|
    ensures MatchFrom(v, s1, p, w, s2, 0) && p + |s2| == |s1| <==> Split(v, s1, p) == Split(w, s2, 0)
  {
    var xs, ys := Split(v, s1, p), Split(w, s2, 0);
    MatchIsPrefix(v, s1, p, w, s2, 0);
    SplitCovers(v, s1, p);
    SplitCovers(w, s2, 0);
    if MatchFrom(v, s1, p, w, s2, 0) && p + |s2| == |s1| {
      FlattenPrefix(ys, xs);
    }
  }

  // A strictly longer split covers strictly more bytes.
  lemma {:induction false} FlattenPrefix(ys: seq<seq<byte>>, xs: seq<seq<byte>>)
    requires ys <= xs && |Flatten(ys)| == |Flatten(xs)| && forall i :: 0 <= i < |xs| ==> xs[i] != []
    ensures ys == xs
  {
    if ys != [] {
      FlattenPrefix(ys[1..], xs[1..]);
    }
  }

  lemma ComparisonsOnCharacters(cs: Charset, r: Rule, s1: Text, s2: Text)
    ensures var xs, ys := Characters(cs, r, s1), Characters(cs, r, s2);
      && (StrIs(cs, r, s1, s2) <==> xs == ys)
      && (StrBeginWith(cs, r, s1, s2) <==> ys <= xs)
      && (StrEndWith(cs, r, s1, s2) <==> |ys| <= |xs| && xs[|xs| - |ys|..] == ys)
      && (StrContains(cs, r, s1, s2) <==> exists k: nat :: FirstAt(xs, ys, k))
  {
    var v, w := Steps(cs, r, s1), Steps(cs, r, s2);
    assert |v| == |s1| && |w| == |s2|;
    hide Steps, MatchFrom, SearchFrom, EndsFrom;
    WholeMatch(v, s1, 0, w, s2);
    MatchIsPrefix(v, s1, 0, w, s2, 0);
    EndsIsSuffix(v, s1, 0, w, s2);
    assert SearchFrom(v, s1, 0, w, s2).Some? <==> exists k: nat :: FirstAt(Split(v, s1, 0), Split(w, s2, 0), k) by {
      SearchFinds(v, s1, 0, w, s2);
    }
  }

  // ---------- On the bytes ----------

  ghost predicate BytesAt(s1: seq<byte>, p: nat, s2: seq<byte>) {
    p + |s2| <= |s1| && s1[p..p + |s2|] == s2
  }

  // The same bytes from p and from q on are cut at the same place, unless s2 stops before the cut.
  ghost predicate CutAlike(v: Walk, s1: seq<byte>, w: Walk, s2: seq<byte>)
    requires |v| == |s1| && |w| == |s2|
  {
    forall p, q :: 0 <= p < |v| && 0 <= q < |w| && BytesAt(s1, p, s2[q..]) && v[p] <= p + |s2| - q
      ==> v[p] - p == w[q] - q
  }

  // Equal bytes are equal characters exactly when they stop at a boundary of s1.
  lemma {:induction false} MatchIsBytes(v: Walk, s1: seq<byte>, p: nat, w: Walk, s2: seq<byte>, q: nat)
    requires p <= |v| == |s1| && q <= |w| == |s2| && CutAlike(v, s1, w, s2)
    ensures MatchFrom(v, s1, p, w, s2, q) <==> BytesAt(s1, p, s2[q..]) && Reaches(v, p, p + |s2| - q)
    decreases |w| - q
  {
    if q < |w| && p < |v| {
      MatchIsBytes(v, s1, v[p], w, s2, w[q]);
      if v[p] - p == w[q] - q {
        BytesSplit(s1, p, v[p], s2, q, w[q]);
      }
      if Reaches(v, v[p], p + |s2| - q) {
        ReachesIn(v, v[p], p + |s2| - q);
      }
    }
  }

  lemma BytesSplit(s1: seq<byte>, p: nat, a: nat, s2: seq<byte>, q: nat, b: nat)
    requires p <= a <= |s1| && q <= b <= |s2| && a - p == b - q
    ensures BytesAt(s1, p, s2[q..]) <==> s1[p..a] == s2[q..b] && BytesAt(s1, a, s2[b..])
  {
    var end := p + |s2| - q;
    if end <= |s1| {
      assert s1[p..end] == s1[p..a] + s1[a..end];
      assert s2[q..] == s2[q..b] + s2[b..];
    }
  }

  // Both ends of the bytes are boundaries.
  ghost predicate Whole(v: Walk, s1: seq<byte>, p: nat, s2: seq<byte>) {
    BytesAt(s1, p, s2) && Boundary(v, p) && Boundary(v, p + |s2|)
  }

  lemma WholeFrom(v: Walk, s1: seq<byte>, p: nat, s2: seq<byte>)
    requires p <= |v| == |s1| && Boundary(v, p)
    ensures Whole(v, s1, p, s2) <==> BytesAt(s1, p, s2) && Reaches(v, p, p + |s2|)
  {
    if Reaches(v, p, p + |s2|) {
      ReachesOnward(v, 0, p, p + |s2|);
    }
    if Reaches(v, 0, p + |s2|) {
      ReachesBetween(v, 0, p, p + |s2|);
    }
  }

  lemma MatchIsWhole(v: Walk, s1: seq<byte>, p: nat, w: Walk, s2: seq<byte>)
    requires p <= |v| == |s1| && |w| == |s2| && Boundary(v, p) && CutAlike(v, s1, w, s2)
    ensures MatchFrom(v, s1, p, w, s2, 0) <==> Whole(v, s1, p, s2)
  {
    hide MatchFrom;
    MatchIsBytes(v, s1, p, w, s2, 0);
    assert s2[0..] == s2;
    WholeFrom(v, s1, p, s2);
  }

  // No match starts between two boundaries, or past the end.
  lemma NoneBetween(v: Walk, s1: seq<byte>, from: nat, s2: seq<byte>)
    requires from <= |v| == |s1| && Boundary(v, from)
    ensures from < |v| ==> forall p: nat :: from < p < v[from] ==> !Whole(v, s1, p, s2)
    ensures from == |v| ==> forall p: nat :: from < p ==> !Whole(v, s1, p, s2)
  {
    forall p: nat | from < |v| && from < p < v[from]
      ensures !Boundary(v, p)
    {
      if Boundary(v, p) {
        ReachesBetween(v, 0, from, p);
        ReachesIn(v, v[from], p);
      }
    }
  }

  lemma {:induction false} SearchOnBytes(v: Walk, s1: seq<byte>, from: nat, w: Walk, s2: seq<byte>)
    requires from <= |v| == |s1| && |w| == |s2| && Boundary(v, from) && CutAlike(v, s1, w, s2)
    ensures match SearchFrom(v, s1, from, w, s2)
      case Some(at) => Whole(v, s1, at, s2) && forall p: nat :: from <= p < at ==> !Whole(v, s1, p, s2)
      case None => forall p: nat :: from <= p ==> !Whole(v, s1, p, s2)
    decreases |v| - from
  {
    MatchIsWhole(v, s1, from, w, s2);
    NoneBetween(v, s1, from, s2);
    hide Whole, CutAlike, Boundary;
    if !MatchFrom(v, s1, from, w, s2, 0) && from < |v| {
      BackUndoesOn(v, from);
      SearchOnBytes(v, s1, v[from], w, s2);
    }
  }

  // What INTL_Strstr returns is the first place where the bytes of s2 stand in s1 with both ends
  // on boundaries; in particular it never starts inside a character.
  lemma StrstrOnBytes(cs: Charset, r: Rule, s1: Text, s2: Text)
    ensures var v := Steps(cs, r, s1);
      match Strstr(cs, r, s1, s2)
      case Some(at) => Whole(v, s1, at, s2) && forall p: nat :: p < at ==> !Whole(v, s1, p, s2)
      case None => forall p: nat :: !Whole(v, s1, p, s2)
  {
    SearchOnBytes(Steps(cs, r, s1), s1, 0, Steps(cs, r, s2), s2);
  }

  lemma {:induction false} EndsOnBytes(v: Walk, s1: seq<byte>, from: nat, w: Walk, s2: seq<byte>)
    requires from <= |v| == |s1| && |w| == |s2| && CutAlike(v, s1, w, s2)
    ensures EndsFrom(v, s1, from, w, s2)
      <==> from + |s2| <= |s1| && s1[|s1| - |s2|..] == s2 && Reaches(v, from, |s1| - |s2|)
    decreases |v| - from
  {
    MatchIsBytes(v, s1, from, w, s2, 0);
    assert s2[0..] == s2;
    ReachesEnd(v, from);
    if from < |v| {
      EndsOnBytes(v, s1, v[from], w, s2);
      if |s2| <= |s1| && Reaches(v, v[from], |s1| - |s2|) {
        ReachesIn(v, v[from], |s1| - |s2|);
      }
    }
  }

  lemma ComparisonsOnBytesAt(v: Walk, s1: seq<byte>, w: Walk, s2: seq<byte>)
    requires |v| == |s1| && |w| == |s2| && CutAlike(v, s1, w, s2)
    ensures MatchFrom(v, s1, 0, w, s2, 0) <==> s2 <= s1 && Boundary(v, |s2|)
    ensures MatchFrom(v, s1, 0, w, s2, 0) && |s1| == |s2| <==> s1 == s2
    ensures EndsFrom(v, s1, 0, w, s2)
      <==> |s2| <= |s1| && s1[|s1| - |s2|..] == s2 && Boundary(v, |s1| - |s2|)
  {
    MatchIsBytes(v, s1, 0, w, s2, 0);
    assert s2[0..] == s2;
    assert BytesAt(s1, 0, s2) <==> s2 <= s1;
    EndsOnBytes(v, s1, 0, w, s2);
    ReachesEnd(v, 0);
  }

  // Is, begins-with and ends-with are the byte comparisons plus one boundary each.
  lemma ComparisonsOnBytes(cs: Charset, r: Rule, s1: Text, s2: Text)
    ensures StrIs(cs, r, s1, s2) <==> s1 == s2
    ensures StrBeginWith(cs, r, s1, s2) <==> s2 <= s1 && CharStarts(cs, r, s1, |s2|)
    ensures StrEndWith(cs, r, s1, s2)
      <==> |s2| <= |s1| && s1[|s1| - |s2|..] == s2 && CharStarts(cs, r, s1, |s1| - |s2|)
  {
    ComparisonsOnBytesAt(Steps(cs, r, s1), s1, Steps(cs, r, s2), s2);
  }
}
