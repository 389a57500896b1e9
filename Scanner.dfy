/** The page scan: `re.findall` with the fixed pattern
    `\d{1,3}\.\d{1,3}\.\d{1,3}\.\d{1,3}`, written as a scanner for that one pattern.

    At a position, each of the first three groups tries three digits, then two, then
    one, and must be followed by a dot; the last group takes up to three digits. A
    shorter choice for an earlier group is never needed (it would be followed by a
    digit, not a dot), so this local backtracking finds exactly the match Python's
    engine finds; the lemmas below prove it is the longest dotted quad at that
    position. The scan takes the match at the leftmost position, resumes at its end,
    and otherwise moves one character on. */
module Scanner {
  import opened Wrappers

  predicate IsDigit(c: char) {
    '0' <= c <= '9'
  }

  /** `s[lo..hi]` is all digits. */
  predicate Digits(s: string, lo: int, hi: int)
    requires 0 <= lo <= hi <= |s|
  {
    forall k :: lo <= k < hi ==> IsDigit(s[k])
  }

  /** `s[lo..hi]` is one group of the pattern (`\d{1,3}`): one to three digits, with no range check. */
  predicate GroupAt(s: string, lo: int, hi: int) {
    0 <= lo < hi <= |s| && hi - lo <= 3 && Digits(s, lo, hi)
  }

  /** `t` is four groups whose separating dots sit at `i`, `j` and `k`. */
  ghost predicate QuadWithDots(t: string, i: int, j: int, k: int) {
    0 <= i < j < k < |t| && t[i] == '.' && t[j] == '.' && t[k] == '.' &&
    GroupAt(t, 0, i) && GroupAt(t, i + 1, j) && GroupAt(t, j + 1, k) && GroupAt(t, k + 1, |t|)
  }

  /** Reference definition: `t` is a word of the pattern's language. */
  ghost predicate IsDottedQuad(t: string) {
    exists i, j, k :: QuadWithDots(t, i, j, k)
  }

  /** `s[q]` exists and is a digit. */
  predicate DigitAt(s: string, q: nat) {
    q < |s| && IsDigit(s[q])
  }

  /** `s[q]` exists and is a dot. */
  predicate DotAt(s: string, q: nat) {
    q < |s| && s[q] == '.'
  }

  /** Where `\d{1,3}\.` ends when it matches at `p`. The greedy quantifier tries three
      digits first, then two, then one, each time asking for the dot after them. */
  function GroupEnd(s: string, p: nat): (r: Option<nat>)
    ensures r.Some? ==> p < r.value <= |s|
  {
    if DigitAt(s, p) && DigitAt(s, p + 1) && DigitAt(s, p + 2) && DotAt(s, p + 3) then Some(p + 4)
    else if DigitAt(s, p) && DigitAt(s, p + 1) && DotAt(s, p + 2) then Some(p + 3)
    else if DigitAt(s, p) && DotAt(s, p + 1) then Some(p + 2)
    else None
  }

  /** Where the final `\d{1,3}` ends when it matches at `p`: three digits if there are,
      else two, else one. */
  function LastGroupEnd(s: string, p: nat): (r: Option<nat>)
    ensures r.Some? ==> p < r.value <= |s|
  {
    if DigitAt(s, p) && DigitAt(s, p + 1) && DigitAt(s, p + 2) then Some(p + 3)
    else if DigitAt(s, p) && DigitAt(s, p + 1) then Some(p + 2)
    else if DigitAt(s, p) then Some(p + 1)
    else None
  }

  /** Where the whole pattern ends when it matches at `p`. */
  function MatchEnd(s: string, p: nat): (r: Option<nat>)
    ensures r.Some? ==> p < r.value <= |s|
  {
    match GroupEnd(s, p)
    case None => None
    case Some(e1) =>
      match GroupEnd(s, e1)
      case None => None
      case Some(e2) =>
        match GroupEnd(s, e2)
        case None => None
        case Some(e3) => LastGroupEnd(s, e3)
  }

  /** The group `[a, d)` of `t` = `s[p..e]`, followed by a dot, is what the scanner
      reads as the group at `p + a`. */
  lemma GroupRun(s: string, p: nat, e: nat, a: nat, d: nat)
    requires p <= e <= |s| && GroupAt(s[p..e], a, d) && d < e - p && s[p..e][d] == '.'
    ensures GroupEnd(s, p + a) == Some(p + d + 1)
  {
    assert forall k :: p + a <= k <= p + d ==> s[k] == s[p..e][k - p];
  }

  /** The last group `[a, e - p)` of `t` = `s[p..e]`: the scanner's last group reaches at
      least to `e`. */
  lemma LastGroupRun(s: string, p: nat, e: nat, a: nat)
    requires p <= e <= |s| && GroupAt(s[p..e], a, e - p)
    ensures LastGroupEnd(s, p + a).Some? && e <= LastGroupEnd(s, p + a).value
  {
    assert forall k :: p + a <= k < e ==> s[k] == s[p..e][k - p];
  }

  /** Any dotted quad at `p` forces the three group ends of the scanner. */
  lemma QuadGroups(s: string, p: nat, e: nat, i: int, j: int, k: int)
    requires p <= e <= |s|
    requires QuadWithDots(s[p..e], i, j, k)
    ensures GroupEnd(s, p) == Some(p + i + 1)
    ensures GroupEnd(s, p + i + 1) == Some(p + j + 1)
    ensures GroupEnd(s, p + j + 1) == Some(p + k + 1)
    ensures LastGroupEnd(s, p + k + 1).Some? && e <= LastGroupEnd(s, p + k + 1).value
  {
    GroupRun(s, p, e, 0, i);
    GroupRun(s, p, e, i + 1, j);
    GroupRun(s, p, e, j + 1, k);
    LastGroupRun(s, p, e, k + 1);
  }

  /** A digit run of `s` read as a group of `t` = `s[p..e]`. */
  lemma RunGroup(s: string, p: nat, e: nat, lo: nat, hi: nat)
    requires p <= lo < hi <= e <= |s| && hi - lo <= 3 && Digits(s, lo, hi)
    ensures GroupAt(s[p..e], lo - p, hi - p)
  {
    assert forall x :: lo - p <= x < hi - p ==> s[p..e][x] == s[x + p];
  }

  /** Any dotted quad at `p` is covered by the scanner's match at `p`. */
  lemma QuadMatches(s: string, p: nat, e: nat, i: int, j: int, k: int)
    requires p <= e <= |s|
    requires QuadWithDots(s[p..e], i, j, k)
    ensures MatchEnd(s, p).Some? && e <= MatchEnd(s, p).value
  {
    QuadGroups(s, p, e, i, j, k);
    MatchEndOfGroups(s, p, p + i + 1, p + j + 1, p + k + 1);
  }

  /** Three group ends in a row leave the match to the last group. */
  lemma MatchEndOfGroups(s: string, p: nat, e1: nat, e2: nat, e3: nat)
    requires GroupEnd(s, p) == Some(e1) && GroupEnd(s, e1) == Some(e2) && GroupEnd(s, e2) == Some(e3)
    ensures MatchEnd(s, p) == LastGroupEnd(s, e3)
  {
  }

  /** What a matched `\d{1,3}\.` at `p` consists of. */
  lemma GroupEndShape(s: string, p: nat)
    requires GroupEnd(s, p).Some?
    ensures var e := GroupEnd(s, p).value;
      p + 1 < e && e - 1 - p <= 3 && Digits(s, p, e - 1) && s[e - 1] == '.'
  {
  }

  /** What a matched final `\d{1,3}` at `p` consists of. */
  lemma LastGroupEndShape(s: string, p: nat)
    requires LastGroupEnd(s, p).Some?
    ensures var e := LastGroupEnd(s, p).value; e - p <= 3 && Digits(s, p, e)
  {
  }

  /** What the scanner finds at `p` is a dotted quad. */
  lemma MatchIsDottedQuad(s: string, p: nat)
    requires p <= |s| && MatchEnd(s, p).Some?
    ensures IsDottedQuad(s[p..MatchEnd(s, p).value])
  {
    var e1 := GroupEnd(s, p).value;
    GroupEndShape(s, p);
    var e2 := GroupEnd(s, e1).value;
    GroupEndShape(s, e1);
    var e3 := GroupEnd(s, e2).value;
    GroupEndShape(s, e2);
    var e := LastGroupEnd(s, e3).value;
    LastGroupEndShape(s, e3);
    RunGroup(s, p, e, p, e1 - 1);
    RunGroup(s, p, e, e1, e2 - 1);
    RunGroup(s, p, e, e2, e3 - 1);
    RunGroup(s, p, e, e3, e);
    assert QuadWithDots(s[p..e], e1 - 1 - p, e2 - 1 - p, e3 - 1 - p);
  }

  /** No dotted quad at `p` is longer than what the scanner finds (greedy last group). */
  lemma MatchIsLongest(s: string, p: nat, e': nat)
    requires p <= |s| && MatchEnd(s, p).Some?
    requires MatchEnd(s, p).value < e' <= |s|
    ensures !IsDottedQuad(s[p..e'])
  {
    if IsDottedQuad(s[p..e']) {
      var i, j, k :| QuadWithDots(s[p..e'], i, j, k);
      QuadMatches(s, p, e', i, j, k);
    }
  }

  /** When the scanner finds nothing at `p`, no dotted quad starts at `p`. */
  lemma NoMatchNoQuad(s: string, p: nat, e: nat)
    requires p <= e <= |s| && MatchEnd(s, p).None?
    ensures !IsDottedQuad(s[p..e])
  {
    if IsDottedQuad(s[p..e]) {
      var i, j, k :| QuadWithDots(s[p..e], i, j, k);
      QuadMatches(s, p, e, i, j, k);
    }
  }

  /** A match as the half-open index range `[start, end)` of the text. */
  datatype Span = Span(start: nat, end: nat)

  /** A table of match ends, one entry per position `0..n` of a text of length `n`:
      every match ends after its start and within the text. */
  ghost predicate Advancing(t: seq<Option<nat>>) {
    forall q :: 0 <= q < |t| && t[q].Some? ==> q < t[q].value < |t|
  }

  /** What the pattern gives at each position of `s`, the scan's only view of the text. */
  function MatchTable(s: string): (t: seq<Option<nat>>)
    ensures |t| == |s| + 1 && Advancing(t)
  {
    seq(|s| + 1, q requires 0 <= q <= |s| => MatchEnd(s, q))
  }

  /** The walk of `re.findall` from position `p`: take the match at `p` and resume at its
      end, or move one position on. */
  function Walk(t: seq<Option<nat>>, p: nat): (r: seq<Span>)
    requires Advancing(t) && p < |t|
    ensures forall i :: 0 <= i < |r| ==> p <= r[i].start < r[i].end < |t|
    ensures forall i, j :: 0 <= i < j < |r| ==> r[i].end <= r[j].start
    decreases |t| - p
  {
    if p == |t| - 1 then []
    else if t[p].Some? then [Span(p, t[p].value)] + Walk(t, t[p].value)
    else Walk(t, p + 1)
  }

  /** Each span of the walk is the match the table gives at its start. */
  lemma {:induction false} WalkMatches(t: seq<Option<nat>>, p: nat, i: nat)
    requires Advancing(t) && p < |t| && i < |Walk(t, p)|
    ensures t[Walk(t, p)[i].start] == Some(Walk(t, p)[i].end)
    decreases |t| - p
  {
    if t[p].Some? {
      if i > 0 {
        WalkMatches(t, t[p].value, i - 1);
      }
    } else {
      WalkMatches(t, p + 1, i);
    }
  }

  /** Position `q` lies inside one of the spans `r`. */
  ghost predicate Covered(r: seq<Span>, q: nat) {
    exists i :: 0 <= i < |r| && r[i].start <= q < r[i].end
  }

  /** Every position from `p` on at which the table has a match lies inside a span of the
      walk: the scan misses no match it has not stepped over. */
  lemma {:induction false} WalkCovers(t: seq<Option<nat>>, p: nat, q: nat)
    requires Advancing(t) && p <= q < |t| && t[q].Some?
    ensures Covered(Walk(t, p), q)
    decreases |t| - p
  {
    var r := Walk(t, p);
    if t[p].Some? {
      var e := t[p].value;
      var rest := Walk(t, e);
      assert r == [Span(p, e)] + rest;
      if e <= q {
        WalkCovers(t, e, q);
        var i :| 0 <= i < |rest| && rest[i].start <= q < rest[i].end;
        assert r[i + 1] == rest[i];
      } else {
        assert r[0] == Span(p, e);
      }
    } else {
      WalkCovers(t, p + 1, q);
      assert r == Walk(t, p + 1);
    }
  }

  /** The spans `re.findall` reports for `s`, left to right. */
  function Spans(s: string): seq<Span> {
    Walk(MatchTable(s), 0)
  }

  /** What `re.findall` reports, stated on the text: the spans lie in `s` in left-to-right
      order without overlapping, each is the match at its start, and every position where
      the pattern matches lies inside one of them. */
  lemma SpansSpec(s: string)
    ensures forall i :: 0 <= i < |Spans(s)| ==>
      Spans(s)[i].start < Spans(s)[i].end <= |s| &&
      MatchEnd(s, Spans(s)[i].start) == Some(Spans(s)[i].end)
    ensures forall i, j :: 0 <= i < j < |Spans(s)| ==> Spans(s)[i].end <= Spans(s)[j].start
    ensures forall q :: 0 <= q <= |s| && MatchEnd(s, q).Some? ==> Covered(Spans(s), q)
  {
    var t := MatchTable(s);
    forall i | 0 <= i < |Spans(s)|
      ensures MatchEnd(s, Spans(s)[i].start) == Some(Spans(s)[i].end)
    {
      WalkMatches(t, 0, i);
    }
    forall q | 0 <= q <= |s| && MatchEnd(s, q).Some? ensures Covered(Spans(s), q) {
      assert t[q] == MatchEnd(s, q);
      WalkCovers(t, 0, q);
    }
  }

  /** The strings `re.findall` returns for one page. */
  function FindAll(s: string): seq<string> {
    var sp := Spans(s);
    seq(|sp|, i requires 0 <= i < |sp| => s[sp[i].start..sp[i].end])
  }

  /** Every extracted string is four runs of one to three digits separated by single dots. */
  lemma FindAllDottedQuads(s: string)
    ensures forall x :: x in FindAll(s) ==> IsDottedQuad(x)
  {
    var sp := Spans(s);
    forall x | x in FindAll(s) ensures IsDottedQuad(x) {
      var i :| 0 <= i < |sp| && x == s[sp[i].start..sp[i].end];
      WalkMatches(MatchTable(s), 0, i);
      MatchIsDottedQuad(s, sp[i].start);
    }
  }

  /** A dotted quad holds no newline (it is made of digits and dots only). */
  lemma DottedQuadNoNewline(t: string)
    requires IsDottedQuad(t)
    ensures '\n' !in t
  {
    var i, j, k :| QuadWithDots(t, i, j, k);
    forall x | 0 <= x < |t| ensures t[x] != '\n' {
      if x !in {i, j, k} {
        assert IsDigit(t[x]);
      }
    }
  }

  /** A run of four digits cannot open a match: the scan starts one digit later. */
  lemma FindAllLongFirstGroup()
    ensures FindAll("1234.5.6.7") == ["234.5.6.7"]
  {
    var s := "1234.5.6.7";
    var t := MatchTable(s);
    assert GroupEnd(s, 0) == None;
    assert t[0] == None;
    assert GroupEnd(s, 1) == Some(5);
    assert GroupEnd(s, 5) == Some(7);
    assert GroupEnd(s, 7) == Some(9);
    assert t[1] == Some(10);
    assert Walk(t, 10) == [];
    assert Walk(t, 1) == [Span(1, 10)];
    assert Spans(s) == [Span(1, 10)];
    assert FindAll(s)[0] == s[1..10] == "234.5.6.7";
  }

  /** The last group stops after three digits; octet values are not range-checked. */
  lemma FindAllGreedyLastGroup()
    ensures FindAll("999.1.2.3456") == ["999.1.2.345"]
  {
    var s := "999.1.2.3456";
    var t := MatchTable(s);
    assert GroupEnd(s, 0) == Some(4);
    assert GroupEnd(s, 4) == Some(6);
    assert GroupEnd(s, 6) == Some(8);
    assert t[0] == Some(11);
    assert GroupEnd(s, 11) == None;
    assert t[11] == None;
    assert Walk(t, 12) == [];
    assert Walk(t, 11) == [];
    assert Spans(s) == [Span(0, 11)];
    assert FindAll(s)[0] == s[0..11] == "999.1.2.345";
  }
}
