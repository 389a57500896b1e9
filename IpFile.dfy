/** The text written to `ip.txt`: every collected address on a line of its own, and a
    reader that splits such a text back into its lines. */
module IpFile {

  /** The file text for `ips`: each string followed by a line break, in order. */
  function FileText(ips: seq<string>): string {
    if ips == [] then "" else ips[0] + "\n" + FileText(ips[1..])
  }

  /** The write loop: one `ip + "\n"` per address, appended to what is already written. */
  method WriteIps(ips: seq<string>) returns (text: string)
    ensures text == FileText(ips)
  {
    text := "";
    for i := 0 to |ips|
      invariant text == FileText(ips[..i])
    {
      FileTextAppend(ips[..i], [ips[i]]);
      assert ips[..i] + [ips[i]] == ips[..i + 1];
      assert [ips[i]][1..] == [];
      text := text + ips[i] + "\n";
    }
    assert ips[..|ips|] == ips;
  }

  /** The text of two lists written one after the other is the two texts concatenated. */
  lemma {:induction false} FileTextAppend(a: seq<string>, b: seq<string>)
    ensures FileText(a + b) == FileText(a) + FileText(b)
  {
    if a != [] {
      assert (a + b)[1..] == a[1..] + b;
      FileTextAppend(a[1..], b);
    } else {
      assert a + b == b;
    }
  }

  /** The number of characters before the first line break of `t` (all of `t` if none). */
  function LineEnd(t: string): (k: nat)
    ensures k <= |t|
    ensures '\n' !in t[..k]
    ensures k < |t| ==> t[k] == '\n'
  {
    if t == [] || t[0] == '\n' then 0
    else
      var k := 1 + LineEnd(t[1..]);
      assert t[..k] == [t[0]] + t[1..][..k - 1];
      k
  }

  /** The lines of `t`: the pieces between line breaks, not counting an empty piece after
      the last line break. */
  function Lines(t: string): seq<string>
    decreases |t|
  {
    if t == [] then []
    else
      var k := LineEnd(t);
      if k == |t| then [t] else [t[..k]] + Lines(t[k + 1..])
  }

  /** In `a + "\n" + b` with no line break in `a`, the first line is `a`. */
  lemma {:induction false} LineEndOfLine(a: string, b: string)
    requires '\n' !in a
    ensures LineEnd(a + "\n" + b) == |a|
  {
    if a != [] {
      assert (a + "\n" + b)[1..] == a[1..] + "\n" + b;
      LineEndOfLine(a[1..], b);
    }
  }

  /** Reading the file back line by line gives the written list, provided no string of it
      contains a line break. */
  lemma {:induction false} LinesOfFileText(ips: seq<string>)
    requires forall i :: 0 <= i < |ips| ==> '\n' !in ips[i]
    ensures Lines(FileText(ips)) == ips
  {
    if ips != [] {
      var a, rest := ips[0], FileText(ips[1..]);
      var t := a + "\n" + rest;
      assert FileText(ips) == t;
      LineEndOfLine(a, rest);
      assert t[..|a|] == a;
      assert t[|a| + 1..] == rest;
      LinesOfFileText(ips[1..]);
      assert Lines(t) == [a] + ips[1..];
    }
  }

  /** Every line break in the file ends one address: there are exactly as many line breaks
      as strings, when no string contains one. */
  lemma {:induction false} FileTextLineBreaks(ips: seq<string>)
    requires forall i :: 0 <= i < |ips| ==> '\n' !in ips[i]
    ensures multiset(FileText(ips))['\n'] == |ips|
  {
    if ips != [] {
      var a, rest := ips[0], FileText(ips[1..]);
      assert FileText(ips) == a + "\n" + rest;
      assert multiset(a)['\n'] == 0;
      FileTextLineBreaks(ips[1..]);
    }
  }

  /** An empty list gives an empty file, and a non-empty list a file ending in a line break. */
  lemma FileTextEnds(ips: seq<string>)
    ensures ips == [] <==> FileText(ips) == ""
    ensures ips != [] ==> FileText(ips)[|FileText(ips)| - 1] == '\n'
  {
    if ips != [] {
      var last := ips[|ips| - 1];
      assert ips == ips[..|ips| - 1] + [last];
      FileTextAppend(ips[..|ips| - 1], [last]);
      assert [last][1..] == [];
    }
  }
}
