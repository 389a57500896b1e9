/** The collection phase: every source URL is fetched in order, the pattern is scanned
    over each page that came back, and the matches are appended to `all_ips`. */
module Collect {
  import opened Scanner

  /** What fetching one URL gives. `Failed` stands for every exception the loop catches:
      a network error, a status that `raise_for_status` rejects, or any other error. */
  datatype Fetch = Failed | Page(body: string)

  /** The matches one fetch contributes; a failed fetch contributes none. */
  function PageIps(f: Fetch): seq<string> {
    match f
    case Failed => []
    case Page(body) => FindAll(body)
  }

  /** The per-URL results, in URL order. */
  function PageResults(urls: seq<string>, fetch: string -> Fetch): (r: seq<seq<string>>)
    ensures |r| == |urls|
  {
    seq(|urls|, i requires 0 <= i < |urls| => PageIps(fetch(urls[i])))
  }

  /** The parts joined end to end, in order (what repeated `extend` builds). */
  function Concat<T>(parts: seq<seq<T>>): seq<T> {
    if parts == [] then [] else Concat(parts[..|parts| - 1]) + parts[|parts| - 1]
  }

  /** `all_ips` after the loop over `urls`. */
  function Collected(urls: seq<string>, fetch: string -> Fetch): seq<string> {
    Concat(PageResults(urls, fetch))
  }

  /** The loop that fetches each URL and extends `all_ips` with its matches. */
  method CollectIps(urls: seq<string>, fetch: string -> Fetch) returns (allIps: seq<string>)
    ensures allIps == Collected(urls, fetch)
  {
    allIps := [];
    for i := 0 to |urls|
      invariant allIps == Concat(PageResults(urls, fetch)[..i])
    {
      ghost var done := PageResults(urls, fetch)[..i + 1];
      assert done[..i] == PageResults(urls, fetch)[..i];
      var page := fetch(urls[i]);
      match page {
        case Page(body) =>
          var ipMatches := FindAll(body);
          allIps := allIps + ipMatches;
        case Failed =>
      }
    }
    assert PageResults(urls, fetch)[..|urls|] == PageResults(urls, fetch);
  }

  /** Joining two lists of parts one after the other is concatenation. */
  lemma {:induction false} ConcatAppend<T>(a: seq<seq<T>>, b: seq<seq<T>>)
    ensures Concat(a + b) == Concat(a) + Concat(b)
    decreases |b|
  {
    if b == [] {
      assert a + b == a;
    } else {
      var b' := b[..|b| - 1];
      assert (a + b)[..|a + b| - 1] == a + b';
      ConcatAppend(a, b');
    }
  }

  /** An element is in the join exactly when it is in one of the parts. */
  lemma {:induction false} ConcatMembers<T>(parts: seq<seq<T>>, x: T)
    ensures x in Concat(parts) <==> exists i :: 0 <= i < |parts| && x in parts[i]
    decreases |parts|
  {
    if parts != [] {
      var init := parts[..|parts| - 1];
      ConcatMembers(init, x);
      if x in Concat(parts) && x !in parts[|parts| - 1] {
        var i :| 0 <= i < |init| && x in init[i];
        assert parts[i] == init[i];
      }
      if exists i :: 0 <= i < |parts| && x in parts[i] {
        var i :| 0 <= i < |parts| && x in parts[i];
        if i < |init| {
          assert init[i] == parts[i];
        }
      }
    }
  }

  /** An empty part adds nothing to the join. */
  lemma ConcatEmptyPart<T>(a: seq<seq<T>>, b: seq<seq<T>>)
    ensures Concat(a + [[]] + b) == Concat(a + b)
  {
    ConcatAppend(a + [[]], b);
    ConcatAppend(a, b);
    assert (a + [[]])[..|a|] == a;
  }

  /** A URL whose fetch fails leaves `all_ips` as if it were not in the list. */
  lemma FailedFetchContributesNothing(a: seq<string>, u: string, b: seq<string>, fetch: string -> Fetch)
    requires fetch(u) == Failed
    ensures Collected(a + [u] + b, fetch) == Collected(a + b, fetch)
  {
    var pa, pb := PageResults(a, fetch), PageResults(b, fetch);
    assert PageResults(a + [u] + b, fetch) == pa + [[]] + pb;
    assert PageResults(a + b, fetch) == pa + pb;
    ConcatEmptyPart(pa, pb);
  }

  /** A string is in `all_ips` exactly when some fetched page of the list yields it. */
  lemma CollectedMembers(urls: seq<string>, fetch: string -> Fetch, x: string)
    ensures x in Collected(urls, fetch) <==>
      exists i :: 0 <= i < |urls| && x in PageIps(fetch(urls[i]))
  {
    var parts := PageResults(urls, fetch);
    ConcatMembers(parts, x);
    if x in Collected(urls, fetch) {
      var i :| 0 <= i < |parts| && x in parts[i];
      assert x in PageIps(fetch(urls[i]));
    }
    if exists i :: 0 <= i < |urls| && x in PageIps(fetch(urls[i])) {
      var i :| 0 <= i < |urls| && x in PageIps(fetch(urls[i]));
      assert x in parts[i];
    }
  }

  /** Every string in `all_ips` is a dotted quad (octets are not range-checked). */
  lemma CollectedDottedQuads(urls: seq<string>, fetch: string -> Fetch)
    ensures forall x :: x in Collected(urls, fetch) ==> IsDottedQuad(x)
  {
    forall x | x in Collected(urls, fetch) ensures IsDottedQuad(x) {
      CollectedMembers(urls, fetch, x);
      var i :| 0 <= i < |urls| && x in PageIps(fetch(urls[i]));
      FindAllDottedQuads(fetch(urls[i]).body);
    }
  }
}
