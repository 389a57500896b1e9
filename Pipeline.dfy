/** The script once configured: collect the addresses from the two source pages,
    de-duplicate them, write `ip.txt`, and pair them with the target subdomains. */
module Pipeline {
  import opened Scanner
  import opened Collect
  import opened Deduplication
  import opened IpFile
  import opened Dns

  /** The pages the addresses are collected from, in order. */
  const SourceUrls: seq<string> := [
    "https://monitor.gacjie.cn/page/cloudflare/ipv4.html",
    "https://ip.164746.xyz"
  ]

  /** `unique_ips` for a run in which fetching the URLs gives `fetch`. */
  function UniqueIps(fetch: string -> Fetch): seq<string> {
    Dedup(Collected(SourceUrls, fetch))
  }

  /** One run: the text left in `ip.txt` and the result of every processed pair. */
  method RunScript(fetch: string -> Fetch, lookup: string -> LookupResponse)
    returns (fileText: string, results: seq<PairResult>)
    ensures fileText == FileText(UniqueIps(fetch))
    ensures results == SyncPlan(UniqueIps(fetch), lookup)
  {
    var allIps := CollectIps(SourceUrls, fetch);
    var uniqueIps := Deduplicate(allIps);
    fileText := WriteIps(uniqueIps);
    results := SyncDns(uniqueIps, lookup);
  }

  /** `ip.txt` lists every address found on the pages once, one per line, in the order
      they were first found. */
  lemma FileListsUniqueIps(fetch: string -> Fetch)
    ensures Lines(FileText(UniqueIps(fetch))) == UniqueIps(fetch)
    ensures NoDuplicates(UniqueIps(fetch))
    ensures Elements(UniqueIps(fetch)) == Elements(Collected(SourceUrls, fetch))
    ensures InFirstOccurrenceOrder(UniqueIps(fetch), Collected(SourceUrls, fetch))
  {
    var all := Collected(SourceUrls, fetch);
    var u := UniqueIps(fetch);
    DedupSameElements(all);
    DedupNoDuplicates(all);
    DedupFirstOccurrenceOrder(all);
    CollectedDottedQuads(SourceUrls, fetch);
    forall i | 0 <= i < |u| ensures '\n' !in u[i] {
      assert u[i] in Elements(u);
      DottedQuadNoNewline(u[i]);
    }
    LinesOfFileText(u);
  }

  /** When neither page can be fetched, `ip.txt` is empty and no subdomain is touched. */
  lemma NothingFetched(fetch: string -> Fetch, lookup: string -> LookupResponse)
    requires fetch(SourceUrls[0]) == Failed && fetch(SourceUrls[1]) == Failed
    ensures FileText(UniqueIps(fetch)) == ""
    ensures SyncPlan(UniqueIps(fetch), lookup) == []
  {
    var all := Collected(SourceUrls, fetch);
    assert all == [] by {
      CollectedMembers(SourceUrls, fetch, if all == [] then "" else all[0]);
    }
  }

  /** Every address written to a subdomain is a dotted quad found on one of the pages, and
      it goes to the subdomain of its position in `ip.txt`. */
  lemma WrittenAddressesFound(fetch: string -> Fetch, lookup: string -> LookupResponse, i: nat)
    requires i < |SyncPlan(UniqueIps(fetch), lookup)|
    requires SyncPlan(UniqueIps(fetch), lookup)[i].Issued?
    ensures i < |Lines(FileText(UniqueIps(fetch)))|
    ensures Lines(FileText(UniqueIps(fetch)))[i] == SyncPlan(UniqueIps(fetch), lookup)[i].write.payload.content
    ensures TargetSubdomains()[i] == SyncPlan(UniqueIps(fetch), lookup)[i].write.payload.name
    ensures IsDottedQuad(SyncPlan(UniqueIps(fetch), lookup)[i].write.payload.content)
    ensures exists k :: (0 <= k < |SourceUrls| &&
      SyncPlan(UniqueIps(fetch), lookup)[i].write.payload.content in PageIps(fetch(SourceUrls[k])))
  {
    var u := UniqueIps(fetch);
    var all := Collected(SourceUrls, fetch);
    FileListsUniqueIps(fetch);
    SyncPlanBinding(u, lookup, i);
    var x := u[i];
    assert x in Elements(all) by { assert x in Elements(u); }
    CollectedMembers(SourceUrls, fetch, x);
    CollectedDottedQuads(SourceUrls, fetch);
  }
}
