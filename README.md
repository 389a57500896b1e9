# Cloudflare IP updater — a verified model of its logic

`collect_ips.py` is a one-shot script. It fetches two web pages and pulls every dotted-quad
address out of them with the regular expression `\d{1,3}\.\d{1,3}\.\d{1,3}\.\d{1,3}`. It
removes repeated addresses while keeping their order of first appearance and writes them to
`ip.txt`, one per line. It then pairs the first eleven addresses, in order, with the
subdomains `sp10` … `sp20` of `lyl7410.cloudns.ch`. For each pair it looks up the existing
`A` record: depending on the answer it skips the pair, updates the record found, or creates
a new one.

This project models those four pieces of logic in Dafny, with the network, the file system
and the environment replaced by plain inputs.

- `Wrappers.dfy`: `Option`, standing for Python's `None`.
- `Scanner.dfy`: `re.findall` for the one fixed pattern.
  - The scanner reads each of the first three groups as three, two or one digits followed
    by a dot, and the last group as up to three digits.
  - It takes the leftmost match, resumes at the match's end, and otherwise moves one
    character on.
  - Lemmas prove that each match is the longest dotted quad starting where it starts.
  - They also prove that the matches are ordered, do not overlap and miss no position
    where the pattern matches.
- `Collect.dfy`: the loop over the source URLs. A fetch is either `Failed` (any exception
  the loop catches) or a page body, and the matches of successive pages are appended to
  `all_ips`.
- `Dedup.dfy` (module `Deduplication`): the `unique_ips` / `seen_ips` loop. It is proved
  against the function `Dedup`, and lemmas cover the properties of `Dedup`.
- `IpFile.dfy`: the text written to `ip.txt`, the write loop producing it, and a line
  reader that gives the list of addresses back.
- `Dns.dfy`: the DNS update phase.
  - `TARGET_SUBDOMAINS`, including Python's decimal `str` of the subdomain number.
  - The lookup response is abstracted as `LookupResponse`: a failed request, or a status
    code and a JSON body that may not parse.
  - The lookup decision, the payload, the update-or-create choice, and the pair loop with
    its `min(len(unique_ips), 11)` bound.
- `Pipeline.dfy`: the whole run composed from those stages, with end-to-end lemmas.

Some code paths cannot be reached and the model folds them away:

- The `HTTPError` handler (collect_ips.py:127-131) sets `record_id` to `None`. It is always
  `None` already at that point, because `record_id` is reset at :96 and `raise_for_status`
  raises before any assignment. The model therefore treats an error status as "no record".
- The empty-result branch at :120-122 is unreachable, because :116 already requires a
  non-empty result. The model folds it into "no record".
- `if record_id:` tests Python truthiness. A record whose id is JSON `null` or the empty
  string is therefore *created* (POST) rather than updated. The model keeps this distinction
  (`Truthy`).
- A body that `response.json()` cannot parse is taken to raise `ValueError` (:135-137). That
  leads to a create.

## Model

| member | source | states |
|---|---|---|
| Scanner.GroupEnd | collect_ips.py:38 | a matched `\d{1,3}\.` ends after its start and within the text |
| Scanner.MatchIsDottedQuad | collect_ips.py:38 | what the scanner matches at a position is four runs of one to three digits separated by single dots |
| Scanner.MatchIsLongest | collect_ips.py:38 | no longer dotted quad starts at the same position (the last group is greedy) |
| Scanner.NoMatchNoQuad | collect_ips.py:38 | where the scanner finds no match, no dotted quad of any length starts |
| Scanner.MatchTable | collect_ips.py:49 | one entry per text position, and every match ends after its start and within the text |
| Scanner.Walk | collect_ips.py:49 | the reported spans lie inside the text, in left-to-right order, without overlapping |
| Scanner.WalkMatches | collect_ips.py:49 | each reported span is the match the pattern has at its start |
| Scanner.WalkCovers | collect_ips.py:49 | every position where the pattern matches lies inside some reported span |
| Scanner.SpansSpec | collect_ips.py:49 | on the page text: spans within it, ordered, non-overlapping, each the match at its start, and none missed |
| Scanner.FindAllDottedQuads | collect_ips.py:49 | every string `re.findall` returns is a dotted quad; octet values are not bounded |
| Scanner.DottedQuadNoNewline | collect_ips.py:38 | a dotted quad contains no line break |
| Scanner.FindAllLongFirstGroup | collect_ips.py:38 | `"1234.5.6.7"` yields `["234.5.6.7"]` (a four-digit run cannot open a match) |
| Scanner.FindAllGreedyLastGroup | collect_ips.py:38 | `"999.1.2.3456"` yields `["999.1.2.345"]` (octets above 255 pass; the last group stops at three digits) |
| Collect.PageResults | collect_ips.py:43-49 | one result list per URL, in URL order |
| Collect.CollectIps | collect_ips.py:43-55 | the loop's `all_ips` is the concatenation of the per-URL matches in URL order |
| Collect.ConcatAppend | collect_ips.py:50 | `extend` by a further page appends that page's matches at the end |
| Collect.ConcatMembers | collect_ips.py:50 | a string is in the concatenation exactly when it is in one of the parts |
| Collect.FailedFetchContributesNothing | collect_ips.py:52-55 | a URL whose fetch fails can be removed from the list without changing `all_ips` |
| Collect.CollectedMembers | collect_ips.py:43-55 | a string is in `all_ips` exactly when some URL's page yields it |
| Collect.CollectedDottedQuads | collect_ips.py:43-55 | every string of `all_ips` is a dotted quad |
| Deduplication.Deduplicate | collect_ips.py:57-62 | the loop computes `Dedup(all_ips)`, with `seen_ips` equal to the elements of `unique_ips` throughout |
| Deduplication.DedupSameElements | collect_ips.py:57-62 | `unique_ips` holds exactly the strings of `all_ips` |
| Deduplication.DedupNoDuplicates | collect_ips.py:57-62 | `unique_ips` has no repeated string |
| Deduplication.DedupFirstOccurrenceOrder | collect_ips.py:57-62 | `unique_ips` lists the strings in the order of their first occurrence in `all_ips` |
| Deduplication.DedupOfDistinct | collect_ips.py:57-62 | a list without repeats comes back unchanged |
| Deduplication.DedupExample | collect_ips.py:57-62 | repeats within and across pages are dropped, first occurrences kept in order |
| IpFile.WriteIps | collect_ips.py:72-75 | the write loop leaves the text `FileText(unique_ips)` |
| IpFile.FileTextAppend | collect_ips.py:73-75 | the file text of a list is the texts of its parts in order: one `ip + "\n"` after another |
| IpFile.LineEnd | collect_ips.py:74-75 | the first line ends at the first line break, or at the end of the text |
| IpFile.LinesOfFileText | collect_ips.py:72-75 | splitting the file text into lines gives back the list when no string holds a line break |
| IpFile.FileTextLineBreaks | collect_ips.py:74-75 | the file has exactly one line break per address |
| IpFile.FileTextEnds | collect_ips.py:72-75 | an empty list gives an empty file; otherwise the file ends with a line break |
| Dns.DigitChar | collect_ips.py:20 | a digit value gives a digit character |
| Dns.DecimalString | collect_ips.py:20 | `str(i)` is a non-empty string of digits, a single digit exactly below ten |
| Dns.DecimalRoundTrip | collect_ips.py:20 | reading `str(i)` back as a decimal number gives `i` |
| Dns.SubdomainInjective | collect_ips.py:20 | different numbers give different `sp<i>` subdomains |
| Dns.TargetSubdomains | collect_ips.py:20 | the `range(10, 21)` comprehension has eleven entries |
| Dns.TwoDigitDecimal | collect_ips.py:20 | the numbers 10 to 99 are written with their two digits |
| Dns.TargetSubdomainsEnds | collect_ips.py:20 | eleven targets, the first `sp10.lyl7410.cloudns.ch` and the last `sp20.lyl7410.cloudns.ch` |
| Dns.TargetSubdomainsDistinct | collect_ips.py:20 | no subdomain is targeted twice |
| Dns.LookupRecord | collect_ips.py:104-137 | skip exactly on a failed request or a 401/403; the first record's id exactly when the response is successful and lists a record; `None` in every other case |
| Dns.PairStep | collect_ips.py:96-180 | skipped exactly on a failed lookup request or a 401/403; otherwise one write, whose payload is always `A`, the subdomain, the address, TTL 3600 and not proxied; an update (with the listed id) exactly when a record is listed with a truthy id |
| Dns.CreateCauses | collect_ips.py:106-137 | a 404, an error status other than 401/403, an unparseable body, an unsuccessful response and an empty result each lead to a create |
| Dns.SyncPlan | collect_ips.py:86-95 | one result per processed pair |
| Dns.SyncDns | collect_ips.py:86-180 | the pair loop yields `SyncPlan(unique_ips, lookup)`: per pair, the reset `record_id`, the lookup, `continue` on skip, then one PUT or POST |
| Dns.SyncPlanLength | collect_ips.py:86-93 | no pairs for no addresses, one pair per address otherwise, never more than eleven |
| Dns.SyncPlanBinding | collect_ips.py:93-95 | the write of pair `i` sends the `i`-th address to the `i`-th target subdomain; the pair is skipped exactly when its own lookup fails or is refused |
| Dns.SurplusNeverAssigned | collect_ips.py:91-95 | in a list without repeats, addresses beyond the eleventh are never written |
| Dns.AtMostOneWritePerSubdomain | collect_ips.py:93-95 | no two writes of a run are for the same subdomain |
| Dns.PairsIndependent | collect_ips.py:96 | a pair's result depends only on its own address and its own lookup |
| Pipeline.RunScript | collect_ips.py:43-180 | one run writes `FileText` of the de-duplicated collected addresses and processes the pairs of that same list |
| Pipeline.FileListsUniqueIps | collect_ips.py:57-75 | the lines of `ip.txt` are the collected addresses, each once, in first-occurrence order, and exactly the collected set |
| Pipeline.NothingFetched | collect_ips.py:86-87 | when no page can be fetched, `ip.txt` is empty and no subdomain is touched |
| Pipeline.WrittenAddressesFound | collect_ips.py:93-147 | an address written for pair `i` is line `i` of `ip.txt`, goes to target `i`, is a dotted quad and was found on one of the pages |

## Left out

- Environment variables and `sys.exit(1)` (collect_ips.py:9-17), and the authorization headers (:22-25): process setup. `CLOUDFLARE_ZONE_ID` only enters URLs, which the model does not build.
- All `print` logging, including the success and failure messages after PUT and POST (:157-160, :173-176): no effect on the data or the control flow.
- HTTP I/O and timeouts. A page fetch is the parameter `fetch: string -> Fetch`. There, `Failed` covers `RequestException`, a `raise_for_status` error and any other exception, all of which make the page contribute nothing. A lookup is the parameter `lookup: string -> LookupResponse`.
- The responses to the PUT and POST requests (:153-164, :169-180): they are only logged. The model records which request is sent and with which payload.
- File-system I/O (:64-80). `os.path.exists`, `os.remove`, `open` and `IOError` are omitted, and only the text the loop writes is modelled. A write that fails part-way is not modelled.
- General regular-expression semantics: only the fixed pattern is modelled. Python's `\d` also matches non-ASCII Unicode decimal digits, but the scanner accepts the ASCII digits `0`-`9` only.
- Uncaught exceptions (a `KeyError` or `TypeError` at :118, a `result` that is not a list, a `success` field that is not a boolean). `JsonBody.Parsed.success` is the truthiness of the field, and a missing field counts as false.
- The `requests`-version question of whether a JSON decode failure is caught at :132 (as a `RequestException`, skip) or at :135 (as a `ValueError`, create). The model takes the `ValueError` reading (`Unparseable` leads to a create).
- Dns.TargetSubdomainsEnds: spells out the first and last of the eleven subdomains, not the nine in between. Those nine are fixed by `Dns.TargetSubdomains` as `sp<10 + i>` of the base domain, together with `Dns.TwoDigitDecimal` and `Dns.TargetSubdomainsDistinct`.
- Lookups are a function of the subdomain name. Each subdomain is looked up once per run, so the time a request is made is not modelled.
