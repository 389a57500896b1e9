/** The DNS update phase: the fixed list of target subdomains, the pairing of subdomains
    with collected addresses, the decision taken on each subdomain's record lookup, and the
    write (update or create) that decision leads to. The Cloudflare calls themselves are
    abstracted: a lookup is a value of `LookupResponse`, and a write is recorded as the
    request that would be sent. */
module Dns {
  import opened Wrappers
  import opened Scanner
  import opened Deduplication

  /** The zone every target subdomain belongs to. */
  const BaseDomainName: string := "lyl7410.cloudns.ch"

  /** The numbers of the target subdomains run from `FirstNumber` to `LastNumber`. */
  const FirstNumber: nat := 10
  const LastNumber: nat := 20

  /** The character of a decimal digit. */
  function DigitChar(d: nat): (c: char)
    requires d < 10
    ensures IsDigit(c)
  {
    ('0' as int + d) as char
  }

  /** The value of a decimal digit character. */
  function DigitValue(c: char): nat
    requires IsDigit(c)
  {
    c as int - '0' as int
  }

  /** Every character of `s` is a decimal digit. */
  predicate AllDigits(s: string) {
    forall k :: 0 <= k < |s| ==> IsDigit(s[k])
  }

  /** Python's `str(n)` for a natural number: its decimal digits, without leading zeros. */
  function DecimalString(n: nat): (s: string)
    ensures |s| >= 1 && AllDigits(s)
    ensures |s| == 1 <==> n < 10
  {
    if n < 10 then [DigitChar(n)] else DecimalString(n / 10) + [DigitChar(n % 10)]
  }

  /** The number a string of decimal digits denotes. */
  function DecimalValue(s: string): nat
    requires AllDigits(s)
  {
    if s == [] then 0 else DecimalValue(s[..|s| - 1]) * 10 + DigitValue(s[|s| - 1])
  }

  /** Reading back the decimal string of `n` gives `n`. */
  lemma {:induction false} DecimalRoundTrip(n: nat)
    ensures DecimalValue(DecimalString(n)) == n
  {
    if n >= 10 {
      var s := DecimalString(n);
      assert s[..|s| - 1] == DecimalString(n / 10);
      DecimalRoundTrip(n / 10);
    }
  }

  /** The subdomain `sp<n>` of the base domain. */
  function Subdomain(n: nat): string {
    "sp" + DecimalString(n) + "." + BaseDomainName
  }

  /** Different numbers give different subdomains. */
  lemma SubdomainInjective(a: nat, b: nat)
    requires Subdomain(a) == Subdomain(b)
    ensures a == b
  {
    var tail := "." + BaseDomainName;
    var s := Subdomain(a);
    assert s == "sp" + DecimalString(a) + tail;
    assert s == "sp" + DecimalString(b) + tail;
    assert |DecimalString(a)| == |DecimalString(b)|;
    assert s[2..|s| - |tail|] == DecimalString(a);
    assert s[2..|s| - |tail|] == DecimalString(b);
    DecimalRoundTrip(a);
    DecimalRoundTrip(b);
  }

  /** `TARGET_SUBDOMAINS`: `sp10` to `sp20` of the base domain, in order. */
  function TargetSubdomains(): (r: seq<string>)
    ensures |r| == LastNumber - FirstNumber + 1
  {
    seq(LastNumber - FirstNumber + 1, i requires 0 <= i => Subdomain(FirstNumber + i))
  }

  /** A number from 10 to 99 is written with its two digits. */
  lemma TwoDigitDecimal(n: nat)
    requires 10 <= n < 100
    ensures DecimalString(n) == [DigitChar(n / 10), DigitChar(n % 10)]
  {
  }

  lemma DecimalTenTwenty()
    ensures DecimalString(10) == "10" && DecimalString(20) == "20"
  {
    TwoDigitDecimal(10);
    TwoDigitDecimal(20);
    assert DigitChar(0) == '0' && DigitChar(1) == '1' && DigitChar(2) == '2';
  }

  lemma SubdomainTenTwenty()
    ensures Subdomain(10) == "sp10.lyl7410.cloudns.ch"
    ensures Subdomain(20) == "sp20.lyl7410.cloudns.ch"
  {
    DecimalTenTwenty();
  }

  /** Eleven target subdomains, from `sp10` to `sp20`. */
  lemma TargetSubdomainsEnds()
    ensures |TargetSubdomains()| == 11
    ensures TargetSubdomains()[0] == "sp10.lyl7410.cloudns.ch"
    ensures TargetSubdomains()[10] == "sp20.lyl7410.cloudns.ch"
  {
    SubdomainTenTwenty();
  }

  /** No subdomain occurs twice among the targets. */
  lemma TargetSubdomainsDistinct()
    ensures NoDuplicates(TargetSubdomains())
  {
    var t := TargetSubdomains();
    forall i, j | 0 <= i < j < |t| ensures t[i] != t[j] {
      if t[i] == t[j] {
        SubdomainInjective(FirstNumber + i, FirstNumber + j);
      }
    }
  }

  /** One entry of the lookup's `result` list. Its `id` is `None` when the JSON value is
      `null`. */
  datatype RecordEntry = RecordEntry(id: Option<string>)

  /** The body of a lookup response: either text `response.json()` cannot parse, or an
      object whose `success` field is truthy or not and whose `result` field is a list. */
  datatype JsonBody = Unparseable | Parsed(success: bool, result: seq<RecordEntry>)

  /** What the record lookup for one subdomain gives: the request itself fails (a
      `RequestException`: timeout, connection error), or a response arrives. */
  datatype LookupResponse = RequestFailed | Answered(status: int, body: JsonBody)

  /** `response.raise_for_status()` raises for client and server error statuses. */
  predicate RaisesForStatus(status: int) {
    400 <= status < 600
  }

  /** The lookup is refused for lack of authorisation. */
  predicate IsAuthError(resp: LookupResponse) {
    resp.Answered? && (resp.status == 401 || resp.status == 403)
  }

  /** The lookup succeeded and lists at least one record: the case where the first
      record's id is taken. */
  predicate ListsRecord(resp: LookupResponse) {
    resp.Answered? && resp.status != 404 && !IsAuthError(resp) && !RaisesForStatus(resp.status)
    && resp.body.Parsed? && resp.body.success && resp.body.result != []
  }

  /** The result of the lookup stage for one subdomain. */
  datatype LookupOutcome =
    | SkipPair                        // `continue`: nothing is written for this pair
    | Proceed(recordId: Option<string>) // the value of `record_id` after the lookup

  /** The lookup stage: a failed request or an authorisation error skips the pair; a listed
      record gives its id; a 404, any other error status, an unparseable body, an
      unsuccessful response and an empty result all leave `record_id` as `None`. */
  function LookupRecord(resp: LookupResponse): (r: LookupOutcome)
    ensures r.SkipPair? <==> resp.RequestFailed? || IsAuthError(resp)
    ensures ListsRecord(resp) ==> r == Proceed(resp.body.result[0].id)
    ensures !ListsRecord(resp) && r.Proceed? ==> r.recordId == None
  {
    match resp
    case RequestFailed => SkipPair
    case Answered(status, body) =>
      if status == 404 then Proceed(None)
      else if status == 401 || status == 403 then SkipPair
      else if RaisesForStatus(status) then Proceed(None)
      else
        match body
        case Unparseable => Proceed(None)
        case Parsed(success, result) =>
          if success && result != [] then Proceed(result[0].id) else Proceed(None)
  }

  /** The record sent to Cloudflare. */
  datatype Payload = Payload(recordType: string, name: string, content: string, ttl: int, proxied: bool)

  /** `dns_payload`: an `A` record for `subdomain` pointing at `ip`, one hour TTL, not
      proxied. */
  function DnsPayload(subdomain: string, ip: string): Payload {
    Payload("A", subdomain, ip, 3600, false)
  }

  /** A write request: a PUT of the payload to an existing record, or a POST creating one. */
  datatype Write = Update(recordId: string, payload: Payload) | Create(payload: Payload)

  /** What one pair leads to. */
  datatype PairResult = Skipped | Issued(write: Write)

  /** `if record_id:` — Python truthiness of the record id: present and non-empty. */
  predicate Truthy(id: Option<string>) {
    id.Some? && id.value != ""
  }

  /** The whole treatment of one pair: the lookup, then exactly one write unless the lookup
      skipped the pair. */
  function PairStep(subdomain: string, ip: string, resp: LookupResponse): (r: PairResult)
    ensures r.Skipped? <==> resp.RequestFailed? || IsAuthError(resp)
    ensures r.Issued? ==> r.write.payload == Payload("A", subdomain, ip, 3600, false)
    ensures r.Issued? && r.write.Update? <==> ListsRecord(resp) && Truthy(resp.body.result[0].id)
    ensures r.Issued? && r.write.Update? ==> Some(r.write.recordId) == resp.body.result[0].id
  {
    match LookupRecord(resp)
    case SkipPair => Skipped
    case Proceed(recordId) =>
      var payload := DnsPayload(subdomain, ip);
      if Truthy(recordId) then Issued(Update(recordId.value, payload)) else Issued(Create(payload))
  }

  /** Each cause the lookup stage treats as "no record" leads to a create request. */
  lemma CreateCauses(subdomain: string, ip: string, resp: LookupResponse)
    requires resp.Answered?
    requires resp.status == 404
          || (RaisesForStatus(resp.status) && !IsAuthError(resp))
          || resp.body.Unparseable?
          || (resp.body.Parsed? && (!resp.body.success || resp.body.result == []))
    requires !IsAuthError(resp)
    ensures PairStep(subdomain, ip, resp) == Issued(Create(DnsPayload(subdomain, ip)))
  {
  }

  function Min(a: nat, b: nat): nat {
    if a <= b then a else b
  }

  /** `num_ips_to_process`, with the `if not unique_ips` guard: no pairs for no addresses. */
  function PairCount(ips: seq<string>): nat {
    if ips == [] then 0 else Min(|ips|, |TargetSubdomains()|)
  }

  /** The results of the pair loop: pair `i` is the `i`-th target subdomain with the `i`-th
      address, looked up on its own. */
  function SyncPlan(ips: seq<string>, lookup: string -> LookupResponse): (r: seq<PairResult>)
    ensures |r| == PairCount(ips)
  {
    var subdomains := TargetSubdomains();
    seq(PairCount(ips), i requires 0 <= i < PairCount(ips) =>
      PairStep(subdomains[i], ips[i], lookup(subdomains[i])))
  }

  /** The pair loop. `record_id` starts as `None` for every pair; the lookup either skips
      the pair (`continue`) or settles `record_id`, and then one write is issued. */
  method SyncDns(uniqueIps: seq<string>, lookup: string -> LookupResponse)
    returns (results: seq<PairResult>)
    ensures results == SyncPlan(uniqueIps, lookup)
  {
    results := [];
    if uniqueIps == [] {
      return;
    }
    var subdomains := TargetSubdomains();
    var n := Min(|uniqueIps|, |subdomains|);
    for i := 0 to n
      invariant results == SyncPlan(uniqueIps, lookup)[..i]
    {
      var subdomain, ip := subdomains[i], uniqueIps[i];
      var recordId: Option<string> := None;
      var outcome := LookupRecord(lookup(subdomain));
      if outcome.SkipPair? {
        results := results + [Skipped];
        continue;
      }
      recordId := outcome.recordId;
      var payload := DnsPayload(subdomain, ip);
      if Truthy(recordId) {
        results := results + [Issued(Update(recordId.value, payload))];
      } else {
        results := results + [Issued(Create(payload))];
      }
    }
    assert SyncPlan(uniqueIps, lookup)[..n] == SyncPlan(uniqueIps, lookup);
  }

  /** No addresses, no pairs; otherwise one pair per address up to the eleven subdomains. */
  lemma SyncPlanLength(ips: seq<string>, lookup: string -> LookupResponse)
    ensures |SyncPlan(ips, lookup)| <= 11
    ensures |SyncPlan(ips, lookup)| == 0 <==> ips == []
    ensures |ips| <= 11 ==> |SyncPlan(ips, lookup)| == |ips|
    ensures |ips| >= 11 ==> |SyncPlan(ips, lookup)| == 11
  {
  }

  /** A write of pair `i` sets the `i`-th target subdomain to the `i`-th address. */
  lemma SyncPlanBinding(ips: seq<string>, lookup: string -> LookupResponse, i: nat)
    requires i < |SyncPlan(ips, lookup)|
    ensures i < |ips| && i < |TargetSubdomains()|
    ensures SyncPlan(ips, lookup)[i].Issued? ==>
      SyncPlan(ips, lookup)[i].write.payload == DnsPayload(TargetSubdomains()[i], ips[i])
    ensures SyncPlan(ips, lookup)[i].Skipped? <==>
      lookup(TargetSubdomains()[i]).RequestFailed? || IsAuthError(lookup(TargetSubdomains()[i]))
  {
  }

  /** Addresses beyond the eleventh are never written anywhere (for a list without
      duplicates, which the de-duplication guarantees). */
  lemma SurplusNeverAssigned(ips: seq<string>, lookup: string -> LookupResponse, i: nat, k: nat)
    requires NoDuplicates(ips)
    requires i < |SyncPlan(ips, lookup)| && |TargetSubdomains()| <= k < |ips|
    requires SyncPlan(ips, lookup)[i].Issued?
    ensures SyncPlan(ips, lookup)[i].write.payload.content != ips[k]
  {
    assert i < 11 <= k;
    assert ips[i] != ips[k];
  }

  /** No two writes of one run are for the same subdomain. */
  lemma AtMostOneWritePerSubdomain(ips: seq<string>, lookup: string -> LookupResponse, i: nat, j: nat)
    requires i < j < |SyncPlan(ips, lookup)|
    requires SyncPlan(ips, lookup)[i].Issued? && SyncPlan(ips, lookup)[j].Issued?
    ensures SyncPlan(ips, lookup)[i].write.payload.name != SyncPlan(ips, lookup)[j].write.payload.name
  {
    TargetSubdomainsDistinct();
    var t := TargetSubdomains();
    assert SyncPlan(ips, lookup)[i].write.payload.name == t[i];
    assert SyncPlan(ips, lookup)[j].write.payload.name == t[j];
  }

  /** The result of pair `i` depends only on its own address and its own lookup: changing
      other addresses or other subdomains' lookups leaves it as it is. */
  lemma PairsIndependent(ips: seq<string>, ips': seq<string>,
                         lookup: string -> LookupResponse, lookup': string -> LookupResponse, i: nat)
    requires i < |SyncPlan(ips, lookup)| && i < |SyncPlan(ips', lookup')|
    requires ips[i] == ips'[i]
    requires lookup(TargetSubdomains()[i]) == lookup'(TargetSubdomains()[i])
    ensures SyncPlan(ips, lookup)[i] == SyncPlan(ips', lookup')[i]
  {
  }
}
