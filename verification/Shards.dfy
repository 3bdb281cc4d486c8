/**
 A materialised job: one shard of the endpoint enumeration as three byte files, and the two
 searches that find an endpoint in them again.
 */
module Shards {
  import opened Words
  import opened Targets
  import opened Endpoints

  /* ----- partition ----- */

  /** `target_in_shard`. */
  predicate InShard(index: nat, shard: nat, shards: nat)
    requires shards > 0
  {
    index % shards == shard
  }

  /** The endpoints of a shard, in enumeration order. */
  function Shard(es: seq<Endpoint>, shard: nat, shards: nat): seq<Endpoint>
    requires shards > 0
  {
    if es == [] then [] else
    var last := |es| - 1;
    Shard(es[..last], shard, shards) + (if InShard(last, shard, shards) then [es[last]] else [])
  }

  /** How many of the first `n` numbers fall into a shard. */
  function Quota(n: nat, shard: nat, shards: nat): nat
    requires shard < shards
  {
    (n + shards - 1 - shard) / shards
  }

  lemma QuotaOf(q: nat, r: nat, shard: nat, shards: nat)
    requires r < shards && shard < shards
    ensures Quota(q * shards + r, shard, shards) == q + (if shard < r then 1 else 0)
  {
    if shard < r {
      assert q * shards + r + shards - 1 - shard == (q + 1) * shards + (r - 1 - shard);
      DivModOf(q + 1, shards, r - 1 - shard);
    } else {
      DivModOf(q, shards, r + shards - 1 - shard);
    }
  }

  lemma QuotaStep(n: nat, shard: nat, shards: nat)
    requires shard < shards
    ensures Quota(n + 1, shard, shards) == Quota(n, shard, shards) + (if InShard(n, shard, shards) then 1 else 0)
    ensures InShard(n, shard, shards) ==> Quota(n, shard, shards) == n / shards
  {
    var q, r := n / shards, n % shards;
    assert n == q * shards + r;
    QuotaOf(q, r, shard, shards);
    if r + 1 < shards {
      assert n + 1 == q * shards + (r + 1);
      QuotaOf(q, r + 1, shard, shards);
    } else {
      assert n + 1 == (q + 1) * shards + 0;
      QuotaOf(q + 1, 0, shard, shards);
    }
  }

  lemma {:induction false} ShardLength(es: seq<Endpoint>, shard: nat, shards: nat)
    requires shard < shards
    ensures |Shard(es, shard, shards)| == Quota(|es|, shard, shards)
  {
    if es == [] {
      DivModOf(0, shards, shards - 1 - shard);
    } else {
      ShardLength(es[..|es| - 1], shard, shards);
      QuotaStep(|es| - 1, shard, shards);
    }
  }

  /** Endpoint `k` stands in shard `k % shards`, at position `k / shards`. */
  lemma {:induction false} ShardHolds(es: seq<Endpoint>, k: nat, shards: nat)
    requires k < |es| && shards > 0
    ensures
      var shard := Shard(es, k % shards, shards);
      k / shards < |shard| && shard[k / shards] == es[k]
  {
    var last := |es| - 1;
    if k < last {
      ShardHolds(es[..last], k, shards);
    } else {
      ShardLength(es[..last], k % shards, shards);
      QuotaStep(last, k % shards, shards);
    }
  }

  /** The shards partition the enumeration: position `i` of shard `s` is endpoint `i * shards + s`, and no other. */
  lemma ShardAt(es: seq<Endpoint>, shard: nat, shards: nat, i: nat)
    requires shard < shards && i < |Shard(es, shard, shards)|
    ensures 0 <= i * shards + shard < |es|
    ensures Shard(es, shard, shards)[i] == es[i * shards + shard]
  {
    ShardLength(es, shard, shards);
    QuotaReach(|es|, shard, shards, i);
    DivModOf(i, shards, shard);
    ShardHoldsAt(es, i * shards + shard, i, shard, shards);
  }

  lemma ShardHoldsAt(es: seq<Endpoint>, k: nat, i: nat, shard: nat, shards: nat)
    requires k < |es| && shards > 0 && k / shards == i && k % shards == shard
    ensures i < |Shard(es, shard, shards)| && Shard(es, shard, shards)[i] == es[k]
  {
    ShardHolds(es, k, shards);
  }

  lemma QuotaReach(n: nat, shard: nat, shards: nat, i: nat)
    requires shard < shards
    ensures i < Quota(n, shard, shards) <==> i * shards + shard < n
  {
    SplitIndex(n + shards - 1 - shard, i + 1, shards);
    assert (i + 1) * shards == i * shards + shards;
  }

  /* ----- the files ----- */

  function TargetBytes(es: seq<Endpoint>): seq<u8> {
    seq(4 * |es|, k requires 0 <= k < 4 * |es| => Be32(es[k / 4].ip)[k % 4])
  }

  function PortBytes(es: seq<Endpoint>): seq<u8> {
    seq(2 * |es|, k requires 0 <= k < 2 * |es| => Be16(es[k / 2].service.port)[k % 2])
  }

  function ProtocolBytes(es: seq<Endpoint>): seq<u8> {
    seq(|es|, k requires 0 <= k < |es| => ProtocolCode(es[k].service.protocol))
  }

  lemma FilesAppend(es: seq<Endpoint>, e: Endpoint)
    ensures TargetBytes(es + [e]) == TargetBytes(es) + Be32(e.ip)
    ensures PortBytes(es + [e]) == PortBytes(es) + Be16(e.service.port)
    ensures ProtocolBytes(es + [e]) == ProtocolBytes(es) + [ProtocolCode(e.service.protocol)]
  {
    TargetsAppend(es, e);
    assert PortBytes(es + [e]) == PortBytes(es) + Be16(e.service.port);
  }

  lemma TargetsAppend(es: seq<Endpoint>, e: Endpoint)
    ensures TargetBytes(es + [e]) == TargetBytes(es) + Be32(e.ip)
  {
    var bytes := Be32(e.ip);
    assert |TargetBytes(es + [e])| == |TargetBytes(es) + bytes|;
    forall k | 0 <= k < 4 * |es| + 4 ensures TargetBytes(es + [e])[k] == (TargetBytes(es) + bytes)[k] {
      assert k < 4 * |es| ==> (es + [e])[k / 4] == es[k / 4];
    }
  }

  lemma FilesAt(es: seq<Endpoint>, i: nat)
    requires i < |es|
    ensures TargetBytes(es)[4 * i..4 * i + 4] == Be32(es[i].ip)
    ensures PortBytes(es)[2 * i..2 * i + 2] == Be16(es[i].service.port)
  {
    assert forall k | 0 <= k < 4 :: TargetBytes(es)[4 * i + k] == Be32(es[i].ip)[k];
    assert forall k | 0 <= k < 2 :: PortBytes(es)[2 * i + k] == Be16(es[i].service.port)[k];
  }

  /** Everything the loops of `create_shard` produce. */
  datatype Job = Job(targets: seq<u8>, ports: seq<u8>, protocols: seq<u8>, digested: seq<u8>, count: nat) {
    function With(e: Endpoint): Job {
      Job(
        targets + Be32(e.ip),
        ports + Be16(e.service.port),
        protocols + [ProtocolCode(e.service.protocol)],
        digested + DigestRecord(e),
        count + 1)
    }
  }

  function JobOf(es: seq<Endpoint>): Job {
    Job(TargetBytes(es), PortBytes(es), ProtocolBytes(es), DigestBytes(es), |es|)
  }

  lemma JobAppend(es: seq<Endpoint>, e: Endpoint)
    ensures JobOf(es).With(e) == JobOf(es + [e])
  {
    FilesAppend(es, e);
    DigestAppend(es, e);
  }

  /**
   `create_shard`: it fails exactly on a bad shard, on target files that cannot be prepared, and on a shard
   past the last endpoint.  `p` is the target set the files denote.
   */
  method CreateShard(
      includes: seq<Entry>, excludes: seq<Entry>, allowPrivate: bool, services: seq<Service>, maxTargets: nat,
      shard: nat, shards: nat)
    returns (r: Result<Job, string>, ghost p: Option<PreparedTargets>)
    requires services != [] && DistinctServicePorts(services)
    ensures p.Some? <==> shard < shards && !ConfigFails(includes, excludes, allowPrivate, services, maxTargets)
    ensures p.Some? ==> IsPrepared(p.value, includes, excludes, allowPrivate, services)
    ensures r.Err? <==> p.None? || shard >= p.value.EndpointCount()
    ensures r.Ok? ==> r.value == JobOf(Shard(Enumeration(p.value), shard, shards))
  {
    p := None;
    if shards == 0 { return Err("shard_count must be positive"), p; }
    if shard >= shards { return Err("shard_index must be less than shard_count"), p; }
    var prepared := FromConfig(includes, excludes, allowPrivate, services, maxTargets);
    if prepared.Err? { return Err(prepared.error), p; }
    p := Some(prepared.value);
    r := WritePrepared(prepared.value, shard, shards);
  }

  method WritePrepared(p: PreparedTargets, shard: nat, shards: nat) returns (r: Result<Job, string>)
    requires p.Valid() && shard < shards
    ensures r.Err? <==> shard >= p.EndpointCount()
    ensures r.Ok? ==> r.value == JobOf(Shard(Enumeration(p), shard, shards))
  {
    var job := WriteShard(Addresses(p.ranges), p.services, shard, shards);
    EnumerateLength(Addresses(p.ranges), p.services);
    ShardLength(Enumeration(p), shard, shards);
    QuotaReach(p.EndpointCount(), shard, shards, 0);
    if job.count == 0 { return Err("shard has no targets after filtering"); }
    return Ok(job);
  }

  /** Its nested loop over addresses and services. */
  method WriteShard(ips: seq<u32>, services: seq<Service>, shard: nat, shards: nat) returns (job: Job)
    requires shard < shards
    ensures job == JobOf(Shard(Enumerate(ips, services), shard, shards))
  {
    job := JobOf([]);
    var index := 0;
    for i := 0 to |ips|
      invariant index == |Enumerate(ips[..i], services)|
      invariant job == JobOf(Shard(Enumerate(ips[..i], services), shard, shards))
    {
      assert ips[..i + 1] == ips[..i] + [ips[i]];
      EnumerateAppend(ips[..i], ips[i], services);
      job, index := WriteRow(job, index, ips[i], services, shard, shards, Enumerate(ips[..i], services));
    }
    assert ips[..|ips|] == ips;
  }

  /** The inner loop: one address. */
  method WriteRow(
      start: Job, first: nat, ip: u32, services: seq<Service>, shard: nat, shards: nat, ghost before: seq<Endpoint>)
    returns (job: Job, index: nat)
    requires shards > 0 && first == |before| && start == JobOf(Shard(before, shard, shards))
    ensures index == |before + Row(ip, services)|
    ensures job == JobOf(Shard(before + Row(ip, services), shard, shards))
  {
    job, index := start, first;
    assert before + Row(ip, services[..0]) == before;
    for k := 0 to |services|
      invariant index == |before| + k
      invariant job == JobAt(before, ip, services[..k], shard, shards)
    {
      JobStep(before, ip, services[..k], services[k], shard, shards);
      assert services[..k] + [services[k]] == services[..k + 1];
      if InShard(index, shard, shards) {
        job := job.With(Endpoint(ip, services[k]));
      }
      index := index + 1;
    }
    assert services[..|services|] == services;
  }

  function JobAt(before: seq<Endpoint>, ip: u32, services: seq<Service>, shard: nat, shards: nat): Job
    requires shards > 0
  {
    JobOf(Shard(before + Row(ip, services), shard, shards))
  }

  lemma JobStep(before: seq<Endpoint>, ip: u32, services: seq<Service>, service: Service, shard: nat, shards: nat)
    requires shards > 0
    ensures JobAt(before, ip, services + [service], shard, shards)
         == var job := JobAt(before, ip, services, shard, shards);
            if InShard(|before| + |services|, shard, shards) then job.With(Endpoint(ip, service)) else job
  {
    var row, e := Row(ip, services), Endpoint(ip, service);
    assert Row(ip, services + [service]) == row + [e];
    assert before + (row + [e]) == before + row + [e];
    ShardAppend(before + row, e, shard, shards);
    var es := Shard(before + row, shard, shards);
    JobAppend(es, e);
    assert es + [] == es;
  }

  lemma {:induction false} DigestAppend(es: seq<Endpoint>, e: Endpoint)
    ensures DigestBytes(es + [e]) == DigestBytes(es) + DigestRecord(e)
  {
    var record := DigestRecord(e);
    if es == [] {
      assert DigestBytes([e]) == record + DigestBytes([]);
    } else {
      DigestAppend(es[1..], e);
      assert (es + [e])[1..] == es[1..] + [e];
    }
  }

  lemma ShardAppend(es: seq<Endpoint>, e: Endpoint, shard: nat, shards: nat)
    requires shards > 0
    ensures Shard(es + [e], shard, shards)
      == Shard(es, shard, shards) + (if InShard(|es|, shard, shards) then [e] else [])
  {
    assert (es + [e])[..|es|] == es;
  }

  /** One address with its services. */
  function Row(ip: u32, services: seq<Service>): seq<Endpoint> {
    seq(|services|, k requires 0 <= k < |services| => Endpoint(ip, services[k]))
  }

  lemma {:induction false} EnumerateAppend(ips: seq<u32>, ip: u32, services: seq<Service>)
    ensures Enumerate(ips + [ip], services) == Enumerate(ips, services) + Row(ip, services)
  {
    if ips == [] {
      assert ips + [ip] == [ip] && [ip][1..] == [];
      assert Enumerate([ip], services) == Row(ip, services) + Enumerate([], services);
    } else {
      EnumerateAppend(ips[1..], ip, services);
      assert (ips + [ip])[1..] == ips[1..] + [ip];
      assert Enumerate(ips + [ip], services) == Row(ips[0], services) + Enumerate((ips + [ip])[1..], services);
      assert Enumerate(ips, services) == Row(ips[0], services) + Enumerate(ips[1..], services);
    }
  }

  /* ----- searching the files ----- */

  predicate SortedByIp(es: seq<Endpoint>) {
    forall i, j | 0 <= i < j < |es| :: es[i].ip <= es[j].ip
  }

  /** No address and port occurs twice. */
  predicate DistinctPorts(es: seq<Endpoint>) {
    forall i, j | 0 <= i < j < |es| :: es[i].ip != es[j].ip || es[i].service.port != es[j].service.port
  }

  /** The first endpoint with this address and port. */
  function Lookup(es: seq<Endpoint>, ip: u32, port: u16): (r: Option<nat>)
    ensures r.Some? ==> r.value < |es| && Matches(es[r.value], ip, port)
    ensures r.None? ==> forall i | 0 <= i < |es| :: !Matches(es[i], ip, port)
  {
    if es == [] then None
    else if Matches(es[0], ip, port) then Some(0)
    else match Lookup(es[1..], ip, port)
      case None => None
      case Some(i) => Some(i + 1)
  }

  predicate Matches(e: Endpoint, ip: u32, port: u16) {
    e.ip == ip && e.service.port == port
  }

  lemma {:induction false} LookupFirst(es: seq<Endpoint>, ip: u32, port: u16, at: nat)
    requires at < |es| && Matches(es[at], ip, port)
    requires forall i | 0 <= i < at :: !Matches(es[i], ip, port)
    ensures Lookup(es, ip, port) == Some(at)
  {
    if at > 0 { LookupFirst(es[1..], ip, port, at - 1); }
  }

  /** `target_ip` and `target_port`: the records at a position. */
  function TargetIp(targets: seq<u8>, i: nat): u32
    requires 4 * i + 4 <= |targets|
  {
    FromBe32(targets[4 * i..4 * i + 4])
  }

  function TargetPort(ports: seq<u8>, i: nat): u16
    requires 2 * i + 2 <= |ports|
  {
    FromBe16(ports[2 * i..2 * i + 2])
  }

  lemma RecordsAt(es: seq<Endpoint>, i: nat)
    requires i < |es|
    ensures TargetIp(TargetBytes(es), i) == es[i].ip
    ensures TargetPort(PortBytes(es), i) == es[i].service.port
  {
    FilesAt(es, i);
    Be32RoundTrip(es[i].ip);
    Be16RoundTrip(es[i].service.port);
  }

  predicate Below(es: seq<Endpoint>, lo: nat, ip: u32) { lo <= |es| && forall i | 0 <= i < lo :: es[i].ip < ip }
  predicate Above(es: seq<Endpoint>, hi: nat, ip: u32) { hi <= |es| && forall i | hi <= i < |es| :: ip <= es[i].ip }

  lemma Halve(es: seq<Endpoint>, m: nat, ip: u32)
    requires SortedByIp(es) && m < |es|
    ensures if es[m].ip < ip then Below(es, m + 1, ip) else Above(es, m, ip)
  {
  }

  /** What the scan from the separator has ruled out. */
  predicate Skipped(es: seq<Endpoint>, lo: nat, ip: u32, port: u16) {
    lo <= |es| && forall i | 0 <= i < lo :: !Matches(es[i], ip, port)
  }

  lemma ScanMisses(es: seq<Endpoint>, lo: nat, ip: u32, port: u16)
    requires SortedByIp(es) && Skipped(es, lo, ip, port) && Above(es, lo, ip) && (lo < |es| ==> es[lo].ip != ip)
    ensures Lookup(es, ip, port) == None
  {
    forall i | lo <= i < |es| ensures !Matches(es[i], ip, port) {
      assert es[lo].ip <= es[i].ip;
    }
  }

  /** `find_index`: binary search on the decoded addresses, then a scan over the ports. */
  method FindIndex(targets: seq<u8>, ports: seq<u8>, ip: u32, port: u16, ghost es: seq<Endpoint>)
    returns (r: Option<nat>)
    requires targets == TargetBytes(es) && ports == PortBytes(es) && SortedByIp(es)
    ensures r == Lookup(es, ip, port)
  {
    var n := |targets| / 4;
    var lo: nat, hi: nat := 0, n;
    while lo < hi
      invariant lo <= hi && Below(es, lo, ip) && Above(es, hi, ip)
    {
      var m := (lo + hi) / 2;
      RecordsAt(es, m);
      Halve(es, m, ip);
      if TargetIp(targets, m) < ip { lo := m + 1; } else { hi := m; }
    }
    while lo < n && TargetIp(targets, lo) == ip
      invariant Skipped(es, lo, ip, port) && Above(es, lo, ip)
    {
      RecordsAt(es, lo);
      if TargetPort(ports, lo) == port {
        LookupFirst(es, ip, port, lo);
        return Some(lo);
      }
      lo := lo + 1;
    }
    if lo < n { RecordsAt(es, lo); }
    ScanMisses(es, lo, ip, port);
    return None;
  }

  lemma SameBytes(a: u32, b: u32)
    ensures Be32(a) == Be32(b) <==> a == b
  {
    Be32RoundTrip(a);
    Be32RoundTrip(b);
  }

  /** The order `[u8; 4]` compares in. */
  predicate LexLess(a: seq<u8>, b: seq<u8>) {
    b != [] && (a == [] || a[0] < b[0] || (a[0] == b[0] && LexLess(a[1..], b[1..])))
  }

  /** Big-endian bytes compare like the numbers they encode. */
  lemma LexIsNumeric(a: seq<u8>, b: seq<u8>)
    requires |a| == 4 && |b| == 4
    ensures LexLess(a, b) <==> FromBe32(a) < FromBe32(b)
  {
    assert LexLess(a, b) <==> LexStep(a[0], b[0], LexLess(a[1..], b[1..]));
    assert LexLess(a[1..], b[1..]) <==> LexStep(a[1], b[1], LexLess(a[2..], b[2..]));
    assert LexLess(a[2..], b[2..]) <==> LexStep(a[2], b[2], LexLess(a[3..], b[3..]));
    assert LexLess(a[3..], b[3..]) <==> LexStep(a[3], b[3], false);
  }

  predicate LexStep(a: u8, b: u8, rest: bool) {
    a < b || (a == b && rest)
  }

  lemma BytesBelow(es: seq<Endpoint>, i: nat, ip: u32)
    requires i < |es|
    ensures LexLess(TargetBytes(es)[4 * i..4 * i + 4], Be32(ip)) <==> es[i].ip < ip
    ensures TargetBytes(es)[4 * i..4 * i + 4] == Be32(ip) <==> es[i].ip == ip
  {
    FilesAt(es, i);
    LexIsNumeric(Be32(es[i].ip), Be32(ip));
    SameBytes(es[i].ip, ip);
    Be32RoundTrip(es[i].ip);
    Be32RoundTrip(ip);
  }

  /** `endpoint_index`: binary search on the raw bytes, then a scan over the ports. */
  method EndpointIndex(targets: seq<u8>, ports: seq<u8>, targetCount: nat, ip: u32, port: u16, ghost es: seq<Endpoint>)
    returns (r: Result<nat, string>)
    requires targets == TargetBytes(es) && ports == PortBytes(es) && SortedByIp(es) && targetCount == |es|
    ensures match Lookup(es, ip, port) case None => r.Err? case Some(i) => r == Ok(i)
  {
    var needle := Be32(ip);
    var lo: nat, hi: nat := 0, targetCount;
    while lo < hi
      invariant lo <= hi && Below(es, lo, ip) && Above(es, hi, ip)
    {
      var mid := (lo + hi) / 2;
      BytesBelow(es, mid, ip);
      Halve(es, mid, ip);
      if LexLess(targets[4 * mid..4 * mid + 4], needle) { lo := mid + 1; } else { hi := mid; }
    }
    while lo < targetCount
      invariant Skipped(es, lo, ip, port) && Above(es, lo, ip)
    {
      BytesBelow(es, lo, ip);
      if targets[4 * lo..4 * lo + 4] != needle { break; }
      RecordsAt(es, lo);
      if TargetPort(ports, lo) == port {
        LookupFirst(es, ip, port, lo);
        return Ok(lo);
      }
      lo := lo + 1;
    }
    ScanMisses(es, lo, ip, port);
    return Err("event endpoint not found in job targets");
  }

  /* ----- every endpoint is found in its own shard only ----- */

  /** Address and service of an enumerated endpoint. */
  lemma EnumerationParts(p: PreparedTargets, k: nat) returns (q: nat, r: nat)
    requires p.Valid() && k < p.EndpointCount()
    ensures |Enumeration(p)| == p.EndpointCount()
    ensures r < |p.services| && k == q * |p.services| + r
    ensures NthIp(p.ranges, q) == Some(Enumeration(p)[k].ip) && Enumeration(p)[k].service == p.services[r]
  {
    EndpointAtEnumerates(p, k);
    SplitIndex(k, 0, |p.services|);
    q, r := k / |p.services|, k % |p.services|;
  }

  lemma PairsGrow(q: nat, r: nat, q': nat, r': nat, n: nat)
    requires r < n && r' < n && q * n + r < q' * n + r'
    ensures q <= q' && (q == q' ==> r < r')
  {
    ProductBound(q', r', q, n);
  }

  /** Endpoints ascend by address, and at one address differ in their ports. */
  lemma PartsAscend(
      ranges: seq<Ipv4Range>, services: seq<Service>, q: nat, r: nat, q': nat, r': nat, a: Endpoint, b: Endpoint)
    requires Normal(ranges) && DistinctServicePorts(services) && r < |services| && r' < |services|
    requires NthIp(ranges, q) == Some(a.ip) && a.service == services[r]
    requires NthIp(ranges, q') == Some(b.ip) && b.service == services[r']
    requires q <= q' && (q == q' ==> r < r')
    ensures a.ip < b.ip || (a.ip == b.ip && a.service.port != b.service.port)
  {
    if q < q' { NthIpAscends(ranges, q, q'); }
  }

  /** The enumeration is sorted by address and repeats no address and port. */
  lemma EnumerationSorted(p: PreparedTargets, k: nat, l: nat)
    requires p.Valid() && k < l < p.EndpointCount()
    ensures |Enumeration(p)| == p.EndpointCount()
    ensures Enumeration(p)[k].ip <= Enumeration(p)[l].ip
    ensures Enumeration(p)[k].ip == Enumeration(p)[l].ip ==>
      Enumeration(p)[k].service.port != Enumeration(p)[l].service.port
  {
    var q, r := EnumerationParts(p, k);
    var q', r' := EnumerationParts(p, l);
    PairsGrow(q, r, q', r', |p.services|);
    PartsAscend(p.ranges, p.services, q, r, q', r', Enumeration(p)[k], Enumeration(p)[l]);
  }

  lemma PositionsGrow(i: nat, j: nat, shard: nat, shards: nat)
    requires shard < shards && i < j
    ensures i * shards + shard < j * shards + shard
  {
    assert (j - i) * shards > 0;
  }

  /** Each shard's target file stays sorted, and its endpoints distinct. */
  lemma ShardSorted(p: PreparedTargets, shard: nat, shards: nat)
    requires p.Valid() && shard < shards
    ensures SortedByIp(Shard(Enumeration(p), shard, shards))
    ensures DistinctPorts(Shard(Enumeration(p), shard, shards))
  {
    var es := Shard(Enumeration(p), shard, shards);
    forall i, j | 0 <= i < j < |es|
      ensures es[i].ip <= es[j].ip && (es[i].ip != es[j].ip || es[i].service.port != es[j].service.port)
    {
      EnumerateLength(Addresses(p.ranges), p.services);
      ShardAt(Enumeration(p), shard, shards, i);
      ShardAt(Enumeration(p), shard, shards, j);
      PositionsGrow(i, j, shard, shards);
      EnumerationSorted(p, i * shards + shard, j * shards + shard);
    }
  }

  /**
   A lookup in shard `s` answers position `i` iff endpoint `i * shards + s` of the enumeration has that address
   and port.
   */
  lemma LookupIff(p: PreparedTargets, shard: nat, shards: nat, ip: u32, port: u16, i: nat)
    requires p.Valid() && shard < shards
    ensures |Enumeration(p)| == p.EndpointCount() && 0 <= i * shards + shard
    ensures Lookup(Shard(Enumeration(p), shard, shards), ip, port) == Some(i)
       <==> i * shards + shard < p.EndpointCount() && Matches(Enumeration(p)[i * shards + shard], ip, port)
  {
    EnumerateLength(Addresses(p.ranges), p.services);
    ShardSorted(p, shard, shards);
    PositionIff(Enumeration(p), shard, shards, ip, port, i);
  }

  lemma PositionIff(all: seq<Endpoint>, shard: nat, shards: nat, ip: u32, port: u16, i: nat)
    requires shard < shards && DistinctPorts(Shard(all, shard, shards))
    ensures 0 <= i * shards + shard
    ensures Lookup(Shard(all, shard, shards), ip, port) == Some(i)
       <==> i * shards + shard < |all| && Matches(all[i * shards + shard], ip, port)
  {
    var es, k := Shard(all, shard, shards), i * shards + shard;
    if i < |es| { ShardAt(all, shard, shards, i); }
    if k < |all| {
      DivModOf(i, shards, shard);
      ShardHolds(all, k, shards);
      if Matches(es[i], ip, port) { LookupFirst(es, ip, port, i); }
    }
  }

  /** So endpoint `k` is found in shard `k % shards`, at `k / shards`, and in no other. */
  lemma FoundInOneShard(p: PreparedTargets, k: nat, shard: nat, shards: nat)
    requires p.Valid() && k < p.EndpointCount() && shard < shards
    ensures |Enumeration(p)| == p.EndpointCount()
    ensures
      var e := Enumeration(p)[k];
      Lookup(Shard(Enumeration(p), shard, shards), e.ip, e.service.port)
        == if InShard(k, shard, shards) then Some(k / shards) else None
  {
    EnumerateLength(Addresses(p.ranges), p.services);
    var e := Enumeration(p)[k];
    SplitIndex(k, 0, shards);
    if InShard(k, shard, shards) {
      LookupIff(p, shard, shards, e.ip, e.service.port, k / shards);
    } else {
      NotElsewhere(p, k, shard, shards);
    }
  }

  lemma NotElsewhere(p: PreparedTargets, k: nat, shard: nat, shards: nat)
    requires p.Valid() && k < p.EndpointCount() && shard < shards && !InShard(k, shard, shards)
    ensures |Enumeration(p)| == p.EndpointCount()
    ensures Lookup(Shard(Enumeration(p), shard, shards), Enumeration(p)[k].ip, Enumeration(p)[k].service.port) == None
  {
    EnumerateLength(Addresses(p.ranges), p.services);
    var e := Enumeration(p)[k];
    var r := Lookup(Shard(Enumeration(p), shard, shards), e.ip, e.service.port);
    if r.Some? {
      var l := r.value * shards + shard;
      LookupIff(p, shard, shards, e.ip, e.service.port, r.value);
      DivModOf(r.value, shards, shard);
      if k < l { EnumerationSorted(p, k, l); } else { EnumerationSorted(p, l, k); }
      assert false;
    }
  }
}
