/**
 Numbering of endpoints: addresses in range order, and for each address the configured
 services in order.
 */
module Endpoints {
  import opened Words
  import opened Targets
  import Bits

  datatype Protocol = Ssh | Ftp | Mysql | Smtp | Redis | Postgres

  function ProtocolCode(p: Protocol): u8 {
    match p
    case Ssh => 1
    case Ftp => 2
    case Mysql => 3
    case Smtp => 4
    case Redis => 5
    case Postgres => 6
  }

  datatype Service = Service(port: u16, protocol: Protocol)

  datatype Endpoint = Endpoint(ip: u32, service: Service)

  function Length(r: Ipv4Range): nat
    requires r.start <= r.end
  {
    r.end - r.start + 1
  }

  /** `count`. */
  function Count(rs: seq<Ipv4Range>): nat
    requires Proper(rs)
  {
    if rs == [] then 0 else Length(rs[0]) + Count(rs[1..])
  }

  /** `iter`: every address, in range order. */
  function Addresses(rs: seq<Ipv4Range>): (ips: seq<u32>)
    requires Proper(rs)
    ensures |ips| == Count(rs)
  {
    if rs == [] then [] else
      seq(Length(rs[0]), i requires 0 <= i < Length(rs[0]) => rs[0].start + i) + Addresses(rs[1..])
  }

  /** The address with number `index`. */
  function NthIp(rs: seq<Ipv4Range>, index: nat): Option<u32>
    requires Proper(rs)
  {
    if rs == [] then None
    else if index < Length(rs[0]) then Some(rs[0].start + index)
    else NthIp(rs[1..], index - Length(rs[0]))
  }

  /** The number of an address. */
  function IpIndex(rs: seq<Ipv4Range>, ip: u32): Option<nat>
    requires Proper(rs)
  {
    if rs == [] then None
    else if rs[0].start <= ip <= rs[0].end then Some(ip - rs[0].start)
    else match IpIndex(rs[1..], ip)
      case None => None
      case Some(i) => Some(Length(rs[0]) + i)
  }

  /** `nth_ip`, which walks the ranges with a shrinking index. */
  method NthIpLoop(rs: seq<Ipv4Range>, index: nat) returns (r: Option<u32>)
    requires Proper(rs)
    ensures r == NthIp(rs, index)
    ensures r == if index < Count(rs) then Some(Addresses(rs)[index]) else None
  {
    NthIpEnumerates(rs, index);
    var rest := index;
    for i := 0 to |rs|
      invariant NthIp(rs, index) == NthIp(rs[i..], rest)
    {
      assert rs[i..][1..] == rs[i + 1..];
      assert rs[i] in rs;
      var len := Length(rs[i]);
      if rest < len {
        return Some(rs[i].start + rest);
      }
      rest := rest - len;
    }
    return None;
  }

  /** `ip_index`, which walks the ranges with a growing base. */
  method IpIndexLoop(rs: seq<Ipv4Range>, ip: u32) returns (r: Option<nat>)
    requires Proper(rs)
    ensures r == IpIndex(rs, ip)
  {
    var base := 0;
    for i := 0 to |rs|
      invariant IpIndex(rs, ip) == match IpIndex(rs[i..], ip) case None => None case Some(k) => Some(base + k)
    {
      assert rs[i..][1..] == rs[i + 1..];
      assert rs[i] in rs;
      if rs[i].start <= ip <= rs[i].end {
        return Some(base + (ip - rs[i].start));
      }
      base := base + Length(rs[i]);
    }
    return None;
  }

  lemma {:induction false} NthIpEnumerates(rs: seq<Ipv4Range>, index: nat)
    requires Proper(rs)
    ensures NthIp(rs, index) == if index < Count(rs) then Some(Addresses(rs)[index]) else None
  {
    if rs != [] && index >= Length(rs[0]) {
      NthIpEnumerates(rs[1..], index - Length(rs[0]));
    }
  }

  /** Every enumerated address is one of the denoted ones. */
  lemma {:induction false} AddressCovered(rs: seq<Ipv4Range>, i: nat)
    requires Normal(rs) && i < Count(rs)
    ensures rs[0].start <= Addresses(rs)[i] && Covers(rs, Addresses(rs)[i])
  {
    var n := Length(rs[0]);
    assert rs == [rs[0]] + rs[1..];
    CoversAppend([rs[0]], rs[1..], Addresses(rs)[i]);
    CoversOne(rs[0], Addresses(rs)[i]);
    if i >= n {
      AddressCovered(rs[1..], i - n);
    }
  }

  /** Addresses come out in strictly ascending order. */
  lemma {:induction false} AddressesAscend(rs: seq<Ipv4Range>, i: nat, j: nat)
    requires Normal(rs) && i < j < Count(rs)
    ensures Addresses(rs)[i] < Addresses(rs)[j]
  {
    var n, rest := Length(rs[0]), rs[1..];
    AddressAt(rs, i);
    AddressAt(rs, j);
    if i >= n {
      AddressesAscend(rest, i - n, j - n);
    } else if j >= n {
      AddressCovered(rest, j - n);
      HeadBelowRest(rs, Addresses(rest)[j - n]);
    }
  }

  lemma HeadBelowRest(rs: seq<Ipv4Range>, ip: int)
    requires Normal(rs) && rs != [] && Covers(rs[1..], ip)
    ensures rs[0].start + Length(rs[0]) <= ip
  {
  }

  lemma AddressAt(rs: seq<Ipv4Range>, i: nat)
    requires Proper(rs) && i < Count(rs)
    ensures Addresses(rs)[i] == if i < Length(rs[0]) then rs[0].start + i else Addresses(rs[1..])[i - Length(rs[0])]
  {
  }

  lemma NthIpAscends(rs: seq<Ipv4Range>, i: nat, j: nat)
    requires Normal(rs) && i < j && NthIp(rs, i).Some? && NthIp(rs, j).Some?
    ensures NthIp(rs, i).value < NthIp(rs, j).value
  {
    NthIpEnumerates(rs, i);
    NthIpEnumerates(rs, j);
    AddressesAscend(rs, i, j);
  }

  lemma CoversHead(rs: seq<Ipv4Range>, ip: int)
    requires rs != []
    ensures Covers(rs, ip) <==> rs[0].Has(ip) || Covers(rs[1..], ip)
  {
    assert rs == [rs[0]] + rs[1..];
    CoversAppend([rs[0]], rs[1..], ip);
    CoversOne(rs[0], ip);
  }

  /** `ip_index` inverts `nth_ip` on every address of a normal list, and rejects all others. */
  lemma {:induction false} IpIndexInverts(rs: seq<Ipv4Range>, ip: u32)
    requires Normal(rs)
    ensures IpIndex(rs, ip).Some? <==> Covers(rs, ip)
    ensures IpIndex(rs, ip).Some? ==> NthIp(rs, IpIndex(rs, ip).value) == Some(ip)
  {
    if rs != [] {
      CoversHead(rs, ip);
      IpIndexInverts(rs[1..], ip);
    }
  }

  lemma NthIpInverts(rs: seq<Ipv4Range>, index: nat)
    requires Normal(rs)
    ensures NthIp(rs, index).Some? <==> index < Count(rs)
    ensures NthIp(rs, index).Some? ==> IpIndex(rs, NthIp(rs, index).value) == Some(index)
  {
    NthIpEnumerates(rs, index);
    if index < Count(rs) {
      AddressCovered(rs, index);
      NthIpCovered(rs, index, NthIp(rs, index).value);
    }
  }

  lemma NthIpCovered(rs: seq<Ipv4Range>, index: nat, ip: u32)
    requires Normal(rs) && NthIp(rs, index) == Some(ip) && Covers(rs, ip)
    ensures IpIndex(rs, ip) == Some(index)
  {
    IpIndexInverts(rs, ip);
    NthIpDistinct(rs, IpIndex(rs, ip).value, index, ip);
  }

  lemma NthIpDistinct(rs: seq<Ipv4Range>, i: nat, j: nat, ip: u32)
    requires Normal(rs) && NthIp(rs, i) == Some(ip) && NthIp(rs, j) == Some(ip)
    ensures i == j
  {
    if i < j { NthIpAscends(rs, i, j); }
    if j < i { NthIpAscends(rs, j, i); }
  }

  /** The target set as coordinator and workers rebuild it from a configuration. */
  datatype PreparedTargets = PreparedTargets(ranges: seq<Ipv4Range>, services: seq<Service>) {
    /** Ranges as `filter_allowed` returns them; ports as configuration validation leaves them. */
    predicate Valid() {
      && Normal(ranges)
      && ranges != []
      && services != []
      && DistinctServicePorts(services)
    }

    function EndpointCount(): nat
      requires Proper(ranges)
    {
      Count(ranges) * |services|
    }

    function EndpointAt(index: nat): Option<Endpoint>
      requires Proper(ranges)
    {
      var n := |services|;
      if n == 0 || index >= EndpointCount() then None else
      match NthIp(ranges, index / n)
      case None => None
      case Some(ip) => Some(Endpoint(ip, services[index % n]))
    }

    function EndpointIndex(ip: u32, service: Service): Option<nat>
      requires Proper(ranges)
    {
      match IpIndex(ranges, ip)
      case None => None
      case Some(host) =>
        match Position(services, service)
        case None => None
        case Some(s) => Some(host * |services| + s)
    }
  }

  /** Target sets that passed configuration checks. */
  type ScanTargets = p: PreparedTargets | p.Valid() witness PreparedTargets([Ipv4Range(0, 0)], [Service(1, Ssh)])

  /** `iter().position(..)`: the first service with this port and protocol. */
  function Position(services: seq<Service>, service: Service): (r: Option<nat>)
    ensures r.Some? ==> r.value < |services| && services[r.value] == service
    ensures r.None? ==> service !in services
  {
    if services == [] then None
    else if services[0] == service then Some(0)
    else match Position(services[1..], service)
      case None => None
      case Some(i) => Some(i + 1)
  }

  lemma DivModOf(q: nat, s: nat, r: nat)
    requires r < s
    ensures (q * s + r) / s == q && (q * s + r) % s == r
  {
    Bits.ModUnique(q * s + r, s, q, r);
  }

  lemma ProductBound(q: nat, r: nat, h: nat, s: nat)
    requires r < s
    ensures q * s + r < h * s <==> q < h
  {
    if q < h { assert (q + 1) * s <= h * s; } else { assert q * s >= h * s; }
  }

  /** Splitting an index by the service count, the inverse of `DivModOf`. */
  lemma SplitIndex(index: nat, h: nat, s: nat)
    requires s > 0
    ensures index / s * s + index % s == index
    ensures index < h * s <==> index / s < h
  {
    ProductBound(index / s, index % s, h, s);
  }

  /** Every index below the count names exactly one endpoint, and that endpoint's index is it. */
  lemma IndexOfEndpointAt(p: PreparedTargets, index: nat)
    requires p.Valid()
    ensures p.EndpointAt(index).Some? <==> index < p.EndpointCount()
    ensures p.EndpointAt(index).Some? ==>
      var e := p.EndpointAt(index).value; p.EndpointIndex(e.ip, e.service) == Some(index)
  {
    var n := |p.services|;
    SplitIndex(index, Count(p.ranges), n);
    NthIpInverts(p.ranges, index / n);
    if index < p.EndpointCount() {
      var s := Position(p.services, p.services[index % n]).value;
      assert s == index % n by { assert p.services[s] == p.services[index % n]; }
    }
  }

  /** Whatever `endpoint_index` answers is below the count and names that very endpoint. */
  lemma EndpointAtOfIndex(p: PreparedTargets, ip: u32, service: Service)
    requires p.Valid()
    ensures p.EndpointIndex(ip, service).Some? <==> Covers(p.ranges, ip) && service in p.services
    ensures p.EndpointIndex(ip, service).Some? ==>
      && p.EndpointIndex(ip, service).value < p.EndpointCount()
      && p.EndpointAt(p.EndpointIndex(ip, service).value) == Some(Endpoint(ip, service))
  {
    IpIndexInverts(p.ranges, ip);
    if p.EndpointIndex(ip, service).Some? {
      var host := IpIndex(p.ranges, ip).value;
      var s := Position(p.services, service).value;
      NthIpEnumerates(p.ranges, host);
      DivModOf(host, |p.services|, s);
      ProductBound(host, s, Count(p.ranges), |p.services|);
    }
  }

  /** The nested loop over addresses and services. */
  function Enumerate(ips: seq<u32>, services: seq<Service>): seq<Endpoint> {
    if ips == [] then []
    else
      seq(|services|, k requires 0 <= k < |services| => Endpoint(ips[0], services[k]))
      + Enumerate(ips[1..], services)
  }

  lemma {:induction false} EnumerateLength(ips: seq<u32>, services: seq<Service>)
    ensures |Enumerate(ips, services)| == |ips| * |services|
  {
    if ips != [] {
      EnumerateLength(ips[1..], services);
      assert |ips| * |services| == |services| + (|ips| - 1) * |services|;
    }
  }

  lemma {:induction false} EnumerateAt(ips: seq<u32>, services: seq<Service>, q: nat, s: nat)
    requires q < |ips| && s < |services|
    ensures 0 <= q * |services| + s < |Enumerate(ips, services)|
    ensures Enumerate(ips, services)[q * |services| + s] == Endpoint(ips[q], services[s])
  {
    var n := |services|;
    EnumerateLength(ips, services);
    ProductBound(q, s, |ips|, n);
    if q > 0 {
      var k, rest := (q - 1) * n + s, ips[1..];
      assert q * n + s == n + k;
      EnumerateAt(rest, services, q - 1, s);
      assert Enumerate(ips, services)[n + k] == Enumerate(rest, services)[k];
    }
  }

  function Enumeration(p: PreparedTargets): seq<Endpoint>
    requires Proper(p.ranges)
  {
    Enumerate(Addresses(p.ranges), p.services)
  }

  /** The arithmetic numbering agrees with the nested enumeration order. */
  lemma EndpointAtEnumerates(p: PreparedTargets, index: nat)
    requires p.Valid() && index < p.EndpointCount()
    ensures |Enumeration(p)| == p.EndpointCount()
    ensures p.EndpointAt(index) == Some(Enumeration(p)[index])
  {
    var n := |p.services|;
    EnumerateLength(Addresses(p.ranges), p.services);
    SplitIndex(index, Count(p.ranges), n);
    NthIpEnumerates(p.ranges, index / n);
    var q, s := index / n, index % n;
    EnumerateAt(Addresses(p.ranges), p.services, q, s);
  }

  /** At most 2^32 addresses and 2^16 ports: the saturating product in `from_config` is exact. */
  lemma EndpointCountBound(p: PreparedTargets)
    requires p.Valid()
    ensures 0 < p.EndpointCount() <= 0x1_0000_0000_0000
  {
    CountBound(p.ranges);
    ServicesBound(p.services);
    assert Length(p.ranges[0]) > 0;
    ProductUpTo(Count(p.ranges), |p.services|, 0x1_0000_0000, 0x1_0000);
  }

  lemma ServicesBound(services: seq<Service>)
    requires DistinctServicePorts(services)
    ensures |services| <= 0x1_0000
  {
    var ports: seq<int> := seq(|services|, i requires 0 <= i < |services| => services[i].port);
    assert Distinct(ports);
    Pigeonhole(ports, 0, 0x1_0000);
  }

  lemma ProductUpTo(a: nat, b: nat, c: nat, d: nat)
    requires 0 < a <= c && 0 < b <= d
    ensures 0 < a * b <= c * d
  {
    assert a * b <= c * b <= c * d;
  }

  lemma {:induction false} CountBound(rs: seq<Ipv4Range>)
    requires Normal(rs)
    ensures rs == [] ==> Count(rs) == 0
    ensures rs != [] ==> Count(rs) <= 0x1_0000_0000 - rs[0].start
  {
    if rs != [] { CountBound(rs[1..]); }
  }

  ghost predicate DenotesTargets(p: PreparedTargets, includes: seq<Entry>, excludes: seq<Entry>, allowPrivate: bool) {
    forall x: u32 :: Covers(p.ranges, x) <==> Targeted(includes, excludes, allowPrivate, x)
  }

  ghost predicate NothingTargeted(includes: seq<Entry>, excludes: seq<Entry>, allowPrivate: bool) {
    forall x: u32 :: !Targeted(includes, excludes, allowPrivate, x)
  }

  /** The targets number more than the configured ceiling. */
  ghost predicate TooMany(
      includes: seq<Entry>, excludes: seq<Entry>, allowPrivate: bool, services: seq<Service>, maxTargets: nat)
  {
    exists p: PreparedTargets :: IsTooMany(p, includes, excludes, allowPrivate, services, maxTargets)
  }

  ghost predicate IsTooMany(
      p: PreparedTargets, includes: seq<Entry>, excludes: seq<Entry>, allowPrivate: bool, services: seq<Service>,
      maxTargets: nat)
  {
    IsPrepared(p, includes, excludes, allowPrivate, services) && p.EndpointCount() > maxTargets
  }

  /** There is only one way to prepare the targets, so counting them decides. */
  lemma TooManyIff(
      p: PreparedTargets, includes: seq<Entry>, excludes: seq<Entry>, allowPrivate: bool, services: seq<Service>,
      maxTargets: nat)
    requires IsPrepared(p, includes, excludes, allowPrivate, services)
    ensures TooMany(includes, excludes, allowPrivate, services, maxTargets) <==> p.EndpointCount() > maxTargets
  {
    if q: PreparedTargets :| IsTooMany(q, includes, excludes, allowPrivate, services, maxTargets) {
      assert SameCover(p.ranges, q.ranges) by {
        forall x ensures Covers(p.ranges, x) <==> Covers(q.ranges, x) {
          if 0 <= x < 0x1_0000_0000 { assert Covers(p.ranges, x as u32) <==> Covers(q.ranges, x as u32); }
        }
      }
      NumberingCanonical(p, q);
    }
    if p.EndpointCount() > maxTargets {
      assert IsTooMany(p, includes, excludes, allowPrivate, services, maxTargets);
    }
  }

  lemma SomethingTargeted(p: PreparedTargets, includes: seq<Entry>, excludes: seq<Entry>, allowPrivate: bool)
    requires Proper(p.ranges) && DenotesTargets(p, includes, excludes, allowPrivate)
    ensures NothingTargeted(includes, excludes, allowPrivate) <==> p.ranges == []
  {
    if p.ranges != [] {
      var r := p.ranges[0];
      assert r in p.ranges && r.Has(r.start);
      assert Covers(p.ranges, r.start);
    }
  }

  /** `from_config` after the files are parsed; `maxTargets` is the configured ceiling. */
  method FromConfig(
      includes: seq<Entry>, excludes: seq<Entry>, allowPrivate: bool, services: seq<Service>, maxTargets: nat)
    returns (r: Result<PreparedTargets, string>)
    requires services != [] && DistinctServicePorts(services)
    ensures r.Ok? ==>
      IsPrepared(r.value, includes, excludes, allowPrivate, services) && r.value.EndpointCount() <= maxTargets
    ensures r.Err? <==> ConfigFails(includes, excludes, allowPrivate, services, maxTargets)
  {
    var ranges := PrepareRanges(includes, excludes, allowPrivate);
    if ranges.Err? { return Err(ranges.error); }
    var prepared := PreparedTargets(ranges.value, services);
    assert DenotesTargets(prepared, includes, excludes, allowPrivate);
    SomethingTargeted(prepared, includes, excludes, allowPrivate);
    if ranges.value == [] { return Err("target set is empty after exclusions and safety policy"); }
    EndpointCountBound(prepared);
    TooManyIff(prepared, includes, excludes, allowPrivate, services, maxTargets);
    var count := Min(prepared.EndpointCount(), 0xffff_ffff_ffff_ffff);
    if count > maxTargets { return Err("target count exceeds max_targets"); }
    return Ok(prepared);
  }

  predicate DistinctServicePorts(services: seq<Service>) {
    forall i, j | 0 <= i < j < |services| :: services[i].port != services[j].port
  }

  /** The targets as prepared from these files. */
  ghost predicate IsPrepared(
      p: PreparedTargets, includes: seq<Entry>, excludes: seq<Entry>, allowPrivate: bool, services: seq<Service>)
  {
    p.Valid() && p.services == services && DenotesTargets(p, includes, excludes, allowPrivate)
  }

  /** A malformed file, no target left, or too many of them. */
  ghost predicate ConfigFails(
      includes: seq<Entry>, excludes: seq<Entry>, allowPrivate: bool, services: seq<Service>, maxTargets: nat)
  {
    || !WellFormed(includes)
    || !WellFormed(excludes)
    || NothingTargeted(includes, excludes, allowPrivate)
    || TooMany(includes, excludes, allowPrivate, services, maxTargets)
  }

  /** What `from_config` feeds to the target digest. */
  function DigestBytes(es: seq<Endpoint>): seq<u8> {
    if es == [] then [] else DigestRecord(es[0]) + DigestBytes(es[1..])
  }

  function DigestRecord(e: Endpoint): (b: seq<u8>)
    ensures |b| == 7
  {
    Be32(e.ip) + Be16(e.service.port) + [ProtocolCode(e.service.protocol)]
  }

  /** No two endpoint lists are fed to the digest as the same bytes. */
  lemma {:induction false} DigestInjective(a: seq<Endpoint>, b: seq<Endpoint>)
    requires DigestBytes(a) == DigestBytes(b)
    ensures a == b
  {
    if a != [] && b != [] {
      var x, y := DigestBytes(a), DigestBytes(b);
      assert x[..7] == DigestRecord(a[0]) && x[7..] == DigestBytes(a[1..]);
      assert y[..7] == DigestRecord(b[0]) && y[7..] == DigestBytes(b[1..]);
      RecordInjective(a[0], b[0]);
      DigestInjective(a[1..], b[1..]);
      assert a == [a[0]] + a[1..] && b == [b[0]] + b[1..];
    }
  }

  lemma RecordInjective(d: Endpoint, e: Endpoint)
    requires DigestRecord(d) == DigestRecord(e)
    ensures d == e
  {
    var x, y := DigestRecord(d), DigestRecord(e);
    assert x[..4] == Be32(d.ip) && x[4..6] == Be16(d.service.port) && x[6] == ProtocolCode(d.service.protocol);
    assert y[..4] == Be32(e.ip) && y[4..6] == Be16(e.service.port) && y[6] == ProtocolCode(e.service.protocol);
    Be32RoundTrip(d.ip);
    Be32RoundTrip(e.ip);
    Be16RoundTrip(d.service.port);
    Be16RoundTrip(e.service.port);
  }

  /** However the target files order, overlap or split the addresses, equal sets get equal numberings and digests. */
  lemma NumberingCanonical(p: PreparedTargets, q: PreparedTargets)
    requires p.Valid() && q.Valid() && p.services == q.services && SameCover(p.ranges, q.ranges)
    ensures p == q
    ensures DigestBytes(Enumeration(p)) == DigestBytes(Enumeration(q))
  {
    NormalFormUnique(p.ranges, q.ranges);
  }
}
