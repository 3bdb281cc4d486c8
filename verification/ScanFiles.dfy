/**
 The mapped files of a live scan and the operations that write them.  Words of the `u32` files
 are array elements here; their byte order inside the files is not modelled.
 */
module ScanFiles {
  import opened Words
  import opened Endpoints
  import opened Results
  import opened Shards
  import opened Attribution
  import opened Bits
  import opened Packets
  import opened Replies

  /** What the banner inspector is handed. */
  datatype OpenTarget = OpenTarget(index: nat, endpoint: Endpoint, attempts: nat, rttUs: Option<u32>, conflicting: u32)

  /** `decode_rtt_ms`, in microseconds. */
  function DecodeRtt(stored: u32): Option<u32> {
    if stored == 0 then None else Some(stored - 1)
  }

  function TargetOf(index: nat, endpoint: Endpoint, attempts: nat, c: Cell): OpenTarget {
    OpenTarget(index, endpoint, attempts, DecodeRtt(c.rtt), c.conflicts)
  }

  /** `protocol_from_code(..).unwrap_or(Ssh)`. */
  function ProtocolFromCode(code: u8): Protocol {
    match code
    case 2 => Ftp
    case 3 => Mysql
    case 4 => Smtp
    case 5 => Redis
    case 6 => Postgres
    case _ => Ssh
  }

  /** `target_ip` and `target_service`. */
  function EndpointOf(targets: seq<u8>, ports: seq<u8>, protocols: seq<u8>, i: nat): Endpoint
    requires 4 * i + 4 <= |targets| && 2 * i + 2 <= |ports| && i < |protocols|
  {
    Endpoint(TargetIp(targets, i), Service(TargetPort(ports, i), ProtocolFromCode(protocols[i])))
  }

  /** Endpoints read back from the job files as they were written. */
  lemma EndpointReadsBack(es: seq<Endpoint>, i: nat)
    requires i < |es|
    ensures EndpointOf(TargetBytes(es), PortBytes(es), ProtocolBytes(es), i) == es[i]
  {
    RecordsAt(es, i);
  }

  /** The cells once a captured packet is handled. */
  function HeedOne(run: Run, es: seq<Endpoint>, cs: seq<Cell>, data: seq<u8>, attempt: nat, now: u32): (r: seq<Cell>)
    requires |cs| == |es|
    ensures |r| == |es|
  {
    match PacketSeen(run, es, data)
    case None => cs
    case Some(seen) => cs[seen.index := Apply(cs[seen.index], Heard(Reply(seen.state, attempt, now)))]
  }

  function Heed(
      run: Run, es: seq<Endpoint>, cs: seq<Cell>, packets: seq<seq<u8>>, attempt: nat, now: u32): (r: seq<Cell>)
    requires |cs| == |es|
    ensures |r| == |es|
    decreases |packets|
  {
    if packets == [] then cs
      else Heed(run, es, HeedOne(run, es, cs, packets[0], attempt, now), packets[1..], attempt, now)
  }

  /** What a reply sends to the inspector. */
  function Handed(c: Cell, e: Endpoint, reply: Reply, index: nat): seq<OpenTarget> {
    if c.Opens(reply) && !c.Queued() then [TargetOf(index, e, reply.attempt, c.Observed(reply))] else []
  }

  function HandedOne(run: Run, es: seq<Endpoint>, cs: seq<Cell>, data: seq<u8>, attempt: nat, now: u32): seq<OpenTarget>
    requires |cs| == |es|
  {
    match PacketSeen(run, es, data)
    case None => []
    case Some(seen) => Handed(cs[seen.index], es[seen.index], Reply(seen.state, attempt, now), seen.index)
  }

  /** What captured packets send to the inspector, handled in order. */
  function HandedAll(
      run: Run, es: seq<Endpoint>, cs: seq<Cell>, packets: seq<seq<u8>>, attempt: nat, now: u32): seq<OpenTarget>
    requires |cs| == |es|
    decreases |packets|
  {
    if packets == [] then [] else
    HandedOne(run, es, cs, packets[0], attempt, now)
    + HandedAll(run, es, HeedOne(run, es, cs, packets[0], attempt, now), packets[1..], attempt, now)
  }

  lemma HeedStep(run: Run, es: seq<Endpoint>, cs: seq<Cell>, packets: seq<seq<u8>>, i: nat,
      queue: seq<OpenTarget>, attempt: nat, now: u32)
    requires |cs| == |es| && i < |packets|
    ensures Heed(run, es, cs, packets[i..], attempt, now)
         == Heed(run, es, HeedOne(run, es, cs, packets[i], attempt, now), packets[i + 1..], attempt, now)
    ensures queue + HandedAll(run, es, cs, packets[i..], attempt, now)
         == queue + HandedOne(run, es, cs, packets[i], attempt, now)
            + HandedAll(run, es, HeedOne(run, es, cs, packets[i], attempt, now), packets[i + 1..], attempt, now)
  {
    assert packets[i..][0] == packets[i] && packets[i..][1..] == packets[i + 1..];
  }

  /** Packets are seen as real replies of existing endpoints only. */
  lemma SeenIsReal(run: Run, es: seq<Endpoint>, data: seq<u8>)
    ensures PacketSeen(run, es, data).Some? ==>
      PacketSeen(run, es, data).value.index < |es| && PacketSeen(run, es, data).value.state != NoResponse
  {
  }

  /** From the wire back to the bytes: a SYN-ACK to an endpoint's SYN leaves exactly that endpoint open and queued. */
  lemma SynAckOpens(run: Run, es: seq<Endpoint>, cs: seq<Cell>, k: nat, p: SynPacket, attempt: nat, now: u32,
      link: seq<u8>, front: seq<u8>, options: seq<u8>, sequence: u32, flags: u8, rest: seq<u8>)
    requires DistinctPorts(es) && |cs| == |es| && k < |es| && run.IsSynFor(es[k], p)
    requires IsLink(link) && IsFront(front, options, 6) && |rest| >= 6
    requires Bit(flags, 1) && Bit(flags, 4) && Tight(cs[k])
    ensures
      var after := HeedOne(run, es, cs, ReplyPacket(link, front, options, p, sequence, flags, rest), attempt, now);
      after == cs[k := after[k]] && after[k].State() == Open && after[k].Queued()
  {
    TcpRoundTrip(run, es, k, p, link, front, options, sequence, flags, rest);
    StateOfEncoded(Open, attempt);
  }

  /** The first SYN-ACK of a probed endpoint hands it to the inspector with its attempt and round-trip time. */
  lemma SynAckHands(run: Run, es: seq<Endpoint>, cs: seq<Cell>, k: nat, p: SynPacket, attempt: nat, at: u32, now: u32,
      link: seq<u8>, front: seq<u8>, options: seq<u8>, sequence: u32, flags: u8, rest: seq<u8>)
    requires DistinctPorts(es) && |cs| == |es| && k < |es| && run.IsSynFor(es[k], p)
    requires IsLink(link) && IsFront(front, options, 6) && |rest| >= 6
    requires Bit(flags, 1) && Bit(flags, 4) && at != 0 && cs[k] == Cell(0, at, 0, 0, 0)
    ensures HandedOne(run, es, cs, ReplyPacket(link, front, options, p, sequence, flags, rest), attempt, now)
         == [OpenTarget(k, es[k], attempt, Some(Min(Elapsed(at, now) * 1000, U32_MAX - 1)), 0)]
  {
    TcpRoundTrip(run, es, k, p, link, front, options, sequence, flags, rest);
    WrappedIsElapsed(at, now);
  }

  class ScanBuffers {
    const targets: seq<u8>
    const ports: seq<u8>
    const protocols: seq<u8>
    const states: array<u8>
    const sentTimes: array<u32>
    const rtts: array<u32>
    const conflicts: array<u32>
    const banners: array<u8>
    var queue: seq<OpenTarget>
    ghost const es: seq<Endpoint>

    /** The files belong to one job: equal lengths, separate maps, sorted distinct endpoints. */
    ghost predicate Valid() {
      && targets == TargetBytes(es) && ports == PortBytes(es) && protocols == ProtocolBytes(es)
      && SortedByIp(es) && DistinctPorts(es)
      && states.Length == sentTimes.Length == rtts.Length == conflicts.Length == banners.Length == |es|
      && states != banners && sentTimes != rtts && rtts != conflicts && sentTimes != conflicts
    }

    ghost function Files(): set<object> {
      {states as object, sentTimes as object, rtts as object, conflicts as object, banners as object}
    }

    ghost function CellAt(i: nat): Cell
      requires Valid() && i < |es|
      reads Files()
    {
      Cell(states[i], sentTimes[i], rtts[i], conflicts[i], banners[i])
    }

    ghost function Cells(): (cs: seq<Cell>)
      requires Valid()
      reads Files()
      ensures |cs| == |es|
    {
      seq(|es|, i requires 0 <= i < |es| reads Files() => CellAt(i))
    }

    constructor (job: Job, ghost endpoints: seq<Endpoint>)
      requires job == JobOf(endpoints) && SortedByIp(endpoints) && DistinctPorts(endpoints)
      ensures Valid() && fresh(Files()) && es == endpoints && queue == []
      ensures forall i | 0 <= i < |es| :: Cells()[i] == Cell(0, 0, 0, 0, BANNER_NOT_QUEUED)
    {
      targets, ports, protocols := job.targets, job.ports, job.protocols;
      states := new u8[job.count](_ => 0);
      sentTimes := new u32[job.count](_ => 0);
      rtts := new u32[job.count](_ => 0);
      conflicts := new u32[job.count](_ => 0);
      banners := new u8[job.count](_ => 0);
      queue := [];
      es := endpoints;
    }

    /** `observe_response`. */
    method ObserveResponse(index: nat, reply: Reply) returns (turnedOpen: bool)
      requires Valid() && index < |es|
      modifies states, rtts, conflicts
      ensures Cells() == old(Cells())[index := old(Cells())[index].Observed(reply)]
      ensures turnedOpen == old(Cells())[index].Opens(reply)
    {
      var current := DecodedState(states[index]);
      if current != NoResponse && current != reply.state {
        conflicts[index] := SaturatingAdd(conflicts[index], 1);
      }
      var upgraded := false;
      if reply.state.Rank() > current.Rank() {
        states[index] := EncodeStateByte(reply.state, reply.attempt);
        upgraded := true;
      }
      if rtts[index] == 0 && sentTimes[index] != 0 {
        rtts[index] := SaturatingAdd(RttUs(reply.now, sentTimes[index]), 1);
      }
      return upgraded && reply.state == Open && current != Open;
    }

    /** `enqueue_banner`. */
    method EnqueueBanner(index: nat, attempts: nat)
      requires Valid() && index < |es|
      modifies this`queue, banners
      ensures Cells() == old(Cells())[index := old(Cells())[index].Enqueued()]
      ensures queue == old(queue) +
        if old(Cells())[index].Queued() then [] else [TargetOf(index, es[index], attempts, old(Cells())[index])]
    {
      if banners[index] == BANNER_DONE || banners[index] == BANNER_QUEUED { return; }
      banners[index] := BANNER_QUEUED;
      EndpointReadsBack(es, index);
      var endpoint := EndpointOf(targets, ports, protocols, index);
      queue := queue + [OpenTarget(index, endpoint, attempts, DecodeRtt(rtts[index]), conflicts[index])];
    }

    /** A reply that was attributed to an endpoint: note it, and queue the banner of one that turned open. */
    method HandleReply(index: nat, reply: Reply)
      requires Valid() && index < |es|
      modifies this`queue, Files()
      ensures Cells() == old(Cells())[index := Apply(old(Cells())[index], Heard(reply))]
      ensures queue == old(queue) + Handed(old(Cells())[index], es[index], reply, index)
    {
      var turnedOpen := ObserveResponse(index, reply);
      if turnedOpen {
        EnqueueBanner(index, reply.attempt);
      }
    }

    /** One captured packet. */
    method HandlePacket(run: Run, data: seq<u8>, attempt: nat, now: u32) returns (ghost heard: Option<(nat, Reply)>)
      requires Valid()
      modifies this`queue, Files()
      ensures heard == match PacketSeen(run, es, data)
        case None => None
        case Some(seen) => Some((seen.index, Reply(seen.state, attempt, now)))
      ensures heard.None? ==> Cells() == old(Cells()) && queue == old(queue)
      ensures heard.Some? ==> var (i, reply) := heard.value;
        && Cells() == old(Cells())[i := Apply(old(Cells())[i], Heard(reply))]
        && queue == old(queue) + Handed(old(Cells())[i], es[i], reply, i)
    {
      var seen := Attribute(run, targets, ports, data, es);
      match seen
      case None => heard := None;
      case Some(s) =>
        heard := Some((s.index, Reply(s.state, attempt, now)));
        HandleReply(s.index, Reply(s.state, attempt, now));
    }

    /** `receive`, over what the capture holds. */
    method Receive(run: Run, packets: seq<seq<u8>>, attempt: nat, now: u32)
      requires Valid()
      modifies this`queue, Files()
      ensures Cells() == Heed(run, es, old(Cells()), packets, attempt, now)
      ensures queue == old(queue) + HandedAll(run, es, old(Cells()), packets, attempt, now)
    {
      ghost var heeded := Heed(run, es, Cells(), packets, attempt, now);
      ghost var handed := queue + HandedAll(run, es, Cells(), packets, attempt, now);
      for i := 0 to |packets|
        invariant Heed(run, es, Cells(), packets[i..], attempt, now) == heeded
        invariant queue + HandedAll(run, es, Cells(), packets[i..], attempt, now) == handed
      {
        HeedStep(run, es, Cells(), packets, i, queue, attempt, now);
        TakePacket(run, packets[i], attempt, now);
      }
    }

    method TakePacket(run: Run, data: seq<u8>, attempt: nat, now: u32)
      requires Valid()
      modifies this`queue, Files()
      ensures Cells() == HeedOne(run, es, old(Cells()), data, attempt, now)
      ensures queue == old(queue) + HandedOne(run, es, old(Cells()), data, attempt, now)
    {
      ghost var heard := HandlePacket(run, data, attempt, now);
    }

    /** The stamp `prepare_syn_batch` leaves. */
    method Stamp(index: nat, at: u32)
      requires Valid() && index < |es|
      modifies sentTimes
      ensures Cells() == old(Cells())[index := Apply(old(Cells())[index], Probed(at))]
    {
      sentTimes[index] := at;
    }

    /** `enqueue_resume_banner_targets`. */
    method EnqueueResumeBanners()
      requires Valid()
      modifies this`queue, banners
      ensures forall i | 0 <= i < |es| :: Cells()[i] == old(Cells())[i].Resumed()
      ensures queue == old(queue) + ResumeTargets(old(Cells()), es)
    {
      ghost var before := Cells();
      assert before[..0] == [] && es[..0] == [];
      for index := 0 to states.Length
        invariant ResumedBelow(before, Cells(), index)
        invariant queue == old(queue) + ResumeTargets(before[..index], es[..index])
      {
        ResumeTargetsStep(before, es, index);
        ResumedStep(before, Cells(), index);
        ResumeOne(index);
      }
      assert before[..|es|] == before && es[..|es|] == es;
    }

    /** One turn of its loop. */
    method ResumeOne(index: nat)
      requires Valid() && index < |es|
      modifies this`queue, banners
      ensures Cells() == old(Cells())[index := old(Cells())[index].Resumed()]
      ensures queue == old(queue) + ResumeTarget(old(Cells())[index], es[index], index)
    {
      var decoded := DecodeStateByte(states[index]);
      if decoded.Err? { return; }
      var (state, attempts) := decoded.value;
      if state != Open || banners[index] == BANNER_DONE { return; }
      banners[index] := BANNER_QUEUED;
      EndpointReadsBack(es, index);
      var endpoint := EndpointOf(targets, ports, protocols, index);
      queue := queue + [OpenTarget(index, endpoint, attempts, DecodeRtt(rtts[index]), conflicts[index])];
    }
  }

  /** The cells part way through the pass. */
  predicate ResumedBelow(before: seq<Cell>, cells: seq<Cell>, index: nat) {
    |cells| == |before| && forall i | 0 <= i < |cells| ::
      cells[i] == if i < index then before[i].Resumed() else before[i]
  }

  lemma ResumedStep(before: seq<Cell>, cells: seq<Cell>, index: nat)
    requires index < |cells| && ResumedBelow(before, cells, index)
    ensures cells[index] == before[index]
    ensures ResumedBelow(before, cells[index := cells[index].Resumed()], index + 1)
  {
  }

  /** What the resume pass sends, in index order: every open endpoint whose banner is not done. */
  function ResumeTargets(cs: seq<Cell>, es: seq<Endpoint>): seq<OpenTarget>
    requires |cs| == |es|
  {
    if cs == [] then [] else
    var i := |cs| - 1;
    ResumeTargets(cs[..i], es[..i]) + ResumeTarget(cs[i], es[i], i)
  }

  function ResumeTarget(c: Cell, e: Endpoint, i: nat): seq<OpenTarget> {
    if c.Resumes() then [TargetOf(i, e, StoredAttempts(c), c)] else []
  }

  function StoredAttempts(c: Cell): nat { c.state / 16 }

  lemma ResumeTargetsStep(cs: seq<Cell>, es: seq<Endpoint>, i: nat)
    requires i < |cs| == |es|
    ensures ResumeTargets(cs[..i + 1], es[..i + 1])
         == ResumeTargets(cs[..i], es[..i]) + ResumeTarget(cs[i], es[i], i)
  {
    assert cs[..i + 1][..i] == cs[..i] && es[..i + 1][..i] == es[..i];
  }
}
