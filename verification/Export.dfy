/**
 Exporting every endpoint of a finished scan: rows for those no banner event mentions, and what
 their attempt counts mean.
 */
module Export {
  import opened Words
  import opened Endpoints
  import opened Results
  import opened Replies
  import opened ScanFiles
  import Shards
  import opened Rounds

  /** An exported row, without the columns a synthesized row leaves empty; rows are keyed by endpoint. */
  datatype Row = Row(state: TargetState, synAttempts: nat, rttUs: Option<u32>, conflicting: u32, fromEvent: bool)

  /** The row `synthesize_missing_results` makes of an endpoint's bytes. */
  function Synthesized(c: Cell, attempts: nat): Words.Result<Row, string> {
    match DecodeStateByte(c.state)
    case Err(e) => Err(e)
    case Ok((state, observed)) =>
      Ok(Row(state, if state == NoResponse then attempts else observed, DecodeRtt(c.rtt), c.conflicts, false))
  }

  /** `or_insert_with`. */
  function OrInsert(rows: map<Endpoint, Row>, e: Endpoint, row: Row): map<Endpoint, Row> {
    if e in rows then rows else rows[e := row]
  }

  /** Every endpoint below `n` has a row: its event's if there was one, the synthesized one otherwise. */
  ghost predicate Filled(
      events: map<Endpoint, Row>, rows: map<Endpoint, Row>, es: seq<Endpoint>, cs: seq<Cell>, attempts: nat, n: nat)
    requires n <= |es| == |cs|
  {
    && (forall e :: e in rows <==> e in events || e in es[..n])
    && (forall e | e in events :: e in rows && rows[e] == events[e])
    && (forall i | 0 <= i < n && es[i] !in events :: es[i] in rows && Synthesized(cs[i], attempts) == Ok(rows[es[i]]))
  }

  predicate Decodable(cs: seq<Cell>) {
    forall i | 0 <= i < |cs| :: DecodeStateByte(cs[i].state).Ok?
  }

  /** `synthesize_missing_results` over the job's files. */
  method SynthesizeMissing(files: ScanBuffers, meta: Meta, attempts: nat, degraded: bool, events: map<Endpoint, Row>)
    returns (r: Words.Result<map<Endpoint, Row>, string>)
    requires files.Valid()
    ensures r.Err? <==> meta.round < attempts || degraded || !Decodable(files.Cells())
    ensures r.Ok? ==> Filled(events, r.value, files.es, files.Cells(), attempts, |files.es|)
  {
    if meta.round < attempts { return Err("cannot export all targets before the scan has completed"); }
    if degraded { return Err("cannot export all targets from a degraded scan"); }
    var rows := events;
    ghost var es, cs := files.es, files.Cells();
    for i := 0 to files.states.Length
      invariant Filled(events, rows, es, cs, attempts, i)
      invariant Decodable(cs[..i]) && files.Cells() == cs
    {
      var endpoint, row := ReadRecord(files, i, attempts);
      if row.Err? {
        assert DecodeStateByte(cs[i].state).Err?;
        return Err(row.error);
      }
      assert cs[..i + 1] == cs[..i] + [cs[i]];
      FilledStep(events, rows, es, cs, attempts, i, row.value);
      rows := OrInsert(rows, endpoint, row.value);
    }
    assert es[..|es|] == es && cs[..|es|] == cs;
    return Ok(rows);
  }

  /** One record of each file. */
  method ReadRecord(files: ScanBuffers, i: nat, attempts: nat)
    returns (endpoint: Endpoint, row: Words.Result<Row, string>)
    requires files.Valid() && i < |files.es|
    ensures endpoint == files.es[i] && row == Synthesized(files.Cells()[i], attempts)
  {
    endpoint := EndpointOf(files.targets, files.ports, files.protocols, i);
    EndpointReadsBack(files.es, i);
    var cell := Cell(files.states[i], files.sentTimes[i], files.rtts[i], files.conflicts[i], files.banners[i]);
    row := Synthesized(cell, attempts);
  }

  lemma FilledStep(
      events: map<Endpoint, Row>, rows: map<Endpoint, Row>, es: seq<Endpoint>, cs: seq<Cell>, attempts: nat, i: nat,
      row: Row)
    requires i < |es| == |cs| && Shards.DistinctPorts(es)
    requires Filled(events, rows, es, cs, attempts, i) && Synthesized(cs[i], attempts) == Ok(row)
    ensures Filled(events, OrInsert(rows, es[i], row), es, cs, attempts, i + 1)
  {
    assert es[..i + 1] == es[..i] + [es[i]];
    assert es[i] !in es[..i] by {
      assert forall k | 0 <= k < i :: es[k] != es[i];
    }
  }

  lemma {:induction false} UnheardIsUntouched(c: Cell, es: seq<Event>)
    requires Heards(es) == []
    ensures Final(c, es).state == c.state
  {
    if es != [] { UnheardIsUntouched(c, es[..|es| - 1]); }
  }

  lemma {:induction false} HeardsAreReal(c: Cell, es: seq<Event>)
    requires EventsOk(c, es)
    ensures forall i | 0 <= i < |Heards(es)| :: Heards(es)[i].state != NoResponse
  {
    if es != [] { HeardsAreReal(c, es[..|es| - 1]); }
  }

  /**
   What the attempts column of a synthesized row means, for every run of a scan that began with blank files:
   for an endpoint that never answered, the SYNs it was sent, or fewer than that if processes crashed;
   for one that did, the attempt number, capped at 15, in which its final state first arrived, which is one of
   those configured.
   */
  lemma ExportedAttempts(plan: Plan, start: Job, steps: seq<Step>, i: nat) returns (k: nat)
    requires plan.Valid() && Fresh(plan, start) && Runs(plan, start, steps) && Completed(plan, End(plan, start, steps))
    requires i < |plan.order| && start.cells[i].Blank()
    ensures |End(plan, start, steps).cells| == |start.cells|
    ensures
      var end := End(plan, start, steps);
      var replies := Heards(EventsOf(plan, start, steps, i));
      var row := Synthesized(end.cells[i], plan.attempts);
      && row.Ok? && !row.value.fromEvent
      && row.value.rttUs == (if end.cells[i].rtt == 0 then None else Some(end.cells[i].rtt - 1))
      && row.value.conflicting == Min(Disagreements(replies), U32_MAX)
      && (replies == [] ==>
          row.value.state == NoResponse && row.value.synAttempts == plan.attempts <= SynsTo(end.wire, i, plan.attempts))
      && (replies == [] && Orderly(steps) ==> row.value.synAttempts == SynsTo(end.wire, i, plan.attempts))
      && (replies != [] ==>
          FirstHighest(replies, k) && row.value.state == replies[k].state
          && row.value.synAttempts == Min(replies[k].attempt, 15))
      && (replies != [] && plan.attempts >= 1 ==> 1 <= row.value.synAttempts <= plan.attempts)
  {
    var es := EventsOf(plan, start, steps, i);
    CellFollowsEvents(plan, start, steps, i);
    ConflictsCountDisagreements(start.cells[i], es);
    HeardsAreReal(start.cells[i], es);
    if Heards(es) == [] {
      k := 0;
      UnheardIsUntouched(start.cells[i], es);
      SilentAttempts(plan, start, steps, i);
    } else {
      k := StateIsFirstArrival(start.cells[i], es);
      if plan.attempts >= 1 { AttemptsInRange(plan, start, steps, i); }
    }
  }
}
