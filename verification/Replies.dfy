/**
 Bookkeeping of replies in a live scan: what every endpoint's bytes in the mapped files hold
 after any sequence of probes, replies and banner inspections, across restarts.
 */
module Replies {
  import opened Words
  import opened Results

  const BANNER_NOT_QUEUED: u8 := 0
  const BANNER_QUEUED: u8 := 1
  const BANNER_DONE: u8 := 2

  /** One observed reply: its state, the attempt it came in and the run's clock. */
  datatype Reply = Reply(state: TargetState, attempt: nat, now: u32)

  /** `decoded_state`: an undecodable byte counts as no response. */
  function DecodedState(value: u8): TargetState {
    match DecodeStateByte(value)
    case Ok(decoded) => decoded.0
    case Err(_) => NoResponse
  }

  /** `response_rtt_us` for a probe that was stamped. */
  function RttUs(now: u32, sentAt: u32): u32 {
    Min(WrappingSub(now, sentAt) * 1000, U32_MAX)
  }

  /** What the mapped files hold for one endpoint. */
  datatype Cell = Cell(state: u8, sentAt: u32, rtt: u32, conflicts: u32, banner: u8) {
    function State(): TargetState { DecodedState(state) }

    function ConflictsAfter(s: TargetState): u32 {
      if State() != NoResponse && State() != s then SaturatingAdd(conflicts, 1) else conflicts
    }

    function StateAfter(s: TargetState, attempt: nat): u8 {
      if s.Rank() > State().Rank() then EncodeStateByte(s, attempt) else state
    }

    function RttAfter(now: u32): u32 {
      if rtt == 0 && sentAt != 0 then SaturatingAdd(RttUs(now, sentAt), 1) else rtt
    }

    /** `observe_response` on the bytes. */
    function Observed(r: Reply): Cell {
      Cell(StateAfter(r.state, r.attempt), sentAt, RttAfter(r.now), ConflictsAfter(r.state), banner)
    }

    /** ... and on its result: the endpoint just turned out to be open. */
    predicate Opens(r: Reply) {
      r.state.Rank() > State().Rank() && r.state == Open && State() != Open
    }

    /** The banner has been handed to the inspector, in this run or an earlier one. */
    predicate Queued() {
      banner == BANNER_QUEUED || banner == BANNER_DONE
    }

    /** `enqueue_banner` on the bytes. */
    function Enqueued(): Cell {
      if Queued() then this else this.(banner := BANNER_QUEUED)
    }

    /** `enqueue_resume_banner_targets` on one endpoint. */
    predicate Resumes() {
      State() == Open && banner != BANNER_DONE
    }

    function Resumed(): Cell {
      if Resumes() then this.(banner := BANNER_QUEUED) else this
    }

    predicate Blank() {
      state == 0 && rtt == 0 && conflicts == 0
    }
  }

  /**
   What can happen to one endpoint: a probe, a reply, the end of its banner inspection, a reply whose
   state was written when the process died before queueing the banner, and a new process.
   */
  datatype Event = Probed(at: u32) | Heard(reply: Reply) | Inspected | Torn(reply: Reply) | Restarted

  predicate Answers(e: Event) { e.Heard? || e.Torn? }

  predicate EventOk(c: Cell, e: Event) {
    match e
    case Probed(_) => true
    case Heard(r) => r.state != NoResponse
    case Torn(r) => r.state != NoResponse
    case Inspected => c.banner == BANNER_QUEUED
    case Restarted => true
  }

  function Apply(c: Cell, e: Event): Cell {
    match e
    case Probed(at) => c.(sentAt := at)
    case Heard(r) => if c.Opens(r) then c.Observed(r).Enqueued() else c.Observed(r)
    case Inspected => c.(banner := BANNER_DONE)
    case Torn(r) => c.Observed(r)
    case Restarted => c.Resumed()
  }

  function Final(c: Cell, es: seq<Event>): Cell {
    if es == [] then c else Apply(Final(c, es[..|es| - 1]), es[|es| - 1])
  }

  predicate EventsOk(c: Cell, es: seq<Event>) {
    es == [] || (EventsOk(c, es[..|es| - 1]) && EventOk(Final(c, es[..|es| - 1]), es[|es| - 1]))
  }

  /** The replies among the events. */
  function Heards(es: seq<Event>): seq<Reply> {
    if es == [] then [] else
    var before := Heards(es[..|es| - 1]);
    if Answers(es[|es| - 1]) then before + [es[|es| - 1].reply] else before
  }

  /* ----- the state byte ----- */

  /** Position `i` holds the first reply of the highest rank. */
  predicate FirstHighest(rs: seq<Reply>, i: nat) {
    && i < |rs|
    && (forall j | 0 <= j < |rs| :: rs[j].state.Rank() <= rs[i].state.Rank())
    && (forall j | 0 <= j < i :: rs[j].state.Rank() < rs[i].state.Rank())
  }

  /** The highest-ranked state among the replies. */
  function Best(rs: seq<Reply>): (s: TargetState) {
    if rs == [] then NoResponse else
    var before := Best(rs[..|rs| - 1]);
    var last := rs[|rs| - 1].state;
    if last.Rank() > before.Rank() then last else before
  }

  lemma StateOfEncoded(s: TargetState, attempt: nat)
    ensures DecodedState(EncodeStateByte(s, attempt)) == s
  {
    StateByteRoundTrip(s, attempt);
  }

  lemma {:induction false} StateIsBest(c: Cell, es: seq<Event>)
    requires c.Blank()
    ensures Final(c, es).State() == Best(Heards(es))
  {
    if es != [] {
      StateIsBest(c, es[..|es| - 1]);
      var e := es[|es| - 1];
      if Answers(e) {
        StateOfEncoded(e.reply.state, e.reply.attempt);
        var before := Heards(es[..|es| - 1]);
        assert (before + [e.reply])[..|before|] == before;
      }
    }
  }

  /**
   The stored byte is the highest-ranked reply with the attempt number of that state's first arrival, capped at
   15.
   */
  lemma {:induction false} StateIsFirstArrival(c: Cell, es: seq<Event>) returns (i: nat)
    requires c.Blank() && EventsOk(c, es) && Heards(es) != []
    ensures FirstHighest(Heards(es), i)
    ensures DecodeStateByte(Final(c, es).state) == Ok((Heards(es)[i].state, Min(Heards(es)[i].attempt, 15)))
  {
    var front, e := es[..|es| - 1], es[|es| - 1];
    var before, rs := Heards(front), Heards(es);
    StateIsBest(c, front);
    if !Answers(e) {
      i := StateIsFirstArrival(c, front);
    } else {
      StateByteRoundTrip(e.reply.state, e.reply.attempt);
      if before == [] {
        i := 0;
      } else {
        i := StateIsFirstArrival(c, front);
        if e.reply.state.Rank() > before[i].state.Rank() { i := |before|; }
      }
      assert forall j | 0 <= j < |before| :: rs[j] == before[j];
    }
  }

  /* ----- the conflict counter ----- */

  /** How many replies differed from the highest-ranked state known when they came. */
  function Disagreements(rs: seq<Reply>): nat {
    if rs == [] then 0 else
    var before := rs[..|rs| - 1];
    Disagreements(before) + if Best(before) != NoResponse && rs[|rs| - 1].state != Best(before) then 1 else 0
  }

  /** The counter is that number, saturated. */
  lemma {:induction false} ConflictsCountDisagreements(c: Cell, es: seq<Event>)
    requires c.Blank()
    ensures Final(c, es).conflicts == Min(Disagreements(Heards(es)), U32_MAX)
  {
    if es != [] {
      var front, e := es[..|es| - 1], es[|es| - 1];
      ConflictsCountDisagreements(c, front);
      if Answers(e) {
        StateIsBest(c, front);
        DisagreementsAppend(Heards(front), e.reply);
        ConflictsStep(Final(c, front), e, Disagreements(Heards(front)));
      }
    }
  }

  lemma DisagreementsAppend(rs: seq<Reply>, r: Reply)
    ensures Disagreements(rs + [r])
         == Disagreements(rs) + if Best(rs) != NoResponse && r.state != Best(rs) then 1 else 0
  {
    assert (rs + [r])[..|rs|] == rs;
  }

  lemma ConflictsStep(c: Cell, e: Event, n: nat)
    requires Answers(e) && c.conflicts == Min(n, U32_MAX)
    ensures Apply(c, e).conflicts
         == Min(n + (if c.State() != NoResponse && e.reply.state != c.State() then 1 else 0), U32_MAX)
  {
  }

  lemma {:induction false} BestIsReal(rs: seq<Reply>)
    requires forall i | 0 <= i < |rs| :: rs[i].state != NoResponse
    ensures Best(rs) == NoResponse <==> rs == []
    ensures rs != [] ==> exists i :: 0 <= i < |rs| && rs[i].state == Best(rs)
  {
    if rs != [] {
      var front := rs[..|rs| - 1];
      BestIsReal(front);
      if front != [] {
        var i :| 0 <= i < |front| && front[i].state == Best(front);
        assert rs[i].state == Best(front);
      }
      assert rs[|rs| - 1].state != NoResponse;
    }
  }

  /** It is positive iff two replies disagree. */
  lemma {:induction false} DisagreementsIff(rs: seq<Reply>)
    requires forall i | 0 <= i < |rs| :: rs[i].state != NoResponse
    ensures Disagreements(rs) > 0 <==> exists i, j :: 0 <= i < j < |rs| && rs[i].state != rs[j].state
    ensures Disagreements(rs) == 0 ==> forall i | 0 <= i < |rs| :: rs[i].state == Best(rs)
  {
    if rs != [] {
      var n := |rs| - 1;
      var front := rs[..n];
      DisagreementsIff(front);
      BestIsReal(front);
      if Disagreements(front) > 0 {
        var i, j :| 0 <= i < j < n && front[i].state != front[j].state;
        assert rs[i].state != rs[j].state;
      } else if front != [] {
        assert rs[0].state == front[0].state == Best(front);
        assert forall i | 0 <= i < n :: rs[i].state == front[i].state;
      }
    }
  }

  /* ----- the round-trip time ----- */

  /** A recorded round-trip time is never overwritten. */
  lemma {:induction false} RttIsFrozen(c: Cell, es: seq<Event>)
    requires c.rtt != 0
    ensures Final(c, es).rtt == c.rtt
  {
    if es != [] { RttIsFrozen(c, es[..|es| - 1]); }
  }

  lemma {:induction false} FinalConcat(c: Cell, a: seq<Event>, b: seq<Event>)
    ensures Final(c, a + b) == Final(Final(c, a), b)
  {
    if b == [] {
      assert a + b == a;
    } else {
      FinalConcat(c, a, b[..|b| - 1]);
      assert (a + b)[..|a + b| - 1] == a + b[..|b| - 1];
    }
  }

  /** It is recorded by the first reply that finds a stamped probe, against the latest stamp. */
  lemma RttIsFirstAnswer(c: Cell, before: seq<Event>, r: Reply, after: seq<Event>)
    requires Final(c, before).rtt == 0 && Final(c, before).sentAt != 0
    ensures Final(c, before + [Heard(r)] + after).rtt == SaturatingAdd(RttUs(r.now, Final(c, before).sentAt), 1)
  {
    assert (before + [Heard(r)])[..|before|] == before;
    FinalConcat(c, before + [Heard(r)], after);
    RttIsFrozen(Final(c, before + [Heard(r)]), after);
  }

  predicate Unprobed(es: seq<Event>) {
    forall e | e in es :: !e.Probed?
  }

  /** The stamp is that of the last probe. */
  lemma {:induction false} StampIsLast(c: Cell, before: seq<Event>, at: u32, since: seq<Event>)
    requires Unprobed(since)
    ensures Final(c, before + [Probed(at)] + since).sentAt == at
  {
    var es := before + [Probed(at)] + since;
    if since == [] {
      assert es == before + [Probed(at)] && es[..|es| - 1] == before;
    } else {
      var front := since[..|since| - 1];
      assert since[|since| - 1] in since && forall e | e in front :: e in since;
      StampIsLast(c, before, at, front);
      assert es[..|es| - 1] == before + [Probed(at)] + front;
    }
  }

  /** Milliseconds between two readings of the run's clock, which wraps at 32 bits. */
  function Elapsed(at: u32, now: u32): nat {
    if now >= at then now - at else now + 0x1_0000_0000 - at
  }

  /**
   The recorded time, for good: of the first reply to find a stamp, in microseconds since the last probe before
   it and one more, up to the width of the word.
   */
  lemma RttMeasures(c: Cell, before: seq<Event>, at: u32, since: seq<Event>, r: Reply, after: seq<Event>)
    requires at != 0 && Unprobed(since) && Final(c, before + [Probed(at)] + since).rtt == 0
    ensures Final(c, before + [Probed(at)] + since + [Heard(r)] + after).rtt
         == Min(Elapsed(at, r.now) * 1000 + 1, U32_MAX)
  {
    StampIsLast(c, before, at, since);
    RttIsFirstAnswer(c, before + [Probed(at)] + since, r, after);
    WrappedIsElapsed(at, r.now);
  }

  lemma WrappedIsElapsed(at: u32, now: u32)
    ensures WrappingSub(now, at) == Elapsed(at, now)
  {
  }

  /** A reply to no probe records no time. */
  lemma RttNeedsStamp(c: Cell, r: Reply)
    requires c.rtt == 0 && c.sentAt == 0
    ensures Apply(c, Heard(r)).rtt == 0
  {
  }

  /* ----- the banner byte ----- */

  /** Only open endpoints are queued; a crash between the two writes leaves no more than this. */
  predicate Sound(c: Cell) { c.Queued() ==> c.State() == Open }

  /** Open endpoints, and only they, are queued. */
  predicate Tight(c: Cell) { c.State() == Open <==> c.Queued() }

  /** Soundness survives everything, tightness everything but a torn reply; a restart makes tight what is sound. */
  lemma ApplyKeepsSound(c: Cell, e: Event)
    requires EventOk(c, e) && Sound(c)
    ensures Sound(Apply(c, e))
    ensures (Tight(c) && !e.Torn?) || e.Restarted? ==> Tight(Apply(c, e))
    ensures c.State() == Open ==> Apply(c, e).State() == Open
  {
    if Answers(e) { StateOfEncoded(e.reply.state, e.reply.attempt); }
  }

  lemma {:induction false} FinalIsSound(c: Cell, es: seq<Event>)
    requires Sound(c) && EventsOk(c, es)
    ensures Sound(Final(c, es))
  {
    if es != [] {
      FinalIsSound(c, es[..|es| - 1]);
      ApplyKeepsSound(Final(c, es[..|es| - 1]), es[|es| - 1]);
    }
  }

  /** The events of one process. */
  predicate OneRun(es: seq<Event>) {
    forall i | 0 <= i < |es| :: !es[i].Torn? && !es[i].Restarted?
  }

  /** Sends to the inspector during the events of a run. */
  function Sends(c: Cell, es: seq<Event>): nat {
    if es == [] then 0 else
    var before := Final(c, es[..|es| - 1]);
    var last := es[|es| - 1];
    Sends(c, es[..|es| - 1]) + if last.Heard? && before.Opens(last.reply) && !before.Queued() then 1 else 0
  }

  lemma {:induction false} SendsFromTight(c: Cell, es: seq<Event>)
    requires Tight(c) && EventsOk(c, es) && OneRun(es)
    ensures Tight(Final(c, es))
    ensures c.State() == Open ==> Final(c, es).State() == Open
    ensures Sends(c, es) == if Final(c, es).State() == Open && c.State() != Open then 1 else 0
  {
    if es != [] {
      var front, e := es[..|es| - 1], es[|es| - 1];
      SendsFromTight(c, front);
      ApplyKeepsSound(Final(c, front), e);
      if e.Heard? { StateOfEncoded(e.reply.state, e.reply.attempt); }
    }
  }

  /** All sends of one run, the resume pass included. */
  function RunSends(c: Cell, es: seq<Event>): nat {
    (if c.Resumes() then 1 else 0) + Sends(c.Resumed(), es)
  }

  /**
   Whatever happened to an endpoint in earlier runs: once the resume pass of a new run is over, it is open iff
   its banner is queued or done; and the run hands it over at most once, exactly if it ends up open and no
   earlier run inspected it.
   */
  lemma BannerOncePerRun(first: Cell, history: seq<Event>, es: seq<Event>)
    requires Sound(first) && EventsOk(first, history)
    requires var c := Final(first, history); EventsOk(c.Resumed(), es) && OneRun(es)
    ensures
      var c := Final(first, history);
      var end := Final(c.Resumed(), es);
      && (end.State() == Open <==> end.banner == 1 || end.banner == 2)
      && RunSends(c, es) == if end.State() == Open && c.banner != 2 then 1 else 0
  {
    FinalIsSound(first, history);
    ApplyKeepsSound(Final(first, history), Restarted);
    SendsFromTight(Final(first, history).Resumed(), es);
  }
}
