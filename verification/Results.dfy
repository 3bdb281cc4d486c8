/**
 Observations of an endpoint and the reducer that folds them into one row.
 */
module Results {
  import opened Words
  import opened Endpoints

  datatype TargetState = NoResponse | Unreachable | Closed | Open {
    function Rank(): nat {
      match this
      case NoResponse => 0
      case Unreachable => 1
      case Closed => 2
      case Open => 3
    }
  }

  datatype BannerStatus = BannerOk | ConnectFailed | Timeout | ProtocolMismatch | Oversized

  /** `encode_state_byte`: attempts, capped at 15, in the high nibble, the rank in the low one. */
  function EncodeStateByte(state: TargetState, attempts: nat): u8 {
    if state == NoResponse then 0 else Min(attempts, 15) * 16 + state.Rank()
  }

  function DecodeStateByte(value: u8): Result<(TargetState, nat), string> {
    match value % 16
    case 0 => Ok((NoResponse, value / 16))
    case 1 => Ok((Unreachable, value / 16))
    case 2 => Ok((Closed, value / 16))
    case 3 => Ok((Open, value / 16))
    case _ => Err("invalid target state byte")
  }

  lemma StateByteRoundTrip(state: TargetState, attempts: nat)
    ensures DecodeStateByte(EncodeStateByte(state, attempts)) ==
            Ok((state, if state == NoResponse then 0 else Min(attempts, 15)))
  {
  }

  /**
   One result record.  `details` stands for the columns copied along unread: result id, rtt,
   timestamps, banner text and parsed fields.
   */
  datatype ResultV1 = ResultV1(
    scanId: string,
    ip: u32,
    service: Service,
    state: TargetState,
    synAttempts: nat,
    conflicting: u32,
    banner: Option<BannerStatus>,
    details: string)

  /** The two records disagree on something the reducer looks at. */
  predicate Differ(a: ResultV1, b: ResultV1) {
    a.state != b.state || a.banner != b.banner
  }

  predicate BannerIsOk(r: ResultV1) { r.banner == Some(BannerOk) }

  /** `merge_result`. */
  function MergeResult(current: ResultV1, incoming: ResultV1): ResultV1 {
    var chosen :=
      if incoming.state.Rank() > current.state.Rank() then incoming
      else if incoming.state.Rank() < current.state.Rank() then current
      else if BannerIsOk(incoming) && !BannerIsOk(current) then incoming
      else current;
    if Differ(current, incoming) then chosen.(conflicting := SaturatingAdd(chosen.conflicting, 1)) else chosen
  }

  /** How good a record is: state rank first, then a good banner. */
  function Score(r: ResultV1): nat {
    2 * r.state.Rank() + if BannerIsOk(r) then 1 else 0
  }

  /** Open above closed above unreachable above no response. */
  predicate Outranks(s: TargetState, t: TargetState) {
    match s
    case Open => t != Open
    case Closed => t == Unreachable || t == NoResponse
    case Unreachable => t == NoResponse
    case NoResponse => false
  }

  /** The score orders records by state, and among equal states puts those with a good banner first. */
  lemma ScoreOrder(a: ResultV1, b: ResultV1)
    ensures Score(a) > Score(b) <==>
      || Outranks(a.state, b.state)
      || (a.state == b.state && a.banner == Some(BannerOk) && b.banner != Some(BannerOk))
    ensures a.state.Rank() > b.state.Rank() <==> Outranks(a.state, b.state)
  {
  }

  /** Equal apart from the conflict counter. */
  predicate SameRecord(a: ResultV1, b: ResultV1) {
    a.(conflicting := 0) == b.(conflicting := 0)
  }

  /**
   The conflict counter is not monotone: an upgrade restarts it from the incoming record's count.
   It drops exactly on an upgrade that brings a smaller count along.
   */
  lemma ConflictCountDropsIff(current: ResultV1, incoming: ResultV1)
    ensures MergeResult(current, incoming).conflicting < current.conflicting
       <==> Score(incoming) > Score(current) && SaturatingAdd(incoming.conflicting, 1) < current.conflicting
  {
  }

  /** A logged observation with the endpoint number the coordinator resolved for it. */
  datatype Observation = Observation(index: nat, taskId: int, workerId: string, result: ResultV1) {
    function Key(): RowKey { RowKey(result.scanId, index, result.service) }
  }

  /** Primary key of the results table. */
  datatype RowKey = RowKey(scanId: string, index: nat, service: Service)

  predicate Relevant(o: Observation, key: RowKey) {
    o.Key() == key && o.result.state != NoResponse
  }

  /** The row a log leaves under a key. */
  function Reduced(log: seq<Observation>, key: RowKey): Option<ResultV1> {
    if log == [] then None else
    var last := log[|log| - 1];
    var before := Reduced(log[..|log| - 1], key);
    if !Relevant(last, key) then before
    else match before
      case None => Some(last.result)
      case Some(current) => Some(MergeResult(current, last.result))
  }

  lemma {:induction false} ReducedNone(log: seq<Observation>, key: RowKey)
    ensures Reduced(log, key).None? <==> forall o | o in log :: !Relevant(o, key)
  {
    if log != [] {
      ReducedNone(log[..|log| - 1], key);
      assert log == log[..|log| - 1] + [log[|log| - 1]];
    }
  }

  /** Position `i` holds the first relevant observation of the highest score. */
  ghost predicate FirstBest(log: seq<Observation>, key: RowKey, i: nat) {
    && i < |log|
    && Relevant(log[i], key)
    && (forall j | 0 <= j < |log| && Relevant(log[j], key) :: Score(log[j].result) <= Score(log[i].result))
    && (forall j | 0 <= j < i && Relevant(log[j], key) :: Score(log[j].result) < Score(log[i].result))
  }

  /** The row is, apart from its counter, the first logged observation of the highest score. */
  lemma {:induction false} ReducedIsFirstBest(log: seq<Observation>, key: RowKey) returns (i: nat)
    requires Reduced(log, key).Some?
    ensures FirstBest(log, key, i)
    ensures SameRecord(Reduced(log, key).value, log[i].result)
  {
    var n := |log| - 1;
    var front, last := log[..n], log[n];
    if !Relevant(last, key) {
      i := ReducedIsFirstBest(front, key);
    } else if Reduced(front, key).None? {
      ReducedNone(front, key);
      i := n;
      assert forall j | 0 <= j < n :: log[j] in front;
    } else {
      i := ReducedIsFirstBest(front, key);
      assert log[i] == front[i];
      if Score(last.result) > Score(front[i].result) {
        i := n;
      }
    }
    assert forall j | 0 <= j < n :: log[j] == front[j];
  }

  /** When records arrive with count zero, the row's counter is positive iff two of them differ. */
  lemma {:induction false} ReducedConflicts(log: seq<Observation>, key: RowKey)
    requires Reduced(log, key).Some?
    requires forall o | o in log && Relevant(o, key) :: o.result.conflicting == 0
    ensures Reduced(log, key).value.conflicting > 0 <==>
            exists a, b :: a in log && b in log && Relevant(a, key) && Relevant(b, key) && Differ(a.result, b.result)
    ensures Reduced(log, key).value.conflicting == 0 ==>
            forall o | o in log && Relevant(o, key) :: !Differ(o.result, Reduced(log, key).value)
  {
    var n := |log| - 1;
    var front, last := log[..n], log[n];
    assert log == front + [last];
    if Reduced(front, key).Some? {
      ReducedConflicts(front, key);
      if Relevant(last, key) && Differ(Reduced(front, key).value, last.result) {
        var i := ReducedIsFirstBest(front, key);
        assert front[i] in log && Differ(front[i].result, last.result);
      }
    } else {
      ReducedNone(front, key);
    }
  }

  /** State and banner success of the row do not depend on the order of the log. */
  lemma ReducedOrderIrrelevant(a: seq<Observation>, b: seq<Observation>, key: RowKey)
    requires forall o :: o in a <==> o in b
    requires Reduced(a, key).Some?
    ensures Reduced(b, key).Some?
    ensures Reduced(a, key).value.state == Reduced(b, key).value.state
    ensures BannerIsOk(Reduced(a, key).value) <==> BannerIsOk(Reduced(b, key).value)
  {
    ReducedNone(a, key);
    ReducedNone(b, key);
    var i := ReducedIsFirstBest(a, key);
    assert a[i] in b;
    var j := ReducedIsFirstBest(b, key);
    assert b[j] in a;
    var bi :| 0 <= bi < |b| && b[bi] == a[i];
    var aj :| 0 <= aj < |a| && a[aj] == b[j];
  }

  lemma ReducedAppend(log: seq<Observation>, o: Observation, key: RowKey)
    ensures Reduced(log + [o], key) ==
      if !Relevant(o, key) then Reduced(log, key)
      else if Reduced(log, key).None? then Some(o.result)
      else Some(MergeResult(Reduced(log, key).value, o.result))
  {
    assert (log + [o])[..|log|] == log;
  }

  /**
   When observations arrive with count zero, one more lowers a row's counter iff it outranks a row that counts
   two or more.
   */
  lemma ReducedCountDropsIff(log: seq<Observation>, o: Observation, key: RowKey)
    requires Reduced(log, key).Some? && Relevant(o, key) && o.result.conflicting == 0
    ensures Reduced(log + [o], key).Some?
    ensures Reduced(log + [o], key).value.conflicting < Reduced(log, key).value.conflicting
       <==> Score(o.result) > Score(Reduced(log, key).value) && Reduced(log, key).value.conflicting >= 2
  {
    ReducedAppend(log, o, key);
    ConflictCountDropsIff(Reduced(log, key).value, o.result);
  }

  /**
   Four observations that all arrive with count zero, closed, twice unreachable and then open, take the counter
   to two and back to one.  Workers of this repository answer alike and never raise it; any client of the
   coordinator's port can submit such records, since ownership of the lease is not checked.
   */
  lemma CountDrops(s: string, ip: u32, service: Service, index: nat, worker: string)
    ensures
      var observed := (state: TargetState) =>
        Observation(index, 0, worker, ResultV1(s, ip, service, state, 1, 0, None, ""));
      var key := RowKey(s, index, service);
      var log := [observed(Closed), observed(Unreachable), observed(Unreachable)];
      && Reduced(log, key).Some? && Reduced(log, key).value.conflicting == 2
      && Reduced(log + [observed(Open)], key).Some? && Reduced(log + [observed(Open)], key).value.conflicting == 1
  {
    var observed := (state: TargetState) =>
      Observation(index, 0, worker, ResultV1(s, ip, service, state, 1, 0, None, ""));
    var key := RowKey(s, index, service);
    var a, b, c := observed(Closed), observed(Unreachable), observed(Open);
    ReducedAppend([], a, key);
    assert [] + [a] == [a];
    ReducedAppend([a], b, key);
    ReducedAppend([a] + [b], b, key);
    assert [a] + [b] + [b] == [a, b, b];
    ReducedAppend([a, b, b], c, key);
  }
}
