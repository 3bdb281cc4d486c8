/**
 The banner reader: it feeds whatever chunks the network delivers to the frame recogniser.
 How the stream was cut up matters only near the size limit, and exactly when is stated here.
 */
module Banners {
  import opened Words
  import opened Endpoints
  import opened Results
  import opened Frames

  /** The size of the buffer one read fills at most. */
  const CHUNK: nat := 1024

  /** How the stream stops: closed by the peer, a read error, or silence. */
  datatype Ending = Eof | ReadError | Silence

  function EndStatus(e: Ending): BannerStatus {
    match e
    case Eof => ProtocolMismatch
    case ReadError => ConnectFailed
    case Silence => Timeout
  }

  function Join(chunks: seq<seq<u8>>): seq<u8> {
    if chunks == [] then [] else chunks[0] + Join(chunks[1..])
  }

  /** Reads return between one byte and a full buffer. */
  predicate Chunks(chunks: seq<seq<u8>>) {
    forall c | c in chunks :: 0 < |c| <= CHUNK
  }

  /** Status and evidence when the given chunks still lie ahead. */
  function Read(
      protocol: Protocol, max: nat, evidence: seq<u8>, chunks: seq<seq<u8>>, ending: Ending): (BannerStatus, seq<u8>)
    decreases |chunks|
  {
    match MessageLen(protocol, evidence, max)
    case Complete(n) => (BannerOk, evidence[..n])
    case Bad(status) => (status, evidence)
    case Incomplete =>
      if chunks == [] then (EndStatus(ending), evidence)
      else Read(protocol, max, evidence + chunks[0], chunks[1..], ending)
  }

  /** `read_banner`, with the chunks the successive reads return. */
  method ReadBanner(protocol: Protocol, max: nat, chunks: seq<seq<u8>>, ending: Ending)
    returns (status: BannerStatus, evidence: seq<u8>)
    ensures (status, evidence) == Read(protocol, max, [], chunks, ending)
  {
    evidence := [];
    var i := 0;
    while true
      invariant 0 <= i <= |chunks|
      invariant Read(protocol, max, evidence, chunks[i..], ending) == Read(protocol, max, [], chunks, ending)
      decreases |chunks| - i
    {
      match MessageLen(protocol, evidence, max) {
        case Complete(n) =>
          return BannerOk, evidence[..n];
        case Bad(s) =>
          return s, evidence;
        case Incomplete =>
      }
      if i == |chunks| {
        return EndStatus(ending), evidence;
      }
      assert chunks[i..][0] == chunks[i] && chunks[i..][1..] == chunks[i + 1..];
      evidence := evidence + chunks[i];
      i := i + 1;
    }
  }

  /** What a stream that fits the limit amounts to, however it arrives. */
  function Outcome(protocol: Protocol, max: nat, stream: seq<u8>, ending: Ending): BannerStatus {
    match MessageLen(protocol, stream, max)
    case Complete(n) => BannerOk
    case Bad(status) => status
    case Incomplete => EndStatus(ending)
  }

  /** Within the limit, status and accepted evidence are functions of the stream alone. */
  lemma {:induction false} FittingStreamOutcome(
      protocol: Protocol, max: nat, evidence: seq<u8>, chunks: seq<seq<u8>>, ending: Ending)
    requires |evidence| + |Join(chunks)| <= max
    ensures var r, stream := Read(protocol, max, evidence, chunks, ending), evidence + Join(chunks);
      && r.0 == Outcome(protocol, max, stream, ending)
      && (MessageLen(protocol, stream, max).Complete? ==> r.1 == stream[..MessageLen(protocol, stream, max).length])
    decreases |chunks|
  {
    var stream := evidence + Join(chunks);
    if Decided(MessageLen(protocol, evidence, max)) {
      DecisionIsStable(protocol, evidence, Join(chunks), max);
    } else if chunks == [] {
      assert stream == evidence;
    } else {
      assert stream == (evidence + chunks[0]) + Join(chunks[1..]);
      FittingStreamOutcome(protocol, max, evidence + chunks[0], chunks[1..], ending);
    }
  }

  /** A message that is still undecided at the end is told apart by how the stream ended. */
  lemma UnfinishedStatus(protocol: Protocol, max: nat, chunks: seq<seq<u8>>)
    requires |Join(chunks)| <= max && MessageLen(protocol, Join(chunks), max) == Incomplete
    ensures Read(protocol, max, [], chunks, Eof).0 == ProtocolMismatch
    ensures Read(protocol, max, [], chunks, ReadError).0 == ConnectFailed
    ensures Read(protocol, max, [], chunks, Silence).0 == Timeout
  {
    assert [] + Join(chunks) == Join(chunks);
    FittingStreamOutcome(protocol, max, [], chunks, Eof);
    FittingStreamOutcome(protocol, max, [], chunks, ReadError);
    FittingStreamOutcome(protocol, max, [], chunks, Silence);
  }

  /** The shortest decided prefix within the limit. */
  ghost predicate FirstDecided(protocol: Protocol, max: nat, stream: seq<u8>, p: nat) {
    && p <= |stream| && p <= max
    && Decided(MessageLen(protocol, stream[..p], max))
    && (forall q | 0 <= q < p :: MessageLen(protocol, stream[..q], max) == Incomplete)
  }

  /** No cut of this stream into reads changes the status. */
  ghost predicate CutIndependent(protocol: Protocol, max: nat, stream: seq<u8>, ending: Ending) {
    forall a, b | Chunks(a) && Chunks(b) && Join(a) == stream && Join(b) == stream ::
      Read(protocol, max, [], a, ending).0 == Read(protocol, max, [], b, ending).0
  }

  /** A buffer's worth of margin after the decision, or a stream that fits altogether. */
  ghost predicate HasMargin(protocol: Protocol, max: nat, stream: seq<u8>) {
    || |stream| <= max
    || forall p: nat | FirstDecided(protocol, max, stream, p) ::
         MessageLen(protocol, stream[..p], max) == Bad(Oversized) || p + 1024 <= max + 1
  }

  lemma PrefixOfSum(a: seq<u8>, b: seq<u8>, q: nat)
    requires q <= |a|
    ensures (a + b)[..q] == a[..q]
    ensures (a + b)[..|a|] == a
  {
  }

  /** With a margin after the first decision, that decision is what every cut reports. */
  lemma {:induction false} ReadWithMargin(
      protocol: Protocol, max: nat, evidence: seq<u8>, chunks: seq<seq<u8>>, ending: Ending, p: nat)
    requires Chunks(chunks) && FirstDecided(protocol, max, evidence + Join(chunks), p)
    requires |evidence| < p && p + CHUNK <= max + 1
    ensures Read(protocol, max, evidence, chunks, ending).0
      == Outcome(protocol, max, (evidence + Join(chunks))[..p], ending)
    decreases |chunks|
  {
    var stream := evidence + Join(chunks);
    PrefixOfSum(evidence, Join(chunks), |evidence|);
    assert MessageLen(protocol, stream[..|evidence|], max) == Incomplete;
    assert chunks[0] in chunks;
    var next := evidence + chunks[0];
    assert stream == next + Join(chunks[1..]);
    if |next| < p {
      assert Chunks(chunks[1..]);
      ReadWithMargin(protocol, max, next, chunks[1..], ending, p);
    } else {
      PrefixOfSum(next, Join(chunks[1..]), p);
      assert next == next[..p] + next[p..];
      DecisionIsStable(protocol, next[..p], next[p..], max);
    }
  }

  /** When no prefix within the limit is accepted or refused otherwise, an overlong stream is oversized. */
  lemma {:induction false} ReadOverlong(
      protocol: Protocol, max: nat, evidence: seq<u8>, chunks: seq<seq<u8>>, ending: Ending)
    requires |evidence| + |Join(chunks)| > max
    requires forall q | 0 <= q <= max ::
      MessageLen(protocol, (evidence + Join(chunks))[..q], max) in {Incomplete, Bad(Oversized)}
    ensures Read(protocol, max, evidence, chunks, ending).0 == Oversized
    decreases |chunks|
  {
    var stream := evidence + Join(chunks);
    if |evidence| <= max {
      PrefixOfSum(evidence, Join(chunks), |evidence|);
      assert MessageLen(protocol, stream[..|evidence|], max) in {Incomplete, Bad(Oversized)};
      if MessageLen(protocol, evidence, max) == Incomplete {
        assert stream == (evidence + chunks[0]) + Join(chunks[1..]);
        ReadOverlong(protocol, max, evidence + chunks[0], chunks[1..], ending);
      }
    }
  }

  /** Reads of single bytes. */
  function Singles(stream: seq<u8>): seq<seq<u8>> {
    if stream == [] then [] else [[stream[0]]] + Singles(stream[1..])
  }

  lemma {:induction false} SinglesJoin(stream: seq<u8>)
    ensures Join(Singles(stream)) == stream && Chunks(Singles(stream))
  {
    if stream != [] { SinglesJoin(stream[1..]); }
  }

  /** Single-byte reads up to an undecided point leave exactly those bytes as evidence. */
  lemma {:induction false} ReadSingles(
      protocol: Protocol, max: nat, evidence: seq<u8>, step: seq<u8>, rest: seq<seq<u8>>, ending: Ending)
    requires forall q | |evidence| <= q < |evidence| + |step| ::
      MessageLen(protocol, (evidence + step)[..q], max) == Incomplete
    ensures Read(protocol, max, evidence, Singles(step) + rest, ending)
      == Read(protocol, max, evidence + step, rest, ending)
    decreases |step|
  {
    if step == [] {
      assert evidence + step == evidence && Singles(step) + rest == rest;
    } else {
      PrefixOfSum(evidence, step, |evidence|);
      var next := evidence + [step[0]];
      assert next + step[1..] == evidence + step;
      assert Singles(step) + rest == [[step[0]]] + (Singles(step[1..]) + rest);
      ReadStep(protocol, max, evidence, [step[0]], Singles(step[1..]) + rest, ending);
      ReadSingles(protocol, max, next, step[1..], rest, ending);
    }
  }

  lemma ReadStep(
    protocol: Protocol, max: nat, evidence: seq<u8>, chunk: seq<u8>, rest: seq<seq<u8>>, ending: Ending
  )
    requires MessageLen(protocol, evidence, max) == Incomplete
    ensures Read(protocol, max, evidence, [chunk] + rest, ending) == Read(protocol, max, evidence + chunk, rest, ending)
  {
    assert ([chunk] + rest)[1..] == rest;
  }

  lemma {:induction false} JoinAppend(a: seq<seq<u8>>, b: seq<seq<u8>>)
    ensures Join(a + b) == Join(a) + Join(b)
  {
    if a == [] {
      assert a + b == b;
    } else {
      JoinAppend(a[1..], b);
      assert (a + b)[1..] == a[1..] + b;
      assert Join(a + b) == a[0] + (Join(a[1..]) + Join(b));
    }
  }

  /** One byte at a time, the first decision is what is reported. */
  lemma ReadByteByByte(protocol: Protocol, max: nat, stream: seq<u8>, ending: Ending, p: nat)
    requires FirstDecided(protocol, max, stream, p)
    ensures Read(protocol, max, [], Singles(stream), ending).0 == Outcome(protocol, max, stream[..p], ending)
  {
    var head, tail := stream[..p], stream[p..];
    assert stream == head + tail;
    SinglesSplit(head, tail);
    assert [] + head == head;
    forall q | 0 <= q < p ensures MessageLen(protocol, head[..q], max) == Incomplete {
      assert head[..q] == stream[..q];
    }
    ReadSingles(protocol, max, [], head, Singles(tail), ending);
  }

  lemma {:induction false} SinglesSplit(a: seq<u8>, b: seq<u8>)
    ensures Singles(a + b) == Singles(a) + Singles(b)
  {
    if a == [] {
      assert a + b == b;
    } else {
      assert (a + b)[1..] == a[1..] + b;
      SinglesSplit(a[1..], b);
    }
  }

  /** A cut that reads past the limit in the very read that completes the message. */
  function Overshoot(stream: seq<u8>, p: nat, max: nat): seq<seq<u8>>
    requires 0 < p <= max < |stream|
  {
    Singles(stream[..p - 1]) + ([stream[p - 1..max + 1]] + Singles(stream[max + 1..]))
  }

  lemma OvershootIsCut(stream: seq<u8>, p: nat, max: nat)
    requires 0 < p <= max < |stream| && max + 1 < p + CHUNK
    ensures Chunks(Overshoot(stream, p, max)) && Join(Overshoot(stream, p, max)) == stream
  {
    var head, mid, tail := stream[..p - 1], stream[p - 1..max + 1], stream[max + 1..];
    assert stream == head + (mid + tail);
    ThreePieces(head, mid, tail);
  }

  /** Single bytes, one longer read, and single bytes again. */
  lemma ThreePieces(head: seq<u8>, mid: seq<u8>, tail: seq<u8>)
    requires 0 < |mid| <= CHUNK
    ensures var cut := Singles(head) + ([mid] + Singles(tail)); Chunks(cut) && Join(cut) == head + (mid + tail)
  {
    SinglesJoin(head);
    SinglesJoin(tail);
    var rest := [mid] + Singles(tail);
    assert rest[1..] == Singles(tail);
    JoinAppend(Singles(head), rest);
  }

  lemma ReadOvershoot(protocol: Protocol, max: nat, stream: seq<u8>, ending: Ending, p: nat)
    requires FirstDecided(protocol, max, stream, p) && 0 < p <= max < |stream|
    ensures Read(protocol, max, [], Overshoot(stream, p, max), ending).0 == Oversized
  {
    var head, mid := stream[..p - 1], stream[p - 1..max + 1];
    var rest := [mid] + Singles(stream[max + 1..]);
    forall q | 0 <= q < p - 1 ensures MessageLen(protocol, ([] + head)[..q], max) == Incomplete {
      assert ([] + head)[..q] == stream[..q];
    }
    ReadSingles(protocol, max, [], head, rest, ending);
    assert [] + head == stream[..p - 1];
    assert rest[0] == mid;
  }

  lemma NothingIsUndecided(protocol: Protocol, max: nat)
    ensures MessageLen(protocol, [], max) == Incomplete
  {
  }

  /** Finding the first decided prefix, if any prefix within the limit is decided. */
  lemma {:induction false} SomeFirst(protocol: Protocol, max: nat, stream: seq<u8>, q: nat) returns (p: nat)
    requires q <= |stream| && q <= max && Decided(MessageLen(protocol, stream[..q], max))
    ensures FirstDecided(protocol, max, stream, p) && p <= q
    decreases q
  {
    if r: nat :| 0 <= r < q && Decided(MessageLen(protocol, stream[..r], max)) {
      p := SomeFirst(protocol, max, stream, r);
    } else {
      p := q;
    }
  }

  /**
   The status does not depend on how the stream is cut into reads if and only if the stream fits
   the limit or the first decision leaves a buffer's margin below it (or is itself "oversized").
   */
  lemma CutIndependentIff(protocol: Protocol, max: nat, stream: seq<u8>, ending: Ending)
    ensures CutIndependent(protocol, max, stream, ending) <==> HasMargin(protocol, max, stream)
  {
    if HasMargin(protocol, max, stream) {
      forall a, b | Chunks(a) && Chunks(b) && Join(a) == stream && Join(b) == stream
        ensures Read(protocol, max, [], a, ending).0 == Read(protocol, max, [], b, ending).0
      {
        MarginStatus(protocol, max, a, b, ending);
      }
    } else {
      NoMarginDiffers(protocol, max, stream, ending);
    }
  }

  /** A line break within a one-byte limit: alone it is a banner, with the byte after it in one read it is oversized. */
  lemma CutMatters()
    ensures !CutIndependent(Ssh, 1, [LF, 0], Eof)
  {
    assert MessageLen(Ssh, [LF, 0][..1], 1) == Complete(1) by { assert [LF, 0][..1] == [LF]; }
    assert MessageLen(Ssh, [LF, 0][..0], 1) == Incomplete;
    assert FirstDecided(Ssh, 1, [LF, 0], 1);
    CutIndependentIff(Ssh, 1, [LF, 0], Eof);
  }

  lemma MarginStatus(protocol: Protocol, max: nat, a: seq<seq<u8>>, b: seq<seq<u8>>, ending: Ending)
    requires Chunks(a) && Chunks(b) && Join(a) == Join(b) && HasMargin(protocol, max, Join(a))
    ensures Read(protocol, max, [], a, ending).0 == Read(protocol, max, [], b, ending).0
  {
    var stream := Join(a);
    assert [] + Join(a) == stream && [] + Join(b) == stream;
    if |stream| <= max {
      FittingStreamOutcome(protocol, max, [], a, ending);
      FittingStreamOutcome(protocol, max, [], b, ending);
    } else if p: nat :|
        FirstDecided(protocol, max, stream, p) && MessageLen(protocol, stream[..p], max) != Bad(Oversized) {
      MarginDecides(protocol, max, stream, a, ending, p);
      MarginDecides(protocol, max, stream, b, ending, p);
    } else {
      OverlongStatus(protocol, max, stream, a, ending);
      OverlongStatus(protocol, max, stream, b, ending);
    }
  }

  lemma MarginDecides(protocol: Protocol, max: nat, stream: seq<u8>, chunks: seq<seq<u8>>, ending: Ending, p: nat)
    requires Chunks(chunks) && Join(chunks) == stream && FirstDecided(protocol, max, stream, p) && p + CHUNK <= max + 1
    ensures Read(protocol, max, [], chunks, ending).0 == Outcome(protocol, max, stream[..p], ending)
  {
    assert [] + Join(chunks) == stream;
    DecisionAfterStart(protocol, max, stream, p);
    ReadWithMargin(protocol, max, [], chunks, ending, p);
  }

  /** No first decision within the limit but that the message is oversized. */
  ghost predicate NothingFits(protocol: Protocol, max: nat, stream: seq<u8>) {
    |stream| > max
    && forall p: nat | FirstDecided(protocol, max, stream, p) ::
        MessageLen(protocol, stream[..p], max) == Bad(Oversized)
  }

  lemma OverlongStatus(protocol: Protocol, max: nat, stream: seq<u8>, chunks: seq<seq<u8>>, ending: Ending)
    requires Chunks(chunks) && Join(chunks) == stream && NothingFits(protocol, max, stream)
    ensures Read(protocol, max, [], chunks, ending).0 == Oversized
  {
    assert [] + Join(chunks) == stream;
    forall q | 0 <= q <= max ensures MessageLen(protocol, stream[..q], max) in {Incomplete, Bad(Oversized)} {
      PrefixIsOverlong(protocol, max, stream, q);
    }
    ReadOverlong(protocol, max, [], chunks, ending);
  }

  lemma PrefixIsOverlong(protocol: Protocol, max: nat, stream: seq<u8>, q: nat)
    requires NothingFits(protocol, max, stream) && q <= max
    ensures MessageLen(protocol, stream[..q], max) == Incomplete
      || MessageLen(protocol, stream[..q], max) == Bad(Oversized)
  {
    if Decided(MessageLen(protocol, stream[..q], max)) {
      var p := SomeFirst(protocol, max, stream, q);
      assert stream[..q] == stream[..p] + stream[p..q];
      DecisionIsStable(protocol, stream[..p], stream[p..q], max);
    }
  }

  lemma NoMarginDiffers(protocol: Protocol, max: nat, stream: seq<u8>, ending: Ending)
    requires !HasMargin(protocol, max, stream)
    ensures !CutIndependent(protocol, max, stream, ending)
  {
    var p: nat :| FirstDecided(protocol, max, stream, p)
      && MessageLen(protocol, stream[..p], max) != Bad(Oversized) && p + CHUNK > max + 1;
    DecisionAfterStart(protocol, max, stream, p);
    SinglesJoin(stream);
    OvershootIsCut(stream, p, max);
    ReadByteByByte(protocol, max, stream, ending, p);
    ReadOvershoot(protocol, max, stream, ending, p);
    DecisionNotOversized(protocol, max, stream, ending, p);
    var a, b := Singles(stream), Overshoot(stream, p, max);
    assert Read(protocol, max, [], a, ending).0 != Read(protocol, max, [], b, ending).0;
  }

  lemma DecisionAfterStart(protocol: Protocol, max: nat, stream: seq<u8>, p: nat)
    requires FirstDecided(protocol, max, stream, p)
    ensures p > 0
  {
    NothingIsUndecided(protocol, max);
    assert stream[..0] == [];
  }

  lemma DecisionNotOversized(protocol: Protocol, max: nat, stream: seq<u8>, ending: Ending, p: nat)
    requires FirstDecided(protocol, max, stream, p) && MessageLen(protocol, stream[..p], max) != Bad(Oversized)
    ensures Outcome(protocol, max, stream[..p], ending) != Oversized
  {
  }
}
