/**
 Recognition of one complete server-first message in a growing byte stream.
 */
module Frames {
  import opened Words
  import opened Endpoints
  import opened Results

  const CR: u8 := 13
  const LF: u8 := 10
  const CRLF: seq<u8> := [13, 10]
  const SPACE: u8 := 32
  const DASH: u8 := 45
  const DIGIT_0: u8 := 48
  const DIGIT_9: u8 := 57
  const USIZE_MAX: nat := 0xffff_ffff_ffff_ffff
  const ISIZE_MAX: nat := 0x7fff_ffff_ffff_ffff

  /** `message_len`: not decided yet, a complete message of so many bytes, or a final error. */
  datatype Frame = Incomplete | Complete(length: nat) | Bad(status: BannerStatus)

  predicate Decided(f: Frame) { f != Incomplete }

  /** Where the needle first occurs at or after `from`. */
  function Find(data: seq<u8>, needle: seq<u8>, from: nat): (r: Option<nat>)
    ensures r.Some? ==> from <= r.value && r.value + |needle| <= |data| && data[r.value..r.value + |needle|] == needle
    decreases |data| - from
  {
    if from + |needle| > |data| then None
    else if data[from..from + |needle|] == needle then Some(from)
    else Find(data, needle, from + 1)
  }

  /** `windows(2).position(== "\r\n")`, past the line break. */
  function LineEnd(data: seq<u8>, from: nat): (r: Option<nat>)
    ensures r.Some? ==> from + 2 <= r.value <= |data| && data[r.value - 2] == CR
  {
    match Find(data, CRLF, from)
    case None => None
    case Some(i) => assert data[i..i + 2][0] == CR; Some(i + 2)
  }

  predicate IsDigit(b: u8) { DIGIT_0 <= b <= DIGIT_9 }

  function FromOption(r: Option<nat>): Frame {
    match r case None => Incomplete case Some(n) => Complete(n)
  }

  function SshLen(data: seq<u8>): Frame {
    match Find(data, [LF], 0)
    case None => Incomplete
    case Some(i) => Complete(i + 1)
  }

  function MysqlLen(data: seq<u8>, max: nat): Frame {
    if |data| < 4 then Incomplete else
    var total := data[0] as int + data[1] as int * 0x100 + data[2] as int * 0x1_0000 + 4;
    if total > max then Bad(Oversized)
    else if |data| >= total then Complete(total)
    else Incomplete
  }

  /** `ftp_len` and `smtp_len`, which are the same code. */
  function ReplyLen(data: seq<u8>): Frame {
    match LineEnd(data, 0)
    case None => Incomplete
    case Some(firstEnd) =>
      if |data| < 4 || !(IsDigit(data[0]) && IsDigit(data[1]) && IsDigit(data[2])) then Bad(ProtocolMismatch)
      else if data[3] == SPACE then Complete(firstEnd)
      else if data[3] != DASH then Bad(ProtocolMismatch)
      else FromOption(MultilineEnd(data, firstEnd))
  }

  /** `multiline_ftp_end`: the reply code and a space, anywhere after the first line, then a line break. */
  function MultilineEnd(data: seq<u8>, firstEnd: nat): (r: Option<nat>)
    requires 4 <= |data|
    ensures r.Some? ==> firstEnd < r.value <= |data|
  {
    match Find(data, ReplyNeedle(data), firstEnd)
    case None => None
    case Some(lineStart) => LineEnd(data, lineStart)
  }

  function RedisLen(data: seq<u8>): Frame {
    if data == [] then Incomplete
    else if data[0] == 43 || data[0] == 45 || data[0] == 58 || data[0] == 42 then FromOption(LineEnd(data, 0))
    else if data[0] == 36 then RedisBulkLen(data)
    else Bad(ProtocolMismatch)
  }

  /** Decimal digits to a number; none on an empty string or a byte that is no digit. */
  function ParseDigits(text: seq<u8>): Option<nat> {
    if text == [] then None
    else if !IsDigit(text[|text| - 1]) then None
    else
      var digit := text[|text| - 1] as int - 48;
      if |text| == 1 then Some(digit)
      else match ParseDigits(text[..|text| - 1])
        case None => None
        case Some(n) => Some(10 * n + digit)
  }

  /** `str::parse::<isize>`: an optional sign, digits, and the range of a 64-bit word. */
  function ParseIsize(text: seq<u8>): Option<int> {
    if text == [] then None
    else if text[0] == 45 then
      match ParseDigits(text[1..])
      case None => None
      case Some(n) => if n <= ISIZE_MAX + 1 then Some(-(n as int)) else None
    else
      match ParseDigits(if text[0] == 43 then text[1..] else text)
      case None => None
      case Some(n) => if n <= ISIZE_MAX then Some(n) else None
  }

  function RedisBulkLen(data: seq<u8>): Frame
    requires data != [] && data[0] == 36
  {
    match LineEnd(data, 0)
    case None => Incomplete
    case Some(headerEnd) =>
      assert headerEnd != 2;
      BulkFrame(ParseIsize(data[1..headerEnd - 2]), headerEnd, |data|)
  }

  /** What a bulk header says, given how many bytes are there. */
  function BulkFrame(announced: Option<int>, headerEnd: nat, available: nat): Frame {
    match announced
    case None => Bad(ProtocolMismatch)
    case Some(len) =>
      if len < 0 then Complete(headerEnd)
      else if headerEnd + len + 2 > USIZE_MAX then Bad(Oversized)
      else if available >= headerEnd + len + 2 then Complete(headerEnd + len + 2)
      else Incomplete
  }

  lemma BulkFrameGrows(announced: Option<int>, headerEnd: nat, available: nat, more: nat)
    requires headerEnd <= available
    ensures Agree(BulkFrame(announced, headerEnd, available), BulkFrame(announced, headerEnd, available + more),
      available)
  {
  }

  predicate IsAsciiAlphabetic(b: u8) { 65 <= b <= 90 || 97 <= b <= 122 }

  function PostgresLen(data: seq<u8>, max: nat): Frame {
    if |data| < 5 then Incomplete
    else if !IsAsciiAlphabetic(data[0]) then Bad(ProtocolMismatch)
    else
      var len := FromBe32(data[1..5]);
      if len < 4 then Bad(ProtocolMismatch)
      else if len + 1 > max then Bad(Oversized)
      else if |data| >= len + 1 then Complete(len + 1)
      else Incomplete
  }

  function MessageLen(protocol: Protocol, data: seq<u8>, max: nat): (f: Frame)
    ensures f.Complete? ==> 0 < f.length <= |data|
  {
    if |data| > max then Bad(Oversized) else
    match protocol
    case Ssh => SshLen(data)
    case Ftp => ReplyLen(data)
    case Mysql => MysqlLen(data, max)
    case Smtp => ReplyLen(data)
    case Redis => RedisLen(data)
    case Postgres => PostgresLen(data, max)
  }

  /* ----- searching in a growing stream ----- */

  /** What was found stays found, and what is found within the prefix was found there. */
  lemma {:induction false} FindGrows(data: seq<u8>, more: seq<u8>, needle: seq<u8>, from: nat)
    requires needle != []
    ensures Find(data, needle, from).Some? ==> Find(data + more, needle, from) == Find(data, needle, from)
    ensures Find(data + more, needle, from).Some? && Find(data + more, needle, from).value + |needle| <= |data| ==>
      Find(data, needle, from) == Find(data + more, needle, from)
    decreases |data| - from
  {
    if from + |needle| <= |data| {
      assert (data + more)[from..from + |needle|] == data[from..from + |needle|];
      if data[from..from + |needle|] != needle {
        FindGrows(data, more, needle, from + 1);
      }
    }
  }

  lemma LineEndGrows(data: seq<u8>, more: seq<u8>, from: nat)
    ensures LineEnd(data, from).Some? ==> LineEnd(data + more, from) == LineEnd(data, from)
    ensures LineEnd(data + more, from).Some? && LineEnd(data + more, from).value <= |data| ==>
      LineEnd(data, from) == LineEnd(data + more, from)
  {
    FindGrows(data, more, CRLF, from);
  }

  /** No line break starts inside a reply code and a space. */
  lemma LineAfterNeedle(data: seq<u8>, needle: seq<u8>, at: nat)
    requires |needle| == 4 && CR !in needle && at + 4 <= |data| && data[at..at + 4] == needle
    ensures LineEnd(data, at).Some? ==> LineEnd(data, at).value >= at + 6
  {
    assert forall k | 0 <= k < 4 :: data[at + k] == needle[k];
    assert forall k | 0 <= k < 4 :: needle[k] in needle;
    var r := LineEnd(data, at);
    if r.Some? {
      var k := r.value - 2 - at;
      assert data[at + k] == CR;
      assert k >= 4;
    }
  }

  predicate HasReplyCode(data: seq<u8>) {
    4 <= |data| && IsDigit(data[0]) && IsDigit(data[1]) && IsDigit(data[2])
  }

  /** The needle `multiline_ftp_end` looks for. */
  function ReplyNeedle(data: seq<u8>): (n: seq<u8>)
    requires 4 <= |data|
    ensures |n| == 4
  {
    data[..3] + [SPACE]
  }

  lemma NeedleHasNoBreak(data: seq<u8>)
    requires HasReplyCode(data)
    ensures CR !in ReplyNeedle(data)
  {
  }

  lemma MultilineGrows(data: seq<u8>, more: seq<u8>, firstEnd: nat)
    requires HasReplyCode(data)
    ensures MultilineEnd(data, firstEnd).Some? ==> MultilineEnd(data + more, firstEnd) == MultilineEnd(data, firstEnd)
    ensures MultilineEnd(data + more, firstEnd).Some? && MultilineEnd(data + more, firstEnd).value <= |data| ==>
      MultilineEnd(data, firstEnd) == MultilineEnd(data + more, firstEnd)
  {
    var needle := ReplyNeedle(data);
    assert ReplyNeedle(data + more) == needle by { assert (data + more)[..3] == data[..3]; }
    FindGrows(data, more, needle, firstEnd);
    NeedleHasNoBreak(data);
    var whole := Find(data + more, needle, firstEnd);
    if whole.Some? {
      LineEndGrows(data, more, whole.value);
      LineAfterNeedle(data + more, needle, whole.value);
    }
  }

  /* ----- stability and self-delimitation ----- */

  /** `f` on the prefix and `g` on the whole stream: decided answers agree both ways. */
  predicate Agree(f: Frame, g: Frame, prefix: nat) {
    && (Decided(f) ==> g == f)
    && (g.Complete? && g.length <= prefix ==> f == g)
  }

  lemma ReplyLenGrows(data: seq<u8>, more: seq<u8>)
    ensures Agree(ReplyLen(data), ReplyLen(data + more), |data|)
  {
    LineEndGrows(data, more, 0);
    if HasReplyCode(data) {
      var end := LineEnd(data + more, 0);
      if end.Some? { MultilineGrows(data, more, end.value); }
    } else if LineEnd(data, 0).Some? {
      ShortReplyIsBad(data, more);
    }
    ReplyLenReach(data + more);
  }

  /** A first line that ends before a reply code fits puts the line break among its digits. */
  lemma ShortReplyIsBad(data: seq<u8>, more: seq<u8>)
    requires !HasReplyCode(data) && LineEnd(data, 0).Some?
    ensures ReplyLen(data + more) == Bad(ProtocolMismatch)
  {
    LineEndGrows(data, more, 0);
    assert (data + more)[LineEnd(data, 0).value - 2] == CR;
    assert forall k | 0 <= k < |data| :: (data + more)[k] == data[k];
  }

  /** A complete reply contains its first line and its reply code. */
  lemma ReplyLenReach(data: seq<u8>)
    ensures ReplyLen(data).Complete? ==>
      && HasReplyCode(data)
      && 4 < LineEnd(data, 0).value <= ReplyLen(data).length <= |data|
  {
    if ReplyLen(data).Complete? {
      assert data[LineEnd(data, 0).value - 2] == CR;
    }
  }

  lemma RedisLenGrows(data: seq<u8>, more: seq<u8>)
    ensures Agree(RedisLen(data), RedisLen(data + more), |data|)
  {
    LineEndGrows(data, more, 0);
    if data != [] {
      assert (data + more)[0] == data[0];
      if data[0] == 36 { RedisBulkGrows(data, more); }
    }
  }

  lemma RedisBulkGrows(data: seq<u8>, more: seq<u8>)
    requires data != [] && data[0] == 36 && (data + more)[0] == 36
    ensures Agree(RedisBulkLen(data), RedisBulkLen(data + more), |data|)
  {
    LineEndGrows(data, more, 0);
    var end := LineEnd(data + more, 0);
    if end.Some? && end.value <= |data| {
      var header := data[1..end.value - 2];
      assert (data + more)[1..end.value - 2] == header;
      BulkFrameGrows(ParseIsize(header), end.value, |data|, |more|);
    } else {
      BulkReach(data + more);
    }
  }

  /** A complete bulk reply contains its header. */
  lemma BulkReach(data: seq<u8>)
    requires data != [] && data[0] == 36
    ensures RedisBulkLen(data).Complete? ==>
      LineEnd(data, 0).Some? && RedisBulkLen(data).length >= LineEnd(data, 0).value
  {
  }

  lemma FixedHeaderGrows(data: seq<u8>, more: seq<u8>, max: nat)
    ensures Agree(MysqlLen(data, max), MysqlLen(data + more, max), |data|)
    ensures Agree(PostgresLen(data, max), PostgresLen(data + more, max), |data|)
  {
    assert forall k | 0 <= k < |data| :: (data + more)[k] == data[k];
    if |data| >= 5 { assert (data + more)[1..5] == data[1..5]; }
  }

  lemma MessageLenGrows(protocol: Protocol, data: seq<u8>, more: seq<u8>, max: nat)
    requires |data| + |more| <= max
    ensures Agree(MessageLen(protocol, data, max), MessageLen(protocol, data + more, max), |data|)
  {
    match protocol
    case Ssh => FindGrows(data, more, [LF], 0);
    case Ftp => ReplyLenGrows(data, more);
    case Smtp => ReplyLenGrows(data, more);
    case Redis => RedisLenGrows(data, more);
    case Mysql => FixedHeaderGrows(data, more, max);
    case Postgres => FixedHeaderGrows(data, more, max);
  }

  /** Within the size limit a decided answer never changes when bytes arrive. */
  lemma DecisionIsStable(protocol: Protocol, data: seq<u8>, more: seq<u8>, max: nat)
    requires |data| + |more| <= max && Decided(MessageLen(protocol, data, max))
    ensures MessageLen(protocol, data + more, max) == MessageLen(protocol, data, max)
  {
    MessageLenGrows(protocol, data, more, max);
  }

  /** An accepted message lies within the data, is not empty, and is accepted again on its own. */
  lemma AcceptedIsSelfDelimiting(protocol: Protocol, data: seq<u8>, max: nat)
    requires MessageLen(protocol, data, max).Complete?
    ensures var n := MessageLen(protocol, data, max).length;
      0 < n <= |data| && MessageLen(protocol, data[..n], max) == Complete(n)
  {
    var n := MessageLen(protocol, data, max).length;
    if protocol.Ftp? || protocol.Smtp? { ReplyLenReach(data); }
    assert 0 < n <= |data|;
    assert data == data[..n] + data[n..];
    MessageLenGrows(protocol, data[..n], data[n..], max);
  }
}
