/**
 The two banner parsers that index raw bytes, and the banners the simulator builds for them.
 Text is kept as bytes.
 */
module Parsers {
  import opened Words
  import opened Bits
  import opened Endpoints
  import opened Results
  import opened Frames

  datatype MysqlFields = MysqlFields(protocolVersion: u8, serverVersion: seq<u8>, connectionId: u32, capabilities: nat)

  const MYSQL_PROTOCOL: u8 := 10

  /** `parse_mysql`, total on every byte string. */
  function ParseMysql(data: seq<u8>): Result<MysqlFields, BannerStatus> {
    if |data| < 5 || data[3] != 0 then Err(ProtocolMismatch) else ParseMysqlPayload(data[4..])
  }

  function ParseMysqlPayload(payload: seq<u8>): Result<MysqlFields, BannerStatus>
    requires payload != []
  {
    if payload[0] != MYSQL_PROTOCOL then Err(ProtocolMismatch) else
    match Find(payload, [0], 1)
    case None => Err(ProtocolMismatch)
    case Some(nul) =>
      if |payload| < nul + 5 then Err(ProtocolMismatch) else Ok(FieldsAt(payload, nul))
  }

  /** The fields around the NUL that ends the version. */
  function FieldsAt(payload: seq<u8>, nul: nat): MysqlFields
    requires 1 <= nul && nul + 5 <= |payload|
  {
    var low := if |payload| >= nul + 18 then FromLe16(payload[nul + 14..nul + 16]) else 0;
    var high := if |payload| >= nul + 21 then FromLe16(payload[nul + 19..nul + 21]) else 0;
    MysqlFields(payload[0], payload[1..nul], FromLe32(payload[nul + 1..nul + 5]), Capabilities(low, high))
  }

  /** `low | (high << 16)`. */
  function Capabilities(low: u16, high: u16): nat {
    Or(low, high * Pow2(16))
  }

  /** The greeting payload `mysql_banner` builds, with its constants as parameters. */
  function GreetingPayload(
      version: seq<u8>, id: u32, salt: seq<u8>, low: u16, charset: u8, status: u16, high: u16): seq<u8> {
    [MYSQL_PROTOCOL] + version + [0] + Le32(id) + salt + [0] + Le16(low) + [charset] + Le16(status) + Le16(high)
  }

  /** The packet header carries the low two bytes of the length. */
  function MysqlPacket(payload: seq<u8>): seq<u8> {
    [|payload| % 0x100, |payload| / 0x100 % 0x100, 0, 0] + payload
  }

  lemma {:induction false} FindSkips(data: seq<u8>, byte: u8, from: nat, at: nat)
    requires from <= at < |data| && data[at] == byte
    requires forall k | from <= k < at :: data[k] != byte
    ensures Find(data, [byte], from) == Some(at)
    decreases at - from
  {
    assert data[from..from + 1] == [data[from]];
    if from < at {
      assert data[from..from + 1][0] != byte;
      FindSkips(data, byte, from + 1, at);
    }
  }

  lemma {:induction false} OrCommutes(a: nat, b: nat)
    ensures Or(a, b) == Or(b, a)
    decreases a + b
  {
    if a != 0 || b != 0 { OrCommutes(a / 2, b / 2); }
  }

  /** The halves of the capability word do not overlap. */
  lemma JoinHalves(low: u16, high: u16)
    ensures Capabilities(low, high) == low + 0x1_0000 * high
  {
    Pow2OfBytes(2);
    OrCommutes(low, high * Pow2(16));
    OrShifted(high, low, 16);
  }

  /** A greeting is framed whole, and parsing it recovers version, connection id and both capability halves. */
  lemma GreetingParses(
      version: seq<u8>, id: u32, salt: seq<u8>, low: u16, charset: u8, status: u16, high: u16, max: nat)
    requires 0 !in version && |salt| == 8 && |version| + 27 < 0x1_0000 && |version| + 31 <= max
    ensures
      var banner := MysqlPacket(GreetingPayload(version, id, salt, low, charset, status, high));
      && MessageLen(Mysql, banner, max) == Complete(|banner|)
      && ParseMysql(banner) == Ok(MysqlFields(10, version, id, low + 0x1_0000 * high))
  {
    var payload := GreetingPayload(version, id, salt, low, charset, status, high);
    GreetingFrame(payload, max);
    assert MysqlPacket(payload)[4..] == payload;
    GreetingFields(version, id, salt, low, charset, status, high);
  }

  lemma GreetingFrame(payload: seq<u8>, max: nat)
    requires |payload| < 0x1_0000 && |payload| + 4 <= max
    ensures MessageLen(Mysql, MysqlPacket(payload), max) == Complete(|payload| + 4)
  {
    assert |payload| == |payload| % 0x100 + |payload| / 0x100 * 0x100;
  }

  lemma GreetingFields(version: seq<u8>, id: u32, salt: seq<u8>, low: u16, charset: u8, status: u16, high: u16)
    requires 0 !in version && |salt| == 8
    ensures ParseMysqlPayload(GreetingPayload(version, id, salt, low, charset, status, high))
         == Ok(MysqlFields(MYSQL_PROTOCOL, version, id, low + 0x1_0000 * high))
  {
    var payload := GreetingPayload(version, id, salt, low, charset, status, high);
    var nul := |version| + 1;
    GreetingLayout(version, Le32(id), salt, Le16(low), charset, Le16(status), Le16(high));
    FindSkips(payload, 0, 1, nul);
    Le32RoundTrip(id);
    Le16RoundTrip(low);
    Le16RoundTrip(high);
    LongPayload(payload, nul);
    JoinHalves(low, high);
  }

  lemma GreetingLayout(
      version: seq<u8>, id: seq<u8>, salt: seq<u8>, low: seq<u8>, charset: u8, status: seq<u8>, high: seq<u8>)
    requires 0 !in version && |id| == 4 && |salt| == 8 && |low| == 2 && |status| == 2 && |high| == 2
    ensures
      var payload := [MYSQL_PROTOCOL] + version + [0] + id + salt + [0] + low + [charset] + status + high;
      var nul := |version| + 1;
      && |payload| == nul + 21 && payload[0] == MYSQL_PROTOCOL
      && payload[1..nul] == version && payload[nul] == 0 && (forall k | 1 <= k < nul :: payload[k] != 0)
      && payload[nul + 1..nul + 5] == id
      && payload[nul + 14..nul + 16] == low
      && payload[nul + 19..nul + 21] == high
  {
    assert forall k | 0 <= k < |version| :: version[k] in version;
  }

  lemma LongPayload(payload: seq<u8>, nul: nat)
    requires 1 <= nul && nul + 21 <= |payload|
    ensures FieldsAt(payload, nul) == MysqlFields(
      payload[0],
      payload[1..nul],
      FromLe32(payload[nul + 1..nul + 5]),
      Capabilities(FromLe16(payload[nul + 14..nul + 16]), FromLe16(payload[nul + 19..nul + 21])))
  {
  }

  /** A greeting whose version ends at `nul`, with room for the connection id behind it. */
  predicate Greets(data: seq<u8>, nul: nat) {
    && 5 <= nul && nul + 5 <= |data| && data[3] == 0 && data[4] == 10
    && data[nul] == 0 && forall k | 5 <= k < nul :: data[k] != 0
  }

  /** Its fields; those that are not there yet count as zero. */
  function GreetingAt(data: seq<u8>, nul: nat): MysqlFields
    requires Greets(data, nul)
  {
    var low := if |data| >= nul + 18 then FromLe16(data[nul + 14..nul + 16]) else 0;
    var high := if |data| >= nul + 21 then FromLe16(data[nul + 19..nul + 21]) else 0;
    MysqlFields(10, data[5..nul], FromLe32(data[nul + 1..nul + 5]), low + 0x1_0000 * high)
  }

  /** Parsing succeeds exactly on greetings, and reads every field at its place. */
  lemma MysqlParsesIff(data: seq<u8>)
    ensures ParseMysql(data).Ok? <==> exists nul: nat :: Greets(data, nul)
    ensures ParseMysql(data).Err? ==> ParseMysql(data) == Err(ProtocolMismatch)
    ensures forall nul: nat | Greets(data, nul) :: ParseMysql(data) == Ok(GreetingAt(data, nul))
  {
    if ParseMysql(data).Ok? {
      var nul := Find(data[4..], [0], 1).value;
      FindIsFirst(data[4..], 0, 1);
      assert Greets(data, nul + 4) by {
        forall k | 5 <= k < nul + 4 ensures data[k] != 0 { assert data[4..][k - 4] == data[k]; }
      }
    }
    forall nul: nat | Greets(data, nul) ensures ParseMysql(data) == Ok(GreetingAt(data, nul)) {
      GreetingIsParsed(data, nul);
    }
  }

  lemma GreetingIsParsed(data: seq<u8>, nul: nat)
    requires Greets(data, nul)
    ensures ParseMysql(data) == Ok(GreetingAt(data, nul))
  {
    var payload := data[4..];
    assert forall k | 1 <= k < nul - 4 :: payload[k] == data[k + 4];
    FindSkips(payload, 0, 1, nul - 4);
    FieldsInPlace(data, nul);
  }

  lemma FieldsInPlace(data: seq<u8>, nul: nat)
    requires Greets(data, nul)
    ensures FieldsAt(data[4..], nul - 4) == GreetingAt(data, nul)
  {
    SameSlices(data, nul);
    JoinHalves(
      if |data| >= nul + 18 then FromLe16(data[nul + 14..nul + 16]) else 0,
      if |data| >= nul + 21 then FromLe16(data[nul + 19..nul + 21]) else 0);
  }

  lemma SameSlices(data: seq<u8>, nul: nat)
    requires 5 <= nul && nul + 5 <= |data|
    ensures data[4..][1..nul - 4] == data[5..nul]
    ensures data[4..][nul - 3..nul + 1] == data[nul + 1..nul + 5]
    ensures |data| >= nul + 18 ==> data[4..][nul + 10..nul + 12] == data[nul + 14..nul + 16]
    ensures |data| >= nul + 21 ==> data[4..][nul + 15..nul + 17] == data[nul + 19..nul + 21]
  {
  }

  lemma {:induction false} FindIsFirst(data: seq<u8>, byte: u8, from: nat)
    ensures Find(data, [byte], from).Some? ==>
      var i := Find(data, [byte], from).value; data[i] == byte && forall k | from <= k < i :: data[k] != byte
    decreases |data| - from
  {
    if from < |data| {
      assert data[from..from + 1] == [data[from]];
      if data[from] != byte {
        assert data[from..from + 1][0] != byte;
        FindIsFirst(data, byte, from + 1);
      } else {
        assert data[from..from + 1] == [byte];
      }
    }
  }

  /* ----- PostgreSQL ----- */

  const TAG_ERROR: u8 := 69
  const TAG_NOTICE: u8 := 78
  const TAG_SEVERITY: u8 := 83
  const TAG_MESSAGE: u8 := 77

  datatype PostgresFields = PostgresFields(messageType: u8, severity: Option<seq<u8>>, message: Option<seq<u8>>)

  /** The text of the last field with this tag. */
  function LastTagged(fields: seq<seq<u8>>, tag: u8): Option<seq<u8>> {
    if fields == [] then None
    else
      var last := fields[|fields| - 1];
      if last != [] && last[0] == tag then Some(last[1..]) else LastTagged(fields[..|fields| - 1], tag)
  }

  /** `parse_postgres` on anything but a non-empty input shorter than a frame header. */
  method ParsePostgres(data: seq<u8>) returns (r: Result<PostgresFields, BannerStatus>)
    requires data == [] || |data| >= 5
    ensures data == [] ==> r == Err(ProtocolMismatch)
    ensures data != [] ==> r == Ok(PostgresParsed(data))
    ensures data != [] && data[0] != 'E' as int && data[0] != 'N' as int ==>
      r == Ok(PostgresFields(data[0], None, None))
  {
    if data == [] { return Err(ProtocolMismatch); }
    var payload := data[5..];
    var severity: Option<seq<u8>>, message: Option<seq<u8>> := None, None;
    if data[0] == TAG_ERROR || data[0] == TAG_NOTICE {
      var fields := Split(payload, 0);
      for i := 0 to |fields|
        invariant severity == LastTagged(fields[..i], TAG_SEVERITY)
        invariant message == LastTagged(fields[..i], TAG_MESSAGE)
      {
        assert fields[..i + 1][..i] == fields[..i];
        var field := fields[i];
        if field != [] {
          if field[0] == TAG_SEVERITY { severity := Some(field[1..]); }
          else if field[0] == TAG_MESSAGE { message := Some(field[1..]); }
        }
      }
      assert fields[..|fields|] == fields;
    }
    return Ok(PostgresFields(data[0], severity, message));
  }

  function PostgresParsed(data: seq<u8>): PostgresFields
    requires |data| >= 5
  {
    if data[0] == TAG_ERROR || data[0] == TAG_NOTICE then
      var fields := Split(data[5..], 0);
      PostgresFields(data[0], LastTagged(fields, TAG_SEVERITY), LastTagged(fields, TAG_MESSAGE))
    else PostgresFields(data[0], None, None)
  }

  /** Every frame the recogniser accepts meets the parser's bounds. */
  lemma AcceptedPostgresParses(data: seq<u8>, max: nat)
    requires MessageLen(Postgres, data, max).Complete?
    ensures |data[..MessageLen(Postgres, data, max).length]| >= 5
  {
  }

  /** Fields closed by NUL bytes, and one more NUL. */
  function PrintFields(fields: seq<seq<u8>>): seq<u8> {
    if fields == [] then [0] else fields[0] + [0] + PrintFields(fields[1..])
  }

  function PostgresPacket(kind: u8, payload: seq<u8>): seq<u8>
    requires |payload| + 4 < 0x1_0000_0000
  {
    [kind] + Be32(|payload| + 4) + payload
  }

  lemma {:induction false} SplitFields(fields: seq<seq<u8>>)
    requires forall f | f in fields :: 0 !in f
    ensures Split(PrintFields(fields), 0) == fields + [[], []]
  {
    if fields == [] {
      assert Split([0], 0) == [[]] + Split([0][1..], 0);
    } else {
      assert fields[0] in fields && forall f | f in fields[1..] :: f in fields;
      SplitFields(fields[1..]);
      SplitPrefix(fields[0], 0, PrintFields(fields[1..]));
      assert [fields[0]] + fields[1..] == fields;
    }
  }

  lemma TrailingEmpty(fields: seq<seq<u8>>, tag: u8)
    ensures LastTagged(fields + [[], []], tag) == LastTagged(fields, tag)
  {
    assert (fields + [[], []])[..|fields| + 1] == fields + [[]];
    assert (fields + [[]])[..|fields|] == fields;
  }

  /** An error or notice is framed whole, and parsing it recovers its last severity and message. */
  lemma NoticeParses(kind: u8, fields: seq<seq<u8>>, max: nat)
    requires kind == 'E' as int || kind == 'N' as int
    requires forall f | f in fields :: 0 !in f
    requires |PrintFields(fields)| + 4 < 0x1_0000_0000 && |PrintFields(fields)| + 5 <= max
    ensures
      var banner := PostgresPacket(kind, PrintFields(fields));
      && MessageLen(Postgres, banner, max) == Complete(|banner|)
      && PostgresParsed(banner)
          == PostgresFields(kind, LastTagged(fields, 'S' as int), LastTagged(fields, 'M' as int))
  {
    NoticeFrame(kind, PrintFields(fields), max);
    SplitFields(fields);
    TrailingEmpty(fields, TAG_SEVERITY);
    TrailingEmpty(fields, TAG_MESSAGE);
  }

  lemma NoticeFrame(kind: u8, payload: seq<u8>, max: nat)
    requires IsAsciiAlphabetic(kind) && |payload| + 4 < 0x1_0000_0000 && |payload| + 5 <= max
    ensures MessageLen(Postgres, PostgresPacket(kind, payload), max) == Complete(|payload| + 5)
    ensures PostgresPacket(kind, payload)[5..] == payload
  {
    var length := Be32(|payload| + 4);
    Be32RoundTrip(|payload| + 4);
    HeaderDecides(kind, length, payload, max);
  }

  lemma HeaderDecides(kind: u8, length: seq<u8>, payload: seq<u8>, max: nat)
    requires IsAsciiAlphabetic(kind) && |length| == 4 && FromBe32(length) == |payload| + 4 && |payload| + 5 <= max
    ensures MessageLen(Postgres, [kind] + length + payload, max) == Complete(|payload| + 5)
    ensures ([kind] + length + payload)[5..] == payload
  {
    assert ([kind] + length + payload)[1..5] == length;
  }
}
