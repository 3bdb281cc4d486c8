/**
 The SSH key-exchange packet: the probe's printer and the parser for replies.
 Packet layout as in section 6 of RFC 4253, KEXINIT payload as in its section 7.1, name-lists
 as in section 5 of RFC 4251.
 */
module SshKexInit {
  import opened Words
  import opened Results

  const COMMA: u8 := 44
  const SSH_MSG_KEXINIT: u8 := 20
  const COOKIE_LENGTH: nat := 16
  const LISTS: nat := 10
  const BLOCK: nat := 8

  type Name = seq<u8>

  /** Text that `str::from_utf8` accepts (RFC 3629, section 4). */
  predicate Utf8(s: seq<u8>) {
    s == [] || (0 < Lead(s) <= |s| && Utf8(s[Lead(s)..]))
  }

  predicate Tail(b: u8) { 0x80 <= b <= 0xbf }

  /** Length of the code point at the start, 0 when there is none. */
  function Lead(s: seq<u8>): (n: nat)
    requires s != []
    ensures n <= |s|
  {
    var b := s[0];
    if b <= 0x7f then 1
    else if 0xc2 <= b <= 0xdf then (if |s| >= 2 && Tail(s[1]) then 2 else 0)
    else if 0xe0 <= b <= 0xef then
      if |s| >= 3 && Tail(s[1]) && Tail(s[2]) && (b == 0xe0 ==> s[1] >= 0xa0) && (b == 0xed ==> s[1] <= 0x9f)
      then 3 else 0
    else if 0xf0 <= b <= 0xf4 then
      if |s| >= 4 && Tail(s[1]) && Tail(s[2]) && Tail(s[3])
         && (b == 0xf0 ==> s[1] >= 0x90) && (b == 0xf4 ==> s[1] <= 0x8f)
      then 4 else 0
    else 0
  }

  lemma {:induction false} Utf8Concat(a: seq<u8>, b: seq<u8>)
    requires Utf8(a) && Utf8(b)
    ensures Utf8(a + b)
    decreases |a|
  {
    if a == [] {
      assert a + b == b;
    } else {
      var n := Lead(a);
      assert Lead(a + b) == n;
      assert (a + b)[n..] == a[n..] + b;
      Utf8Concat(a[n..], b);
    }
  }

  /** A Unicode scalar value: a code point that is no surrogate. */
  predicate Scalar(c: nat) {
    c < 0xd800 || 0xe000 <= c <= 0x10_ffff
  }

  /** Its encoding (RFC 3629, section 3). */
  function EncodeScalar(c: nat): (b: seq<u8>)
    requires Scalar(c)
    ensures 1 <= |b| <= 4
  {
    if c < 0x80 then [c]
    else if c < 0x800 then [0xc0 + c / 0x40, 0x80 + c % 0x40]
    else if c < 0x1_0000 then [0xe0 + c / 0x1000, 0x80 + c / 0x40 % 0x40, 0x80 + c % 0x40]
    else [0xf0 + c / 0x4_0000, 0x80 + c / 0x1000 % 0x40, 0x80 + c / 0x40 % 0x40, 0x80 + c % 0x40]
  }

  function EncodeText(cs: seq<nat>): seq<u8>
    requires forall c | c in cs :: Scalar(c)
  {
    if cs == [] then [] else assert cs[0] in cs; EncodeScalar(cs[0]) + EncodeText(cs[1..])
  }

  lemma LeadOfScalar(c: nat, rest: seq<u8>)
    requires Scalar(c)
    ensures Lead(EncodeScalar(c) + rest) == |EncodeScalar(c)|
  {
    Digits64(c);
  }

  /** The digits of a scalar value to base 64. */
  lemma Digits64(c: nat)
    ensures c / 0x40 / 0x40 == c / 0x1000 && c / 0x1000 / 0x40 == c / 0x4_0000
    ensures c == c / 0x40 * 0x40 + c % 0x40
    ensures c / 0x40 == c / 0x1000 * 0x40 + c / 0x40 % 0x40
    ensures c / 0x1000 == c / 0x4_0000 * 0x40 + c / 0x1000 % 0x40
  {
  }

  /** The scalar value a lead and its tail stand for. */
  lemma ScalarAtLead(s: seq<u8>) returns (c: nat)
    requires s != [] && Lead(s) > 0
    ensures Scalar(c) && EncodeScalar(c) == s[..Lead(s)]
  {
    match Lead(s)
    case 1 => c := s[0];
    case 2 => c := TwoDigits(s[0] - 0xc0, s[1] - 0x80);
    case 3 => c := ThreeDigits(s[0] - 0xe0, s[1] - 0x80, s[2] - 0x80);
    case 4 => c := FourDigits(s[0] - 0xf0, s[1] - 0x80, s[2] - 0x80, s[3] - 0x80);
  }

  lemma TwoDigits(a: nat, b: nat) returns (c: nat)
    requires 2 <= a <= 0x1f && b < 0x40
    ensures 0x80 <= c < 0x800 && c / 0x40 == a && c % 0x40 == b
  {
    c := a * 0x40 + b;
  }

  lemma ThreeDigits(a: nat, b: nat, d: nat) returns (c: nat)
    requires a <= 0xf && b < 0x40 && d < 0x40 && (a == 0 ==> b >= 0x20) && (a == 0xd ==> b <= 0x1f)
    ensures 0x800 <= c < 0x1_0000 && Scalar(c)
    ensures c / 0x1000 == a && c / 0x40 % 0x40 == b && c % 0x40 == d
  {
    c := (a * 0x40 + b) * 0x40 + d;
    Digits64(c);
  }

  lemma FourDigits(a: nat, b: nat, d: nat, e: nat) returns (c: nat)
    requires a <= 4 && b < 0x40 && d < 0x40 && e < 0x40 && (a == 0 ==> b >= 0x10) && (a == 4 ==> b <= 0xf)
    ensures 0x1_0000 <= c <= 0x10_ffff
    ensures c / 0x4_0000 == a && c / 0x1000 % 0x40 == b && c / 0x40 % 0x40 == d && c % 0x40 == e
  {
    c := ((a * 0x40 + b) * 0x40 + d) * 0x40 + e;
    Digits64(c);
  }

  /** The accepted texts are exactly the encodings of sequences of scalar values. */
  lemma Utf8Iff(s: seq<u8>)
    ensures Utf8(s) <==> exists cs: seq<nat> :: (forall c | c in cs :: Scalar(c)) && EncodeText(cs) == s
  {
    if Utf8(s) { var cs := Utf8Decodes(s); }
    if cs: seq<nat> :| (forall c | c in cs :: Scalar(c)) && EncodeText(cs) == s { EncodedIsUtf8(cs); }
  }

  lemma {:induction false} EncodedIsUtf8(cs: seq<nat>)
    requires forall c | c in cs :: Scalar(c)
    ensures Utf8(EncodeText(cs))
  {
    if cs != [] {
      var rest := EncodeText(cs[1..]);
      assert cs[0] in cs && forall c | c in cs[1..] :: c in cs;
      EncodedIsUtf8(cs[1..]);
      LeadOfScalar(cs[0], rest);
      assert (EncodeScalar(cs[0]) + rest)[|EncodeScalar(cs[0])|..] == rest;
    }
  }

  lemma {:induction false} Utf8Decodes(s: seq<u8>) returns (cs: seq<nat>)
    requires Utf8(s)
    ensures (forall c | c in cs :: Scalar(c)) && EncodeText(cs) == s
    decreases |s|
  {
    if s == [] {
      cs := [];
    } else {
      var c := ScalarAtLead(s);
      var rest := Utf8Decodes(s[Lead(s)..]);
      cs := [c] + rest;
      assert cs[1..] == rest;
      assert s == s[..Lead(s)] + s[Lead(s)..];
    }
  }

  /* ----- name-lists ----- */

  /** `names.join(",")`. */
  function JoinNames(names: seq<Name>): seq<u8> {
    if names == [] then []
    else if |names| == 1 then names[0]
    else names[0] + [COMMA] + JoinNames(names[1..])
  }

  /** `text.split(',')`. */
  function SplitNames(text: seq<u8>): (names: seq<Name>)
    ensures names != []
    ensures forall n | n in names :: COMMA !in n
  {
    Split(text, COMMA)
  }

  /** Splitting undoes joining for every non-empty list of comma-free names. */
  lemma {:induction false} SplitJoin(names: seq<Name>)
    requires names != [] && forall n | n in names :: COMMA !in n
    ensures SplitNames(JoinNames(names)) == names
  {
    assert names[0] in names;
    if |names| == 1 {
      SplitPrefix(names[0], COMMA, []);
    } else {
      assert forall n | n in names[1..] :: n in names;
      SplitJoin(names[1..]);
      SplitPrefix(names[0], COMMA, JoinNames(names[1..]));
      assert [names[0]] + names[1..] == names;
    }
  }

  lemma {:induction false} JoinEmpty(names: seq<Name>)
    ensures JoinNames(names) == [] <==> names == [] || names == [[]]
  {
    if |names| == 1 { assert names == [names[0]]; }
  }

  lemma CommaBetween(a: seq<u8>, b: seq<u8>)
    requires Utf8(a) && Utf8(b)
    ensures Utf8(a + [COMMA] + b)
  {
    assert Utf8([COMMA]) by { assert Lead([COMMA]) == 1; assert [COMMA][1..] == []; }
    Utf8Concat(a, [COMMA]);
    Utf8Concat(a + [COMMA], b);
  }

  lemma {:induction false} JoinUtf8(names: seq<Name>)
    requires forall n | n in names :: Utf8(n)
    ensures Utf8(JoinNames(names))
  {
    if names != [] {
      assert names[0] in names;
      if |names| > 1 {
        assert forall n | n in names[1..] :: n in names;
        JoinUtf8(names[1..]);
        CommaBetween(names[0], JoinNames(names[1..]));
      }
    }
  }

  /** What a list reads back as. */
  function ListOf(raw: seq<u8>): seq<Name> {
    if raw == [] then [] else SplitNames(raw)
  }

  /** A list survives printing and parsing. */
  predicate Survives(names: seq<Name>) {
    ListOf(JoinNames(names)) == names
  }

  /** Exactly the lists of comma-free names other than the list of one empty name survive. */
  lemma SurvivesIff(names: seq<Name>)
    ensures Survives(names) <==> Faithful(names)
  {
    JoinEmpty(names);
    if names != [] && forall n | n in names :: COMMA !in n { SplitJoin(names); }
  }

  /** `write_ssh_namelist`: the length is cut to 32 bits. */
  function PrintList(names: seq<Name>): seq<u8> {
    PrintText(JoinNames(names))
  }

  function PrintText(text: seq<u8>): seq<u8> {
    Length32(|text|) + text
  }

  function Length32(length: nat): (bytes: seq<u8>)
    ensures |bytes| == 4
  {
    Be32(length % 0x1_0000_0000)
  }

  datatype Cursor = Cursor(names: seq<Name>, next: nat)

  /** `read_ssh_namelist` from position `at`. */
  function ReadList(data: seq<u8>, at: nat): (r: Result<Cursor, BannerStatus>)
    ensures r.Ok? ==> at + 4 <= r.value.next <= |data|
  {
    if |data| - at < 4 then Err(ProtocolMismatch) else
    var len := FromBe32(data[at..at + 4]);
    if |data| - (at + 4) < len then Err(ProtocolMismatch) else
    Decoded(data[at + 4..at + 4 + len], at + 4 + len)
  }

  /** The names in the bytes of a list, and where it ends. */
  function Decoded(raw: seq<u8>, end: nat): (r: Result<Cursor, BannerStatus>)
    ensures r.Ok? ==> r.value.next == end
  {
    if Utf8(raw) then Ok(Cursor(ListOf(raw), end)) else Err(ProtocolMismatch)
  }

  type Reader = nat -> Result<Cursor, BannerStatus>

  function ListReader(data: seq<u8>): Reader { (at: nat) => ReadList(data, at) }

  /** `count` reads in a row. */
  function Repeat(read: Reader, at: nat, count: nat): (r: Result<(seq<seq<Name>>, nat), BannerStatus>)
    ensures r.Ok? ==> |r.value.0| == count
    decreases count
  {
    if count == 0 then Ok(([], at)) else
    match read(at)
    case Err(e) => Err(e)
    case Ok(first) =>
      match Repeat(read, first.next, count - 1)
      case Err(e) => Err(e)
      case Ok(rest) => Ok(([first.names] + rest.0, rest.1))
  }

  /** The lists of a successful read, and where it ended. */
  predicate Gives(r: Result<(seq<seq<Name>>, nat), BannerStatus>, lists: seq<seq<Name>>, end: nat) {
    r.Ok? && r.value.0 == lists && r.value.1 == end
  }

  function ReadLists(data: seq<u8>, at: nat, count: nat): (r: Result<(seq<seq<Name>>, nat), BannerStatus>)
    ensures r.Ok? ==> |r.value.0| == count
  {
    Repeat(ListReader(data), at, count)
  }

  /* ----- packets ----- */

  /** `ssh_packet_payload`. */
  function Payload(data: seq<u8>): Result<seq<u8>, BannerStatus> {
    if |data| < 5 then Err(ProtocolMismatch) else
    var packetLength := FromBe32(data[..4]);
    var padding := data[4] as int;
    if packetLength + 4 != |data| || packetLength < padding + 1 then Err(ProtocolMismatch)
    else Ok(data[5..5 + (packetLength - padding - 1)])
  }

  /** `parse_ssh_kexinit_packet`: the first eight of the ten lists. */
  function Parse(data: seq<u8>): Result<seq<seq<Name>>, BannerStatus> {
    match Payload(data)
    case Err(e) => Err(e)
    case Ok(payload) =>
      if payload == [] || payload[0] != SSH_MSG_KEXINIT || |payload| < 17 then Err(ProtocolMismatch) else
      match ReadLists(payload, 17, LISTS)
      case Err(e) => Err(e)
      case Ok((lists, next)) => if |payload| - next < 5 then Err(ProtocolMismatch) else Ok(lists[..8])
  }

  function PrintLists(lists: seq<seq<Name>>): seq<u8> {
    if lists == [] then [] else PrintList(lists[0]) + PrintLists(lists[1..])
  }

  function PrintPayload(cookie: seq<u8>, lists: seq<seq<Name>>): seq<u8> {
    [SSH_MSG_KEXINIT] + cookie + PrintLists(lists) + [0] + Be32(0)
  }

  /** Padding that brings the packet to a multiple of the block size, four bytes at least. */
  function PaddingLength(payload: nat): nat {
    var padding := BLOCK - (payload + 5) % BLOCK;
    if padding < 4 then padding + BLOCK else padding
  }

  function PrintPacket(payload: seq<u8>, padding: seq<u8>): seq<u8>
    requires |padding| < 0x100
  {
    Length32(|payload| + |padding| + 1) + [|padding|] + payload + padding
  }

  /** `build_ssh_kexinit_probe`, over any ten lists, cookie and random padding. */
  method BuildProbe(cookie: seq<u8>, lists: seq<seq<Name>>, random: nat -> u8)
    returns (packet: seq<u8>, ghost padding: seq<u8>)
    requires |cookie| == 16 && |lists| == 10
    ensures |padding| == PaddingLength(|PrintPayload(cookie, lists)|) && 4 <= |padding| <= 11
    ensures packet == PrintPacket(PrintPayload(cookie, lists), padding)
    ensures |packet| % 8 == 0 && packet[5] == 20
  {
    var payload: seq<u8> := [SSH_MSG_KEXINIT];
    payload := payload + cookie;
    for i := 0 to |lists|
      invariant payload + PrintLists(lists[i..]) == [SSH_MSG_KEXINIT] + cookie + PrintLists(lists)
    {
      assert lists[i..][0] == lists[i] && lists[i..][1..] == lists[i + 1..];
      payload := WriteList(payload, lists[i]);
    }
    assert payload == [SSH_MSG_KEXINIT] + cookie + PrintLists(lists);
    payload := payload + [0];
    payload := payload + Be32(0);
    var paddingLength := BLOCK - (|payload| + 5) % BLOCK;
    if paddingLength < 4 {
      paddingLength := paddingLength + BLOCK;
    }
    var packetLength := |payload| + paddingLength + 1;
    var filler := seq(paddingLength, i requires 0 <= i < paddingLength => random(i));
    packet := Length32(packetLength);
    packet := packet + [paddingLength];
    packet := packet + payload;
    packet := packet + filler;
    padding := filler;
    WholeBlocks(|payload|);
  }

  /** `write_ssh_namelist`. */
  method WriteList(out: seq<u8>, names: seq<Name>) returns (longer: seq<u8>)
    ensures longer == out + PrintList(names)
  {
    var value := JoinNames(names);
    longer := out + Length32(|value|);
    longer := longer + value;
  }

  lemma WholeBlocks(payload: nat)
    ensures (payload + PaddingLength(payload) + 5) % BLOCK == 0
    ensures 4 <= PaddingLength(payload) <= 11
  {
  }

  /** `parse_ssh_kexinit_packet` with its cursor, list after list. */
  method ParsePacket(data: seq<u8>) returns (r: Result<seq<seq<Name>>, BannerStatus>)
    ensures r == Parse(data)
  {
    var body := Payload(data);
    if body.Err? { return Err(body.error); }
    var payload := body.value;
    if payload == [] || payload[0] != SSH_MSG_KEXINIT { return Err(ProtocolMismatch); }
    if |payload| < 17 { return Err(ProtocolMismatch); }
    var lists, cursor := ReadListsLoop(payload, 17, LISTS);
    if lists.Err? { return Err(lists.error); }
    if |payload| - cursor < 5 { return Err(ProtocolMismatch); }
    return Ok(lists.value[..8]);
  }

  /** What it accepts: a length that counts the bytes behind it, message 20, ten lists and five bytes more. */
  lemma ParsedIsPacket(data: seq<u8>)
    requires Parse(data).Ok?
    ensures |data| >= 5 + 17 && FromBe32(data[..4]) + 4 == |data| && data[5] == 20
    ensures 1 + 17 + 10 * 4 + 5 + data[4] as int <= FromBe32(data[..4])
    ensures |Parse(data).value| == 8
  {
    var payload := Payload(data).value;
    var end := ReadLists(payload, 17, LISTS).value.1;
    RepeatReach(payload, 17, LISTS);
    assert payload[0] == data[5];
  }

  lemma {:induction false} RepeatReach(data: seq<u8>, at: nat, count: nat)
    requires ReadLists(data, at, count).Ok?
    ensures ReadLists(data, at, count).value.1 >= at + 4 * count
    decreases count
  {
    if count > 0 { RepeatReach(data, ReadList(data, at).value.next, count - 1); }
  }

  /** The successive `read_ssh_namelist` calls, moving the cursor. */
  method ReadListsLoop(payload: seq<u8>, start: nat, count: nat)
    returns (r: Result<seq<seq<Name>>, BannerStatus>, cursor: nat)
    ensures match ReadLists(payload, start, count)
      case Err(e) => r == Err(e)
      case Ok((lists, next)) => r == Ok(lists) && cursor == next
  {
    cursor := start;
    var lists: seq<seq<Name>> := [];
    PrependNothing(ReadLists(payload, start, count));
    for i := 0 to count
      invariant |lists| == i
      invariant ReadLists(payload, start, count) == Prepend(lists, ReadLists(payload, cursor, count - i))
    {
      var next := ReadList(payload, cursor);
      if next.Err? { return Err(next.error), cursor; }
      PrependStep(lists, next.value.names, ReadLists(payload, next.value.next, count - i - 1));
      lists := lists + [next.value.names];
      cursor := next.value.next;
    }
    assert lists + [] == lists;
    return Ok(lists), cursor;
  }

  function Prepend(lists: seq<seq<Name>>, r: Result<(seq<seq<Name>>, nat), BannerStatus>)
    : Result<(seq<seq<Name>>, nat), BannerStatus>
  {
    match r
    case Err(e) => Err(e)
    case Ok(rest) => Ok((lists + rest.0, rest.1))
  }

  lemma PrependNothing(r: Result<(seq<seq<Name>>, nat), BannerStatus>)
    ensures Prepend([], r) == r
  {
    if r.Ok? { assert [] + r.value.0 == r.value.0; }
  }

  lemma PrependStep(lists: seq<seq<Name>>, names: seq<Name>, r: Result<(seq<seq<Name>>, nat), BannerStatus>)
    ensures Prepend(lists, Prepend([names], r)) == Prepend(lists + [names], r)
  {
    if r.Ok? { assert lists + ([names] + r.value.0) == lists + [names] + r.value.0; }
  }

  /* ----- round trip ----- */

  /** `text` stands at position `at` of `data`. */
  predicate Stands(data: seq<u8>, at: nat, text: seq<u8>) {
    at + |text| <= |data| && data[at..at + |text|] == text
  }

  lemma StandsSplit(data: seq<u8>, at: nat, a: seq<u8>, b: seq<u8>)
    requires Stands(data, at, a + b)
    ensures Stands(data, at, a) && Stands(data, at + |a|, b)
  {
    assert data[at..at + |a|] == data[at..at + |a + b|][..|a|];
    assert data[at + |a|..at + |a| + |b|] == data[at..at + |a + b|][|a|..];
  }

  lemma ReadPrinted(data: seq<u8>, at: nat, names: seq<Name>)
    requires ListOk(names)
    requires Stands(data, at, PrintList(names))
    ensures ReadList(data, at) == Ok(Cursor(ListOf(JoinNames(names)), at + |PrintList(names)|))
  {
    JoinUtf8(names);
    ReadFramed(data, at, JoinNames(names));
  }

  lemma Length32RoundTrip(length: nat)
    requires length < 0x1_0000_0000
    ensures FromBe32(Length32(length)) == length
  {
    assert length % 0x1_0000_0000 == length;
    Be32RoundTrip(length);
  }

  lemma ReadFramed(data: seq<u8>, at: nat, text: seq<u8>)
    requires |text| < 0x1_0000_0000 && Utf8(text) && Stands(data, at, PrintText(text))
    ensures ReadList(data, at) == Ok(Cursor(ListOf(text), at + |PrintText(text)|))
  {
    Length32RoundTrip(|text|);
    ReadBehind(data, at, Length32(|text|), text);
  }

  lemma ReadBehind(data: seq<u8>, at: nat, head: seq<u8>, text: seq<u8>)
    requires |head| == 4 && FromBe32(head) == |text| && Utf8(text) && Stands(data, at, head + text)
    ensures ReadList(data, at) == Ok(Cursor(ListOf(text), at + |head + text|))
  {
    StandsSplit(data, at, head, text);
    ReadText(data, at, head, text);
  }

  lemma ReadText(data: seq<u8>, at: nat, head: seq<u8>, text: seq<u8>)
    requires |head| == 4 && FromBe32(head) == |text|
    requires Stands(data, at, head) && Stands(data, at + 4, text)
    ensures ReadList(data, at) == Decoded(text, at + 4 + |text|)
  {
  }

  /** What ten printed lists read back as. */
  function ReadBack(lists: seq<seq<Name>>): (r: seq<seq<Name>>)
    ensures |r| == |lists|
  {
    if lists == [] then [] else [ListOf(JoinNames(lists[0]))] + ReadBack(lists[1..])
  }

  predicate Printable(lists: seq<seq<Name>>) {
    forall names | names in lists :: ListOk(names)
  }

  predicate ListOk(names: seq<Name>) {
    |JoinNames(names)| < 0x1_0000_0000 && forall n | n in names :: Utf8(n)
  }

  /** A printed list and what is read from it. */
  datatype Frame = Frame(text: seq<u8>, names: seq<Name>)

  function FrameOf(names: seq<Name>): Frame {
    Frame(PrintList(names), ListOf(JoinNames(names)))
  }

  function FramesOf(lists: seq<seq<Name>>): (frames: seq<Frame>)
    ensures |frames| == |lists|
  {
    seq(|lists|, i requires 0 <= i < |lists| => FrameOf(lists[i]))
  }

  function Texts(frames: seq<Frame>): seq<u8> {
    if frames == [] then [] else frames[0].text + Texts(frames[1..])
  }

  function NamesIn(frames: seq<Frame>): seq<seq<Name>> {
    if frames == [] then [] else [frames[0].names] + NamesIn(frames[1..])
  }

  /** Wherever the frame stands, it is read and the reader moves behind it. */
  ghost predicate Recovers(read: Reader, data: seq<u8>, frame: Frame) {
    forall at: nat | Stands(data, at, frame.text) :: read(at) == Ok(Cursor(frame.names, at + |frame.text|))
  }

  ghost predicate RecoversAll(read: Reader, data: seq<u8>, frames: seq<Frame>) {
    forall frame | frame in frames :: Recovers(read, data, frame)
  }

  lemma {:induction false} RepeatRecovers(read: Reader, data: seq<u8>, at: nat, frames: seq<Frame>)
    requires RecoversAll(read, data, frames)
    requires Stands(data, at, Texts(frames))
    ensures Gives(Repeat(read, at, |frames|), NamesIn(frames), at + |Texts(frames)|)
    decreases |frames|
  {
    if frames != [] {
      var first, rest := frames[0], frames[1..];
      assert first in frames && forall frame | frame in rest :: frame in frames;
      var next := RecoversFirst(read, data, at, first, Texts(rest));
      RepeatRecovers(read, data, next, rest);
      RepeatStep(read, at, Cursor(first.names, next), |rest|, NamesIn(rest), next + |Texts(rest)|);
    }
  }

  lemma RecoversFirst(read: Reader, data: seq<u8>, at: nat, first: Frame, rest: seq<u8>) returns (next: nat)
    requires Recovers(read, data, first) && Stands(data, at, first.text + rest)
    ensures next == at + |first.text| && read(at) == Ok(Cursor(first.names, next)) && Stands(data, next, rest)
  {
    StandsSplit(data, at, first.text, rest);
    next := at + |first.text|;
  }

  lemma RepeatStep(read: Reader, at: nat, first: Cursor, count: nat, rest: seq<seq<Name>>, end: nat)
    requires read(at) == Ok(first) && Gives(Repeat(read, first.next, count), rest, end)
    ensures Gives(Repeat(read, at, count + 1), [first.names] + rest, end)
  {
  }

  lemma {:induction false} FramesText(lists: seq<seq<Name>>)
    ensures Texts(FramesOf(lists)) == PrintLists(lists)
    ensures NamesIn(FramesOf(lists)) == ReadBack(lists)
  {
    if lists != [] {
      FramesText(lists[1..]);
      assert FramesOf(lists)[1..] == FramesOf(lists[1..]);
    }
  }

  lemma ListReaderRecovers(data: seq<u8>, names: seq<Name>)
    requires ListOk(names)
    ensures Recovers(ListReader(data), data, FrameOf(names))
  {
    forall at: nat | Stands(data, at, PrintList(names))
      ensures ReadList(data, at) == Ok(Cursor(ListOf(JoinNames(names)), at + |PrintList(names)|))
    {
      ReadPrinted(data, at, names);
    }
  }

  lemma ReadAllPrinted(data: seq<u8>, at: nat, lists: seq<seq<Name>>)
    requires Printable(lists) && Stands(data, at, PrintLists(lists))
    ensures Gives(ReadLists(data, at, |lists|), ReadBack(lists), at + |PrintLists(lists)|)
  {
    ListReaderRecoversAll(data, lists);
    FramesText(lists);
    RepeatFrames(ListReader(data), data, at, FramesOf(lists), |lists|, ReadBack(lists), PrintLists(lists));
  }

  lemma ListReaderRecoversAll(data: seq<u8>, lists: seq<seq<Name>>)
    requires Printable(lists)
    ensures RecoversAll(ListReader(data), data, FramesOf(lists))
  {
    var frames := FramesOf(lists);
    forall frame | frame in frames ensures Recovers(ListReader(data), data, frame) {
      var i :| 0 <= i < |frames| && frames[i] == frame;
      assert lists[i] in lists;
      ListReaderRecovers(data, lists[i]);
    }
  }

  lemma RepeatFrames(
    read: Reader, data: seq<u8>, at: nat, frames: seq<Frame>, count: nat, names: seq<seq<Name>>, text: seq<u8>
  )
    requires RecoversAll(read, data, frames) && Stands(data, at, text)
    requires count == |frames| && names == NamesIn(frames) && text == Texts(frames)
    ensures Gives(Repeat(read, at, count), names, at + |text|)
  {
    RepeatRecovers(read, data, at, frames);
  }

  lemma PayloadOfPrinted(payload: seq<u8>, padding: seq<u8>)
    requires |padding| < 0x100 && |payload| + |padding| + 1 < 0x1_0000_0000
    ensures Payload(PrintPacket(payload, padding)) == Ok(payload)
  {
    var length := |payload| + |padding| + 1;
    Length32RoundTrip(length);
    PayloadBehind(Length32(length), payload, padding);
  }

  lemma PayloadBehind(head: seq<u8>, payload: seq<u8>, padding: seq<u8>)
    requires |padding| < 0x100 && |head| == 4 && FromBe32(head) == |payload| + |padding| + 1
    ensures Payload(head + [|padding|] + payload + padding) == Ok(payload)
  {
    var packet := head + [|padding|] + payload + padding;
    assert packet[..4] == head;
    assert packet[5..5 + |payload|] == payload;
  }

  /** Parsing a printed packet reads every list back, whatever cookie and padding it carries. */
  lemma ParsePrinted(cookie: seq<u8>, lists: seq<seq<Name>>, padding: seq<u8>)
    requires |cookie| == 16 && |lists| == 10 && |padding| < 0x100 && Printable(lists)
    requires |PrintPayload(cookie, lists)| + |padding| + 1 < 0x1_0000_0000
    ensures Parse(PrintPacket(PrintPayload(cookie, lists), padding)) == Ok(ReadBack(lists)[..8])
  {
    var payload := PrintPayload(cookie, lists);
    PayloadOfPrinted(payload, padding);
    assert payload == [SSH_MSG_KEXINIT] + cookie + PrintLists(lists) + ([0] + Be32(0));
    assert Stands(payload, 17, PrintLists(lists));
    ReadAllPrinted(payload, 17, lists);
  }

  lemma {:induction false} ReadBackIs(lists: seq<seq<Name>>, i: nat)
    requires i < |lists|
    ensures ReadBack(lists)[i] == ListOf(JoinNames(lists[i]))
  {
    if i > 0 { ReadBackIs(lists[1..], i - 1); }
  }

  /** The eight lists the parser reports come back unchanged iff none is `[""]` or has a name with a comma. */
  lemma RoundTripIff(cookie: seq<u8>, lists: seq<seq<Name>>, padding: seq<u8>)
    requires |cookie| == 16 && |lists| == 10 && |padding| < 0x100 && Printable(lists)
    requires |PrintPayload(cookie, lists)| + |padding| + 1 < 0x1_0000_0000
    ensures Parse(PrintPacket(PrintPayload(cookie, lists), padding)) == Ok(lists[..8])
       <==> forall i | 0 <= i < 8 :: Faithful(lists[i])
  {
    ParsePrinted(cookie, lists, padding);
    var back, sent := ReadBack(lists)[..8], lists[..8];
    forall i | 0 <= i < 8 ensures back[i] == sent[i] <==> Faithful(lists[i]) {
      ReadBackIs(lists, i);
      SurvivesIff(lists[i]);
    }
    if back == sent {
      assert forall i | 0 <= i < 8 :: back[i] == sent[i];
    }
  }

  /** Not the list of one empty name, and no commas inside names. */
  predicate Faithful(names: seq<Name>) {
    names != [[]] && forall n | n in names :: 44 !in n
  }

  /** The list of one empty name reads back as no names, and a name with a comma as two. */
  lemma UnfaithfulLists()
    ensures !Survives([[]]) && ListOf(JoinNames([[]])) == []
    ensures !Survives([[COMMA]]) && ListOf(JoinNames([[COMMA]])) == [[], []]
  {
    assert SplitNames([COMMA]) == [[], []] by { assert [COMMA][1..] == []; assert Split([], COMMA) == [[]]; }
  }

  /** A packet with that list first does not come back. */
  lemma RoundTripFails()
    ensures
      var lists: seq<seq<Name>> := seq(LISTS, i => if i == 0 then [[]] else []);
      var packet := PrintPacket(PrintPayload(seq(COOKIE_LENGTH, _ => 0), lists), seq(4, _ => 0));
      Parse(packet) != Ok(lists[..8])
  {
    var lists: seq<seq<Name>> := seq(LISTS, i => if i == 0 then [[]] else []);
    var cookie: seq<u8> := seq(COOKIE_LENGTH, _ => 0);
    EmptyLists(lists);
    assert Printable(lists) by {
      forall names | names in lists ensures ListOk(names) { assert names == [[]] || names == []; }
    }
    RoundTripIff(cookie, lists, seq(4, _ => 0));
    assert !Faithful(lists[0]);
  }

  lemma {:induction false} EmptyLists(lists: seq<seq<Name>>)
    requires forall names | names in lists :: names == [[]] || names == []
    ensures |PrintLists(lists)| == 4 * |lists|
  {
    if lists != [] {
      assert lists[0] in lists && forall names | names in lists[1..] :: names in lists;
      EmptyLists(lists[1..]);
    }
  }
}
