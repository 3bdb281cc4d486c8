/**
 Where a complete message ends, protocol by protocol: by the bytes themselves, without the searches
 and the parsing that find it.
 */
module FrameEnds {
  import opened Words
  import opened Endpoints
  import opened Results
  import opened Frames

  /* ----- searching ----- */

  predicate OccursAt(data: seq<u8>, needle: seq<u8>, i: nat) {
    i + |needle| <= |data| && data[i..i + |needle|] == needle
  }

  /** The needle occurs at `i`, and nowhere between `from` and there. */
  predicate FirstAt(data: seq<u8>, needle: seq<u8>, from: nat, i: nat) {
    from <= i && OccursAt(data, needle, i) && forall k: nat | from <= k < i :: !OccursAt(data, needle, k)
  }

  lemma {:induction false} FindIff(data: seq<u8>, needle: seq<u8>, from: nat, i: nat)
    ensures Find(data, needle, from) == Some(i) <==> FirstAt(data, needle, from, i)
    decreases |data| - from
  {
    if from + |needle| <= |data| && !OccursAt(data, needle, from) {
      FindIff(data, needle, from + 1, i);
    }
  }

  /** A line that starts at or before `from` ends at `end`: with the first line break from there on. */
  predicate LineEndsAt(data: seq<u8>, from: nat, end: nat) {
    end >= 2 && FirstAt(data, [13, 10], from, end - 2)
  }

  lemma LineEndIff(data: seq<u8>, from: nat, end: nat)
    ensures LineEnd(data, from) == Some(end) <==> LineEndsAt(data, from, end)
  {
    assert CRLF == [13, 10];
    if end >= 2 { FindIff(data, CRLF, from, end - 2); }
  }

  /* ----- text protocols ----- */

  /** An SSH identification ends with its first line feed. */
  lemma SshEnds(data: seq<u8>, max: nat, n: nat)
    requires |data| <= max
    ensures MessageLen(Ssh, data, max) == Complete(n) <==> n > 0 && FirstAt(data, [10], 0, n - 1)
  {
    if n > 0 { FindIff(data, [LF], 0, n - 1); }
  }

  predicate Numeric(b: u8) { '0' as int <= b <= '9' as int }

  /** Three digits and this character. */
  predicate CodeAnd(data: seq<u8>, c: char) {
    |data| >= 4 && Numeric(data[0]) && Numeric(data[1]) && Numeric(data[2]) && data[3] == c as int
  }

  /** A reply of one line: a code, a space, a line break. */
  predicate OneLine(data: seq<u8>, n: nat) {
    CodeAnd(data, ' ') && LineEndsAt(data, 0, n)
  }

  /** A reply of several lines ends with the line on which its code, followed by a space, first occurs again. */
  predicate ManyLines(data: seq<u8>, first: nat, last: nat, n: nat) {
    && CodeAnd(data, '-')
    && LineEndsAt(data, 0, first)
    && FirstAt(data, data[..3] + [' ' as int], first, last)
    && LineEndsAt(data, last, n)
  }

  lemma ReplyEnds(data: seq<u8>, n: nat)
    ensures ReplyLen(data) == Complete(n) <==> OneLine(data, n) || exists first, last :: ManyLines(data, first, last, n)
  {
    if OneLine(data, n) { LineEndIff(data, 0, n); }
    if first, last :| ManyLines(data, first, last, n) {
      LineEndIff(data, 0, first);
      FindIff(data, data[..3] + [SPACE], first, last);
      LineEndIff(data, last, n);
    }
    if ReplyLen(data) == Complete(n) { ReplyEnded(data, n); }
  }

  lemma ReplyEnded(data: seq<u8>, n: nat)
    requires ReplyLen(data) == Complete(n)
    ensures OneLine(data, n) || exists first, last :: ManyLines(data, first, last, n)
  {
    var first := LineEnd(data, 0).value;
    LineEndIff(data, 0, first);
    if data[3] == DASH {
      var last := Find(data, ReplyNeedle(data), first).value;
      FindIff(data, ReplyNeedle(data), first, last);
      LineEndIff(data, last, n);
      assert ManyLines(data, first, last, n);
    }
  }

  /** It is refused iff its first line is whole and does not begin with a code and a space or dash. */
  lemma ReplyRefused(data: seq<u8>)
    ensures ReplyLen(data).Bad? ==> ReplyLen(data) == Bad(ProtocolMismatch)
    ensures ReplyLen(data).Bad? <==>
      (exists first :: LineEndsAt(data, 0, first)) && !CodeAnd(data, ' ') && !CodeAnd(data, '-')
  {
    if first :| LineEndsAt(data, 0, first) { LineEndIff(data, 0, first); }
    if LineEnd(data, 0).Some? { LineEndIff(data, 0, LineEnd(data, 0).value); }
  }

  /** FTP and SMTP greetings end there, and are refused then. */
  lemma GreetingEnds(protocol: Protocol, data: seq<u8>, max: nat, n: nat)
    requires (protocol == Ftp || protocol == Smtp) && |data| <= max
    ensures MessageLen(protocol, data, max) == Complete(n) <==>
      OneLine(data, n) || exists first, last :: ManyLines(data, first, last, n)
    ensures MessageLen(protocol, data, max) == Bad(ProtocolMismatch) <==>
      (exists first :: LineEndsAt(data, 0, first)) && !CodeAnd(data, ' ') && !CodeAnd(data, '-')
  {
    ReplyEnds(data, n);
    ReplyRefused(data);
  }

  /* ----- numbers ----- */

  function Pow10(k: nat): nat {
    if k == 0 then 1 else 10 * Pow10(k - 1)
  }

  predicate Digits(text: seq<u8>) {
    text != [] && forall i | 0 <= i < |text| :: Numeric(text[i])
  }

  /** The value of a decimal numeral, from its first digit on. */
  function Decimal(text: seq<u8>): nat
    requires forall i | 0 <= i < |text| :: Numeric(text[i])
  {
    if text == [] then 0 else
    assert Numeric(text[0]);
    var digit: nat := text[0] as int - 48;
    digit * Pow10(|text| - 1) + Decimal(text[1..])
  }

  lemma {:induction false} DecimalAppend(text: seq<u8>, digit: u8)
    requires Numeric(digit) && forall i | 0 <= i < |text| :: Numeric(text[i])
    ensures Decimal(text + [digit]) == 10 * Decimal(text) + (digit as int - 48)
  {
    if text == [] {
      assert text + [digit] == [digit];
    } else {
      DecimalAppend(text[1..], digit);
      assert (text + [digit])[1..] == text[1..] + [digit];
      TimesTen(text[0] as int - 48, Pow10(|text| - 1));
    }
  }

  lemma TimesTen(a: nat, p: nat)
    ensures a * (10 * p) == 10 * (a * p)
  {
  }

  lemma {:induction false} ParseDigitsIff(text: seq<u8>, v: nat)
    ensures ParseDigits(text) == Some(v) <==> Digits(text) && v == Decimal(text)
  {
    if text != [] && Numeric(text[|text| - 1]) {
      var front, last := text[..|text| - 1], text[|text| - 1];
      assert text == front + [last];
      if front == [] {
        assert text == [last] && text[1..] == [];
        assert Pow10(0) == 1;
      } else {
        ParseDigitsIff(front, if Digits(front) then Decimal(front) else 0);
        if ParseDigits(front).Some? { ParseDigitsIff(front, ParseDigits(front).value); }
        if Digits(front) { DecimalAppend(front, last); }
      }
    }
  }

  /** A decimal numeral within the range of a 64-bit word, with or without a sign. */
  predicate Numeral(text: seq<u8>, v: int) {
    if text != [] && text[0] == '-' as int then
      Digits(text[1..]) && v == -(Decimal(text[1..]) as int) && -v <= 0x8000_0000_0000_0000
    else if text != [] && text[0] == '+' as int then
      Digits(text[1..]) && v == Decimal(text[1..]) && v < 0x8000_0000_0000_0000
    else
      Digits(text) && v == Decimal(text) && v < 0x8000_0000_0000_0000
  }

  ghost predicate IsNumeral(text: seq<u8>) {
    exists v :: Numeral(text, v)
  }

  lemma ParseIsizeIff(text: seq<u8>, v: int)
    ensures ParseIsize(text) == Some(v) <==> Numeral(text, v)
  {
    if text != [] {
      var unsigned := if text[0] == '-' as int || text[0] == '+' as int then text[1..] else text;
      if ParseDigits(unsigned).Some? { ParseDigitsIff(unsigned, ParseDigits(unsigned).value); }
      if Digits(unsigned) { ParseDigitsIff(unsigned, Decimal(unsigned)); }
    }
  }

  /* ----- Redis ----- */

  /** A bulk reply: the announced bytes and a line break behind its header, or nothing for a negative number. */
  predicate Bulk(data: seq<u8>, header: nat, announced: int, n: nat) {
    && 3 <= header && LineEndsAt(data, 0, header)
    && Numeral(data[1..header - 2], announced)
    && if announced < 0 then n == header else n == header + announced + 2 <= |data|
  }

  lemma BulkEnds(data: seq<u8>, n: nat)
    requires data != [] && data[0] == '$' as int && |data| < 0xffff_ffff_ffff_ffff
    ensures RedisBulkLen(data) == Complete(n) <==> exists header, announced :: Bulk(data, header, announced, n)
  {
    if header, announced :| Bulk(data, header, announced, n) {
      LineEndIff(data, 0, header);
      ParseIsizeIff(data[1..header - 2], announced);
    }
    if RedisBulkLen(data) == Complete(n) { BulkEnded(data, n); }
  }

  lemma BulkEnded(data: seq<u8>, n: nat)
    requires data != [] && data[0] == '$' as int && RedisBulkLen(data) == Complete(n)
    ensures exists header, announced :: Bulk(data, header, announced, n)
  {
    var header := LineEnd(data, 0).value;
    LineEndIff(data, 0, header);
    var announced := ParseIsize(data[1..header - 2]).value;
    ParseIsizeIff(data[1..header - 2], announced);
    assert Bulk(data, header, announced, n);
  }

  /** It is refused iff its header is whole and announces no number. */
  lemma BulkRefused(data: seq<u8>, header: nat)
    requires data != [] && data[0] == '$' as int && 3 <= header && LineEndsAt(data, 0, header)
    ensures RedisBulkLen(data) == Bad(ProtocolMismatch) <==> !IsNumeral(data[1..header - 2])
  {
    LineEndIff(data, 0, header);
    var text := data[1..header - 2];
    if v :| Numeral(text, v) { ParseIsizeIff(text, v); }
    if ParseIsize(text).Some? { ParseIsizeIff(text, ParseIsize(text).value); }
  }

  /** It is oversized iff what it announces reaches past the last address of 64 bits. */
  lemma BulkOversized(data: seq<u8>, header: nat, announced: nat)
    requires data != [] && data[0] == '$' as int && 3 <= header && LineEndsAt(data, 0, header)
    requires Numeral(data[1..header - 2], announced)
    ensures RedisBulkLen(data) == Bad(Oversized) <==> header + announced + 2 >= 0x1_0000_0000_0000_0000
  {
    LineEndIff(data, 0, header);
    ParseIsizeIff(data[1..header - 2], announced);
  }

  /** A simple string, an error, a number or the head of an array. */
  predicate OneLiner(first: u8) {
    first == '+' as int || first == '-' as int || first == ':' as int || first == '*' as int
  }

  /** A Redis reply ends with its first line, unless that line announces a bulk of bytes. */
  lemma RedisEnds(data: seq<u8>, max: nat, n: nat)
    requires 0 < |data| <= max < 0xffff_ffff_ffff_ffff
    ensures OneLiner(data[0]) ==> (MessageLen(Redis, data, max) == Complete(n) <==> LineEndsAt(data, 0, n))
    ensures data[0] == '$' as int ==>
      (MessageLen(Redis, data, max) == Complete(n) <==> exists header, announced :: Bulk(data, header, announced, n))
    ensures !OneLiner(data[0]) && data[0] != '$' as int ==> MessageLen(Redis, data, max) == Bad(ProtocolMismatch)
  {
    LineEndIff(data, 0, n);
    if data[0] == '$' as int { BulkEnds(data, n); }
  }

  /* ----- length-prefixed protocols ----- */

  predicate Letter(b: u8) { 'A' as int <= b <= 'Z' as int || 'a' as int <= b <= 'z' as int }

  /** The length a MySQL packet carries, behind which its four bytes of header are not counted. */
  function MysqlLength(data: seq<u8>): nat
    requires |data| >= 4
  {
    data[0] as int + 0x100 * (data[1] as int + 0x100 * (data[2] as int))
  }

  /** The length a PostgreSQL message carries, which counts itself and not the tag before it. */
  function PostgresLength(data: seq<u8>): nat
    requires |data| >= 5
  {
    ((data[1] as int * 0x100 + data[2] as int) * 0x100 + data[3] as int) * 0x100 + data[4] as int
  }

  lemma PrefixedEnds(data: seq<u8>, max: nat, n: nat)
    requires |data| <= max
    ensures MessageLen(Mysql, data, max) == Complete(n) <==> 4 <= n <= |data| && n == MysqlLength(data) + 4
    ensures MessageLen(Mysql, data, max) == Bad(Oversized) <==> |data| >= 4 && MysqlLength(data) + 4 > max
    ensures MessageLen(Postgres, data, max) == Complete(n) <==>
      5 <= n <= |data| && Letter(data[0]) && n == PostgresLength(data) + 1
    ensures MessageLen(Postgres, data, max) == Bad(Oversized) <==>
      |data| >= 5 && Letter(data[0]) && PostgresLength(data) >= 4 && PostgresLength(data) + 1 > max
    ensures MessageLen(Postgres, data, max) == Bad(ProtocolMismatch) <==>
      |data| >= 5 && (!Letter(data[0]) || PostgresLength(data) < 4)
  {
    if |data| >= 5 { assert data[1..5] == [data[1], data[2], data[3], data[4]]; }
  }

  /** Whatever the protocol, more bytes than the limit are too many. */
  lemma LimitEnds(protocol: Protocol, data: seq<u8>, max: nat)
    requires |data| > max
    ensures MessageLen(protocol, data, max) == Bad(Oversized)
  {
  }
}
