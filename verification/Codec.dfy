/**
 The format-driven codec of common/src/serialize.c: serialize writes the fields a format string
 asks for, parse reads them back, a digit run before an 's' capping the text that is stored.
 Varargs are a sequence of arguments, the byte buffers are arrays.
 */
module Codec {

  type byte = x: int | 0 <= x < 256
  const U16 := 0x1_0000
  const U32 := 0x1_0000_0000

  /** An argument: any promoted integer, or the bytes of a string up to its NUL. */
  datatype Arg = Number(n: int) | Text(bytes: seq<byte>)

  /** What parse yields: the values stored, and how far the cursor moved. */
  datatype Parsed = Parsed(values: seq<Arg>, used: nat)

  // ---- Fields ----

  predicate IsDigit(ch: char) {
    '0' <= ch <= '9'
  }

  /** The letters for which serialize takes an argument. */
  predicate IsField(ch: char) {
    ch == 'c' || ch == 'C' || ch == 'H' || ch == 's'
  }

  function Pack16(i: int): (r: seq<byte>)
    ensures |r| == 2
  {
    [i / 256 % 256, i % 256]
  }

  function Unpack16(b: seq<byte>): (r: int)
    requires |b| >= 2
    ensures 0 <= r < U16
  {
    (b[0] as int) * 256 + b[1]
  }

  function UnpackI16(b: seq<byte>): (r: int)
    requires |b| >= 2
    ensures -0x8000 <= r < 0x8000
    ensures r % U16 == Unpack16(b)
  {
    var i2 := Unpack16(b);
    if i2 <= 0x7fff then i2 else -1 - (0xffff - i2)
  }

  /** The byte read as a signed 8-bit number. */
  function Resign(b: byte): (r: int)
    ensures -0x80 <= r < 0x80 && r % 256 == b
  {
    if b <= 0x7f then b else -1 - (0xff - b)
  }

  // ---- serialize ----

  /** The arguments suit the format; serialize is given at least as many as it takes. */
  predicate WellTyped(format: string, args: seq<Arg>) {
    if format == "" then true
    else if !IsField(format[0]) then WellTyped(format[1..], args)
    else args != [] && Suits(format[0], args[0]) && WellTyped(format[1..], args[1..])
  }

  predicate Suits(ch: char, arg: Arg) {
    if ch == 's' then arg.Text? && 0 !in arg.bytes else arg.Number?
  }

  function Field(ch: char, arg: Arg): (r: seq<byte>)
    requires IsField(ch) && Suits(ch, arg)
  {
    if ch == 's' then Pack16(|arg.bytes| % U32) + arg.bytes[..|arg.bytes| % U32]
    else if ch == 'H' then Pack16(arg.n)
    else [arg.n % 256]
  }

  function Encode(format: string, args: seq<Arg>): (r: seq<byte>)
    requires WellTyped(format, args)
  {
    if format == "" then []
    else if !IsField(format[0]) then Encode(format[1..], args)
    else Field(format[0], args[0]) + Encode(format[1..], args[1..])
  }

  // ---- parse ----

  predicate IsParsed(ch: char) {
    IsField(ch) || ch == 'h'
  }

  /** The bytes a field takes up; 0 where even its length cannot be read. */
  function Width(ch: char, bytes: seq<byte>): nat
    requires IsParsed(ch)
  {
    if ch == 's' then 2 + (if |bytes| < 2 then 0 else Unpack16(bytes))
    else if ch == 'H' || ch == 'h' then 2 else 1
  }

  /** The buffer holds all that parse reads: the bytes it needs to be given. */
  predicate Readable(format: string, bytes: seq<byte>) {
    if format == "" then true
    else if !IsParsed(format[0]) then Readable(format[1..], bytes)
    else |bytes| >= Width(format[0], bytes) && Readable(format[1..], bytes[Width(format[0], bytes)..])
  }

  function NextCap(ch: char, cap: nat): nat {
    if IsDigit(ch) then (cap * 10 + (ch as int - '0' as int)) % U32 else 0
  }

  /** The text that is stored of one that arrives: all of it, or one byte less than the cap. */
  function Capped(text: seq<byte>, cap: nat): (r: seq<byte>)
    ensures |r| <= |text|
  {
    if cap > 0 && |text| > cap then text[..cap - 1] else text
  }

  function Value(ch: char, cap: nat, bytes: seq<byte>): Arg
    requires IsParsed(ch) && |bytes| >= Width(ch, bytes)
  {
    match ch
    case 'c' => Number(Resign(bytes[0]))
    case 'C' => Number(bytes[0])
    case 'h' => Number(UnpackI16(bytes))
    case 'H' => Number(Unpack16(bytes))
    case _ => Text(Capped(bytes[2..2 + Unpack16(bytes)], cap))
  }

  function Decode(format: string, bytes: seq<byte>, cap: nat): (r: Parsed)
    requires Readable(format, bytes)
    ensures r.used <= |bytes|
    decreases |format|
  {
    if format == "" then Parsed([], 0)
    else if !IsParsed(format[0]) then Decode(format[1..], bytes, NextCap(format[0], cap))
    else
      var width := Width(format[0], bytes);
      var rest := Decode(format[1..], bytes[width..], 0);
      Parsed([Value(format[0], cap, bytes)] + rest.values, width + rest.used)
  }

  // ---- The two loops ----

  method PackI16(buf: array<byte>, at: nat, i: int)
    requires at + 2 <= buf.Length
    modifies buf
    ensures buf[..] == old(buf[..at]) + Pack16(i) + old(buf[at + 2..])
  {
    buf[at] := i / 256 % 256;
    buf[at + 1] := i % 256;
  }

  /** memcpy of s to the buffer. */
  method Copy(buf: array<byte>, at: nat, s: seq<byte>)
    requires at + |s| <= buf.Length
    modifies buf
    ensures buf[..] == old(buf[..at]) + s + old(buf[at + |s|..])
  {
    var k := 0;
    while k < |s|
      invariant 0 <= k <= |s|
      invariant forall j :: 0 <= j < k ==> buf[at + j] == s[j]
      invariant forall j :: 0 <= j < buf.Length && !(at <= j < at + k) ==> buf[j] == old(buf[j])
    {
      buf[at + k] := s[k];
      k := k + 1;
    }
  }

  method PutText(buf: array<byte>, at: nat, s: seq<byte>)
    requires at + 2 + |s| <= buf.Length
    modifies buf
    ensures buf[..] == old(buf[..at]) + (Pack16(|s|) + s) + old(buf[at + 2 + |s|..])
  {
    ghost var before := buf[..];
    PackI16(buf, at, |s|);
    ghost var packed := buf[..];
    Copy(buf, at + 2, s);
    Spliced(before, packed, at, Pack16(|s|), s);
  }

  /** Two writes, the second right behind the first, are one. */
  lemma Spliced(before: seq<byte>, packed: seq<byte>, at: nat, a: seq<byte>, b: seq<byte>)
    requires at + |a| + |b| <= |before| && packed == before[..at] + a + before[at + |a|..]
    ensures packed[..at + |a|] + b + packed[at + |a| + |b|..] == before[..at] + (a + b) + before[at + |a| + |b|..]
  {
    assert packed[..at + |a|] == before[..at] + a;
    assert packed[at + |a| + |b|..] == before[at + |a| + |b|..];
  }

  /** Writing one field at the cursor. */
  method PutField(buf: array<byte>, at: nat, ch: char, arg: Arg) returns (next: nat)
    requires IsField(ch) && Suits(ch, arg) && at + |Field(ch, arg)| <= buf.Length
    modifies buf
    ensures next == at + |Field(ch, arg)|
    ensures buf[..] == old(buf[..at]) + Field(ch, arg) + old(buf[next..])
  {
    match ch
    case 's' =>
      var len := |arg.bytes| % U32;
      PutText(buf, at, arg.bytes[..len]);
      next := at + 2 + len;
    case 'H' =>
      PackI16(buf, at, arg.n);
      next := at + 2;
    case _ =>
      buf[at] := arg.n % 256;
      next := at + 1;
  }

  lemma CountWraps(at: nat, width: nat)
    ensures (at % U32 + width) % U32 == (at + width) % U32
  {
    assert at == at / U32 * U32 + at % U32;
  }

  /** The size returned is counted in 32 bits; bytes beyond the encoding stay as they were. */
  method Serialize(buf: array<byte>, format: string, args: seq<Arg>) returns (size: nat)
    requires WellTyped(format, args) && |Encode(format, args)| <= buf.Length
    modifies buf
    ensures size == |Encode(format, args)| % U32
    ensures buf[..] == Encode(format, args) + old(buf[|Encode(format, args)|..])
  {
    ghost var goal, before := Encode(format, args), buf[..];
    var i, a, at := 0, 0, 0;
    size := 0;
    while i < |format|
      invariant 0 <= i <= |format| && 0 <= a <= |args| && 0 <= at <= buf.Length
      invariant WellTyped(format[i..], args[a..]) && size == at % U32
      invariant goal == buf[..at] + Encode(format[i..], args[a..])
      invariant buf[at..] == before[at..]
    {
      var ch := format[i];
      if IsField(ch) {
        ghost var done, rest := buf[..at], Encode(format[i + 1..], args[a + 1..]);
        assert goal == (done + Field(ch, args[a])) + rest;
        var next := PutField(buf, at, ch, args[a]);
        assert buf[..next] == done + Field(ch, args[a]);
        CountWraps(at, next - at);
        size := (size + (next - at)) % U32;
        a, at := a + 1, next;
      }
      i := i + 1;
    }
  }

  /** What parse stores through its pointers is returned, with the final cursor. */
  method Parse(buffer: array<byte>, format: string) returns (values: seq<Arg>, cursor: nat)
    requires Readable(format, buffer[..])
    ensures Parsed(values, cursor) == Decode(format, buffer[..], 0)
  {
    var maxstrlen, i := 0, 0;
    values, cursor := [], 0;
    while i < |format|
      invariant 0 <= i <= |format| && 0 <= cursor <= buffer.Length
      invariant Readable(format[i..], buffer[cursor..])
      invariant var rest := Decode(format[i..], buffer[cursor..], maxstrlen);
                Decode(format, buffer[..], 0) == Parsed(values + rest.values, cursor + rest.used)
    {
      var ch := format[i];
      if IsParsed(ch) {
        var value, width := ReadField(buffer, cursor, ch, maxstrlen);
        assert buffer[cursor..][width..] == buffer[cursor + width..];
        values, cursor := values + [value], cursor + width;
      }
      maxstrlen := NextCap(ch, maxstrlen);
      i := i + 1;
    }
  }

  method ReadField(buffer: array<byte>, at: nat, ch: char, maxstrlen: nat)
    returns (value: Arg, width: nat)
    requires IsParsed(ch) && at <= buffer.Length && |buffer[at..]| >= Width(ch, buffer[at..])
    ensures width == Width(ch, buffer[at..]) && value == Value(ch, maxstrlen, buffer[at..])
  {
    match ch
    case 'c' =>
      value, width := Number(Resign(buffer[at])), 1;
    case 'C' =>
      value, width := Number(buffer[at]), 1;
    case 'h' =>
      value, width := Number(UnpackI16([buffer[at], buffer[at + 1]])), 2;
    case 'H' =>
      value, width := Number(Unpack16([buffer[at], buffer[at + 1]])), 2;
    case _ =>
      var len := Unpack16([buffer[at], buffer[at + 1]]);
      var count := if maxstrlen > 0 && len > maxstrlen then maxstrlen - 1 else len;
      assert buffer[at..][2..2 + len] == buffer[at + 2..at + 2 + len];
      value, width := Text(buffer[at + 2..at + 2 + count]), 2 + len;
  }
}
