/**
 The CPT packets: the instances of the codec in cpt_api/src/cpt_serialize.c and cpt_parse.c.
 */
module Packets {
  import opened Codec
  import opened CodecLaws

  const SERIAL_REQ_FMT := "CCHs"
  const PARSE_REQ_FMT := "CCH512s"
  const SERIAL_RES_FMT := "Cs"
  const PARSE_RES_FMT := "C512s"
  const SERIAL_MSG_RES_FMT := "HHHs"
  const PARSE_MSG_RES_FMT := "HHH512s"
  const MD_BUFF_SIZE := 512
  const CAP := 512

  type U16Field = x: int | 0 <= x < U16
  type Str = s: seq<byte> | 0 !in s

  datatype Request = Request(version: byte, command: byte, channelId: U16Field, msg: Str)
  datatype Response = Response(code: byte, data: Str)
  datatype MsgSubPacket = MsgSubPacket(channelId: U16Field, userId: U16Field, msgLen: U16Field, msg: Str)

  /** A C string held in a larger array: what precedes its first NUL. */
  function UpToNul(s: seq<byte>): (r: Str)
    ensures |r| <= |s| && r == s[..|r|] && (|r| < |s| ==> s[|r|] == 0)
  {
    if s == [] || s[0] == 0 then [] else [s[0]] + UpToNul(s[1..])
  }

  lemma NoNul(s: Str)
    ensures UpToNul(s) == s
  {
  }

  function RequestArgs(r: Request): seq<Arg> {
    [Number(r.version), Number(r.command), Number(r.channelId), Text(r.msg)]
  }

  function ResponseArgs(r: Response): seq<Arg> {
    [Number(r.code), Text(r.data)]
  }

  function MsgArgs(m: MsgSubPacket): seq<Arg> {
    [Number(m.channelId), Number(m.userId), Number(m.msgLen), Text(m.msg)]
  }

  // ---- The bytes of each packet ----

  lemma EncodeCons(ch: char, format: string, arg: Arg, args: seq<Arg>)
    requires IsField(ch) && Suits(ch, arg) && WellTyped(format, args)
    ensures WellTyped([ch] + format, [arg] + args)
    ensures Encode([ch] + format, [arg] + args) == Field(ch, arg) + Encode(format, args)
    ensures Short([ch] + format, [arg] + args)
            == (Short(format, args) && (ch == 's' ==> |arg.bytes| < U16))
  {
    assert ([ch] + format)[1..] == format && ([arg] + args)[1..] == args;
  }

  /** A text that ends a packet: its length in two bytes, then the text itself. */
  function TextBytes(s: Str): seq<byte> {
    Pack16(|s| % U32) + s[..|s| % U32]
  }

  lemma TextField(s: Str)
    ensures WellTyped("s", [Text(s)]) && Encode("s", [Text(s)]) == TextBytes(s)
    ensures Short("s", [Text(s)]) == (|s| < U16)
  {
    EncodeCons('s', "", Text(s), []);
    assert ['s'] + "" == "s" && [Text(s)] + [] == [Text(s)];
  }

  function RequestBytes(r: Request): (bytes: seq<byte>)
    ensures |r.msg| < U32 ==> |bytes| == 6 + |r.msg|
  {
    [r.version, r.command, r.channelId / 256, r.channelId % 256] + TextBytes(r.msg)
  }

  function ResponseBytes(r: Response): (bytes: seq<byte>)
    ensures |r.data| < U32 ==> |bytes| == 3 + |r.data|
  {
    [r.code] + TextBytes(r.data)
  }

  function MsgBytes(m: MsgSubPacket): (bytes: seq<byte>)
    ensures |m.msg| < U32 ==> |bytes| == 8 + |m.msg|
  {
    Pack16(m.channelId) + Pack16(m.userId) + Pack16(m.msgLen) + TextBytes(m.msg)
  }

  lemma RequestLayout(r: Request)
    ensures WellTyped(SERIAL_REQ_FMT, RequestArgs(r))
    ensures Encode(SERIAL_REQ_FMT, RequestArgs(r)) == RequestBytes(r)
    ensures Short(SERIAL_REQ_FMT, RequestArgs(r)) == (|r.msg| < U16)
  {
    TextField(r.msg);
    EncodeCons('H', "s", Number(r.channelId), [Text(r.msg)]);
    EncodeCons('C', "Hs", Number(r.command), [Number(r.channelId), Text(r.msg)]);
    EncodeCons('C', "CHs", Number(r.version), [Number(r.command), Number(r.channelId), Text(r.msg)]);
    assert ['H'] + "s" == "Hs" && ['C'] + "Hs" == "CHs" && ['C'] + "CHs" == SERIAL_REQ_FMT;
    assert [Number(r.channelId)] + [Text(r.msg)] == [Number(r.channelId), Text(r.msg)];
    assert [Number(r.command)] + [Number(r.channelId), Text(r.msg)]
        == [Number(r.command), Number(r.channelId), Text(r.msg)];
    assert [Number(r.version)] + [Number(r.command), Number(r.channelId), Text(r.msg)] == RequestArgs(r);
  }

  lemma ResponseLayout(r: Response)
    ensures WellTyped(SERIAL_RES_FMT, ResponseArgs(r))
    ensures Encode(SERIAL_RES_FMT, ResponseArgs(r)) == ResponseBytes(r)
    ensures Short(SERIAL_RES_FMT, ResponseArgs(r)) == (|r.data| < U16)
  {
    TextField(r.data);
    EncodeCons('C', "s", Number(r.code), [Text(r.data)]);
    assert ['C'] + "s" == SERIAL_RES_FMT && [Number(r.code)] + [Text(r.data)] == ResponseArgs(r);
  }

  lemma MsgLayout(m: MsgSubPacket)
    ensures WellTyped(SERIAL_MSG_RES_FMT, MsgArgs(m))
    ensures Encode(SERIAL_MSG_RES_FMT, MsgArgs(m)) == MsgBytes(m)
    ensures Short(SERIAL_MSG_RES_FMT, MsgArgs(m)) == (|m.msg| < U16)
  {
    TextField(m.msg);
    EncodeCons('H', "s", Number(m.msgLen), [Text(m.msg)]);
    EncodeCons('H', "Hs", Number(m.userId), [Number(m.msgLen), Text(m.msg)]);
    EncodeCons('H', "HHs", Number(m.channelId), [Number(m.userId), Number(m.msgLen), Text(m.msg)]);
    assert ['H'] + "s" == "Hs" && ['H'] + "Hs" == "HHs" && ['H'] + "HHs" == SERIAL_MSG_RES_FMT;
    assert [Number(m.msgLen)] + [Text(m.msg)] == [Number(m.msgLen), Text(m.msg)];
    assert [Number(m.userId)] + [Number(m.msgLen), Text(m.msg)]
        == [Number(m.userId), Number(m.msgLen), Text(m.msg)];
    assert [Number(m.channelId)] + [Number(m.userId), Number(m.msgLen), Text(m.msg)] == MsgArgs(m);
  }

  // ---- Reading packets ----

  /** Any readable buffer yields values of the right shape for a request. */
  lemma RequestShape(bytes: seq<byte>)
    requires Readable(PARSE_REQ_FMT, bytes)
    ensures var v := Decode(PARSE_REQ_FMT, bytes, 0).values;
            |v| == 4 && v[0] == Number(bytes[0]) && v[1] == Number(bytes[1])
            && v[2] == Number(Unpack16(bytes[2..])) && v[3].Text?
  {
    DecodeField(PARSE_REQ_FMT, bytes, 0);
    assert PARSE_REQ_FMT[1..] == "CH512s" && "CH512s"[1..] == "H512s";
    DecodeField("CH512s", bytes[1..], 0);
    assert bytes[1..][1..] == bytes[2..];
    WideShape(bytes[2..]);
  }

  lemma WideShape(bytes: seq<byte>)
    requires Readable("H512s", bytes)
    ensures var v := Decode("H512s", bytes, 0).values;
            |v| == 2 && v[0] == Number(Unpack16(bytes)) && v[1].Text?
  {
    assert "H512s"[1..] == "512s";
    DecodeField("H512s", bytes, 0);
    CappedTail(bytes[2..]);
  }

  lemma ResponseShape(bytes: seq<byte>)
    requires Readable(PARSE_RES_FMT, bytes)
    ensures var v := Decode(PARSE_RES_FMT, bytes, 0).values;
            |v| == 2 && v[0] == Number(bytes[0]) && v[1].Text?
  {
    DecodeField(PARSE_RES_FMT, bytes, 0);
    assert PARSE_RES_FMT[1..] == "512s";
    CappedTail(bytes[1..]);
  }

  lemma CappedTail(bytes: seq<byte>)
    requires Readable("512s", bytes)
    ensures |Decode("512s", bytes, 0).values| == 1 && Decode("512s", bytes, 0).values[0].Text?
  {
    assert "512s"[1..] == "12s" && "12s"[1..] == "2s" && "2s"[1..] == "s" && "s"[1..] == "";
    assert NextCap('5', 0) == 5 && NextCap('1', 5) == 51 && NextCap('2', 51) == CAP;
    assert Readable("12s", bytes) && Readable("2s", bytes) && Readable("s", bytes);
    DecodeField("s", bytes, CAP);
    assert Decode("", bytes[Width('s', bytes)..], 0) == Parsed([], 0);
  }

  /** The request parse_request makes of the bytes received. */
  function RequestOf(bytes: seq<byte>): Request
    requires Readable(PARSE_REQ_FMT, bytes)
  {
    RequestShape(bytes);
    var v := Decode(PARSE_REQ_FMT, bytes, 0).values;
    Request(v[0].n, v[1].n, v[2].n, UpToNul(v[3].bytes))
  }

  function ResponseOf(bytes: seq<byte>): Response
    requires Readable(PARSE_RES_FMT, bytes)
  {
    ResponseShape(bytes);
    var v := Decode(PARSE_RES_FMT, bytes, 0).values;
    Response(v[0].n, UpToNul(v[1].bytes))
  }

  /** The text parse stores, with its NUL, has room in the local buffer of MD_BUFF_SIZE bytes. */
  predicate HasRoom(values: seq<Arg>) {
    forall k :: 0 <= k < |values| && values[k].Text? ==> |values[k].bytes| < MD_BUFF_SIZE
  }

  // ---- Round trips ----

  /** Each parse format has the fields of its serialize format. */
  lemma FormatFields()
    ensures Fields(PARSE_REQ_FMT) == Fields(SERIAL_REQ_FMT)
    ensures Fields(PARSE_RES_FMT) == Fields(SERIAL_RES_FMT)
    ensures Fields(PARSE_MSG_RES_FMT) == Fields(SERIAL_MSG_RES_FMT)
  {
    assert "512s"[1..] == "12s" && "12s"[1..] == "2s" && "2s"[1..] == "s" && "s"[1..] == "";
    assert Fields("2s") == Fields("s") && Fields("12s") == Fields("s") && Fields("512s") == Fields("s");
    assert "H512s"[1..] == "512s" && "Hs"[1..] == "s" && Fields("H512s") == Fields("Hs");
    assert "CH512s"[1..] == "H512s" && "CHs"[1..] == "Hs" && Fields("CH512s") == Fields("CHs");
    assert "HH512s"[1..] == "H512s" && "HHs"[1..] == "Hs" && Fields("HH512s") == Fields("HHs");
    assert PARSE_REQ_FMT[1..] == "CH512s" && SERIAL_REQ_FMT[1..] == "CHs";
    assert PARSE_RES_FMT[1..] == "512s" && SERIAL_RES_FMT[1..] == "s";
    assert PARSE_MSG_RES_FMT[1..] == "HH512s" && SERIAL_MSG_RES_FMT[1..] == "HHs";
  }

  lemma StoredCons(ch: char, format: string, arg: Arg, args: seq<Arg>)
    requires IsField(ch) && Suits(ch, arg) && WellTyped(format, args)
    ensures WellTyped([ch] + format, [arg] + args)
    ensures Stored([ch] + format, [arg] + args, 0) == [Cut(ch, 0, arg)] + Stored(format, args, 0)
  {
    assert ([ch] + format)[1..] == format && ([arg] + args)[1..] == args;
  }

  lemma StoredTail(s: Str)
    ensures WellTyped("512s", [Text(s)]) && Stored("512s", [Text(s)], 0) == [Text(Capped(s, CAP))]
  {
    TextField(s);
    assert "512s"[1..] == "12s" && "12s"[1..] == "2s" && "2s"[1..] == "s" && "s"[1..] == "";
    assert NextCap('5', 0) == 5 && NextCap('1', 5) == 51 && NextCap('2', 51) == CAP;
    assert WellTyped("2s", [Text(s)]) && WellTyped("12s", [Text(s)]);
    assert [Text(s)][1..] == [];
    assert Stored("s", [Text(s)], CAP) == [Text(Capped(s, CAP))] + Stored("", [], 0);
  }

  /** A 16-bit field before the text. */
  lemma StoredWide(h: U16Field, s: Str)
    ensures WellTyped("H512s", [Number(h), Text(s)])
    ensures Stored("H512s", [Number(h), Text(s)], 0) == [Number(h), Text(Capped(s, CAP))]
  {
    StoredTail(s);
    StoredCons('H', "512s", Number(h), [Text(s)]);
    assert ['H'] + "512s" == "H512s" && [Number(h)] + [Text(s)] == [Number(h), Text(s)];
  }

  lemma RequestStored(r: Request)
    ensures WellTyped(PARSE_REQ_FMT, RequestArgs(r))
    ensures Stored(PARSE_REQ_FMT, RequestArgs(r), 0) == RequestArgs(r.(msg := Capped(r.msg, CAP)))
  {
    var c, v, rest := Number(r.command), Number(r.version), [Number(r.channelId), Text(r.msg)];
    StoredWide(r.channelId, r.msg);
    StoredCons('C', "H512s", c, rest);
    StoredCons('C', "CH512s", v, [c] + rest);
    assert ['C'] + "H512s" == "CH512s" && ['C'] + "CH512s" == PARSE_REQ_FMT;
    assert [v] + ([c] + rest) == RequestArgs(r);
  }

  lemma ResponseStored(r: Response)
    ensures WellTyped(PARSE_RES_FMT, ResponseArgs(r))
    ensures Stored(PARSE_RES_FMT, ResponseArgs(r), 0) == ResponseArgs(r.(data := Capped(r.data, CAP)))
  {
    StoredTail(r.data);
    StoredCons('C', "512s", Number(r.code), [Text(r.data)]);
    assert ['C'] + "512s" == PARSE_RES_FMT && [Number(r.code)] + [Text(r.data)] == ResponseArgs(r);
  }

  lemma MsgStored(m: MsgSubPacket)
    ensures WellTyped(PARSE_MSG_RES_FMT, MsgArgs(m))
    ensures Stored(PARSE_MSG_RES_FMT, MsgArgs(m), 0) == MsgArgs(m.(msg := Capped(m.msg, CAP)))
  {
    var u, c, rest := Number(m.userId), Number(m.channelId), [Number(m.msgLen), Text(m.msg)];
    StoredWide(m.msgLen, m.msg);
    StoredCons('H', "H512s", u, rest);
    StoredCons('H', "HH512s", c, [u] + rest);
    assert ['H'] + "H512s" == "HH512s" && ['H'] + "HH512s" == PARSE_MSG_RES_FMT;
    assert [c] + ([u] + rest) == MsgArgs(m);
  }

  /** The capped text and its NUL have room exactly when the text is not 512 bytes long. */
  lemma RoomIff(s: Str)
    ensures |Capped(s, CAP)| < MD_BUFF_SIZE <==> |s| != CAP
    ensures UpToNul(Capped(s, CAP)) == Capped(s, CAP)
  {
    NoNul(Capped(s, CAP));
  }

  lemma RequestDecoded(r: Request, suffix: seq<byte>)
    requires |r.msg| < U16
    ensures Readable(PARSE_REQ_FMT, RequestBytes(r) + suffix)
    ensures Decode(PARSE_REQ_FMT, RequestBytes(r) + suffix, 0)
            == Parsed(RequestArgs(r.(msg := Capped(r.msg, CAP))), 6 + |r.msg|)
  {
    RequestLayout(r);
    RequestStored(r);
    FormatFields();
    RoundTripTwoFormats(PARSE_REQ_FMT, SERIAL_REQ_FMT, RequestArgs(r), suffix);
  }

  lemma RequestRead(r: Request, bytes: seq<byte>)
    requires Readable(PARSE_REQ_FMT, bytes)
    requires Decode(PARSE_REQ_FMT, bytes, 0).values == RequestArgs(r)
    ensures RequestOf(bytes) == r
    ensures HasRoom(RequestArgs(r)) <==> |r.msg| < MD_BUFF_SIZE
  {
    NoNul(r.msg);
    assert RequestArgs(r)[3] == Text(r.msg);
  }

  /** A request is read back with its message cut to 511 bytes if it has more than 512; the text
      has room in the buffer it is read into exactly when it is not 512 bytes long. */
  lemma RequestRoundTrip(r: Request, suffix: seq<byte>)
    requires |r.msg| < U16
    ensures Readable(PARSE_REQ_FMT, RequestBytes(r) + suffix)
    ensures RequestOf(RequestBytes(r) + suffix) == r.(msg := Capped(r.msg, CAP))
    ensures Decode(PARSE_REQ_FMT, RequestBytes(r) + suffix, 0).used == |RequestBytes(r)|
    ensures HasRoom(Decode(PARSE_REQ_FMT, RequestBytes(r) + suffix, 0).values) <==> |r.msg| != CAP
  {
    RequestDecoded(r, suffix);
    RequestRead(r.(msg := Capped(r.msg, CAP)), RequestBytes(r) + suffix);
    RoomIff(r.msg);
  }

  lemma ResponseDecoded(r: Response, suffix: seq<byte>)
    requires |r.data| < U16
    ensures Readable(PARSE_RES_FMT, ResponseBytes(r) + suffix)
    ensures Decode(PARSE_RES_FMT, ResponseBytes(r) + suffix, 0)
            == Parsed(ResponseArgs(r.(data := Capped(r.data, CAP))), 3 + |r.data|)
  {
    ResponseLayout(r);
    ResponseStored(r);
    FormatFields();
    RoundTripTwoFormats(PARSE_RES_FMT, SERIAL_RES_FMT, ResponseArgs(r), suffix);
  }

  lemma ResponseRead(r: Response, bytes: seq<byte>)
    requires Readable(PARSE_RES_FMT, bytes)
    requires Decode(PARSE_RES_FMT, bytes, 0).values == ResponseArgs(r)
    ensures ResponseOf(bytes) == r
    ensures HasRoom(ResponseArgs(r)) <==> |r.data| < MD_BUFF_SIZE
  {
    NoNul(r.data);
    assert ResponseArgs(r)[1] == Text(r.data);
  }

  lemma ResponseRoundTrip(r: Response, suffix: seq<byte>)
    requires |r.data| < U16
    ensures Readable(PARSE_RES_FMT, ResponseBytes(r) + suffix)
    ensures ResponseOf(ResponseBytes(r) + suffix) == r.(data := Capped(r.data, CAP))
    ensures Decode(PARSE_RES_FMT, ResponseBytes(r) + suffix, 0).used == |ResponseBytes(r)|
    ensures HasRoom(Decode(PARSE_RES_FMT, ResponseBytes(r) + suffix, 0).values) <==> |r.data| != CAP
  {
    ResponseDecoded(r, suffix);
    ResponseRead(r.(data := Capped(r.data, CAP)), ResponseBytes(r) + suffix);
    RoomIff(r.data);
  }

  lemma MsgRoundTrip(m: MsgSubPacket, suffix: seq<byte>)
    requires |m.msg| < U16
    ensures Readable(PARSE_MSG_RES_FMT, MsgBytes(m) + suffix)
    ensures Decode(PARSE_MSG_RES_FMT, MsgBytes(m) + suffix, 0)
            == Parsed(MsgArgs(m.(msg := Capped(m.msg, CAP))), 8 + |m.msg|)
  {
    MsgLayout(m);
    MsgStored(m);
    FormatFields();
    RoundTripTwoFormats(PARSE_MSG_RES_FMT, SERIAL_MSG_RES_FMT, MsgArgs(m), suffix);
  }

  // ---- The wrappers ----

  method SerializePacket(r: Request, buffer: array<byte>) returns (size: nat)
    requires |RequestBytes(r)| <= buffer.Length
    modifies buffer
    ensures size == |RequestBytes(r)| % U32
    ensures buffer[..] == RequestBytes(r) + old(buffer[|RequestBytes(r)|..])
    ensures RequestBytes(r) == [r.version, r.command, r.channelId / 256, r.channelId % 256] + TextBytes(r.msg)
  {
    RequestLayout(r);
    size := Serialize(buffer, SERIAL_REQ_FMT, RequestArgs(r));
  }

  method SerializeResponse(r: Response, buffer: array<byte>) returns (size: nat)
    requires |ResponseBytes(r)| <= buffer.Length
    modifies buffer
    ensures size == |ResponseBytes(r)| % U32
    ensures buffer[..] == ResponseBytes(r) + old(buffer[|ResponseBytes(r)|..])
    ensures ResponseBytes(r) == [r.code] + TextBytes(r.data)
  {
    ResponseLayout(r);
    size := Serialize(buffer, SERIAL_RES_FMT, ResponseArgs(r));
  }

  method SerializeMsg(m: MsgSubPacket, buffer: array<byte>) returns (size: nat)
    requires |MsgBytes(m)| <= buffer.Length
    modifies buffer
    ensures size == |MsgBytes(m)| % U32
    ensures buffer[..] == MsgBytes(m) + old(buffer[|MsgBytes(m)|..])
    ensures MsgBytes(m) == [m.channelId / 256, m.channelId % 256, m.userId / 256, m.userId % 256, m.msgLen / 256, m.msgLen % 256]
                 + TextBytes(m.msg)
  {
    MsgLayout(m);
    size := Serialize(buffer, SERIAL_MSG_RES_FMT, MsgArgs(m));
  }

  /** What the message field of a request gets of the zeroed local buffer into which the text was
      parsed, when `size` bytes were received; beyond its 512 bytes the source copies what lies
      behind the buffer. */
  function MsgField(text: seq<byte>, size: nat): (r: seq<byte>)
    requires |text| < MD_BUFF_SIZE
    ensures |r| == if size < MD_BUFF_SIZE then size else MD_BUFF_SIZE
  {
    var buf := text + seq(MD_BUFF_SIZE - |text|, _ => 0);
    if size < MD_BUFF_SIZE then buf[..size] else buf
  }

  /** The field holds the whole message, as a terminated string, exactly when more bytes were
      received than the message is long. */
  lemma MsgFieldIff(text: seq<byte>, size: nat)
    requires |text| < MD_BUFF_SIZE
    ensures 0 in MsgField(text, size) && UpToNul(MsgField(text, size)) == UpToNul(text) <==>
            size > |UpToNul(text)|
  {
    var field, msg := MsgField(text, size), UpToNul(text);
    var buf := text + seq(MD_BUFF_SIZE - |text|, _ => 0);
    assert buf[|msg|] == 0;
    if size > |msg| {
      assert field[|msg|] == 0;
      assert field[..|msg|] == msg;
      UpToNulIs(field, |msg|);
    } else {
      assert forall k :: 0 <= k < size ==> field[k] == msg[k];
    }
  }

  lemma {:induction false} UpToNulIs(s: seq<byte>, n: nat)
    requires n < |s| && s[n] == 0 && 0 !in s[..n]
    ensures UpToNul(s) == s[..n]
  {
    if n > 0 {
      assert s[..n] == [s[0]] + s[1..][..n - 1];
      UpToNulIs(s[1..], n - 1);
    }
  }

  /** The message of a request of which `size` bytes were received. */
  function MessageRead(bytes: seq<byte>, size: nat): Str
    requires Readable(PARSE_REQ_FMT, bytes) && HasRoom(Decode(PARSE_REQ_FMT, bytes, 0).values)
  {
    RequestShape(bytes);
    UpToNul(MsgField(Decode(PARSE_REQ_FMT, bytes, 0).values[3].bytes, size))
  }

  /** It is whole when more bytes were received than it is long, else cut to as many. */
  lemma MessageReadIs(bytes: seq<byte>, size: nat)
    requires Readable(PARSE_REQ_FMT, bytes) && HasRoom(Decode(PARSE_REQ_FMT, bytes, 0).values)
    ensures var msg := RequestOf(bytes).msg;
            MessageRead(bytes, size) == if size > |msg| then msg else msg[..size]
  {
    RequestShape(bytes);
    var text := Decode(PARSE_REQ_FMT, bytes, 0).values[3].bytes;
    MsgFieldIff(text, size);
    var field, msg := MsgField(text, size), UpToNul(text);
    if size <= |msg| {
      assert field == msg[..size];
      NoNul(msg[..size]);
    }
  }

  /** `overread` tells whether the copy by received size reads past the local buffer. */
  method ParseRequest(buffer: array<byte>, size: nat) returns (r: Request, overread: bool)
    requires Readable(PARSE_REQ_FMT, buffer[..])
    requires HasRoom(Decode(PARSE_REQ_FMT, buffer[..], 0).values)
    ensures overread <==> size > MD_BUFF_SIZE
    ensures r == RequestOf(buffer[..]).(msg := MessageRead(buffer[..], size))
  {
    RequestShape(buffer[..]);
    var values, cursor := Parse(buffer, PARSE_REQ_FMT);
    r := Request(values[0].n, values[1].n, values[2].n, UpToNul(MsgField(values[3].bytes, size)));
    overread := size > MD_BUFF_SIZE;
  }

  /** A request received whole keeps its message, and the copy stays within the local buffer exactly
      for messages of at most 506 bytes. */
  lemma WholeRequest(r: Request, tail: seq<byte>)
    requires |r.msg| < U16 && |r.msg| != CAP
    ensures Readable(PARSE_REQ_FMT, RequestBytes(r) + tail)
    ensures HasRoom(Decode(PARSE_REQ_FMT, RequestBytes(r) + tail, 0).values)
    ensures MessageRead(RequestBytes(r) + tail, |RequestBytes(r)|) == Capped(r.msg, CAP)
    ensures |RequestBytes(r)| > MD_BUFF_SIZE <==> |r.msg| > 506
  {
    RequestRoundTrip(r, tail);
    MessageReadIs(RequestBytes(r) + tail, |RequestBytes(r)|);
  }

  /** What a client sends to a channel is what the others read: the server parses the request, of
      which it has received all bytes, and puts its message in a response. It arrives whole exactly
      when it is shorter than 512 bytes, and cut to 511 otherwise. */
  lemma RelayedText(r: Request, code: byte, tail: seq<byte>, tail': seq<byte>)
    requires |r.msg| < U16 && |r.msg| != CAP
    ensures Readable(PARSE_REQ_FMT, RequestBytes(r) + tail)
    ensures HasRoom(Decode(PARSE_REQ_FMT, RequestBytes(r) + tail, 0).values)
    ensures var reply := ResponseBytes(Response(code, MessageRead(RequestBytes(r) + tail, |RequestBytes(r)|)));
            && Readable(PARSE_RES_FMT, reply + tail')
            && ResponseOf(reply + tail') == Response(code, Capped(r.msg, CAP))
            && (ResponseOf(reply + tail').data == r.msg <==> |r.msg| < CAP)
  {
    WholeRequest(r, tail);
    ResponseRoundTrip(Response(code, Capped(r.msg, CAP)), tail');
  }

  method ParseResponse(buffer: array<byte>) returns (r: Response)
    requires Readable(PARSE_RES_FMT, buffer[..])
    requires HasRoom(Decode(PARSE_RES_FMT, buffer[..], 0).values)
    ensures r == ResponseOf(buffer[..]) && |r.data| < MD_BUFF_SIZE
  {
    ResponseShape(buffer[..]);
    var values, cursor := Parse(buffer, PARSE_RES_FMT);
    r := Response(values[0].n, UpToNul(values[1].bytes));
  }
}
