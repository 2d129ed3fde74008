/**
 The request builder of cpt_api/src/cpt_packet_builder.c, and cpt_send of cpt_client.c, which
 fills a request with it and serializes the result.
 */
module PacketBuilder {
  import opened Wrappers
  import opened Codec
  import opened Packets
  import Commands
  import Users
  import Directory

  const VERSION_MAX := 15
  const VER_MAJ_LAT: byte := 2
  const VER_MIN_LAT: byte := 0

  /** The two halves of a version byte, as cpt_to_string shows them. */
  function Major(version: byte): byte {
    version / 16
  }

  function Minor(version: byte): byte {
    version % 16
  }

  /** Exactly the version byte that a pair of nibbles stands for. */
  lemma NibblesIff(version: byte, major: byte, minor: byte)
    requires major <= VERSION_MAX && minor <= VERSION_MAX
    ensures version == major * 16 + minor <==> Major(version) == major && Minor(version) == minor
  {
  }

  class CptRequest {
    var version: byte
    var command: byte
    var channelId: U16Field
    var msgLen: U16Field
    var msg: Option<Str>

    /** Only the message is set; the other fields hold whatever the memory held. */
    constructor ()
      ensures msg == None
    {
      msg := None;
    }

    /** A command out of range is refused. */
    method SetCommand(cmd: byte)
      modifies this`command
      ensures command == if 1 <= cmd <= 8 then cmd else old(command)
    {
      if cmd >= Commands.SEND && cmd <= Commands.CREATE_VCHAN {
        command := cmd;
      }
    }

    /** Both halves can be read back, unless either does not fit a nibble; then nothing changes. */
    method SetVersion(major: byte, minor: byte)
      modifies this`version
      ensures major <= VERSION_MAX && minor <= VERSION_MAX
              ==> Major(version) == major && Minor(version) == minor
      ensures major > VERSION_MAX || minor > VERSION_MAX ==> version == old(version)
    {
      if major > VERSION_MAX || minor > VERSION_MAX {
        return;
      }
      version := (major * 16) % 256 + minor;
    }

    method SetChannel(channelId: U16Field)
      modifies this`channelId
      ensures this.channelId == channelId
    {
      this.channelId := channelId;
    }

    method SetMsg(text: Option<Str>)
      modifies this`msg, this`msgLen
      ensures text.Some? ==> msg == text && msgLen == |text.value| % U16
      ensures text.None? ==> msg == old(msg) && msgLen == old(msgLen)
    {
      if text.Some? {
        msg := text;
        msgLen := |text.value| % U16;
      }
    }

    ghost function Packet(): Request
      requires msg.Some?
      reads this
    {
      Request(version, command, channelId, msg.value)
    }

    method Serialize(buffer: array<byte>) returns (size: nat)
      requires msg.Some? && |RequestBytes(Packet())| <= buffer.Length
      modifies buffer
      ensures size == |RequestBytes(Packet())| % U32
      ensures buffer[..] == RequestBytes(Packet()) + old(buffer[|RequestBytes(Packet())|..])
    {
      size := SerializePacket(Request(version, command, channelId, msg.value), buffer);
    }
  }

  /** A count cut to 32 bits and then to 16 is the count cut to 16 bits. */
  lemma NarrowTwice(n: nat)
    ensures n % U32 % U16 == n % U16
  {
    var q, r := n / U32, n % U32;
    assert n == (q * U16 + r / U16) * U16 + r % U16;
  }

  /** The bytes of a SEND in version 2.0: the channel, the length and the text, high bytes first. */
  function SendBytes(channel: U16Field, msg: Str): seq<byte> {
    var len := |msg| % U32;
    [0x20, 0x01, channel / 256, channel % 256, len / 256 % 256, len % 256] + msg[..len]
  }

  /** cpt_send; the size is returned in 16 bits. */
  method Send(channel: U16Field, msg: Str, buffer: array<byte>) returns (packet: CptRequest, size: nat)
    requires |SendBytes(channel, msg)| <= buffer.Length
    modifies buffer
    ensures var bytes := SendBytes(channel, msg);
            buffer[..] == bytes + old(buffer[|bytes|..]) && size == |bytes| % U16
  {
    packet := new CptRequest();
    packet.SetChannel(channel);
    packet.SetVersion(VER_MAJ_LAT, VER_MIN_LAT);
    packet.SetCommand(Commands.SEND);
    packet.SetMsg(Some(msg));
    NibblesIff(packet.version, VER_MAJ_LAT, VER_MIN_LAT);
    SendIs(channel, msg);
    var full := packet.Serialize(buffer);
    NarrowTwice(|SendBytes(channel, msg)|);
    size := full % U16;
  }

  lemma SendIs(channel: U16Field, msg: Str)
    ensures SendBytes(channel, msg) == RequestBytes(Request(0x20, 1, channel, msg))
  {
  }

  /** What the server makes of it once it has received the whole request: version 2.0, and the event
      of a SEND to that channel with the text that was given. */
  lemma SendIsDispatched(from: int, channel: U16Field, msg: Str, tail: seq<byte>, query: Option<seq<Users.U16>>)
    requires |msg| < CAP
    ensures Readable(PARSE_REQ_FMT, SendBytes(channel, msg) + tail)
    ensures var r := RequestOf(SendBytes(channel, msg) + tail);
            && Major(r.version) == 2 && Minor(r.version) == 0 && r.msg == msg
            && Directory.Request(from, r.command, r.channelId, query) == Directory.Send(from, channel)
  {
    SendIs(channel, msg);
    RequestRoundTrip(Request(0x20, 1, channel, msg), tail);
  }
}
