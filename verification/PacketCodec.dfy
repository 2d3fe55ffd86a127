/** Packets and their codec as classes over a pair of byte streams that never fail to transport. */
module PacketCodecs {
  import opened Wrappers
  import opened PacketFrames

  class PacketObject {
    var magic: int
    var id: int
    var source: int
    var target: int
    var length: int
    var payload: seq<Byte>

    ghost function View(): Packet
      reads this
    {
      Packet(Header(magic, id, source, target, length), payload)
    }

    constructor ()
      ensures View() == Packet(Header(0, 0, 0, 0, 0), [])
    {
      magic, id, source, target, length, payload := 0, 0, 0, 0, 0, [];
    }

    method SetData(sizing: Sizing, data: seq<Byte>)
      modifies this
      ensures View() == Packet(old(View()).header.(length := |data|), Filled(sizing, old(payload), data))
      ensures length == |data| && |payload| == if sizing == Resize then |data| else |old(payload)|
      ensures forall j | 0 <= j < |payload| :: payload[j] == if j < |data| then data[j] else old(payload)[j]
    {
      length := |data|;
      FromString(sizing, data);
    }

    /**
     FByteArray::FromString: makes room and copies byte by byte.  As written the room is reserved, so
     the array keeps its size and what is copied beyond it is not part of the payload.
     */
    method FromString(sizing: Sizing, data: seq<Byte>)
      modifies this`payload
      ensures payload == Filled(sizing, old(payload), data)
      ensures |payload| == if sizing == Resize then |data| else |old(payload)|
      ensures forall j | 0 <= j < |payload| :: payload[j] == if j < |data| then data[j] else old(payload)[j]
    {
      if sizing == Resize {
        ResizeTo(|data|);
      }
      ghost var room := payload;
      for i := 0 to |data|
        invariant |payload| == |room|
        invariant forall j | 0 <= j < |room| :: payload[j] == if j < i then data[j] else room[j]
      {
        if i < |payload| {
          payload := payload[i := data[i]];
        }
      }
      assert |data| <= |room| ==> payload[..|data|] == data && payload[|data|..] == room[|data|..];
    }

    /** Cuts the payload off or appends zeros. */
    method ResizeTo(size: nat)
      modifies this`payload
      ensures |payload| == size && forall i | 0 <= i < size :: payload[i] == if i < |old(payload)|
                then old(payload)[i] else 0
    {
      payload := if size <= |payload| then payload[..size] else payload + seq(size - |payload|, i => 0);
    }

    /** Refused unless `other` is another packet. */
    method CopyFrom(other: object?) returns (copied: bool)
      modifies this
      ensures copied <==> other != null && other != this && other is PacketObject
      ensures copied ==> View() == old((other as PacketObject).View())
      ensures !copied ==> View() == old(View())
    {
      if other == null || other == this {
        return false;
      }
      if other is PacketObject {
        var packet := other as PacketObject;
        magic, id, source, target, length := packet.magic, packet.id, packet.source, packet.target, packet.length;
        payload := packet.payload;
        length := packet.length;
        return true;
      }
      return false;
    }
  }

  class PacketCodec {
    const sizing: Sizing
    var outgoing: seq<Byte>
    var incoming: seq<Byte>

    constructor (sizing: Sizing, incoming: seq<Byte>)
      ensures this.sizing == sizing && outgoing == [] && this.incoming == incoming
    {
      this.sizing, outgoing, this.incoming := sizing, [], incoming;
    }

    method Write(bytes: seq<Byte>) returns (len: nat)
      modifies this`outgoing
      ensures outgoing == old(outgoing) + bytes && len == |bytes|
    {
      outgoing := outgoing + bytes;
      len := |bytes|;
    }

    /** Reads exactly `n` bytes, or fails at the end of the stream. */
    method Read(n: nat) returns (r: Option<seq<Byte>>)
      modifies this`incoming
      ensures if n <= |old(incoming)| then r == Some(old(incoming)[..n]) && incoming == old(incoming)[n..]
              else r == None && incoming == []
    {
      if n <= |incoming| {
        r := Some(incoming[..n]);
        incoming := incoming[n..];
      } else {
        r := None;
        incoming := [];
      }
    }

    /** The fields in network order, one after another. */
    method NetworkHeader(pkg: PacketObject) returns (header: seq<Byte>)
      requires pkg.View().header.Fits()
      ensures header == HeaderBytes(pkg.View().header)
      ensures var b: seq<int> := header;
              pkg.magic == 0x100_0000 * b[0] + 0x1_0000 * b[1] + 0x100 * b[2] + b[3] &&
              pkg.id == 0x100_0000 * b[4] + 0x1_0000 * b[5] + 0x100 * b[6] + b[7] &&
              pkg.source == 0x100_0000 * b[8] + 0x1_0000 * b[9] + 0x100 * b[10] + b[11] -
                              (if b[8] >= 128 then 0x1_0000_0000 else 0) &&
              pkg.target == 0x100_0000 * b[12] + 0x1_0000 * b[13] + 0x100 * b[14] + b[15] -
                              (if b[12] >= 128 then 0x1_0000_0000 else 0) &&
              pkg.length == 0x100_0000_0000_0000 * b[16] + 0x1_0000_0000_0000 * b[17] + 0x100_0000_0000 * b[18] +
                              0x1_0000_0000 * b[19] + 0x100_0000 * b[20] + 0x1_0000 * b[21] + 0x100 * b[22] + b[23]
    {
      header := BigEndian(pkg.magic, 4);
      header := header + BigEndian(pkg.id, 4);
      header := header + BigEndian(Unsigned(pkg.source), 4);
      header := header + BigEndian(Unsigned(pkg.target), 4);
      header := header + BigEndian(pkg.length, 8);
      assert header == HeaderBytes(pkg.View().header);
      hide HeaderBytes, HeaderOf, BigEndian;
      HeaderRoundTrip(pkg.View().header);
      FieldsAtPlaces(header);
    }

    method EncodeT(pkg: PacketObject) returns (ok: bool)
      requires pkg.View().header.Fits()
      modifies this`outgoing
      ensures outgoing == old(outgoing) + Frame(pkg.View()) && (ok <==> Accepted(pkg.View()))
      ensures ok <==> pkg.length == 0 || (pkg.length <= MAX_PAYLOAD && pkg.payload != [])
      ensures pkg.length > MAX_PAYLOAD ==> outgoing == old(outgoing)
      ensures pkg.length <= MAX_PAYLOAD ==>
                |outgoing| >= |old(outgoing)| + 24 && outgoing[..|old(outgoing)|] == old(outgoing) &&
                outgoing[|old(outgoing)| + 24..] == (if pkg.length == 0 then [] else pkg.payload) &&
                var b: seq<int> := outgoing[|old(outgoing)|..];
                pkg.magic == 0x100_0000 * b[0] + 0x1_0000 * b[1] + 0x100 * b[2] + b[3] &&
                pkg.id == 0x100_0000 * b[4] + 0x1_0000 * b[5] + 0x100 * b[6] + b[7] &&
                pkg.source == 0x100_0000 * b[8] + 0x1_0000 * b[9] + 0x100 * b[10] + b[11] -
                              (if b[8] >= 128 then 0x1_0000_0000 else 0) &&
                pkg.target == 0x100_0000 * b[12] + 0x1_0000 * b[13] + 0x100 * b[14] + b[15] -
                              (if b[12] >= 128 then 0x1_0000_0000 else 0) &&
                pkg.length == 0x100_0000_0000_0000 * b[16] + 0x1_0000_0000_0000 * b[17] + 0x100_0000_0000 * b[18] +
                              0x1_0000_0000 * b[19] + 0x100_0000 * b[20] + 0x1_0000 * b[21] + 0x100 * b[22] + b[23]
    {
      hide HeaderBytes;
      var header := NetworkHeader(pkg);
      if pkg.length <= 0 {
        var len := Write(header);
        return len == HEADER_SIZE;
      }
      if pkg.length > MAX_PAYLOAD {
        assert outgoing + [] == outgoing;
        return false;
      }
      var len := Write(header + pkg.payload);
      return len > HEADER_SIZE;
    }

    /** A failed decoding leaves the packet in no particular state. */
    method DecodeT(pkg: PacketObject) returns (ok: bool)
      modifies this`incoming, pkg
      ensures ok <==> Decode(sizing, old(incoming), old(pkg.payload)).Some?
      ensures ok ==> Decode(sizing, old(incoming), old(pkg.payload)) == Some((pkg.View(), incoming))
      ensures ok ==> |old(incoming)| >= 24
      ensures sizing == Resize && |old(incoming)| >= 24 ==>
                (ok <==> pkg.length == 0 || (pkg.length <= MAX_PAYLOAD && |old(incoming)| >= 24 + pkg.length))
      ensures |old(incoming)| >= 24 ==>
                var b: seq<int> := old(incoming);
                pkg.magic == 0x100_0000 * b[0] + 0x1_0000 * b[1] + 0x100 * b[2] + b[3] &&
                pkg.id == 0x100_0000 * b[4] + 0x1_0000 * b[5] + 0x100 * b[6] + b[7] &&
                pkg.source == 0x100_0000 * b[8] + 0x1_0000 * b[9] + 0x100 * b[10] + b[11] -
                              (if b[8] >= 128 then 0x1_0000_0000 else 0) &&
                pkg.target == 0x100_0000 * b[12] + 0x1_0000 * b[13] + 0x100 * b[14] + b[15] -
                              (if b[12] >= 128 then 0x1_0000_0000 else 0) &&
                pkg.length == 0x100_0000_0000_0000 * b[16] + 0x1_0000_0000_0000 * b[17] + 0x100_0000_0000 * b[18] +
                              0x1_0000_0000 * b[19] + 0x100_0000 * b[20] + 0x1_0000 * b[21] + 0x100 * b[22] + b[23]
      ensures ok && pkg.length == 0 ==> pkg.payload == old(pkg.payload) && incoming == old(incoming)[24..]
      ensures ok && pkg.length > 0 && sizing == Resize ==>
                |old(incoming)| >= 24 + pkg.length && pkg.payload == old(incoming)[24..24 + pkg.length] &&
                incoming == old(incoming)[24 + pkg.length..]
    {
      hide HeaderOf;
      var bytes := Read(HEADER_SIZE);
      if bytes.None? {
        return false;
      }
      var header := HeaderOf(bytes.value);
      FieldsAtPlaces(bytes.value);
      pkg.magic, pkg.id := header.magic, header.id;
      pkg.source, pkg.target := header.source, header.target;
      pkg.length := header.length;
      if pkg.length <= 0 {
        return true;
      }
      if pkg.length > MAX_PAYLOAD {
        return false;
      }
      var asked := if sizing == Resize then pkg.length else |pkg.payload|;
      var payload := Read(asked);
      if payload.None? {
        return false;
      }
      pkg.payload := payload.value;
      if asked < pkg.length {
        return false;
      }
      return true;
    }
  }
}
