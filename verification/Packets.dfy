/** Packet layout: networks.c and networks.h.
    A packet is [sequence number: 4][checksum: 2][flag: 1][body][one trailing pad byte]. */
module Packets {
  import opened Bytes
  import opened Checksum

  const HEADER_LEN := 7
  const CHECKSUM_AT := 4
  const MAX_PACKET_LEN := 1500
  const CRC_ERROR := -1

  /** What the two programs say to each other, one constructor for each value of `enum FLAG`. */
  datatype Msg =
    | Data(num: nat, payload: seq<byte>)
    | RR(num: nat)
    | SREJ(num: nat)
    | FileName(name: seq<byte>)
    | AckFileName
    | RejFileName
    | RejFileNameNoOpen
    | BufferSize(size: nat)
    | AckBufferSize
    | RejBufferSize
    | WindowSize(size: nat)
    | AckWindowSize
    | RejWindowSize
    | EndOfFile
    | AckEof
    | Unidentified(flag: byte)

  /** What `select_call` and `recv_buf` report: nothing arrived, a packet that fails its checksum,
      or a packet. */
  datatype Input = Silence | Corrupt | Arrived(msg: Msg)

  function FlagOf(m: Msg): byte {
    match m
    case Data(_, _) => 1
    case RR(_) => 3
    case SREJ(_) => 4
    case FileName(_) => 6
    case AckFileName => 7
    case RejFileName => 8
    case RejFileNameNoOpen => 9
    case BufferSize(_) => 10
    case AckBufferSize => 11
    case RejBufferSize => 12
    case WindowSize(_) => 13
    case AckWindowSize => 14
    case RejWindowSize => 15
    case EndOfFile => 16
    case AckEof => 17
    case Unidentified(flag) => flag
  }

  /** The 32-bit number that leads the body of a numbered message. */
  function LeadingNumber(m: Msg): int {
    match m
    case Data(n, _) => n
    case RR(n) => n
    case SREJ(n) => n
    case FileName(name) => |name|
    case BufferSize(n) => n
    case WindowSize(n) => n
    case _ => -1
  }

  function TextOf(m: Msg): seq<byte> {
    match m
    case Data(_, payload) => payload
    case FileName(name) => name
    case _ => []
  }

  /** A message the programs build: not a stray flag, numbers of 32 bits, within the packet limit. */
  predicate Sendable(m: Msg) {
    && !m.Unidentified?
    && LeadingNumber(m) < TWO_TO_THE_32
    && HEADER_LEN + 4 + |TextOf(m)| + 1 <= MAX_PACKET_LEN
  }

  function BodyOf(m: Msg): (body: seq<byte>)
    requires Sendable(m)
    ensures HEADER_LEN + |body| + 1 <= MAX_PACKET_LEN
  {
    if LeadingNumber(m) < 0 then [] else ToNetwork(LeadingNumber(m)) + TextOf(m)
  }

  // ---- Whole packets ----

  /** A packet whose checksum field is still zero. */
  function Unsealed(seqNum: nat, flag: byte, body: seq<byte>, pad: byte): (p: seq<byte>)
    requires seqNum < TWO_TO_THE_32
    ensures |p| == HEADER_LEN + |body| + 1
  {
    ToNetwork(seqNum) + [0, 0] + [flag] + body + [pad]
  }

  /** The packet as it goes out; `pad` is whatever byte followed the body in the buffer. */
  function Frame(host: Order, seqNum: nat, flag: byte, body: seq<byte>, pad: byte): (p: seq<byte>)
    requires seqNum < TWO_TO_THE_32
    ensures |p| == HEADER_LEN + |body| + 1
  {
    var p := Unsealed(seqNum, flag, body, pad);
    WithChecksum(host, p, CHECKSUM_AT, Cksum(host, p))
  }

  function SeqNumOf(p: seq<byte>): nat
    requires |p| >= 4
  {
    FromNetwork(p[..4])
  }

  predicate HasSeqNum(p: seq<byte>, seqNum: nat) {
    |p| >= 4 && Numeral(p[..4]) == seqNum
  }

  /** The packet number, as both programs read it. */
  function PacketNum(p: seq<byte>): nat
    requires |p| >= HEADER_LEN + 4
  {
    FromNetwork(p[HEADER_LEN..HEADER_LEN + 4])
  }

  /** The file data, as the server extracts it: the received length less header, number and pad. */
  function Payload(p: seq<byte>): seq<byte>
    requires |p| >= HEADER_LEN + 5
  {
    p[HEADER_LEN + 4..|p| - 1]
  }

  /** What a cleared packet buffer holds after `recv_buf`: whatever a packet lacks reads as zero. */
  function Padded(p: seq<byte>): (b: seq<byte>)
    ensures |b| == (if |p| < MAX_PACKET_LEN then MAX_PACKET_LEN else |p|)
    ensures b[..|p|] == p && forall i | |p| <= i < |b| :: b[i] == 0
  {
    p + seq(if |p| < MAX_PACKET_LEN then MAX_PACKET_LEN - |p| else 0, _ => 0)
  }

  /** What the receiving program reads in a packet, by its flag and at fixed offsets. Two reads have
      no meaning: of the data in a packet too short for any, whose length comes out negative, and of
      a name that goes beyond the buffer. */
  function MessageIn(p: seq<byte>): Msg {
    var b := Padded(p);
    var n := PacketNum(b);
    match b[6]
    case 1 => if |p| >= HEADER_LEN + 5 then Data(n, Payload(p)) else Unidentified(1)
    case 3 => RR(n)
    case 4 => SREJ(n)
    case 6 =>
      if HEADER_LEN + 4 + n <= |b| then FileName(b[HEADER_LEN + 4..HEADER_LEN + 4 + n])
      else Unidentified(6)
    case 7 => AckFileName
    case 8 => RejFileName
    case 9 => RejFileNameNoOpen
    case 10 => BufferSize(n)
    case 11 => AckBufferSize
    case 12 => RejBufferSize
    case 13 => WindowSize(n)
    case 14 => AckWindowSize
    case 15 => RejWindowSize
    case 16 => EndOfFile
    case 17 => AckEof
    case flag => Unidentified(flag)
  }

  /** `recv_buf` followed by the switch on the flag. */
  function Receive(host: Order, p: seq<byte>): Input {
    if !Verified(host, p) then Corrupt else Arrived(MessageIn(p))
  }

  /** The fields of every message the programs build: the number, where there is one, stands in bytes 7
      to 10, most significant byte first. */
  lemma FrameFields(host: Order, seqNum: nat, m: Msg, pad: byte)
    requires seqNum < TWO_TO_THE_32 && Sendable(m)
    ensures var p := Frame(host, seqNum, FlagOf(m), BodyOf(m), pad);
      && p[6] == FlagOf(m)
      && (LeadingNumber(m) >= 0 ==>
            && |p| == HEADER_LEN + 5 + |TextOf(m)|
            && Numeral(p[7..11]) == PacketNum(p) == LeadingNumber(m)
            && p[HEADER_LEN + 4..HEADER_LEN + 4 + |TextOf(m)|] == TextOf(m))
  {
    var p := Frame(host, seqNum, FlagOf(m), BodyOf(m), pad);
    if LeadingNumber(m) >= 0 {
      NetworkOrderRoundTrip(LeadingNumber(m));
      ReadAsNumeral(ToNetwork(LeadingNumber(m)));
      assert p[HEADER_LEN..|p| - 1] == BodyOf(m);
      assert p[HEADER_LEN..HEADER_LEN + 4] == BodyOf(m)[..4] == ToNetwork(LeadingNumber(m));
      assert p[HEADER_LEN + 4..|p| - 1] == BodyOf(m)[4..] == TextOf(m);
    }
  }

  /** Padding hides nothing that a packet has. */
  lemma PaddedSlice(p: seq<byte>, i: nat, j: nat)
    requires i <= j <= |p|
    ensures Padded(p)[i..j] == p[i..j]
  {
    assert Padded(p)[..|p|][i..j] == Padded(p)[i..j];
  }

  lemma PaddedFields(p: seq<byte>)
    requires |p| >= HEADER_LEN
    ensures Padded(p)[6] == p[6]
    ensures |p| >= HEADER_LEN + 4 ==> PacketNum(Padded(p)) == PacketNum(p)
  {
    assert Padded(p)[..|p|][6] == p[6];
    if |p| >= HEADER_LEN + 4 {
      PaddedSlice(p, HEADER_LEN, HEADER_LEN + 4);
    }
  }

  lemma FlagIsRead(m: Msg, p: seq<byte>)
    requires Sendable(m) && LeadingNumber(m) < 0 && Padded(p)[6] == FlagOf(m)
    ensures MessageIn(p) == m
  {
  }

  lemma NumberIsRead(m: Msg, p: seq<byte>)
    requires Sendable(m) && LeadingNumber(m) >= 0 && Padded(p)[6] == FlagOf(m)
    requires |p| == HEADER_LEN + 5 + |TextOf(m)| && PacketNum(Padded(p)) == LeadingNumber(m)
    requires p[HEADER_LEN + 4..|p| - 1] == TextOf(m)
    requires Padded(p)[HEADER_LEN + 4..|p| - 1] == TextOf(m)
    ensures MessageIn(p) == m
  {
  }

  lemma FrameIsRead(host: Order, seqNum: nat, m: Msg, pad: byte)
    requires seqNum < TWO_TO_THE_32 && Sendable(m)
    ensures MessageIn(Frame(host, seqNum, FlagOf(m), BodyOf(m), pad)) == m
  {
    var p := Frame(host, seqNum, FlagOf(m), BodyOf(m), pad);
    FrameFields(host, seqNum, m, pad);
    PaddedFields(p);
    if LeadingNumber(m) < 0 {
      FlagIsRead(m, p);
    } else {
      PaddedSlice(p, HEADER_LEN + 4, |p| - 1);
      NumberIsRead(m, p);
    }
  }

  lemma FrameVerifies(host: Order, host': Order, seqNum: nat, flag: byte, body: seq<byte>, pad: byte)
    requires seqNum < TWO_TO_THE_32
    ensures Verified(host', Frame(host, seqNum, flag, body, pad))
  {
    var p := Unsealed(seqNum, flag, body, pad);
    StoredChecksumVerifies(host, p, CHECKSUM_AT);
    VerifiedOnEveryHost(host, host', Frame(host, seqNum, flag, body, pad));
  }

  /** Round trip: any message, any sequence number, any pad byte, hosts of either byte order. */
  lemma FrameRoundTrip(host: Order, host': Order, seqNum: nat, m: Msg, pad: byte)
    requires seqNum < TWO_TO_THE_32 && Sendable(m)
    ensures Receive(host', Frame(host, seqNum, FlagOf(m), BodyOf(m), pad)) == Arrived(m)
    ensures SeqNumOf(Frame(host, seqNum, FlagOf(m), BodyOf(m), pad)) == seqNum
  {
    var p := Frame(host, seqNum, FlagOf(m), BodyOf(m), pad);
    FrameVerifies(host, host', seqNum, FlagOf(m), BodyOf(m), pad);
    FrameIsRead(host, seqNum, m, pad);
    assert p[..4] == ToNetwork(seqNum);
    NetworkOrderRoundTrip(seqNum);
  }

  /** Every byte of a packet: the sequence number and the checksum most significant byte first, on hosts
      of either byte order, the flag, the body, the pad byte. */
  lemma FrameLayout(host: Order, seqNum: nat, flag: byte, body: seq<byte>, pad: byte)
    requires seqNum < TWO_TO_THE_32
    ensures var p := Frame(host, seqNum, flag, body, pad);
      && |p| == 4 + 2 + 1 + |body| + 1
      && Numeral(p[..4]) == seqNum
      && Numeral(p[4..6]) == Cksum(Big, p[4 := 0][5 := 0])
      && p[6] == flag && p[7..|p| - 1] == body && p[|p| - 1] == pad
  {
    var p, unsealed := Frame(host, seqNum, flag, body, pad), Unsealed(seqNum, flag, body, pad);
    StoredBytesAreTheSame(host, unsealed, CHECKSUM_AT);
    MostSignificantFirst(seqNum, 4);
    assert ToNetwork(seqNum)[..4] == ToNetwork(seqNum) == p[..4];
    assert p[4 := 0][5 := 0] == unsealed;
    assert p[7..|p| - 1] == body;
  }

  /** The flags of `networks.h`. */
  lemma FlagNumbers(m: Msg)
    requires Sendable(m)
    ensures m.Data? <==> FlagOf(m) == 1
    ensures m.RR? <==> FlagOf(m) == 3
    ensures m.SREJ? <==> FlagOf(m) == 4
    ensures m.FileName? <==> FlagOf(m) == 6
    ensures m.AckFileName? <==> FlagOf(m) == 7
    ensures m.RejFileName? <==> FlagOf(m) == 8
    ensures m.RejFileNameNoOpen? <==> FlagOf(m) == 9
    ensures m.BufferSize? <==> FlagOf(m) == 10
    ensures m.AckBufferSize? <==> FlagOf(m) == 11
    ensures m.RejBufferSize? <==> FlagOf(m) == 12
    ensures m.WindowSize? <==> FlagOf(m) == 13
    ensures m.AckWindowSize? <==> FlagOf(m) == 14
    ensures m.RejWindowSize? <==> FlagOf(m) == 15
    ensures m.EndOfFile? <==> FlagOf(m) == 16
    ensures m.AckEof? <==> FlagOf(m) == 17
  {
  }

  /** Every byte of a packet with a number: it stands in bytes 7 to 10, most significant first. */
  lemma NumberedLayout(host: Order, seqNum: nat, flag: byte, num: nat, text: seq<byte>, pad: byte)
    requires seqNum < TWO_TO_THE_32 && num < TWO_TO_THE_32
    ensures var p := Frame(host, seqNum, flag, ToNetwork(num) + text, pad);
      && |p| == 4 + 2 + 1 + 4 + |text| + 1
      && Numeral(p[..4]) == seqNum && p[6] == flag
      && Numeral(p[7..11]) == num && PacketNum(p) == num
      && p[11..|p| - 1] == text
  {
    var body := ToNetwork(num) + text;
    var p := Frame(host, seqNum, flag, body, pad);
    FrameLayout(host, seqNum, flag, body, pad);
    NetworkOrderRoundTrip(num);
    MostSignificantFirst(num, 4);
    assert ToNetwork(num)[..4] == ToNetwork(num);
    assert p[7..11] == p[7..|p| - 1][..4] == ToNetwork(num);
    assert p[11..|p| - 1] == p[7..|p| - 1][4..] == text;
  }

  /** The server's extraction from the bytes of a data packet gives back its number and exactly its
      payload, whatever the pad byte. */
  lemma DataFields(host: Order, seqNum: nat, num: nat, payload: seq<byte>, pad: byte)
    requires seqNum < TWO_TO_THE_32 && num < TWO_TO_THE_32
    ensures var p := Frame(host, seqNum, 1, ToNetwork(num) + payload, pad);
      && |p| == HEADER_LEN + 4 + |payload| + 1
      && Numeral(p[7..11]) == num
      && PacketNum(p) == num && Payload(p) == payload
  {
    NumberedLayout(host, seqNum, 1, num, payload, pad);
  }

  /** A packet damaged in one byte, anywhere, is refused on every host. */
  lemma DamagedFrameIsRefused(host: Order, host': Order, seqNum: nat, flag: byte, body: seq<byte>,
                              pad: byte, i: nat, b: byte)
    requires seqNum < TWO_TO_THE_32
    requires i < HEADER_LEN + |body| + 1 && b != Frame(host, seqNum, flag, body, pad)[i]
    ensures Receive(host', Frame(host, seqNum, flag, body, pad)[i := b]) == Corrupt
  {
    FrameVerifies(host, host', seqNum, flag, body, pad);
    OneByteChangeIsDetected(host', Frame(host, seqNum, flag, body, pad), i, b);
  }

  /** `p` is a packet for message `m`, with some sequence number and some pad byte. */
  ghost predicate IsPacketFor(host: Order, p: seq<byte>, m: Msg) {
    Sendable(m) &&
    exists seqNum: nat, pad: byte ::
      seqNum < TWO_TO_THE_32 && p == Frame(host, seqNum, FlagOf(m), BodyOf(m), pad)
  }

  lemma NumberedFrame(host: Order, seqNum: nat, m: Msg, pad: byte)
    requires seqNum < TWO_TO_THE_32 && Sendable(m) && LeadingNumber(m) >= 0
    ensures IsPacketFor(host, Frame(host, seqNum, FlagOf(m),
                                    ToNetwork(LeadingNumber(m)) + TextOf(m), pad), m)
  {
    assert BodyOf(m) == ToNetwork(LeadingNumber(m)) + TextOf(m);
    var p := Frame(host, seqNum, FlagOf(m), BodyOf(m), pad);
  }

  /** The datagrams carry the messages, one each, in order. */
  ghost predicate Carry(host: Order, datagrams: seq<seq<byte>>, msgs: seq<Msg>) {
    && |datagrams| == |msgs|
    && forall i | 0 <= i < |msgs| :: IsPacketFor(host, datagrams[i], msgs[i])
  }

  /** What a `select_call` finds: nothing, or a datagram to read. */
  datatype Poll = Nothing | Datagram(bytes: seq<byte>)

  /** What `recvfrom` reads of a datagram. */
  function Fetched(d: seq<byte>): (p: seq<byte>)
    ensures |p| == (if |d| < MAX_PACKET_LEN then |d| else MAX_PACKET_LEN) && p == d[..|p|]
  {
    if |d| > MAX_PACKET_LEN then d[..MAX_PACKET_LEN] else d
  }

  function InputOf(host: Order, e: Poll): Input {
    match e
    case Nothing => Silence
    case Datagram(bytes) => Receive(host, Fetched(bytes))
  }

  /** A datagram that passes its checksum is long enough to have a flag; otherwise the flag is
      whatever the stack held. */
  predicate HasFlag(host: Order, e: Poll) {
    e.Datagram? && Verified(host, Fetched(e.bytes)) ==> |Fetched(e.bytes)| >= HEADER_LEN
  }

  /** Nothing the server would read has no meaning. */
  predicate Readable(host: Order, e: Poll) {
    && HasFlag(host, e)
    && InputOf(host, e) != Arrived(Unidentified(1)) && InputOf(host, e) != Arrived(Unidentified(6))
  }

  /** What the server finds in buffer `b` after a packet of length `len` for `m`. */
  predicate FieldsFit(b: seq<byte>, len: int, flag: byte, m: Msg) {
    && |b| >= MAX_PACKET_LEN && 0 <= len <= |b|
    && (flag == 1 ==> len >= HEADER_LEN + 5 && m == Data(PacketNum(b[..len]), Payload(b[..len])))
    && (flag == 10 ==> m == BufferSize(PacketNum(b)))
    && (flag == 13 ==> m == WindowSize(PacketNum(b)))
    && (flag !in {1, 10, 13} ==> !m.Data? && !m.BufferSize? && !m.WindowSize?)
    && (flag == 6 <==> m.FileName?)
    && (flag == 16 <==> m == EndOfFile)
  }

  lemma ReadableFieldsFit(host: Order, p: seq<byte>)
    requires |p| <= MAX_PACKET_LEN && Readable(host, Datagram(p)) && Receive(host, p).Arrived?
    ensures FieldsFit(Padded(p), |p|, p[6], Receive(host, p).msg)
  {
    PaddedFields(p);
    assert Padded(p)[..|p|] == p;
  }

  /** The same for the packets the client gets: two kinds have a number, the rest are told by their
      flag alone. */
  predicate AnswerFits(b: seq<byte>, flag: byte, m: Msg) {
    && |b| >= MAX_PACKET_LEN
    && (flag == 3 ==> m == RR(PacketNum(b)))
    && (flag == 4 ==> m == SREJ(PacketNum(b)))
    && (flag in {7, 8, 9, 11, 12, 14, 15, 17} ==> FlagOf(m) == flag && !m.Unidentified?)
    && (flag !in {3, 4, 7, 8, 9, 11, 12, 14, 15, 17} ==>
          m.Data? || m.FileName? || m.BufferSize? || m.WindowSize? || m.EndOfFile?
          || m.Unidentified?)
  }

  lemma ReadableAnswerFits(host: Order, p: seq<byte>)
    requires |p| >= HEADER_LEN && Receive(host, p).Arrived?
    ensures AnswerFits(Padded(p), p[6], Receive(host, p).msg)
  {
    PaddedFields(p);
  }

  // ---- The builders and the parser, in place ----

  /** `send_buf`: lays the packet out in `packet` and hands its first `len + 8` bytes over. The pad
      byte is what `packet` held there before. */
  method SendBuf(host: Order, buf: seq<byte>, flag: byte, seqNum: nat, packet: array<byte>)
    returns (datagram: seq<byte>)
    requires seqNum < TWO_TO_THE_32
    requires HEADER_LEN + |buf| + 1 <= packet.Length && HEADER_LEN + |buf| + 1 <= MAX_PACKET_LEN
    modifies packet
    ensures datagram == Frame(host, seqNum, flag, buf, old(packet[HEADER_LEN + |buf|]))
    ensures packet[..] == datagram + old(packet[|datagram|..])
    ensures |datagram| == |buf| + 8 && Verified(host, datagram)
    ensures Numeral(datagram[..4]) == seqNum && datagram[6] == flag
    ensures datagram[7..|datagram| - 1] == buf
  {
    var len := |buf|;
    ghost var pad := packet[HEADER_LEN + len];
    FrameLayout(host, seqNum, flag, buf, pad);
    FrameVerifies(host, host, seqNum, flag, buf, pad);
    forall i | 0 <= i < len {
      packet[HEADER_LEN + i] := buf[i];
    }
    forall i | 0 <= i < 4 {
      packet[i] := ToNetwork(seqNum)[i];
    }
    packet[6] := flag;
    packet[CHECKSUM_AT], packet[CHECKSUM_AT + 1] := 0, 0;
    assert packet[..len + 8] == Unsealed(seqNum, flag, buf, pad);
    var checksum := InCksum(host, packet, len + 8);
    packet[CHECKSUM_AT] := FirstByte(host, checksum);
    packet[CHECKSUM_AT + 1] := SecondByte(host, checksum);
    datagram := packet[..len + 8];
  }

  /** `send_buf_with_packet_num`: the same with the packet number in front of the data. */
  method SendBufWithPacketNum(host: Order, buf: seq<byte>, flag: byte, seqNum: nat,
                              packet: array<byte>, packetNum: nat)
    returns (datagram: seq<byte>)
    requires seqNum < TWO_TO_THE_32 && packetNum < TWO_TO_THE_32
    requires HEADER_LEN + 4 + |buf| + 1 <= packet.Length
    requires HEADER_LEN + 4 + |buf| + 1 <= MAX_PACKET_LEN
    modifies packet
    ensures datagram == Frame(host, seqNum, flag, ToNetwork(packetNum) + buf,
                              old(packet[HEADER_LEN + 4 + |buf|]))
    ensures packet[..] == datagram + old(packet[|datagram|..])
    ensures |datagram| == |buf| + 12 && Verified(host, datagram)
    ensures Numeral(datagram[..4]) == seqNum && datagram[6] == flag
    ensures Numeral(datagram[7..11]) == packetNum && datagram[11..|datagram| - 1] == buf
  {
    var len := |buf|;
    ghost var pad := packet[HEADER_LEN + 4 + len];
    NumberedLayout(host, seqNum, flag, packetNum, buf, pad);
    FrameVerifies(host, host, seqNum, flag, ToNetwork(packetNum) + buf, pad);
    forall i | 0 <= i < len {
      packet[HEADER_LEN + 4 + i] := buf[i];
    }
    forall i | 0 <= i < 4 {
      packet[i] := ToNetwork(seqNum)[i];
    }
    packet[6] := flag;
    forall i | 0 <= i < 4 {
      packet[HEADER_LEN + i] := ToNetwork(packetNum)[i];
    }
    packet[CHECKSUM_AT], packet[CHECKSUM_AT + 1] := 0, 0;
    assert packet[..len + 12] == Unsealed(seqNum, flag, ToNetwork(packetNum) + buf, pad);
    var checksum := InCksum(host, packet, len + 12);
    packet[CHECKSUM_AT] := FirstByte(host, checksum);
    packet[CHECKSUM_AT + 1] := SecondByte(host, checksum);
    datagram := packet[..len + 12];
  }

  /** `recv_buf`: refuses a datagram that fails its checksum and leaves the caller's packet alone;
      otherwise copies it and reports its length, flag and sequence number. `stack` is what the local
      buffer held before; a datagram too short for a flag gets its flag from there. */
  method RecvBuf(host: Order, datagram: seq<byte>, stack: seq<byte>, recvPacket: array<byte>)
    returns (recvLen: int, flag: byte, seqNum: nat)
    requires |stack| == MAX_PACKET_LEN <= recvPacket.Length
    modifies recvPacket
    ensures recvLen == CRC_ERROR <==> Receive(host, Fetched(datagram)) == Corrupt
    ensures recvLen == CRC_ERROR ==> recvPacket[..] == old(recvPacket[..])
    ensures recvLen != CRC_ERROR ==>
      var d := Fetched(datagram);
      var local := d + stack[|d|..];
      && recvLen == |d|
      && recvPacket[..] == d + old(recvPacket[|d|..])
      && seqNum == SeqNumOf(local) == Numeral(local[..4])
      && flag == local[6]
  {
    flag, seqNum := 0, 0;
    var dataBuf := new byte[MAX_PACKET_LEN](i requires 0 <= i < |stack| => stack[i]);
    var len := if |datagram| > MAX_PACKET_LEN then MAX_PACKET_LEN else |datagram|;
    forall i | 0 <= i < len {
      dataBuf[i] := datagram[i];
    }
    ghost var d := Fetched(datagram);
    assert dataBuf[..len] == d;
    var sum := InCksum(host, dataBuf, len);
    if sum != 0 {
      return CRC_ERROR, flag, seqNum;
    }
    assert dataBuf[..] == d + stack[len..];
    flag := dataBuf[6];
    seqNum := SeqNumOf(dataBuf[..]);
    ReadAsNumeral(dataBuf[..4]);
    assert dataBuf[..][..4] == dataBuf[..4];
    forall i | 0 <= i < len {
      recvPacket[i] := dataBuf[i];
    }
    recvLen := len;
  }
}
