/** server.c: the process that serves one client. Its window is an array of slots; the methods follow
    the handlers of the source and together make one step of `ServerModel`. */
module Server {
  import opened Bytes
  import opened Checksum
  import opened Packets
  import opened Receiver
  import opened Ring
  import Model = ServerModel

  datatype State =
    | Start
    | ReadyForNextSetupPacket
    | ReceivedRemoteFileName
    | ReceivedBufferSize
    | ReceivedWindowSize
    | ReadyForDataPacketsSetup
    | ReadyForNextDataPacket
    | ReceivedData
    | ReceivedEof
    | TimeoutOnClient
    | Done

  /** Packet numbers stay below this, so no counter of the source wraps around. */
  const MAX_PACKET_NUM := 0x8000_0000

  class ClientProcess {
    const host: Order
    const sendPacket: array<byte>
    var state: State
    var seqNum: nat
    var timeout: nat
    var fileOpen: bool
    var file: seq<byte>
    var fileGood: bool
    var bufGood: bool
    var winGood: bool
    var bufSize: nat
    var curRRnum: nat
    var winMin: nat
    var winCur: nat
    var winMax: nat
    var winSize: nat
    var hasSREJ: bool
    var numSREJ: nat
    var window: array<Slot>

    constructor (host: Order)
      ensures Consistent() && fresh(sendPacket) && fresh(window) && Abs() == Model.START
      ensures this.host == host && seqNum == 1
    {
      this.host := host;
      sendPacket := new byte[MAX_PACKET_LEN](_ => 0);
      state, seqNum, timeout := Start, 1, 0;
      fileOpen, file, fileGood, bufGood, winGood := false, [], false, false, false;
      bufSize, winSize := 0, 0;
      curRRnum, winMin, winCur, winMax, hasSREJ, numSREJ := 0, 0, 0, 0, false, 0;
      window := new Slot[0];
    }

    predicate SendOk()
      reads this
    {
      sendPacket.Length == MAX_PACKET_LEN && seqNum < TWO_TO_THE_32
    }

    /** Before the first data packet: no window yet, nothing written. */
    predicate Idle()
      reads this
    {
      SendOk() && file == []
    }

    /** The window indexes agree with the ring and with the number awaited. */
    predicate WindowOk()
      reads this, window
    {
      && SendOk()
      && 1 <= winSize <= 255 && window.Length == winSize
      && RingOk(window[..], curRRnum)
      && winMin == curRRnum - 1 && winCur == winMin && winMax == winMin + winSize
    }

    /** Between packets, moreover, the slot of the packet awaited is free, and a pending SREJ is for
        that packet. */
    predicate Valid()
      reads this, window
    {
      && WindowOk()
      && window[winMin % winSize].Free?
      && (hasSREJ ==> numSREJ == curRRnum)
    }

    /** The map receiver this window stands for. */
    function Rx(): Rx
      requires WindowOk()
      reads this, window
    {
      Receiver.Rx(curRRnum, HeldIn(window[..], curRRnum), hasSREJ, file)
    }

    /** Between two turns: no window before the first data packet, a window in order after it. */
    predicate Consistent()
      reads this, window
    {
      && Sound()
      && (state in {Start, ReadyForNextSetupPacket} ==> window.Length == 0)
      && (state == ReadyForNextDataPacket ==> window.Length > 0)
      && state in {Start, ReadyForNextSetupPacket, ReadyForNextDataPacket, Done}
    }

    static function PhaseOf(s: State): Model.Phase {
      match s
      case Start => Model.Listening
      case ReadyForNextDataPacket => Model.Receiving
      case Done => Model.Closed
      case _ => Model.SettingUp
    }

    function ModelWith(phase: Model.Phase, rx: Rx): Model.Server
      reads this
    {
      Model.Server(phase, fileOpen, fileGood, bufGood, winGood, bufSize, winSize, timeout, rx)
    }

    /** No window yet, or a window in order. */
    predicate Sound()
      reads this, window
    {
      if window.Length == 0 then Idle() else Valid()
    }

    /** The state of the model that the process is in, were it in `phase`. */
    function Now(phase: Model.Phase): Model.Server
      requires Sound()
      reads this, window
    {
      ModelWith(phase, if window.Length == 0 then EMPTY else Rx())
    }

    /** The state of the model that the process is in. */
    function Abs(): Model.Server
      requires Consistent()
      reads this, window
    {
      Now(PhaseOf(state))
    }

    // ---- Answers ----

    /** A packet without a number, through `send_buf`. */
    method Send(m: Msg) returns (out: seq<seq<byte>>)
      requires SendOk() && Sendable(m) && BodyOf(m) == []
      modifies this`seqNum, sendPacket
      ensures SendOk() && Carry(host, out, [m])
      ensures seqNum == (old(seqNum) + 1) % TWO_TO_THE_32 
      ensures HasSeqNum(out[0], old(seqNum))
    {
      var datagram := SendBuf(host, [], FlagOf(m), seqNum, sendPacket);
      seqNum := (seqNum + 1) % TWO_TO_THE_32;
      out := [datagram];
    }

    /** An RR or a SREJ for the packet awaited, through `send_buf_with_packet_num`. */
    method SendNumbered(m: Msg) returns (out: seq<seq<byte>>)
      requires SendOk() && curRRnum < TWO_TO_THE_32
      requires m == RR(curRRnum) || m == SREJ(curRRnum)
      modifies this`seqNum, sendPacket
      ensures SendOk() && Carry(host, out, [m])
      ensures seqNum == (old(seqNum) + 1) % TWO_TO_THE_32 
      ensures HasSeqNum(out[0], old(seqNum))
    {
      var datagram := SendBufWithPacketNum(host, [], FlagOf(m), seqNum, sendPacket, curRRnum);
      assert BodyOf(m) == ToNetwork(curRRnum) + [];
      seqNum := (seqNum + 1) % TWO_TO_THE_32;
      out := [datagram];
    }

    // ---- The data phase ----

    /** `are_packets_buffered`: scans every slot. */
    method ArePacketsBuffered() returns (answer: bool)
      requires WindowOk()
      ensures answer <==> Rx().held != map[]
    {
      answer := false;
      var pos := 0;
      while pos < winSize
        invariant pos <= winSize
        invariant answer <==> exists j | 0 <= j < pos :: window[..][j].Filled?
      {
        if window[pos].Filled? {
          assert window[..][pos].Filled?;
          answer := true;
        }
        pos := pos + 1;
      }
      EmptyExactlyWhenAllFree(window[..], curRRnum);
    }

    /** Append to the file. */
    method Write(data: seq<byte>)
      requires Valid()
      modifies this`file
      ensures Valid() && Rx() == old(Rx()).(file := old(file) + data)
    {
      file := file + data;
      assert window[..] == old(window[..]);
    }

    /** `has_SREJ = FALSE`. */
    method AllowSREJ()
      requires Valid()
      modifies this`hasSREJ
      ensures Valid() && Rx() == old(Rx()).(srejOut := false)
    {
      hasSREJ := false;
      assert window[..] == old(window[..]);
    }

    /** `cur_RRnum++; win_min++; win_max++; win_cur++`, when the first slot of the window is free. */
    method Slide()
      requires WindowOk() && window[winMin % winSize].Free?
      modifies this`curRRnum, this`winMin, this`winCur, this`winMax
      ensures WindowOk() && Rx() == old(Rx()).(next := old(curRRnum) + 1)
    {
      ghost var was := Rx();
      SlideWindow(window[..], curRRnum);
      assert window[..][SlotOf(window[..], curRRnum) := Free] == window[..];
      assert was.next !in was.held;
      assert was.held - {was.next} == was.held;
      curRRnum, winMin, winMax, winCur := curRRnum + 1, winMin + 1, winMax + 1, winCur + 1;
    }

    /** The body of the flush loop: write the first packet of the window, free its slot, slide. */
    method WriteBufferedPacket(ghost was: Rx)
      requires WindowOk() && window[winMin % winSize].Filled? && was == Rx()
      modifies this`file, this`curRRnum, this`winMin, this`winCur, this`winMax, window
      ensures WindowOk() && winMin == old(winMin) + 1
      ensures was.next in was.held && Rx() == Flushed(was)
    {
      ghost var ring := window[..];
      ghost var slid := ring[SlotOf(ring, was.next) := Free];
      FirstIsHeldExactlyWhenFilled(ring, was.next);
      SlideWindow(ring, was.next);
      var slot := winMin % winSize;
      file := file + Payload(window[slot].packet);
      window[slot] := Free;
      assert window[..] == slid;
      curRRnum, winMin, winMax, winCur := curRRnum + 1, winMin + 1, winMax + 1, winCur + 1;
    }

    /** `check_for_and_write_buffered_packets`: drains the ring from the window's start, sliding the
        window as it goes, and returns the number now awaited. */
    method CheckForAndWriteBufferedPackets(curRR: nat) returns (next: nat)
      requires WindowOk() && curRR == curRRnum
      modifies this`file, this`curRRnum, this`winMin, this`winCur, this`winMax, window
      ensures WindowOk() && window[winMin % winSize].Free?
      ensures Rx() == Drain(old(Rx())) && next == curRRnum
    {
      var pos := curRR - 1;
      ghost var rx := Rx();
      ghost var end := Drain(rx);
      while window[pos % winSize].Filled?
        invariant WindowOk() && pos == winMin
        invariant rx == Rx()
        invariant end == Drain(rx)
        decreases rx.held.Keys
      {
        ghost var was := rx;
        WriteBufferedPacket(was);
        rx := Rx();
        pos := pos + 1;
        DrainFlushed(was);
        FlushedHoldsLess(was);
      }
      FirstIsHeldExactlyWhenFilled(window[..], rx.next);
      next := pos + 1;
    }

    /** `send_RR_or_SREJ`. Its SREJ branch needs a number behind the one awaited. */
    method SendRROrSREJ(nextPacketNum: nat) returns (out: seq<seq<byte>>)
      requires Valid() && nextPacketNum <= curRRnum < TWO_TO_THE_32
      modifies this`seqNum, this`hasSREJ, this`numSREJ, sendPacket
      ensures Valid()
      ensures
        if nextPacketNum == curRRnum && Rx().held == map[] then
          Carry(host, out, [RR(curRRnum)]) && hasSREJ == old(hasSREJ)
        else if nextPacketNum < curRRnum && !old(hasSREJ) then
          Carry(host, out, [SREJ(curRRnum)]) && hasSREJ
        else
          out == [] && hasSREJ == old(hasSREJ)
    {
      var buffered := ArePacketsBuffered();
      out := [];
      if curRRnum == nextPacketNum && !buffered {
        out := SendNumbered(RR(curRRnum));
      } else if curRRnum > nextPacketNum && !hasSREJ {
        out := SendNumbered(SREJ(curRRnum));
        hasSREJ, numSREJ := true, curRRnum;
      }
    }

    /** The common end of the two handlers below: slide the window by one, drain, answer. The drain
        returns the number awaited, so an RR goes out exactly when the ring is empty, and otherwise
        nothing does. */
    method AdvanceAndAnswer(ghost start: Rx) returns (out: seq<seq<byte>>)
      requires Valid() && !hasSREJ && curRRnum + winSize < MAX_PACKET_NUM
      requires start == Rx().(next := curRRnum + 1)
      modifies this`file, this`curRRnum, this`winMin, this`winCur, this`winMax
      modifies this`seqNum, this`hasSREJ, this`numSREJ, window, sendPacket
      ensures Valid()
      ensures Rx() == Drain(start)
      ensures Carry(host, out, if Rx().held == map[] then [RR(curRRnum)] else [])
    {
      Slide();
      DrainBound(winSize, Rx());
      var next := CheckForAndWriteBufferedPackets(curRRnum);
      out := SendRROrSREJ(next);
    }

    /** `handle_expected_SREJ_packet`: the packet asked for. SREJs may be sent again afterwards. */
    method HandleExpectedSREJPacket(packet: seq<byte>) returns (out: seq<seq<byte>>)
      requires Valid() && |packet| >= HEADER_LEN + 5 && curRRnum + winSize < MAX_PACKET_NUM
      requires hasSREJ && PacketNum(packet) == numSREJ
      modifies this`file, this`curRRnum, this`winMin, this`winCur, this`winMax
      modifies this`seqNum, this`hasSREJ, this`numSREJ, window, sendPacket
      ensures Valid()
      ensures var reaction := Take(winSize, old(Rx()), PacketNum(packet), Payload(packet));
        Rx() == reaction.rx && Carry(host, out, reaction.replies)
    {
      ghost var was := Rx();
      ghost var start := Expected(was, Payload(packet));
      Write(Payload(packet));
      AllowSREJ();
      out := AdvanceAndAnswer(start);
      TakeExpected(winSize, was, Payload(packet));
    }

    /** `handle_expected_packet_number`: the packet awaited, while no SREJ is pending. */
    method HandleExpectedPacketNumber(packet: seq<byte>) returns (out: seq<seq<byte>>)
      requires Valid() && |packet| >= HEADER_LEN + 5 && curRRnum + winSize < MAX_PACKET_NUM
      requires !hasSREJ && PacketNum(packet) == curRRnum
      modifies this`file, this`curRRnum, this`winMin, this`winCur, this`winMax
      modifies this`seqNum, this`hasSREJ, this`numSREJ, window, sendPacket
      ensures Valid()
      ensures var reaction := Take(winSize, old(Rx()), PacketNum(packet), Payload(packet));
        Rx() == reaction.rx && Carry(host, out, reaction.replies)
    {
      ghost var was := Rx();
      ghost var start := Expected(was, Payload(packet));
      Write(Payload(packet));
      out := AdvanceAndAnswer(start);
      TakeExpected(winSize, was, Payload(packet));
    }

    /** `handle_client_recovery`: a packet already on file is answered at once. */
    method HandleClientRecovery() returns (out: seq<seq<byte>>)
      requires Valid() && curRRnum < TWO_TO_THE_32
      modifies this`seqNum, sendPacket
      ensures Valid() && Rx() == old(Rx())
      ensures Carry(host, out, [if Rx().held == map[] then RR(curRRnum) else SREJ(curRRnum)])
    {
      var buffered := ArePacketsBuffered();
      if !buffered {
        out := SendNumbered(RR(curRRnum));
      } else {
        out := SendNumbered(SREJ(curRRnum));
      }
    }

    /** `is_in_window`. */
    method IsInWindow(recvPackNum: nat) returns (answer: bool)
      requires WindowOk()
      ensures answer <==> curRRnum <= recvPackNum < curRRnum + winSize
    {
      var recvPackNumIndex := recvPackNum - 1;
      answer := recvPackNumIndex >= winMin && recvPackNumIndex < winMax;
    }

    /** `buffer_packet`: keeps a later packet of the window, and asks once for the one missing. */
    method BufferPacket(packet: seq<byte>) returns (out: seq<seq<byte>>)
      requires Valid() && |packet| >= HEADER_LEN + 5 && curRRnum < TWO_TO_THE_32
      requires PacketNum(packet) > curRRnum
      modifies this`seqNum, this`hasSREJ, this`numSREJ, window, sendPacket
      ensures Valid()
      ensures var reaction := Take(winSize, old(Rx()), PacketNum(packet), Payload(packet));
        Rx() == reaction.rx && Carry(host, out, reaction.replies)
    {
      var recvPackNum := PacketNum(packet);
      ghost var ring := window[..];
      var inWindow := IsInWindow(recvPackNum);
      if inWindow {
        StorePacket(ring, curRRnum, packet);
        SlotsDiffer(ring, curRRnum, curRRnum, recvPackNum);
        window[(recvPackNum - 1) % winSize] := Filled(packet);
        assert window[..] == ring[SlotOf(ring, recvPackNum) := Filled(packet)];
      }
      out := [];
      if !hasSREJ {
        out := SendNumbered(SREJ(curRRnum));
        hasSREJ, numSREJ := true, curRRnum;
      }
    }

    /** `received_data`: refines one `Take` of the map receiver. */
    method ReceiveData(packet: seq<byte>, ghost was: Rx) returns (out: seq<seq<byte>>, next: State)
      requires Valid() && |packet| >= HEADER_LEN + 5 && curRRnum + winSize < MAX_PACKET_NUM
      requires was == Rx()
      modifies this`file, this`curRRnum, this`winMin, this`winCur, this`winMax
      modifies this`seqNum, this`hasSREJ, this`numSREJ, window, sendPacket
      ensures Valid() && next == ReadyForNextDataPacket
      ensures var reaction := Take(winSize, was, PacketNum(packet), Payload(packet));
        Rx() == reaction.rx && Carry(host, out, reaction.replies)
    {
      next := ReadyForNextDataPacket;
      var recvPackNum := PacketNum(packet);
      if hasSREJ && recvPackNum == numSREJ {
        out := HandleExpectedSREJPacket(packet);
      } else if recvPackNum == curRRnum {
        out := HandleExpectedPacketNumber(packet);
      } else if recvPackNum < curRRnum {
        out := HandleClientRecovery();
      } else {
        out := BufferPacket(packet);
      }
    }

    // ---- Setup ----

    /** `ready_for_data_packet_setup`: an empty window of `winSize` free slots. */
    method ReadyForDataPacketSetup() returns (next: State)
      requires Idle() && 1 <= winSize <= 255
      modifies this`curRRnum, this`winMin, this`winCur, this`winMax
      modifies this`hasSREJ, this`numSREJ, this`window
      ensures Valid() && fresh(window) && Rx() == EMPTY && next == ReceivedData
    {
      curRRnum, winMin, winCur, winMax := 1, 0, 0, winSize;
      hasSREJ, numSREJ := false, 0;
      window := new Slot[winSize](_ => Filled([]));
      var i := 0;
      while i < winSize
        invariant i <= winSize
        invariant forall j | 0 <= j < i :: window[j].Free?
        modifies window
      {
        window[i] := Free;
        i := i + 1;
      }
      EmptyExactlyWhenAllFree(window[..], curRRnum);
      next := ReceivedData;
    }

    /** `received_remote_file_name`: opens the file unless it is open already. */
    method ReceiveRemoteFileName(canOpen: bool, ghost before: Model.Server)
      returns (out: seq<seq<byte>>, next: State)
      requires Idle() && before == ModelWith(Model.SettingUp, EMPTY)
      modifies this`seqNum, this`fileOpen, this`fileGood, sendPacket
      ensures Idle()
      ensures var reaction := Model.OnFileName(before, canOpen);
        && Carry(host, out, reaction.replies)
        && ModelWith(reaction.server.phase, EMPTY) == reaction.server
        && next == if reaction.server.phase == Model.Closed then Done else ReadyForNextSetupPacket
    {
      if !fileOpen && !canOpen {
        out := Send(RejFileNameNoOpen);
        return out, Done;
      }
      fileOpen := true;
      out := Send(AckFileName);
      fileGood := true;
      next := ReadyForNextSetupPacket;
    }

    /** `received_buffer_size`. */
    method ReceiveBufferSize(packet: seq<byte>, ghost before: Model.Server)
      returns (out: seq<seq<byte>>, next: State)
      requires Idle() && |packet| >= HEADER_LEN + 4 && before == ModelWith(Model.SettingUp, EMPTY)
      modifies this`seqNum, this`bufSize, this`bufGood, sendPacket
      ensures Idle() && next == ReadyForNextSetupPacket
      ensures Carry(host, out, [AckBufferSize])
      ensures ModelWith(Model.SettingUp, EMPTY)
           == before.(bufSize := PacketNum(packet), bufGood := true)
    {
      bufSize := PacketNum(packet);
      out := Send(AckBufferSize);
      bufGood := true;
      next := ReadyForNextSetupPacket;
    }

    /** `received_window_size`. */
    method ReceiveWindowSize(packet: seq<byte>, ghost before: Model.Server)
      returns (out: seq<seq<byte>>, next: State)
      requires Idle() && |packet| >= HEADER_LEN + 4 && before == ModelWith(Model.SettingUp, EMPTY)
      modifies this`seqNum, this`winSize, this`winGood, sendPacket
      ensures Idle() && next == ReadyForNextSetupPacket
      ensures Carry(host, out, [AckWindowSize])
      ensures ModelWith(Model.SettingUp, EMPTY)
           == before.(winSize := PacketNum(packet), winGood := true)
    {
      winSize := PacketNum(packet);
      out := Send(AckWindowSize);
      winGood := true;
      next := ReadyForNextSetupPacket;
    }

    // ---- One turn of the state machine ----

    /** `recv_buf` into a cleared packet. What the stack held before does not matter: a readable
        datagram has its flag. */
    method Read(datagram: seq<byte>, stack: seq<byte>)
      returns (recvLen: int, flag: byte, packet: seq<byte>, ghost msg: Msg)
      requires Readable(host, Datagram(datagram)) && |stack| == MAX_PACKET_LEN
      ensures recvLen == CRC_ERROR <==> InputOf(host, Datagram(datagram)) == Corrupt
      ensures recvLen != CRC_ERROR ==>
        && InputOf(host, Datagram(datagram)) == Arrived(msg)
        && FieldsFit(packet, recvLen, flag, msg)
    {
      var recvPacket := new byte[MAX_PACKET_LEN](_ => 0);
      ghost var d := Fetched(datagram);
      assert recvPacket[|d|..] == seq(MAX_PACKET_LEN - |d|, _ => 0);
      var sequence;
      recvLen, flag, sequence := RecvBuf(host, datagram, stack, recvPacket);
      packet, msg := [], EndOfFile;
      if recvLen != CRC_ERROR {
        packet, msg := recvPacket[..], MessageIn(d);
        assert packet == Padded(d);
        ReadableFieldsFit(host, d);
      }
    }

    /** READY_FOR_DATA_PACKETS_SETUP followed by RECEIVED_DATA: the first data packet. */
    method ReceiveFirstData(packet: seq<byte>) returns (out: seq<seq<byte>>, next: State)
      requires Idle() && 1 <= winSize <= 255 && |packet| >= HEADER_LEN + 5
      modifies this`file, this`curRRnum, this`winMin, this`winCur, this`winMax, this`window
      modifies this`seqNum, this`hasSREJ, this`numSREJ, sendPacket
      ensures Valid() && fresh(window) && next == ReadyForNextDataPacket
      ensures var reaction := Take(winSize, EMPTY, PacketNum(packet), Payload(packet));
        Rx() == reaction.rx && Carry(host, out, reaction.replies)
    {
      next := ReadyForDataPacketSetup();
      out, next := ReceiveData(packet, EMPTY);
    }

    /** The switch of `ready_for_next_setup_packet`, but for data. */
    method AnswerSetup(flag: byte, packet: seq<byte>, ghost msg: Msg, canOpen: bool,
                       ghost before: Model.Server)
      returns (out: seq<seq<byte>>, next: State)
      requires Idle() && state == ReadyForNextSetupPacket
      requires before == ModelWith(Model.SettingUp, EMPTY)
      requires (exists len :: FieldsFit(packet, len, flag, msg)) && !msg.Data?
      modifies this`bufSize, this`bufGood, this`winSize, this`winGood
      modifies this`fileOpen, this`fileGood, this`seqNum, sendPacket
      ensures Idle() && next in {ReadyForNextSetupPacket, Done}
      ensures
        var reaction := Model.OnSetupPacket(before, msg, canOpen);
        && Carry(host, out, reaction.replies)
        && reaction.server == ModelWith(PhaseOf(next), EMPTY)
    {
      out, next := [], state;
      if flag == 6 {
        out, next := ReceiveRemoteFileName(canOpen, before);
      } else if flag == 10 {
        out, next := ReceiveBufferSize(packet, before);
      } else if flag == 13 {
        out, next := ReceiveWindowSize(packet, before);
      }
    }

    /** The switch of `ready_for_next_setup_packet`, and the states it leads through. */
    method DispatchSetup(flag: byte, packet: seq<byte>, recvLen: int, ghost msg: Msg, canOpen: bool,
                         ghost before: Model.Server)
      returns (out: seq<seq<byte>>, next: State)
      requires Idle() && window.Length == 0 && state == ReadyForNextSetupPacket
      requires before == ModelWith(Model.SettingUp, EMPTY)
      requires winGood ==> 1 <= winSize <= 255
      requires FieldsFit(packet, recvLen, flag, msg)
      modifies this`bufSize, this`bufGood, this`winSize, this`winGood, this`window
      modifies this`fileOpen, this`fileGood
      modifies this`file, this`curRRnum, this`winMin, this`winCur, this`winMax
      modifies this`seqNum, this`hasSREJ, this`numSREJ, sendPacket
      ensures Sound() && next in {ReadyForNextSetupPacket, ReadyForNextDataPacket, Done}
      ensures window == old(window) || fresh(window)
      ensures next == ReadyForNextDataPacket <==> window.Length > 0
      ensures
        var reaction := Model.OnSetupPacket(before, msg, canOpen);
        Carry(host, out, reaction.replies) && reaction.server == Now(PhaseOf(next))
    {
      if flag == 1 {
        out, next := [], state;
        if fileGood && bufGood && winGood {
          out, next := ReceiveFirstData(packet[..recvLen]);
        }
      } else {
        out, next := AnswerSetup(flag, packet, msg, canOpen, before);
      }
    }

    /** The switch of `ready_for_next_data_packet`, and the states it leads through. */
    method DispatchData(flag: byte, packet: seq<byte>, recvLen: int, ghost msg: Msg,
                        ghost before: Model.Server)
      returns (out: seq<seq<byte>>, next: State)
      requires Consistent() && state == ReadyForNextDataPacket && before == Now(Model.Receiving)
      requires curRRnum + winSize < MAX_PACKET_NUM
      requires FieldsFit(packet, recvLen, flag, msg)
      modifies this`file, this`curRRnum, this`winMin, this`winCur, this`winMax
      modifies this`seqNum, this`hasSREJ, this`numSREJ, window, sendPacket
      ensures Sound() && next in {ReadyForNextDataPacket, Done}
      ensures var reaction := Model.OnDataPacket(before, msg);
        Carry(host, out, reaction.replies) && reaction.server == Now(PhaseOf(next))
    {
      out, next := [], state;
      if flag == 1 {
        out, next := ReceiveData(packet[..recvLen], before.rx);
      } else if flag == 16 {
        out := Send(AckEof);
        next := Done;
      }
    }

    /** A packet that passed its checksum: the switch for the state the process is in. */
    method Dispatch(flag: byte, packet: seq<byte>, recvLen: int, ghost msg: Msg, canOpen: bool,
                    ghost before: Model.Server)
      returns (out: seq<seq<byte>>, next: State)
      requires Consistent() && state != Done && before == Abs()
      requires winGood ==> 1 <= winSize <= 255
      requires state == ReadyForNextDataPacket ==> curRRnum + winSize < MAX_PACKET_NUM
      requires FieldsFit(packet, recvLen, flag, msg)
      modifies this`bufSize, this`bufGood, this`winSize, this`winGood, this`window
      modifies this`fileOpen, this`fileGood
      modifies this`file, this`curRRnum, this`winMin, this`winCur, this`winMax
      modifies this`seqNum, this`hasSREJ, this`numSREJ, window, sendPacket
      ensures Sound() && next in {ReadyForNextSetupPacket, ReadyForNextDataPacket, Done}
      ensures window == old(window) || fresh(window)
      ensures next == ReadyForNextDataPacket ==> window.Length > 0
      ensures next == ReadyForNextSetupPacket ==> window.Length == 0
      ensures
        var reaction := Model.OnMessage(before, msg, canOpen);
        Carry(host, out, reaction.replies) && reaction.server == Now(PhaseOf(next))
    {
      if state == Start {
        out, next := ReceiveRemoteFileName(canOpen, ModelWith(Model.SettingUp, EMPTY));
      } else if state == ReadyForNextSetupPacket {
        out, next := DispatchSetup(flag, packet, recvLen, msg, canOpen, before);
      } else {
        out, next := DispatchData(flag, packet, recvLen, msg, before);
      }
    }

    /** `state = ...` at the end of a case. */
    method Enter(next: State)
      requires Sound() && next in {ReadyForNextSetupPacket, ReadyForNextDataPacket, Done}
      requires next == ReadyForNextDataPacket ==> window.Length > 0
      requires next == ReadyForNextSetupPacket ==> window.Length == 0
      modifies this`state
      ensures Consistent() && Abs() == old(Now(PhaseOf(next)))
    {
      state := next;
      assert window[..] == old(window[..]);
    }

    /** A packet that passed its checksum, from the state it finds to the next `select_call`. */
    method OnPacket(flag: byte, packet: seq<byte>, recvLen: int, ghost msg: Msg, canOpen: bool,
                    ghost was: Model.Server)
      returns (out: seq<seq<byte>>)
      requires Consistent() && state != Done && was == Abs()
      requires FieldsFit(packet, recvLen, flag, msg)
      requires winGood ==> 1 <= winSize <= 255
      requires state == ReadyForNextDataPacket ==> curRRnum + winSize < MAX_PACKET_NUM
      modifies this, window, sendPacket
      ensures Consistent() && (window == old(window) || fresh(window))
      ensures var reaction := Model.OnMessage(Model.Heard(was), msg, canOpen);
        Abs() == reaction.server && Carry(host, out, reaction.replies)
    {
      ResetTimeout();
      var next;
      out, next := Dispatch(flag, packet, recvLen, msg, canOpen, Model.Heard(was));
      Enter(next);
    }

    /** `timeout = 0` once data is available; the listening parent keeps no count. */
    method ResetTimeout()
      requires Consistent() && state != Done
      modifies this`timeout
      ensures Consistent()
      ensures Abs() == Model.Heard(old(Abs()))
    {
      if state != Start {
        timeout := 0;
      }
      assert window[..] == old(window[..]);
    }

    /** The time-out branches of `ready_for_next_setup_packet` and `ready_for_next_data_packet`, with
        `timeout_on_client`. */
    method OnSilence()
      requires Consistent()
      modifies this`timeout, this`state
      ensures Consistent()
      ensures Abs() == Model.ServerStep(old(Abs()), Silence, true).server
    {
      if state == ReadyForNextSetupPacket {
        timeout := timeout + 1;
        if timeout > 10 {
          state := Done;
        }
      } else if state == ReadyForNextDataPacket {
        state := Done;
      }
      assert window[..] == old(window[..]);
    }

    /** The states from one `select_call` of `process_client` to the next: one step of the model. */
    method Turn(event: Poll, stack: seq<byte>, ghost input: Input, canOpen: bool)
      returns (out: seq<seq<byte>>)
      requires Consistent() && |stack| == MAX_PACKET_LEN
      requires Readable(host, event) && input == InputOf(host, event)
      requires winGood ==> 1 <= winSize <= 255
      requires state == ReadyForNextDataPacket ==> curRRnum + winSize < MAX_PACKET_NUM
      modifies this, window, sendPacket
      ensures Consistent() && (window == old(window) || fresh(window))
      ensures var reaction := Model.ServerStep(old(Abs()), input, canOpen);
        Abs() == reaction.server && Carry(host, out, reaction.replies)
    {
      out := [];
      if state == Done {
        return;
      }
      if event.Nothing? {
        OnSilence();
        return;
      }
      var recvLen, flag, packet;
      ghost var msg;
      recvLen, flag, packet, msg := Read(event.bytes, stack);
      if recvLen == CRC_ERROR {
        ResetTimeout();
      } else {
        out := OnPacket(flag, packet, recvLen, msg, canOpen, Abs());
      }
    }
  }
}
