/** rcopy.c: the client. It keeps the packets it sent in a ring of `winSize` slots; the methods follow
    the states of the source and together make one step of `ClientModel`. */
module Client {
  import opened Bytes
  import opened Checksum
  import opened Packets
  import opened ClientModel

  // ---- The ring of sent packets ----

  /** What belongs in the slot of `index`: the latest packet to use it, byte for byte as first sent,
      or an empty buffer if none has. */
  function Latest(history: seq<seq<byte>>, w: nat, index: nat): seq<byte>
    requires 0 < w
  {
    match InSlot(|history|, w, index)
    case NeverFilled => []
    case Packet(i) => history[i]
  }

  predicate RingHolds(ring: seq<seq<byte>>, history: seq<seq<byte>>) {
    0 < |ring| && forall j | 0 <= j < |ring| :: ring[j] == Latest(history, |ring|, j)
  }

  lemma EmptyRingHoldsNothing(ring: seq<seq<byte>>)
    requires 0 < |ring| && forall j | 0 <= j < |ring| :: ring[j] == []
    ensures RingHolds(ring, [])
  {
  }

  lemma LatestAfterSave(history: seq<seq<byte>>, p: seq<byte>, w: nat, j: nat)
    requires j < w
    ensures Latest(history + [p], w, j) == if j == |history| % w then p else Latest(history, w, j)
  {
    SlotAfterSend(|history|, w, j);
    RemainderBound(j, w);
  }

  /** Saving the packet just sent at `sent % w` keeps the ring. */
  lemma SaveKeepsRing(ring: seq<seq<byte>>, history: seq<seq<byte>>, p: seq<byte>)
    requires RingHolds(ring, history)
    ensures RingHolds(ring[|history| % |ring| := p], history + [p])
  {
    forall j | 0 <= j < |ring|
      ensures Latest(history + [p], |ring|, j)
           == if j == |history| % |ring| then p else Latest(history, |ring|, j)
    {
      LatestAfterSave(history, p, |ring|, j);
    }
  }

  /** Every packet ever sent is the data packet of its chunk. */
  ghost predicate HistoryOk(host: Order, cfg: Config, history: seq<seq<byte>>) {
    && |history| <= |cfg.chunks|
    && forall i | 0 <= i < |history| :: IsPacketFor(host, history[i], Data(i + 1, cfg.chunks[i]))
  }

  lemma AnswersLeadToData(cfg: Config, c: Client, input: Input, keepNum: bool)
    requires 0 < cfg.winSize
    ensures !InSetup(Incoming(cfg, c, input, keepNum).st)
  {
  }

  lemma ResendsLeadToData(cfg: Config, c: Client, index: nat)
    requires 0 < cfg.winSize && c.winCur <= |cfg.chunks|
    ensures !InSetup(SendFromWindow(cfg, c, index).client.st)
  {
  }

  lemma PollsLeadToData(cfg: Config, c: Client, input: Input)
    requires 0 < cfg.winSize && c.winCur <= |cfg.chunks| && Receiving(c)
    ensures !InSetup(ClientStep(cfg, c, input).client.st)
  {
    AnswersLeadToData(cfg, c.(timeout := 0), input, c.st != AwaitAckEof);
    ResendsLeadToData(cfg, c.(timeout := c.timeout + 1), c.winMin);
  }

  /** The data phase leads only to itself or to the end. */
  lemma DataPhaseIsLeftForGood(cfg: Config, c: Client, input: Input)
    requires 0 < cfg.winSize && c.winCur <= |cfg.chunks| && InDataPhase(c)
    ensures !InSetup(ClientStep(cfg, c, input).client.st)
  {
    if Receiving(c) {
      PollsLeadToData(cfg, c, input);
    } else {
      ResendsLeadToData(cfg, c, Pred32(c.srejNum));
    }
  }

  /** An iteration of the data phase, with the two halves of SEND_EOF_AND_QUIT put together. */
  function DataIteration(cfg: Config, c: Client, input: Input): ClientReaction
    requires 0 < cfg.winSize && c.winCur <= |cfg.chunks|
  {
    if c.st == SendEofAndQuit then ClientReaction(AwaitAckStep(cfg, c, input), [EndOfFile])
    else DataStep(cfg, c, input)
  }

  lemma IterationInData(cfg: Config, c: Client, input: Input)
    requires 0 < cfg.winSize && c.winCur <= |cfg.chunks| && InDataPhase(c)
    ensures Iteration(cfg, c, input) == DataIteration(cfg, c, input)
  {
  }

  /** An iteration of the data phase ends neither in setup nor between a send and its `select_call`. */
  lemma IterationEndsOutsideSelect(cfg: Config, c: Client, input: Input)
    requires 0 < cfg.winSize && c.winCur <= |cfg.chunks| && InDataPhase(c) && c.st != AwaitAckEof
    ensures var next := Iteration(cfg, c, input).client.st; !InSetup(next) && next != AwaitAckEof
  {
    DataPhaseIsLeftForGood(cfg, c, input);
    if c.st == SendEofAndQuit {
      DataPhaseIsLeftForGood(cfg, c.(st := AwaitAckEof), input);
    }
  }

  class Sender {
    const host: Order
    const cfg: Config
    const sendPacket: array<byte>
    var state: State
    var seqNum: nat
    var timeout: nat
    var srejNum: nat
    var fileSuccess: bool
    var bufSuccess: bool
    var doneTransmitting: bool
    var curPacketNum: nat
    var winMin: nat
    var winCur: nat
    var winMax: nat
    var window: array<seq<byte>>
    ghost var history: seq<seq<byte>>

    constructor (host: Order, cfg: Config)
      requires ValidConfig(cfg)
      ensures Valid() && Abs() == START && fresh(sendPacket) && fresh(window)
      ensures this.host == host && this.cfg == cfg && seqNum == 1
    {
      this.host, this.cfg := host, cfg;
      sendPacket := new byte[MAX_PACKET_LEN](_ => 0);
      state, seqNum, timeout, srejNum := Start, 1, 0, 0;
      fileSuccess, bufSuccess, doneTransmitting := false, false, false;
      curPacketNum, winMin, winCur, winMax := 0, 0, 0, 0;
      window := new seq<byte>[0];
      history := [];
    }

    predicate SendOk()
      reads this
    {
      sendPacket.Length == MAX_PACKET_LEN && seqNum < TWO_TO_THE_32 && ValidConfig(cfg)
    }

    /** The window is allocated with the data phase, and then holds what was sent. */
    ghost predicate WindowOk()
      reads this, window
    {
      && window.Length == cfg.winSize
      && RingHolds(window[..], history)
      && curPacketNum == winCur + 1
    }

    ghost predicate Valid()
      reads this, window
    {
      && SendOk()
      && HistoryOk(host, cfg, history) && |history| == winCur
      && (InSetup(state) ==> history == [])
      && (!InSetup(state) && !Ended(Abs()) ==> WindowOk())
      && state != AwaitAckEof
    }

    /** The state of the model. */
    function Abs(): Client
      reads this
    {
      Client(state, winMin, winCur, winMax, doneTransmitting, timeout, srejNum,
             fileSuccess, bufSuccess)
    }

    // ---- Sending ----

    /** `memset` of the send buffer. */
    method ClearSendPacket()
      requires sendPacket.Length == MAX_PACKET_LEN
      modifies sendPacket
      ensures forall i | 0 <= i < sendPacket.Length :: sendPacket[i] == 0
    {
      forall i | 0 <= i < sendPacket.Length {
        sendPacket[i] := 0;
      }
    }

    /** `send_remote_file_name`, `send_buffer_size`, `send_window_size` and the first half of
        `send_eof_and_quit`: build the body, clear the packet, `send_buf`. */
    method Send(m: Msg) returns (out: seq<seq<byte>>)
      requires SendOk() && Sendable(m)
      modifies this`seqNum, sendPacket
      ensures SendOk() && Carry(host, out, [m])
      ensures seqNum == (old(seqNum) + 1) % TWO_TO_THE_32
      ensures HasSeqNum(out[0], old(seqNum))
    {
      ClearSendPacket();
      var datagram := SendBuf(host, BodyOf(m), FlagOf(m), seqNum, sendPacket);
      seqNum := (seqNum + 1) % TWO_TO_THE_32;
      out := [datagram];
    }

    /** `isWindowClosed`. */
    method WindowClosed() returns (answer: bool)
      ensures answer <==> IsWindowClosed(Abs())
    {
      answer := false;
      if doneTransmitting {
        answer := true;
      }
      if winCur >= winMax {
        answer := true;
      }
    }

    /** A data packet, through `send_buf_with_packet_num`. The sequence number goes up by one. */
    method SendChunk(num: nat, fileData: seq<byte>) returns (datagram: seq<byte>)
      requires SendOk() && Sendable(Data(num, fileData))
      modifies this`seqNum, sendPacket
      ensures SendOk() && IsPacketFor(host, datagram, Data(num, fileData))
      ensures seqNum == (old(seqNum) + 1) % TWO_TO_THE_32 && HasSeqNum(datagram, old(seqNum))
    {
      ClearSendPacket();
      datagram := SendBufWithPacketNum(host, fileData, 1, seqNum, sendPacket, num);
      NumberedFrame(host, seqNum, Data(num, fileData), 0);
      seqNum := (seqNum + 1) % TWO_TO_THE_32;
    }

    /** Save the packet just sent in its slot, and count it. */
    method SavePacket(datagram: seq<byte>)
      requires SendOk() && HistoryOk(host, cfg, history) && |history| == winCur && WindowOk()
      requires winCur < |cfg.chunks|
      requires IsPacketFor(host, datagram, Data(winCur + 1, cfg.chunks[winCur]))
      modifies this`winCur, this`curPacketNum, this`history, window
      ensures HistoryOk(host, cfg, history) && |history| == winCur && WindowOk()
      ensures history == old(history) + [datagram] && winCur == old(winCur) + 1
    {
      var windowSlot := winCur % cfg.winSize;
      SaveKeepsRing(window[..], history, datagram);
      ghost var ring := window[..];
      window[windowSlot] := datagram;
      assert window[..] == ring[windowSlot := datagram];
      history := history + [datagram];
      winCur, curPacketNum := winCur + 1, curPacketNum + 1;
    }

    /** `send_data`: read the next chunk, send it, save the packet in its slot. The recorded history
        grows by exactly the packet sent. */
    method SendNextChunk() returns (out: seq<seq<byte>>, next: State)
      requires SendOk() && HistoryOk(host, cfg, history) && |history| == winCur && WindowOk()
      modifies this`seqNum, this`winCur, this`curPacketNum, this`doneTransmitting, this`history
      modifies window, sendPacket
      ensures SendOk() && HistoryOk(host, cfg, history) && |history| == winCur && WindowOk()
      ensures history == old(history) + out
      ensures var reaction := SendDataStep(cfg, old(Abs()));
        Abs().(st := next) == reaction.client && Carry(host, out, reaction.sends)
    {
      out := [];
      if winCur == |cfg.chunks| {
        doneTransmitting := true;
        return out, ReceiveDataWindowClosed;
      }
      var datagram := SendChunk(curPacketNum, cfg.chunks[winCur]);
      SavePacket(datagram);
      out := [datagram];
      var closed := WindowClosed();
      next := if closed then ReceiveDataWindowClosed else ReceiveDataWindowOpen;
    }

    /** `send_data_from_window`: sends what the slot holds, which is the very packet first sent; an
        empty slot makes the library exit. */
    method SendDataFromWindow(index: nat) returns (out: seq<seq<byte>>, next: State)
      requires SendOk() && HistoryOk(host, cfg, history) && |history| == winCur && WindowOk()
      ensures var reaction := SendFromWindow(cfg, Abs(), index);
        Abs().(st := next) == reaction.client && Carry(host, out, reaction.sends)
      ensures forall i | 0 <= i < |out| :: out[i] in history
    {
      var windowSlot := index % cfg.winSize;
      RemainderBound(windowSlot, cfg.winSize);
      var packet := window[windowSlot];
      assert packet == window[..][windowSlot] == Latest(history, cfg.winSize, index);
      PacketsAreNotEmpty(host, cfg, history);
      out := [];
      if |packet| == 0 {
        return out, Aborted;
      }
      out := [packet];
      var closed := WindowClosed();
      next := if closed then ReceiveDataWindowClosed else ReceiveDataWindowOpen;
    }

    // ---- Receiving ----

    /** What a `select_call` finds, what the stack holds, and what it means to the model. */
    ghost predicate PollOk(poll: Poll, stack: seq<byte>, input: Input) {
      |stack| == MAX_PACKET_LEN && HasFlag(host, poll) && input == InputOf(host, poll)
    }

    /** `recv_buf` into a cleared packet. What the stack held before does not matter. */
    method Read(datagram: seq<byte>, stack: seq<byte>)
      returns (recvLen: int, flag: byte, sequence: nat, packet: seq<byte>, ghost msg: Msg)
      requires HasFlag(host, Datagram(datagram)) && |stack| == MAX_PACKET_LEN
      ensures recvLen == CRC_ERROR <==> InputOf(host, Datagram(datagram)) == Corrupt
      ensures recvLen != CRC_ERROR ==>
        && InputOf(host, Datagram(datagram)) == Arrived(msg)
        && AnswerFits(packet, flag, msg)
        && sequence < TWO_TO_THE_32 && HasSeqNum(datagram, sequence)
    {
      var recvPacket := new byte[MAX_PACKET_LEN](_ => 0);
      ghost var d := Fetched(datagram);
      assert recvPacket[|d|..] == seq(MAX_PACKET_LEN - |d|, _ => 0);
      recvLen, flag, sequence := RecvBuf(host, datagram, stack, recvPacket);
      packet, msg := [], EndOfFile;
      if recvLen != CRC_ERROR {
        packet, msg := recvPacket[..], MessageIn(d);
        assert packet == Padded(d);
        assert (d + stack[|d|..])[..4] == d[..4] == datagram[..4];
        ReadableAnswerFits(host, d);
      }
    }

    /** `process_incoming_data`. The number of a SREJ is kept only where the caller passes the
        variable that the SREJ state reads. */
    method ProcessIncomingData(datagram: seq<byte>, stack: seq<byte>, ghost input: Input,
                               keepNum: bool)
      returns (next: State)
      requires SendOk() && curPacketNum == winCur + 1 && |stack| == MAX_PACKET_LEN
      requires HasFlag(host, Datagram(datagram)) && input == InputOf(host, Datagram(datagram))
      modifies this`seqNum, this`winMin, this`winMax, this`srejNum
      ensures SendOk() && Abs().(st := next) == Incoming(cfg, old(Abs()), input, keepNum)
      ensures input == Corrupt ==> seqNum == old(seqNum)
      ensures input != Corrupt ==> HasSeqNum(datagram, seqNum)
    {
      var closed := WindowClosed();
      next := if closed then ReceiveDataWindowClosed else SendData;
      var recvLen, flag, sequence, packet;
      ghost var msg;
      recvLen, flag, sequence, packet, msg := Read(datagram, stack);
      if recvLen == CRC_ERROR {
        return;
      }
      seqNum := sequence;
      if flag == 3 {
        var packetNum := PacketNum(packet);
        winMin, winMax := Pred32(packetNum), Wrap32(packetNum + cfg.winSize - 1);
        next := if doneTransmitting && packetNum == curPacketNum then SendEofAndQuit else SendData;
      } else if flag == 4 {
        if keepNum {
          srejNum := PacketNum(packet);
        }
        next := SendDataSREJ;
      } else {
        next := Done(flag == 17);
      }
    }

    /** `receive_data_window_open`. */
    method ReceiveWindowOpen(poll: Poll, stack: seq<byte>, ghost input: Input) returns (next: State)
      requires SendOk() && curPacketNum == winCur + 1
      requires PollOk(poll, stack, input)
      modifies this`seqNum, this`winMin, this`winMax, this`srejNum, this`timeout
      ensures SendOk() && Abs().(st := next) == ReceiveOpen(cfg, old(Abs()), input)
    {
      if poll.Datagram? {
        timeout := 0;
        next := ProcessIncomingData(poll.bytes, stack, input, true);
      } else if winCur < winMax {
        next := SendData;
      } else {
        next := ReceiveDataWindowClosed;
      }
    }

    /** `receive_data_window_closed`. */
    method ReceiveWindowClosed(poll: Poll, stack: seq<byte>, ghost input: Input)
      returns (out: seq<seq<byte>>, next: State)
      requires SendOk() && HistoryOk(host, cfg, history) && |history| == winCur && WindowOk()
      requires PollOk(poll, stack, input)
      modifies this`seqNum, this`winMin, this`winMax, this`srejNum, this`timeout
      ensures SendOk()
      ensures var reaction := ReceiveClosed(cfg, old(Abs()), input);
        Abs().(st := next) == reaction.client && Carry(host, out, reaction.sends)
    {
      out := [];
      if poll.Datagram? {
        timeout := 0;
        next := ProcessIncomingData(poll.bytes, stack, input, true);
      } else {
        timeout := timeout + 1;
        if timeout > 10 {
          next := TimeoutOnServer;
        } else {
          assert window[..] == old(window[..]);
          out, next := SendDataFromWindow(winMin);
        }
      }
    }

    /** `send_eof_and_quit`. */
    method SendEof(poll: Poll, stack: seq<byte>, ghost input: Input)
      returns (out: seq<seq<byte>>, next: State)
      requires SendOk() && curPacketNum == winCur + 1
      requires PollOk(poll, stack, input)
      modifies this`seqNum, this`winMin, this`winMax, this`srejNum, this`timeout, sendPacket
      ensures SendOk() && Carry(host, out, [EndOfFile])
      ensures Abs().(st := next) == AwaitAckStep(cfg, old(Abs()), input)
    {
      out := Send(EndOfFile);
      if poll.Datagram? {
        timeout := 0;
        next := ProcessIncomingData(poll.bytes, stack, input, false);
      } else {
        timeout := timeout + 1;
        next := if timeout > 10 then TimeoutOnServer else SendEofAndQuit;
      }
    }

    // ---- Setup ----

    /** `ready_to_send_data_setup`. */
    method ReadyToSend() returns (next: State)
      requires SendOk() && history == []
      modifies this`curPacketNum, this`winMin, this`winCur, this`winMax, this`timeout, this`window
      ensures WindowOk() && fresh(window) && winCur == 0
      ensures var reaction := SetupStep(cfg, START.(st := ReadyToSendDataSetup), Silence);
        && next == reaction.client.st && winMin == reaction.client.winMin
        && winMax == reaction.client.winMax && timeout == reaction.client.timeout
    {
      window := new seq<byte>[cfg.winSize](_ => []);
      EmptyRingHoldsNothing(window[..]);
      curPacketNum, winMin, winCur, winMax, timeout := 1, 0, 0, cfg.winSize, 0;
      next := SendData;
    }

    /** `wait_for_setup_acks`. */
    method WaitForAcks(poll: Poll, stack: seq<byte>, ghost input: Input) returns (next: State)
      requires SendOk() && state == WaitForSetupAcks
      requires PollOk(poll, stack, input)
      modifies this`timeout, this`fileSuccess, this`bufSuccess
      ensures Abs().(st := next) == WaitStep(old(Abs()), input)
    {
      next := WaitForSetupAcks;
      if poll.Datagram? {
        timeout := 0;
        var recvLen, flag, sequence, packet;
        ghost var msg;
        recvLen, flag, sequence, packet, msg := Read(poll.bytes, stack);
        if recvLen != CRC_ERROR {
          next := OnAck(flag, packet, msg);
        }
      } else {
        timeout := timeout + 1;
        if timeout > 10 {
          next := TimeoutOnSetupServer;
        } else if !fileSuccess {
          next := SendRemoteFileName;
        } else if !bufSuccess {
          next := SendBufferSize;
        } else {
          next := SendWindowSize;
        }
      }
    }

    /** Its switch on the flag. */
    method OnAck(flag: byte, packet: seq<byte>, ghost msg: Msg) returns (next: State)
      requires state == WaitForSetupAcks && timeout == 0 && AnswerFits(packet, flag, msg)
      modifies this`fileSuccess, this`bufSuccess
      ensures Abs().(st := next) == WaitStep(old(Abs()), Arrived(msg))
    {
      next := WaitForSetupAcks;
      if flag == 7 {
        fileSuccess := true;
        next := SendBufferSize;
      } else if flag == 8 {
        next := SendRemoteFileName;
      } else if flag == 9 {
        next := Done(false);
      } else if flag == 11 {
        bufSuccess := true;
        next := SendWindowSize;
      } else if flag == 12 {
        next := SendBufferSize;
      } else if flag == 14 {
        next := ReadyToSendDataSetup;
      } else if flag == 15 {
        next := SendWindowSize;
      }
    }

    // ---- One iteration of the state loop ----

    /** The cases of `enter_state_machine` that send a setup packet. */
    method SendSetup() returns (out: seq<seq<byte>>, next: State)
      requires SendOk() && state in {SendRemoteFileName, SendBufferSize, SendWindowSize}
      modifies this`seqNum, sendPacket
      ensures SendOk() && next == WaitForSetupAcks
      ensures Carry(host, out, SetupStep(cfg, Abs(), Silence).sends)
    {
      if state == SendRemoteFileName {
        out := Send(FileName(cfg.name));
      } else if state == SendBufferSize {
        out := Send(BufferSize(cfg.bufSize));
      } else {
        out := Send(WindowSize(cfg.winSize));
      }
      next := WaitForSetupAcks;
    }

    /** The cases before the data phase. */
    method SetupState(poll: Poll, stack: seq<byte>, ghost input: Input, ghost before: Client)
      returns (out: seq<seq<byte>>, next: State)
      requires Valid() && InSetup(state) && before == Abs() && PollOk(poll, stack, input)
      modifies this`seqNum, this`timeout, this`fileSuccess, this`bufSuccess, sendPacket
      modifies this`curPacketNum, this`winMin, this`winCur, this`winMax, this`window
      ensures SendOk() && winCur == 0 && (window == old(window) || fresh(window))
      ensures var reaction := SetupStep(cfg, before, input);
        && Abs().(st := next) == reaction.client
        && Carry(host, out, reaction.sends)
        && (!InSetup(next) && !next.Done? ==> WindowOk())
        && !next.Aborted? && next != AwaitAckEof
    {
      out, next := [], state;
      if state == Start {
        next := SendRemoteFileName;
      } else if state == WaitForSetupAcks {
        next := WaitForAcks(poll, stack, input);
      } else if state == ReadyToSendDataSetup {
        next := ReadyToSend();
      } else if state == TimeoutOnSetupServer {
        next := Done(false);
      } else {
        out, next := SendSetup();
      }
    }

    /** Its cases in the data phase. */
    method DataState(poll: Poll, stack: seq<byte>, ghost input: Input, ghost before: Client)
      returns (out: seq<seq<byte>>, next: State)
      requires Valid() && before == Abs() && InDataPhase(before) && PollOk(poll, stack, input)
      modifies this`seqNum, this`winMin, this`winMax, this`srejNum, this`timeout
      modifies this`winCur, this`curPacketNum, this`doneTransmitting, this`history
      modifies window, sendPacket
      ensures SendOk() && HistoryOk(host, cfg, history) && |history| == winCur && WindowOk()
      ensures var reaction := DataIteration(cfg, before, input);
        Abs().(st := next) == reaction.client && Carry(host, out, reaction.sends)
    {
      out, next := [], state;
      if state == SendData {
        out, next := SendNextChunk();
      } else if state == SendDataSREJ {
        out, next := SendDataFromWindow(Pred32(srejNum));
      } else if state == ReceiveDataWindowOpen {
        next := ReceiveWindowOpen(poll, stack, input);
      } else if state == ReceiveDataWindowClosed {
        out, next := ReceiveWindowClosed(poll, stack, input);
      } else if state == SendEofAndQuit {
        out, next := SendEof(poll, stack, input);
      } else {
        next := Done(false);
      }
      assert state != SendData ==> window[..] == old(window[..]);
    }

    /** `state = ...` at the end of a case. */
    method Enter(next: State)
      requires SendOk() && HistoryOk(host, cfg, history) && |history| == winCur
      requires InSetup(next) ==> history == []
      requires next != AwaitAckEof
      requires !InSetup(next) && !next.Done? && !next.Aborted? ==> WindowOk()
      modifies this`state
      ensures Valid() && Abs() == old(Abs()).(st := next)
    {
      state := next;
      assert window[..] == old(window[..]);
    }

    /** `enter_state_machine`: one iteration, whatever the state. */
    method Iterate(poll: Poll, stack: seq<byte>, ghost input: Input) returns (out: seq<seq<byte>>)
      requires Valid() && PollOk(poll, stack, input)
      modifies this, window, sendPacket
      ensures Valid() && (window == old(window) || fresh(window))
      ensures var reaction := Iteration(cfg, old(Abs()), input);
        Abs() == reaction.client && Carry(host, out, reaction.sends)
    {
      out := [];
      var next;
      if InSetup(state) {
        out, next := SetupState(poll, stack, input, Abs());
        Enter(next);
      } else if !state.Done? && !state.Aborted? {
        IterationEndsOutsideSelect(cfg, Abs(), input);
        IterationInData(cfg, Abs(), input);
        out, next := DataState(poll, stack, input, Abs());
        Enter(next);
      }
    }
  }

  lemma PacketsAreNotEmpty(host: Order, cfg: Config, history: seq<seq<byte>>)
    requires HistoryOk(host, cfg, history)
    ensures forall i | 0 <= i < |history| :: |history[i]| > 0
  {
  }
}
