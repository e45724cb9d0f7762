/** The client, rcopy.c, as a state machine with one step for each state. It keeps no ring: which packet
    a ring slot holds follows from the number of chunks sent so far. */
module ClientModel {
  import opened Bytes
  import opened Packets

  /** What the user asked for: the remote name, the local file in the chunks `read` returns, and
      the buffer and window sizes. */
  datatype Config = Config(name: seq<byte>, chunks: seq<seq<byte>>, bufSize: nat, winSize: nat)

  predicate ValidConfig(cfg: Config) {
    && 1 <= cfg.winSize <= 255
    && 400 <= cfg.bufSize <= 1400
    && |cfg.name| <= 1000
    && |cfg.chunks| + 256 < 0x8000_0000
    && forall i | 0 <= i < |cfg.chunks| :: 1 <= |cfg.chunks[i]| <= cfg.bufSize
  }

  datatype State =
    | Start
    | SendRemoteFileName
    | WaitForSetupAcks
    | SendBufferSize
    | SendWindowSize
    | ReadyToSendDataSetup
    | SendData
    | SendDataSREJ
    | ReceiveDataWindowOpen
    | ReceiveDataWindowClosed
    | TimeoutOnSetupServer
    | TimeoutOnServer
    | SendEofAndQuit     // before END_OF_FILE is sent
    | AwaitAckEof        // ... and in the `select_call` that follows
    | Done(acked: bool)  // whether DONE was reached through ACK_EOF
    | Aborted            // exit(1) on an empty send

  /** `winCur` chunks have been read and sent; `cur_packet_num` is always `winCur + 1`. */
  datatype Client = Client(st: State, winMin: nat, winCur: nat, winMax: nat,
                           doneTransmitting: bool, timeout: nat, srejNum: nat,
                           fileSuccess: bool, bufSuccess: bool)

  datatype ClientReaction = ClientReaction(client: Client, sends: seq<Msg>)

  const START := Client(Start, 0, 0, 0, false, 0, 0, false, false)

  predicate Ended(c: Client) {
    c.st.Done? || c.st.Aborted?
  }

  predicate IsWindowClosed(c: Client) {
    c.doneTransmitting || c.winCur >= c.winMax
  }

  function OpenOrClosed(c: Client): State {
    if IsWindowClosed(c) then ReceiveDataWindowClosed else ReceiveDataWindowOpen
  }

  /** `n - 1` in `uint32_t`. */
  function Pred32(n: nat): nat {
    if n == 0 then TWO_TO_THE_32 - 1 else n - 1
  }

  /** A sum in `uint32_t`. */
  function Wrap32(n: nat): nat {
    if n < TWO_TO_THE_32 then n else n - TWO_TO_THE_32
  }

  // ---- The data phase ----

  /** The index of the packet in the ring slot of `index`, once `sent` packets have been sent through
      a ring of `w` slots: the last one to use that slot. None if no packet has used it. */
  datatype Resend = NeverFilled | Packet(index: nat)

  function InSlot(sent: nat, w: nat, index: nat): (r: Resend)
    requires 0 < w
    ensures r.Packet? ==> r.index < sent
  {
    var slot := index % w;
    if slot >= sent then NeverFilled
    else
      var laps := (sent - 1 - slot) / w;  // since the slot was first used
      RemainderOf(sent - 1 - slot, w);
      Packet(w * laps + slot)
  }

  lemma RemainderOf(a: nat, w: nat)
    requires 0 < w
    ensures 0 <= a - w * (a / w) < w && w * (a / w) >= 0
  {
    assert a == w * (a / w) + a % w;
  }

  /** `send_data`. */
  function SendDataStep(cfg: Config, c: Client): ClientReaction {
    if c.winCur >= |cfg.chunks| then
      ClientReaction(c.(doneTransmitting := true, st := ReceiveDataWindowClosed), [])
    else
      var sent := c.(winCur := c.winCur + 1);
      ClientReaction(sent.(st := OpenOrClosed(sent)), [Data(c.winCur + 1, cfg.chunks[c.winCur])])
  }

  /** `send_data_from_window`. */
  function SendFromWindow(cfg: Config, c: Client, index: nat): ClientReaction
    requires 0 < cfg.winSize && c.winCur <= |cfg.chunks|
  {
    match InSlot(c.winCur, cfg.winSize, index)
    case NeverFilled => ClientReaction(c.(st := Aborted), [])
    case Packet(i) =>
      ClientReaction(c.(st := OpenOrClosed(c)), [Data(i + 1, cfg.chunks[i])])
  }

  /** `process_incoming_data`. In the end-of-file phase the number of a SREJ goes to a local variable
      that nothing reads, so `keepNum` is false there. */
  function Incoming(cfg: Config, c: Client, input: Input, keepNum: bool): Client
    requires 0 < cfg.winSize
  {
    match input
    case Arrived(RR(n)) =>
      var moved := c.(winMin := Pred32(n), winMax := Wrap32(n + cfg.winSize - 1));
      moved.(st := if c.doneTransmitting && n == c.winCur + 1 then SendEofAndQuit else SendData)
    case Arrived(SREJ(n)) =>
      c.(st := SendDataSREJ, srejNum := if keepNum then n else c.srejNum)
    case Arrived(AckEof) => c.(st := Done(true))
    case Arrived(_) => c.(st := Done(false))
    case _ => c.(st := if IsWindowClosed(c) then ReceiveDataWindowClosed else SendData)
  }

  /** `receive_data_window_open`. */
  function ReceiveOpen(cfg: Config, c: Client, input: Input): Client
    requires 0 < cfg.winSize
  {
    if input.Silence? then
      c.(st := if c.winCur < c.winMax then SendData else ReceiveDataWindowClosed)
    else
      Incoming(cfg, c.(timeout := 0), input, true)
  }

  /** `receive_data_window_closed`. */
  function ReceiveClosed(cfg: Config, c: Client, input: Input): ClientReaction
    requires 0 < cfg.winSize && c.winCur <= |cfg.chunks|
  {
    if !input.Silence? then
      ClientReaction(Incoming(cfg, c.(timeout := 0), input, true), [])
    else
      var late := c.(timeout := c.timeout + 1);
      if late.timeout > 10 then ClientReaction(late.(st := TimeoutOnServer), [])
      else SendFromWindow(cfg, late, c.winMin)
  }

  /** The second half of `send_eof_and_quit`, after END_OF_FILE was sent. */
  function AwaitAckStep(cfg: Config, c: Client, input: Input): Client
    requires 0 < cfg.winSize
  {
    if !input.Silence? then Incoming(cfg, c.(timeout := 0), input, false)
    else c.(timeout := c.timeout + 1,
            st := if c.timeout + 1 > 10 then TimeoutOnServer else SendEofAndQuit)
  }

  // ---- The setup phase ----

  /** `wait_for_setup_acks`. */
  function WaitStep(c: Client, input: Input): Client {
    match input
    case Silence =>
      var late := c.(timeout := c.timeout + 1);
      late.(st := if late.timeout > 10 then TimeoutOnSetupServer
                  else if !c.fileSuccess then SendRemoteFileName
                  else if !c.bufSuccess then SendBufferSize
                  else SendWindowSize)
    case Corrupt => c.(timeout := 0)
    case Arrived(m) =>
      var heard := c.(timeout := 0);
      match m
      case AckFileName => heard.(fileSuccess := true, st := SendBufferSize)
      case RejFileName => heard.(st := SendRemoteFileName)
      case RejFileNameNoOpen => heard.(st := Done(false))
      case AckBufferSize => heard.(bufSuccess := true, st := SendWindowSize)
      case RejBufferSize => heard.(st := SendBufferSize)
      case AckWindowSize => heard.(st := ReadyToSendDataSetup)
      case RejWindowSize => heard.(st := SendWindowSize)
      case _ => heard
  }

  predicate InSetup(st: State) {
    || st.Start? || st.SendRemoteFileName? || st.WaitForSetupAcks? || st.SendBufferSize?
    || st.SendWindowSize? || st.ReadyToSendDataSetup? || st.TimeoutOnSetupServer?
  }

  function SetupStep(cfg: Config, c: Client, input: Input): (r: ClientReaction)
    ensures |r.sends| <= 1 && (r.client.winCur == c.winCur || r.client.winCur == 0)
  {
    match c.st
    case Start => ClientReaction(c.(st := SendRemoteFileName), [])
    case SendRemoteFileName => ClientReaction(c.(st := WaitForSetupAcks), [FileName(cfg.name)])
    case SendBufferSize => ClientReaction(c.(st := WaitForSetupAcks), [BufferSize(cfg.bufSize)])
    case SendWindowSize => ClientReaction(c.(st := WaitForSetupAcks), [WindowSize(cfg.winSize)])
    case WaitForSetupAcks => ClientReaction(WaitStep(c, input), [])
    case ReadyToSendDataSetup =>
      ClientReaction(c.(st := SendData, winMin := 0, winCur := 0, winMax := cfg.winSize,
                        timeout := 0), [])
    case TimeoutOnSetupServer => ClientReaction(c.(st := Done(false)), [])
    case _ => ClientReaction(c, [])
  }

  function DataStep(cfg: Config, c: Client, input: Input): (r: ClientReaction)
    requires 0 < cfg.winSize && c.winCur <= |cfg.chunks|
    ensures r.client.winCur <= |cfg.chunks| && |r.sends| <= 1
  {
    match c.st
    case SendData => SendDataStep(cfg, c)
    case SendDataSREJ => SendFromWindow(cfg, c, Pred32(c.srejNum))
    case ReceiveDataWindowOpen => ClientReaction(ReceiveOpen(cfg, c, input), [])
    case ReceiveDataWindowClosed => ReceiveClosed(cfg, c, input)
    case SendEofAndQuit => ClientReaction(c.(st := AwaitAckEof), [EndOfFile])
    case AwaitAckEof => ClientReaction(AwaitAckStep(cfg, c, input), [])
    case TimeoutOnServer => ClientReaction(c.(st := Done(false)), [])
    case _ => ClientReaction(c, [])
  }

  /** One step. States that do not look at the network ignore `input`. A step that takes an input and
      sends takes the input first, as the code does. */
  function ClientStep(cfg: Config, c: Client, input: Input): (r: ClientReaction)
    requires 0 < cfg.winSize && c.winCur <= |cfg.chunks|
    ensures r.client.winCur <= |cfg.chunks| && |r.sends| <= 1
  {
    if InSetup(c.st) then SetupStep(cfg, c, input) else DataStep(cfg, c, input)
  }

  /** One iteration of the state loop: one step, but two in SEND_EOF_AND_QUIT. */
  function Iteration(cfg: Config, c: Client, input: Input): ClientReaction
    requires 0 < cfg.winSize && c.winCur <= |cfg.chunks|
  {
    var first := ClientStep(cfg, c, input);
    if c.st == SendEofAndQuit then
      var second := ClientStep(cfg, first.client, input);
      ClientReaction(second.client, first.sends + second.sends)
    else
      first
  }

  // ---- What an input does, and what it leaves alone ----

  /** A packet that fails its checksum is as good as lost: nothing is sent, and the client goes on where it
      is, or, in the data phase, sends if it has room and waits if not. */
  lemma RefusedPacketIsIgnored(cfg: Config, c: Client)
    requires 0 < cfg.winSize && c.winCur <= |cfg.chunks|
    requires Receiving(c) || c.st == WaitForSetupAcks
    ensures var r := ClientStep(cfg, c, Corrupt);
      && r.sends == []
      && r.client == c.(timeout := 0,
                        st := if c.st == WaitForSetupAcks then c.st
                              else if c.winCur < c.winMax && !c.doneTransmitting then SendData
                              else ReceiveDataWindowClosed)
  {
  }

  /** Giving up on the server, now: a silence that counts, after ten others. */
  predicate GivesUp(c: Client, input: Input) {
    input == Silence && CountsTimeouts(c.st) && c.timeout >= 10
  }

  /** How the count of timeouts moves: up by one on a silence that counts, to zero on anything heard and
      at the start of the data phase, and not otherwise. */
  function CountAfter(c: Client, input: Input, count: nat): nat {
    if input == Silence && CountsTimeouts(c.st) then count + 1
    else if input != Silence && (Receiving(c) || c.st == WaitForSetupAcks) then 0
    else if c.st == ReadyToSendDataSetup then 0
    else count
  }

  /** `next` is as timeouts demand. */
  predicate TimeoutsFit(c: Client, input: Input, next: Client) {
    && (next.st == TimeoutOnSetupServer <==> GivesUp(c, input) && c.st == WaitForSetupAcks)
    && (next.st == TimeoutOnServer <==> GivesUp(c, input) && c.st != WaitForSetupAcks)
    && next.timeout == CountAfter(c, input, c.timeout)
  }

  lemma SetupTimeouts(cfg: Config, c: Client, input: Input)
    requires InSetup(c.st)
    ensures TimeoutsFit(c, input, SetupStep(cfg, c, input).client)
  {
  }

  lemma HeardTimeouts(cfg: Config, c: Client, input: Input)
    requires 0 < cfg.winSize && c.winCur <= |cfg.chunks| && Receiving(c) && input != Silence
    ensures TimeoutsFit(c, input, DataStep(cfg, c, input).client)
  {
  }

  lemma SilentTimeouts(cfg: Config, c: Client)
    requires 0 < cfg.winSize && c.winCur <= |cfg.chunks| && Receiving(c)
    ensures TimeoutsFit(c, Silence, DataStep(cfg, c, Silence).client)
  {
  }

  lemma SendingTimeouts(cfg: Config, c: Client, input: Input)
    requires 0 < cfg.winSize && c.winCur <= |cfg.chunks| && !InSetup(c.st) && !Receiving(c)
    ensures TimeoutsFit(c, input, DataStep(cfg, c, input).client)
  {
  }

  /** The client gives up on the server exactly on a silence that it counts, after ten others; and the
      count is what it should be. */
  lemma TimesOutExactly(cfg: Config, c: Client, input: Input)
    requires 0 < cfg.winSize && c.winCur <= |cfg.chunks|
    ensures TimeoutsFit(c, input, ClientStep(cfg, c, input).client)
  {
    if InSetup(c.st) {
      SetupTimeouts(cfg, c, input);
    } else if !Receiving(c) {
      SendingTimeouts(cfg, c, input);
    } else if input == Silence {
      SilentTimeouts(cfg, c);
    } else {
      HeardTimeouts(cfg, c, input);
    }
  }

  /** An RR moves the window to its number, in 32-bit arithmetic, and stops the count of timeouts. */
  lemma RRMovesWindow(cfg: Config, c: Client, n: nat)
    requires ValidConfig(cfg) && c.winCur <= |cfg.chunks| && Receiving(c) && n < TWO_TO_THE_32
    ensures var r := ClientStep(cfg, c, Arrived(RR(n)));
      && r.sends == [] && r.client.timeout == 0
      && r.client.winMin == (n - 1) % TWO_TO_THE_32
      && r.client.winMax == (n + cfg.winSize - 1) % TWO_TO_THE_32
      && (r.client.st == SendEofAndQuit <==> c.doneTransmitting && n == c.winCur + 1)
      && r.client.st in {SendEofAndQuit, SendData}
  {
  }

  /** The first step of the setup that was not yet acknowledged. */
  function Missing(cfg: Config, fileAcked: bool, bufAcked: bool): Msg {
    if !fileAcked then FileName(cfg.name)
    else if !bufAcked then BufferSize(cfg.bufSize)
    else WindowSize(cfg.winSize)
  }

  /** After a silence that is not the last, the client sends again what is missing. */
  lemma SetupIsRetried(cfg: Config, c: Client, input: Input)
    requires 0 < cfg.winSize && c.winCur <= |cfg.chunks|
    requires c.st == WaitForSetupAcks && c.timeout < 10
    ensures var late := ClientStep(cfg, c, Silence);
      && late.sends == []
      && ClientStep(cfg, late.client, input).sends
           == [Missing(cfg, c.fileSuccess, c.bufSuccess)]
  {
  }

  predicate IsSetupAnswer(m: Msg) {
    || m in {AckFileName, RejFileName, RejFileNameNoOpen}
    || m in {AckBufferSize, RejBufferSize, AckWindowSize, RejWindowSize}
  }

  /** What a waiting client sends next when it hears an acknowledgment or a rejection. */
  lemma SetupGoesOn(cfg: Config, c: Client, m: Msg, input: Input)
    requires 0 < cfg.winSize && c.winCur <= |cfg.chunks| && c.st == WaitForSetupAcks
    ensures var heard := ClientStep(cfg, c, Arrived(m));
      var next := ClientStep(cfg, heard.client, input).sends;
      && heard.sends == []
      && (m == RejFileName ==> next == [FileName(cfg.name)])
      && (m in {AckFileName, RejBufferSize} ==> next == [BufferSize(cfg.bufSize)])
      && (m in {AckBufferSize, RejWindowSize} ==> next == [WindowSize(cfg.winSize)])
      && (m == AckWindowSize ==> heard.client.st == ReadyToSendDataSetup)
      && (m == RejFileNameNoOpen ==> heard.client.st == Done(false))
      && (!IsSetupAnswer(m) ==> heard.client == c.(timeout := 0))
  {
  }

  /** After a silence that is not the last, END_OF_FILE is sent again. */
  lemma EndOfFileIsRetried(cfg: Config, c: Client, input: Input)
    requires 0 < cfg.winSize && c.winCur <= |cfg.chunks| && c.st == AwaitAckEof && c.timeout < 10
    ensures var late := ClientStep(cfg, c, Silence);
      && late.client == c.(st := SendEofAndQuit, timeout := c.timeout + 1) && late.sends == []
      && ClientStep(cfg, late.client, input)
           == ClientReaction(late.client.(st := AwaitAckEof), [EndOfFile])
  {
  }

  /** Each part of the client has one cause to change. */
  predicate ChangesFit(cfg: Config, c: Client, input: Input, next: Client) {
    var starts, sends := c.st == ReadyToSendDataSetup, c.st == SendData;
    && (next.winMin != c.winMin || next.winMax != c.winMax ==>
          starts || (Receiving(c) && input.Arrived? && input.msg.RR?))
    && next.winCur == (if starts then 0
                       else if sends && c.winCur < |cfg.chunks| then c.winCur + 1
                       else c.winCur)
    && next.doneTransmitting == (c.doneTransmitting || (sends && c.winCur == |cfg.chunks|))
    && next.srejNum == (if Receiving(c) && c.st != AwaitAckEof && input.Arrived? && input.msg.SREJ?
                        then input.msg.num else c.srejNum)
    && next.fileSuccess
         == (c.fileSuccess || (c.st == WaitForSetupAcks && input == Arrived(AckFileName)))
    && next.bufSuccess
         == (c.bufSuccess || (c.st == WaitForSetupAcks && input == Arrived(AckBufferSize)))
  }

  lemma SetupChanges(cfg: Config, c: Client, input: Input)
    requires InSetup(c.st)
    ensures ChangesFit(cfg, c, input, SetupStep(cfg, c, input).client)
  {
  }

  lemma PollChanges(cfg: Config, c: Client, input: Input)
    requires 0 < cfg.winSize && c.winCur <= |cfg.chunks| && Receiving(c)
    ensures ChangesFit(cfg, c, input, DataStep(cfg, c, input).client)
  {
  }

  lemma SendChanges(cfg: Config, c: Client, input: Input)
    requires 0 < cfg.winSize && c.winCur <= |cfg.chunks| && !InSetup(c.st) && !Receiving(c)
    ensures ChangesFit(cfg, c, input, DataStep(cfg, c, input).client)
  {
  }

  lemma WhatChanges(cfg: Config, c: Client, input: Input)
    requires 0 < cfg.winSize && c.winCur <= |cfg.chunks|
    ensures ChangesFit(cfg, c, input, ClientStep(cfg, c, input).client)
  {
    if InSetup(c.st) {
      SetupChanges(cfg, c, input);
    } else if Receiving(c) {
      PollChanges(cfg, c, input);
    } else {
      SendChanges(cfg, c, input);
    }
  }

  // ---- What a ring slot holds ----

  lemma RemainderBound(a: nat, w: nat)
    requires 0 < w
    ensures a % w <= a && (a < w ==> a % w == a)
  {
    assert a == w * (a / w) + a % w && w * (a / w) >= 0;
  }

  lemma SlotOfResend(sent: nat, w: nat, index: nat)
    requires 0 < w && InSlot(sent, w, index).Packet?
    ensures InSlot(sent, w, index).index % w == index % w
    ensures sent - w <= InSlot(sent, w, index).index < sent
  {
    var slot := index % w;
    var laps := (sent - 1 - slot) / w;
    assert InSlot(sent, w, index).index == w * laps + slot;
    SmallRemainder(slot, laps, w);
    RemainderOf(sent - 1 - slot, w);
  }

  /** The packet in a slot is the latest one with that remainder, and there is none only if no
      packet has that remainder. */
  lemma SlotHoldsTheLatest(sent: nat, w: nat, index: nat, i: nat)
    requires 0 < w && i < sent && i % w == index % w
    ensures var r := InSlot(sent, w, index);
      r.Packet? && i <= r.index && r.index % w == index % w && sent - w <= r.index < sent
  {
    RemainderBound(i, w);
    SlotOfResend(sent, w, index);
    var latest := InSlot(sent, w, index).index;
    if i > latest {
      SameSlot(i, latest, w);
    }
  }

  /** The last `w` packets sent are the ones in the ring, each in its own slot. */
  lemma RingHoldsTheLastPackets(sent: nat, w: nat, index: nat)
    requires 0 < w && sent - w <= index < sent
    ensures InSlot(sent, w, index) == Packet(index)
  {
    SlotHoldsTheLatest(sent, w, index, index);
    SameSlot(InSlot(sent, w, index).index, index, w);
  }

  /** Sending packet `sent` changes its own slot and no other. */
  lemma SlotAfterSend(sent: nat, w: nat, index: nat)
    requires 0 < w
    ensures InSlot(sent + 1, w, index)
         == if index % w == sent % w then Packet(sent) else InSlot(sent, w, index)
  {
    if index % w == sent % w {
      SlotHoldsTheLatest(sent + 1, w, index, sent);
    } else if InSlot(sent, w, index).Packet? {
      var i := InSlot(sent, w, index).index;
      SlotOfResend(sent, w, index);
      SlotHoldsTheLatest(sent + 1, w, index, i);
      SlotHoldsTheLatest(sent, w, index, i);
      SlotHoldsTheLatest(sent, w, index, InSlot(sent + 1, w, index).index);
    } else {
      RemainderBound(sent, w);
    }
  }

  // ---- The window ----

  predicate Receiving(c: Client) {
    c.st in {ReceiveDataWindowOpen, ReceiveDataWindowClosed, AwaitAckEof}
  }

  predicate InDataPhase(c: Client) {
    c.st in {SendData, SendDataSREJ, ReceiveDataWindowOpen, ReceiveDataWindowClosed,
             TimeoutOnServer, SendEofAndQuit, AwaitAckEof}
  }

  /** The client has not sent, and is not about to send, beyond its window. */
  predicate WithinWindow(cfg: Config, c: Client) {
    && c.winCur <= c.winMax
    && (c.st == SendData && c.winCur < |cfg.chunks| ==> c.winCur < c.winMax)
  }

  /** The RR for `n` leaves room for what was sent and for the packet that is sent next without
      looking at the window again. */
  predicate KeepsWindow(cfg: Config, c: Client, n: nat) {
    || c.winCur < n + cfg.winSize - 1
    || (c.winCur == n + cfg.winSize - 1 && c.winCur >= |cfg.chunks|)
  }

  /** Taking an RR keeps the client within its window exactly when `KeepsWindow` holds. */
  lemma RRKeepsWindowExactly(cfg: Config, c: Client, n: nat)
    requires ValidConfig(cfg) && c.winCur <= |cfg.chunks| && Receiving(c)
    requires n < MAX_RR
    ensures WithinWindow(cfg, ClientStep(cfg, c, Arrived(RR(n))).client) <==> KeepsWindow(cfg, c, n)
  {
  }

  const MAX_RR := 0x8000_0000

  lemma PollsKeepWindow(cfg: Config, c: Client, input: Input)
    requires ValidConfig(cfg) && c.winCur <= |cfg.chunks| && Receiving(c)
    requires input.Arrived? ==> !input.msg.RR?
    requires WithinWindow(cfg, c)
    ensures WithinWindow(cfg, ClientStep(cfg, c, input).client)
  {
  }

  lemma SendsKeepWindow(cfg: Config, c: Client, input: Input)
    requires ValidConfig(cfg) && c.winCur <= |cfg.chunks| && InDataPhase(c) && !Receiving(c)
    requires WithinWindow(cfg, c)
    ensures WithinWindow(cfg, ClientStep(cfg, c, input).client)
  {
  }

  /** Every other step of the data phase keeps it there. */
  lemma OtherStepsKeepWindow(cfg: Config, c: Client, input: Input)
    requires ValidConfig(cfg) && c.winCur <= |cfg.chunks| && InDataPhase(c)
    requires Receiving(c) && input.Arrived? ==> !input.msg.RR?
    requires WithinWindow(cfg, c)
    ensures WithinWindow(cfg, ClientStep(cfg, c, input).client)
  {
    if Receiving(c) {
      PollsKeepWindow(cfg, c, input);
    } else {
      SendsKeepWindow(cfg, c, input);
    }
  }

  /** Before the data phase and after it nothing is sent from the window. */
  lemma StepsOutsideKeepWindow(cfg: Config, c: Client, input: Input)
    requires ValidConfig(cfg) && c.winCur <= |cfg.chunks| && !InDataPhase(c)
    requires WithinWindow(cfg, c)
    ensures WithinWindow(cfg, ClientStep(cfg, c, input).client)
  {
  }

  /** An RR larger than the last one taken always keeps the window. */
  lemma LargerRRKeepsWindow(cfg: Config, c: Client, n: nat)
    requires ValidConfig(cfg) && c.winCur <= c.winMax == c.winMin + cfg.winSize && n > c.winMin + 1
    ensures KeepsWindow(cfg, c, n)
  {
  }

  /** A resend of `index` sends that very packet exactly when it is one of the last `winSize` sent. */
  lemma ResendSendsThePacketAskedFor(cfg: Config, c: Client, index: nat)
    requires ValidConfig(cfg) && c.winCur <= |cfg.chunks| && index < |cfg.chunks|
    ensures SendFromWindow(cfg, c, index).sends == [Data(index + 1, cfg.chunks[index])]
       <==> index < c.winCur <= index + cfg.winSize
  {
    if index < c.winCur <= index + cfg.winSize {
      RingHoldsTheLastPackets(c.winCur, cfg.winSize, index);
    } else if InSlot(c.winCur, cfg.winSize, index).Packet? {
      SlotOfResend(c.winCur, cfg.winSize, index);
    }
  }

  // ---- If nothing arrives any more ----

  function Rank(st: State): nat {
    match st
    case Start => 4
    case SendRemoteFileName => 3
    case SendBufferSize => 3
    case SendWindowSize => 3
    case ReadyToSendDataSetup => 3
    case WaitForSetupAcks => 2
    case SendDataSREJ => 5
    case ReceiveDataWindowOpen => 4
    case SendData => 3
    case ReceiveDataWindowClosed => 2
    case SendEofAndQuit => 3
    case AwaitAckEof => 2
    case TimeoutOnSetupServer => 1
    case TimeoutOnServer => 1
    case Done(_) => 0
    case Aborted => 0
  }

  /** Setup comes before the data phase, which comes before the end. */
  function PhaseLeft(c: Client): nat {
    if InDataPhase(c) || Ended(c) then 0 else 1
  }

  function Patience(c: Client): nat {
    if c.timeout < 11 then 11 - c.timeout else 0
  }

  /** Fewer, lexicographically: the phase left, the chunks not yet read, the timeouts left, the rank of
      the state. */
  predicate CloserToEnd(c: Client, next: Client) {
    && PhaseLeft(next) <= PhaseLeft(c)
    && (PhaseLeft(next) == PhaseLeft(c) ==>
          && next.winCur >= c.winCur
          && (next.winCur == c.winCur ==>
                && Patience(next) <= Patience(c)
                && (Patience(next) == Patience(c) ==> Rank(next.st) < Rank(c.st))))
  }

  lemma SetupSilenceMakesProgress(cfg: Config, c: Client)
    requires InSetup(c.st)
    ensures CloserToEnd(c, SetupStep(cfg, c, Silence).client)
  {
  }

  lemma DataSilenceMakesProgress(cfg: Config, c: Client)
    requires 0 < cfg.winSize && c.winCur <= |cfg.chunks| && InDataPhase(c)
    ensures CloserToEnd(c, DataStep(cfg, c, Silence).client)
  {
  }

  /** A step on silence always leads closer to the end. */
  lemma SilenceMakesProgress(cfg: Config, c: Client)
    requires 0 < cfg.winSize && c.winCur <= |cfg.chunks| && !Ended(c)
    ensures CloserToEnd(c, ClientStep(cfg, c, Silence).client)
  {
    if InSetup(c.st) {
      SetupSilenceMakesProgress(cfg, c);
    } else {
      DataSilenceMakesProgress(cfg, c);
    }
  }

  /** Where the silent client ends up, and how many timeouts it counts on the way. */
  datatype Ending = Ending(client: Client, timeouts: nat)

  predicate CountsTimeouts(st: State) {
    st in {WaitForSetupAcks, ReceiveDataWindowClosed, AwaitAckEof}
  }

  /** Run the state loop with nothing arriving, to its end. */
  function RunSilently(cfg: Config, c: Client): Ending
    requires 0 < cfg.winSize && c.winCur <= |cfg.chunks|
    decreases PhaseLeft(c), |cfg.chunks| - c.winCur, Patience(c), Rank(c.st)
  {
    if Ended(c) then Ending(c, 0)
    else
      SilenceMakesProgress(cfg, c);
      var rest := RunSilently(cfg, ClientStep(cfg, c, Silence).client);
      Ending(rest.client, rest.timeouts + if CountsTimeouts(c.st) then 1 else 0)
  }

  lemma EndsOnSilence(cfg: Config, c: Client)
    requires 0 < cfg.winSize && c.winCur <= |cfg.chunks| && !Ended(c)
    ensures var next := ClientStep(cfg, c, Silence).client;
      && (Ended(next) && next.st != Aborted ==>
            next.st == Done(false) && c.st in {TimeoutOnSetupServer, TimeoutOnServer})
      && next.st != ReadyToSendDataSetup
  {
  }

  /** The silent client gives up after exactly eleven timeouts in a row, unless it aborts before, and
      never takes the transfer for finished. */
  lemma {:induction false} SilentClientGivesUp(cfg: Config, c: Client)
    requires 0 < cfg.winSize && c.winCur <= |cfg.chunks| && !Ended(c) && c.timeout <= 11
    requires c.timeout == 11 <==> c.st in {TimeoutOnSetupServer, TimeoutOnServer}
    ensures var end := RunSilently(cfg, c);
      var left := if c.st == ReadyToSendDataSetup then 11 else 11 - c.timeout;
      && Ended(end.client) && end.client.st != Done(true)
      && end.timeouts <= left
      && (end.client.st != Aborted ==> end.timeouts == left)
    decreases PhaseLeft(c), |cfg.chunks| - c.winCur, Patience(c), Rank(c.st)
  {
    var next := ClientStep(cfg, c, Silence).client;
    SilenceMakesProgress(cfg, c);
    TimesOutExactly(cfg, c, Silence);
    EndsOnSilence(cfg, c);
    if !Ended(next) {
      SilentClientGivesUp(cfg, next);
    }
  }
}
