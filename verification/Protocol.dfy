/** Client, network and server together. The network is two growing sets of messages: a message once
    sent may arrive never, once or many times, and in any order; a damaged packet shows up as an input
    that fails its checksum. `Wire` justifies this view from the bytes. */
module Protocol {
  import opened Bytes
  import opened Packets
  import opened Receiver
  import opened ClientModel
  import S = ServerModel

  /** `inits` counts how often the server has set up its window. */
  datatype Sys = Sys(c: Client, s: S.Server, up: set<Msg>, down: set<Msg>, inits: nat)

  datatype Action = ClientMoves(input: Input) | ServerMoves(input: Input, canOpen: bool)

  const INIT := Sys(START, S.START, {}, {}, 0)

  function Msgs(msgs: seq<Msg>): set<Msg> {
    set m | m in msgs
  }

  /** A process can be given silence, a damaged packet, or any message sent to it so far. */
  predicate CanHappen(sys: Sys, a: Action) {
    a.input.Arrived? ==> a.input.msg in if a.ClientMoves? then sys.down else sys.up
  }

  function Apply(cfg: Config, sys: Sys, a: Action): Sys
    requires 0 < cfg.winSize && sys.c.winCur <= |cfg.chunks|
  {
    match a
    case ClientMoves(input) =>
      var reaction := ClientStep(cfg, sys.c, input);
      sys.(c := reaction.client, up := sys.up + Msgs(reaction.sends))
    case ServerMoves(input, canOpen) =>
      var reaction := S.ServerStep(sys.s, input, canOpen);
      sys.(s := reaction.server, down := sys.down + Msgs(reaction.replies),
           inits := InitsAfter(sys.inits, sys.s, reaction.server))
  }

  function InitsAfter(inits: nat, s: S.Server, s': S.Server): nat {
    if s.phase != S.Receiving && s'.phase == S.Receiving then inits + 1 else inits
  }

  predicate Step(cfg: Config, sys: Sys, a: Action, sys': Sys)
    requires ValidConfig(cfg)
  {
    sys.c.winCur <= |cfg.chunks| && CanHappen(sys, a) && sys' == Apply(cfg, sys, a)
  }

  /** The states of a run and the actions between them. */
  predicate IsRun(cfg: Config, states: seq<Sys>, actions: seq<Action>)
    requires ValidConfig(cfg)
  {
    && |states| == |actions| + 1
    && states[0] == INIT
    && forall i | 0 <= i < |actions| :: StepAt(cfg, states, actions, i)
  }

  predicate StepAt(cfg: Config, states: seq<Sys>, actions: seq<Action>, i: nat)
    requires ValidConfig(cfg) && |states| == |actions| + 1 && i < |actions|
  {
    Step(cfg, states[i], actions[i], states[i + 1])
  }

  // ---- The invariant ----

  /** The receiver has the first `next - 1` chunks on file, and holds only packets sent. */
  predicate RxOk(chunks: seq<seq<byte>>, sent: nat, rx: Rx) {
    && 1 <= rx.next <= sent + 1 <= |chunks| + 1
    && rx.file == Concat(chunks[..rx.next - 1])
    && forall n | n in rx.held :: rx.next <= n <= sent && rx.held[n] == chunks[n - 1]
  }

  /** Every chunk is on file, and there is one. */
  predicate Complete(cfg: Config, s: S.Server) {
    s.rx.next == |cfg.chunks| + 1 > 1
  }

  /** What is true of every message on its way to the server. */
  predicate UpOk(cfg: Config, c: Client, s: S.Server, m: Msg)
    requires c.winCur <= |cfg.chunks|
  {
    match m
    case FileName(name) => name == cfg.name
    case BufferSize(n) => n == cfg.bufSize && s.fileGood
    case WindowSize(n) => n == cfg.winSize && s.fileGood && s.bufGood
    case Data(n, d) => 1 <= n <= c.winCur && d == cfg.chunks[n - 1] && S.AllGood(s)
    case EndOfFile => c.doneTransmitting && Complete(cfg, s)
    case _ => false
  }

  /** What is true of every message on its way to the client. */
  predicate DownOk(cfg: Config, c: Client, s: S.Server, m: Msg) {
    match m
    case AckFileName => s.fileGood
    case RejFileNameNoOpen => s.phase == S.Closed && !s.fileGood
    case AckBufferSize => s.fileGood && s.bufGood
    case AckWindowSize => S.AllGood(s)
    case RR(n) => 2 <= n <= s.rx.next
    case SREJ(n) => 1 <= n <= s.rx.next && n <= c.winCur
    case AckEof => c.doneTransmitting && Complete(cfg, s)
    case _ => false
  }

  predicate ClientOk(cfg: Config, c: Client, s: S.Server) {
    && c.winCur <= |cfg.chunks|
    && (c.doneTransmitting ==> c.winCur == |cfg.chunks|)
    && (c.fileSuccess ==> s.fileGood)
    && (c.bufSuccess ==> s.fileGood && s.bufGood)
    && (c.st == SendBufferSize ==> s.fileGood)
    && (c.st == SendWindowSize ==> s.fileGood && s.bufGood)
    && (c.st == ReadyToSendDataSetup || InDataPhase(c) ==> S.AllGood(s))
    && (InDataPhase(c) ==> c.winMax == c.winMin + cfg.winSize)
    && (c.winMax == c.winMin + cfg.winSize || c.winMin == c.winCur == c.winMax == 0)
    && (InDataPhase(c) || Ended(c) || (c.winCur == 0 && !c.doneTransmitting))
    && (c.st == ReceiveDataWindowClosed ==> IsWindowClosed(c))
    && (c.st == ReceiveDataWindowOpen ==> !IsWindowClosed(c))
    && (c.st in {SendEofAndQuit, AwaitAckEof} ==> c.doneTransmitting && Complete(cfg, s))
    && (c.st == Done(true) ==> c.doneTransmitting && Complete(cfg, s))
    && c.winMin < s.rx.next
    && c.srejNum <= c.winCur
    && (c.st == SendDataSREJ && c.srejNum == 0 ==> c.doneTransmitting)
    && c.timeout <= 11
    && (c.timeout == 11 ==> c.st in {TimeoutOnSetupServer, TimeoutOnServer} || Ended(c))
    && (c.st in {TimeoutOnSetupServer, TimeoutOnServer} ==> c.timeout == 11)
  }

  predicate ServerOk(cfg: Config, c: Client, s: S.Server, inits: nat)
    requires c.winCur <= |cfg.chunks|
  {
    && (s.phase == S.Listening ==> !s.fileOpen && !s.fileGood && !s.bufGood && !s.winGood)
    && (s.phase == S.SettingUp ==> s.fileGood)
    && (s.fileGood ==> s.fileOpen)
    && (s.phase in {S.Listening, S.SettingUp} ==> s.rx == EMPTY && inits == 0)
    && (s.phase == S.Receiving ==> S.AllGood(s) && inits == 1 && c.winCur >= 1)
    && inits <= 1
    && (s.bufGood ==> s.bufSize == cfg.bufSize)
    && (s.winGood ==> s.winSize == cfg.winSize)
    && RxOk(cfg.chunks, c.winCur, s.rx)
    && InWindow(cfg.winSize, s.rx)
  }

  predicate Inv(cfg: Config, sys: Sys) {
    && ClientOk(cfg, sys.c, sys.s)
    && ServerOk(cfg, sys.c, sys.s, sys.inits)
    && (forall m | m in sys.up :: UpOk(cfg, sys.c, sys.s, m))
    && (forall m | m in sys.down :: DownOk(cfg, sys.c, sys.s, m))
  }

  // ---- Every step keeps it ----

  lemma {:induction false} DrainKeepsRxOk(chunks: seq<seq<byte>>, sent: nat, rx: Rx)
    requires RxOk(chunks, sent, rx)
    ensures RxOk(chunks, sent, Drain(rx))
    decreases rx.held.Keys
  {
    if rx.next in rx.held {
      ConcatStep(chunks, rx.next - 1);
      DrainKeepsRxOk(chunks, sent, Flushed(rx));
    }
  }

  /** A data packet of the client keeps the receiver in order, and its answers are honest. */
  lemma TakeKeepsRxOk(w: nat, chunks: seq<seq<byte>>, sent: nat, rx: Rx, n: nat)
    requires RxOk(chunks, sent, rx) && InWindow(w, rx) && 1 <= n <= sent
    ensures var reaction := Take(w, rx, n, chunks[n - 1]);
      && RxOk(chunks, sent, reaction.rx) && InWindow(w, reaction.rx)
      && rx.next <= reaction.rx.next
      && forall i | 0 <= i < |reaction.replies| ::
           var m := reaction.replies[i];
           || (m == RR(reaction.rx.next) && 2 <= reaction.rx.next)
           || (m == SREJ(reaction.rx.next) && reaction.rx.next <= sent)
  {
    TakeStaysInWindow(w, rx, n, chunks[n - 1]);
    if n == rx.next {
      ConcatStep(chunks, n - 1);
      assert forall k | k in rx.held :: k != n;
      DrainKeepsRxOk(chunks, sent, Expected(rx, chunks[n - 1]));
    } else if n < rx.next && rx.held != map[] {
      var k :| k in rx.held;
    }
  }

  /** Nothing a message relies on is ever lost. */
  predicate Grows(cfg: Config, c: Client, s: S.Server, c': Client, s': S.Server) {
    && c.winCur <= c'.winCur <= |cfg.chunks|
    && (c.doneTransmitting ==> c'.doneTransmitting)
    && (s.fileGood ==> s'.fileGood) && (s.bufGood ==> s'.bufGood) && (s.winGood ==> s'.winGood)
    && (s.phase == S.Closed ==> s'.phase == S.Closed && s'.fileGood == s.fileGood)
    && s.rx.next <= s'.rx.next
    && (Complete(cfg, s) ==> Complete(cfg, s'))
  }

  lemma MessagesStayOk(cfg: Config, sys: Sys, c': Client, s': S.Server)
    requires sys.c.winCur <= |cfg.chunks| && Grows(cfg, sys.c, sys.s, c', s')
    ensures forall m | m in sys.up && UpOk(cfg, sys.c, sys.s, m) :: UpOk(cfg, c', s', m)
    ensures forall m | m in sys.down && DownOk(cfg, sys.c, sys.s, m) :: DownOk(cfg, c', s', m)
  {
  }

  /** What a client step must establish about the client and about what it sends. */
  predicate ClientReactionOk(cfg: Config, c: Client, s: S.Server, reaction: ClientReaction) {
    && ClientOk(cfg, reaction.client, s)
    && Grows(cfg, c, s, reaction.client, s)
    && forall i | 0 <= i < |reaction.sends| :: UpOk(cfg, reaction.client, s, reaction.sends[i])
  }

  lemma WaitStepIsOk(cfg: Config, c: Client, s: S.Server, input: Input)
    requires ValidConfig(cfg) && ClientOk(cfg, c, s) && c.st == WaitForSetupAcks
    requires input.Arrived? ==> DownOk(cfg, c, s, input.msg)
    ensures ClientReactionOk(cfg, c, s, ClientReaction(WaitStep(c, input), []))
  {
  }

  lemma SetupStepIsOk(cfg: Config, c: Client, s: S.Server, input: Input)
    requires ValidConfig(cfg) && ClientOk(cfg, c, s) && !InDataPhase(c)
    requires input.Arrived? ==> DownOk(cfg, c, s, input.msg)
    requires 1 <= s.rx.next
    ensures ClientReactionOk(cfg, c, s, ClientStep(cfg, c, input))
  {
    if c.st == WaitForSetupAcks {
      WaitStepIsOk(cfg, c, s, input);
    }
  }

  /** An RR moves the window, and means end of file only when everything is on file. */
  lemma RRIsOk(cfg: Config, c: Client, s: S.Server, n: nat, keepNum: bool)
    requires ValidConfig(cfg) && ClientOk(cfg, c, s) && Receiving(c) && c.timeout == 0
    requires s.rx.next <= c.winCur + 1 && 2 <= n <= s.rx.next
    ensures ClientReactionOk(cfg, c, s,
                             ClientReaction(Incoming(cfg, c, Arrived(RR(n)), keepNum), []))
  {
  }

  lemma OtherIncomingIsOk(cfg: Config, c: Client, s: S.Server, input: Input, keepNum: bool)
    requires ValidConfig(cfg) && ClientOk(cfg, c, s) && Receiving(c) && c.timeout == 0
    requires input.Arrived? ==> DownOk(cfg, c, s, input.msg) && !input.msg.RR?
    requires !input.Silence? && (keepNum || c.doneTransmitting)
    ensures ClientReactionOk(cfg, c, s, ClientReaction(Incoming(cfg, c, input, keepNum), []))
  {
  }

  lemma IncomingIsOk(cfg: Config, c: Client, s: S.Server, input: Input, keepNum: bool)
    requires ValidConfig(cfg) && ClientOk(cfg, c, s) && Receiving(c) && c.timeout == 0
    requires s.rx.next <= c.winCur + 1
    requires input.Arrived? ==> DownOk(cfg, c, s, input.msg)
    requires !input.Silence? && (keepNum || c.doneTransmitting)
    ensures ClientReactionOk(cfg, c, s, ClientReaction(Incoming(cfg, c, input, keepNum), []))
  {
    if input.Arrived? && input.msg.RR? {
      RRIsOk(cfg, c, s, input.msg.num, keepNum);
    } else {
      OtherIncomingIsOk(cfg, c, s, input, keepNum);
    }
  }

  lemma SendFromWindowIsOk(cfg: Config, c: Client, s: S.Server, index: nat)
    requires ValidConfig(cfg) && ClientOk(cfg, c.(timeout := 0), s) && c.timeout <= 10
    requires c.st in {SendDataSREJ, ReceiveDataWindowClosed}
    ensures ClientReactionOk(cfg, c, s, SendFromWindow(cfg, c, index))
  {
  }

  lemma NextChunkIsOk(cfg: Config, c: Client, s: S.Server)
    requires ValidConfig(cfg) && ClientOk(cfg, c, s) && c.st == SendData
    ensures ClientReactionOk(cfg, c, s, SendDataStep(cfg, c))
  {
  }

  lemma TimeoutIsOk(cfg: Config, c: Client, s: S.Server)
    requires ValidConfig(cfg) && ClientOk(cfg, c, s) && Receiving(c)
    ensures ClientReactionOk(cfg, c, s, ClientStep(cfg, c, Silence))
  {
    if c.st == ReceiveDataWindowClosed && c.timeout < 10 {
      SendFromWindowIsOk(cfg, c.(timeout := c.timeout + 1), s, c.winMin);
    }
  }

  lemma SilentDataStepIsOk(cfg: Config, c: Client, s: S.Server)
    requires ValidConfig(cfg) && ClientOk(cfg, c, s) && InDataPhase(c)
    ensures ClientReactionOk(cfg, c, s, ClientStep(cfg, c, Silence))
  {
    if Receiving(c) {
      TimeoutIsOk(cfg, c, s);
    } else if c.st == SendData {
      NextChunkIsOk(cfg, c, s);
    } else if c.st == SendDataSREJ {
      SendFromWindowIsOk(cfg, c, s, Pred32(c.srejNum));
    }
  }

  lemma ArrivalStepIsOk(cfg: Config, c: Client, s: S.Server, input: Input)
    requires ValidConfig(cfg) && ClientOk(cfg, c, s) && Receiving(c) && !input.Silence?
    requires s.rx.next <= c.winCur + 1
    requires input.Arrived? ==> DownOk(cfg, c, s, input.msg)
    ensures ClientReactionOk(cfg, c, s, ClientStep(cfg, c, input))
  {
    var keepNum, r := c.st != AwaitAckEof, ClientStep(cfg, c, input);
    IncomingIsOk(cfg, c.(timeout := 0), s, input, keepNum);
    assert r == ClientReaction(Incoming(cfg, c.(timeout := 0), input, keepNum), []);
  }

  lemma DataStepIsOk(cfg: Config, c: Client, s: S.Server, input: Input)
    requires ValidConfig(cfg) && ClientOk(cfg, c, s) && InDataPhase(c)
    requires s.rx.next <= c.winCur + 1
    requires input.Arrived? ==> DownOk(cfg, c, s, input.msg)
    ensures ClientReactionOk(cfg, c, s, ClientStep(cfg, c, input))
  {
    if Receiving(c) && !input.Silence? {
      ArrivalStepIsOk(cfg, c, s, input);
    } else {
      SilentDataStepIsOk(cfg, c, s);
      assert ClientStep(cfg, c, input) == ClientStep(cfg, c, Silence);
    }
  }

  /** What a server step must establish about the server and about what it answers. */
  predicate ServerReactionOk(cfg: Config, c: Client, s: S.Server, inits: nat,
                             reaction: S.ServerReaction)
    requires c.winCur <= |cfg.chunks|
  {
    && ServerOk(cfg, c, reaction.server, inits)
    && Grows(cfg, c, s, c, reaction.server)
    && forall i | 0 <= i < |reaction.replies| ::
         DownOk(cfg, c, reaction.server, reaction.replies[i])
  }

  lemma TakenIsOk(cfg: Config, c: Client, s: S.Server, inits: nat, reaction: Reaction)
    requires ValidConfig(cfg) && 1 <= c.winCur <= |cfg.chunks| && ServerOk(cfg, c, s, inits)
    requires S.AllGood(s) && s.phase in {S.SettingUp, S.Receiving}
    requires RxOk(cfg.chunks, c.winCur, reaction.rx) && InWindow(cfg.winSize, reaction.rx)
    requires s.rx.next <= reaction.rx.next
    requires forall i | 0 <= i < |reaction.replies| ::
      var m := reaction.replies[i];
      || (m == RR(reaction.rx.next) && 2 <= reaction.rx.next)
      || (m == SREJ(reaction.rx.next) && reaction.rx.next <= c.winCur)
    ensures ServerReactionOk(cfg, c, s, 1,
              S.ServerReaction(s.(phase := S.Receiving, rx := reaction.rx), reaction.replies))
  {
  }

  lemma OnDataIsOk(cfg: Config, c: Client, s: S.Server, inits: nat, n: nat, d: seq<byte>)
    requires ValidConfig(cfg) && c.winCur <= |cfg.chunks| && ServerOk(cfg, c, s, inits)
    requires UpOk(cfg, c, s, Data(n, d)) && s.phase in {S.SettingUp, S.Receiving}
    ensures ServerReactionOk(cfg, c, s, 1, S.OnData(s, n, d))
  {
    TakeKeepsRxOk(cfg.winSize, cfg.chunks, c.winCur, s.rx, n);
    var reaction := Take(cfg.winSize, s.rx, n, d);
    assert S.OnData(s, n, d)
        == S.ServerReaction(s.(phase := S.Receiving, rx := reaction.rx), reaction.replies);
    TakenIsOk(cfg, c, s, inits, reaction);
  }

  predicate IsDataFor(s: S.Server, input: Input) {
    input.Arrived? && input.msg.Data? && s.phase in {S.SettingUp, S.Receiving}
  }

  lemma SetupPacketIsOk(cfg: Config, c: Client, s: S.Server, inits: nat, m: Msg, canOpen: bool)
    requires ValidConfig(cfg) && c.winCur <= |cfg.chunks| && ServerOk(cfg, c, s, inits)
    requires UpOk(cfg, c, s, m) && !m.Data? && s.phase == S.SettingUp
    ensures var reaction := S.OnSetupPacket(s, m, canOpen);
      && ServerReactionOk(cfg, c, s, inits, reaction)
      && reaction.server.phase != S.Receiving
  {
  }

  lemma FirstPacketIsOk(cfg: Config, c: Client, s: S.Server, inits: nat, canOpen: bool)
    requires ValidConfig(cfg) && c.winCur <= |cfg.chunks| && ServerOk(cfg, c, s, inits)
    requires s.phase == S.Listening
    ensures var reaction := S.OnFileName(s, canOpen);
      && ServerReactionOk(cfg, c, s, inits, reaction)
      && reaction.server.phase != S.Receiving
  {
  }

  lemma OtherServerStepIsOk(cfg: Config, c: Client, s: S.Server, inits: nat, input: Input,
                            canOpen: bool)
    requires ValidConfig(cfg) && c.winCur <= |cfg.chunks| && ServerOk(cfg, c, s, inits)
    requires input.Arrived? ==> UpOk(cfg, c, s, input.msg)
    requires !IsDataFor(s, input)
    ensures var reaction := S.ServerStep(s, input, canOpen);
      && ServerReactionOk(cfg, c, s, inits, reaction)
      && (reaction.server.phase == S.Receiving ==> s.phase == S.Receiving)
  {
    if input.Arrived? && s.phase == S.SettingUp {
      SetupPacketIsOk(cfg, c, s.(timeout := 0), inits, input.msg, canOpen);
    } else if input.Arrived? && s.phase == S.Listening {
      FirstPacketIsOk(cfg, c, s, inits, canOpen);
    }
  }

  lemma ServerStepIsOk(cfg: Config, c: Client, s: S.Server, inits: nat, input: Input, canOpen: bool)
    requires ValidConfig(cfg) && c.winCur <= |cfg.chunks| && ServerOk(cfg, c, s, inits)
    requires input.Arrived? ==> UpOk(cfg, c, s, input.msg)
    ensures var reaction := S.ServerStep(s, input, canOpen);
      ServerReactionOk(cfg, c, s, InitsAfter(inits, s, reaction.server), reaction)
  {
    if IsDataFor(s, input) {
      OnDataIsOk(cfg, c, s.(timeout := 0), inits, input.msg.num, input.msg.payload);
    } else {
      OtherServerStepIsOk(cfg, c, s, inits, input, canOpen);
    }
  }

  lemma StepKeepsInv(cfg: Config, sys: Sys, a: Action, sys': Sys)
    requires ValidConfig(cfg) && Inv(cfg, sys) && Step(cfg, sys, a, sys')
    ensures Inv(cfg, sys')
    ensures Grows(cfg, sys.c, sys.s, sys'.c, sys'.s)
  {
    match a
    case ClientMoves(input) =>
      if InDataPhase(sys.c) {
        DataStepIsOk(cfg, sys.c, sys.s, input);
      } else {
        SetupStepIsOk(cfg, sys.c, sys.s, input);
      }
      MessagesStayOk(cfg, sys, sys'.c, sys'.s);
    case ServerMoves(input, canOpen) =>
      ServerStepIsOk(cfg, sys.c, sys.s, sys.inits, input, canOpen);
      MessagesStayOk(cfg, sys, sys'.c, sys'.s);
  }

  lemma {:induction false} RunKeepsInv(cfg: Config, states: seq<Sys>, actions: seq<Action>, i: nat)
    requires ValidConfig(cfg) && IsRun(cfg, states, actions) && i < |states|
    ensures Inv(cfg, states[i])
  {
    if i == 0 {
      assert cfg.chunks[..0] == [];
    } else {
      RunKeepsInv(cfg, states, actions, i - 1);
      assert StepAt(cfg, states, actions, i - 1);
      StepKeepsInv(cfg, states[i - 1], actions[i - 1], states[i]);
    }
  }
}
