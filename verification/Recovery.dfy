/** Recovery by timeout, from any state of any run: exactly when it makes progress, and exactly when it
    brings the upload to its end, once nothing is lost any more. */
module Recovery {
  import opened Bytes
  import opened Packets
  import opened Receiver
  import opened ClientModel
  import opened Protocol
  import opened Theorems
  import S = ServerModel

  /** The two processes, with nothing on its way between them. */
  datatype Ends = Ends(c: Client, s: S.Server)

  /** The server takes `m` and its answer, if any, reaches the client at once. */
  function Deliver(cfg: Config, e: Ends, m: Msg): (r: Ends)
    requires ValidConfig(cfg) && e.c.winCur <= |cfg.chunks|
    ensures r.c.winCur <= |cfg.chunks|
  {
    var reaction := S.ServerStep(e.s, Arrived(m), true);
    Ends(if reaction.replies == [] then e.c
         else ClientStep(cfg, e.c, Arrived(reaction.replies[0])).client,
         reaction.server)
  }

  /** The client makes one step on silence, and what it sends gets through, and the answer too. */
  function Turn(cfg: Config, e: Ends): (r: Ends)
    requires ValidConfig(cfg) && e.c.winCur <= |cfg.chunks|
    ensures r.c.winCur <= |cfg.chunks|
  {
    var reaction := ClientStep(cfg, e.c, Silence);
    var sent := e.(c := reaction.client);
    if reaction.sends == [] then sent else Deliver(cfg, sent, reaction.sends[0])
  }

  /** A timeout exchange: the resend with its answer, and, if that is a SREJ, the packet it asks for
      with its answer. */
  function Exchange(cfg: Config, e: Ends): (r: Ends)
    requires ValidConfig(cfg) && e.c.winCur <= |cfg.chunks|
    ensures r.c.winCur <= |cfg.chunks|
  {
    var first := Turn(cfg, e);
    if first.c.st == SendDataSREJ then Turn(cfg, first) else first
  }

  /** A state of a run seen from its two ends. */
  ghost predicate Occurs(cfg: Config, e: Ends)
    requires ValidConfig(cfg)
  {
    exists sys :: Reachable(cfg, sys) && sys.c == e.c && sys.s == e.s
  }

  lemma DeliverOccurs(cfg: Config, sys: Sys, m: Msg)
    requires ValidConfig(cfg) && Reachable(cfg, sys)
    requires sys.c.winCur <= |cfg.chunks| && m in sys.up
    ensures Occurs(cfg, Deliver(cfg, Ends(sys.c, sys.s), m))
  {
    var a := ServerMoves(Arrived(m), true);
    var taken := Apply(cfg, sys, a);
    StepIsReachable(cfg, sys, a);
    var replies := S.ServerStep(sys.s, Arrived(m), true).replies;
    if replies != [] {
      assert replies[0] in taken.down;
      var b := ClientMoves(Arrived(replies[0]));
      StepIsReachable(cfg, taken, b);
      assert Reachable(cfg, Apply(cfg, taken, b));
    }
  }

  /** Exchanges are made of steps of the protocol, so they lead from runs to runs. */
  lemma TurnOccurs(cfg: Config, e: Ends)
    requires ValidConfig(cfg) && Occurs(cfg, e) && e.c.winCur <= |cfg.chunks|
    ensures Occurs(cfg, Turn(cfg, e))
  {
    var sys :| Reachable(cfg, sys) && sys.c == e.c && sys.s == e.s;
    var reaction := ClientStep(cfg, e.c, Silence);
    var a := ClientMoves(Silence);
    var moved := Apply(cfg, sys, a);
    StepIsReachable(cfg, sys, a);
    if reaction.sends != [] {
      assert reaction.sends[0] in moved.up;
      DeliverOccurs(cfg, moved, reaction.sends[0]);
    }
  }

  lemma ExchangeOccurs(cfg: Config, e: Ends)
    requires ValidConfig(cfg) && Occurs(cfg, e) && e.c.winCur <= |cfg.chunks|
    ensures Occurs(cfg, Exchange(cfg, e))
  {
    TurnOccurs(cfg, e);
    if Turn(cfg, e).c.st == SendDataSREJ {
      TurnOccurs(cfg, Turn(cfg, e));
    }
  }

  /** What the invariant says of the two ends. */
  predicate EndsOk(cfg: Config, e: Ends) {
    && ClientOk(cfg, e.c, e.s)
    && ServerOk(cfg, e.c, e.s, InitsOf(e.s))
  }

  function InitsOf(s: S.Server): nat {
    if s.phase == S.Receiving then 1 else 0
  }

  lemma InitsFollowPhase(cfg: Config, c: Client, s: S.Server, inits: nat)
    requires c.winCur <= |cfg.chunks| && ServerOk(cfg, c, s, inits)
    ensures ServerOk(cfg, c, s, InitsOf(s))
  {
  }

  lemma OccursOk(cfg: Config, e: Ends)
    requires ValidConfig(cfg) && Occurs(cfg, e)
    ensures EndsOk(cfg, e)
  {
    var sys :| Reachable(cfg, sys) && sys.c == e.c && sys.s == e.s;
    ReachableInv(cfg, sys);
  }

  lemma ServerStepKeepsClientOk(cfg: Config, c: Client, s: S.Server, s': S.Server)
    requires ClientOk(cfg, c, s) && Grows(cfg, c, s, c, s')
    ensures ClientOk(cfg, c, s')
  {
  }

  lemma AnswerKeepsServerOk(cfg: Config, c: Client, c': Client, s: S.Server)
    requires c.winCur <= c'.winCur <= |cfg.chunks| && ServerOk(cfg, c, s, InitsOf(s))
    ensures ServerOk(cfg, c', s, InitsOf(s))
  {
  }

  /** Exchanges keep the invariant of the two ends. */
  lemma DeliverKeepsEndsOk(cfg: Config, e: Ends, m: Msg)
    requires ValidConfig(cfg) && EndsOk(cfg, e) && UpOk(cfg, e.c, e.s, m)
    ensures EndsOk(cfg, Deliver(cfg, e, m))
  {
    var reaction := S.ServerStep(e.s, Arrived(m), true);
    ServerStepIsOk(cfg, e.c, e.s, InitsOf(e.s), Arrived(m), true);
    InitsFollowPhase(cfg, e.c, reaction.server,
                     InitsAfter(InitsOf(e.s), e.s, reaction.server));
    ServerStepKeepsClientOk(cfg, e.c, e.s, reaction.server);
    if reaction.replies != [] {
      var input := Arrived(reaction.replies[0]);
      ClientStepIsOk(cfg, e.c, reaction.server, input);
      AnswerKeepsServerOk(cfg, e.c, ClientStep(cfg, e.c, input).client, reaction.server);
    }
  }

  lemma ClientStepIsOk(cfg: Config, c: Client, s: S.Server, input: Input)
    requires ValidConfig(cfg) && c.winCur <= |cfg.chunks|
    requires ClientOk(cfg, c, s) && RxOk(cfg.chunks, c.winCur, s.rx)
    requires input.Arrived? ==> DownOk(cfg, c, s, input.msg)
    ensures ClientReactionOk(cfg, c, s, ClientStep(cfg, c, input))
  {
    if InDataPhase(c) {
      DataStepIsOk(cfg, c, s, input);
    } else {
      SetupStepIsOk(cfg, c, s, input);
    }
  }

  lemma TurnKeepsEndsOk(cfg: Config, e: Ends)
    requires ValidConfig(cfg) && EndsOk(cfg, e)
    ensures EndsOk(cfg, Turn(cfg, e))
  {
    ClientStepIsOk(cfg, e.c, e.s, Silence);
    var reaction := ClientStep(cfg, e.c, Silence);
    if reaction.sends != [] {
      DeliverKeepsEndsOk(cfg, e.(c := reaction.client), reaction.sends[0]);
    }
  }

  /** The server after data packet `n` of the client. */
  function AfterData(cfg: Config, s: S.Server, n: nat): S.ServerReaction
    requires 1 <= n <= |cfg.chunks|
  {
    S.ServerStep(s, Arrived(Data(n, cfg.chunks[n - 1])), true)
  }

  // ---- What a data packet leads to ----

  /** The client after it hears RR `n`. */
  function AfterRR(cfg: Config, c: Client, n: nat): Client
    requires 1 <= n
  {
    c.(winMin := n - 1, winMax := n - 1 + cfg.winSize, timeout := 0,
       st := if c.doneTransmitting && n == c.winCur + 1 then SendEofAndQuit else SendData)
  }

  function AfterSREJ(c: Client, n: nat): Client {
    c.(timeout := 0, srejNum := n, st := SendDataSREJ)
  }

  /** The client is at one of the two `select_call`s between data packets. */
  predicate Polls(c: Client) {
    c.st in {ReceiveDataWindowOpen, ReceiveDataWindowClosed}
  }

  lemma AnswerIsTaken(cfg: Config, c: Client, n: nat)
    requires ValidConfig(cfg) && Polls(c) && c.winCur <= |cfg.chunks| && 1 <= n <= c.winCur + 1
    ensures ClientStep(cfg, c, Arrived(RR(n))).client == AfterRR(cfg, c, n)
    ensures ClientStep(cfg, c, Arrived(SREJ(n))).client == AfterSREJ(c, n)
  {
  }

  /** What a live server makes of data packet `n`. */
  lemma ServerTakesData(cfg: Config, e: Ends, n: nat)
    requires ValidConfig(cfg) && EndsOk(cfg, e) && 1 <= n <= e.c.winCur
    requires S.AllGood(e.s) && e.s.phase != S.Closed
    ensures var r, rx := AfterData(cfg, e.s, n), e.s.rx;
      && r.server.phase == S.Receiving && S.AllGood(r.server)
      && r.server.rx.next <= e.c.winCur + 1
      && (r.server.rx.held != map[] ==> r.server.rx.next <= e.c.winCur)
      && if n == rx.next then
           && r.server.rx.next > n && !r.server.rx.srejOut
           && r.replies == if r.server.rx.held == map[] then [RR(r.server.rx.next)] else []
         else if n < rx.next then
           && r.server.rx == rx
           && r.replies == [if rx.held == map[] then RR(rx.next) else SREJ(rx.next)]
         else
           && r.server.rx.next == rx.next && r.server.rx.srejOut
           && r.replies == if rx.srejOut then [] else [SREJ(rx.next)]
  {
    TakeKeepsRxOk(cfg.winSize, cfg.chunks, e.c.winCur, e.s.rx, n);
    var r := Take(cfg.winSize, e.s.rx, n, cfg.chunks[n - 1]).rx;
    if n == e.s.rx.next {
      DrainWritesTheMaximalRun(Expected(e.s.rx, cfg.chunks[n - 1]));
    }
    if r.held != map[] {
      var k :| k in r.held;
    }
  }

  /** What data packet `n` leads to at both ends. */
  lemma DataDelivered(cfg: Config, e: Ends, n: nat)
    requires ValidConfig(cfg) && EndsOk(cfg, e) && 1 <= n <= e.c.winCur
    requires S.AllGood(e.s) && e.s.phase != S.Closed && Polls(e.c)
    ensures var r, rx := Deliver(cfg, e, Data(n, cfg.chunks[n - 1])), e.s.rx;
      && r.s == AfterData(cfg, e.s, n).server
      && r.s.phase == S.Receiving && S.AllGood(r.s)
      && r.s.rx.next <= e.c.winCur + 1
      && if n == rx.next then
           && r.s.rx.next > n && !r.s.rx.srejOut
           && (r.s.rx.held != map[] ==> r.s.rx.next <= e.c.winCur)
           && r.c == if r.s.rx.held == map[] then AfterRR(cfg, e.c, r.s.rx.next) else e.c
         else if n < rx.next then
           && r.s.rx == rx
           && (rx.held != map[] ==> rx.next <= e.c.winCur)
           && r.c == if rx.held == map[] then AfterRR(cfg, e.c, rx.next) else AfterSREJ(e.c, rx.next)
         else
           && r.s.rx.next == rx.next && r.s.rx.srejOut
           && r.c == if rx.srejOut then e.c else AfterSREJ(e.c, rx.next)
  {
    ServerTakesData(cfg, e, n);
    AnswerIsTaken(cfg, e.c, AfterData(cfg, e.s, n).server.rx.next);
  }

  // ---- One turn of a waiting client ----

  /** The client waits with its window closed, and the server is alive. */
  predicate Waiting(e: Ends) {
    e.c.st == ReceiveDataWindowClosed && e.s.phase != S.Closed
  }

  /** The packet in the slot of `winMin`, the one a timeout sends again. */
  function Resent(cfg: Config, e: Ends): Resend
    requires ValidConfig(cfg)
  {
    InSlot(e.c.winCur, cfg.winSize, e.c.winMin)
  }

  /** Where that packet lies. */
  lemma ResentIsLate(cfg: Config, e: Ends)
    requires ValidConfig(cfg) && EndsOk(cfg, e)
    ensures e.c.winMin < e.c.winCur ==> Resent(cfg, e).Packet?
    ensures Resent(cfg, e).Packet? ==>
      var j := Resent(cfg, e).index;
      && e.c.winCur - cfg.winSize <= j < e.c.winCur <= |cfg.chunks|
      && (e.c.winMin < e.c.winCur ==> e.c.winMin <= j)
      && (e.c.winMin < e.c.winCur <= e.c.winMin + cfg.winSize ==> j == e.c.winMin)
  {
    if Resent(cfg, e).Packet? {
      SlotOfResend(e.c.winCur, cfg.winSize, e.c.winMin);
    }
    if e.c.winMin < e.c.winCur {
      SlotHoldsTheLatest(e.c.winCur, cfg.winSize, e.c.winMin, e.c.winMin);
      if e.c.winCur <= e.c.winMin + cfg.winSize {
        RingHoldsTheLastPackets(e.c.winCur, cfg.winSize, e.c.winMin);
      }
    }
  }

  /** A turn in which the client sends is the delivery of what it sends. */
  lemma TurnDelivers(cfg: Config, e: Ends, c: Client, m: Msg)
    requires ValidConfig(cfg) && e.c.winCur <= |cfg.chunks|
    requires ClientStep(cfg, e.c, Silence) == ClientReaction(c, [m])
    ensures c.winCur <= |cfg.chunks| && Turn(cfg, e) == Deliver(cfg, Ends(c, e.s), m)
  {
    assert e.(c := c) == Ends(c, e.s);
  }

  lemma QuietTurn(cfg: Config, e: Ends, c: Client)
    requires ValidConfig(cfg) && e.c.winCur <= |cfg.chunks|
    requires ClientStep(cfg, e.c, Silence) == ClientReaction(c, [])
    ensures Turn(cfg, e) == Ends(c, e.s)
  {
  }

  lemma WaitingStep(cfg: Config, c: Client)
    requires ValidConfig(cfg) && c.winCur <= |cfg.chunks| && c.st == ReceiveDataWindowClosed
    ensures var late := c.(timeout := c.timeout + 1);
      ClientStep(cfg, c, Silence)
        == if c.timeout >= 10 then ClientReaction(late.(st := TimeoutOnServer), [])
           else match InSlot(c.winCur, cfg.winSize, c.winMin)
                case NeverFilled => ClientReaction(late.(st := Aborted), [])
                case Packet(j) =>
                  ClientReaction(late.(st := OpenOrClosed(c)), [Data(j + 1, cfg.chunks[j])])
  {
  }

  /** A timeout: the eleventh gives up, an empty slot aborts, any other slot is sent again. */
  lemma WaitingTurn(cfg: Config, e: Ends)
    requires ValidConfig(cfg) && EndsOk(cfg, e) && Waiting(e)
    ensures S.AllGood(e.s) && e.c.timeout <= 10
    ensures var late := e.c.(timeout := e.c.timeout + 1);
      if e.c.timeout == 10 then Turn(cfg, e) == Ends(late.(st := TimeoutOnServer), e.s)
      else if Resent(cfg, e).NeverFilled? then Turn(cfg, e) == Ends(late.(st := Aborted), e.s)
      else
        var j := Resent(cfg, e).index;
        j < |cfg.chunks| &&
        Turn(cfg, e) == Deliver(cfg, Ends(late, e.s), Data(j + 1, cfg.chunks[j]))
  {
    var late := e.c.(timeout := e.c.timeout + 1);
    WaitingStep(cfg, e.c);
    if e.c.timeout == 10 {
      QuietTurn(cfg, e, late.(st := TimeoutOnServer));
    } else if Resent(cfg, e).NeverFilled? {
      QuietTurn(cfg, e, late.(st := Aborted));
    } else {
      var j := Resent(cfg, e).index;
      TurnDelivers(cfg, e, late, Data(j + 1, cfg.chunks[j]));
    }
  }

  lemma SREJStep(cfg: Config, c: Client) returns (j: nat)
    requires ValidConfig(cfg) && c.st == SendDataSREJ && 1 <= c.srejNum <= c.winCur <= |cfg.chunks|
    ensures j < c.winCur && c.winCur - cfg.winSize <= j
    ensures c.winCur < c.srejNum + cfg.winSize ==> j == c.srejNum - 1
    ensures ClientStep(cfg, c, Silence)
         == ClientReaction(c.(st := OpenOrClosed(c)), [Data(j + 1, cfg.chunks[j])])
  {
    AskedForSlot(cfg, c, c.srejNum);
    j := InSlot(c.winCur, cfg.winSize, c.srejNum - 1).index;
  }

  /** Where the packet in the slot of packet `n` lies. */
  lemma AskedForSlot(cfg: Config, c: Client, n: nat)
    requires ValidConfig(cfg) && 1 <= n <= c.winCur <= |cfg.chunks|
    ensures var r := InSlot(c.winCur, cfg.winSize, n - 1);
      && r.Packet? && r.index < |cfg.chunks| && c.winCur - cfg.winSize <= r.index
      && (c.winCur < n + cfg.winSize ==> r.index == n - 1)
  {
    SlotHoldsTheLatest(c.winCur, cfg.winSize, n - 1, n - 1);
    if c.winCur < n + cfg.winSize {
      RingHoldsTheLastPackets(c.winCur, cfg.winSize, n - 1);
    }
  }

  /** A SREJ: the slot of the packet asked for is sent. */
  lemma SREJTurn(cfg: Config, e: Ends) returns (j: nat)
    requires ValidConfig(cfg) && EndsOk(cfg, e) && e.c.st == SendDataSREJ
    requires 1 <= e.c.srejNum <= e.c.winCur
    ensures j < e.c.winCur <= |cfg.chunks| && e.c.winCur - cfg.winSize <= j
    ensures e.c.winCur < e.c.srejNum + cfg.winSize ==> j == e.c.srejNum - 1
    ensures Turn(cfg, e) == Deliver(cfg, Ends(e.c.(st := OpenOrClosed(e.c)), e.s),
                                    Data(j + 1, cfg.chunks[j]))
  {
    j := SREJStep(cfg, e.c);
    TurnDelivers(cfg, e, e.c.(st := OpenOrClosed(e.c)), Data(j + 1, cfg.chunks[j]));
  }

  lemma ResentSREJIsOk(cfg: Config, e: Ends, c: Client)
    requires EndsOk(cfg, e) && e.c.st == SendDataSREJ && c == e.c.(st := OpenOrClosed(e.c))
    ensures EndsOk(cfg, Ends(c, e.s)) && Polls(c)
  {
  }

  lemma ResentIsSent(cfg: Config, e: Ends) returns (late: Client)
    requires ValidConfig(cfg) && EndsOk(cfg, e) && Waiting(e) && e.c.timeout < 10
    requires Resent(cfg, e).Packet?
    ensures late == e.c.(timeout := e.c.timeout + 1)
    ensures EndsOk(cfg, Ends(late, e.s)) && S.AllGood(e.s)
    ensures var j := Resent(cfg, e).index;
      && j < |cfg.chunks|
      && Turn(cfg, e) == Deliver(cfg, Ends(late, e.s), Data(j + 1, cfg.chunks[j]))
  {
    late := e.c.(timeout := e.c.timeout + 1);
    WaitingTurn(cfg, e);
  }

  /** What a timeout with a packet to send again leads to. */
  lemma ResentTurn(cfg: Config, e: Ends)
    requires ValidConfig(cfg) && EndsOk(cfg, e) && Waiting(e) && e.c.timeout < 10
    requires Resent(cfg, e).Packet?
    ensures var r, rx, n := Turn(cfg, e), e.s.rx, Resent(cfg, e).index + 1;
      var late := e.c.(timeout := e.c.timeout + 1);
      && EndsOk(cfg, r) && r.s.phase == S.Receiving && S.AllGood(r.s)
      && n <= |cfg.chunks| && r.s == AfterData(cfg, e.s, n).server
      && if n == rx.next then
           && r.s.rx.next > n && !r.s.rx.srejOut
           && r.c == if r.s.rx.held == map[] then AfterRR(cfg, late, r.s.rx.next) else late
         else if n < rx.next then
           && r.s.rx == rx
           && (rx.held != map[] ==> rx.next <= e.c.winCur)
           && r.c == if rx.held == map[] then AfterRR(cfg, late, rx.next)
                     else AfterSREJ(late, rx.next)
         else
           && r.s.rx.next == rx.next && r.s.rx.srejOut
           && r.c == if rx.srejOut then late else AfterSREJ(late, rx.next)
  {
    TurnKeepsEndsOk(cfg, e);
    var late := ResentIsSent(cfg, e);
    DataDelivered(cfg, Ends(late, e.s), Resent(cfg, e).index + 1);
  }

  // ---- Progress ----

  /** How far the two ends are. */
  function Progress(e: Ends): nat {
    e.c.winMin + e.s.rx.next
  }

  /** What the server does about the resent packet: it has it, it awaits it, or, if the packet is a
      later one, it asks for the packet it awaits, and the client still has that. */
  predicate ResendHelps(cfg: Config, e: Ends)
    requires ValidConfig(cfg)
  {
    match Resent(cfg, e)
    case NeverFilled => false
    case Packet(j) =>
      j + 1 <= e.s.rx.next || (!e.s.rx.srejOut && e.c.winCur < e.s.rx.next + cfg.winSize)
  }

  lemma SREJTurnProgress(cfg: Config, e: Ends)
    requires ValidConfig(cfg) && EndsOk(cfg, e) && e.c.st == SendDataSREJ
    requires S.AllGood(e.s) && e.s.phase != S.Closed
    requires e.c.srejNum == e.s.rx.next <= e.c.winCur
    ensures var r := Turn(cfg, e);
      && EndsOk(cfg, r) && r.c.winMin >= e.c.winMin && r.s.rx.next >= e.s.rx.next
      && (e.c.winCur < e.s.rx.next + cfg.winSize ==> r.s.rx.next > e.s.rx.next)
      && (e.c.winCur >= e.s.rx.next + cfg.winSize && e.s.rx.srejOut ==>
            r.s.rx.next == e.s.rx.next && r.s.rx.srejOut && r.s.phase == S.Receiving
            && r.c == e.c.(st := OpenOrClosed(e.c)))
  {
    var j := SREJTurn(cfg, e);
    TurnKeepsEndsOk(cfg, e);
    SREJDelivered(cfg, e, j);
  }

  lemma SREJDelivered(cfg: Config, e: Ends, j: nat)
    requires ValidConfig(cfg) && EndsOk(cfg, e) && e.c.st == SendDataSREJ
    requires S.AllGood(e.s) && e.s.phase != S.Closed && e.s.rx.next <= e.c.winCur
    requires e.c.winCur - cfg.winSize <= j < e.c.winCur
    requires e.c.winCur < e.s.rx.next + cfg.winSize ==> j == e.s.rx.next - 1
    ensures var polling := e.c.(st := OpenOrClosed(e.c));
      var r := Deliver(cfg, Ends(polling, e.s), Data(j + 1, cfg.chunks[j]));
      && r.c.winMin >= e.c.winMin && r.s.rx.next >= e.s.rx.next
      && (e.c.winCur < e.s.rx.next + cfg.winSize ==> r.s.rx.next > e.s.rx.next)
      && (e.c.winCur >= e.s.rx.next + cfg.winSize && e.s.rx.srejOut ==>
            r.s.rx.next == e.s.rx.next && r.s.rx.srejOut && r.s.phase == S.Receiving
            && r.c == polling)
  {
    var polling := e.c.(st := OpenOrClosed(e.c));
    ResentSREJIsOk(cfg, e, polling);
    DataDelivered(cfg, Ends(polling, e.s), j + 1);
  }

  lemma EarlierPacketMakesProgress(cfg: Config, e: Ends)
    requires ValidConfig(cfg) && EndsOk(cfg, e) && Waiting(e) && e.c.timeout < 10
    requires Resent(cfg, e).Packet? && Resent(cfg, e).index + 1 <= e.s.rx.next
    ensures Progress(Exchange(cfg, e)) > Progress(e) <==> e.c.winMin < e.c.winCur
  {
    ResentTurn(cfg, e);
    ResentIsLate(cfg, e);
    var first := Turn(cfg, e);
    if first.c.st == SendDataSREJ {
      SREJTurnProgress(cfg, first);
    }
  }

  lemma LaterPacketMakesProgress(cfg: Config, e: Ends)
    requires ValidConfig(cfg) && EndsOk(cfg, e) && Waiting(e) && e.c.timeout < 10
    requires Resent(cfg, e).Packet? && Resent(cfg, e).index + 1 > e.s.rx.next
    ensures e.c.winMin < e.c.winCur
    ensures Progress(Exchange(cfg, e)) > Progress(e) <==>
              !e.s.rx.srejOut && e.c.winCur < e.s.rx.next + cfg.winSize
  {
    ResentTurn(cfg, e);
    ResentIsLate(cfg, e);
    var first := Turn(cfg, e);
    if first.c.st == SendDataSREJ {
      SREJTurnProgress(cfg, first);
    }
  }

  /** Recovery progress, exactly: a loss-free timeout exchange advances one of the two ends if and only
      if the client has a timeout left and packets outstanding, and the resend helps. */
  lemma ExchangeMakesProgressExactly(cfg: Config, e: Ends)
    requires ValidConfig(cfg) && Occurs(cfg, e) && Waiting(e)
    ensures e.c.winCur <= |cfg.chunks|
    ensures Progress(Exchange(cfg, e)) > Progress(e) <==>
              e.c.timeout < 10 && e.c.winMin < e.c.winCur && ResendHelps(cfg, e)
  {
    OccursOk(cfg, e);
    if e.c.timeout == 10 || Resent(cfg, e).NeverFilled? {
      WaitingTurn(cfg, e);
    } else if Resent(cfg, e).index + 1 <= e.s.rx.next {
      EarlierPacketMakesProgress(cfg, e);
    } else {
      LaterPacketMakesProgress(cfg, e);
    }
  }

  /** Within its window the client always makes progress, to a state of a run again. */
  lemma ExchangeMakesProgress(cfg: Config, e: Ends)
    requires ValidConfig(cfg) && Occurs(cfg, e) && Waiting(e)
    requires e.c.timeout < 10 && e.c.winMin < e.c.winCur <= e.c.winMax
    ensures e.c.winCur <= |cfg.chunks| && Progress(Exchange(cfg, e)) > Progress(e)
    ensures Occurs(cfg, Exchange(cfg, e))
  {
    OccursOk(cfg, e);
    ExchangeOccurs(cfg, e);
    ResentIsLate(cfg, e);
    ExchangeMakesProgressExactly(cfg, e);
  }

  // ---- The end of an upload ----

  /** What comes of the two ends once nothing is lost any more: `k` turns of the client, each with its
      answer. The server's own timeouts do not strike. */
  function Turns(cfg: Config, e: Ends, k: nat): (r: Ends)
    requires ValidConfig(cfg) && e.c.winCur <= |cfg.chunks|
    ensures r.c.winCur <= |cfg.chunks|
    decreases k
  {
    if k == 0 then e else Turns(cfg, Turn(cfg, e), k - 1)
  }

  /** What turns lead to from a state of a run is a state of a run. */
  lemma {:induction false} TurnsOccur(cfg: Config, e: Ends, k: nat)
    requires ValidConfig(cfg) && Occurs(cfg, e) && e.c.winCur <= |cfg.chunks|
    ensures Occurs(cfg, Turns(cfg, e, k))
    decreases k
  {
    if k > 0 {
      TurnOccurs(cfg, e);
      TurnsOccur(cfg, Turn(cfg, e), k - 1);
    }
  }

  /** The client has been told, by ACK_EOF, that the upload is complete. */
  predicate FinishesAfter(cfg: Config, e: Ends, k: nat)
    requires ValidConfig(cfg) && e.c.winCur <= |cfg.chunks|
  {
    Turns(cfg, e, k).c.st == Done(true)
  }

  /** A waiting client can still bring its upload to the end. It has a timeout left and a packet in
      the slot of `winMin`, and that packet helps: the server has it; or awaits it, and has no gap
      behind it, so that it answers, or the client has a timeout more; or has asked for none yet, and
      what it awaits is still in the ring. */
  predicate CanRecover(cfg: Config, e: Ends)
    requires ValidConfig(cfg) && e.c.winCur <= |cfg.chunks|
  {
    && e.c.timeout < 10
    && match Resent(cfg, e)
       case NeverFilled => false
       case Packet(j) =>
         if j + 1 == e.s.rx.next then e.c.timeout < 9 || NoGap(e.s.rx)
         else if j + 1 < e.s.rx.next then true
         else !e.s.rx.srejOut && e.c.winCur < e.s.rx.next + cfg.winSize
  }

  /** The states from which loss-free turns lead to the end. A short file must not be acknowledged
      before its end is seen. */
  predicate Hopeful(cfg: Config, e: Ends)
    requires ValidConfig(cfg)
  {
    var c := e.c;
    && EndsOk(cfg, e) && e.s.phase != S.Closed
    && match c.st
       case ReceiveDataWindowClosed => CanRecover(cfg, e)
       case ReceiveDataWindowOpen => c.timeout == 0 && |cfg.chunks| >= cfg.winSize
       case SendData =>
         && c.timeout == 0 && WithinWindow(cfg, c)
         && (|cfg.chunks| >= cfg.winSize || (c.doneTransmitting && c.winMin < c.winCur))
       case SendDataSREJ =>
         && c.timeout == 0 && c.srejNum == e.s.rx.next
         && e.s.rx.next <= c.winCur < e.s.rx.next + cfg.winSize
         && (|cfg.chunks| >= cfg.winSize || c.doneTransmitting)
       case SendEofAndQuit => true
       case _ => false
  }

  /** A bound on the turns before END_OF_FILE is sent. */
  function TurnsLeft(cfg: Config, e: Ends): int {
    var behind := 2 * |cfg.chunks| + 1 - Progress(e);
    var rank := match e.c.st
      case ReceiveDataWindowOpen => 3
      case SendData => 2
      case ReceiveDataWindowClosed => 1
      case _ => 0;
    rank + if e.c.doneTransmitting then 3 * behind
           else 4 * behind + 4 * (|cfg.chunks| - e.c.winCur)
  }

  /** What each turn from a hopeful state must do, short of the end of file. */
  predicate Advances(cfg: Config, e: Ends, r: Ends)
    requires ValidConfig(cfg)
  {
    Hopeful(cfg, r) && TurnsLeft(cfg, r) < TurnsLeft(cfg, e)
  }

  /** More progress means fewer turns left. */
  lemma ProgressLeavesLess(cfg: Config, e: Ends, r: Ends)
    requires r.c.winCur == e.c.winCur && r.c.doneTransmitting == e.c.doneTransmitting
    requires Progress(r) > Progress(e)
    requires r.c.st == ReceiveDataWindowOpen ==> !r.c.doneTransmitting
    ensures TurnsLeft(cfg, r) < TurnsLeft(cfg, e)
  {
  }

  /** An RR that leaves room is hopeful. */
  lemma AfterRRIsHopeful(cfg: Config, c: Client, n: nat, r: Ends)
    requires ValidConfig(cfg) && EndsOk(cfg, r) && r.s.phase != S.Closed
    requires 1 <= n == r.s.rx.next && r.c == AfterRR(cfg, c, n) && c.winCur < n - 1 + cfg.winSize
    requires |cfg.chunks| >= cfg.winSize || c.doneTransmitting
    ensures Hopeful(cfg, r)
  {
  }

  lemma OpenTurnAdvances(cfg: Config, e: Ends)
    requires ValidConfig(cfg) && Hopeful(cfg, e) && e.c.st == ReceiveDataWindowOpen
    ensures Advances(cfg, e, Turn(cfg, e))
  {
    TurnKeepsEndsOk(cfg, e);
  }

  /** Within its window a waiting client that was just answered can recover. */
  lemma WithinWindowCanRecover(cfg: Config, e: Ends)
    requires ValidConfig(cfg) && EndsOk(cfg, e) && Waiting(e) && e.c.timeout < 9
    requires e.c.winMin < e.c.winCur <= e.c.winMax
    ensures CanRecover(cfg, e)
  {
    ResentIsLate(cfg, e);
  }

  /** A client with everything acknowledged can recover once the slots have wrapped around. */
  lemma AllAcknowledgedCanRecover(cfg: Config, e: Ends)
    requires ValidConfig(cfg) && EndsOk(cfg, e) && Waiting(e) && e.c.timeout < 10
    requires e.c.winMin == e.c.winCur
    ensures CanRecover(cfg, e) <==> e.c.winCur >= cfg.winSize
  {
    var w := cfg.winSize;
    if e.c.winCur >= w {
      NextLap(e.c.winCur - w, w);
      SlotHoldsTheLatest(e.c.winCur, w, e.c.winCur, e.c.winCur - w);
    } else {
      RemainderBound(e.c.winCur, w);
    }
  }

  /** So can one whose resend the server has already. */
  lemma EarlierPacketCanRecover(cfg: Config, e: Ends)
    requires ValidConfig(cfg) && EndsOk(cfg, e) && e.c.timeout < 10
    requires Resent(cfg, e).Packet? && Resent(cfg, e).index + 1 < e.s.rx.next
    ensures CanRecover(cfg, e)
  {
  }

  /** So can one that was just heard, while what the server awaits is still in the ring. */
  lemma AnsweredCanRecover(cfg: Config, e: Ends)
    requires ValidConfig(cfg) && EndsOk(cfg, e) && e.c.timeout < 9 && e.c.winMin < e.c.winCur
    requires !e.s.rx.srejOut && !Overwritten(cfg, e.c, e.s)
    ensures CanRecover(cfg, e)
  {
    ResentIsLate(cfg, e);
  }

  lemma EndOfChunksAdvances(cfg: Config, e: Ends)
    requires ValidConfig(cfg) && Hopeful(cfg, e) && e.c.st == SendData
    requires e.c.winCur == |cfg.chunks|
    ensures Advances(cfg, e, Turn(cfg, e))
  {
    TurnKeepsEndsOk(cfg, e);
    var r := Turn(cfg, e);
    if r.c.winMin < r.c.winCur {
      WithinWindowCanRecover(cfg, r);
    } else {
      AllAcknowledgedCanRecover(cfg, r);
    }
  }

  /** Sending the next chunk. */
  lemma ChunkIsSent(cfg: Config, e: Ends) returns (polling: Client)
    requires ValidConfig(cfg) && EndsOk(cfg, e) && e.c.st == SendData && e.c.winCur < |cfg.chunks|
    ensures var sent := e.c.(winCur := e.c.winCur + 1);
      polling == sent.(st := OpenOrClosed(sent))
    ensures EndsOk(cfg, Ends(polling, e.s)) && Polls(polling)
    ensures Turn(cfg, e) == Deliver(cfg, Ends(polling, e.s),
                                    Data(e.c.winCur + 1, cfg.chunks[e.c.winCur]))
  {
    polling := ClientStep(cfg, e.c, Silence).client;
    ClientStepIsOk(cfg, e.c, e.s, Silence);
    AnswerKeepsServerOk(cfg, e.c, polling, e.s);
  }

  /** ... with its answer. */
  lemma ChunkTurn(cfg: Config, e: Ends)
    requires ValidConfig(cfg) && EndsOk(cfg, e) && e.s.phase != S.Closed
    requires e.c.st == SendData && e.c.winCur < |cfg.chunks|
    ensures var r, rx, m := Turn(cfg, e), e.s.rx, e.c.winCur + 1;
      var sent := e.c.(winCur := m);
      var polling := sent.(st := OpenOrClosed(sent));
      && EndsOk(cfg, r) && r.s.phase == S.Receiving
      && if m == rx.next then r.s.rx.next == m + 1 && r.c == AfterRR(cfg, polling, m + 1)
         else
           && m > rx.next && r.s.rx.next == rx.next
           && r.c == if rx.srejOut then polling else AfterSREJ(polling, rx.next)
  {
    TurnKeepsEndsOk(cfg, e);
    var polling := ChunkIsSent(cfg, e);
    DataDelivered(cfg, Ends(polling, e.s), e.c.winCur + 1);
  }

  lemma ChunkTurnAdvances(cfg: Config, e: Ends)
    requires ValidConfig(cfg) && Hopeful(cfg, e) && e.c.st == SendData
    requires e.c.winCur < |cfg.chunks|
    ensures Advances(cfg, e, Turn(cfg, e))
  {
    ChunkTurn(cfg, e);
    var r := Turn(cfg, e);
    if r.c.st == ReceiveDataWindowClosed {
      WithinWindowCanRecover(cfg, r);
    }
  }

  /** What the packet asked for by a SREJ leads to, while the ring still has it. */
  lemma AskedForTurn(cfg: Config, e: Ends)
    requires ValidConfig(cfg) && Hopeful(cfg, e) && e.c.st == SendDataSREJ
    ensures var r := Turn(cfg, e);
      var polling := e.c.(st := OpenOrClosed(e.c));
      && EndsOk(cfg, r) && r.s.phase == S.Receiving
      && r.s.rx.next > e.s.rx.next && !r.s.rx.srejOut
      && r.c == if r.s.rx.held == map[] then AfterRR(cfg, polling, r.s.rx.next) else polling
  {
    var j := SREJTurn(cfg, e);
    TurnKeepsEndsOk(cfg, e);
    var polling := e.c.(st := OpenOrClosed(e.c));
    ResentSREJIsOk(cfg, e, polling);
    DataDelivered(cfg, Ends(polling, e.s), j + 1);
  }

  lemma SREJTurnAdvances(cfg: Config, e: Ends)
    requires ValidConfig(cfg) && Hopeful(cfg, e) && e.c.st == SendDataSREJ
    ensures Advances(cfg, e, Turn(cfg, e))
  {
    AskedForTurn(cfg, e);
    var r, polling := Turn(cfg, e), e.c.(st := OpenOrClosed(e.c));
    ProgressLeavesLess(cfg, e, r);
    if r.s.rx.held == map[] {
      AfterRRIsHopeful(cfg, polling, r.s.rx.next, r);
    } else if polling.st == ReceiveDataWindowClosed {
      AnsweredCanRecover(cfg, r);
    }
  }

  lemma AwaitedPacketEmpties(cfg: Config, e: Ends)
    requires ValidConfig(cfg) && EndsOk(cfg, e) && S.AllGood(e.s) && e.s.phase != S.Closed
    requires e.s.rx.next <= |cfg.chunks|
    ensures AfterData(cfg, e.s, e.s.rx.next).server.rx.held == map[] <==> NoGap(e.s.rx)
  {
    DrainEmptiesExactly(e.s.rx, cfg.chunks[e.s.rx.next - 1]);
  }

  lemma AwaitedPacketTurn(cfg: Config, e: Ends)
    requires ValidConfig(cfg) && EndsOk(cfg, e) && Waiting(e) && e.c.timeout < 10
    requires Resent(cfg, e).Packet? && Resent(cfg, e).index + 1 == e.s.rx.next
    ensures var r, late := Turn(cfg, e), e.c.(timeout := e.c.timeout + 1);
      && EndsOk(cfg, r) && r.s.phase == S.Receiving && r.s.rx.next > e.s.rx.next
      && r.c == if NoGap(e.s.rx) then AfterRR(cfg, late, r.s.rx.next) else late
  {
    ResentTurn(cfg, e);
    AwaitedPacketEmpties(cfg, e);
  }

  lemma AnsweredPacketAdvances(cfg: Config, e: Ends)
    requires ValidConfig(cfg) && Hopeful(cfg, e) && e.c.st == ReceiveDataWindowClosed
    requires Resent(cfg, e).index + 1 == e.s.rx.next
    requires NoGap(e.s.rx)
    ensures Advances(cfg, e, Turn(cfg, e))
  {
    AwaitedPacketTurn(cfg, e);
    ResentIsLate(cfg, e);
  }

  lemma UnansweredPacketAdvances(cfg: Config, e: Ends)
    requires ValidConfig(cfg) && Hopeful(cfg, e) && e.c.st == ReceiveDataWindowClosed
    requires Resent(cfg, e).index + 1 == e.s.rx.next
    requires !NoGap(e.s.rx)
    ensures Advances(cfg, e, Turn(cfg, e))
  {
    AwaitedPacketTurn(cfg, e);
    var r := Turn(cfg, e);
    assert Resent(cfg, r) == Resent(cfg, e);
    EarlierPacketCanRecover(cfg, r);
  }

  lemma AwaitedPacketAdvances(cfg: Config, e: Ends)
    requires ValidConfig(cfg) && Hopeful(cfg, e) && e.c.st == ReceiveDataWindowClosed
    requires Resent(cfg, e).index + 1 == e.s.rx.next
    ensures Advances(cfg, e, Turn(cfg, e))
  {
    if NoGap(e.s.rx) {
      AnsweredPacketAdvances(cfg, e);
    } else {
      UnansweredPacketAdvances(cfg, e);
    }
  }

  lemma EarlierPacketAdvances(cfg: Config, e: Ends)
    requires ValidConfig(cfg) && Hopeful(cfg, e) && e.c.st == ReceiveDataWindowClosed
    requires Resent(cfg, e).index + 1 < e.s.rx.next
    ensures Advances(cfg, e, Turn(cfg, e))
  {
    ResentTurn(cfg, e);
    ResentIsLate(cfg, e);
    var r, late := Turn(cfg, e), e.c.(timeout := e.c.timeout + 1);
    if e.s.rx.held == map[] {
      AfterRRIsHopeful(cfg, late, r.s.rx.next, r);
    }
  }

  lemma LaterPacketAdvances(cfg: Config, e: Ends)
    requires ValidConfig(cfg) && Hopeful(cfg, e) && e.c.st == ReceiveDataWindowClosed
    requires Resent(cfg, e).index + 1 > e.s.rx.next
    ensures Advances(cfg, e, Turn(cfg, e))
  {
    ResentTurn(cfg, e);
    ResentIsLate(cfg, e);
  }

  lemma WaitingTurnAdvances(cfg: Config, e: Ends)
    requires ValidConfig(cfg) && Hopeful(cfg, e) && e.c.st == ReceiveDataWindowClosed
    ensures Advances(cfg, e, Turn(cfg, e))
  {
    var n := Resent(cfg, e).index + 1;
    if n == e.s.rx.next {
      AwaitedPacketAdvances(cfg, e);
    } else if n < e.s.rx.next {
      EarlierPacketAdvances(cfg, e);
    } else {
      LaterPacketAdvances(cfg, e);
    }
  }

  lemma HopefulTurnAdvances(cfg: Config, e: Ends)
    requires ValidConfig(cfg) && Hopeful(cfg, e) && e.c.st != SendEofAndQuit
    ensures Advances(cfg, e, Turn(cfg, e))
  {
    match e.c.st
    case ReceiveDataWindowClosed => WaitingTurnAdvances(cfg, e);
    case ReceiveDataWindowOpen => OpenTurnAdvances(cfg, e);
    case SendDataSREJ => SREJTurnAdvances(cfg, e);
    case SendData =>
      if e.c.winCur < |cfg.chunks| {
        ChunkTurnAdvances(cfg, e);
      } else {
        EndOfChunksAdvances(cfg, e);
      }
  }

  /** One exchange of END_OF_FILE and ACK_EOF ends the upload. */
  lemma EndOfFileIsAcknowledged(cfg: Config, e: Ends)
    requires ValidConfig(cfg) && EndsOk(cfg, e) && e.s.phase != S.Closed
    requires e.c.st == SendEofAndQuit
    ensures Turn(cfg, e).c.st == Done(true) && Turn(cfg, e).s.rx.file == Concat(cfg.chunks)
  {
    assert cfg.chunks[..|cfg.chunks|] == cfg.chunks;
  }

  lemma TurnsAreLeft(cfg: Config, e: Ends)
    requires ValidConfig(cfg) && EndsOk(cfg, e)
    ensures TurnsLeft(cfg, e) >= 0
  {
  }

  lemma OneMoreTurn(cfg: Config, e: Ends, k: nat)
    requires ValidConfig(cfg) && e.c.winCur <= |cfg.chunks|
    ensures Turns(cfg, e, k + 1) == Turns(cfg, Turn(cfg, e), k)
  {
  }

  /** From a hopeful state loss-free turns lead to ACK_EOF and the whole file. */
  lemma {:induction false} HopefulFinishes(cfg: Config, e: Ends) returns (k: nat, end: Ends)
    requires ValidConfig(cfg) && Hopeful(cfg, e)
    ensures end == Turns(cfg, e, k) && k <= TurnsLeft(cfg, e) + 1
    ensures end.c.st == Done(true) && end.s.rx.file == Concat(cfg.chunks)
    decreases TurnsLeft(cfg, e)
  {
    TurnsAreLeft(cfg, e);
    end := Turn(cfg, e);
    if e.c.st == SendEofAndQuit {
      EndOfFileIsAcknowledged(cfg, e);
      k := 0;
    } else {
      HopefulTurnAdvances(cfg, e);
      k, end := HopefulFinishes(cfg, end);
    }
    OneMoreTurn(cfg, e, k);
    k := k + 1;
  }

  // ---- When it cannot end ----

  /** The client has given up: it sends nothing more, and was not told that it is done. */
  predicate GaveUp(c: Client) {
    c.st in {TimeoutOnServer, Done(false), Aborted}
  }

  predicate Hopeless(cfg: Config, e: Ends)
    requires ValidConfig(cfg)
  {
    EndsOk(cfg, e) &&
    (GaveUp(e.c) || (Waiting(e) && !CanRecover(cfg, e)) || AsksForOverwritten(cfg, e))
  }

  predicate AsksForOverwritten(cfg: Config, e: Ends) {
    && e.c.st == SendDataSREJ && e.s.phase != S.Closed && S.AllGood(e.s)
    && e.c.srejNum == e.s.rx.next && e.s.rx.srejOut && Overwritten(cfg, e.c, e.s)
  }

  /** What each turn from a hopeless state must keep. */
  predicate StaysHopeless(cfg: Config, e: Ends, r: Ends)
    requires ValidConfig(cfg)
  {
    && Hopeless(cfg, r) && r.c.winCur == e.c.winCur
    && (Overwritten(cfg, e.c, e.s) ==> r.s.rx.next == e.s.rx.next && r.s.rx.file == e.s.rx.file)
  }

  lemma GivenUpStep(cfg: Config, e: Ends)
    requires ValidConfig(cfg) && e.c.winCur <= |cfg.chunks| && GaveUp(e.c)
    ensures var r := Turn(cfg, e); GaveUp(r.c) && r.c.winCur == e.c.winCur && r.s == e.s
  {
  }

  lemma GivenUpTurn(cfg: Config, e: Ends)
    requires ValidConfig(cfg) && Hopeless(cfg, e) && GaveUp(e.c)
    ensures StaysHopeless(cfg, e, Turn(cfg, e))
  {
    TurnKeepsEndsOk(cfg, e);
    GivenUpStep(cfg, e);
  }

  /** The awaited packet, sent for the last time, and not answered. */
  lemma UnansweredTurn(cfg: Config, e: Ends)
    requires ValidConfig(cfg) && Hopeless(cfg, e) && Waiting(e) && e.c.timeout < 10
    requires Resent(cfg, e).Packet? && Resent(cfg, e).index + 1 == e.s.rx.next
    ensures StaysHopeless(cfg, e, Turn(cfg, e))
  {
    AwaitedPacketTurn(cfg, e);
    ResentIsLate(cfg, e);
  }

  /** A later packet: it cannot help if the server has asked already, or asks for what is gone. */
  lemma UselessTurn(cfg: Config, e: Ends)
    requires ValidConfig(cfg) && Hopeless(cfg, e) && Waiting(e) && e.c.timeout < 10
    requires Resent(cfg, e).Packet? && Resent(cfg, e).index + 1 > e.s.rx.next
    ensures StaysHopeless(cfg, e, Turn(cfg, e))
  {
    ResentTurn(cfg, e);
    LaterPacketKeepsFile(cfg, e, Resent(cfg, e).index + 1);
    var r := Turn(cfg, e);
    assert r.c.st == ReceiveDataWindowClosed ==> Resent(cfg, r) == Resent(cfg, e);
  }

  lemma LaterPacketKeepsFile(cfg: Config, e: Ends, n: nat)
    requires ValidConfig(cfg) && EndsOk(cfg, e) && S.AllGood(e.s) && e.s.phase != S.Closed
    requires e.s.rx.next < n <= |cfg.chunks|
    ensures AfterData(cfg, e.s, n).server.rx.file == e.s.rx.file
  {
  }

  lemma HopelessWaitingTurn(cfg: Config, e: Ends)
    requires ValidConfig(cfg) && Hopeless(cfg, e) && Waiting(e)
    ensures StaysHopeless(cfg, e, Turn(cfg, e))
  {
    if e.c.timeout == 10 || Resent(cfg, e).NeverFilled? {
      WaitingTurn(cfg, e);
      TurnKeepsEndsOk(cfg, e);
    } else if Resent(cfg, e).index + 1 == e.s.rx.next {
      UnansweredTurn(cfg, e);
    } else {
      UselessTurn(cfg, e);
    }
  }

  /** The slot of the packet asked for holds a later one, beyond the window of the server. */
  lemma OverwrittenTurn(cfg: Config, e: Ends)
    requires ValidConfig(cfg) && Hopeless(cfg, e) && e.c.st == SendDataSREJ
    ensures StaysHopeless(cfg, e, Turn(cfg, e))
  {
    SREJTurnProgress(cfg, e);
    var r := Turn(cfg, e);
    OverwrittenCannotRecover(cfg, r);
  }

  lemma OverwrittenCannotRecover(cfg: Config, e: Ends)
    requires ValidConfig(cfg) && EndsOk(cfg, e) && Overwritten(cfg, e.c, e.s)
    ensures !CanRecover(cfg, e)
  {
    ResentIsLate(cfg, e);
  }

  lemma HopelessTurn(cfg: Config, e: Ends)
    requires ValidConfig(cfg) && Hopeless(cfg, e)
    ensures StaysHopeless(cfg, e, Turn(cfg, e))
  {
    if GaveUp(e.c) {
      GivenUpTurn(cfg, e);
    } else if e.c.st == SendDataSREJ {
      OverwrittenTurn(cfg, e);
    } else {
      HopelessWaitingTurn(cfg, e);
    }
  }

  lemma {:induction false} HopelessForever(cfg: Config, e: Ends, k: nat) returns (end: Ends)
    requires ValidConfig(cfg) && Hopeless(cfg, e)
    ensures end == Turns(cfg, e, k) && end.c.st != Done(true)
    ensures StaysHopeless(cfg, e, end)
    decreases k
  {
    end := e;
    if k > 0 {
      HopelessTurn(cfg, e);
      end := HopelessForever(cfg, Turn(cfg, e), k - 1);
    }
  }

  // ---- The two theorems ----

  /** The outcome of an upload, exactly: from any state of any run in which the client waits with its
      window closed, whether it has read the whole file or not, and whether or not stale RRs have made
      it overrun its window, loss-free turns end with ACK_EOF and the whole file if and only if the
      client can still recover. */
  lemma UploadEndsExactly(cfg: Config, e: Ends)
    requires ValidConfig(cfg) && Occurs(cfg, e) && Waiting(e)
    ensures e.c.winCur <= |cfg.chunks|
    ensures (exists k: nat :: FinishesAfter(cfg, e, k)) <==> CanRecover(cfg, e)
    ensures CanRecover(cfg, e) ==>
              exists k: nat :: k <= TurnsLeft(cfg, e) + 1 && FinishesAfter(cfg, e, k)
                               && Turns(cfg, e, k).s.rx.file == Concat(cfg.chunks)
  {
    OccursOk(cfg, e);
    if CanRecover(cfg, e) {
      var k, end := HopefulFinishes(cfg, e);
      assert FinishesAfter(cfg, e, k);
    } else {
      forall k: nat
        ensures !FinishesAfter(cfg, e, k)
      {
        var end := HopelessForever(cfg, e, k);
      }
    }
  }

  /** Once the packet awaited is overwritten, the server's file never grows again, and the upload never
      ends. */
  lemma OverwrittenNeverRecovers(cfg: Config, e: Ends, k: nat)
    requires ValidConfig(cfg) && Occurs(cfg, e) && Waiting(e) && Overwritten(cfg, e.c, e.s)
    ensures e.c.winCur <= |cfg.chunks|
    ensures !FinishesAfter(cfg, e, k)
    ensures Turns(cfg, e, k).s.rx.next == e.s.rx.next && Turns(cfg, e, k).s.rx.file == e.s.rx.file
  {
    OccursOk(cfg, e);
    ResentIsLate(cfg, e);
    var end := HopelessForever(cfg, e, k);
  }
}
