/** Particular runs: that an upload can succeed, and each way in which one goes wrong. */
module Runs {
  import opened Bytes
  import opened Packets
  import opened Receiver
  import opened ClientModel
  import opened Protocol
  import opened Theorems
  import opened Recovery
  import S = ServerModel

  // ---- Parts of runs ----

  lemma Next(cfg: Config, sys: Sys, a: Action) returns (sys': Sys)
    requires ValidConfig(cfg) && Reachable(cfg, sys)
    requires sys.c.winCur <= |cfg.chunks| && CanHappen(sys, a)
    ensures sys' == Apply(cfg, sys, a) && Reachable(cfg, sys')
  {
    sys' := Apply(cfg, sys, a);
    StepIsReachable(cfg, sys, a);
  }

  /** A setup exchange without loss: the client sends `m`, the server answers `ack`, the client
      hears it. */
  lemma SetupExchange(cfg: Config, sys: Sys, m: Msg, ack: Msg) returns (sys': Sys)
    requires ValidConfig(cfg) && Reachable(cfg, sys) && sys.c.winCur <= |cfg.chunks|
    requires ClientStep(cfg, sys.c, Silence) == ClientReaction(sys.c.(st := WaitForSetupAcks), [m])
    requires S.ServerStep(sys.s, Arrived(m), true).replies == [ack]
    ensures Reachable(cfg, sys') && ack in sys'.down && sys.down <= sys'.down
    ensures sys'.s == S.ServerStep(sys.s, Arrived(m), true).server
    ensures sys'.c == WaitStep(sys.c.(st := WaitForSetupAcks), Arrived(ack))
  {
    sys' := Next(cfg, sys, ClientMoves(Silence));
    assert m in [m];
    sys' := Next(cfg, sys', ServerMoves(Arrived(m), true));
    assert ack in [ack];
    sys' := Next(cfg, sys', ClientMoves(Arrived(ack)));
  }

  /** Without loss the handshake leads straight to the data phase. Its acknowledgments may arrive once
      more. */
  lemma HandshakeSucceeds(cfg: Config) returns (sys: Sys)
    requires ValidConfig(cfg)
    ensures Reachable(cfg, sys)
    ensures forall m: Msg | IsSetupAck(m) :: m in sys.down
    ensures sys.c == START.(st := SendData, winMax := cfg.winSize, fileSuccess := true,
                            bufSuccess := true)
    ensures sys.s == S.Server(S.SettingUp, true, true, true, true, cfg.bufSize, cfg.winSize, 0, EMPTY)
  {
    StartIsReachable(cfg);
    sys := Next(cfg, INIT, ClientMoves(Silence));
    sys := SetupExchange(cfg, sys, FileName(cfg.name), AckFileName);
    sys := SetupExchange(cfg, sys, BufferSize(cfg.bufSize), AckBufferSize);
    sys := SetupExchange(cfg, sys, WindowSize(cfg.winSize), AckWindowSize);
    sys := Next(cfg, sys, ClientMoves(Silence));
  }

  /** The client right after the handshake, or when it has sent `n` packets and heard nothing. */
  predicate Sending(cfg: Config, c: Client, n: nat) {
    c == START.(st := SendData, winCur := n, winMax := cfg.winSize, fileSuccess := true,
                bufSuccess := true)
  }

  /** The client sends what its window holds and hears nothing; then it waits. */
  lemma {:induction false} SendsWindow(cfg: Config, sys: Sys, n: nat) returns (sys': Sys)
    requires ValidConfig(cfg) && Reachable(cfg, sys) && Sending(cfg, sys.c, n)
    requires n <= |cfg.chunks| && n < cfg.winSize
    ensures Reachable(cfg, sys') && sys'.s == sys.s && sys'.down == sys.down && sys.up <= sys'.up
    ensures var sent := if |cfg.chunks| < cfg.winSize then |cfg.chunks| else cfg.winSize;
      && sys'.c == sys.c.(st := ReceiveDataWindowClosed, winCur := sent,
                          doneTransmitting := |cfg.chunks| < cfg.winSize)
      && forall i | n <= i < sent :: Data(i + 1, cfg.chunks[i]) in sys'.up
    decreases cfg.winSize - n
  {
    sys' := Next(cfg, sys, ClientMoves(Silence));
    if n < |cfg.chunks| {
      var m := Data(n + 1, cfg.chunks[n]);
      assert m in [m] && m in sys'.up;
      if n + 1 < cfg.winSize {
        sys' := Next(cfg, sys', ClientMoves(Silence));
        assert m in sys'.up;
        sys' := SendsWindow(cfg, sys', n + 1);
      }
    }
  }

  /** The server takes a message under way; the answer stays under way. */
  lemma ServerTakes(cfg: Config, sys: Sys, m: Msg) returns (sys': Sys)
    requires ValidConfig(cfg) && Reachable(cfg, sys) && m in sys.up
    requires sys.c.winCur <= |cfg.chunks|
    ensures var reaction := S.ServerStep(sys.s, Arrived(m), true);
      && Reachable(cfg, sys') && sys'.c == sys.c && sys'.s == reaction.server
      && sys'.up == sys.up && sys'.down == sys.down + Msgs(reaction.replies)
  {
    sys' := Next(cfg, sys, ServerMoves(Arrived(m), true));
  }

  /** The client makes a step on silence, or on a message under way. */
  lemma ClientTakes(cfg: Config, sys: Sys, input: Input) returns (sys': Sys)
    requires ValidConfig(cfg) && Reachable(cfg, sys) && sys.c.winCur <= |cfg.chunks|
    requires input.Arrived? ==> input.msg in sys.down
    ensures var reaction := ClientStep(cfg, sys.c, input);
      && Reachable(cfg, sys') && sys'.s == sys.s && sys'.c == reaction.client
      && sys'.down == sys.down && sys'.up == sys.up + Msgs(reaction.sends)
  {
    sys' := Next(cfg, sys, ClientMoves(input));
  }

  // ---- Success ----

  /** Some run succeeds exactly when the file has a chunk: however long or short the file and the
      window, the upload can end with ACK_EOF and the whole file; but an empty file is never
      acknowledged. */
  lemma UploadCanSucceedExactly(cfg: Config)
    requires ValidConfig(cfg)
    ensures (exists sys :: Reachable(cfg, sys) && sys.c.st == Done(true)) <==> cfg.chunks != []
    ensures cfg.chunks != [] ==>
              exists sys :: Reachable(cfg, sys) && sys.c.st == Done(true)
                            && sys.s.rx.file == Concat(cfg.chunks)
  {
    if cfg.chunks != [] {
      var sys := ChunksCanBeUploaded(cfg);
    } else {
      forall sys | Reachable(cfg, sys)
        ensures sys.c.st != Done(true)
      {
        ReachableInv(cfg, sys);
      }
    }
  }

  lemma ChunksCanBeUploaded(cfg: Config) returns (sys: Sys)
    requires ValidConfig(cfg) && cfg.chunks != []
    ensures Reachable(cfg, sys) && sys.c.st == Done(true) && sys.s.rx.file == Concat(cfg.chunks)
  {
    sys := HandshakeSucceeds(cfg);
    sys := SendsWindow(cfg, sys, 0);
    var e := Ends(sys.c, sys.s);
    assert Occurs(cfg, e);
    OccursOk(cfg, e);
    WithinWindowCanRecover(cfg, e);
    var k, end := HopefulFinishes(cfg, e);
    TurnsOccur(cfg, e, k);
    sys :| Reachable(cfg, sys) && sys.c == end.c && sys.s == end.s;
  }

  // ---- Failure ----

  /** Whatever the configuration: one acknowledgment of the setup, taken a second time, ends the client at
      DONE before the server has a single chunk. Nothing was lost. */
  lemma RepeatedAckEndsTheUpload(cfg: Config, ack: Msg) returns (sys: Sys)
    requires ValidConfig(cfg) && IsSetupAck(ack)
    ensures Reachable(cfg, sys) && sys.c.st == Done(false)
    ensures S.AllGood(sys.s) && sys.s.phase == S.SettingUp && sys.s.rx.file == []
  {
    sys := HandshakeSucceeds(cfg);
    sys := ClientTakes(cfg, sys, Silence);
    sys := ClientTakes(cfg, sys, Arrived(ack));
  }

  /** The window is sent, packet 1 arrives, and its RR. */
  lemma FirstRRArrives(cfg: Config) returns (sys: Sys)
    requires ValidConfig(cfg) && |cfg.chunks| >= cfg.winSize
    ensures Reachable(cfg, sys)
    ensures sys.c.st == SendData && sys.c.winCur == cfg.winSize && !sys.c.doneTransmitting
    ensures sys.c.winMin == 1 && sys.c.winMax == cfg.winSize + 1 && sys.c.timeout == 0
    ensures sys.s.phase == S.Receiving && S.AllGood(sys.s) && RR(2) in sys.down
    ensures sys.s.rx == Rx(2, map[], false, cfg.chunks[0])
    ensures forall i | 0 <= i < cfg.winSize :: Data(i + 1, cfg.chunks[i]) in sys.up
  {
    sys := HandshakeSucceeds(cfg);
    sys := SendsWindow(cfg, sys, 0);
    assert Data(0 + 1, cfg.chunks[0]) in sys.up;
    sys := ServerTakes(cfg, sys, Data(1, cfg.chunks[0]));
    assert RR(2) in [RR(2)];
    sys := ClientTakes(cfg, sys, Arrived(RR(2)));
  }

  /** The RR for packet 2, arriving twice, lets the client send two packets more than its window, while
      the server still awaits packet 2: the last one is beyond both windows, and packet 2 is
      overwritten. */
  lemma RepeatedRROverrunsWindow(cfg: Config) returns (sys: Sys)
    requires ValidConfig(cfg) && |cfg.chunks| >= cfg.winSize + 2
    ensures Reachable(cfg, sys) && !WithinWindow(cfg, sys.c) && Overwritten(cfg, sys.c, sys.s)
    ensures sys.c.winCur == cfg.winSize + 2 && sys.c.winMax == cfg.winSize + 1
    ensures sys.c.st == ReceiveDataWindowClosed && !sys.c.doneTransmitting
    ensures sys.s.phase == S.Receiving && S.AllGood(sys.s)
    ensures sys.s.rx == Rx(2, map[], false, cfg.chunks[0])
    ensures forall i | 0 <= i < cfg.winSize + 2 :: Data(i + 1, cfg.chunks[i]) in sys.up
  {
    sys := FirstRRArrives(cfg);
    sys := SendsOneMore(cfg, sys);
    sys := ClientTakes(cfg, sys, Arrived(RR(2)));
    sys := SendsOneMore(cfg, sys);
  }

  lemma SendsOneMore(cfg: Config, sys: Sys) returns (sys': Sys)
    requires ValidConfig(cfg) && Reachable(cfg, sys) && sys.c.st == SendData
    requires sys.c.winCur < |cfg.chunks| && sys.c.winCur + 1 >= sys.c.winMax
    requires forall i | 0 <= i < sys.c.winCur :: Data(i + 1, cfg.chunks[i]) in sys.up
    ensures Reachable(cfg, sys') && sys'.s == sys.s && sys'.down == sys.down
    ensures sys'.c == sys.c.(st := ReceiveDataWindowClosed, winCur := sys.c.winCur + 1)
    ensures forall i | 0 <= i < sys'.c.winCur :: Data(i + 1, cfg.chunks[i]) in sys'.up
  {
    sys' := ClientTakes(cfg, sys, Silence);
    var m := Data(sys.c.winCur + 1, cfg.chunks[sys.c.winCur]);
    assert m in [m];
  }

  /** With the later packets lost on their way, loss-free turns never end that upload: one repeated RR and
      the packets under way, lost, end it for good. */
  lemma RepeatedRREndsTheUpload(cfg: Config) returns (e: Ends)
    requires ValidConfig(cfg) && |cfg.chunks| >= cfg.winSize + 2
    ensures Occurs(cfg, e) && Waiting(e) && Overwritten(cfg, e.c, e.s)
    ensures e.s.rx.file == cfg.chunks[0] && e.c.winCur <= |cfg.chunks|
    ensures forall k: nat :: !FinishesAfter(cfg, e, k)
  {
    var sys := RepeatedRROverrunsWindow(cfg);
    e := Ends(sys.c, sys.s);
    assert Occurs(cfg, e);
    OccursOk(cfg, e);
    forall k: nat
      ensures !FinishesAfter(cfg, e, k)
    {
      OverwrittenNeverRecovers(cfg, e, k);
    }
  }

  /** But an earlier copy of packet 2, arriving late, can still save it: here the server takes one, the
      client takes the RR, and loss-free turns lead to the end. */
  lemma LateCopyRecovers(cfg: Config, sys: Sys) returns (e: Ends)
    requires ValidConfig(cfg) && |cfg.chunks| == cfg.winSize + 2
    requires Reachable(cfg, sys) && Overwritten(cfg, sys.c, sys.s)
    requires sys.c.winCur == cfg.winSize + 2 && sys.c.st == ReceiveDataWindowClosed
    requires !sys.c.doneTransmitting && sys.s.phase == S.Receiving && S.AllGood(sys.s)
    requires sys.s.rx == Rx(2, map[], false, cfg.chunks[0])
    requires Data(2, cfg.chunks[1]) in sys.up
    ensures e.s == S.ServerStep(sys.s, Arrived(Data(2, cfg.chunks[1])), true).server
    ensures e.c == ClientStep(cfg, sys.c, Arrived(RR(3))).client
    ensures Occurs(cfg, e) && e.c.winCur <= |cfg.chunks| && Finishes(cfg, e)
  {
    var sys' := ServerTakes(cfg, sys, Data(2, cfg.chunks[1]));
    assert RR(3) in [RR(3)];
    sys' := ClientTakes(cfg, sys', Arrived(RR(3)));
    e := Ends(sys'.c, sys'.s);
    assert Occurs(cfg, e);
    OccursOk(cfg, e);
    var k, end := HopefulFinishes(cfg, e);
    assert FinishesAfter(cfg, e, k);
  }

  lemma SmallFileKeepsWindow(cfg: Config, states: seq<Sys>, actions: seq<Action>)
    requires ValidConfig(cfg) && IsRun(cfg, states, actions)
    requires |cfg.chunks| < cfg.winSize + 2
    ensures AllRRsKeepWindow(cfg, states, actions)
  {
    forall i | 0 <= i < |actions| && TakesRR(states[i], actions[i])
      ensures KeepsWindow(cfg, states[i].c, actions[i].input.msg.num)
    {
      var sys, a, sys' := StepOfRun(cfg, states, actions, i);
      assert DownOk(cfg, sys.c, sys.s, a.input.msg);
    }
  }

  lemma SmallFileStaysInWindow(cfg: Config, sys: Sys)
    requires ValidConfig(cfg) && Reachable(cfg, sys) && |cfg.chunks| < cfg.winSize + 2
    ensures WithinWindow(cfg, sys.c) && !Overwritten(cfg, sys.c, sys.s)
  {
    var states, actions :| IsRun(cfg, states, actions) && states[|states| - 1] == sys;
    SmallFileKeepsWindow(cfg, states, actions);
    InWindowUpTo(cfg, states, actions, |states| - 1);
    WindowsFit(cfg, sys);
  }

  /** Before any run: some run leaves the window, and some run overwrites the packet awaited, exactly when
      the file has at least two chunks more than the window. */
  lemma OverrunIsPossibleExactly(cfg: Config)
    requires ValidConfig(cfg)
    ensures (exists sys :: Reachable(cfg, sys) && !WithinWindow(cfg, sys.c))
       <==> |cfg.chunks| >= cfg.winSize + 2
    ensures (exists sys :: Reachable(cfg, sys) && Overwritten(cfg, sys.c, sys.s))
       <==> |cfg.chunks| >= cfg.winSize + 2
  {
    if |cfg.chunks| >= cfg.winSize + 2 {
      var sys := RepeatedRROverrunsWindow(cfg);
    } else {
      forall sys | Reachable(cfg, sys)
        ensures WithinWindow(cfg, sys.c) && !Overwritten(cfg, sys.c, sys.s)
      {
        SmallFileStaysInWindow(cfg, sys);
      }
    }
  }

  /** Timeouts whose resends are lost only count up. */
  lemma {:induction false} LosesResends(cfg: Config, sys: Sys, k: nat) returns (sys': Sys)
    requires ValidConfig(cfg) && Reachable(cfg, sys) && sys.c.st == ReceiveDataWindowClosed
    requires sys.c.winMin < sys.c.winCur <= sys.c.winMax && sys.c.timeout + k <= 10
    ensures Reachable(cfg, sys') && sys'.s == sys.s
    ensures sys'.c == sys.c.(timeout := sys.c.timeout + k)
    decreases k
  {
    sys' := sys;
    if k > 0 {
      var e := Ends(sys.c, sys.s);
      assert Occurs(cfg, e);
      OccursOk(cfg, e);
      ResentIsLate(cfg, e);
      sys' := ClientTakes(cfg, sys, Silence);
      sys' := LosesResends(cfg, sys', k - 1);
    }
  }

  const FOUR := Config([], [[1], [2], [3], [4]], 400, 5)

  /** Packets 2 and 4 arrive first. */
  lemma TwoAndFourArrive() returns (sys: Sys)
    ensures ValidConfig(FOUR) && Reachable(FOUR, sys)
    ensures sys.c.st == ReceiveDataWindowClosed && sys.c.doneTransmitting && sys.c.timeout == 0
    ensures sys.c.winMin == 0 && sys.c.winCur == 4 && sys.c.winMax == 5
    ensures sys.s.phase == S.Receiving && S.AllGood(sys.s)
    ensures sys.s.rx == Rx(1, map[2 := [2], 4 := [4]], true, [])
  {
    var cfg := FOUR;
    sys := HandshakeSucceeds(cfg);
    sys := SendsWindow(cfg, sys, 0);
    assert Data(1 + 1, cfg.chunks[1]) in sys.up && Data(3 + 1, cfg.chunks[3]) in sys.up;
    sys := ServerTakes(cfg, sys, Data(2, [2]));
    sys := ServerTakes(cfg, sys, Data(4, [4]));
  }

  /** A client within its window that can no longer recover: the server has packets 2 and 4, its SREJ and
      nine resends of packet 1 are lost. The tenth arrives, but the server, still without packet 3,
      answers nothing, and the timeouts run out. */
  lemma TimeoutsRunOut() returns (e: Ends)
    ensures ValidConfig(FOUR) && Occurs(FOUR, e) && Waiting(e)
    ensures e.c.doneTransmitting && e.c.timeout == 9
    ensures e.c.winMin < e.c.winCur <= e.c.winMax && e.c.winCur <= |FOUR.chunks|
    ensures forall k: nat :: !FinishesAfter(FOUR, e, k)
  {
    var sys := TwoAndFourArrive();
    sys := LosesResends(FOUR, sys, 9);
    e := Ends(sys.c, sys.s);
    assert Occurs(FOUR, e);
    OccursOk(FOUR, e);
    ResentIsLate(FOUR, e);
    assert 4 in e.s.rx.held && 3 !in e.s.rx.held;
    UploadEndsExactly(FOUR, e);
  }

  const LATE := Config([], [[1], [2]], 400, 4)

  lemma TwoArrivesFirst() returns (sys: Sys)
    ensures ValidConfig(LATE) && Reachable(LATE, sys)
    ensures sys.c.st == ReceiveDataWindowClosed && sys.c.doneTransmitting
    ensures sys.c.srejNum == 0 && sys.c.winCur == 2
    ensures sys.s.phase == S.Receiving && S.AllGood(sys.s)
    ensures sys.s.rx == Rx(1, map[2 := [2]], true, [])
    ensures SREJ(1) in sys.down && Data(1, [1]) in sys.up
  {
    var cfg := LATE;
    sys := HandshakeSucceeds(cfg);
    sys := SendsWindow(cfg, sys, 0);
    assert Data(0 + 1, cfg.chunks[0]) in sys.up && Data(1 + 1, cfg.chunks[1]) in sys.up;
    sys := ServerTakes(cfg, sys, Data(2, [2]));
    assert SREJ(1) in [SREJ(1)];
  }

  /** Packet 2 arrives before packet 1; the RR ends the data phase, and the SREJ is still under way. */
  lemma EndOfFileBeforeSREJ() returns (sys: Sys)
    ensures ValidConfig(LATE) && Reachable(LATE, sys)
    ensures sys.c.st == SendEofAndQuit && sys.c.srejNum == 0 && sys.c.winCur == 2
    ensures SREJ(1) in sys.down
  {
    sys := TwoArrivesFirst();
    BothAreWritten(sys.s);
    sys := ServerTakes(LATE, sys, Data(1, [1]));
    assert RR(3) in [RR(3)];
    sys := ClientTakes(LATE, sys, Arrived(RR(3)));
  }

  lemma BothAreWritten(s: S.Server)
    requires S.AllGood(s) && s.phase == S.Receiving
    requires s.rx.next == 1 && s.rx.held == map[2 := [2]]
    ensures S.ServerStep(s, Arrived(Data(1, [1])), true).replies == [RR(3)]
  {
    var rx := Expected(s.rx, [1]);
    DrainWritesTheMaximalRun(rx);
    assert Drain(rx).next == 3 by {
      assert 3 !in rx.held && 2 in rx.held;
    }
    assert Drain(rx).held == map[];
    TakeExpected(s.winSize, s.rx, [1]);
  }

  /** A late SREJ in the end-of-file phase makes the client resend from a slot it never filled. */
  lemma LateSREJAborts() returns (sys: Sys)
    ensures ValidConfig(LATE) && Reachable(LATE, sys) && sys.c.st == Aborted
    ensures sys.s.rx.file == Concat(LATE.chunks)
  {
    sys := EndOfFileBeforeSREJ();
    EndOfFileMeansWholeFile(LATE, sys);
    sys := ClientTakes(LATE, sys, Silence);
    sys := ClientTakes(LATE, sys, Arrived(SREJ(1)));
    sys := ClientTakes(LATE, sys, Silence);
  }

  // ---- The run in which nothing is lost ----

  const BEGIN := Ends(START, S.START)

  /** Every packet sent so far, `n` of them, is on file and acknowledged. */
  predicate InSync(cfg: Config, e: Ends, n: nat) {
    && EndsOk(cfg, e) && e.s.phase != S.Closed && e.s.rx.next == n + 1 && n <= |cfg.chunks|
    && e.c.st == SendData && e.c.winMin == e.c.winCur == n && !e.c.doneTransmitting
    && e.c.timeout == 0
  }

  /** Loss-free turns lead to ACK_EOF, or to an abort. */
  ghost predicate Finishes(cfg: Config, e: Ends)
    requires ValidConfig(cfg) && e.c.winCur <= |cfg.chunks|
  {
    exists k: nat :: FinishesAfter(cfg, e, k)
  }

  /** ... with every chunk on file. */
  predicate AbortsAfter(cfg: Config, e: Ends, k: nat)
    requires ValidConfig(cfg) && e.c.winCur <= |cfg.chunks|
  {
    Turns(cfg, e, k).c.st == Aborted && Turns(cfg, e, k).s.rx.next == |cfg.chunks| + 1
  }

  ghost predicate Aborts(cfg: Config, e: Ends)
    requires ValidConfig(cfg) && e.c.winCur <= |cfg.chunks|
  {
    exists k: nat :: AbortsAfter(cfg, e, k)
  }

  lemma OutcomeOfNextTurn(cfg: Config, e: Ends)
    requires ValidConfig(cfg) && e.c.winCur <= |cfg.chunks| && !Ended(e.c)
    ensures Finishes(cfg, e) <==> Finishes(cfg, Turn(cfg, e))
    ensures Aborts(cfg, Turn(cfg, e)) ==> Aborts(cfg, e)
  {
    if Finishes(cfg, e) {
      var k: nat :| FinishesAfter(cfg, e, k);
      OneMoreTurn(cfg, e, k - 1);
      assert FinishesAfter(cfg, Turn(cfg, e), k - 1);
    }
    if Finishes(cfg, Turn(cfg, e)) {
      var k: nat :| FinishesAfter(cfg, Turn(cfg, e), k);
      OneMoreTurn(cfg, e, k);
      assert FinishesAfter(cfg, e, k + 1);
    }
    if Aborts(cfg, Turn(cfg, e)) {
      var k: nat :| AbortsAfter(cfg, Turn(cfg, e), k);
      OneMoreTurn(cfg, e, k);
      assert AbortsAfter(cfg, e, k + 1);
    }
  }

  /** A turn of the handshake leads to the same outcome. */
  lemma SetupTurn(cfg: Config, e: Ends, m: Msg, ack: Msg) returns (r: Ends)
    requires ValidConfig(cfg) && EndsOk(cfg, e) && !Ended(e.c)
    requires ClientStep(cfg, e.c, Silence) == ClientReaction(e.c.(st := WaitForSetupAcks), [m])
    requires S.ServerStep(e.s, Arrived(m), true).replies == [ack]
    ensures r.s == S.ServerStep(e.s, Arrived(m), true).server
    ensures r.c == WaitStep(e.c.(st := WaitForSetupAcks), Arrived(ack))
    ensures EndsOk(cfg, r) && SameOutcome(cfg, e, r)
  {
    r := Turn(cfg, e);
    TurnKeepsEndsOk(cfg, e);
    OutcomeOfNextTurn(cfg, e);
  }

  lemma SilentTurn(cfg: Config, e: Ends) returns (r: Ends)
    requires ValidConfig(cfg) && EndsOk(cfg, e) && e.c.st in {Start, ReadyToSendDataSetup}
    ensures r == Ends(ClientStep(cfg, e.c, Silence).client, e.s)
    ensures EndsOk(cfg, r) && SameOutcome(cfg, e, r)
  {
    r := Turn(cfg, e);
    TurnKeepsEndsOk(cfg, e);
    OutcomeOfNextTurn(cfg, e);
  }

  ghost predicate SameOutcome(cfg: Config, e: Ends, r: Ends)
    requires ValidConfig(cfg) && e.c.winCur <= |cfg.chunks| && r.c.winCur <= |cfg.chunks|
  {
    && (Finishes(cfg, e) <==> Finishes(cfg, r))
    && (Aborts(cfg, r) ==> Aborts(cfg, e))
  }

  lemma BeginIsOk(cfg: Config)
    requires ValidConfig(cfg)
    ensures EndsOk(cfg, BEGIN)
  {
    assert Concat(cfg.chunks[..0]) == [];
  }

  // ---- The setup, once nothing is lost any more ----

  /** A client in its setup can still get through: it has a timeout left, and the server is alive. */
  predicate SetupCanFinish(e: Ends) {
    && InSetup(e.c.st) && e.s.phase != S.Closed
    && e.c.st != TimeoutOnSetupServer
    && (e.c.st == WaitForSetupAcks ==> e.c.timeout < 10)
  }

  function SetupLeft(st: State): nat {
    match st
    case Start => 6
    case WaitForSetupAcks => 5
    case SendRemoteFileName => 4
    case SendBufferSize => 3
    case SendWindowSize => 2
    case _ => 1
  }

  /** In the setup the server has not taken data. */
  lemma SetupServer(cfg: Config, e: Ends)
    requires ValidConfig(cfg) && EndsOk(cfg, e) && InSetup(e.c.st) && e.s.phase != S.Closed
    ensures e.c.winCur == 0 && e.s.rx.next == 1
    ensures e.s.phase == if e.s.fileGood then S.SettingUp else S.Listening
  {
  }

  lemma RetryTurn(cfg: Config, e: Ends) returns (r: Ends)
    requires ValidConfig(cfg) && EndsOk(cfg, e) && e.c.st == WaitForSetupAcks && e.c.timeout < 10
    ensures r.s == e.s && r.c.st in {SendRemoteFileName, SendBufferSize, SendWindowSize}
    ensures EndsOk(cfg, r) && SameOutcome(cfg, e, r)
  {
    r := Turn(cfg, e);
    TurnKeepsEndsOk(cfg, e);
    OutcomeOfNextTurn(cfg, e);
  }

  lemma NameTurn(cfg: Config, e: Ends) returns (r: Ends)
    requires ValidConfig(cfg) && EndsOk(cfg, e) && SetupCanFinish(e)
    requires e.c.st == SendRemoteFileName
    ensures EndsOk(cfg, r) && SetupCanFinish(r) && SameOutcome(cfg, e, r)
    ensures r.c.st == SendBufferSize
  {
    SetupServer(cfg, e);
    r := SetupTurn(cfg, e, FileName(cfg.name), AckFileName);
  }

  lemma BufferSizeTurn(cfg: Config, e: Ends) returns (r: Ends)
    requires ValidConfig(cfg) && EndsOk(cfg, e) && SetupCanFinish(e) && e.c.st == SendBufferSize
    ensures EndsOk(cfg, r) && SetupCanFinish(r) && SameOutcome(cfg, e, r)
    ensures r.c.st == SendWindowSize
  {
    SetupServer(cfg, e);
    r := SetupTurn(cfg, e, BufferSize(cfg.bufSize), AckBufferSize);
  }

  lemma WindowSizeTurn(cfg: Config, e: Ends) returns (r: Ends)
    requires ValidConfig(cfg) && EndsOk(cfg, e) && SetupCanFinish(e) && e.c.st == SendWindowSize
    ensures EndsOk(cfg, r) && SetupCanFinish(r) && SameOutcome(cfg, e, r)
    ensures r.c.st == ReadyToSendDataSetup
  {
    SetupServer(cfg, e);
    r := SetupTurn(cfg, e, WindowSize(cfg.winSize), AckWindowSize);
  }

  lemma SetupTurnAdvances(cfg: Config, e: Ends) returns (r: Ends)
    requires ValidConfig(cfg) && EndsOk(cfg, e) && SetupCanFinish(e)
    requires e.c.st != ReadyToSendDataSetup
    ensures EndsOk(cfg, r) && SetupCanFinish(r) && SameOutcome(cfg, e, r)
    ensures SetupLeft(r.c.st) < SetupLeft(e.c.st)
  {
    if e.c.st == Start {
      r := SilentTurn(cfg, e);
    } else if e.c.st == WaitForSetupAcks {
      r := RetryTurn(cfg, e);
    } else if e.c.st == SendRemoteFileName {
      r := NameTurn(cfg, e);
    } else if e.c.st == SendBufferSize {
      r := BufferSizeTurn(cfg, e);
    } else {
      r := WindowSizeTurn(cfg, e);
    }
  }

  /** Whatever was lost, repeated or reordered in the setup so far, it gets through. */
  lemma {:induction false} SetupLeadsToData(cfg: Config, e: Ends) returns (r: Ends)
    requires ValidConfig(cfg) && EndsOk(cfg, e) && SetupCanFinish(e)
    ensures InSync(cfg, r, 0) && SameOutcome(cfg, e, r)
    decreases SetupLeft(e.c.st)
  {
    SetupServer(cfg, e);
    if e.c.st == ReadyToSendDataSetup {
      r := SilentTurn(cfg, e);
    } else {
      r := SetupTurnAdvances(cfg, e);
      r := SetupLeadsToData(cfg, r);
    }
  }

  /** Past help: no timeout left in the setup, or no server. */
  predicate PastHelp(cfg: Config, e: Ends) {
    && EndsOk(cfg, e) && e.c.st != Done(true)
    && (|| e.s.phase == S.Closed || e.c.st in {TimeoutOnSetupServer, Done(false)}
        || (e.c.st == WaitForSetupAcks && e.c.timeout >= 10))
  }

  lemma OnlyAckFinishes(cfg: Config, c: Client)
    requires 0 < cfg.winSize && c.winCur <= |cfg.chunks| && c.st != Done(true)
    ensures ClientStep(cfg, c, Silence).client.st != Done(true)
  {
  }

  lemma ClosedServerTurn(cfg: Config, e: Ends)
    requires ValidConfig(cfg) && e.c.winCur <= |cfg.chunks| && e.s.phase == S.Closed
    ensures Turn(cfg, e) == Ends(ClientStep(cfg, e.c, Silence).client, e.s)
  {
    var sends := ClientStep(cfg, e.c, Silence).sends;
    if sends != [] {
      S.EndsExactly(e.s, Arrived(sends[0]), true);
    }
  }

  lemma PastHelpTurn(cfg: Config, e: Ends)
    requires ValidConfig(cfg) && PastHelp(cfg, e)
    ensures PastHelp(cfg, Turn(cfg, e))
  {
    TurnKeepsEndsOk(cfg, e);
    if e.s.phase == S.Closed {
      ClosedServerTurn(cfg, e);
      OnlyAckFinishes(cfg, e.c);
    }
  }

  lemma {:induction false} PastHelpForever(cfg: Config, e: Ends, k: nat)
    requires ValidConfig(cfg) && PastHelp(cfg, e)
    ensures !FinishesAfter(cfg, e, k)
    decreases k
  {
    if k > 0 {
      PastHelpTurn(cfg, e);
      PastHelpForever(cfg, Turn(cfg, e), k - 1);
    }
  }

  /** The outcome from any state of any run in which the client is still in its setup, exactly: loss-free
      turns end with ACK_EOF if and only if the client has a timeout left and the server is alive, and the
      file has at least as many chunks as the window. */
  lemma SetupOutcomeExactly(cfg: Config, e: Ends)
    requires ValidConfig(cfg) && Occurs(cfg, e) && InSetup(e.c.st)
    ensures e.c.winCur <= |cfg.chunks|
    ensures Finishes(cfg, e) <==> SetupCanFinish(e) && |cfg.chunks| >= cfg.winSize
  {
    OccursOk(cfg, e);
    if SetupCanFinish(e) {
      var r := SetupLeadsToData(cfg, e);
      InSyncOutcome(cfg, r);
    } else {
      forall k: nat
        ensures !FinishesAfter(cfg, e, k)
      {
        PastHelpForever(cfg, e, k);
      }
    }
  }

  /** Nothing helps against a server that has ended, wherever the client is. */
  lemma NoServerNoUpload(cfg: Config, e: Ends, k: nat)
    requires ValidConfig(cfg) && Occurs(cfg, e) && e.s.phase == S.Closed && e.c.st != Done(true)
    ensures e.c.winCur <= |cfg.chunks| && !FinishesAfter(cfg, e, k)
  {
    OccursOk(cfg, e);
    PastHelpForever(cfg, e, k);
  }

  // ---- Chunk by chunk ----

  lemma InSyncTurn(cfg: Config, e: Ends, n: nat)
    requires ValidConfig(cfg) && InSync(cfg, e, n) && n < |cfg.chunks|
    ensures InSync(cfg, Turn(cfg, e), n + 1)
  {
    ChunkTurn(cfg, e);
  }

  /** After the last chunk of a short file the client is past hope, and aborts. */
  lemma LastInSyncTurn(cfg: Config, e: Ends)
    requires ValidConfig(cfg) && InSync(cfg, e, |cfg.chunks|) && |cfg.chunks| < cfg.winSize
    ensures var r := Turn(cfg, e);
      && Hopeless(cfg, r) && !Ended(r.c)
      && Turn(cfg, r).c.st == Aborted && Turn(cfg, r).s.rx.next == |cfg.chunks| + 1
  {
    TurnKeepsEndsOk(cfg, e);
    var r := Turn(cfg, e);
    AllAcknowledgedCanRecover(cfg, r);
    RemainderBound(r.c.winMin, cfg.winSize);
    WaitingTurn(cfg, r);
  }

  lemma HopelessNeverFinishes(cfg: Config, e: Ends)
    requires ValidConfig(cfg) && Hopeless(cfg, e)
    ensures !Finishes(cfg, e)
  {
    forall k: nat
      ensures !FinishesAfter(cfg, e, k)
    {
      var end := HopelessForever(cfg, e, k);
    }
  }

  lemma {:induction false} ShortFileAborts(cfg: Config, e: Ends, n: nat)
    requires ValidConfig(cfg) && InSync(cfg, e, n) && |cfg.chunks| < cfg.winSize
    ensures Aborts(cfg, e) && !Finishes(cfg, e)
    decreases |cfg.chunks| - n
  {
    var r := Turn(cfg, e);
    OutcomeOfNextTurn(cfg, e);
    if n < |cfg.chunks| {
      InSyncTurn(cfg, e, n);
      ShortFileAborts(cfg, r, n + 1);
    } else {
      LastInSyncTurn(cfg, e);
      HopelessNeverFinishes(cfg, r);
      OutcomeOfNextTurn(cfg, r);
      assert AbortsAfter(cfg, Turn(cfg, r), 0);
    }
  }

  lemma InSyncOutcome(cfg: Config, e: Ends)
    requires ValidConfig(cfg) && InSync(cfg, e, 0)
    ensures Finishes(cfg, e) <==> |cfg.chunks| >= cfg.winSize
    ensures |cfg.chunks| < cfg.winSize ==> Aborts(cfg, e)
  {
    if |cfg.chunks| >= cfg.winSize {
      var k, end := HopefulFinishes(cfg, e);
      assert FinishesAfter(cfg, e, k);
    } else {
      ShortFileAborts(cfg, e, 0);
    }
  }

  /** The run in which nothing is lost, delayed or repeated, and every packet is answered at once: it ends
      with ACK_EOF exactly when the file has at least as many chunks as the window; a shorter file makes
      the client abort, all of it acknowledged, before it has seen the end of it. */
  lemma LosslessRunExactly(cfg: Config)
    requires ValidConfig(cfg)
    ensures Finishes(cfg, BEGIN) <==> |cfg.chunks| >= cfg.winSize
    ensures |cfg.chunks| < cfg.winSize ==> Aborts(cfg, BEGIN)
  {
    BeginIsOk(cfg);
    var e := SetupLeadsToData(cfg, BEGIN);
    InSyncOutcome(cfg, e);
  }

  /** So the client can abort with the whole file on the server, whatever the file and the window, if the
      file is the shorter. */
  lemma ShortFileCanAbort(cfg: Config) returns (sys: Sys)
    requires ValidConfig(cfg) && |cfg.chunks| < cfg.winSize
    ensures Reachable(cfg, sys) && sys.c.st == Aborted && sys.s.rx.file == Concat(cfg.chunks)
  {
    LosslessRunExactly(cfg);
    var k: nat :| AbortsAfter(cfg, BEGIN, k);
    StartIsReachable(cfg);
    assert Occurs(cfg, BEGIN);
    TurnsOccur(cfg, BEGIN, k);
    var end := Turns(cfg, BEGIN, k);
    sys :| Reachable(cfg, sys) && sys.c == end.c && sys.s == end.s;
    FileIsAPrefix(cfg, sys);
    assert cfg.chunks[..|cfg.chunks|] == cfg.chunks;
  }

  /** Before any run: some run aborts exactly when the file is shorter than the window. */
  lemma AbortIsPossibleExactly(cfg: Config)
    requires ValidConfig(cfg)
    ensures (exists sys :: Reachable(cfg, sys) && sys.c.st == Aborted)
       <==> |cfg.chunks| < cfg.winSize
  {
    if |cfg.chunks| < cfg.winSize {
      var sys := ShortFileCanAbort(cfg);
    } else {
      forall sys | Reachable(cfg, sys)
        ensures sys.c.st != Aborted
      {
        var states, actions :| IsRun(cfg, states, actions) && states[|states| - 1] == sys;
        if sys.c.st == Aborted {
          AbortedMeansShort(cfg, states, actions, |states| - 1);
        }
      }
    }
  }
}
