/** What holds in every run of the protocol. */
module Theorems {
  import opened Bytes
  import opened Packets
  import opened Receiver
  import opened ClientModel
  import opened Protocol
  import S = ServerModel

  ghost predicate Reachable(cfg: Config, sys: Sys)
    requires ValidConfig(cfg)
  {
    exists states, actions :: IsRun(cfg, states, actions) && states[|states| - 1] == sys
  }

  lemma StartIsReachable(cfg: Config)
    requires ValidConfig(cfg)
    ensures Reachable(cfg, INIT)
  {
    assert IsRun(cfg, [INIT], []);
  }

  lemma StepIsReachable(cfg: Config, sys: Sys, a: Action)
    requires ValidConfig(cfg) && Reachable(cfg, sys)
    requires sys.c.winCur <= |cfg.chunks| && CanHappen(sys, a)
    ensures Reachable(cfg, Apply(cfg, sys, a))
  {
    var states, actions :| IsRun(cfg, states, actions) && states[|states| - 1] == sys;
    var states', actions' := states + [Apply(cfg, sys, a)], actions + [a];
    forall i | 0 <= i < |actions'|
      ensures StepAt(cfg, states', actions', i)
    {
      assert i < |actions| ==> StepAt(cfg, states, actions, i);
    }
    assert IsRun(cfg, states', actions');
  }

  lemma ReachableInv(cfg: Config, sys: Sys)
    requires ValidConfig(cfg) && Reachable(cfg, sys)
    ensures Inv(cfg, sys)
  {
    var states, actions :| IsRun(cfg, states, actions) && states[|states| - 1] == sys;
    RunKeepsInv(cfg, states, actions, |states| - 1);
  }

  lemma StepOfRun(cfg: Config, states: seq<Sys>, actions: seq<Action>, i: nat)
    returns (sys: Sys, a: Action, sys': Sys)
    requires ValidConfig(cfg) && IsRun(cfg, states, actions) && i < |actions|
    ensures sys == states[i] && a == actions[i] && sys' == states[i + 1]
    ensures Inv(cfg, sys) && Step(cfg, sys, a, sys')
  {
    RunKeepsInv(cfg, states, actions, i);
    assert StepAt(cfg, states, actions, i);
    sys, a, sys' := states[i], actions[i], states[i + 1];
  }

  // ---- The file ----

  /** Prefix safety: whatever was lost, damaged, repeated or reordered, and however stale an RR, the
      server's file is the first `next - 1` chunks of the client's. */
  lemma FileIsAPrefix(cfg: Config, sys: Sys)
    requires ValidConfig(cfg) && Reachable(cfg, sys)
    ensures 1 <= sys.s.rx.next <= sys.c.winCur + 1 <= |cfg.chunks| + 1
    ensures sys.s.rx.file == Concat(cfg.chunks[..sys.s.rx.next - 1])
  {
    ReachableInv(cfg, sys);
  }

  /** End-of-file soundness: once the client says, or the server hears, that the file is at its end,
      or the client finishes through ACK_EOF, the server has the whole file. */
  lemma EndOfFileMeansWholeFile(cfg: Config, sys: Sys)
    requires ValidConfig(cfg) && Reachable(cfg, sys)
    requires || sys.c.st in {SendEofAndQuit, AwaitAckEof, Done(true)}
             || EndOfFile in sys.up
             || AckEof in sys.down
    ensures sys.s.rx.file == Concat(cfg.chunks)
  {
    ReachableInv(cfg, sys);
    assert EndOfFile in sys.up ==> UpOk(cfg, sys.c, sys.s, EndOfFile);
    assert AckEof in sys.down ==> DownOk(cfg, sys.c, sys.s, AckEof);
    assert cfg.chunks[..|cfg.chunks|] == cfg.chunks;
  }

  /** The RRs and SREJs on their way to the client are the answers the map receiver gives. */
  ghost predicate AnswersSent(cfg: Config, down: set<Msg>, log: seq<nat>)
    requires DeliveryOf(cfg.chunks, log)
  {
    forall m: Msg | m.RR? || m.SREJ? ::
      m in down <==> m in AnswerMsgs(Answers(cfg.winSize, cfg.chunks, log))
  }

  function AnswerMsgs(answers: seq<Answer>): set<Msg> {
    set a | a in answers :: a.msg
  }

  lemma MsgsOfMoreAnswers(before: seq<Answer>, reaction: Reaction, buffering: bool)
    ensures AnswerMsgs(before + AnswersIn(reaction, buffering))
         == AnswerMsgs(before) + Msgs(reaction.replies)
  {
    var more := AnswersIn(reaction, buffering);
    forall m | m in reaction.replies
      ensures m in AnswerMsgs(before + more)
    {
      var i :| 0 <= i < |reaction.replies| && reaction.replies[i] == m;
      assert more[i] in before + more;
    }
    forall a | a in before
      ensures a in before + more
    {
    }
  }

  predicate TakesData(sys: Sys, a: Action) {
    a.ServerMoves? && IsDataFor(sys.s, a.input)
  }

  lemma DataIsTaken(cfg: Config, sys: Sys, a: Action, sys': Sys)
    requires ValidConfig(cfg) && Inv(cfg, sys) && Step(cfg, sys, a, sys') && TakesData(sys, a)
    ensures var n := a.input.msg.num;
      && 1 <= n <= |cfg.chunks|
      && var reaction := Take(cfg.winSize, sys.s.rx, n, cfg.chunks[n - 1]);
      && sys'.s.rx == reaction.rx && sys'.down == sys.down + Msgs(reaction.replies)
  {
    assert UpOk(cfg, sys.c, sys.s, a.input.msg);
  }

  /** No RR, no SREJ, and the receiver as it was. */
  predicate NothingTaken(s: S.Server, reaction: S.ServerReaction) {
    && reaction.server.rx == s.rx
    && forall m | m in reaction.replies :: !m.RR? && !m.SREJ?
  }

  lemma OtherMessagesAreNotTaken(s: S.Server, m: Msg, canOpen: bool)
    requires !m.Data?
    ensures NothingTaken(s, S.OnFileName(s, canOpen))
    ensures NothingTaken(s, S.OnSetupPacket(s, m, canOpen))
    ensures NothingTaken(s, S.OnDataPacket(s, m))
  {
  }

  lemma OtherPacketsAreNotTaken(s: S.Server, input: Input, canOpen: bool)
    requires !IsDataFor(s, input)
    ensures NothingTaken(s, S.ServerStep(s, input, canOpen))
  {
    if input.Arrived? && !input.msg.Data? {
      OtherMessagesAreNotTaken(S.Heard(s), input.msg, canOpen);
    }
  }

  lemma NothingElseIsTaken(cfg: Config, sys: Sys, a: Action, sys': Sys)
    requires ValidConfig(cfg) && Step(cfg, sys, a, sys') && !TakesData(sys, a)
    ensures sys'.s.rx == sys.s.rx
    ensures forall m: Msg | m.RR? || m.SREJ? :: m in sys'.down <==> m in sys.down
  {
    if a.ServerMoves? {
      OtherPacketsAreNotTaken(sys.s, a.input, a.canOpen);
    }
  }

  lemma DataExtendsDelivery(cfg: Config, down: set<Msg>, log: seq<nat>, n: nat)
    requires DeliveryOf(cfg.chunks, log) && AnswersSent(cfg, down, log)
    requires 1 <= n <= |cfg.chunks|
    ensures var rx := AfterDelivery(cfg.winSize, cfg.chunks, log);
      var reaction := Take(cfg.winSize, rx, n, cfg.chunks[n - 1]);
      && DeliveryOf(cfg.chunks, log + [n])
      && AfterDelivery(cfg.winSize, cfg.chunks, log + [n]) == reaction.rx
      && AnswersSent(cfg, down + Msgs(reaction.replies), log + [n])
  {
    var rx := AfterDelivery(cfg.winSize, cfg.chunks, log);
    OneMoreDelivery(cfg.winSize, cfg.chunks, log, n);
    OneMoreReaction(cfg.winSize, cfg.chunks, log, n);
    MsgsOfMoreAnswers(Answers(cfg.winSize, cfg.chunks, log),
                      Take(cfg.winSize, rx, n, cfg.chunks[n - 1]), n > rx.next);
  }

  /** The server is where the map receiver is after the packets of `log`, and has answered them. */
  ghost predicate Delivered(cfg: Config, sys: Sys, log: seq<nat>) {
    && DeliveryOf(cfg.chunks, log)
    && AnswersSent(cfg, sys.down, log)
    && sys.s.rx == AfterDelivery(cfg.winSize, cfg.chunks, log)
  }

  /** ... and no packet was beyond its window. */
  ghost predicate DeliveredInWindow(cfg: Config, sys: Sys, log: seq<nat>) {
    Delivered(cfg, sys, log) && NeverBeyondWindow(cfg.winSize, cfg.chunks, log)
  }

  lemma TakingExtendsDelivery(cfg: Config, sys: Sys, sys': Sys, log: seq<nat>, n: nat)
    requires Delivered(cfg, sys, log) && 1 <= n <= |cfg.chunks|
    requires var reaction := Take(cfg.winSize, sys.s.rx, n, cfg.chunks[n - 1]);
      && sys'.s.rx == reaction.rx && sys'.down == sys.down + Msgs(reaction.replies)
    ensures Delivered(cfg, sys', log + [n])
  {
    DataExtendsDelivery(cfg, sys.down, log, n);
  }

  lemma TakingStepExtendsDelivery(cfg: Config, sys: Sys, a: Action, sys': Sys, log: seq<nat>)
    requires ValidConfig(cfg) && Inv(cfg, sys) && Step(cfg, sys, a, sys') && TakesData(sys, a)
    requires Delivered(cfg, sys, log)
    ensures Delivered(cfg, sys', log + [a.input.msg.num])
  {
    DataIsTaken(cfg, sys, a, sys');
    TakingExtendsDelivery(cfg, sys, sys', log, a.input.msg.num);
  }

  lemma OtherStepExtendsDelivery(cfg: Config, sys: Sys, a: Action, sys': Sys, log: seq<nat>)
    requires ValidConfig(cfg) && Step(cfg, sys, a, sys') && !TakesData(sys, a)
    requires Delivered(cfg, sys, log)
    ensures Delivered(cfg, sys', log)
  {
    NothingElseIsTaken(cfg, sys, a, sys');
  }

  lemma StepExtendsDelivery(cfg: Config, sys: Sys, a: Action, sys': Sys, log: seq<nat>)
    returns (log': seq<nat>)
    requires ValidConfig(cfg) && Inv(cfg, sys) && Step(cfg, sys, a, sys')
    requires Delivered(cfg, sys, log)
    ensures Delivered(cfg, sys', log') && log' == log + Taken(sys, a)
  {
    if TakesData(sys, a) {
      TakingStepExtendsDelivery(cfg, sys, a, sys', log);
      log' := log + [a.input.msg.num];
    } else {
      OtherStepExtendsDelivery(cfg, sys, a, sys', log);
      log' := log;
    }
  }

  /** The number of the packet the server takes in a step, if any. */
  function Taken(sys: Sys, a: Action): seq<nat> {
    if TakesData(sys, a) then [a.input.msg.num] else []
  }

  /** The numbers of the data packets the server took in the first `i` steps of a run, in order. */
  function LogOf(states: seq<Sys>, actions: seq<Action>, i: nat): seq<nat>
    requires |states| == |actions| + 1 && i <= |actions|
  {
    if i == 0 then []
    else
      LogOf(states, actions, i - 1) + Taken(states[i - 1], actions[i - 1])
  }

  lemma NothingIsDeliveredYet(cfg: Config)
    ensures Delivered(cfg, INIT, [])
  {
  }

  /** What the server has done with the data packets of a run is a delivery of the map receiver, and
      the RRs and SREJs it sent are that receiver's answers; so all that `Receiver` shows, of order,
      of duplicates and of answers, is true of it. */
  lemma {:induction false} ServerTakesADelivery(cfg: Config, states: seq<Sys>, actions: seq<Action>,
                                                i: nat)
    returns (log: seq<nat>)
    requires ValidConfig(cfg) && IsRun(cfg, states, actions) && i < |states|
    ensures log == LogOf(states, actions, i) && Delivered(cfg, states[i], log)
  {
    if i == 0 {
      NothingIsDeliveredYet(cfg);
      log := [];
    } else {
      log := ServerTakesADelivery(cfg, states, actions, i - 1);
      var sys, a, sys' := StepOfRun(cfg, states, actions, i - 1);
      log := StepExtendsDelivery(cfg, sys, a, sys', log);
    }
  }

  // ---- The handshake ----

  /** When the client is ready to send data, the server agrees on everything; the server sets up its
      window at most once, and has done so exactly when it is past setup with data taken. */
  lemma HandshakeAgreement(cfg: Config, sys: Sys)
    requires ValidConfig(cfg) && Reachable(cfg, sys)
    ensures sys.c.st == ReadyToSendDataSetup || InDataPhase(sys.c) ==>
              && S.AllGood(sys.s)
              && sys.s.bufSize == cfg.bufSize && sys.s.winSize == cfg.winSize
    ensures sys.inits <= 1
    ensures sys.s.phase == S.Receiving ==> sys.inits == 1 && sys.s.winSize == cfg.winSize
    ensures sys.s.phase in {S.Listening, S.SettingUp} ==> sys.inits == 0 && sys.s.rx == EMPTY
  {
    ReachableInv(cfg, sys);
  }

  // ---- The window ----

  /** Every RR the client takes in the run leaves it room. */
  predicate AllRRsKeepWindow(cfg: Config, states: seq<Sys>, actions: seq<Action>)
    requires ValidConfig(cfg) && IsRun(cfg, states, actions)
  {
    forall i {:trigger actions[i]} | 0 <= i < |actions| ::
      TakesRR(states[i], actions[i]) ==>
        KeepsWindow(cfg, states[i].c, actions[i].input.msg.num)
  }

  predicate TakesRR(sys: Sys, a: Action) {
    a.ClientMoves? && a.input.Arrived? && a.input.msg.RR? && Receiving(sys.c)
  }

  lemma StepKeepsWindow(cfg: Config, sys: Sys, a: Action, sys': Sys)
    requires ValidConfig(cfg) && Inv(cfg, sys) && Step(cfg, sys, a, sys')
    requires WithinWindow(cfg, sys.c)
    ensures WithinWindow(cfg, sys'.c) <==>
              (TakesRR(sys, a) ==> KeepsWindow(cfg, sys.c, a.input.msg.num))
  {
    if TakesRR(sys, a) {
      assert DownOk(cfg, sys.c, sys.s, a.input.msg);
      RRKeepsWindowExactly(cfg, sys.c, a.input.msg.num);
    } else if a.ClientMoves? && InDataPhase(sys.c) {
      OtherStepsKeepWindow(cfg, sys.c, a.input);
    } else if a.ClientMoves? {
      StepsOutsideKeepWindow(cfg, sys.c, a.input);
    }
  }

  /** Over a run, the client stays within its window exactly when every RR it takes leaves room. */
  lemma {:induction false} WindowKeptExactly(cfg: Config, states: seq<Sys>, actions: seq<Action>)
    requires ValidConfig(cfg) && IsRun(cfg, states, actions)
    ensures AllRRsKeepWindow(cfg, states, actions)
       <==> forall i | 0 <= i < |states| :: WithinWindow(cfg, states[i].c)
  {
    if AllRRsKeepWindow(cfg, states, actions) {
      forall i | 0 <= i < |states|
        ensures WithinWindow(cfg, states[i].c)
      {
        InWindowUpTo(cfg, states, actions, i);
      }
    }
    if forall i | 0 <= i < |states| :: WithinWindow(cfg, states[i].c) {
      forall i | 0 <= i < |actions| && TakesRR(states[i], actions[i])
        ensures KeepsWindow(cfg, states[i].c, actions[i].input.msg.num)
      {
        var sys, a, sys' := StepOfRun(cfg, states, actions, i);
        assert WithinWindow(cfg, sys.c) && WithinWindow(cfg, sys'.c);
        StepKeepsWindow(cfg, sys, a, sys');
      }
    }
  }

  lemma StaysInWindow(cfg: Config, states: seq<Sys>, actions: seq<Action>, i: nat)
    requires ValidConfig(cfg) && IsRun(cfg, states, actions) && i < |actions|
    requires AllRRsKeepWindow(cfg, states, actions) && WithinWindow(cfg, states[i].c)
    ensures WithinWindow(cfg, states[i + 1].c)
  {
    var sys, a, sys' := StepOfRun(cfg, states, actions, i);
    StepKeepsWindow(cfg, sys, a, sys');
  }

  lemma {:induction false} InWindowUpTo(cfg: Config, states: seq<Sys>, actions: seq<Action>, i: nat)
    requires ValidConfig(cfg) && IsRun(cfg, states, actions) && i < |states|
    requires AllRRsKeepWindow(cfg, states, actions)
    ensures WithinWindow(cfg, states[i].c)
  {
    if i > 0 {
      InWindowUpTo(cfg, states, actions, i - 1);
      StaysInWindow(cfg, states, actions, i - 1);
    }
  }

  /** The two windows fit together in every state, whether or not the client is still there; what it
      sent stays within the server's window while the client keeps to its own. */
  lemma WindowsFit(cfg: Config, sys: Sys)
    requires ValidConfig(cfg) && Reachable(cfg, sys)
    ensures var serverMin := sys.s.rx.next - 1;
      && sys.c.winMin <= serverMin <= sys.c.winCur
      && sys.c.winMax <= serverMin + cfg.winSize
      && (WithinWindow(cfg, sys.c) ==>
            forall m | m in sys.up && m.Data? :: m.num < sys.s.rx.next + cfg.winSize)
  {
    ReachableInv(cfg, sys);
    forall m | m in sys.up && m.Data?
      ensures m.num <= sys.c.winCur
    {
      assert UpOk(cfg, sys.c, sys.s, m);
    }
  }

  /** A packet the server takes is inside its window while the client keeps to its own. */
  lemma TakenPacketIsInWindow(cfg: Config, sys: Sys, a: Action)
    requires ValidConfig(cfg) && Inv(cfg, sys) && WithinWindow(cfg, sys.c)
    requires TakesData(sys, a) && CanHappen(sys, a)
    ensures 1 <= a.input.msg.num <= |cfg.chunks|
    ensures a.input.msg.num < sys.s.rx.next + cfg.winSize
  {
    assert UpOk(cfg, sys.c, sys.s, a.input.msg);
  }

  lemma StepOfRunInWindow(cfg: Config, states: seq<Sys>, actions: seq<Action>, i: nat)
    returns (sys: Sys, a: Action, sys': Sys)
    requires ValidConfig(cfg) && IsRun(cfg, states, actions) && i < |actions|
    requires AllRRsKeepWindow(cfg, states, actions)
    ensures sys == states[i] && a == actions[i] && sys' == states[i + 1]
    ensures Inv(cfg, sys) && Step(cfg, sys, a, sys') && WithinWindow(cfg, sys.c)
  {
    InWindowUpTo(cfg, states, actions, i);
    sys, a, sys' := StepOfRun(cfg, states, actions, i);
  }

  /** The branch of `buffer_packet` for packets outside the window is never taken in such runs. */
  lemma NoPacketIsBeyondWindow(cfg: Config, states: seq<Sys>, actions: seq<Action>, i: nat)
    requires ValidConfig(cfg) && IsRun(cfg, states, actions) && i < |actions|
    requires AllRRsKeepWindow(cfg, states, actions) && TakesData(states[i], actions[i])
    ensures actions[i].input.msg.num < states[i].s.rx.next + cfg.winSize
  {
    var sys, a, sys' := StepOfRunInWindow(cfg, states, actions, i);
    TakenPacketIsInWindow(cfg, sys, a);
  }

  lemma StepStaysInWindow(cfg: Config, sys: Sys, a: Action, sys': Sys, before: seq<nat>)
    returns (log: seq<nat>)
    requires ValidConfig(cfg) && Inv(cfg, sys) && Step(cfg, sys, a, sys')
    requires WithinWindow(cfg, sys.c) && DeliveredInWindow(cfg, sys, before)
    ensures log == before + Taken(sys, a) && DeliveredInWindow(cfg, sys', log)
  {
    log := StepExtendsDelivery(cfg, sys, a, sys', before);
    if TakesData(sys, a) {
      TakenPacketIsInWindow(cfg, sys, a);
      NeverBeyondGrows(cfg.winSize, cfg.chunks, before, a.input.msg.num);
    } else {
      assert log == before;
    }
  }

  lemma {:induction false} LogStaysInWindow(cfg: Config, states: seq<Sys>, actions: seq<Action>,
                                            i: nat)
    returns (log: seq<nat>, last: Sys)
    requires ValidConfig(cfg) && IsRun(cfg, states, actions) && i < |states|
    requires AllRRsKeepWindow(cfg, states, actions)
    ensures log == LogOf(states, actions, i) && last == states[i]
    ensures DeliveredInWindow(cfg, last, log)
  {
    if i == 0 {
      NothingIsDeliveredYet(cfg);
      log, last := [], INIT;
    } else {
      log, last := LogStaysInWindow(cfg, states, actions, i - 1);
      var sys, a, sys' := StepOfRunInWindow(cfg, states, actions, i - 1);
      log := StepStaysInWindow(cfg, last, a, sys', log);
      last := sys';
    }
  }

  /** So once the server has taken each packet of such a run, in any order and any number of times,
      the file is complete and the ring empty. */
  lemma AllTakenMeansComplete(cfg: Config, states: seq<Sys>, actions: seq<Action>, i: nat)
    requires ValidConfig(cfg) && IsRun(cfg, states, actions) && i < |states|
    requires AllRRsKeepWindow(cfg, states, actions)
    requires forall n: nat | 1 <= n <= |cfg.chunks| :: n in LogOf(states, actions, i)
    ensures var rx := states[i].s.rx;
      rx.next == |cfg.chunks| + 1 && rx.held == map[] && rx.file == Concat(cfg.chunks)
  {
    var log, last := LogStaysInWindow(cfg, states, actions, i);
    EverythingArrives(cfg.winSize, cfg.chunks, log);
  }

  /** The RRs the client takes are strictly increasing. */
  predicate RRsIncrease(cfg: Config, states: seq<Sys>, actions: seq<Action>)
    requires ValidConfig(cfg) && IsRun(cfg, states, actions)
  {
    forall i {:trigger actions[i]} | 0 <= i < |actions| && TakesRR(states[i], actions[i]) ::
      actions[i].input.msg.num > states[i].c.winMin + 1
  }

  /** Each of them leaves the client room. */
  lemma IncreasingRRKeepsWindow(cfg: Config, states: seq<Sys>, actions: seq<Action>, i: nat)
    requires ValidConfig(cfg) && IsRun(cfg, states, actions) && i < |actions|
    requires RRsIncrease(cfg, states, actions) && WithinWindow(cfg, states[i].c)
    ensures WithinWindow(cfg, states[i + 1].c)
  {
    var sys, a, sys' := StepOfRun(cfg, states, actions, i);
    if TakesRR(sys, a) {
      LargerRRKeepsWindow(cfg, sys.c, a.input.msg.num);
    }
    StepKeepsWindow(cfg, sys, a, sys');
  }

  lemma {:induction false} IncreasingUpTo(cfg: Config, states: seq<Sys>, actions: seq<Action>, i: nat)
    requires ValidConfig(cfg) && IsRun(cfg, states, actions) && i < |states|
    requires RRsIncrease(cfg, states, actions)
    ensures WithinWindow(cfg, states[i].c)
  {
    if i > 0 {
      IncreasingUpTo(cfg, states, actions, i - 1);
      IncreasingRRKeepsWindow(cfg, states, actions, i - 1);
    }
  }

  /** So all that holds of runs within the window holds of runs with increasing RRs. */
  lemma IncreasingRRsKeepWindow(cfg: Config, states: seq<Sys>, actions: seq<Action>)
    requires ValidConfig(cfg) && IsRun(cfg, states, actions)
    requires RRsIncrease(cfg, states, actions)
    ensures AllRRsKeepWindow(cfg, states, actions)
  {
    forall i | 0 <= i < |states|
      ensures WithinWindow(cfg, states[i].c)
    {
      IncreasingUpTo(cfg, states, actions, i);
    }
    WindowKeptExactly(cfg, states, actions);
  }

  /** In every state of such runs, no data packet ever sent is beyond the server's window, and the ring
      has every packet that a timeout or an outstanding SREJ asks for. */
  lemma IncreasingRRsAreSafe(cfg: Config, states: seq<Sys>, actions: seq<Action>, i: nat)
    requires ValidConfig(cfg) && IsRun(cfg, states, actions) && i < |states|
    requires RRsIncrease(cfg, states, actions)
    ensures var c := states[i].c;
      && c.winMin <= c.winCur <= c.winMin + cfg.winSize && c.winCur <= |cfg.chunks|
      && (forall m | m in states[i].up && m.Data? :: m.num < states[i].s.rx.next + cfg.winSize)
      && (forall index | c.winMin <= index < c.winCur ::
            SendFromWindow(cfg, c, index).sends == [Data(index + 1, cfg.chunks[index])])
  {
    IncreasingUpTo(cfg, states, actions, i);
    RunKeepsInv(cfg, states, actions, i);
    RunIsReachable(cfg, states, actions, i);
    WindowsFit(cfg, states[i]);
    var c := states[i].c;
    forall index | c.winMin <= index < c.winCur
      ensures SendFromWindow(cfg, c, index).sends == [Data(index + 1, cfg.chunks[index])]
    {
      ResendSendsThePacketAskedFor(cfg, c, index);
    }
  }

  lemma NextIsReachable(cfg: Config, states: seq<Sys>, actions: seq<Action>, i: nat)
    requires ValidConfig(cfg) && IsRun(cfg, states, actions) && i < |actions|
    requires Reachable(cfg, states[i])
    ensures Reachable(cfg, states[i + 1])
  {
    var sys, a, sys' := StepOfRun(cfg, states, actions, i);
    StepIsReachable(cfg, sys, a);
  }

  lemma {:induction false} RunIsReachable(cfg: Config, states: seq<Sys>, actions: seq<Action>, i: nat)
    requires ValidConfig(cfg) && IsRun(cfg, states, actions) && i < |states|
    ensures Reachable(cfg, states[i])
  {
    if i == 0 {
      StartIsReachable(cfg);
    } else {
      RunIsReachable(cfg, states, actions, i - 1);
      NextIsReachable(cfg, states, actions, i - 1);
    }
  }

  // ---- Aborts and silence ----

  /** The client aborts, on an empty send, in exactly two situations. Either it has every packet
      acknowledged before it saw the end of the file, fewer than `winSize` of them, and times out; or
      a SREJ reached it in the end-of-file phase when none had before, and the slot of index
      2^32 - 1 was never filled. No SREJ of the data phase can do it. */
  lemma AbortsExactly(cfg: Config, sys: Sys, input: Input)
    requires ValidConfig(cfg) && Reachable(cfg, sys) && !Ended(sys.c)
    ensures sys.c.winCur <= |cfg.chunks|
    ensures ClientStep(cfg, sys.c, input).client.st == Aborted
       <==> ResendsEmptySlot(cfg, sys.c, input)
  {
    ReachableInv(cfg, sys);
    AbortsOnlyThere(cfg, sys.c, sys.s, input);
  }

  predicate ResendsEmptySlot(cfg: Config, c: Client, input: Input)
    requires 0 < cfg.winSize
  {
    || (&& c.st == ReceiveDataWindowClosed && input == Silence && c.timeout < 10
        && c.doneTransmitting && c.winMin == c.winCur < cfg.winSize)
    || (&& c.st == SendDataSREJ && c.srejNum == 0
        && c.winCur <= (TWO_TO_THE_32 - 1) % cfg.winSize)
  }

  lemma SetupNeverAborts(cfg: Config, c: Client, input: Input)
    requires !Ended(c)
    ensures SetupStep(cfg, c, input).client.st != Aborted
  {
  }

  /** Only a resend can abort, and it does when its slot was never filled. */
  lemma AbortsOnEmptySlot(cfg: Config, c: Client, input: Input)
    requires ValidConfig(cfg) && c.winCur <= |cfg.chunks| && !Ended(c)
    ensures ClientStep(cfg, c, input).client.st == Aborted <==>
      || (&& c.st == ReceiveDataWindowClosed && input == Silence && c.timeout < 10
          && c.winCur <= c.winMin % cfg.winSize)
      || (c.st == SendDataSREJ && c.winCur <= Pred32(c.srejNum) % cfg.winSize)
  {
    SetupNeverAborts(cfg, c, input);
  }

  lemma AbortsOnlyThere(cfg: Config, c: Client, s: S.Server, input: Input)
    requires ValidConfig(cfg) && ClientOk(cfg, c, s) && s.rx.next <= c.winCur + 1 && !Ended(c)
    ensures ClientStep(cfg, c, input).client.st == Aborted <==> ResendsEmptySlot(cfg, c, input)
  {
    AbortsOnEmptySlot(cfg, c, input);
    RemainderBound(c.winMin, cfg.winSize);
    if c.srejNum > 0 {
      RemainderBound(c.srejNum - 1, cfg.winSize);
    }
  }

  lemma AbortingStepMeansShort(cfg: Config, sys: Sys, a: Action, sys': Sys)
    requires ValidConfig(cfg) && Inv(cfg, sys) && Step(cfg, sys, a, sys')
    requires sys.c.st != Aborted && sys'.c.st == Aborted
    ensures |cfg.chunks| < cfg.winSize
  {
    AbortsOnlyThere(cfg, sys.c, sys.s, a.input);
    assert (TWO_TO_THE_32 - 1) % cfg.winSize < cfg.winSize;
  }

  /** So the client only ever aborts when the file is shorter than the window. */
  lemma {:induction false} AbortedMeansShort(cfg: Config, states: seq<Sys>, actions: seq<Action>,
                                             i: nat)
    requires ValidConfig(cfg) && IsRun(cfg, states, actions) && i < |states|
    requires states[i].c.st == Aborted
    ensures |cfg.chunks| < cfg.winSize
  {
    if i > 0 {
      var sys, a, sys' := StepOfRun(cfg, states, actions, i - 1);
      if sys.c.st == Aborted {
        AbortedMeansShort(cfg, states, actions, i - 1);
      } else {
        AbortingStepMeansShort(cfg, sys, a, sys');
      }
    }
  }

  /** From every reachable state, if nothing arrives any more, the client gives up after exactly eleven
      timeouts in a row, unless it aborts before, and does not take the transfer for finished. */
  lemma SilenceEndsTheClient(cfg: Config, sys: Sys)
    requires ValidConfig(cfg) && Reachable(cfg, sys) && !Ended(sys.c)
    ensures sys.c.winCur <= |cfg.chunks| && sys.c.timeout <= 11
    ensures var end := RunSilently(cfg, sys.c);
      var left := if sys.c.st == ReadyToSendDataSetup then 11 else 11 - sys.c.timeout;
      && Ended(end.client) && end.client.st != Done(true) && end.timeouts <= left
      && (end.client.st != Aborted ==> end.timeouts == left)
  {
    ReachableInv(cfg, sys);
    SilentClientGivesUp(cfg, sys.c);
  }

  // ---- Timeouts over runs ----

  /** The silences in a row, up to state `i`, that the client has counted. */
  function Silences(states: seq<Sys>, actions: seq<Action>, i: nat): nat
    requires |states| == |actions| + 1 && i <= |actions|
  {
    if i == 0 then 0
    else
      var sys, a := states[i - 1], actions[i - 1];
      if a.ClientMoves? then CountAfter(sys.c, a.input, Silences(states, actions, i - 1))
      else Silences(states, actions, i - 1)
  }

  lemma {:induction false} TimeoutIsSilences(cfg: Config, states: seq<Sys>, actions: seq<Action>,
                                             i: nat)
    requires ValidConfig(cfg) && IsRun(cfg, states, actions) && i < |states|
    ensures states[i].c.timeout == Silences(states, actions, i)
  {
    if i > 0 {
      TimeoutIsSilences(cfg, states, actions, i - 1);
      var sys, a, sys' := StepOfRun(cfg, states, actions, i - 1);
      if a.ClientMoves? {
        TimesOutExactly(cfg, sys.c, a.input);
      }
    }
  }

  /** The silences in a row that the server has counted in its setup. */
  function ServerSilences(states: seq<Sys>, actions: seq<Action>, i: nat): nat
    requires |states| == |actions| + 1 && i <= |actions|
  {
    if i == 0 then 0
    else
      var s, a := states[i - 1].s, actions[i - 1];
      var n := ServerSilences(states, actions, i - 1);
      if a.ClientMoves? then n
      else if s.phase == S.SettingUp && a.input == Silence then n + 1
      else if s.phase in {S.SettingUp, S.Receiving} && a.input != Silence then 0
      else n
  }

  lemma {:induction false} TimeoutIsServerSilences(cfg: Config, states: seq<Sys>,
                                                   actions: seq<Action>, i: nat)
    requires ValidConfig(cfg) && IsRun(cfg, states, actions) && i < |states|
    ensures states[i].s.timeout == ServerSilences(states, actions, i)
  {
    if i > 0 {
      TimeoutIsServerSilences(cfg, states, actions, i - 1);
      var sys, a, sys' := StepOfRun(cfg, states, actions, i - 1);
      if a.ServerMoves? {
        S.TimeoutCount(sys.s, a.input, a.canOpen);
      }
    }
  }

  /** Why the server ends, in a run: the file cannot be opened, eleven silences in a row in the setup, one
      silence in the data phase, or the end of the file. */
  predicate ServerEndsAt(states: seq<Sys>, actions: seq<Action>, j: nat)
    requires |states| == |actions| + 1 && j < |actions|
  {
    var s, a := states[j].s, actions[j];
    && a.ServerMoves?
    && match s.phase
       case Listening => a.input.Arrived? && !a.canOpen
       case SettingUp => a.input == Silence && ServerSilences(states, actions, j) >= 10
       case Receiving => a.input == Silence || a.input == Arrived(EndOfFile)
       case Closed => false
  }

  lemma StepEndsServer(cfg: Config, states: seq<Sys>, actions: seq<Action>, i: nat)
    requires ValidConfig(cfg) && IsRun(cfg, states, actions) && i < |actions|
    ensures states[i + 1].s.phase == S.Closed
       <==> states[i].s.phase == S.Closed || ServerEndsAt(states, actions, i)
  {
    var sys, a, sys' := StepOfRun(cfg, states, actions, i);
    TimeoutIsServerSilences(cfg, states, actions, i);
    if a.ServerMoves? {
      S.EndsExactly(sys.s, a.input, a.canOpen);
    }
  }

  /** Over a run, the server has ended exactly when one of these has happened; nothing else, and no
      damaged packet, ends it. */
  lemma {:induction false} ServerEndsExactly(cfg: Config, states: seq<Sys>, actions: seq<Action>,
                                             i: nat)
    requires ValidConfig(cfg) && IsRun(cfg, states, actions) && i < |states|
    ensures states[i].s.phase == S.Closed
       <==> exists j :: 0 <= j < i && ServerEndsAt(states, actions, j)
  {
    if i > 0 {
      ServerEndsExactly(cfg, states, actions, i - 1);
      StepEndsServer(cfg, states, actions, i - 1);
    }
  }

  // ---- The setup over runs ----

  /** The client has heard `ack`, waiting for it, in the first `i` steps. */
  ghost predicate Took(states: seq<Sys>, actions: seq<Action>, i: nat, ack: Msg)
    requires |states| == |actions| + 1 && i <= |actions|
  {
    exists j :: 0 <= j < i && Takes(states[j], actions[j], ack)
  }

  predicate Takes(sys: Sys, a: Action, ack: Msg) {
    sys.c.st == WaitForSetupAcks && a == ClientMoves(Arrived(ack))
  }

  lemma StepTakes(cfg: Config, sys: Sys, a: Action, sys': Sys)
    requires ValidConfig(cfg) && Step(cfg, sys, a, sys')
    ensures sys'.c.fileSuccess <==> sys.c.fileSuccess || Takes(sys, a, AckFileName)
    ensures sys'.c.bufSuccess <==> sys.c.bufSuccess || Takes(sys, a, AckBufferSize)
  {
    if a.ClientMoves? {
      WhatChanges(cfg, sys.c, a.input);
    }
  }

  lemma NextTakes(cfg: Config, states: seq<Sys>, actions: seq<Action>, i: nat)
    requires ValidConfig(cfg) && IsRun(cfg, states, actions) && i < |actions|
    ensures states[i + 1].c.fileSuccess
       <==> states[i].c.fileSuccess || Takes(states[i], actions[i], AckFileName)
    ensures states[i + 1].c.bufSuccess
       <==> states[i].c.bufSuccess || Takes(states[i], actions[i], AckBufferSize)
  {
    var sys, a, sys' := StepOfRun(cfg, states, actions, i);
    StepTakes(cfg, sys, a, sys');
  }

  lemma {:induction false} AckedExactly(cfg: Config, states: seq<Sys>, actions: seq<Action>, i: nat)
    requires ValidConfig(cfg) && IsRun(cfg, states, actions) && i < |states|
    ensures states[i].c.fileSuccess <==> Took(states, actions, i, AckFileName)
    ensures states[i].c.bufSuccess <==> Took(states, actions, i, AckBufferSize)
  {
    if i > 0 {
      AckedExactly(cfg, states, actions, i - 1);
      NextTakes(cfg, states, actions, i - 1);
    }
  }

  /** In any run, after a silence in the setup that is not the eleventh in a row, what the client does next
      is to send again the first of name, buffer size and window size that it has not heard
      acknowledged. */
  lemma MissingIsSentAgain(cfg: Config, states: seq<Sys>, actions: seq<Action>, i: nat, input: Input)
    requires ValidConfig(cfg) && IsRun(cfg, states, actions) && i < |actions|
    requires states[i].c.st == WaitForSetupAcks && actions[i] == ClientMoves(Silence)
    requires Silences(states, actions, i) != 10
    ensures states[i + 1].c.winCur <= |cfg.chunks|
    ensures ClientStep(cfg, states[i + 1].c, input).sends
         == [Missing(cfg, Took(states, actions, i, AckFileName),
                     Took(states, actions, i, AckBufferSize))]
  {
    var sys, a, sys' := StepOfRun(cfg, states, actions, i);
    TimeoutIsSilences(cfg, states, actions, i);
    AckedExactly(cfg, states, actions, i);
    SetupIsRetried(cfg, sys.c, input);
  }

  /** And after a silence that is not the eleventh while it waits for ACK_EOF, it sends END_OF_FILE again. */
  lemma EndOfFileIsSentAgain(cfg: Config, states: seq<Sys>, actions: seq<Action>, i: nat, input: Input)
    requires ValidConfig(cfg) && IsRun(cfg, states, actions) && i < |actions|
    requires states[i].c.st == AwaitAckEof && actions[i] == ClientMoves(Silence)
    requires Silences(states, actions, i) != 10
    ensures states[i + 1].c.winCur <= |cfg.chunks|
    ensures ClientStep(cfg, states[i + 1].c, input).sends == [EndOfFile]
  {
    var sys, a, sys' := StepOfRun(cfg, states, actions, i);
    TimeoutIsSilences(cfg, states, actions, i);
    EndOfFileIsRetried(cfg, sys.c, input);
  }

  // ---- The end without ACK_EOF ----

  predicate IsSetupAck(m: Msg) {
    m in {AckFileName, AckBufferSize, AckWindowSize}
  }

  /** A stray acknowledgment of the setup, or the timeouts, end the data phase. */
  predicate EndsWithoutAck(sys: Sys, a: Action) {
    && a.ClientMoves?
    && (sys.c.st == TimeoutOnServer
        || (Receiving(sys.c) && a.input.Arrived? && IsSetupAck(a.input.msg)))
  }

  /** A step of the data phase ends at DONE without ACK_EOF exactly then. */
  lemma StepEndsWithoutAckExactly(cfg: Config, sys: Sys, a: Action, sys': Sys)
    requires ValidConfig(cfg) && Inv(cfg, sys) && Step(cfg, sys, a, sys') && InDataPhase(sys.c)
    ensures sys'.c.st == Done(false) <==> EndsWithoutAck(sys, a)
  {
    if a.ClientMoves? && a.input.Arrived? {
      assert DownOk(cfg, sys.c, sys.s, a.input.msg);
    }
  }

  predicate TimedOut(c: Client) {
    c.st in {TimeoutOnSetupServer, TimeoutOnServer}
  }

  /** What ends the client at once: the name refused, or an acknowledgment of the setup in the data
      phase. */
  predicate EndsAtOnce(sys: Sys, a: Action) {
    && a.ClientMoves? && a.input.Arrived?
    && ((sys.c.st == WaitForSetupAcks && a.input.msg == RejFileNameNoOpen)
        || (Receiving(sys.c) && IsSetupAck(a.input.msg)))
  }

  lemma SetupStepEndsExactly(cfg: Config, c: Client, input: Input)
    requires InSetup(c.st)
    ensures SetupStep(cfg, c, input).client.st == Done(false) <==>
              || c.st == TimeoutOnSetupServer
              || (c.st == WaitForSetupAcks && input == Arrived(RejFileNameNoOpen))
  {
  }

  lemma StepToDone(cfg: Config, sys: Sys, a: Action, sys': Sys)
    requires ValidConfig(cfg) && Inv(cfg, sys) && Step(cfg, sys, a, sys')
    ensures sys'.c.st == Done(false) <==>
              || sys.c.st == Done(false)
              || (a.ClientMoves? && TimedOut(sys.c))
              || EndsAtOnce(sys, a)
    ensures TimedOut(sys'.c) <==> if a.ClientMoves? then GivesUp(sys.c, a.input) else TimedOut(sys.c)
  {
    if a.ClientMoves? {
      TimesOutExactly(cfg, sys.c, a.input);
      if InSetup(sys.c.st) {
        SetupStepEndsExactly(cfg, sys.c, a.input);
      } else if InDataPhase(sys.c) {
        StepEndsWithoutAckExactly(cfg, sys, a, sys');
      }
    }
  }

  /** The eleventh silence in a row. */
  predicate EleventhSilence(states: seq<Sys>, actions: seq<Action>, j: nat)
    requires |states| == |actions| + 1 && j < |actions|
  {
    && actions[j] == ClientMoves(Silence) && CountsTimeouts(states[j].c.st)
    && Silences(states, actions, j) == 10
  }

  /** The same step, in terms of the run. */
  lemma StepOfEnd(cfg: Config, states: seq<Sys>, actions: seq<Action>, i: nat)
    requires ValidConfig(cfg) && IsRun(cfg, states, actions) && i < |actions|
    ensures states[i + 1].c.st == Done(false) <==>
              || states[i].c.st == Done(false)
              || (actions[i].ClientMoves? && TimedOut(states[i].c))
              || EndsAtOnce(states[i], actions[i])
    ensures TimedOut(states[i + 1].c) <==>
              if actions[i].ClientMoves? then EleventhSilence(states, actions, i)
              else TimedOut(states[i].c)
  {
    var sys, a, sys' := StepOfRun(cfg, states, actions, i);
    TimeoutIsSilences(cfg, states, actions, i);
    StepToDone(cfg, sys, a, sys');
  }

  /** The timeouts ran out in the first `i` steps, and the client has moved since. */
  ghost predicate RanOut(states: seq<Sys>, actions: seq<Action>, i: nat)
    requires |states| == |actions| + 1 && i <= |actions|
  {
    exists j, k :: 0 <= j < k < i && EleventhSilence(states, actions, j) && actions[k].ClientMoves?
  }

  ghost predicate WasEnded(states: seq<Sys>, actions: seq<Action>, i: nat)
    requires |states| == |actions| + 1 && i <= |actions|
  {
    exists j :: 0 <= j < i && EndsAtOnce(states[j], actions[j])
  }

  lemma {:induction false} WhyTimedOut(cfg: Config, states: seq<Sys>, actions: seq<Action>, i: nat)
    returns (j: nat)
    requires ValidConfig(cfg) && IsRun(cfg, states, actions) && i < |states|
    requires TimedOut(states[i].c)
    ensures j < i && EleventhSilence(states, actions, j)
  {
    StepOfEnd(cfg, states, actions, i - 1);
    if actions[i - 1].ClientMoves? {
      j := i - 1;
    } else {
      j := WhyTimedOut(cfg, states, actions, i - 1);
    }
  }

  lemma {:induction false} WhyDone(cfg: Config, states: seq<Sys>, actions: seq<Action>, i: nat)
    requires ValidConfig(cfg) && IsRun(cfg, states, actions) && i < |states|
    requires states[i].c.st == Done(false)
    ensures RanOut(states, actions, i) || WasEnded(states, actions, i)
  {
    StepOfEnd(cfg, states, actions, i - 1);
    if states[i - 1].c.st == Done(false) {
      WhyDone(cfg, states, actions, i - 1);
    } else if TimedOut(states[i - 1].c) && actions[i - 1].ClientMoves? {
      var j := WhyTimedOut(cfg, states, actions, i - 1);
    } else {
      assert EndsAtOnce(states[i - 1], actions[i - 1]);
    }
  }

  lemma {:induction false} DoneForGood(cfg: Config, states: seq<Sys>, actions: seq<Action>,
                                       j: nat, i: nat)
    requires ValidConfig(cfg) && IsRun(cfg, states, actions) && j <= i < |states|
    requires states[j].c.st == Done(false)
    ensures states[i].c.st == Done(false)
    decreases i - j
  {
    if j < i {
      StepOfEnd(cfg, states, actions, j);
      DoneForGood(cfg, states, actions, j + 1, i);
    }
  }

  /** A client that has timed out is done with its next move. */
  lemma {:induction false} TimedOutThenDone(cfg: Config, states: seq<Sys>, actions: seq<Action>,
                                            j: nat, k: nat)
    requires ValidConfig(cfg) && IsRun(cfg, states, actions) && j <= k < |actions|
    requires TimedOut(states[j].c) && actions[k].ClientMoves?
    ensures states[k + 1].c.st == Done(false)
    decreases k - j
  {
    StepOfEnd(cfg, states, actions, j);
    if actions[j].ClientMoves? {
      DoneForGood(cfg, states, actions, j + 1, k + 1);
    } else {
      TimedOutThenDone(cfg, states, actions, j + 1, k);
    }
  }

  /** Over a run, the client is at DONE without ACK_EOF exactly when there were eleven silences in a row and
      it has moved since, or its name was refused, or it took an acknowledgment of the setup in the
      data phase. */
  lemma DoneWithoutAckExactly(cfg: Config, states: seq<Sys>, actions: seq<Action>, i: nat)
    requires ValidConfig(cfg) && IsRun(cfg, states, actions) && i < |states|
    ensures states[i].c.st == Done(false)
       <==> RanOut(states, actions, i) || WasEnded(states, actions, i)
  {
    if states[i].c.st == Done(false) {
      WhyDone(cfg, states, actions, i);
    }
    if RanOut(states, actions, i) {
      var j, k :| 0 <= j < k < i && EleventhSilence(states, actions, j) && actions[k].ClientMoves?;
      StepOfEnd(cfg, states, actions, j);
      TimedOutThenDone(cfg, states, actions, j + 1, k);
      DoneForGood(cfg, states, actions, k + 1, i);
    }
    if WasEnded(states, actions, i) {
      var j :| 0 <= j < i && EndsAtOnce(states[j], actions[j]);
      StepOfEnd(cfg, states, actions, j);
      DoneForGood(cfg, states, actions, j + 1, i);
    }
  }

  // ---- A packet that is gone ----

  /** What the server awaits is no longer in the client's ring: its slot was used again. */
  predicate Overwritten(cfg: Config, c: Client, s: S.Server) {
    s.rx.next + cfg.winSize <= c.winCur
  }

  predicate TakesPacket(sys: Sys, a: Action, n: nat) {
    TakesData(sys, a) && a.input.msg.num == n
  }

  predicate SendsPacket(cfg: Config, sys: Sys, a: Action, n: nat)
    requires ValidConfig(cfg) && sys.c.winCur <= |cfg.chunks|
  {
    a.ClientMoves? &&
    exists m | m in ClientStep(cfg, sys.c, a.input).sends :: m.Data? && m.num == n
  }

  lemma OverwrittenIsNotSent(cfg: Config, c: Client, s: S.Server, input: Input)
    requires ValidConfig(cfg) && c.winCur <= |cfg.chunks| && Overwritten(cfg, c, s)
    ensures forall m | m in ClientStep(cfg, c, input).sends :: m.Data? ==> m.num > s.rx.next
  {
    var w := cfg.winSize;
    if InSlot(c.winCur, w, c.winMin).Packet? {
      SlotOfResend(c.winCur, w, c.winMin);
    }
    if InSlot(c.winCur, w, Pred32(c.srejNum)).Packet? {
      SlotOfResend(c.winCur, w, Pred32(c.srejNum));
    }
  }

  lemma OverwrittenStep(cfg: Config, sys: Sys, a: Action, sys': Sys)
    requires ValidConfig(cfg) && Inv(cfg, sys) && Step(cfg, sys, a, sys')
    requires Overwritten(cfg, sys.c, sys.s)
    ensures !SendsPacket(cfg, sys, a, sys.s.rx.next)
    ensures !TakesPacket(sys, a, sys.s.rx.next) ==>
              && Overwritten(cfg, sys'.c, sys'.s)
              && sys'.s.rx.next == sys.s.rx.next && sys'.s.rx.file == sys.s.rx.file
  {
    OverwrittenIsNotSent(cfg, sys.c, sys.s, a.input);
    if TakesData(sys, a) {
      DataIsTaken(cfg, sys, a, sys');
    } else {
      NothingElseIsTaken(cfg, sys, a, sys');
    }
    StepKeepsInv(cfg, sys, a, sys');
  }

  /** Nothing has changed since `first` that could help. */
  predicate Stuck(cfg: Config, first: Sys, sys: Sys) {
    && Overwritten(cfg, sys.c, sys.s)
    && sys.s.rx.next == first.s.rx.next && sys.s.rx.file == first.s.rx.file
  }

  lemma StuckNext(cfg: Config, states: seq<Sys>, actions: seq<Action>, first: Sys, i: nat)
    requires ValidConfig(cfg) && IsRun(cfg, states, actions) && i < |actions|
    requires Stuck(cfg, first, states[i])
    requires !TakesPacket(states[i], actions[i], first.s.rx.next)
    ensures Stuck(cfg, first, states[i + 1])
  {
    var sys, a, sys' := StepOfRun(cfg, states, actions, i);
    OverwrittenStep(cfg, sys, a, sys');
  }

  lemma {:induction false} StuckUpTo(cfg: Config, states: seq<Sys>, actions: seq<Action>,
                                     i: nat, j: nat)
    requires ValidConfig(cfg) && IsRun(cfg, states, actions) && i <= j < |states|
    requires Overwritten(cfg, states[i].c, states[i].s)
    requires forall k | i <= k < j :: !TakesPacket(states[k], actions[k], states[i].s.rx.next)
    ensures Stuck(cfg, states[i], states[j])
    decreases j - i
  {
    if i < j {
      StuckUpTo(cfg, states, actions, i, j - 1);
      StuckNext(cfg, states, actions, states[i], j - 1);
    }
  }

  lemma NotSentWhenStuck(cfg: Config, states: seq<Sys>, actions: seq<Action>, i: nat)
    requires ValidConfig(cfg) && IsRun(cfg, states, actions) && i < |actions|
    requires Overwritten(cfg, states[i].c, states[i].s)
    ensures states[i].c.winCur <= |cfg.chunks|
    ensures !SendsPacket(cfg, states[i], actions[i], states[i].s.rx.next)
  {
    var sys, a, sys' := StepOfRun(cfg, states, actions, i);
    OverwrittenStep(cfg, sys, a, sys');
  }

  /** Whatever is lost, repeated, reordered or damaged: from a state in which the packet awaited is
      overwritten, the client never sends it again; and until the server takes a copy that was sent
      earlier, its file does not grow and the upload does not end. */
  lemma OverwrittenIsStuck(cfg: Config, states: seq<Sys>, actions: seq<Action>, i: nat, j: nat)
    requires ValidConfig(cfg) && IsRun(cfg, states, actions) && i <= j < |states|
    requires Overwritten(cfg, states[i].c, states[i].s)
    requires forall k | i <= k < j :: !TakesPacket(states[k], actions[k], states[i].s.rx.next)
    ensures states[j].c.winCur <= |cfg.chunks| && Overwritten(cfg, states[j].c, states[j].s)
    ensures states[j].s.rx.next == states[i].s.rx.next
    ensures states[j].s.rx.file == states[i].s.rx.file
    ensures states[j].c.st !in {SendEofAndQuit, AwaitAckEof, Done(true)}
    ensures j < |actions| ==> !SendsPacket(cfg, states[j], actions[j], states[i].s.rx.next)
  {
    StuckUpTo(cfg, states, actions, i, j);
    RunKeepsInv(cfg, states, actions, j);
    if j < |actions| {
      NotSentWhenStuck(cfg, states, actions, j);
    }
  }
}
