/** The same two processes over a network of bytes: every message is framed, goes through the fault
    injector, and what reaches the other side is read back through `recv_buf`. Every run here is a
    run of `Protocol`, so the end-to-end theorems hold of the bytes. */
module Wire {
  import opened Bytes
  import opened Checksum
  import opened Packets
  import opened Channel
  import opened ClientModel
  import opened Theorems
  import P = Protocol
  import S = ServerModel

  /** `up` and `down` are the datagrams that got past the injector; the network may deliver each of
      them any number of times, at any time, or never. */
  datatype Sys = Sys(c: Client, s: S.Server, up: set<seq<byte>>, down: set<seq<byte>>)

  /** What a send does not decide itself: the sequence number in use, the stale byte behind the body,
      and what the injector does. */
  datatype Circumstances = Circumstances(seqNum: nat, pad: byte, fate: Fate)

  datatype Action =
    | ClientMoves(event: Poll, sending: Circumstances)
    | ServerMoves(event: Poll, canOpen: bool, sending: Circumstances)

  /** The byte orders of the two hosts. */
  datatype Hosts = Hosts(client: Order, server: Order)

  const INIT := Sys(START, S.START, {}, {})

  /** The datagrams that `msgs`, none or one, put on the network. */
  function Emitted(host: Order, msgs: seq<Msg>, with: Circumstances): set<seq<byte>>
    requires |msgs| <= 1 && (forall i | 0 <= i < |msgs| :: Sendable(msgs[i]))
    requires with.seqNum < TWO_TO_THE_32
  {
    if msgs == [] then {}
    else
      var p := Frame(host, with.seqNum, FlagOf(msgs[0]), BodyOf(msgs[0]), with.pad);
      set i | 0 <= i < |OnWire(p, with.fate)| :: OnWire(p, with.fate)[i]
  }

  /** What a method of one of the two classes hands to the injector is what `Emitted` says, under the
      circumstances of that very send. */
  lemma CarriedIsEmitted(host: Order, out: seq<seq<byte>>, msgs: seq<Msg>, fate: Fate)
    returns (with: Circumstances)
    requires |msgs| <= 1 && Carry(host, out, msgs)
    ensures with.seqNum < TWO_TO_THE_32 && with.fate == fate
    ensures forall i | 0 <= i < |msgs| :: Sendable(msgs[i])
    ensures forall d :: d in Emitted(host, msgs, with) <==> out != [] && d in OnWire(out[0], fate)
  {
    with := Circumstances(0, 0, fate);
    if msgs != [] {
      assert IsPacketFor(host, out[0], msgs[0]);
      var seqNum: nat, pad: byte :|
        seqNum < TWO_TO_THE_32
        && out[0] == Frame(host, seqNum, FlagOf(msgs[0]), BodyOf(msgs[0]), pad);
      with := Circumstances(seqNum, pad, fate);
    }
  }

  /** One step of either process on silence or on a datagram of the network. */
  predicate Step(cfg: Config, hosts: Hosts, sys: Sys, a: Action, sys': Sys)
    requires ValidConfig(cfg)
  {
    && sys.c.winCur <= |cfg.chunks|
    && a.sending.seqNum < TWO_TO_THE_32
    && match a
       case ClientMoves(event, with) =>
         && (event.Datagram? ==> event.bytes in sys.down)
         && var r := ClientStep(cfg, sys.c, InputOf(hosts.client, event));
         && (forall i | 0 <= i < |r.sends| :: Sendable(r.sends[i]))
         && sys' == sys.(c := r.client, up := sys.up + Emitted(hosts.client, r.sends, with))
       case ServerMoves(event, canOpen, with) =>
         && (event.Datagram? ==> event.bytes in sys.up)
         && var r := S.ServerStep(sys.s, InputOf(hosts.server, event), canOpen);
         && (forall i | 0 <= i < |r.replies| :: Sendable(r.replies[i]))
         && sys' == sys.(s := r.server, down := sys.down + Emitted(hosts.server, r.replies, with))
  }

  predicate IsRun(cfg: Config, hosts: Hosts, states: seq<Sys>, actions: seq<Action>)
    requires ValidConfig(cfg)
  {
    && |states| == |actions| + 1
    && states[0] == INIT
    && forall i | 0 <= i < |actions| :: StepAt(cfg, hosts, states, actions, i)
  }

  predicate StepAt(cfg: Config, hosts: Hosts, states: seq<Sys>, actions: seq<Action>, i: nat)
    requires ValidConfig(cfg) && |states| == |actions| + 1 && i < |actions|
  {
    Step(cfg, hosts, states[i], actions[i], states[i + 1])
  }

  // ---- Every run over bytes is a run over messages ----

  /** A datagram that the receiving host refuses or reads as one of `msgs`. */
  predicate Justified(host: Order, d: seq<byte>, msgs: set<Msg>) {
    && HEADER_LEN < |d| <= MAX_PACKET_LEN
    && (Receive(host, d).Arrived? ==> Receive(host, d).msg in msgs)
  }

  predicate Simulates(hosts: Hosts, sys: Sys, abs: P.Sys) {
    && abs.c == sys.c && abs.s == sys.s
    && (forall d | d in sys.up :: Justified(hosts.server, d, abs.up))
    && (forall d | d in sys.down :: Justified(hosts.client, d, abs.down))
  }

  lemma EmittedIsJustified(host: Order, host': Order, msgs: seq<Msg>, with: Circumstances,
                           d: seq<byte>)
    requires |msgs| <= 1 && (forall i | 0 <= i < |msgs| :: Sendable(msgs[i]))
    requires with.seqNum < TWO_TO_THE_32 && d in Emitted(host, msgs, with)
    ensures Justified(host', d, P.Msgs(msgs))
  {
    AnyFateIsHarmless(host, host', with.seqNum, msgs[0], with.pad, with.fate);
    assert msgs[0] in msgs;
  }

  /** The step of `Protocol` that a step over bytes amounts to. */
  function Abstract(hosts: Hosts, a: Action): P.Action
  {
    match a
    case ClientMoves(event, _) => P.ClientMoves(InputOf(hosts.client, event))
    case ServerMoves(event, canOpen, _) => P.ServerMoves(InputOf(hosts.server, event), canOpen)
  }

  lemma StepIsSimulated(cfg: Config, hosts: Hosts, sys: Sys, a: Action, sys': Sys, abs: P.Sys)
    requires ValidConfig(cfg) && Step(cfg, hosts, sys, a, sys') && Simulates(hosts, sys, abs)
    ensures P.CanHappen(abs, Abstract(hosts, a))
    ensures Simulates(hosts, sys', P.Apply(cfg, abs, Abstract(hosts, a)))
  {
    var abs' := P.Apply(cfg, abs, Abstract(hosts, a));
    match a
    case ClientMoves(event, with) =>
      assert event.Datagram? ==> Justified(hosts.client, event.bytes, abs.down);
      var sends := ClientStep(cfg, sys.c, InputOf(hosts.client, event)).sends;
      forall d | d in sys'.up
        ensures Justified(hosts.server, d, abs'.up)
      {
        if d !in sys.up {
          EmittedIsJustified(hosts.client, hosts.server, sends, with, d);
        }
      }
    case ServerMoves(event, canOpen, with) =>
      assert event.Datagram? ==> Justified(hosts.server, event.bytes, abs.up);
      var replies := S.ServerStep(sys.s, InputOf(hosts.server, event), canOpen).replies;
      forall d | d in sys'.down
        ensures Justified(hosts.client, d, abs'.down)
      {
        if d !in sys.down {
          EmittedIsJustified(hosts.server, hosts.client, replies, with, d);
        }
      }
  }

  /** Every state of a run over bytes stands for a reachable state of the protocol. */
  lemma {:induction false} RunIsSimulated(cfg: Config, hosts: Hosts, states: seq<Sys>,
                                          actions: seq<Action>, i: nat)
    returns (abs: P.Sys)
    requires ValidConfig(cfg) && IsRun(cfg, hosts, states, actions) && i < |states|
    ensures Reachable(cfg, abs) && Simulates(hosts, states[i], abs)
  {
    if i == 0 {
      abs := P.INIT;
      StartIsReachable(cfg);
    } else {
      var before := RunIsSimulated(cfg, hosts, states, actions, i - 1);
      assert StepAt(cfg, hosts, states, actions, i - 1);
      StepIsSimulated(cfg, hosts, states[i - 1], actions[i - 1], states[i], before);
      StepIsReachable(cfg, before, Abstract(hosts, actions[i - 1]));
      abs := P.Apply(cfg, before, Abstract(hosts, actions[i - 1]));
    }
  }

  // ---- End to end ----

  /** In every state of every run over bytes the server's file is a prefix of the client's, in whole
      chunks; and once the client has finished through ACK_EOF it is the whole file. */
  lemma UploadIsFaithful(cfg: Config, hosts: Hosts, states: seq<Sys>, actions: seq<Action>, i: nat)
    requires ValidConfig(cfg) && IsRun(cfg, hosts, states, actions) && i < |states|
    ensures var s := states[i].s;
      && 1 <= s.rx.next <= |cfg.chunks| + 1
      && s.rx.file == Concat(cfg.chunks[..s.rx.next - 1])
      && (states[i].c.st in {SendEofAndQuit, AwaitAckEof, Done(true)} ==> s.rx.file == Concat(cfg.chunks))
  {
    var abs := RunIsSimulated(cfg, hosts, states, actions, i);
    FileIsAPrefix(cfg, abs);
    if abs.c.st in {SendEofAndQuit, AwaitAckEof, Done(true)} {
      EndOfFileMeansWholeFile(cfg, abs);
    }
  }

  /** What the client and the server send in any run fits a packet. */
  lemma OkMessagesAreSendable(cfg: Config, c: Client, s: S.Server, m: Msg)
    requires ValidConfig(cfg) && c.winCur <= |cfg.chunks| && s.rx.next <= |cfg.chunks| + 1
    requires P.UpOk(cfg, c, s, m) || P.DownOk(cfg, c, s, m)
    ensures Sendable(m)
  {
  }

  lemma JustifiedIsReadable(cfg: Config, host: Order, d: seq<byte>, abs: P.Sys, msgs: set<Msg>)
    requires P.Inv(cfg, abs) && (msgs == abs.up || msgs == abs.down) && Justified(host, d, msgs)
    ensures Readable(host, Datagram(d))
  {
    if Receive(host, d).Arrived? {
      var m := Receive(host, d).msg;
      assert P.UpOk(cfg, abs.c, abs.s, m) || P.DownOk(cfg, abs.c, abs.s, m);
    }
  }

  /** A run over bytes is never stuck for want of a packet that can be built: after any run, whatever
      process moves next, on silence or any datagram of the network, under any circumstances, there
      is a next state. And every datagram can be read, and finds the server's counters in range. */
  lemma NothingIsUnsendable(cfg: Config, hosts: Hosts, states: seq<Sys>, actions: seq<Action>,
                            a: Action)
    returns (sys': Sys)
    requires ValidConfig(cfg) && IsRun(cfg, hosts, states, actions)
    requires var sys := states[|states| - 1];
      a.event.Datagram? ==> a.event.bytes in if a.ClientMoves? then sys.down else sys.up
    requires a.sending.seqNum < TWO_TO_THE_32
    ensures Step(cfg, hosts, states[|states| - 1], a, sys')
    ensures Readable(if a.ClientMoves? then hosts.client else hosts.server, a.event)
    ensures var s := states[|states| - 1].s;
      && (s.winGood ==> 1 <= s.winSize <= 255)
      && (s.phase == S.Receiving ==> s.rx.next + s.winSize < 0x8000_0000)
  {
    var sys := states[|states| - 1];
    var abs := RunIsSimulated(cfg, hosts, states, actions, |states| - 1);
    ReachableInv(cfg, abs);
    if a.event.Datagram? {
      if a.ClientMoves? {
        JustifiedIsReadable(cfg, hosts.client, a.event.bytes, abs, abs.down);
      } else {
        JustifiedIsReadable(cfg, hosts.server, a.event.bytes, abs, abs.up);
      }
    }
    match a
    case ClientMoves(event, with) =>
      var r := ClientStep(cfg, sys.c, InputOf(hosts.client, event));
      StepIsReachable(cfg, abs, Abstract(hosts, a));
      var next := P.Apply(cfg, abs, Abstract(hosts, a));
      ReachableInv(cfg, next);
      forall i | 0 <= i < |r.sends|
        ensures Sendable(r.sends[i])
      {
        assert r.sends[i] in next.up;
        OkMessagesAreSendable(cfg, next.c, next.s, r.sends[i]);
      }
      sys' := sys.(c := r.client, up := sys.up + Emitted(hosts.client, r.sends, with));
    case ServerMoves(event, canOpen, with) =>
      var r := S.ServerStep(sys.s, InputOf(hosts.server, event), canOpen);
      StepIsReachable(cfg, abs, Abstract(hosts, a));
      var next := P.Apply(cfg, abs, Abstract(hosts, a));
      ReachableInv(cfg, next);
      forall i | 0 <= i < |r.replies|
        ensures Sendable(r.replies[i])
      {
        assert r.replies[i] in next.down;
        OkMessagesAreSendable(cfg, next.c, next.s, r.replies[i]);
      }
      sys' := sys.(s := r.server, down := sys.down + Emitted(hosts.server, r.replies, with));
  }
}
