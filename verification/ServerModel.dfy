/** The server process of one client as a state machine: one step per packet or timeout.
    Its data phase is the map receiver. */
module ServerModel {
  import opened Bytes
  import opened Packets
  import opened Receiver

  /** Waiting for a first packet, taking setup packets, taking data, or finished. */
  datatype Phase = Listening | SettingUp | Receiving | Closed

  datatype Server = Server(phase: Phase, fileOpen: bool,
                           fileGood: bool, bufGood: bool, winGood: bool,
                           bufSize: nat, winSize: nat, timeout: nat, rx: Rx)

  datatype ServerReaction = ServerReaction(server: Server, replies: seq<Msg>)

  const START := Server(Listening, false, false, false, false, 0, 0, 0, EMPTY)

  predicate AllGood(s: Server) {
    s.fileGood && s.bufGood && s.winGood
  }

  function OnFileName(s: Server, canOpen: bool): ServerReaction {
    if !s.fileOpen && !canOpen then
      ServerReaction(s.(phase := Closed), [RejFileNameNoOpen])
    else
      ServerReaction(s.(phase := SettingUp, fileOpen := true, fileGood := true), [AckFileName])
  }

  function OnData(s: Server, n: nat, d: seq<byte>): ServerReaction {
    var reaction := Take(s.winSize, s.rx, n, d);
    ServerReaction(s.(phase := Receiving, rx := reaction.rx), reaction.replies)
  }

  function OnSetupPacket(s: Server, m: Msg, canOpen: bool): ServerReaction {
    match m
    case FileName(_) => OnFileName(s, canOpen)
    case BufferSize(n) => ServerReaction(s.(bufSize := n, bufGood := true), [AckBufferSize])
    case WindowSize(n) => ServerReaction(s.(winSize := n, winGood := true), [AckWindowSize])
    case Data(n, d) => if AllGood(s) then OnData(s, n, d) else ServerReaction(s, [])
    case _ => ServerReaction(s, [])
  }

  function OnDataPacket(s: Server, m: Msg): ServerReaction {
    match m
    case Data(n, d) => OnData(s, n, d)
    case EndOfFile => ServerReaction(s.(phase := Closed), [AckEof])
    case _ => ServerReaction(s, [])
  }

  /** A packet that passed its checksum. The first one of a client is taken as its file name, whatever
      it is. */
  function OnMessage(s: Server, m: Msg, canOpen: bool): (r: ServerReaction)
    ensures |r.replies| <= 1
  {
    match s.phase
    case Listening => OnFileName(s, canOpen)
    case SettingUp => OnSetupPacket(s, m, canOpen)
    case Receiving => OnDataPacket(s, m)
    case Closed => ServerReaction(s, [])
  }

  function OnTimeout(s: Server): Server {
    match s.phase
    case SettingUp =>
      var t := s.timeout + 1;
      s.(timeout := t, phase := if t > 10 then Closed else SettingUp)
    case Receiving => s.(phase := Closed)
    case _ => s
  }

  /** A live process forgets its timeouts when it hears anything. */
  function Heard(s: Server): Server {
    if s.phase in {SettingUp, Receiving} then s.(timeout := 0) else s
  }

  /** One step. */
  function ServerStep(s: Server, input: Input, canOpen: bool): (r: ServerReaction)
    ensures |r.replies| <= 1
  {
    match input
    case Silence => ServerReaction(OnTimeout(s), [])
    case Corrupt => ServerReaction(Heard(s), [])
    case Arrived(m) => OnMessage(Heard(s), m, canOpen)
  }

  // ---- What an input does, and what it leaves alone ----

  /** Why a live process ends: silence in the data phase, or the end of the file; the eleventh silence in
      a row in the setup; or a file that cannot be opened. */
  predicate Ends(s: Server, input: Input, canOpen: bool) {
    || (s.phase == Receiving && (input == Silence || input == Arrived(EndOfFile)))
    || (s.phase == SettingUp && input == Silence && s.timeout >= 10)
    || (&& !s.fileOpen && !canOpen && input.Arrived?
        && (s.phase == Listening || (s.phase == SettingUp && input.msg.FileName?)))
  }

  /** It ends exactly then; and once ended it does nothing. */
  lemma EndsExactly(s: Server, input: Input, canOpen: bool)
    ensures var r := ServerStep(s, input, canOpen);
      && (r.server.phase == Closed <==> s.phase == Closed || Ends(s, input, canOpen))
      && (s.phase == Closed ==> r == ServerReaction(s, []))
  {
  }

  /** A packet that fails its checksum is as good as lost, but for the count of timeouts. */
  lemma RefusedPacketIsIgnored(s: Server, canOpen: bool)
    ensures var r := ServerStep(s, Corrupt, canOpen);
      && r.replies == []
      && r.server == s.(timeout := if s.phase in {SettingUp, Receiving} then 0 else s.timeout)
  {
  }

  /** A silence touches nothing but the count and, perhaps, the phase. */
  lemma SilenceIsNotAnswered(s: Server, canOpen: bool)
    ensures var r := ServerStep(s, Silence, canOpen);
      && r.replies == []
      && r.server.(phase := s.phase)
           == s.(timeout := if s.phase == SettingUp then s.timeout + 1 else s.timeout)
      && (r.server.phase == s.phase || r.server.phase == Closed)
  {
  }

  /** A live process passes over what its phase does not expect; data counts as expected in the setup
      only when name, buffer size and window size have all been accepted. */
  lemma UnexpectedIsIgnored(s: Server, m: Msg, canOpen: bool)
    requires s.phase in {SettingUp, Receiving}
    requires if s.phase == Receiving then !m.Data? && !m.EndOfFile?
             else !m.FileName? && !m.BufferSize? && !m.WindowSize?
                  && !(m.Data? && s.fileGood && s.bufGood && s.winGood)
    ensures ServerStep(s, Arrived(m), canOpen) == ServerReaction(s.(timeout := 0), [])
  {
  }

  /** What is accepted stays accepted, the phases come in their order, and only data touches the
      receiver. */
  predicate TakesNothingBack(s: Server, input: Input, s': Server) {
    && (s.fileOpen ==> s'.fileOpen) && (s.fileGood ==> s'.fileGood)
    && (s.bufGood ==> s'.bufGood) && (s.winGood ==> s'.winGood)
    && (s'.phase == Listening ==> s.phase == Listening)
    && (s'.phase == SettingUp ==> s.phase in {Listening, SettingUp})
    && (s'.phase == Receiving ==> s.phase in {SettingUp, Receiving})
    && (s'.rx != s.rx ==> input.Arrived? && input.msg.Data? && s.phase in {SettingUp, Receiving})
  }

  lemma NothingIsTakenBackOnMessage(s: Server, m: Msg, canOpen: bool)
    ensures TakesNothingBack(s, Arrived(m), OnMessage(s, m, canOpen).server)
  {
  }

  lemma NothingIsTakenBack(s: Server, input: Input, canOpen: bool)
    ensures TakesNothingBack(s, input, ServerStep(s, input, canOpen).server)
  {
    if input.Arrived? {
      NothingIsTakenBackOnMessage(Heard(s), input.msg, canOpen);
    }
  }

  /** The first packet, and each packet of the setup every time it comes, is acknowledged, or the name
      refused; and its value is taken over. */
  lemma SetupIsAnswered(s: Server, m: Msg, canOpen: bool)
    requires s.phase in {Listening, SettingUp}
    ensures var r := ServerStep(s, Arrived(m), canOpen);
      && (s.phase == Listening || m.FileName? ==>
            && r.replies == [if s.fileOpen || canOpen then AckFileName else RejFileNameNoOpen]
            && r.server.fileOpen == (s.fileOpen || canOpen)
            && (s.fileOpen || canOpen ==> r.server.phase == SettingUp && r.server.fileGood))
      && (s.phase == SettingUp && m.BufferSize? ==>
            r.replies == [AckBufferSize] && r.server.bufSize == m.size && r.server.bufGood)
      && (s.phase == SettingUp && m.WindowSize? ==>
            r.replies == [AckWindowSize] && r.server.winSize == m.size && r.server.winGood)
      && (r.server.bufSize != s.bufSize ==> m.BufferSize?)
      && (r.server.winSize != s.winSize ==> m.WindowSize?)
  {
  }

  /** How the count of timeouts moves. */
  lemma TimeoutCount(s: Server, input: Input, canOpen: bool)
    ensures ServerStep(s, input, canOpen).server.timeout
         == if s.phase == SettingUp && input == Silence then s.timeout + 1
            else if s.phase in {SettingUp, Receiving} && input != Silence then 0
            else s.timeout
  {
  }
}
