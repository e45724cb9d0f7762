/** The fault injector every send goes through: libcpe464/PacketManager.cpp and
    libcpe464/MsgEvents/errorFlipBits.cpp. */
module Channel {
  import opened Bytes
  import opened Checksum
  import opened Packets

  /** What can become of one packet handed to `sendtoErr`. */
  datatype Fate = Delivered | Dropped | Flipped(at: nat)

  function Inverted(b: byte): byte {
    0xFF - b
  }

  /** The datagrams, none or one, that reach the network. */
  function OnWire(p: seq<byte>, fate: Fate): (ds: seq<seq<byte>>)
    ensures |ds| <= 1 && forall i | 0 <= i < |ds| :: |ds[i]| == |p|
  {
    match fate
    case Delivered => [p]
    case Dropped => []
    case Flipped(at) => if at < |p| then [p[at := Inverted(p[at])]] else [p]
  }

  /** Whatever happens to a packet, a receiver gets that very message or refuses what it gets. */
  lemma AnyFateIsHarmless(host: Order, host': Order, seqNum: nat, m: Msg, pad: byte, fate: Fate)
    requires seqNum < TWO_TO_THE_32 && Sendable(m)
    ensures var p := Frame(host, seqNum, FlagOf(m), BodyOf(m), pad);
      forall i | 0 <= i < |OnWire(p, fate)| ::
        Receive(host', OnWire(p, fate)[i])
          == if fate.Flipped? && fate.at < |p| then Corrupt else Arrived(m)
  {
    var p := Frame(host, seqNum, FlagOf(m), BodyOf(m), pad);
    if fate.Flipped? && fate.at < |p| {
      var b := Inverted(p[fate.at]);
      assert b != p[fate.at];
      DamagedFrameIsRefused(host, host', seqNum, FlagOf(m), BodyOf(m), pad, fate.at, b);
    } else {
      FrameRoundTrip(host, host', seqNum, m, pad);
    }
  }

  /** A message event. A drop event takes every message it is run on, or those on its list. */
  datatype Event = InfoSeqNo | ErrorDrop(dropAll: bool, dropList: seq<nat>) | ErrorFlipBits

  /** `errorDrop::run` on message number `no`. */
  predicate Drops(e: Event, no: nat) {
    e.ErrorDrop? && (e.dropAll || no in e.dropList)
  }

  /** The random draws of one send: whether the error rate is met, which chance event is picked
      and which byte it would flip. */
  datatype Draws = Draws(strikes: bool, which: nat, byteToFlip: nat)

  /** XOR with 0xFF, the way the injector writes it, inverts the byte. */
  lemma XorInverts(b: byte)
    ensures ((b as bv8) ^ 0xFF) as int == Inverted(b)
  {
    var v := b as bv8;
    assert v ^ 0xFF == 0xFF - v;
    assert (0xFF - v) as int == 0xFF - b;
  }

  /** `errorFlipBits::run`. */
  method FlipBits(buf: array<byte>, byteToFlip: nat) returns (result: int)
    requires byteToFlip < buf.Length
    modifies buf
    ensures result == 1
    ensures buf[..] == old(buf[..])[byteToFlip := Inverted(old(buf[byteToFlip]))]
  {
    XorInverts(buf[byteToFlip]);
    buf[byteToFlip] := ((buf[byteToFlip] as bv8) ^ 0xFF) as int;
    result := 1;
  }

  /** `errorDrop::run`: 2 if every message is to be dropped, or this one is on the list. */
  method RunErrorDrop(dropAll: bool, dropList: seq<nat>, no: nat) returns (result: int)
    ensures result == if dropAll || no in dropList then 2 else 0
  {
    var toDrop := dropAll;
    var i := 0;
    while i < |dropList|
      invariant i <= |dropList|
      invariant toDrop == dropAll && no !in dropList[..i]
    {
      if dropList[i] == no {
        toDrop := true;
        break;
      }
      i := i + 1;
    }
    result := if toDrop then 2 else 0;
  }

  class PacketManager {
    var msgNo: nat
    var constantEvents: seq<Event>
    var chanceEvents: seq<Event>

    /** The settings add flips to the chance events only. */
    constructor (constantEvents: seq<Event>, chanceEvents: seq<Event>)
      requires ErrorFlipBits !in constantEvents
      ensures Valid() && msgNo == 0
      ensures this.constantEvents == constantEvents && this.chanceEvents == chanceEvents
    {
      msgNo := 0;
      this.constantEvents, this.chanceEvents := constantEvents, chanceEvents;
    }

    predicate Valid()
      reads this
    {
      ErrorFlipBits !in constantEvents
    }

    predicate DrawsFit(draws: Draws, len: nat)
      reads this
    {
      && draws.byteToFlip < len
      && (chanceEvents != [] ==> draws.which < |chanceEvents|)
    }

    /** A chance event strikes message number `no`; it never strikes the first one. */
    predicate Strikes(no: nat, draws: Draws)
      reads this
    {
      no > 1 && chanceEvents != [] && draws.strikes
    }

    /** The fate of message number `no`: dropped if any constant event, or the chance event that
        strikes, drops it; flipped if a flip strikes. */
    function FateOf(no: nat, draws: Draws): Fate
      requires chanceEvents != [] ==> draws.which < |chanceEvents|
      reads this
    {
      if exists i | 0 <= i < |constantEvents| :: Drops(constantEvents[i], no) then Dropped
      else if !Strikes(no, draws) then Delivered
      else if Drops(chanceEvents[draws.which], no) then Dropped
      else if chanceEvents[draws.which].ErrorFlipBits? then Flipped(draws.byteToFlip)
      else Delivered
    }

    /** `runMsgEvents` on the constant events: 2 as soon as one of them drops the message. */
    method RunMsgEvents(no: nat) returns (result: int)
      requires Valid()
      ensures result in {0, 2}
      ensures result == 2 <==>
        exists i | 0 <= i < |constantEvents| ::
          var e := constantEvents[i]; e.ErrorDrop? && (e.dropAll || no in e.dropList)
    {
      result := 0;
      var i := 0;
      while i < |constantEvents|
        invariant i <= |constantEvents|
        invariant forall j | 0 <= j < i ::
          var e := constantEvents[j]; !(e.ErrorDrop? && (e.dropAll || no in e.dropList))
      {
        match constantEvents[i] {
          case InfoSeqNo =>
          case ErrorFlipBits => assert false;
          case ErrorDrop(dropAll, dropList) =>
            var dropped := RunErrorDrop(dropAll, dropList, no);
            if dropped == 2 {
              return 2;
            }
        }
        i := i + 1;
      }
    }

    /** `run` of a chance event. */
    method RunChanceEvent(event: Event, buf: array<byte>, no: nat, byteToFlip: nat)
      returns (result: int)
      requires byteToFlip < buf.Length
      modifies buf
      ensures result == match event
                        case InfoSeqNo => 0
                        case ErrorFlipBits => 1
                        case ErrorDrop(dropAll, dropList) =>
                          if dropAll || no in dropList then 2 else 0
      ensures buf[..] == if event.ErrorFlipBits?
                         then old(buf[..])[byteToFlip := 0xFF - old(buf[byteToFlip])]
                         else old(buf[..])
    {
      match event {
        case InfoSeqNo => result := 0;
        case ErrorFlipBits => result := FlipBits(buf, byteToFlip);
        case ErrorDrop(dropAll, dropList) => result := RunErrorDrop(dropAll, dropList, no);
      }
    }

    /** `processEvents`: 2 for a drop, otherwise whether the buffer was changed. The chance events run
        even on a message that a constant event has dropped. */
    method ProcessEvents(buf: array<byte>, no: nat, draws: Draws) returns (result: int)
      requires Valid() && DrawsFit(draws, buf.Length)
      modifies buf
      ensures result in {0, 1, 2}
      ensures result == 2 <==> FateOf(no, draws) == Dropped
      ensures result == 1 <==> FateOf(no, draws).Flipped?
      ensures result != 2 ==> OnWire(old(buf[..]), FateOf(no, draws)) == [buf[..]]
    {
      var constant := RunMsgEvents(no);
      var hasChanged, hasDropped := 0, constant == 2;
      if no > 1 && |chanceEvents| > 0 && draws.strikes {
        var chance := RunChanceEvent(chanceEvents[draws.which], buf, no, draws.byteToFlip);
        if chance == 2 {
          hasDropped := true;
        } else {
          hasChanged := chance;
        }
      }
      result := if hasDropped then 2 else hasChanged;
    }

    /** The settings of the programs themselves: from the second message on, a strike that picks the drop
        event drops the message, whatever it is, and one that picks the flip inverts a byte. */
    lemma OwnSettings(no: nat, draws: Draws)
      requires constantEvents == [InfoSeqNo]
      requires chanceEvents == [ErrorDrop(true, []), ErrorFlipBits] && draws.which < 2
      ensures FateOf(no, draws)
           == if no <= 1 || !draws.strikes then Delivered
              else if draws.which == 0 then Dropped
              else Flipped(draws.byteToFlip)
    {
    }

    /** `sendto_Err`: works on a copy, so the caller's buffer stays as it is, and reports `len`
        whether or not the packet got through. An empty send ends the process. */
    method SendtoErr(buf: array<byte>, len: nat, draws: Draws)
      returns (exited: bool, sent: nat, wire: seq<seq<byte>>)
      requires Valid() && len <= buf.Length && (len > 0 ==> DrawsFit(draws, len))
      modifies this`msgNo
      ensures Valid() && (exited <==> len == 0)
      ensures exited ==> wire == [] && msgNo == old(msgNo)
      ensures !exited ==>
        && msgNo == old(msgNo) + 1
        && sent == len
        && wire == OnWire(buf[..len], FateOf(msgNo, draws))
      ensures !exited ==>
        var picked := if msgNo > 1 && chanceEvents != [] && draws.strikes
                      then chanceEvents[draws.which] else InfoSeqNo;
        wire == if || (picked.ErrorDrop? && (picked.dropAll || msgNo in picked.dropList))
                   || (exists i | 0 <= i < |constantEvents| ::
                         var e := constantEvents[i];
                         e.ErrorDrop? && (e.dropAll || msgNo in e.dropList))
                then []
                else if picked.ErrorFlipBits?
                then [buf[..len][draws.byteToFlip := 0xFF - buf[draws.byteToFlip]]]
                else [buf[..len]]
    {
      exited, sent, wire := len == 0, len, [];
      if exited {
        return;
      }
      msgNo := msgNo + 1;
      var bufTmp := new byte[len](_ => 0);
      forall i | 0 <= i < len {
        bufTmp[i] := buf[i];
      }
      assert bufTmp[..] == buf[..len];
      var result := ProcessEvents(bufTmp, msgNo, draws);
      if result != 2 {
        wire := [bufTmp[..]];
      }
    }
  }
}
