/** The receiver the server is meant to be: it knows the next packet number it needs and keeps, in a
    map, the packets that came too early. It has no ring and no window indexes. */
module Receiver {
  import opened Bytes
  import opened Packets

  /** `srejOut` says that a SREJ for `next` has been sent from the buffering branch. */
  datatype Rx = Rx(next: nat, held: map<nat, seq<byte>>, srejOut: bool, file: seq<byte>)

  datatype Reaction = Reaction(rx: Rx, replies: seq<Msg>)

  const EMPTY := Rx(1, map[], false, [])

  /** Every packet held is later than the one awaited and within a window of `w` packets. */
  predicate InWindow(w: nat, rx: Rx) {
    1 <= rx.next && forall n | n in rx.held :: rx.next < n < rx.next + w
  }

  /** Move the held packet that is awaited to the file. */
  function Flushed(rx: Rx): Rx
    requires rx.next in rx.held
  {
    rx.(next := rx.next + 1, held := rx.held - {rx.next}, file := rx.file + rx.held[rx.next])
  }

  lemma DrainFlushed(rx: Rx)
    requires rx.next in rx.held
    ensures Drain(Flushed(rx)) == Drain(rx)
  {
  }

  lemma FlushedHoldsLess(rx: Rx)
    requires rx.next in rx.held
    ensures Flushed(rx).held.Keys < rx.held.Keys
  {
    assert rx.next !in Flushed(rx).held;
  }

  /** Move the run of consecutive held packets that starts at `next` to the file. */
  function Drain(rx: Rx): Rx
    decreases rx.held.Keys
  {
    if rx.next in rx.held then Drain(Flushed(rx)) else rx
  }

  /** The receiver when the packet awaited has just been written, before the drain. */
  function Expected(rx: Rx, d: seq<byte>): Rx {
    rx.(next := rx.next + 1, srejOut := false, file := rx.file + d)
  }

  /** Take packet `n` with payload `d`, within a window of `w` packets. */
  function Take(w: nat, rx: Rx, n: nat, d: seq<byte>): Reaction {
    if n == rx.next then
      var after := Drain(Expected(rx, d));
      Reaction(after, if after.held == map[] then [RR(after.next)] else [])
    else if n < rx.next then
      Reaction(rx, [if rx.held == map[] then RR(rx.next) else SREJ(rx.next)])
    else
      Reaction(rx.(held := if n < rx.next + w then rx.held[n := d] else rx.held, srejOut := true),
               if rx.srejOut then [] else [SREJ(rx.next)])
  }

  lemma TakeExpected(w: nat, rx: Rx, d: seq<byte>)
    ensures var after := Drain(Expected(rx, d));
      Take(w, rx, rx.next, d)
        == Reaction(after, if after.held == map[] then [RR(after.next)] else [])
  {
  }

  // ---- The drain ----

  /** The payloads of packets `from`, ..., `end - 1` one after the other. */
  function Stretch(held: map<nat, seq<byte>>, from: nat, end: nat): seq<byte>
    requires from <= end && forall n | from <= n < end :: n in held
    decreases end - from
  {
    if from == end then [] else held[from] + Stretch(held, from + 1, end)
  }

  lemma {:induction false} StretchOfLess(held: map<nat, seq<byte>>, gone: nat, from: nat, end: nat)
    requires gone < from <= end && forall n | from <= n < end :: n in held
    ensures Stretch(held - {gone}, from, end) == Stretch(held, from, end)
    decreases end - from
  {
    if from < end {
      StretchOfLess(held, gone, from + 1, end);
    }
  }

  /** From `start` to `rx` exactly the packets `start.next`, ..., `rx.next - 1` have gone from the map
      to the file, in order. */
  predicate MovedRun(start: Rx, rx: Rx) {
    && start.next <= rx.next && rx.srejOut == start.srejOut
    && (forall n | start.next <= n < rx.next :: n in start.held)
    && rx.held == (map n | n in start.held && !(start.next <= n < rx.next) :: start.held[n])
    && rx.file == start.file + Stretch(start.held, start.next, rx.next)
  }

  /** The drain writes the maximal consecutive run, in order, and removes exactly that run. */
  lemma {:induction false} DrainWritesTheMaximalRun(rx: Rx)
    ensures MovedRun(rx, Drain(rx)) && Drain(rx).next !in rx.held
    decreases rx.held.Keys
  {
    if rx.next in rx.held {
      DrainWritesTheMaximalRun(Flushed(rx));
      StretchOfLess(rx.held, rx.next, rx.next + 1, Drain(rx).next);
    }
  }

  /** ... and there is only one such run. */
  lemma MaximalRunIsDrain(start: Rx, rx: Rx)
    requires MovedRun(start, rx) && rx.next !in rx.held
    ensures rx == Drain(start)
  {
    DrainWritesTheMaximalRun(start);
    assert !(rx.next < Drain(start).next) && !(Drain(start).next < rx.next);
  }

  /** The packets held follow the one awaited without a gap. */
  predicate NoGap(rx: Rx) {
    forall n, i | n in rx.held && rx.next < i < n :: i in rx.held
  }

  /** The packet awaited empties the map exactly when there is no gap. */
  lemma DrainEmptiesExactly(rx: Rx, d: seq<byte>)
    requires forall n | n in rx.held :: n > rx.next
    ensures Drain(Expected(rx, d)).held == map[] <==> NoGap(rx)
  {
    var start := Expected(rx, d);
    var end := Drain(start);
    DrainWritesTheMaximalRun(start);
    if NoGap(rx) {
      forall n | n in rx.held
        ensures n < end.next
      {
      }
    }
    if end.held == map[] {
      forall n | n in rx.held
        ensures n < end.next
      {
        assert n !in end.held;
      }
    }
  }

  lemma {:induction false} DrainStaysInWindow(w: nat, rx: Rx)
    requires 1 <= rx.next && forall n | n in rx.held :: rx.next <= n < rx.next + w
    ensures InWindow(w, Drain(rx))
    decreases rx.held.Keys
  {
    if rx.next in rx.held {
      DrainStaysInWindow(w, Flushed(rx));
    }
  }

  lemma DrainBound(w: nat, rx: Rx)
    requires forall n | n in rx.held :: n < rx.next + w
    ensures Drain(rx).next <= rx.next + w
  {
    DrainWritesTheMaximalRun(rx);
    assert rx.next + w !in rx.held;
  }

  lemma TakeStaysInWindow(w: nat, rx: Rx, n: nat, d: seq<byte>)
    requires InWindow(w, rx)
    ensures InWindow(w, Take(w, rx, n, d).rx)
    ensures Take(w, rx, n, d).rx.next >= rx.next
    ensures n == rx.next ==> Take(w, rx, n, d).rx.next > rx.next
  {
    if n == rx.next {
      DrainStaysInWindow(w, Expected(rx, d));
      DrainWritesTheMaximalRun(Expected(rx, d));
    }
  }

  // ---- Order and duplication do not matter ----

  /** `rx` is what the set `got` of accepted packets determines. */
  predicate Represents(chunks: seq<seq<byte>>, got: set<nat>, rx: Rx) {
    && 1 <= rx.next <= |chunks| + 1
    && (forall n | n in got :: 1 <= n <= |chunks|)
    && (forall n | 1 <= n < rx.next :: n in got)
    && rx.next !in got
    && rx.held == (map n | n in got && rx.next < n :: chunks[n - 1])
    && rx.file == Concat(chunks[..rx.next - 1])
  }

  lemma {:induction false} DrainRepresents(chunks: seq<seq<byte>>, got: set<nat>, rx: Rx)
    requires 1 <= rx.next <= |chunks| + 1
    requires forall n | n in got :: 1 <= n <= |chunks|
    requires forall n | 1 <= n < rx.next :: n in got
    requires rx.held == (map n | n in got && rx.next <= n :: chunks[n - 1])
    requires rx.file == Concat(chunks[..rx.next - 1])
    ensures Represents(chunks, got, Drain(rx))
    decreases rx.held.Keys
  {
    if rx.next in rx.held {
      ConcatStep(chunks, rx.next - 1);
      DrainRepresents(chunks, got, Flushed(rx));
    }
  }

  lemma TakeExpectedRepresents(w: nat, chunks: seq<seq<byte>>, got: set<nat>, rx: Rx)
    requires Represents(chunks, got, rx) && rx.next <= |chunks|
    ensures Represents(chunks, got + {rx.next}, Take(w, rx, rx.next, chunks[rx.next - 1]).rx)
  {
    ConcatStep(chunks, rx.next - 1);
    DrainRepresents(chunks, got + {rx.next}, Expected(rx, chunks[rx.next - 1]));
  }

  lemma TakeLaterRepresents(w: nat, chunks: seq<seq<byte>>, got: set<nat>, rx: Rx, n: nat)
    requires Represents(chunks, got, rx) && rx.next < n <= |chunks|
    ensures Represents(chunks, if n < rx.next + w then got + {n} else got,
                       Take(w, rx, n, chunks[n - 1]).rx)
  {
  }

  lemma TakeRepresents(w: nat, chunks: seq<seq<byte>>, got: set<nat>, rx: Rx, n: nat)
    requires Represents(chunks, got, rx) && 1 <= n <= |chunks| && 0 < w
    ensures Represents(chunks, if n < rx.next + w then got + {n} else got,
                       Take(w, rx, n, chunks[n - 1]).rx)
  {
    if n == rx.next {
      TakeExpectedRepresents(w, chunks, got, rx);
    } else if n < rx.next {
      assert got + {n} == got;
    } else {
      TakeLaterRepresents(w, chunks, got, rx, n);
    }
  }

  predicate DeliveryOf(chunks: seq<seq<byte>>, log: seq<nat>) {
    forall i | 0 <= i < |log| :: 1 <= log[i] <= |chunks|
  }

  /** The receiver after packets with the numbers in `log` arrived, in that order. */
  function AfterDelivery(w: nat, chunks: seq<seq<byte>>, log: seq<nat>): Rx
    requires DeliveryOf(chunks, log)
  {
    if log == [] then EMPTY
    else
      var n := log[|log| - 1];
      Take(w, AfterDelivery(w, chunks, log[..|log| - 1]), n, chunks[n - 1]).rx
  }

  lemma OneMoreDelivery(w: nat, chunks: seq<seq<byte>>, log: seq<nat>, n: nat)
    requires DeliveryOf(chunks, log) && 1 <= n <= |chunks|
    ensures DeliveryOf(chunks, log + [n])
    ensures AfterDelivery(w, chunks, log + [n])
         == Take(w, AfterDelivery(w, chunks, log), n, chunks[n - 1]).rx
  {
    assert (log + [n])[..|log|] == log;
  }

  /** The packets among them that were not beyond the window when they arrived. */
  function Accepted(w: nat, chunks: seq<seq<byte>>, log: seq<nat>): set<nat>
    requires DeliveryOf(chunks, log)
  {
    if log == [] then {}
    else
      var earlier, n := log[..|log| - 1], log[|log| - 1];
      Accepted(w, chunks, earlier)
      + (if n < AfterDelivery(w, chunks, earlier).next + w then {n} else {})
  }

  /** After any deliveries, the file is the longest complete prefix of the accepted packets and the
      map holds exactly the rest of them. */
  lemma {:induction false} DeliveryIsRepresented(w: nat, chunks: seq<seq<byte>>, log: seq<nat>)
    requires DeliveryOf(chunks, log) && 0 < w
    ensures Represents(chunks, Accepted(w, chunks, log), AfterDelivery(w, chunks, log))
  {
    if log != [] {
      var earlier, n := log[..|log| - 1], log[|log| - 1];
      DeliveryIsRepresented(w, chunks, earlier);
      TakeRepresents(w, chunks, Accepted(w, chunks, earlier), AfterDelivery(w, chunks, earlier), n);
      assert Accepted(w, chunks, earlier) + {} == Accepted(w, chunks, earlier);
    }
  }

  /** So order and repetition have no effect: only the set of accepted packets counts. */
  lemma OrderDoesNotMatter(w: nat, chunks: seq<seq<byte>>, log: seq<nat>, log': seq<nat>)
    requires DeliveryOf(chunks, log) && DeliveryOf(chunks, log') && 0 < w
    requires Accepted(w, chunks, log) == Accepted(w, chunks, log')
    ensures var rx, rx' := AfterDelivery(w, chunks, log), AfterDelivery(w, chunks, log');
      rx.next == rx'.next && rx.held == rx'.held && rx.file == rx'.file
  {
    DeliveryIsRepresented(w, chunks, log);
    DeliveryIsRepresented(w, chunks, log');
    var rx, rx' := AfterDelivery(w, chunks, log), AfterDelivery(w, chunks, log');
    assert !(rx.next < rx'.next) && !(rx'.next < rx.next);
  }

  /** The whole file has arrived exactly when every packet was accepted at least once. */
  lemma CompleteExactlyWhenAllAccepted(w: nat, chunks: seq<seq<byte>>, log: seq<nat>)
    requires DeliveryOf(chunks, log) && 0 < w
    ensures (forall n: nat | 1 <= n <= |chunks| :: n in Accepted(w, chunks, log))
       <==> AfterDelivery(w, chunks, log).next == |chunks| + 1
    ensures AfterDelivery(w, chunks, log).next == |chunks| + 1 ==>
              && AfterDelivery(w, chunks, log).held == map[]
              && AfterDelivery(w, chunks, log).file == Concat(chunks)
  {
    DeliveryIsRepresented(w, chunks, log);
    var next := AfterDelivery(w, chunks, log).next;
    assert next <= |chunks| ==> next !in Accepted(w, chunks, log);
    assert chunks[..|chunks|] == chunks;
  }

  /** No packet was beyond the window when it arrived. */
  predicate NeverBeyondWindow(w: nat, chunks: seq<seq<byte>>, log: seq<nat>)
    requires DeliveryOf(chunks, log)
  {
    log == [] ||
    var earlier, n := log[..|log| - 1], log[|log| - 1];
    NeverBeyondWindow(w, chunks, earlier) && n < AfterDelivery(w, chunks, earlier).next + w
  }

  lemma NeverBeyondGrows(w: nat, chunks: seq<seq<byte>>, log: seq<nat>, n: nat)
    requires DeliveryOf(chunks, log) && NeverBeyondWindow(w, chunks, log)
    requires 1 <= n <= |chunks| && n < AfterDelivery(w, chunks, log).next + w
    ensures DeliveryOf(chunks, log + [n]) && NeverBeyondWindow(w, chunks, log + [n])
  {
    assert (log + [n])[..|log|] == log;
  }

  lemma {:induction false} AllAccepted(w: nat, chunks: seq<seq<byte>>, log: seq<nat>)
    requires DeliveryOf(chunks, log) && NeverBeyondWindow(w, chunks, log)
    ensures forall i | 0 <= i < |log| :: log[i] in Accepted(w, chunks, log)
  {
    if log != [] {
      AllAccepted(w, chunks, log[..|log| - 1]);
    }
  }

  /** Any order, any number of copies: once each packet came, none beyond the window, the file is
      complete and nothing is left over. */
  lemma EverythingArrives(w: nat, chunks: seq<seq<byte>>, log: seq<nat>)
    requires DeliveryOf(chunks, log) && NeverBeyondWindow(w, chunks, log) && 0 < w
    requires forall n: nat | 1 <= n <= |chunks| :: n in log
    ensures var rx := AfterDelivery(w, chunks, log);
      rx.next == |chunks| + 1 && rx.held == map[] && rx.file == Concat(chunks)
  {
    AllAccepted(w, chunks, log);
    assert forall n: nat | 1 <= n <= |chunks| :: n in log ==> n in Accepted(w, chunks, log);
    CompleteExactlyWhenAllAccepted(w, chunks, log);
  }

  // ---- What is answered ----

  /** A reply, whether it came from the buffering branch, and the receiver that sent it. */
  datatype Answer = Answer(msg: Msg, buffering: bool, sender: Rx)

  function Answers(w: nat, chunks: seq<seq<byte>>, log: seq<nat>): seq<Answer>
    requires DeliveryOf(chunks, log)
  {
    if log == [] then []
    else
      var earlier, n := log[..|log| - 1], log[|log| - 1];
      Answers(w, chunks, earlier) + AnswersTo(w, chunks, earlier, n)
  }

  /** The answers to packet `n`, after the deliveries of `log`. */
  function AnswersTo(w: nat, chunks: seq<seq<byte>>, log: seq<nat>, n: nat): seq<Answer>
    requires DeliveryOf(chunks, log) && 1 <= n <= |chunks|
  {
    var rx := AfterDelivery(w, chunks, log);
    AnswersIn(Take(w, rx, n, chunks[n - 1]), n > rx.next)
  }

  function AnswersIn(reaction: Reaction, buffering: bool): (answers: seq<Answer>)
    ensures |answers| == |reaction.replies|
  {
    seq(|reaction.replies|, i requires 0 <= i < |reaction.replies| =>
          Answer(reaction.replies[i], buffering, reaction.rx))
  }

  lemma OneMoreReaction(w: nat, chunks: seq<seq<byte>>, log: seq<nat>, n: nat)
    requires DeliveryOf(chunks, log) && 1 <= n <= |chunks|
    ensures DeliveryOf(chunks, log + [n])
    ensures Answers(w, chunks, log + [n])
         == Answers(w, chunks, log) + AnswersTo(w, chunks, log, n)
  {
    assert (log + [n])[..|log|] == log;
  }

  /** Every answer carries the number awaited when it was sent; an RR says that all earlier packets
      are on file and none is held. */
  predicate Honest(chunks: seq<seq<byte>>, a: Answer) {
    && 1 <= a.sender.next <= |chunks| + 1
    && (a.msg == RR(a.sender.next) || a.msg == SREJ(a.sender.next))
    && a.sender.file == Concat(chunks[..a.sender.next - 1])
    && (a.msg.RR? ==> a.sender.held == map[])
    && (a.buffering ==> a.msg.SREJ?)
  }

  /** The answers so far, up to a receiver in state `rx`: all honest, their numbers never
      decreasing, and no number asked for twice by the buffering branch. */
  predicate GoodAnswers(chunks: seq<seq<byte>>, answers: seq<Answer>, rx: Rx) {
    && (forall i | 0 <= i < |answers| ::
          Honest(chunks, answers[i]) && answers[i].sender.next <= rx.next)
    && (forall i, j | 0 <= i < j < |answers| :: answers[i].sender.next <= answers[j].sender.next)
    && (forall i, j | 0 <= i < j < |answers| && answers[i].buffering && answers[j].buffering ::
          answers[i].sender.next < answers[j].sender.next)
    && (forall i | 0 <= i < |answers| && answers[i].buffering ::
          answers[i].sender.next < rx.next || rx.srejOut)
  }

  lemma OneMoreAnswer(chunks: seq<seq<byte>>, answers: seq<Answer>, rx: Rx, rx': Rx, a: Answer)
    requires GoodAnswers(chunks, answers, rx) && Honest(chunks, a) && a.sender == rx'
    requires rx.next <= rx'.next
    requires a.buffering ==> rx'.srejOut && !rx.srejOut
    requires !a.buffering && rx.next == rx'.next ==> rx.srejOut == rx'.srejOut
    ensures GoodAnswers(chunks, answers + [a], rx')
  {
    var all := answers + [a];
    assert forall i | 0 <= i < |answers| :: all[i] == answers[i];
    assert all[|answers|] == a;
  }

  lemma NoMoreAnswer(chunks: seq<seq<byte>>, answers: seq<Answer>, rx: Rx, rx': Rx)
    requires GoodAnswers(chunks, answers, rx) && rx.next <= rx'.next
    requires rx.next == rx'.next && rx.srejOut ==> rx'.srejOut
    ensures GoodAnswers(chunks, answers, rx')
  {
  }

  lemma TakeKeepsAnswersGood(w: nat, chunks: seq<seq<byte>>, answers: seq<Answer>, rx: Rx, n: nat)
    requires 1 <= n <= |chunks| && GoodAnswers(chunks, answers, rx)
    requires var after := Take(w, rx, n, chunks[n - 1]).rx;
      && 1 <= after.next <= |chunks| + 1 && after.file == Concat(chunks[..after.next - 1])
    ensures var reaction := Take(w, rx, n, chunks[n - 1]);
      GoodAnswers(chunks, answers + AnswersIn(reaction, n > rx.next), reaction.rx)
  {
    var reaction := Take(w, rx, n, chunks[n - 1]);
    if n == rx.next {
      DrainWritesTheMaximalRun(Expected(rx, chunks[n - 1]));
    }
    if reaction.replies == [] {
      assert answers + AnswersIn(reaction, n > rx.next) == answers;
      NoMoreAnswer(chunks, answers, rx, reaction.rx);
    } else {
      var a := Answer(reaction.replies[0], n > rx.next, reaction.rx);
      assert AnswersIn(reaction, n > rx.next) == [a];
      OneMoreAnswer(chunks, answers, rx, reaction.rx, a);
    }
  }

  /** Over a whole run the answers are honest, their numbers never decrease, and the buffering
      branch asks for no packet twice. */
  lemma {:induction false} AnswersOfARun(w: nat, chunks: seq<seq<byte>>, log: seq<nat>)
    requires DeliveryOf(chunks, log) && 0 < w
    ensures GoodAnswers(chunks, Answers(w, chunks, log), AfterDelivery(w, chunks, log))
  {
    if log != [] {
      var earlier, n := log[..|log| - 1], log[|log| - 1];
      AnswersOfARun(w, chunks, earlier);
      DeliveryIsRepresented(w, chunks, log);
      TakeKeepsAnswersGood(w, chunks, Answers(w, chunks, earlier),
                           AfterDelivery(w, chunks, earlier), n);
    }
  }
}
