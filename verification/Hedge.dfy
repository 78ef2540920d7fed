/** A hedged call: two clients that answer over a channel with room for two, a timer, a context, and the loop
    that selects among them. Each goroutine's next visible action is one step. */
module Hedge {
  import opened Wrappers

  type Error = string

  datatype Outcome = Ok(text: string) | Failed(error: Error)

  datatype Who = Primary | Second

  datatype Client = NotStarted | Working | Answered(outcome: Outcome) | Sent(outcome: Outcome)

  datatype Message = Message(who: Who, outcome: Outcome)

  datatype Timer = Pending | Fired | Taken

  /** What the call returns, and whether it says that the hedge was started. */
  datatype Return = Won(who: Who, text: string, hedged: bool) | Lost(error: Error, hedged: bool)
    | Cancelled(hedged: bool)

  /** A piece of text on the caller's writer. */
  datatype Piece = Piece(who: Who, text: string)

  /** `received` is what the loop has taken from the channel so far. */
  datatype System = System(
    primary: Client, second: Client, channel: seq<Message>, received: seq<Message>, timer: Timer, cancelled: bool,
    hedgeStarted: bool, firstError: Option<Error>, returned: Option<Return>, hasWriter: bool, written: seq<Piece>)

  const ROOM := 2

  function Initial(hasWriter: bool): System {
    System(Working, NotStarted, [], [], Pending, false, false, None, None, hasWriter, [])
  }

  function ClientOf(sys: System, who: Who): Client {
    if who.Primary? then sys.primary else sys.second
  }

  function WithClient(sys: System, who: Who, client: Client): System {
    if who.Primary? then sys.(primary := client) else sys.(second := client)
  }

  // ---------- Steps ----------

  datatype Step =
    | Stream(text: string)          // the primary writes a delta to the caller's writer
    | Finish(who: Who, outcome: Outcome)
    | Send(who: Who)
    | FireTimer
    | CancelContext
    | Receive                       // the loop's select takes a message,
    | TakeTimer                     // or the timer,
    | SeeCancelled                  // or the end of the context

  predicate Enabled(sys: System, step: Step) {
    match step
    case Stream(_) => sys.primary.Working? && sys.hasWriter
    case Finish(who, _) => ClientOf(sys, who).Working?
    case Send(who) => ClientOf(sys, who).Answered? && |sys.channel| < ROOM
    case FireTimer => sys.timer.Pending?
    case CancelContext => !sys.cancelled
    case Receive => sys.returned.None? && sys.channel != []
    case TakeTimer => sys.returned.None? && sys.timer.Fired?
    case SeeCancelled => sys.returned.None? && sys.cancelled
  }

  function Take(sys: System): System
    requires sys.channel != []
  {
    var got := sys.channel[0];
    var rest := sys.(channel := sys.channel[1..], received := sys.received + [got]);
    match got.outcome
    case Ok(text) =>
      rest.(returned := Some(Won(got.who, text, sys.hedgeStarted)),
            written := if got.who.Second? && sys.hasWriter && text != "" then sys.written + [Piece(Second, text)]
                       else sys.written)
    case Failed(error) =>
      var first := if sys.firstError.None? then Some(error) else sys.firstError;
      var next := rest.(firstError := first);
      if !sys.hedgeStarted then next.(returned := Some(Lost(error, false)))
      else if |next.received| == 2 then next.(returned := Some(Lost(first.value, true)))
      else next
  }

  /** A step that is not enabled changes nothing. */
  function Next(sys: System, step: Step): System {
    if !Enabled(sys, step) then sys
    else match step
      case Stream(text) => sys.(written := sys.written + [Piece(Primary, text)])
      case Finish(who, outcome) => WithClient(sys, who, Answered(outcome))
      case Send(who) =>
        var outcome := ClientOf(sys, who).outcome;
        WithClient(sys, who, Sent(outcome)).(channel := sys.channel + [Message(who, outcome)])
      case FireTimer => sys.(timer := Fired)
      case CancelContext => sys.(cancelled := true)
      case Receive => Take(sys)
      case TakeTimer =>
        if sys.hedgeStarted then sys.(timer := Taken)
        else sys.(timer := Taken, hedgeStarted := true, second := Working)
      case SeeCancelled => sys.(returned := Some(Cancelled(sys.hedgeStarted)))
  }

  function Execute(sys: System, steps: seq<Step>): System {
    if steps == [] then sys else Next(Execute(sys, steps[..|steps| - 1]), steps[|steps| - 1])
  }

  // ---------- Invariant ----------

  function SentCount(sys: System): nat {
    (if sys.primary.Sent? then 1 else 0) + (if sys.second.Sent? then 1 else 0)
  }

  /** The messages under way and taken are the clients' answers, one each at most. */
  predicate MessagesAreAnswers(sys: System) {
    var all := sys.received + sys.channel;
    && |all| == SentCount(sys)
    && (forall i | 0 <= i < |all| :: ClientOf(sys, all[i].who) == Sent(all[i].outcome))
    && (|all| == 2 ==> all[0].who != all[1].who)
  }

  predicate LoopState(sys: System) {
    && (sys.second.NotStarted? <==> !sys.hedgeStarted)
    && (!sys.hedgeStarted ==> !sys.timer.Taken?)
    && sys.primary != NotStarted
    && match sys.returned
       case None =>
         && |sys.received| <= 1
         && (sys.received == [] ==> sys.firstError.None?)
         && (|sys.received| == 1 ==>
               sys.hedgeStarted && sys.received[0].outcome.Failed?
               && sys.firstError == Some(sys.received[0].outcome.error))
       case Some(Won(who, text, hedged)) =>
         && 1 <= |sys.received| <= 2 && hedged == sys.hedgeStarted && (hedged || |sys.received| == 1)
         && sys.received[|sys.received| - 1] == Message(who, Ok(text))
         && (|sys.received| == 2 ==> sys.received[0].outcome.Failed?)
       case Some(Lost(error, hedged)) =>
         && sys.received != [] && sys.received[0].outcome == Failed(error) && hedged == sys.hedgeStarted
         && (hedged ==> |sys.received| == 2 && sys.received[1].outcome.Failed?)
         && (!hedged ==> |sys.received| == 1)
       case Some(Cancelled(_)) => sys.cancelled
  }

  function HedgePieces(written: seq<Piece>): seq<string> {
    if written == [] then []
    else
      var last := written[|written| - 1];
      HedgePieces(written[..|written| - 1]) + (if last.who.Second? then [last.text] else [])
  }

  /** The hedge's text is on the writer exactly if the hedge won, once and whole. */
  predicate WriterState(sys: System) {
    HedgePieces(sys.written) ==
      if sys.returned.Some? && sys.returned.value.Won? && sys.returned.value.who.Second? && sys.hasWriter
         && sys.returned.value.text != ""
      then [sys.returned.value.text] else []
  }

  predicate Inv(sys: System) {
    MessagesAreAnswers(sys) && LoopState(sys) && WriterState(sys)
  }

  lemma PieceAdded(written: seq<Piece>, piece: Piece)
    ensures HedgePieces(written + [piece]) == HedgePieces(written) + (if piece.who.Second? then [piece.text] else [])
  {
    assert (written + [piece])[..|written|] == written;
  }

  lemma MessagesStep(sys: System, step: Step)
    requires MessagesAreAnswers(sys) && LoopState(sys)
    ensures MessagesAreAnswers(Next(sys, step))
  {
    if Enabled(sys, step) {
      match step
      case Send(who) => SendMessages(sys, who);
      case Receive => TakeMessages(sys);
      case _ => hide Take;
    }
  }

  lemma SendMessages(sys: System, who: Who)
    requires MessagesAreAnswers(sys) && Enabled(sys, Send(who))
    ensures MessagesAreAnswers(Next(sys, Send(who)))
  {
    hide Take;
    var after, message := Next(sys, Send(who)), Message(who, ClientOf(sys, who).outcome);
    var all := sys.received + sys.channel;
    assert after.received + after.channel == all + [message];
    assert forall i | 0 <= i < |all| :: all[i].who != who;
  }

  lemma TakeMessages(sys: System)
    requires MessagesAreAnswers(sys) && sys.channel != []
    ensures MessagesAreAnswers(Take(sys))
  {
    hide MessagesAreAnswers;
    assert [sys.channel[0]] + sys.channel[1..] == sys.channel;
    assert sys.received + [sys.channel[0]] + sys.channel[1..] == sys.received + sys.channel;
    SameMessages(sys, Take(sys));
  }

  lemma SameMessages(sys: System, after: System)
    requires MessagesAreAnswers(sys) && after.received + after.channel == sys.received + sys.channel
    requires after.primary == sys.primary && after.second == sys.second
    ensures MessagesAreAnswers(after)
  {}

  lemma LoopStep(sys: System, step: Step)
    requires LoopState(sys)
    ensures LoopState(Next(sys, step))
  {
    if Enabled(sys, step) {
      match step
      case Receive => TakeLoop(sys);
      case _ => hide Take;
    }
  }

  lemma TakeLoop(sys: System)
    requires LoopState(sys) && sys.returned.None? && sys.channel != []
    ensures LoopState(Take(sys))
  {}

  lemma WriterStep(sys: System, step: Step)
    requires Inv(sys)
    ensures WriterState(Next(sys, step))
  {
    hide MessagesAreAnswers, LoopState, HedgePieces;
    match step
    case Stream(text) => PieceAdded(sys.written, Piece(Primary, text));
    case Receive => if Enabled(sys, Receive) { TakeWrites(sys); }
    case _ => hide Take;
  }

  lemma TakeWrites(sys: System)
    requires WriterState(sys) && sys.returned.None? && sys.channel != []
    ensures WriterState(Take(sys))
  {
    hide HedgePieces;
    if sys.channel[0].outcome.Ok? {
      PieceAdded(sys.written, Piece(Second, sys.channel[0].outcome.text));
    }
  }

  lemma KeepsWriter(sys: System, step: Step)
    ensures Next(sys, step).hasWriter == sys.hasWriter
  {}

  lemma {:induction false} ExecuteInv(hasWriter: bool, steps: seq<Step>)
    ensures Inv(Execute(Initial(hasWriter), steps))
    ensures Execute(Initial(hasWriter), steps).hasWriter == hasWriter
  {
    if steps != [] {
      var before, step := Execute(Initial(hasWriter), steps[..|steps| - 1]), steps[|steps| - 1];
      hide MessagesAreAnswers, LoopState, WriterState, Next, Initial;
      ExecuteInv(hasWriter, steps[..|steps| - 1]);
      MessagesStep(before, step);
      LoopStep(before, step);
      WriterStep(before, step);
      KeepsWriter(before, step);
    }
  }

  // ---------- What every schedule guarantees ----------

  /** No sender ever waits: a client that has its answer always finds room in the channel. */
  lemma SendersNeverBlock(hasWriter: bool, steps: seq<Step>, who: Who)
    requires ClientOf(Execute(Initial(hasWriter), steps), who).Answered?
    ensures Enabled(Execute(Initial(hasWriter), steps), Send(who))
  {
    ExecuteInv(hasWriter, steps);
  }

  /** With a live context the call fails only if the primary failed before the hedge was started, or both
      failed; it then returns the error that came first. It succeeds only with a client's own answer. */
  lemma ResultIsJustified(hasWriter: bool, steps: seq<Step>)
    ensures var sys := Execute(Initial(hasWriter), steps);
      match sys.returned
      case None => true
      case Some(Won(who, text, _)) => ClientOf(sys, who) == Sent(Ok(text))
      case Some(Lost(error, hedged)) =>
        && sys.received != [] && ClientOf(sys, sys.received[0].who) == Sent(Failed(error))
        && sys.primary.Sent? && sys.primary.outcome.Failed?
        && (if hedged then sys.second.Sent? && sys.second.outcome.Failed? else sys.second.NotStarted?)
      case Some(Cancelled(_)) => sys.cancelled
  {
    ExecuteInv(hasWriter, steps);
    var sys := Execute(Initial(hasWriter), steps);
    ReceivedIsSent(sys);
    hide MessagesAreAnswers, Execute, WriterState;
  }

  lemma ReceivedIsSent(sys: System)
    requires MessagesAreAnswers(sys)
    ensures forall i | 0 <= i < |sys.received| :: ClientOf(sys, sys.received[i].who) == Sent(sys.received[i].outcome)
    ensures |sys.received| == 2 ==> sys.received[0].who != sys.received[1].who
  {
    var all := sys.received + sys.channel;
    assert forall i | 0 <= i < |sys.received| :: all[i] == sys.received[i];
  }

  /** How often the run starts the second client. */
  function HedgeStarts(hasWriter: bool, steps: seq<Step>): nat {
    if steps == [] then 0
    else
      var before, step := Execute(Initial(hasWriter), steps[..|steps| - 1]), steps[|steps| - 1];
      HedgeStarts(hasWriter, steps[..|steps| - 1])
      + (if Next(before, step).second.Working? && !before.second.Working? then 1 else 0)
  }

  /** In every schedule the hedge starts at most once, and only after the delay. */
  lemma {:induction false} AtMostOneHedge(hasWriter: bool, steps: seq<Step>)
    ensures var sys := Execute(Initial(hasWriter), steps);
      HedgeStarts(hasWriter, steps) == (if sys.hedgeStarted then 1 else 0) && (sys.hedgeStarted ==> !sys.timer.Pending?)
  {
    if steps != [] {
      AtMostOneHedge(hasWriter, steps[..|steps| - 1]);
      ExecuteInv(hasWriter, steps[..|steps| - 1]);
      HedgeStartsFromTimer(Execute(Initial(hasWriter), steps[..|steps| - 1]), steps[|steps| - 1]);
      hide Next, Inv, Initial;
    }
  }

  lemma HedgeStartsFromTimer(sys: System, step: Step)
    requires Inv(sys) && (sys.hedgeStarted ==> !sys.timer.Pending?)
    ensures var after := Next(sys, step);
      && (after.second.Working? && !sys.second.Working? <==> after.hedgeStarted && !sys.hedgeStarted)
      && (sys.hedgeStarted ==> after.hedgeStarted) && (after.hedgeStarted ==> !after.timer.Pending?)
  {
    hide MessagesAreAnswers, WriterState;
  }

  /** The hedge's text reaches the writer exactly if the hedge won: then once and whole. */
  lemma HedgeWritesOnlyIfItWon(hasWriter: bool, steps: seq<Step>)
    ensures var sys := Execute(Initial(hasWriter), steps);
      && |HedgePieces(sys.written)| <= 1
      && (HedgePieces(sys.written) != [] <==>
            sys.hasWriter && sys.returned.Some? && sys.returned.value.Won? && sys.returned.value.who.Second?
            && sys.returned.value.text != "")
      && (HedgePieces(sys.written) != [] ==> sys.second == Sent(Ok(HedgePieces(sys.written)[0])))
  {
    ExecuteInv(hasWriter, steps);
    ResultIsJustified(hasWriter, steps);
    hide Execute, MessagesAreAnswers, LoopState, HedgePieces;
  }

  /** When every client that was started has answered and sent, the loop has returned or can take a message. */
  lemma AnswersAreTaken(hasWriter: bool, steps: seq<Step>)
    requires var sys := Execute(Initial(hasWriter), steps);
      sys.primary.Sent? && (sys.second.NotStarted? || sys.second.Sent?) && sys.returned.None?
    ensures Enabled(Execute(Initial(hasWriter), steps), Receive)
  {
    ExecuteInv(hasWriter, steps);
  }

  predicate OfLoop(step: Step) {
    step.Receive? || step.TakeTimer? || step.SeeCancelled?
  }

  /** The select steps that the loop may still take. */
  function LoopLeft(sys: System): nat {
    if sys.returned.Some? then 0
    else (if |sys.received| < 2 then 2 - |sys.received| else 0) + (if sys.timer.Taken? then 0 else 1) + 1
  }

  /** Every step of the loop uses up some of what is left, and no other step adds to it: the loop ends. */
  lemma LoopEnds(hasWriter: bool, steps: seq<Step>, step: Step)
    requires Enabled(Execute(Initial(hasWriter), steps), step)
    ensures var sys := Execute(Initial(hasWriter), steps);
      if OfLoop(step) then LoopLeft(Next(sys, step)) < LoopLeft(sys) else LoopLeft(Next(sys, step)) == LoopLeft(sys)
  {
    ExecuteInv(hasWriter, steps);
    hide Execute, MessagesAreAnswers, WriterState;
  }

  // ---------- What the primary writes after the hedge has won ----------

  /** The hedge's text is on the writer. */
  predicate HedgeHasWritten(sys: System) {
    && sys.hasWriter && sys.returned.Some? && sys.returned.value.Won? && sys.returned.value.who.Second?
    && sys.returned.value.text != ""
  }

  /** Some text of the primary follows the hedge's. */
  predicate PrimaryFollows(written: seq<Piece>) {
    exists i, j | 0 <= i < j < |written| :: written[i].who.Second? && written[j].who.Primary?
  }

  lemma OneMorePiece(written: seq<Piece>, piece: Piece)
    ensures PrimaryFollows(written + [piece]) <==>
      PrimaryFollows(written) || (HedgePieces(written) != [] && piece.who.Primary?)
  {
    var more := written + [piece];
    assert forall i | 0 <= i < |written| :: more[i] == written[i];
    HedgeStands(written);
    if HedgePieces(written) != [] && piece.who.Primary? {
      var i :| 0 <= i < |written| && written[i].who.Second?;
      assert more[i].who.Second? && more[|written|].who.Primary?;
    }
  }

  lemma {:induction false} HedgeStands(written: seq<Piece>)
    ensures HedgePieces(written) != [] <==> exists i | 0 <= i < |written| :: written[i].who.Second?
  {
    if written != [] {
      var front, last := written[..|written| - 1], written[|written| - 1];
      HedgeStands(front);
      assert forall i | 0 <= i < |front| :: front[i] == written[i];
      if last.who.Second? { assert written[|written| - 1].who.Second?; }
    }
  }

  /** The primary, still at work, writes when the hedge's text is already there. */
  predicate StreamsLate(sys: System, step: Step) {
    step.Stream? && Enabled(sys, step) && HedgeHasWritten(sys)
  }

  predicate StreamsLateIn(sys: System, steps: seq<Step>) {
    exists i | 0 <= i < |steps| :: StreamsLate(Execute(sys, steps[..i]), steps[i])
  }

  lemma StreamsLateMore(sys: System, steps: seq<Step>)
    requires steps != []
    ensures StreamsLateIn(sys, steps) <==>
      StreamsLateIn(sys, steps[..|steps| - 1]) || StreamsLate(Execute(sys, steps[..|steps| - 1]), steps[|steps| - 1])
  {
    hide Execute, StreamsLate;
    var front := steps[..|steps| - 1];
    assert forall i | 0 <= i < |front| :: front[i] == steps[i] && front[..i] == steps[..i];
  }

  lemma StepFollows(sys: System, step: Step)
    requires Inv(sys)
    ensures PrimaryFollows(Next(sys, step).written) <==> PrimaryFollows(sys.written) || StreamsLate(sys, step)
  {
    hide MessagesAreAnswers, LoopState, PrimaryFollows, HedgePieces;
    match step
    case Stream(text) => OneMorePiece(sys.written, Piece(Primary, text));
    case Receive =>
      if Enabled(sys, Receive) && sys.channel[0].outcome.Ok? {
        OneMorePiece(sys.written, Piece(Second, sys.channel[0].outcome.text));
      }
    case _ => hide Take;
  }

  /** In every schedule text of the primary follows the hedge's exactly if the primary, still at work, writes
      after the loop has taken the hedge's answer. */
  lemma {:induction false} PrimaryFollowsExactly(hasWriter: bool, steps: seq<Step>)
    ensures PrimaryFollows(Execute(Initial(hasWriter), steps).written) <==> StreamsLateIn(Initial(hasWriter), steps)
  {
    hide PrimaryFollows, StreamsLateIn, Next;
    if steps == [] {
      NothingFollowsYet(hasWriter);
    } else {
      PrimaryFollowsExactly(hasWriter, steps[..|steps| - 1]);
      ExecuteInv(hasWriter, steps[..|steps| - 1]);
      StepFollows(Execute(Initial(hasWriter), steps[..|steps| - 1]), steps[|steps| - 1]);
      StreamsLateMore(Initial(hasWriter), steps);
      hide Inv, StreamsLate, Initial;
    }
  }

  lemma NothingFollowsYet(hasWriter: bool)
    ensures !PrimaryFollows(Initial(hasWriter).written) && !StreamsLateIn(Initial(hasWriter), [])
  {}

  /** If the primary had finished when the call returned, the writer does not change any more. */
  lemma {:induction false} NothingFollowsAFinishedPrimary(sys: System, more: seq<Step>)
    requires sys.returned.Some? && !sys.primary.Working? && !sys.primary.NotStarted?
    ensures var after := Execute(sys, more);
      after.written == sys.written && after.returned == sys.returned
      && !after.primary.Working? && !after.primary.NotStarted?
  {
    if more != [] {
      NothingFollowsAFinishedPrimary(sys, more[..|more| - 1]);
      hide Take;
    }
  }

  /** Cancelling does not take the writer away from the primary: its text can follow the hedge's, even after
      the call has returned. */
  lemma PrimaryMayWriteAfterHedgeWon() returns (steps: seq<Step>)
    ensures var sys := Execute(Initial(true), steps);
      sys.returned == Some(Won(Second, "hedge", true))
      && sys.written == [Piece(Second, "hedge"), Piece(Primary, "late")]
  {
    var s0 := Initial(true);
    var s1 := s0.(timer := Fired);
    var s2 := s1.(timer := Taken, hedgeStarted := true, second := Working);
    var s3 := s2.(second := Answered(Ok("hedge")));
    var s4 := s3.(second := Sent(Ok("hedge")), channel := [Message(Second, Ok("hedge"))]);
    var s5 := Take(s4);
    hide Execute;
    StepOnce(s0, [], FireTimer);
    StepOnce(s0, [FireTimer], TakeTimer);
    StepOnce(s0, [FireTimer] + [TakeTimer], Finish(Second, Ok("hedge")));
    StepOnce(s0, [FireTimer] + [TakeTimer] + [Finish(Second, Ok("hedge"))], Send(Second));
    steps := [FireTimer] + [TakeTimer] + [Finish(Second, Ok("hedge"))] + [Send(Second)];
    assert Execute(s0, steps) == s4;
    StepOnce(s0, steps, Receive);
    StepOnce(s0, steps + [Receive], Stream("late"));
    steps := steps + [Receive] + [Stream("late")];
  }

  lemma StepOnce(sys: System, steps: seq<Step>, step: Step)
    ensures Execute(sys, steps + [step]) == Next(Execute(sys, steps), step)
    ensures steps == [] ==> Execute(sys, steps) == sys && steps + [step] == [step]
  {
    assert (steps + [step])[..|steps|] == steps;
  }

  // ---------- The end of the context ----------

  predicate CancelsIn(steps: seq<Step>) {
    exists i | 0 <= i < |steps| :: steps[i].CancelContext?
  }

  lemma CancelsMore(steps: seq<Step>)
    requires steps != []
    ensures CancelsIn(steps) <==> CancelsIn(steps[..|steps| - 1]) || steps[|steps| - 1].CancelContext?
  {
    assert forall i | 0 <= i < |steps| - 1 :: steps[..|steps| - 1][i] == steps[i];
  }

  /** In every schedule the context is over exactly if it was cancelled, the call returns its error only then and
      says rightly whether the hedge was started, and as long as it has not returned it can do so at once. */
  lemma {:induction false} CancelledExactly(hasWriter: bool, steps: seq<Step>)
    ensures var sys := Execute(Initial(hasWriter), steps);
      && (sys.cancelled <==> CancelsIn(steps))
      && (sys.returned.Some? && sys.returned.value.Cancelled? ==> CancelsIn(steps))
      && (sys.returned.Some? ==> sys.returned.value.hedged == sys.hedgeStarted)
      && (sys.returned.None? && CancelsIn(steps) ==>
            Next(sys, SeeCancelled).returned == Some(Cancelled(sys.hedgeStarted)))
  {
    if steps != [] {
      CancelledExactly(hasWriter, steps[..|steps| - 1]);
      CancelsMore(steps);
      hide CancelsIn;
    }
  }
}
