/** The persistence writer: a bounded queue with one worker, a direct application when an operation
    cannot be queued, and a closing handshake. Every lock, channel and flag access is one step. */
module SqliteWriter {
  import opened Sequences

  const QUEUE_SIZE: nat := 1024

  // ---------- State ----------

  /** What a call is: `EnqueueSaveResponse`, `EnqueueDeleteResponsesByConversationOrThread` or `Close`. */
  datatype Kind = Save | Delete | Close

  datatype PC =
    | NotStarted
    | WantRead | CheckOpen | Sending | ReadUnlock(sent: bool) | FallBack
    | WantWrite | CheckClosed | CloseQueue | WriteUnlock(wait: bool) | AwaitDone
    | Returned(waited: bool)

  /** A call. `before` are the submissions that had returned when it started. */
  datatype Call = Call(kind: Kind, pc: PC, before: set<nat>, fellBack: bool)

  datatype Worker = Receiving | Applying(op: nat) | Exited

  /** An operation is known by the index of the call that submits it. `applied` is in order of application. */
  datatype System = System(
    capacity: nat, calls: seq<Call>, closed: bool, queue: seq<nat>, queueClosed: bool,
    worker: Worker, applied: seq<nat>)

  predicate HoldsRead(pc: PC) {
    pc.CheckOpen? || pc.Sending? || pc.ReadUnlock?
  }

  predicate HoldsWrite(pc: PC) {
    pc.CheckClosed? || pc.CloseQueue? || pc.WriteUnlock?
  }

  predicate NoneHoldsWrite(sys: System) {
    forall i | 0 <= i < |sys.calls| :: !HoldsWrite(sys.calls[i].pc)
  }

  predicate NoneHoldsRead(sys: System) {
    forall i | 0 <= i < |sys.calls| :: !HoldsRead(sys.calls[i].pc)
  }

  predicate NoneWantsWrite(sys: System) {
    forall i | 0 <= i < |sys.calls| :: !sys.calls[i].pc.WantWrite?
  }

  // ---------- Steps ----------

  datatype Step = Start(call: nat) | Advance(call: nat) | Receive | Apply | Exit

  /** A reader gets the lock when no writer holds it. A writer that waits may let it by: `sync.RWMutex` does so
      when it admits the waiting readers before the next writer. */
  predicate CanAdvance(sys: System, i: nat)
    requires i < |sys.calls|
  {
    match sys.calls[i].pc
    case NotStarted | Returned(_) => false
    case WantRead => NoneHoldsWrite(sys)
    case WantWrite => NoneHoldsWrite(sys) && NoneHoldsRead(sys)
    case Sending => sys.calls[i].kind.Save? || |sys.queue| < sys.capacity
    case AwaitDone => sys.worker.Exited?
    case _ => true
  }

  predicate Enabled(sys: System, step: Step) {
    match step
    case Start(i) => i < |sys.calls| && sys.calls[i].pc.NotStarted?
    case Advance(i) => i < |sys.calls| && CanAdvance(sys, i)
    case Receive => sys.worker.Receiving? && sys.queue != []
    case Apply => sys.worker.Applying?
    case Exit => sys.worker.Receiving? && sys.queue == [] && sys.queueClosed
  }

  function Goto(sys: System, i: nat, pc: PC): System
    requires i < |sys.calls|
  {
    sys.(calls := sys.calls[i := sys.calls[i].(pc := pc)])
  }

  /** The submissions that have returned. */
  function ReturnedSubmissions(sys: System): set<nat> {
    set i | 0 <= i < |sys.calls| && sys.calls[i].pc.Returned? && !sys.calls[i].kind.Close?
  }

  function Begin(sys: System, i: nat): System
    requires i < |sys.calls|
  {
    var call := sys.calls[i];
    var pc := if call.kind.Close? then WantWrite else WantRead;
    sys.(calls := sys.calls[i := call.(pc := pc, before := ReturnedSubmissions(sys))])
  }

  function AdvanceCall(sys: System, i: nat): System
    requires i < |sys.calls|
  {
    match sys.calls[i].pc
    case WantRead => Goto(sys, i, CheckOpen)
    case CheckOpen => Goto(sys, i, if sys.closed then ReadUnlock(false) else Sending)
    case Sending =>
      if |sys.queue| < sys.capacity then Goto(sys, i, ReadUnlock(true)).(queue := sys.queue + [i])
      else Goto(sys, i, ReadUnlock(false))
    case ReadUnlock(sent) =>
      if sent then Goto(sys, i, Returned(false))
      else sys.(calls := sys.calls[i := sys.calls[i].(pc := FallBack, fellBack := true)])
    case FallBack => Goto(sys, i, Returned(false)).(applied := sys.applied + [i])
    case WantWrite => Goto(sys, i, CheckClosed)
    case CheckClosed =>
      if sys.closed then Goto(sys, i, WriteUnlock(false)) else Goto(sys, i, CloseQueue).(closed := true)
    case CloseQueue => Goto(sys, i, WriteUnlock(true)).(queueClosed := true)
    case WriteUnlock(wait) => Goto(sys, i, if wait then AwaitDone else Returned(false))
    case AwaitDone => Goto(sys, i, Returned(true))
    case _ => sys
  }

  /** A step that is not enabled changes nothing. */
  function Next(sys: System, step: Step): System {
    if !Enabled(sys, step) then sys
    else match step
      case Start(i) => Begin(sys, i)
      case Advance(i) => AdvanceCall(sys, i)
      case Receive => sys.(worker := Applying(sys.queue[0]), queue := sys.queue[1..])
      case Apply => sys.(worker := Receiving, applied := sys.applied + [sys.worker.op])
      case Exit => sys.(worker := Exited)
  }

  function Execute(sys: System, steps: seq<Step>): System {
    if steps == [] then sys else Next(Execute(sys, steps[..|steps| - 1]), steps[|steps| - 1])
  }

  function Initial(capacity: nat, kinds: seq<Kind>): System {
    System(capacity, seq(|kinds|, i requires 0 <= i < |kinds| => Call(kinds[i], NotStarted, {}, false)),
           false, [], false, Receiving, [])
  }

  // ---------- Invariant ----------

  function InHand(worker: Worker): seq<nat> {
    if worker.Applying? then [worker.op] else []
  }

  /** Applied, then in the worker's hand, then queued: the order in which operations leave. */
  function Line(sys: System): seq<nat> {
    sys.applied + (InHand(sys.worker) + sys.queue)
  }

  /** The call's operation has been taken over by the queue or applied. */
  predicate Accepted(call: Call) {
    !call.kind.Close? && (call.pc == ReadUnlock(true) || call.pc.Returned?)
  }

  /** Every accepted operation is in exactly one place, and nothing else is anywhere. */
  predicate Conserved(sys: System) {
    && Distinct(Line(sys))
    && (forall i | 0 <= i < |sys.calls| && Accepted(sys.calls[i]) :: i in Line(sys))
    && (forall i | i in Line(sys) :: i < |sys.calls| && Accepted(sys.calls[i]))
  }

  /** The operations a call had to come after stand before position `k`. */
  predicate EarlierStandBefore(sys: System, line: seq<nat>, k: nat)
    requires k < |line|
  {
    line[k] < |sys.calls| && !sys.calls[line[k]].fellBack
    ==> forall q | q in sys.calls[line[k]].before :: q in line[..k]
  }

  predicate Ordered(sys: System) {
    forall k | 0 <= k < |Line(sys)| :: EarlierStandBefore(sys, Line(sys), k)
  }

  /** What is queued or in hand went through the queue. */
  predicate QueuedWasSent(sys: System) {
    forall q | q in InHand(sys.worker) + sys.queue :: q < |sys.calls| ==> !sys.calls[q].fellBack
  }

  predicate CallOk(sys: System, i: nat)
    requires i < |sys.calls|
  {
    var call := sys.calls[i];
    && (call.before <= ReturnedSubmissions(sys))
    && (call.pc.Sending? || call.pc == ReadUnlock(true) ==> !sys.closed)
    && (call.pc == ReadUnlock(false) || call.pc.FallBack? || call.fellBack ==> !call.kind.Delete? || sys.closed)
    && (call.pc.CloseQueue? ==> sys.closed && !sys.queueClosed)
    && (call.pc == WriteUnlock(true) || call.pc.AwaitDone? ==> sys.queueClosed)
    && (call.pc == Returned(true) ==> sys.worker.Exited?)
    && (call.pc.FallBack? ==> call.fellBack)
    && (HoldsRead(call.pc) || call.pc.WantRead? || call.pc.FallBack? ==> !call.kind.Close?)
    && (HoldsWrite(call.pc) || call.pc.WantWrite? || call.pc.AwaitDone? ==> call.kind.Close?)
    && (call.pc.NotStarted? || call.pc.WantRead? || HoldsRead(call.pc) ==> !call.fellBack)
  }

  predicate Exclusive(sys: System) {
    forall i, j | 0 <= i < |sys.calls| && 0 <= j < |sys.calls| && i != j && HoldsWrite(sys.calls[i].pc) ::
      !HoldsWrite(sys.calls[j].pc) && !HoldsRead(sys.calls[j].pc)
  }

  predicate Protocol(sys: System) {
    && (forall i | 0 <= i < |sys.calls| :: CallOk(sys, i))
    && Exclusive(sys)
    && (sys.queueClosed ==> sys.closed)
    && (sys.worker.Exited? ==> sys.queueClosed && sys.queue == [])
    && |sys.queue| <= sys.capacity
  }

  predicate Inv(sys: System) {
    Protocol(sys) && Conserved(sys) && Ordered(sys) && QueuedWasSent(sys)
  }

  // ---------- Every step keeps it ----------

  /** A step either leaves the line alone, appends one accepted operation, or applies one directly. */
  datatype Move = Stays | Joins(op: nat) | Bypasses(op: nat)

  function MoveOf(sys: System, step: Step): Move {
    if !Enabled(sys, step) || !step.Advance? then Stays
    else if sys.calls[step.call].pc.Sending? && |sys.queue| < sys.capacity then Joins(step.call)
    else if sys.calls[step.call].pc.FallBack? then Bypasses(step.call)
    else Stays
  }

  function Moved(sys: System, move: Move): seq<nat> {
    match move
    case Stays => Line(sys)
    case Joins(i) => Line(sys) + [i]
    case Bypasses(i) => sys.applied + [i] + (InHand(sys.worker) + sys.queue)
  }

  lemma LineMoves(sys: System, step: Step)
    ensures Line(Next(sys, step)) == Moved(sys, MoveOf(sys, step))
  {
    hide CanAdvance, ReturnedSubmissions;
    if Enabled(sys, step) {
      match step
      case Start(i) =>
      case Advance(i) => AdvanceMoves(sys, i);
      case Receive => assert [sys.queue[0]] + sys.queue[1..] == sys.queue;
      case Apply => assert sys.applied + [sys.worker.op] + sys.queue == sys.applied + ([sys.worker.op] + sys.queue);
      case Exit =>
    }
  }

  lemma AdvanceMoves(sys: System, i: nat)
    requires Enabled(sys, Advance(i))
    ensures Line(AdvanceCall(sys, i)) == Moved(sys, MoveOf(sys, Advance(i)))
  {
    hide CanAdvance;
    var rest := InHand(sys.worker) + sys.queue;
    if sys.calls[i].pc.Sending? && |sys.queue| < sys.capacity {
      assert InHand(sys.worker) + (sys.queue + [i]) == rest + [i];
      assert sys.applied + (rest + [i]) == Line(sys) + [i];
    }
  }

  /** The rest of the protocol does not notice that call `i` moved on. */
  lemma OthersOk(sys: System, after: System, i: nat, call: Call)
    requires Protocol(sys) && i < |sys.calls| && after.calls == sys.calls[i := call] && after.worker == sys.worker
    requires !sys.calls[i].pc.Returned? && call.kind == sys.calls[i].kind
    requires sys.closed ==> after.closed
    requires sys.queueClosed ==> after.queueClosed
    requires after.closed != sys.closed || after.queueClosed != sys.queueClosed ==> HoldsWrite(sys.calls[i].pc)
    ensures ReturnedSubmissions(sys) <= ReturnedSubmissions(after)
    ensures forall j | 0 <= j < |sys.calls| && j != i :: CallOk(after, j)
  {
    assert ReturnedSubmissions(sys) <= ReturnedSubmissions(after);
    hide ReturnedSubmissions;
    forall j | 0 <= j < |sys.calls| && j != i ensures CallOk(after, j) {
      assert CallOk(sys, j) && after.calls[j] == sys.calls[j];
    }
  }

  lemma StaysExclusive(sys: System, after: System, i: nat, call: Call)
    requires Exclusive(sys) && i < |sys.calls| && after.calls == sys.calls[i := call]
    requires HoldsWrite(call.pc) ==> HoldsWrite(sys.calls[i].pc) || (NoneHoldsWrite(sys) && NoneHoldsRead(sys))
    requires HoldsRead(call.pc) ==> HoldsRead(sys.calls[i].pc) || NoneHoldsWrite(sys)
    ensures Exclusive(after)
  {
    hide HoldsRead, HoldsWrite;
  }

  lemma BeginOk(sys: System, i: nat)
    requires Protocol(sys) && Enabled(sys, Start(i))
    ensures Protocol(Begin(sys, i))
  {
    hide ReturnedSubmissions;
    assert CallOk(sys, i);
    var after := Begin(sys, i);
    OthersOk(sys, after, i, after.calls[i]);
    StaysExclusive(sys, after, i, after.calls[i]);
    assert CallOk(after, i);
  }

  lemma AdvanceOk(sys: System, i: nat)
    requires Protocol(sys) && Enabled(sys, Advance(i))
    ensures Protocol(AdvanceCall(sys, i))
  {
    hide ReturnedSubmissions, Exclusive, NoneHoldsRead, NoneHoldsWrite, NoneWantsWrite;
    assert CallOk(sys, i);
    var after := AdvanceCall(sys, i);
    OthersOk(sys, after, i, after.calls[i]);
    StaysExclusive(sys, after, i, after.calls[i]);
    assert CallOk(after, i);
  }

  lemma WorkerOk(sys: System, step: Step)
    requires Protocol(sys) && Enabled(sys, step) && !step.Start? && !step.Advance?
    ensures Protocol(Next(sys, step))
  {
    var after := Next(sys, step);
    assert ReturnedSubmissions(after) == ReturnedSubmissions(sys);
    hide ReturnedSubmissions;
    forall i | 0 <= i < |after.calls| ensures CallOk(after, i) {
      assert CallOk(sys, i);
    }
  }

  lemma ProtocolStep(sys: System, step: Step)
    requires Protocol(sys)
    ensures Protocol(Next(sys, step))
  {
    hide Protocol, Enabled, Begin, AdvanceCall;
    if Enabled(sys, step) {
      match step
      case Start(i) => BeginOk(sys, i);
      case Advance(i) => AdvanceOk(sys, i);
      case _ => WorkerOk(sys, step);
    }
  }

  /** A step accepts exactly the operation that joins or bypasses the line, and leaves the history of
      every operation that stands in the line alone. */
  lemma AcceptedMoves(sys: System, step: Step)
    requires Protocol(sys)
    ensures var after, move := Next(sys, step), MoveOf(sys, step);
      && |after.calls| == |sys.calls|
      && (move.Joins? || move.Bypasses? ==> move.op < |sys.calls| && !Accepted(sys.calls[move.op]))
      && (forall i | 0 <= i < |sys.calls| ::
            Accepted(after.calls[i]) <==> Accepted(sys.calls[i]) || move == Joins(i) || move == Bypasses(i))
      && (forall i | 0 <= i < |sys.calls| && Accepted(after.calls[i]) ::
            after.calls[i].before == sys.calls[i].before && after.calls[i].fellBack == sys.calls[i].fellBack)
      && (move.Bypasses? ==> after.calls[move.op].fellBack)
  {
    hide CanAdvance, ReturnedSubmissions, Exclusive;
    if step.Advance? && Enabled(sys, step) { assert CallOk(sys, step.call); }
  }

  lemma ConservedStep(sys: System, step: Step)
    requires Protocol(sys) && Conserved(sys)
    ensures Conserved(Next(sys, step))
  {
    var after, move := Next(sys, step), MoveOf(sys, step);
    LineMoves(sys, step);
    AcceptedMoves(sys, step);
    hide Next, MoveOf, Accepted, Protocol;
    var line, next := Line(sys), Line(after);
    match move
    case Stays =>
    case Joins(i) => OneMore(line, [], i);
    case Bypasses(i) =>
      assert line == sys.applied + (InHand(sys.worker) + sys.queue);
      OneMore(sys.applied, InHand(sys.worker) + sys.queue, i);
  }

  lemma OneMore(front: seq<nat>, back: seq<nat>, i: nat)
    requires Distinct(front + back) && i !in front + back
    ensures Distinct(front + [i] + back)
    ensures forall j :: j in front + [i] + back <==> j in front + back || j == i
  {
    var line, longer := front + back, front + [i] + back;
    assert forall k | 0 <= k < |front| :: longer[k] == line[k];
    assert forall k | |front| < k < |longer| :: longer[k] == line[k - 1];
    forall k, l | 0 <= k < l < |longer| ensures longer[k] != longer[l] {
      if k == |front| {
        assert line[l - 1] in line;
      } else if l == |front| {
        assert line[k] in line;
      } else {
        var a, b := if k < |front| then k else k - 1, if l < |front| then l else l - 1;
        assert line[a] != line[b];
      }
    }
  }

  /** Going past an operation puts it before everything it had gone behind, and changes nothing else. */
  lemma PastOthers(front: seq<nat>, back: seq<nat>, i: nat, k: nat)
    requires |front| < k < |front| + 1 + |back|
    ensures (front + [i] + back)[k] == (front + back)[k - 1]
    ensures forall q | q in (front + back)[..k - 1] :: q in (front + [i] + back)[..k]
  {
    assert (front + [i] + back)[..k] == front + [i] + back[..k - |front| - 1];
    assert (front + back)[..k - 1] == front + back[..k - |front| - 1];
  }

  /** What an operation must come after does not change once it stands in the line. */
  lemma OrderedStep(sys: System, step: Step)
    requires Inv(sys)
    ensures Ordered(Next(sys, step))
  {
    var after, move := Next(sys, step), MoveOf(sys, step);
    LineMoves(sys, step);
    AcceptedMoves(sys, step);
    ConservedStep(sys, step);
    var line, next := Line(sys), Line(after);
    var at := match move case Stays => |line| case Joins(_) => |line| case Bypasses(_) => |sys.applied|;
    if !move.Stays? { BeforeIsAccepted(sys, step, move.op); }
    hide Next, MoveOf, Protocol, Line, ReturnedSubmissions, Accepted, InHand, Conserved, Ordered;
    var back := InHand(sys.worker) + sys.queue;
    assert line == sys.applied + back by { SplitLine(sys); }
    forall k | 0 <= k < |next| ensures EarlierStandBefore(after, next, k) {
      if k < at {
        assert next[..k] == line[..k] && next[k] == line[k];
        KeptOrder(sys, after, line, k, next, k);
      } else if move.Joins? {
        assert next[..k] == line;
      } else if k > at {
        PastOthers(sys.applied, back, move.op, k);
        KeptOrder(sys, after, line, k - 1, next, k);
      }
    }
    assert Ordered(after) by { AllStand(after); }
  }

  lemma SplitLine(sys: System)
    ensures Line(sys) == sys.applied + (InHand(sys.worker) + sys.queue)
  {}

  lemma AllStand(sys: System)
    requires forall k | 0 <= k < |Line(sys)| :: EarlierStandBefore(sys, Line(sys), k)
    ensures Ordered(sys)
  {}

  /** An operation of the line whose history is unchanged still stands behind what it has to come after. */
  lemma KeptOrder(sys: System, after: System, line: seq<nat>, k: nat, next: seq<nat>, l: nat)
    requires line == Line(sys) && Ordered(sys) && Conserved(sys) && |after.calls| == |sys.calls|
    requires k < |line| && l < |next| && next[l] == line[k]
    requires forall q | q in line[..k] :: q in next[..l]
    requires forall i | 0 <= i < |sys.calls| && Accepted(sys.calls[i]) ::
      after.calls[i].before == sys.calls[i].before && after.calls[i].fellBack == sys.calls[i].fellBack
    ensures EarlierStandBefore(after, next, l)
  {
    hide Accepted;
    assert line[k] in line;
    assert EarlierStandBefore(sys, line, k);
  }

  lemma PendingMoves(sys: System, step: Step)
    requires Protocol(sys)
    ensures forall q | q in InHand(Next(sys, step).worker) + Next(sys, step).queue ::
      q in InHand(sys.worker) + sys.queue || MoveOf(sys, step) == Joins(q)
    ensures forall q: nat | MoveOf(sys, step) == Joins(q) :: q < |sys.calls| && !sys.calls[q].fellBack
  {
    hide CanAdvance, ReturnedSubmissions, Exclusive, Accepted;
    if step.Advance? && Enabled(sys, step) { assert CallOk(sys, step.call); }
  }

  lemma QueuedWasSentStep(sys: System, step: Step)
    requires Inv(sys)
    ensures QueuedWasSent(Next(sys, step))
  {
    var after := Next(sys, step);
    AcceptedMoves(sys, step);
    PendingMoves(sys, step);
    ConservedStep(sys, step);
    SplitLine(sys);
    SplitLine(after);
    hide Next, Accepted, Protocol, Ordered, MoveOf, Line, InHand;
    forall q | q in InHand(after.worker) + after.queue ensures q < |after.calls| ==> !after.calls[q].fellBack {
      assert q in Line(after);
    }
  }

  lemma BeforeIsAccepted(sys: System, step: Step, i: nat)
    requires Inv(sys) && i < |sys.calls|
    ensures forall q | q in sys.calls[i].before :: q in Line(sys)
  {
    assert CallOk(sys, i);
  }

  // ---------- Whole runs ----------

  lemma InitialInv(capacity: nat, kinds: seq<Kind>)
    ensures Inv(Initial(capacity, kinds))
  {
    var sys := Initial(capacity, kinds);
    assert Line(sys) == [];
    assert forall i | 0 <= i < |sys.calls| :: sys.calls[i] == Call(kinds[i], NotStarted, {}, false);
  }

  lemma {:induction false} ExecuteInv(sys: System, steps: seq<Step>)
    requires Inv(sys)
    ensures Inv(Execute(sys, steps))
  {
    if steps != [] {
      ExecuteInv(sys, steps[..|steps| - 1]);
      var before, step := Execute(sys, steps[..|steps| - 1]), steps[|steps| - 1];
      ProtocolStep(before, step);
      ConservedStep(before, step);
      OrderedStep(before, step);
      QueuedWasSentStep(before, step);
      hide Next, Protocol, Conserved, Ordered;
    }
  }

  function Run(capacity: nat, kinds: seq<Kind>, steps: seq<Step>): System {
    Execute(Initial(capacity, kinds), steps)
  }

  /** In every run, what has been submitted is what is applied, in hand or queued, each in one place;
      nobody sends to a closed queue, nobody closes it twice, and the queue keeps its bound. */
  lemma SubmittedIsAppliedInHandOrQueued(capacity: nat, kinds: seq<Kind>, steps: seq<Step>)
    ensures var sys := Run(capacity, kinds, steps);
      && Distinct(sys.applied + (InHand(sys.worker) + sys.queue))
      && (forall i: nat :: i in sys.applied + (InHand(sys.worker) + sys.queue)
            <==> i < |sys.calls| && Accepted(sys.calls[i]))
      && (forall i | 0 <= i < |sys.calls| && (sys.calls[i].pc.Sending? || sys.calls[i].pc.CloseQueue?)
            :: !sys.queueClosed)
      && |sys.queue| <= capacity
  {
    InitialInv(capacity, kinds);
    ExecuteInv(Initial(capacity, kinds), steps);
    var sys := Run(capacity, kinds, steps);
    ExecuteKeepsCapacity(Initial(capacity, kinds), steps);
    SplitLine(sys);
    forall i | 0 <= i < |sys.calls| && (sys.calls[i].pc.Sending? || sys.calls[i].pc.CloseQueue?)
      ensures !sys.queueClosed
    {
      assert CallOk(sys, i);
    }
  }

  lemma {:induction false} ExecuteKeepsCapacity(sys: System, steps: seq<Step>)
    ensures Execute(sys, steps).capacity == sys.capacity && |Execute(sys, steps).calls| == |sys.calls|
  {
    if steps != [] {
      ExecuteKeepsCapacity(sys, steps[..|steps| - 1]);
      hide Enabled;
    }
  }

  /** When the call that closed the queue returns, the queue is empty, the worker is gone, and every
      submission accepted by then or later has been applied. */
  lemma CloseLeavesNothingBehind(capacity: nat, kinds: seq<Kind>, steps: seq<Step>, closer: nat)
    requires closer < |kinds|
    requires closer < |Run(capacity, kinds, steps).calls|
          && Run(capacity, kinds, steps).calls[closer].pc == Returned(true)
    ensures var sys := Run(capacity, kinds, steps);
      sys.queue == [] && sys.worker.Exited?
      && forall i | 0 <= i < |sys.calls| && Accepted(sys.calls[i]) :: i in sys.applied
  {
    InitialInv(capacity, kinds);
    ExecuteInv(Initial(capacity, kinds), steps);
    var sys := Run(capacity, kinds, steps);
    assert CallOk(sys, closer);
    assert Line(sys) == sys.applied;
  }

  /** A `Close` that has returned leaves everything accepted applied exactly if it is the one that closed the
      queue, or the drain had finished by then. */
  lemma ReturnedCloseExactly(capacity: nat, kinds: seq<Kind>, steps: seq<Step>, closer: nat)
    requires var sys := Run(capacity, kinds, steps);
      closer < |sys.calls| && sys.calls[closer].kind.Close? && sys.calls[closer].pc.Returned?
    ensures var sys := Run(capacity, kinds, steps);
      (forall i | 0 <= i < |sys.calls| && Accepted(sys.calls[i]) :: i in sys.applied)
      <==> sys.calls[closer].pc.waited || (sys.queue == [] && !sys.worker.Applying?)
  {
    InitialInv(capacity, kinds);
    ExecuteInv(Initial(capacity, kinds), steps);
    var sys := Run(capacity, kinds, steps);
    var pending := InHand(sys.worker) + sys.queue;
    assert CallOk(sys, closer);
    SplitLine(sys);
    if pending == [] {
      assert sys.applied + pending == sys.applied;
    } else {
      var q := pending[0];
      assert q in Line(sys) && q in pending;
      NotTwice(sys.applied, pending, q);
    }
  }

  /** The step applies operation `i`. */
  predicate Applies(sys: System, step: Step, i: nat) {
    || (step.Apply? && sys.worker == Applying(i))
    || (step == Advance(i) && i < |sys.calls| && sys.calls[i].pc.FallBack?)
  }

  /** An operation is applied after every submission that had returned when it was made, except exactly
      when it falls back while such a submission is still queued or in hand. */
  lemma OvertakesExactly(capacity: nat, kinds: seq<Kind>, steps: seq<Step>, step: Step, i: nat)
    requires Applies(Run(capacity, kinds, steps), step, i)
    ensures var sys := Run(capacity, kinds, steps);
      i < |sys.calls| &&
      ((forall q | q in sys.calls[i].before :: q in sys.applied)
       <==> !(step == Advance(i) && exists q | q in sys.calls[i].before :: q in InHand(sys.worker) + sys.queue))
  {
    InitialInv(capacity, kinds);
    ExecuteInv(Initial(capacity, kinds), steps);
    var sys := Run(capacity, kinds, steps);
    var pending := InHand(sys.worker) + sys.queue;
    SplitLine(sys);
    if step.Apply? {
      var k := |sys.applied|;
      assert Line(sys)[k] == i && i in Line(sys);
      assert EarlierStandBefore(sys, Line(sys), k);
      assert Line(sys)[..k] == sys.applied;
      assert i in InHand(sys.worker) + sys.queue;
    } else {
      assert CallOk(sys, i);
      BeforeIsAccepted(sys, step, i);
      forall q | q in pending ensures q !in sys.applied {
        NotTwice(sys.applied, pending, q);
      }
    }
  }

  lemma NotTwice(a: seq<nat>, b: seq<nat>, q: nat)
    requires Distinct(a + b) && q in b
    ensures q !in a
  {
    var j :| 0 <= j < |b| && b[j] == q;
    assert (a + b)[|a| + j] == q;
    assert forall i | 0 <= i < |a| :: (a + b)[i] == a[i];
  }

  /** While the writer is open, a delete that has been applied was applied after every submission that had
      returned when it was made. */
  lemma DeleteFollowsEarlierSaves(capacity: nat, kinds: seq<Kind>, steps: seq<Step>, k: nat)
    requires var sys := Run(capacity, kinds, steps);
      !sys.closed && k < |sys.applied| && sys.applied[k] < |sys.calls| && sys.calls[sys.applied[k]].kind.Delete?
    ensures var sys := Run(capacity, kinds, steps);
      forall q | q in sys.calls[sys.applied[k]].before :: q in sys.applied[..k]
  {
    InitialInv(capacity, kinds);
    ExecuteInv(Initial(capacity, kinds), steps);
    var sys := Run(capacity, kinds, steps);
    assert CallOk(sys, sys.applied[k]);
    SplitLine(sys);
    assert Line(sys)[k] == sys.applied[k] && Line(sys)[..k] == sys.applied[..k];
    assert EarlierStandBefore(sys, Line(sys), k);
  }

  // ---------- Progress ----------

  predicate UnderWay(pc: PC) {
    !pc.NotStarted? && !pc.Returned?
  }

  /** The worker can act whenever the queue is full or a closer waits for it. */
  lemma WorkerCanStep(sys: System, i: nat)
    requires Inv(sys) && sys.capacity > 0 && i < |sys.calls| && !CanAdvance(sys, i)
    requires sys.calls[i].pc.Sending? || sys.calls[i].pc.AwaitDone?
    ensures Enabled(sys, Receive) || Enabled(sys, Apply) || Enabled(sys, Exit)
  {
    assert CallOk(sys, i);
  }

  /** The step is possible even if a writer that waits keeps all readers out. */
  predicate EnabledForWriters(sys: System, step: Step) {
    Enabled(sys, step)
    && (step.Advance? ==> (sys.calls[step.call].pc.WantRead? ==> NoneWantsWrite(sys)))
  }

  /** As long as a call is under way, some call can advance or the worker can act: nobody waits forever
      on a full queue, on a lock, or on `done`, whichever side the lock prefers. */
  lemma NeverStuck(capacity: nat, kinds: seq<Kind>, steps: seq<Step>, i: nat)
    requires capacity > 0
    requires var sys := Run(capacity, kinds, steps); i < |sys.calls| && UnderWay(sys.calls[i].pc)
    ensures exists step: Step | !step.Start? :: EnabledForWriters(Run(capacity, kinds, steps), step)
  {
    InitialInv(capacity, kinds);
    ExecuteInv(Initial(capacity, kinds), steps);
    ExecuteKeepsCapacity(Initial(capacity, kinds), steps);
    var sys := Run(capacity, kinds, steps);
    hide Run, Inv;
    var j := SomeoneToMove(sys, i);
    if CanAdvance(sys, j) {
      assert EnabledForWriters(sys, Advance(j));
    } else {
      WorkerCanStep(sys, j);
      assert EnabledForWriters(sys, Receive) || EnabledForWriters(sys, Apply) || EnabledForWriters(sys, Exit);
    }
  }

  /** A call that can advance, or one that waits for the worker. */
  lemma SomeoneToMove(sys: System, i: nat) returns (j: nat)
    requires i < |sys.calls| && UnderWay(sys.calls[i].pc)
    ensures j < |sys.calls|
    ensures CanAdvance(sys, j) || sys.calls[j].pc.Sending? || sys.calls[j].pc.AwaitDone?
    ensures sys.calls[j].pc.WantRead? ==> NoneWantsWrite(sys)
  {
    if k :| 0 <= k < |sys.calls| && (HoldsRead(sys.calls[k].pc) || HoldsWrite(sys.calls[k].pc)) {
      j := k;
    } else if k :| 0 <= k < |sys.calls| && sys.calls[k].pc.WantWrite? {
      j := k;
    } else {
      j := i;
    }
  }

  function Left(pc: PC): nat {
    match pc
    case NotStarted => 13
    case WantRead | WantWrite => 12
    case CheckOpen | CheckClosed => 11
    case Sending | CloseQueue => 10
    case WriteUnlock(_) => 9
    case AwaitDone => 8
    case ReadUnlock(_) => 3
    case FallBack => 2
    case Returned(_) => 0
  }

  function LeftInCalls(calls: seq<Call>): nat {
    if calls == [] then 0 else LeftInCalls(calls[..|calls| - 1]) + Left(calls[|calls| - 1].pc)
  }

  function WorkLeft(sys: System): nat {
    LeftInCalls(sys.calls) + 2 * |sys.queue|
    + match sys.worker case Exited => 0 case Receiving => 1 case Applying(_) => 2
  }

  lemma {:induction false} LeftAfter(calls: seq<Call>, i: nat, call: Call)
    requires i < |calls|
    ensures LeftInCalls(calls[i := call]) == LeftInCalls(calls) - Left(calls[i].pc) + Left(call.pc)
  {
    var front := calls[..|calls| - 1];
    if i < |calls| - 1 {
      LeftAfter(front, i, call);
      assert calls[i := call][..|calls| - 1] == front[i := call];
    } else {
      assert calls[i := call][..|calls| - 1] == front;
    }
  }

  lemma AdvanceShape(sys: System, after: System, i: nat)
    requires i < |sys.calls| && after == AdvanceCall(sys, i) && CanAdvance(sys, i)
    ensures |after.calls| == |sys.calls| && after.calls == sys.calls[i := after.calls[i]] && after.worker == sys.worker
    ensures Left(after.calls[i].pc) + 2 * |after.queue| < Left(sys.calls[i].pc) + 2 * |sys.queue|
  {
    hide NoneHoldsRead, NoneHoldsWrite, NoneWantsWrite;
  }

  lemma CallUsesWork(sys: System, after: System, i: nat)
    requires i < |sys.calls| && after == AdvanceCall(sys, i) && CanAdvance(sys, i)
    ensures WorkLeft(after) < WorkLeft(sys)
  {
    AdvanceShape(sys, after, i);
    hide AdvanceCall, CanAdvance, LeftInCalls, Left;
    LeftAfter(sys.calls, i, after.calls[i]);
  }

  /** Every step taken uses up work, so every call that has started returns and every run comes to rest. */
  lemma StepsUseUpWork(sys: System, step: Step)
    requires Enabled(sys, step)
    ensures WorkLeft(Next(sys, step)) < WorkLeft(sys)
  {
    match step
    case Start(i) => LeftAfter(sys.calls, i, Begin(sys, i).calls[i]);
    case Advance(i) =>
      hide WorkLeft, AdvanceCall;
      CallUsesWork(sys, AdvanceCall(sys, i), i);
    case _ => hide LeftInCalls;
  }

  // ---------- The two ways an operation overtakes an older one ----------

  function CallSteps(i: nat, n: nat): seq<Step> {
    if n == 0 then [Start(i)] else CallSteps(i, n - 1) + [Advance(i)]
  }

  lemma ExecuteMore(sys: System, steps: seq<Step>, step: Step)
    ensures Execute(sys, steps + [step]) == Next(Execute(sys, steps), step)
  {
    assert (steps + [step])[..|steps|] == steps;
  }

  lemma {:induction false} ExecuteTwice(sys: System, a: seq<Step>, b: seq<Step>)
    ensures Execute(sys, a + b) == Execute(Execute(sys, a), b)
  {
    if b == [] {
      assert a + b == a;
    } else {
      ExecuteTwice(sys, a, b[..|b| - 1]);
      assert (a + b)[..|a + b| - 1] == a + b[..|b| - 1];
    }
  }

  /** Call `i` alone has moved, to `pc`. */
  function At(sys: System, i: nat, pc: PC, fellBack: bool): System
    requires i < |sys.calls|
  {
    sys.(calls := sys.calls[i := Call(sys.calls[i].kind, pc, ReturnedSubmissions(sys), fellBack)])
  }

  predicate Quiet(sys: System, i: nat) {
    && i < |sys.calls| && sys.calls[i] == Call(sys.calls[i].kind, NotStarted, {}, false)
    && NoneHoldsRead(sys) && NoneHoldsWrite(sys) && NoneWantsWrite(sys)
  }

  /** A submission that runs alone, up to where it has looked at the flag. */
  lemma SubmitAlone(sys: System, i: nat)
    requires Quiet(sys, i) && !sys.calls[i].kind.Close?
    ensures Execute(sys, CallSteps(i, 2)) == At(sys, i, if sys.closed then ReadUnlock(false) else Sending, false)
  {
    assert Execute(sys, CallSteps(i, 0)) == Next(sys, Start(i)) == At(sys, i, WantRead, false);
    ExecuteMore(sys, CallSteps(i, 0), Advance(i));
    assert Next(At(sys, i, WantRead, false), Advance(i)) == At(sys, i, CheckOpen, false);
    ExecuteMore(sys, CallSteps(i, 1), Advance(i));
  }

  lemma OneFurther(sys: System, i: nat, n: nat, now: System)
    requires Execute(sys, CallSteps(i, n)) == now
    ensures Execute(sys, CallSteps(i, n + 1)) == Next(now, Advance(i))
  {
    hide Next;
    ExecuteMore(sys, CallSteps(i, n), Advance(i));
  }

  lemma SaveQueues(sys: System, i: nat)
    requires Quiet(sys, i) && sys.calls[i].kind.Save? && !sys.closed && |sys.queue| < sys.capacity
    ensures Execute(sys, CallSteps(i, 4)) == At(sys, i, Returned(false), false).(queue := sys.queue + [i])
  {
    hide Execute, CallSteps, NoneHoldsRead, NoneHoldsWrite, NoneWantsWrite, ReturnedSubmissions;
    SubmitAlone(sys, i);
    OneFurther(sys, i, 2, At(sys, i, Sending, false));
    OneFurther(sys, i, 3, At(sys, i, ReadUnlock(true), false).(queue := sys.queue + [i]));
  }

  lemma FullFallsBack(sys: System, i: nat)
    requires Quiet(sys, i) && sys.calls[i].kind.Save? && !sys.closed && |sys.queue| >= sys.capacity
    ensures Execute(sys, CallSteps(i, 5)) == At(sys, i, Returned(false), true).(applied := sys.applied + [i])
  {
    hide Execute, CallSteps, NoneHoldsRead, NoneHoldsWrite, NoneWantsWrite, ReturnedSubmissions;
    SubmitAlone(sys, i);
    OneFurther(sys, i, 2, At(sys, i, Sending, false));
    OneFurther(sys, i, 3, At(sys, i, ReadUnlock(false), false));
    OneFurther(sys, i, 4, At(sys, i, FallBack, true));
  }

  lemma ClosedFallsBack(sys: System, i: nat)
    requires Quiet(sys, i) && sys.calls[i].kind.Delete? && sys.closed
    ensures Execute(sys, CallSteps(i, 4)) == At(sys, i, Returned(false), true).(applied := sys.applied + [i])
  {
    hide Execute, CallSteps, NoneHoldsRead, NoneHoldsWrite, NoneWantsWrite, ReturnedSubmissions;
    SubmitAlone(sys, i);
    OneFurther(sys, i, 2, At(sys, i, ReadUnlock(false), false));
    OneFurther(sys, i, 3, At(sys, i, FallBack, true));
  }

  lemma CloseAlone(sys: System, i: nat)
    requires Quiet(sys, i) && sys.calls[i].kind.Close? && !sys.closed
    ensures Execute(sys, CallSteps(i, 4)) == At(sys, i, AwaitDone, false).(closed := true, queueClosed := true)
  {
    LockAlone(sys, i);
    hide Execute, CallSteps, Next, Quiet;
    var locked := At(sys, i, CheckClosed, false);
    OneFurther(sys, i, 1, locked);
    CloseSteps(sys, i);
    OneFurther(sys, i, 2, Next(locked, Advance(i)));
    OneFurther(sys, i, 3, Next(Next(locked, Advance(i)), Advance(i)));
  }

  lemma CloseSteps(sys: System, i: nat)
    requires i < |sys.calls| && sys.calls[i].kind.Close? && !sys.closed
    ensures Next(At(sys, i, CheckClosed, false), Advance(i)) == At(sys, i, CloseQueue, false).(closed := true)
    ensures Next(At(sys, i, CloseQueue, false).(closed := true), Advance(i))
         == At(sys, i, WriteUnlock(true), false).(closed := true, queueClosed := true)
    ensures Next(At(sys, i, WriteUnlock(true), false).(closed := true, queueClosed := true), Advance(i))
         == At(sys, i, AwaitDone, false).(closed := true, queueClosed := true)
  {
    hide ReturnedSubmissions;
  }

  lemma LockAlone(sys: System, i: nat)
    requires Quiet(sys, i) && sys.calls[i].kind.Close?
    ensures Execute(sys, CallSteps(i, 1)) == At(sys, i, CheckClosed, false)
  {
    assert Execute(sys, CallSteps(i, 0)) == Next(sys, Start(i)) == At(sys, i, WantWrite, false);
    OneFurther(sys, i, 0, At(sys, i, WantWrite, false));
    hide Execute, CallSteps, ReturnedSubmissions;
    assert NoneHoldsRead(At(sys, i, WantWrite, false)) && NoneHoldsWrite(At(sys, i, WantWrite, false));
  }

  /** Calls 0 to `k - 1` have queued their saves one after the other; nothing else has happened. */
  predicate Filled(sys: System, k: nat) {
    && |sys.calls| == sys.capacity + 1 && k <= sys.capacity
    && !sys.closed && sys.applied == [] && sys.worker.Receiving?
    && |sys.queue| == k && (forall i | 0 <= i < k :: sys.queue[i] == i)
    && (forall i | 0 <= i < |sys.calls| ::
          sys.calls[i].kind.Save? && !sys.calls[i].fellBack &&
          (if i < k then sys.calls[i].pc == Returned(false)
           else sys.calls[i].pc.NotStarted? && sys.calls[i].before == {}))
  }

  lemma FilledOneMore(sys: System, k: nat)
    requires Filled(sys, k) && k < sys.capacity
    ensures Quiet(sys, k) && Filled(At(sys, k, Returned(false), false).(queue := sys.queue + [k]), k + 1)
  {
    hide ReturnedSubmissions;
  }

  lemma {:induction false} FillQueue(capacity: nat, k: nat) returns (steps: seq<Step>)
    requires k <= capacity
    ensures Run(capacity, seq(capacity + 1, _ => Save), steps).capacity == capacity
    ensures Filled(Run(capacity, seq(capacity + 1, _ => Save), steps), k)
  {
    var start := Initial(capacity, seq(capacity + 1, _ => Save));
    if k == 0 {
      steps := [];
      hide ReturnedSubmissions;
    } else {
      var before := FillQueue(capacity, k - 1);
      var sys := Execute(start, before);
      FilledOneMore(sys, k - 1);
      SaveQueues(sys, k - 1);
      steps := before + CallSteps(k - 1, 4);
      ExecuteTwice(start, before, CallSteps(k - 1, 4));
      hide ReturnedSubmissions, Execute, Filled, Initial;
    }
  }

  /** Whatever the capacity: when the queue is full, a save is applied before every save queued earlier. */
  lemma FullQueueLetsSaveOvertake(capacity: nat) returns (steps: seq<Step>)
    ensures var sys := Run(capacity, seq(capacity + 1, _ => Save), steps);
      && sys.applied == [capacity] && |sys.queue| == capacity && |sys.calls| == capacity + 1
      && forall i | 0 <= i < capacity :: sys.queue[i] == i && i in sys.calls[capacity].before
  {
    hide Execute, CallSteps;
    var start := Initial(capacity, seq(capacity + 1, _ => Save));
    var before := FillQueue(capacity, capacity);
    var sys := Execute(start, before);
    assert Quiet(sys, capacity) && sys.calls[capacity].kind.Save?;
    FullFallsBack(sys, capacity);
    ExecuteTwice(start, before, CallSteps(capacity, 5));
    steps := before + CallSteps(capacity, 5);
  }

  /** A delete made while `Close` drains the queue is applied before a save that had returned before it,
      so the deleted response is stored again afterwards. */
  lemma DeleteOvertakesWhileClosing() returns (steps: seq<Step>)
    ensures var sys := Run(QUEUE_SIZE, [Save, Close, Delete], steps);
      sys.applied == [2, 0] && |sys.calls| == 3 && 0 in sys.calls[2].before
  {
    hide CallSteps, Execute;
    var s0 := Initial(QUEUE_SIZE, [Save, Close, Delete]);
    var s1 := At(s0, 0, Returned(false), false).(queue := [0]);
    SaveQueues(s0, 0);
    assert s0.queue + [0] == [0] && s0.applied + [2] == [2] && [2] + [0] == [2, 0];
    var s2 := At(s1, 1, AwaitDone, false).(closed := true, queueClosed := true);
    CloseAlone(s1, 1);
    var s3 := At(s2, 2, Returned(false), true).(applied := [2]);
    ClosedFallsBack(s2, 2);
    Drain(s3);
    steps := CallSteps(0, 4) + CallSteps(1, 4) + CallSteps(2, 4) + [Receive, Apply];
    ExecuteTwice(s0, CallSteps(0, 4), CallSteps(1, 4));
    ExecuteTwice(s0, CallSteps(0, 4) + CallSteps(1, 4), CallSteps(2, 4));
    ExecuteTwice(s0, CallSteps(0, 4) + CallSteps(1, 4) + CallSteps(2, 4), [Receive, Apply]);
  }

  lemma SecondCloseAlone(sys: System, i: nat)
    requires Quiet(sys, i) && sys.calls[i].kind.Close? && sys.closed
    ensures Execute(sys, CallSteps(i, 3)) == At(sys, i, Returned(false), false)
  {
    LockAlone(sys, i);
    hide Execute, CallSteps, NoneHoldsRead, NoneHoldsWrite, NoneWantsWrite, ReturnedSubmissions;
    OneFurther(sys, i, 1, At(sys, i, CheckClosed, false));
    OneFurther(sys, i, 2, At(sys, i, WriteUnlock(false), false));
  }

  /** A second `Close` returns while the first still drains: an accepted save is then not applied. */
  lemma SecondCloseReturnsEarly() returns (steps: seq<Step>)
    ensures var sys := Run(QUEUE_SIZE, [Save, Close, Close], steps);
      |sys.calls| == 3 && sys.calls[2].pc == Returned(false) && Accepted(sys.calls[0])
      && sys.queue == [0] && sys.applied == []
  {
    hide CallSteps, Execute;
    var s0 := Initial(QUEUE_SIZE, [Save, Close, Close]);
    var s1 := At(s0, 0, Returned(false), false).(queue := [0]);
    SaveQueues(s0, 0);
    assert s0.queue + [0] == [0];
    var s2 := At(s1, 1, AwaitDone, false).(closed := true, queueClosed := true);
    CloseAlone(s1, 1);
    SecondCloseAlone(s2, 2);
    steps := CallSteps(0, 4) + CallSteps(1, 4) + CallSteps(2, 3);
    ExecuteTwice(s0, CallSteps(0, 4), CallSteps(1, 4));
    ExecuteTwice(s0, CallSteps(0, 4) + CallSteps(1, 4), CallSteps(2, 3));
  }

  lemma Drain(sys: System)
    requires sys.worker.Receiving? && |sys.queue| == 1
    ensures Execute(sys, [Receive, Apply]) == sys.(queue := [], applied := sys.applied + sys.queue)
  {
    ExecuteMore(sys, [], Receive);
    ExecuteMore(sys, [Receive], Apply);
    assert [] + [Receive] == [Receive] && [Receive] + [Apply] == [Receive, Apply];
    assert Execute(sys, []) == sys;
    hide Execute;
  }
}
