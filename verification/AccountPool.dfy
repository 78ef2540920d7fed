/** The account-pool loop: try the candidates in order, refresh and retry an account once, and stop
    failing over as soon as the client has seen output. */
module AccountPool {
  import opened Wrappers

  /** An error with the classifications asked for; wrapping an error keeps them. `capacity` says that it is
      the capacity error. */
  datatype Error = Error(message: string, retryable: bool, contextAbort: bool, capacity: bool)

  const CAPACITY_ERROR := Error("dispatch capacity exceeded", false, false, true)

  datatype Answer = Answered(text: string) | Failed(error: Error)

  /** One run of the prompt upstream: the deltas it forwards, and how it ends. */
  datatype Run = Run(deltas: seq<string>, answer: Answer)

  /** What the outside world answers while one candidate is tried. */
  datatype Candidate = Candidate(
    email: string,
    acquires: bool,                    // first slot acquisition
    loadError: Option<Error>,          // session and health probe
    run: Run,
    saveError: Option<Error>,          // saving after success
    deadAfterRun: bool,                // request context over
    refreshEnabled: bool,
    refreshes: bool,                   // account refresh
    refreshSaveError: Option<Error>,
    found: bool,                       // account still configured
    reloadError: Option<Error>,
    reacquires: bool,                  // slot for the retry
    rerun: Run,
    resaveError: Option<Error>,
    deadAfterRetry: bool)

  datatype Result =
    | Success(text: string, email: string)
    | NoEligibleAccounts
    | NoCapacity
    | Failure(error: Error)

  /** An attempt is named by its candidate and whether it is the retry. */
  datatype Attempt = Attempt(candidate: nat, retry: bool)

  datatype Event =
    | Acquired(email: string)
    | Released(email: string)
    | Started(attempt: Attempt)
    | Delta(attempt: Attempt, text: string)

  type Log = seq<Event>

  // ---------- What a log must look like ----------

  /** The slots held after the log, if it keeps the discipline: at most one slot at a time, released
      under the account it was acquired for, and running or streaming only while one is held. */
  function Held(log: Log): Option<seq<string>> {
    if log == [] then Some([])
    else
      var before, event := Held(log[..|log| - 1]), log[|log| - 1];
      if before.None? then None
      else match event
        case Acquired(email) => if before.value == [] then Some([email]) else None
        case Released(email) => if before.value == [email] then Some([]) else None
        case _ => if before.value == [] then None else before
  }

  predicate Precedes(a: Attempt, b: Attempt) {
    a.candidate < b.candidate || (a.candidate == b.candidate && !a.retry && b.retry)
  }

  /** No attempt is started twice: every candidate gets at most its first run and one retry, in order. */
  predicate StartsInOrder(log: Log) {
    forall i, j | 0 <= i < j < |log| && log[i].Started? && log[j].Started? ::
      Precedes(log[i].attempt, log[j].attempt)
  }

  predicate StartsBefore(log: Log, a: Attempt) {
    forall i | 0 <= i < |log| && log[i].Started? :: Precedes(log[i].attempt, a)
  }

  /** Everything the client saw came from this attempt. */
  predicate OnlyFrom(log: Log, a: Attempt) {
    forall i | 0 <= i < |log| && log[i].Delta? && log[i].text != "" :: log[i].attempt == a
  }

  predicate Silent(log: Log) {
    forall i | 0 <= i < |log| && log[i].Delta? :: log[i].text == ""
  }

  predicate NothingAcquired(log: Log) {
    forall i | 0 <= i < |log| :: !log[i].Acquired?
  }

  function LastStarted(log: Log): Option<Attempt> {
    if log == [] then None
    else if log[|log| - 1].Started? then Some(log[|log| - 1].attempt)
    else LastStarted(log[..|log| - 1])
  }

  function RunOf(candidates: seq<Candidate>, a: Attempt): Option<Run> {
    if a.candidate >= |candidates| then None
    else if a.retry then Some(candidates[a.candidate].rerun) else Some(candidates[a.candidate].run)
  }

  /** All that one log promises about the output: it came from one attempt, and a success returns the
      answer of exactly that attempt, which was the last one started. */
  ghost predicate OneSource(candidates: seq<Candidate>, log: Log, result: Result) {
    exists a: Attempt :: OnlyFrom(log, a)
      && (result.Success? ==>
            LastStarted(log) == Some(a) && a.candidate < |candidates| && result.email == candidates[a.candidate].email
            && RunOf(candidates, a).value.answer == Answered(result.text))
  }

  // ---------- Which candidate decides ----------

  /** What one candidate does for the request: nothing, settle it, or pass it on with an error. */
  datatype Verdict = Skips | Settles(result: Result) | PassesOn(error: Error)

  predicate Speaks(run: Run) {
    exists i | 0 <= i < |run.deltas| :: run.deltas[i] != ""
  }

  function Finish(c: Candidate, text: string, saveError: Option<Error>): Verdict {
    Settles(if saveError.Some? then Failure(saveError.value) else Success(text, c.email))
  }

  /** The candidate's error after its first run, and its retry if the error asks for one. */
  function JudgeRetry(c: Candidate, error: Error, spoke: bool): Verdict {
    if !(error.retryable && c.refreshEnabled && !spoke && c.refreshes) then JudgeError(c, error, spoke)
    else if c.refreshSaveError.Some? then JudgeError(c, c.refreshSaveError.value, spoke)
    else if !c.found then JudgeError(c, error, spoke)
    else if c.reloadError.Some? then JudgeError(c, c.reloadError.value, spoke)
    else if !c.reacquires then JudgeError(c, CAPACITY_ERROR, spoke)
    else match c.rerun.answer
      case Answered(text) => Finish(c, text, c.resaveError)
      case Failed(rerunError) => JudgeError(c, rerunError, Speaks(c.rerun))
  }

  /** An error settles the request when its context is over or the client has seen output. */
  function JudgeError(c: Candidate, error: Error, spoke: bool): Verdict {
    if error.contextAbort || c.deadAfterRetry || spoke then Settles(Failure(error)) else PassesOn(error)
  }

  function Judge(c: Candidate): Verdict {
    if !c.acquires then Skips
    else if c.loadError.None? && c.run.answer.Answered? then Finish(c, c.run.answer.text, c.saveError)
    else
      var error := if c.loadError.Some? then c.loadError.value else c.run.answer.error;
      if error.contextAbort || c.deadAfterRun then Settles(Failure(error))
      else JudgeRetry(c, error, c.loadError.None? && Speaks(c.run))
  }

  /** The first candidate that settles the request decides; otherwise the last error, if any. */
  function Decide(candidates: seq<Candidate>, lastErr: Option<Error>): Result {
    if candidates == [] then
      if lastErr.Some? then Failure(lastErr.value) else NoCapacity
    else match Judge(candidates[0])
      case Skips => Decide(candidates[1..], lastErr)
      case Settles(result) => result
      case PassesOn(error) => Decide(candidates[1..], Some(error))
  }

  /** The error of the first attempt; it is looked at unless that attempt answered. */
  function FirstError(c: Candidate): Option<Error> {
    if c.loadError.Some? then c.loadError else if c.run.answer.Failed? then Some(c.run.answer.error) else None
  }

  /** The candidate gets as far as asking for a slot again. */
  predicate AsksAgain(c: Candidate) {
    && c.acquires && FirstError(c).Some?
    && !FirstError(c).value.contextAbort && !c.deadAfterRun
    && FirstError(c).value.retryable && c.refreshEnabled && c.refreshes
    && !(c.loadError.None? && Speaks(c.run))
    && c.refreshSaveError.None? && c.found && c.reloadError.None?
  }

  /** Trying the candidate lets the client see output. */
  predicate Heard(c: Candidate) {
    c.acquires && ((c.loadError.None? && Speaks(c.run)) || (AsksAgain(c) && c.reacquires && Speaks(c.rerun)))
  }

  /** The error that is left when the candidate has been tried, unless a run answered. */
  function LastError(c: Candidate): Option<Error> {
    if FirstError(c).None? then None
    else if AsksAgain(c) then
      if !c.reacquires then Some(CAPACITY_ERROR)
      else if c.rerun.answer.Failed? then Some(c.rerun.answer.error) else None
    else if Refreshed(c) && c.refreshSaveError.Some? then c.refreshSaveError
    else if Refreshed(c) && c.found then c.reloadError
    else FirstError(c)
  }

  /** The session is refreshed: the first attempt failed unheard with an error that calls for it, and the
      request goes on. */
  predicate Refreshed(c: Candidate) {
    && c.acquires && FirstError(c).Some?
    && !FirstError(c).value.contextAbort && !c.deadAfterRun
    && FirstError(c).value.retryable && c.refreshEnabled && c.refreshes
    && !(c.loadError.None? && Speaks(c.run))
  }

  /** A candidate that failed is passed over: no run answered, the client heard nothing, and the request's
      context was alive at both checks. */
  predicate PassedOver(c: Candidate) {
    && c.acquires && LastError(c).Some? && !Heard(c)
    && !FirstError(c).value.contextAbort && !c.deadAfterRun
    && !LastError(c).value.contextAbort && !c.deadAfterRetry
  }

  /** The text a candidate delivers: that of its first run, or of its second, once the account is saved. */
  function Delivered(c: Candidate): Option<string> {
    if !c.acquires then None
    else if c.loadError.None? && c.run.answer.Answered? then
      if c.saveError.None? then Some(c.run.answer.text) else None
    else if AsksAgain(c) && c.reacquires && c.rerun.answer.Answered? && c.resaveError.None? then
      Some(c.rerun.answer.text)
    else None
  }

  /** What a candidate brings that ends the request. */
  function Brought(c: Candidate): Result {
    if Delivered(c).Some? then Success(Delivered(c).value, c.email)
    else if LastError(c).Some? then Failure(LastError(c).value)
    else if FirstError(c).None? && c.saveError.Some? then Failure(c.saveError.value)
    else if c.resaveError.Some? then Failure(c.resaveError.value)
    else NoCapacity
  }

  /** Exactly the candidates that were busy or are passed over leave the request open, and the others bring what
      ends it. */
  lemma JudgedExactly(c: Candidate)
    ensures Judge(c) ==
      if !c.acquires then Skips else if PassedOver(c) then PassesOn(LastError(c).value) else Settles(Brought(c))
  {
    hide Speaks;
  }

  /** The candidate leaves the request open. */
  predicate Skipped(c: Candidate) {
    !c.acquires || PassedOver(c)
  }

  /** Only a candidate that was not heard is passed over. */
  lemma PassedOverInSilence(c: Candidate)
    requires !Judge(c).Settles?
    ensures !Heard(c)
  {
    hide Judge, Heard, LastError;
    JudgedExactly(c);
    if !c.acquires { BusyIsSilent(c); }
  }

  lemma BusyIsSilent(c: Candidate)
    requires !c.acquires
    ensures !Heard(c)
  {}

  /** The candidate whose outcome the request ends with: the first that settles it, or else the last that was
      not busy; none if all were. */
  function Deciding(candidates: seq<Candidate>): (k: Option<nat>)
    ensures k.Some? ==> k.value < |candidates| && !Judge(candidates[k.value]).Skips?
  {
    if candidates == [] then None
    else
      var later := Deciding(candidates[1..]);
      if Judge(candidates[0]).Settles? then Some(0)
      else if later.Some? then Some(later.value + 1)
      else if Judge(candidates[0]).PassesOn? then Some(0)
      else None
  }

  lemma {:induction false} DecidingDecides(candidates: seq<Candidate>, lastErr: Option<Error>)
    ensures match Deciding(candidates)
      case None => Decide(candidates, lastErr) == if lastErr.Some? then Failure(lastErr.value) else NoCapacity
      case Some(k) => match Judge(candidates[k])
        case Settles(result) => Decide(candidates, lastErr) == result
        case PassesOn(error) => Decide(candidates, lastErr) == Failure(error)
        case Skips => false
  {
    hide Judge;
    if candidates != [] {
      match Judge(candidates[0])
      case PassesOn(error) => DecidingDecides(candidates[1..], Some(error));
      case _ => DecidingDecides(candidates[1..], lastErr);
    }
  }

  predicate SomeSettles(candidates: seq<Candidate>) {
    exists k | 0 <= k < |candidates| :: Judge(candidates[k]).Settles?
  }

  lemma {:induction false} DecidingIsFirst(candidates: seq<Candidate>)
    ensures var k := Deciding(candidates);
      if SomeSettles(candidates)
      then k.Some? && Judge(candidates[k.value]).Settles?
           && forall i | 0 <= i < k.value :: !Judge(candidates[i]).Settles?
      else k.Some? ==> !Judge(candidates[k.value]).Settles?
  {
    hide Judge;
    if candidates != [] && !Judge(candidates[0]).Settles? {
      var rest := candidates[1..];
      DecidingIsFirst(rest);
      assert forall i | 1 <= i < |candidates| :: candidates[i] == rest[i - 1];
      assert SomeSettles(candidates) <==> SomeSettles(rest);
    }
  }

  /** If some candidate settles the request, the first that does decides: the result is its own, and the client
      heard none of those before. Otherwise there is no success, and the client heard nothing at all. */
  lemma FirstSettlingDecides(candidates: seq<Candidate>, lastErr: Option<Error>)
    ensures var k := Deciding(candidates);
      if SomeSettles(candidates) then
        && k.Some? && Judge(candidates[k.value]) == Settles(Decide(candidates, lastErr))
        && forall i | 0 <= i < k.value :: !Judge(candidates[i]).Settles? && !Heard(candidates[i])
      else
        !Decide(candidates, lastErr).Success? && forall i | 0 <= i < |candidates| :: !Heard(candidates[i])
  {
    DecidingIsFirst(candidates);
    DecidingDecides(candidates, lastErr);
    forall i | 0 <= i < |candidates| && !Judge(candidates[i]).Settles? ensures !Heard(candidates[i]) {
      PassedOverInSilence(candidates[i]);
    }
    hide Judge, Heard, Decide, Deciding;
  }

  /** The first candidate that does not leave the request open, or the number of candidates. */
  function SettledAt(candidates: seq<Candidate>): (k: nat)
    ensures k <= |candidates| && forall i | 0 <= i < k :: Skipped(candidates[i])
    ensures k < |candidates| ==> !Skipped(candidates[k])
  {
    if candidates == [] || !Skipped(candidates[0]) then 0 else SettledAt(candidates[1..]) + 1
  }

  /** The error of the last candidate that was not busy. */
  function LastPassed(candidates: seq<Candidate>): Option<Error> {
    if candidates == [] then None
    else
      var later := LastPassed(candidates[1..]);
      if later.Some? || !candidates[0].acquires then later else LastError(candidates[0])
  }

  lemma PassedWithError(c: Candidate)
    requires PassedOver(c)
    ensures c.acquires && LastError(c).Some?
  {}

  lemma {:induction false} PassedMore(candidates: seq<Candidate>, i: nat)
    requires i < |candidates|
    ensures LastPassed(candidates[..i + 1]) ==
      if candidates[i].acquires && LastError(candidates[i]).Some? then LastError(candidates[i])
      else LastPassed(candidates[..i])
  {
    hide LastError;
    if i > 0 {
      PassedMore(candidates[1..], i - 1);
      assert candidates[..i + 1][1..] == candidates[1..][..i] && candidates[..i][1..] == candidates[1..][..i - 1];
    }
  }

  /** The loop ends with what the first candidate brings that does not leave the request open, and if all do,
      with the error of the last one passed over. */
  lemma {:induction false} DecidedExactly(candidates: seq<Candidate>, lastErr: Option<Error>)
    ensures var k := SettledAt(candidates);
      Decide(candidates, lastErr) ==
        if k < |candidates| then Brought(candidates[k])
        else if LastPassed(candidates).Some? then Failure(LastPassed(candidates).value)
        else if lastErr.Some? then Failure(lastErr.value) else NoCapacity
  {
    hide Judge, PassedOver, LastError, Brought;
    if candidates != [] {
      JudgedExactly(candidates[0]);
      if PassedOver(candidates[0]) { PassedWithError(candidates[0]); }
      match Judge(candidates[0])
      case Settles(_) =>
      case PassesOn(error) => DecidedExactly(candidates[1..], Some(error));
      case Skips => DecidedExactly(candidates[1..], lastErr);
    }
  }

  // ---------- The capacity error ----------

  /** The result is the capacity error, alone or wrapped around an account's name. */
  predicate LacksCapacity(result: Result) {
    result.NoCapacity? || (result.Failure? && result.error.capacity)
  }

  /** The slot for the retry was not to be had. */
  predicate LosesSlot(c: Candidate) {
    AsksAgain(c) && !c.reacquires
  }

  predicate Ordinary(error: Option<Error>) {
    error.Some? ==> !error.value.capacity
  }

  /** Sessions, runs and saves do not themselves fail with the capacity error, which only slots raise. */
  predicate OrdinaryErrors(c: Candidate) {
    && Ordinary(c.loadError) && Ordinary(c.saveError) && Ordinary(c.refreshSaveError) && Ordinary(c.reloadError)
    && Ordinary(c.resaveError)
    && (c.run.answer.Failed? ==> !c.run.answer.error.capacity)
    && (c.rerun.answer.Failed? ==> !c.rerun.answer.error.capacity)
  }

  /** The candidate's own outcome is the capacity error. */
  predicate BringsCapacityError(c: Candidate) {
    match Judge(c)
    case Skips => false
    case Settles(result) => LacksCapacity(result)
    case PassesOn(error) => error.capacity
  }

  lemma CapacityMeansLostSlot(c: Candidate)
    requires OrdinaryErrors(c)
    ensures BringsCapacityError(c) <==> LosesSlot(c)
  {
    hide Speaks;
  }

  /** What a request comes to. `capacity` is what the capacity check finds before the loop. */
  function PoolResult(candidates: seq<Candidate>, capacity: int): Result {
    if |candidates| == 0 then NoEligibleAccounts
    else if capacity <= 0 then NoCapacity
    else Decide(candidates, None)
  }

  /** The capacity error is returned exactly if the check found no capacity, every candidate was busy, or the one
      that decides lost its slot between its run and its retry; in the last case slots had been acquired. */
  lemma CapacityErrorExactly(candidates: seq<Candidate>, capacity: int)
    requires forall c | c in candidates :: OrdinaryErrors(c)
    ensures var k := Deciding(candidates);
      LacksCapacity(PoolResult(candidates, capacity)) <==>
        candidates != [] && (capacity <= 0 || k.None? || LosesSlot(candidates[k.value]))
  {
    DecidingDecides(candidates, None);
    var k := Deciding(candidates);
    if k.Some? { CapacityMeansLostSlot(candidates[k.value]); }
    hide Judge, AsksAgain;
  }

  /** So the capacity error does not mean that nothing was acquired: one account, a session refreshed after an
      authorisation error, and its slot taken meanwhile. */
  lemma CapacityErrorAfterAcquiring()
    ensures var c := LosingCandidate();
      c.acquires && OrdinaryErrors(c) && PoolResult([c], 1) == Failure(CAPACITY_ERROR)
  {
    assert [LosingCandidate()][1..] == [];
  }

  function LosingCandidate(): Candidate {
    var run := Run([], Failed(Error("unauthorized", true, false, false)));
    Candidate("a", true, None, run, None, false, true, true, None, true, None, false, run, None, false)
  }

  // ---------- What is forwarded ----------

  function Deltas(a: Attempt, texts: seq<string>): Log {
    if texts == [] then [] else Deltas(a, texts[..|texts| - 1]) + [Delta(a, texts[|texts| - 1])]
  }

  /** A run forwards its deltas, all of them and in order. */
  function Forwarded(a: Attempt, run: Run): Log {
    [Started(a)] + Deltas(a, run.deltas)
  }

  /** The first attempt on a candidate that has a slot. */
  function FirstTry(i: nat, c: Candidate): Log {
    [Acquired(c.email)] + (if c.loadError.None? then Forwarded(Attempt(i, false), c.run) else []) + [Released(c.email)]
  }

  function SecondTry(i: nat, c: Candidate): Log {
    [Acquired(c.email)] + Forwarded(Attempt(i, true), c.rerun) + [Released(c.email)]
  }

  /** All that trying a candidate does. */
  function Tries(i: nat, c: Candidate): Log {
    if !c.acquires then []
    else FirstTry(i, c) + (if AsksAgain(c) && c.reacquires then SecondTry(i, c) else [])
  }

  function LogOf(candidates: seq<Candidate>): Log {
    if candidates == [] then []
    else
      var n := |candidates| - 1;
      LogOf(candidates[..n]) + Tries(n, candidates[n])
  }

  /** The candidates that are tried: those up to the one that settles the request. */
  function Tried(candidates: seq<Candidate>, capacity: int): seq<Candidate> {
    if capacity <= 0 then []
    else if SettledAt(candidates) < |candidates| then candidates[..SettledAt(candidates) + 1]
    else candidates
  }

  lemma LogMore(candidates: seq<Candidate>, i: nat)
    requires i < |candidates|
    ensures LogOf(candidates[..i + 1]) == LogOf(candidates[..i]) + Tries(i, candidates[i])
  {
    assert candidates[..i + 1][..i] == candidates[..i];
  }

  /** The log when the candidate has settled the request. */
  lemma LogSettled(candidates: seq<Candidate>, i: nat, log: Log, capacity: int)
    requires i < |candidates| && capacity > 0 && !Skipped(candidates[i])
    requires forall j | 0 <= j < i :: Skipped(candidates[j])
    requires log == LogOf(candidates[..i]) + Tries(i, candidates[i])
    ensures log == LogOf(Tried(candidates, capacity)) && PoolResult(candidates, capacity) == Brought(candidates[i])
  {
    hide Skipped, Tries, Decide, Brought;
    DecidedExactly(candidates, None);
    LogMore(candidates, i);
    assert SettledAt(candidates) == i;
  }

  lemma LogAllSkipped(candidates: seq<Candidate>, capacity: int)
    requires capacity > 0 && forall j | 0 <= j < |candidates| :: Skipped(candidates[j])
    ensures LogOf(Tried(candidates, capacity)) == LogOf(candidates)
    ensures candidates != [] ==>
      var last := LastPassed(candidates);
      PoolResult(candidates, capacity) == if last.Some? then Failure(last.value) else NoCapacity
  {
    hide Skipped, Decide, Brought, LastPassed;
    DecidedExactly(candidates, None);
    assert SettledAt(candidates) == |candidates|;
  }

  lemma NoDeltas(a: Attempt, texts: seq<string>)
    ensures Deltas(a, texts[..0]) == []
  {}

  lemma NothingTried(candidates: seq<Candidate>, capacity: int)
    ensures candidates == [] || capacity <= 0 ==> LogOf(Tried(candidates, capacity)) == []
    ensures candidates == [] ==> PoolResult(candidates, capacity) == NoEligibleAccounts
    ensures candidates != [] && capacity <= 0 ==> PoolResult(candidates, capacity) == NoCapacity
    ensures LogOf(candidates[..0]) == [] && LastPassed(candidates[..0]) == None
  {}

  lemma BusyTries(log: Log, i: nat, c: Candidate)
    requires !c.acquires
    ensures log + Tries(i, c) == log
  {}

  lemma FirstTryLog(log: Log, i: nat, c: Candidate)
    ensures log + FirstTry(i, c) ==
      if c.loadError.None? then log + [Acquired(c.email)] + Forwarded(Attempt(i, false), c.run) + [Released(c.email)]
      else log + [Acquired(c.email)] + [Released(c.email)]
  {
    hide Forwarded;
  }

  lemma SecondTryLog(log: Log, i: nat, c: Candidate)
    ensures log + (FirstTry(i, c) + SecondTry(i, c)) ==
      log + FirstTry(i, c) + [Acquired(c.email)] + Forwarded(Attempt(i, true), c.rerun) + [Released(c.email)]
  {
    hide Forwarded, FirstTry;
  }

  lemma NoSecondTry(log: Log, i: nat, c: Candidate)
    ensures log + (FirstTry(i, c) + []) == log + FirstTry(i, c)
  {
    hide FirstTry;
  }

  /** The candidate settles the request with its first attempt. */
  lemma EndsAtOnce(candidates: seq<Candidate>, i: nat, before: Log, capacity: int)
    requires i < |candidates| && capacity > 0 && candidates[i].acquires
    requires before == LogOf(candidates[..i]) && forall j | 0 <= j < i :: Skipped(candidates[j])
    requires var e := FirstError(candidates[i]); e.Some? ==> e.value.contextAbort || candidates[i].deadAfterRun
    ensures before + FirstTry(i, candidates[i]) == LogOf(Tried(candidates, capacity))
    ensures PoolResult(candidates, capacity) == Brought(candidates[i])
  {
    hide FirstTry, Speaks, PoolResult, Tried, Brought;
    assert FirstTry(i, candidates[i]) + [] == FirstTry(i, candidates[i]);
    LogSettled(candidates, i, before + FirstTry(i, candidates[i]), capacity);
  }

  /** The candidate settles the request with the answer of its second run. */
  lemma EndsWithRetry(candidates: seq<Candidate>, i: nat, before: Log, capacity: int)
    requires i < |candidates| && capacity > 0
    requires before == LogOf(candidates[..i]) && forall j | 0 <= j < i :: Skipped(candidates[j])
    requires AsksAgain(candidates[i]) && candidates[i].reacquires && candidates[i].rerun.answer.Answered?
    ensures before + (FirstTry(i, candidates[i]) + SecondTry(i, candidates[i])) == LogOf(Tried(candidates, capacity))
    ensures PoolResult(candidates, capacity) == Brought(candidates[i])
  {
    hide FirstTry, SecondTry, Speaks, PoolResult, Tried, Brought;
    LogSettled(candidates, i, before + (FirstTry(i, candidates[i]) + SecondTry(i, candidates[i])), capacity);
  }

  /** What the loop knows when the candidate has failed for good. */
  lemma TriedThrough(i: nat, c: Candidate, error: Error, emitted: bool)
    requires c.acquires && FirstError(c).Some? && !FirstError(c).value.contextAbort && !c.deadAfterRun
    requires LastError(c) == Some(error) && (emitted <==> Heard(c))
    ensures Skipped(c) <==> !error.contextAbort && !c.deadAfterRetry && !emitted
    ensures Tries(i, c) == FirstTry(i, c) + (if AsksAgain(c) && c.reacquires then SecondTry(i, c) else [])
  {
    hide FirstTry, SecondTry, Speaks;
  }

  lemma DeltasMore(a: Attempt, texts: seq<string>, i: nat)
    requires i < |texts|
    ensures Deltas(a, texts[..i + 1]) == Deltas(a, texts[..i]) + [Delta(a, texts[i])]
  {
    assert texts[..i + 1][..i] == texts[..i];
  }

  // ---------- The loop ----------

  /** Runs the prompt once; every forwarded delta passes the wrapper that notes whether there was output. */
  method Forward(a: Attempt, run: Run, log: Log, emittedAny: bool) returns (answer: Answer, out: Log, emitted: bool)
    ensures answer == run.answer && out == log + Forwarded(a, run)
    ensures emitted <==> emittedAny || Speaks(run)
  {
    hide Deltas;
    NoDeltas(a, run.deltas);
    out := log + [Started(a)];
    emitted := emittedAny;
    for i := 0 to |run.deltas|
      invariant out == log + ([Started(a)] + Deltas(a, run.deltas[..i]))
      invariant emitted <==> emittedAny || exists k | 0 <= k < i :: run.deltas[k] != ""
    {
      DeltasMore(a, run.deltas, i);
      out := out + [Delta(a, run.deltas[i])];
      if run.deltas[i] != "" { emitted := true; }
    }
    assert run.deltas[..|run.deltas|] == run.deltas;
    return run.answer, out, emitted;
  }

  // ---------- What every log keeps ----------

  lemma {:induction false} DeltaAt(a: Attempt, texts: seq<string>)
    ensures |Deltas(a, texts)| == |texts| && forall k | 0 <= k < |texts| :: Deltas(a, texts)[k] == Delta(a, texts[k])
  {
    if texts != [] { DeltaAt(a, texts[..|texts| - 1]); }
  }

  lemma {:induction false} ThroughDeltas(log: Log, a: Attempt, texts: seq<string>)
    ensures Held(log).Some? && Held(log).value != [] ==> Held(log + Deltas(a, texts)) == Held(log)
    ensures LastStarted(log + Deltas(a, texts)) == LastStarted(log)
  {
    if texts == [] {
      assert log + Deltas(a, texts) == log;
    } else {
      var n := |texts| - 1;
      ThroughDeltas(log, a, texts[..n]);
      var longer := log + Deltas(a, texts);
      assert longer[..|longer| - 1] == log + Deltas(a, texts[..n]);
    }
  }

  /** A run adds its start and then only deltas of its own. */
  lemma RunAdds(log: Log, a: Attempt, run: Run)
    ensures var out, n := log + Forwarded(a, run), |log|;
      && |out| == n + 1 + |run.deltas| && out[n] == Started(a)
      && (forall k | 0 <= k < n :: out[k] == log[k])
      && (forall k | n < k < |out| :: out[k] == Delta(a, run.deltas[k - n - 1]))
  {
    hide Deltas;
    DeltaAt(a, run.deltas);
  }

  lemma RunSpeaks(log: Log, a: Attempt, run: Run)
    ensures var out := log + Forwarded(a, run);
      && (Silent(out) <==> Silent(log) && !Speaks(run))
      && (Silent(log) ==> OnlyFrom(out, a))
      && (NothingAcquired(out) <==> NothingAcquired(log))
  {
    hide Forwarded;
    RunAdds(log, a, run);
    var out := log + Forwarded(a, run);
    if k :| 0 <= k < |run.deltas| && run.deltas[k] != "" {
      assert out[|log| + 1 + k] == Delta(a, run.deltas[k]);
    }
    assert Silent(out) ==> forall k | 0 <= k < |log| :: out[k].Delta? ==> log[k].text == "";
    assert NothingAcquired(out) ==> forall k | 0 <= k < |log| :: !out[k].Acquired?;
  }

  /** A run while a slot is held keeps the slot, comes in order, and is heard as far as it speaks. */
  lemma RunKeeps(log: Log, a: Attempt, run: Run)
    requires StartsInOrder(log) && StartsBefore(log, a)
    ensures var out := log + Forwarded(a, run);
      && LastStarted(out) == Some(a) && StartsInOrder(out)
      && (forall b: Attempt | Precedes(a, b) && StartsBefore(log, b) :: StartsBefore(out, b))
      && (Silent(out) <==> Silent(log) && !Speaks(run))
      && (Silent(log) ==> OnlyFrom(out, a))
      && (NothingAcquired(out) <==> NothingAcquired(log))
      && (Held(log).Some? && Held(log).value != [] ==> Held(out) == Held(log))
  {
    hide Silent, NothingAcquired, OnlyFrom, Speaks;
    RunSpeaks(log, a, run);
    RunAdds(log, a, run);
    var begun := log + [Started(a)];
    assert log + Forwarded(a, run) == begun + Deltas(a, run.deltas) && begun[..|log|] == log;
    hide Deltas, Forwarded;
    ThroughDeltas(begun, a, run.deltas);
  }

  lemma SilentExtends(log: Log, event: Event)
    ensures Silent(log + [event]) <==> Silent(log) && !(event.Delta? && event.text != "")
  {
    assert (log + [event])[|log|] == event;
    assert forall i | 0 <= i < |log| :: (log + [event])[i] == log[i];
  }

  /** Acquiring or releasing adds no output and starts nothing. */
  lemma SlotEvent(log: Log, event: Event)
    requires event.Acquired? || event.Released?
    ensures Silent(log + [event]) <==> Silent(log)
    ensures StartsInOrder(log) ==> StartsInOrder(log + [event])
    ensures LastStarted(log + [event]) == LastStarted(log)
    ensures forall a: Attempt | OnlyFrom(log, a) :: OnlyFrom(log + [event], a)
    ensures forall a: Attempt | StartsBefore(log, a) :: StartsBefore(log + [event], a)
    ensures NothingAcquired(log + [event]) <==> NothingAcquired(log) && !event.Acquired?
    ensures event.Acquired? && Held(log) == Some([]) ==> Held(log + [event]) == Some([event.email])
    ensures event.Released? && Held(log) == Some([event.email]) ==> Held(log + [event]) == Some([])
  {
    assert (log + [event])[..|log|] == log;
    SilentExtends(log, event);
    assert (log + [event])[|log|] == event;
    assert forall i | 0 <= i < |log| :: (log + [event])[i] == log[i];
  }

  lemma EmptyLog()
    ensures Held([]) == Some([]) && StartsInOrder([]) && Silent([]) && NothingAcquired([])
    ensures forall a: Attempt :: StartsBefore([], a) && OnlyFrom([], a)
  {
  }

  lemma SilentIsFromAnywhere(log: Log, a: Attempt)
    requires Silent(log)
    ensures OnlyFrom(log, a)
  {
  }

  lemma FailureSource(candidates: seq<Candidate>, log: Log, result: Result, a: Attempt)
    requires OnlyFrom(log, a) && !result.Success?
    ensures OneSource(candidates, log, result)
  {
  }

  lemma AnswerSource(candidates: seq<Candidate>, log: Log, result: Result, a: Attempt)
    requires OnlyFrom(log, a) && LastStarted(log) == Some(a) && a.candidate < |candidates|
    requires result.Success? ==>
               result.email == candidates[a.candidate].email
               && RunOf(candidates, a).value.answer == Answered(result.text)
    ensures OneSource(candidates, log, result)
  {
  }

  /** What came before a first run or a retry also came before everything later. */
  lemma StartsLater(log: Log, a: Attempt, b: Attempt)
    requires StartsBefore(log, a) && Precedes(a, b)
    ensures StartsBefore(log, b)
  {
  }

  /** No slot is held, and the log was silent, when candidate `i` comes up. */
  predicate Ready(log: Log, i: nat) {
    Held(log) == Some([]) && StartsInOrder(log) && StartsBefore(log, Attempt(i, false)) && Silent(log)
  }

  lemma FirstTryKeeps(log: Log, i: nat, c: Candidate)
    requires Ready(log, i)
    ensures var out := log + FirstTry(i, c);
      && Held(out) == Some([]) && StartsInOrder(out) && StartsBefore(out, Attempt(i, true)) && !NothingAcquired(out)
      && StartsBefore(out, Attempt(i + 1, false)) && OnlyFrom(out, Attempt(i, false))
      && (Silent(out) <==> !(c.loadError.None? && Speaks(c.run)))
      && (c.loadError.None? ==> LastStarted(out) == Some(Attempt(i, false)))
  {
    hide Held, Silent, StartsInOrder, StartsBefore, OnlyFrom, NothingAcquired, LastStarted, Speaks, Forwarded;
    var first := Attempt(i, false);
    var held := log + [Acquired(c.email)];
    SlotEvent(log, Acquired(c.email));
    StartsLater(log, first, Attempt(i, true));
    StartsLater(log, first, Attempt(i + 1, false));
    RunKeeps(held, first, c.run);
    SilentIsFromAnywhere(held, first);
    var done := if c.loadError.None? then held + Forwarded(first, c.run) else held;
    SlotEvent(done, Released(c.email));
    assert log + FirstTry(i, c) == done + [Released(c.email)];
  }

  lemma SecondTryKeeps(log: Log, i: nat, c: Candidate)
    requires Ready(log, i) && !(c.loadError.None? && Speaks(c.run))
    ensures var out := log + (FirstTry(i, c) + SecondTry(i, c));
      && Held(out) == Some([]) && StartsInOrder(out) && !NothingAcquired(out)
      && StartsBefore(out, Attempt(i + 1, false)) && OnlyFrom(out, Attempt(i, true))
      && (Silent(out) <==> !Speaks(c.rerun)) && LastStarted(out) == Some(Attempt(i, true))
  {
    hide Held, Silent, StartsInOrder, StartsBefore, OnlyFrom, NothingAcquired, LastStarted, Speaks, Forwarded, FirstTry;
    var second := Attempt(i, true);
    FirstTryKeeps(log, i, c);
    var before := log + FirstTry(i, c);
    var held := before + [Acquired(c.email)];
    SlotEvent(before, Acquired(c.email));
    RunKeeps(held, second, c.rerun);
    SlotEvent(held + Forwarded(second, c.rerun), Released(c.email));
    assert log + (FirstTry(i, c) + SecondTry(i, c)) == held + Forwarded(second, c.rerun) + [Released(c.email)];
  }

  /** The attempt on a candidate that the client can hear. */
  function Speaker(i: nat, c: Candidate): Attempt {
    Attempt(i, AsksAgain(c) && c.reacquires)
  }

  lemma TriesKeep(log: Log, i: nat, c: Candidate)
    requires Ready(log, i)
    ensures var out := log + Tries(i, c);
      && Held(out) == Some([]) && StartsInOrder(out) && StartsBefore(out, Attempt(i + 1, false))
      && (Silent(out) <==> !Heard(c)) && OnlyFrom(out, Speaker(i, c))
      && (NothingAcquired(out) <==> NothingAcquired(log) && !c.acquires)
      && (Delivered(c).Some? ==> LastStarted(out) == Some(Speaker(i, c)))
  {
    hide Held, Silent, StartsInOrder, StartsBefore, OnlyFrom, NothingAcquired, LastStarted, Speaks, FirstTry, SecondTry;
    if !c.acquires {
      assert log + Tries(i, c) == log;
      StartsLater(log, Attempt(i, false), Attempt(i + 1, false));
      SilentIsFromAnywhere(log, Speaker(i, c));
    } else if AsksAgain(c) && c.reacquires {
      SecondTryKeeps(log, i, c);
    } else {
      assert FirstTry(i, c) + [] == FirstTry(i, c);
      FirstTryKeeps(log, i, c);
    }
  }

  lemma ReadyNext(log: Log, i: nat, c: Candidate)
    requires Ready(log, i) && Skipped(c)
    ensures Ready(log + Tries(i, c), i + 1)
    ensures NothingAcquired(log + Tries(i, c)) <==> NothingAcquired(log) && !c.acquires
  {
    hide Held, Silent, StartsInOrder, StartsBefore, OnlyFrom, NothingAcquired, LastStarted, Tries, PassedOver, Heard;
    hide Delivered, AsksAgain;
    TriesKeep(log, i, c);
    SkippedUnheard(c);
  }

  lemma NothingReady()
    ensures Ready(LogOf([]), 0) && NothingAcquired(LogOf([]))
  {
    EmptyLog();
  }

  lemma {:induction false} SkippedKeep(candidates: seq<Candidate>)
    requires forall j | 0 <= j < |candidates| :: Skipped(candidates[j])
    ensures Ready(LogOf(candidates), |candidates|)
    ensures NothingAcquired(LogOf(candidates)) <==> forall j | 0 <= j < |candidates| :: !candidates[j].acquires
  {
    hide Ready, NothingAcquired, Tries, Skipped;
    if candidates == [] {
      NothingReady();
    } else {
      var n := |candidates| - 1;
      SkippedKeep(candidates[..n]);
      ReadyNext(LogOf(candidates[..n]), n, candidates[n]);
      assert forall j | 0 <= j < n :: candidates[..n][j] == candidates[j];
    }
  }

  lemma SkippedUnheard(c: Candidate)
    requires Skipped(c)
    ensures !Heard(c)
  {
    hide Speaks;
  }

  /** Every log of a request: all slots are released, attempts come in order, at most two for a candidate, all that
      is heard comes from one attempt, which is the one whose answer is returned, and nothing is acquired exactly if
      the bare capacity error or the no-account error is returned. */
  lemma PoolKeeps(candidates: seq<Candidate>, capacity: int)
    ensures var log, result := LogOf(Tried(candidates, capacity)), PoolResult(candidates, capacity);
      && Held(log) == Some([]) && StartsInOrder(log) && OneSource(candidates, log, result)
      && (NothingAcquired(log) ==> LacksCapacity(result) || result.NoEligibleAccounts?)
      && (NothingAcquired(log) <==> result.NoCapacity? || result.NoEligibleAccounts?)
  {
    hide Held, Silent, StartsInOrder, StartsBefore, OnlyFrom, NothingAcquired, LastStarted, Tries, Judge, Decide;
    hide PassedOver, OneSource, LastError;
    var k := SettledAt(candidates);
    DecidedExactly(candidates, None);
    NothingTried(candidates, capacity);
    var log, result := LogOf(Tried(candidates, capacity)), PoolResult(candidates, capacity);
    if candidates == [] || capacity <= 0 {
      EmptyLog();
      FailureSource(candidates, log, result, Attempt(0, false));
    } else if k == |candidates| {
      SkippedKeep(candidates);
      SilentIsFromAnywhere(log, Attempt(0, false));
      FailureSource(candidates, log, result, Attempt(0, false));
      PassedExactly(candidates);
    } else {
      LogMore(candidates, k);
      SkippedKeep(candidates[..k]);
      TriesKeep(LogOf(candidates[..k]), k, candidates[k]);
      BroughtSource(candidates, k, log);
    }
  }

  lemma {:induction false} PassedExactly(candidates: seq<Candidate>)
    requires forall j | 0 <= j < |candidates| :: Skipped(candidates[j])
    ensures LastPassed(candidates).None? <==> forall j | 0 <= j < |candidates| :: !candidates[j].acquires
  {
    hide PassedOver, LastError;
    if candidates != [] {
      var rest := candidates[1..];
      assert forall j | 1 <= j < |candidates| :: candidates[j] == rest[j - 1];
      PassedExactly(rest);
      assert (forall j | 0 <= j < |candidates| :: !candidates[j].acquires) <==>
        !candidates[0].acquires && forall j | 0 <= j < |rest| :: !rest[j].acquires;
      if candidates[0].acquires { PassedWithError(candidates[0]); }
    }
  }

  lemma BroughtSource(candidates: seq<Candidate>, k: nat, log: Log)
    requires k < |candidates| && !Skipped(candidates[k]) && OnlyFrom(log, Speaker(k, candidates[k]))
    requires Delivered(candidates[k]).Some? ==> LastStarted(log) == Some(Speaker(k, candidates[k]))
    ensures OneSource(candidates, log, Brought(candidates[k]))
    ensures Brought(candidates[k]).Success? || Brought(candidates[k]).Failure?
  {
    hide OneSource, OnlyFrom, LastStarted, Speaks;
    var c := candidates[k];
    if Delivered(c).Some? {
      AnswerSource(candidates, log, Brought(c), Speaker(k, c));
    } else {
      FailureSource(candidates, log, Brought(c), Speaker(k, c));
    }
  }

  /** `runPromptWithAccountPool` (and its sink variant) behind candidate resolution. `capacity` is what
      the capacity check found. */
  method RunPromptWithAccountPool(candidates: seq<Candidate>, capacity: int) returns (result: Result, log: Log)
    ensures result == PoolResult(candidates, capacity) && log == LogOf(Tried(candidates, capacity))
    ensures Held(log) == Some([]) && StartsInOrder(log) && OneSource(candidates, log, result)
    ensures NothingAcquired(log) ==> LacksCapacity(result) || result.NoEligibleAccounts?
    ensures NothingAcquired(log) <==> result.NoCapacity? || result.NoEligibleAccounts?
  {
    hide Speaks, LogOf, Tried, Forwarded, PassedOver, Held, StartsInOrder, OneSource, NothingAcquired, LacksCapacity;
    hide FirstTry, SecondTry, Tries, PoolResult, LastPassed;
    PoolKeeps(candidates, capacity);
    log := [];
    NothingTried(candidates, capacity);
    if |candidates| == 0 { return NoEligibleAccounts, log; }
    if capacity <= 0 { return NoCapacity, log; }
    var emittedAny := false;
    var lastErr: Option<Error> := None;
    for i := 0 to |candidates|
      invariant !emittedAny
      invariant lastErr == LastPassed(candidates[..i])
      invariant log == LogOf(candidates[..i]) && forall j | 0 <= j < i :: Skipped(candidates[j])
    {
      var c := candidates[i];
      var first, second := Attempt(i, false), Attempt(i, true);
      ghost var before := log;
      LogMore(candidates, i);
      PassedMore(candidates, i);
      if !c.acquires {
        BusyTries(before, i, c);
        continue;
      }
      log := log + [Acquired(c.email)];
      var err := c.loadError;
      if err.None? {
        var answer;
        answer, log, emittedAny := Forward(first, c.run, log, emittedAny);
        log := log + [Released(c.email)];
        FirstTryLog(before, i, c);
        if answer.Answered? {
          result := if c.saveError.Some? then Failure(c.saveError.value) else Success(answer.text, c.email);
          EndsAtOnce(candidates, i, before, capacity);
          return;
        }
        err := Some(answer.error);
      } else {
        log := log + [Released(c.email)];
        FirstTryLog(before, i, c);
      }
      if err.value.contextAbort || c.deadAfterRun {
        EndsAtOnce(candidates, i, before, capacity);
        return Failure(err.value), log;
      }
      var retryable := err.value.retryable;
      if retryable && c.refreshEnabled && !emittedAny && c.refreshes {
        if c.refreshSaveError.Some? {
          err, retryable := c.refreshSaveError, c.refreshSaveError.value.retryable;
        } else if c.found {
          if c.reloadError.Some? {
            err, retryable := c.reloadError, c.reloadError.value.retryable;
          } else if !c.reacquires {
            err, retryable := Some(CAPACITY_ERROR), false;
          } else {
            log := log + [Acquired(c.email)];
            var answer;
            answer, log, emittedAny := Forward(second, c.rerun, log, emittedAny);
            log := log + [Released(c.email)];
            SecondTryLog(before, i, c);
            if answer.Answered? {
              result := if c.resaveError.Some? then Failure(c.resaveError.value) else Success(answer.text, c.email);
              EndsWithRetry(candidates, i, before, capacity);
              return;
            }
            err, retryable := Some(answer.error), answer.error.retryable;
          }
        }
      }
      TriedThrough(i, c, err.value, emittedAny);
      assert log == before + Tries(i, c) by { NoSecondTry(before, i, c); }
      if err.value.contextAbort || c.deadAfterRetry {
        LogSettled(candidates, i, log, capacity);
        return Failure(err.value), log;
      }
      lastErr := err;
      if emittedAny {
        LogSettled(candidates, i, log, capacity);
        return Failure(err.value), log;
      }
    }
    LogAllSkipped(candidates, capacity);
    assert candidates[..|candidates|] == candidates;
    if lastErr.Some? {
      return Failure(lastErr.value), log;
    }
    return NoCapacity, log;
  }

  // ---------- What the client hears ----------

  function Joined(texts: seq<string>): string {
    if texts == [] then "" else Joined(texts[..|texts| - 1]) + texts[|texts| - 1]
  }

  /** The text of all deltas, in order. */
  function TextHeard(log: Log): string {
    if log == [] then ""
    else TextHeard(log[..|log| - 1]) + (if log[|log| - 1].Delta? then log[|log| - 1].text else "")
  }

  lemma {:induction false} HeardBoth(a: Log, b: Log)
    ensures TextHeard(a + b) == TextHeard(a) + TextHeard(b)
  {
    if b == [] {
      assert a + b == a;
    } else {
      HeardBoth(a, b[..|b| - 1]);
      assert (a + b)[..|a + b| - 1] == a + b[..|b| - 1];
    }
  }

  lemma {:induction false} HeardDeltas(a: Attempt, texts: seq<string>)
    ensures TextHeard(Deltas(a, texts)) == Joined(texts)
  {
    if texts != [] {
      HeardDeltas(a, texts[..|texts| - 1]);
      var deltas := Deltas(a, texts);
      assert deltas[..|deltas| - 1] == Deltas(a, texts[..|texts| - 1]);
    }
  }

  lemma HeardRun(a: Attempt, run: Run)
    ensures TextHeard(Forwarded(a, run)) == Joined(run.deltas)
  {
    hide Deltas, Joined;
    HeardSlot(Started(a));
    HeardBoth([Started(a)], Deltas(a, run.deltas));
    HeardDeltas(a, run.deltas);
  }

  lemma HeardSlot(event: Event)
    requires !event.Delta?
    ensures TextHeard([event]) == ""
  {
    assert [event][..0] == [];
  }

  lemma {:induction false} HeardSilent(log: Log)
    requires Silent(log)
    ensures TextHeard(log) == ""
  {
    if log != [] { HeardSilent(log[..|log| - 1]); }
  }

  lemma HeardFirst(i: nat, c: Candidate)
    ensures TextHeard(FirstTry(i, c)) == if c.loadError.None? then Joined(c.run.deltas) else ""
  {
    hide Forwarded, Joined;
    var run := if c.loadError.None? then Forwarded(Attempt(i, false), c.run) else [];
    HeardSlot(Acquired(c.email));
    HeardSlot(Released(c.email));
    HeardRun(Attempt(i, false), c.run);
    HeardBoth([Acquired(c.email)], run);
    HeardBoth([Acquired(c.email)] + run, [Released(c.email)]);
  }

  lemma HeardSecond(i: nat, c: Candidate)
    ensures TextHeard(SecondTry(i, c)) == Joined(c.rerun.deltas)
  {
    hide Forwarded, Joined;
    var run := Forwarded(Attempt(i, true), c.rerun);
    HeardSlot(Acquired(c.email));
    HeardSlot(Released(c.email));
    HeardRun(Attempt(i, true), c.rerun);
    HeardBoth([Acquired(c.email)], run);
    HeardBoth([Acquired(c.email)] + run, [Released(c.email)]);
  }

  lemma {:induction false} SilentRun(texts: seq<string>)
    requires forall i | 0 <= i < |texts| :: texts[i] == ""
    ensures Joined(texts) == ""
  {
    if texts != [] { SilentRun(texts[..|texts| - 1]); }
  }

  /** The text of the candidate's second run if it has one, which is only after a silent first one, or else of its
      first. */
  function Spoken(c: Candidate): string {
    if !c.acquires then ""
    else if AsksAgain(c) && c.reacquires then Joined(c.rerun.deltas)
    else if c.loadError.None? then Joined(c.run.deltas) else ""
  }

  lemma HeardTries(i: nat, c: Candidate)
    ensures TextHeard(Tries(i, c)) == Spoken(c)
  {
    hide FirstTry, SecondTry, Joined;
    HeardFirst(i, c);
    HeardSecond(i, c);
    HeardBoth(FirstTry(i, c), SecondTry(i, c));
    assert FirstTry(i, c) + [] == FirstTry(i, c);
    if AsksAgain(c) && c.loadError.None? { SilentRun(c.run.deltas); }
  }

  /** The client hears the text of the candidate that settles the request, all of it and nothing else; if none does,
      it hears nothing. */
  lemma ClientHears(candidates: seq<Candidate>, capacity: int)
    requires capacity > 0
    ensures var k := SettledAt(candidates);
      TextHeard(LogOf(Tried(candidates, capacity))) == if k < |candidates| then Spoken(candidates[k]) else ""
  {
    hide Silent, Spoken, Tries, LogOf, Skipped;
    var k := SettledAt(candidates);
    SkippedKeep(candidates[..k]);
    HeardSilent(LogOf(candidates[..k])) by { ReadyIsSilent(LogOf(candidates[..k]), k); }
    if k < |candidates| {
      LogMore(candidates, k);
      HeardTries(k, candidates[k]);
      HeardBoth(LogOf(candidates[..k]), Tries(k, candidates[k]));
    } else {
      assert candidates[..k] == candidates;
    }
  }

  lemma ReadyIsSilent(log: Log, i: nat)
    requires Ready(log, i)
    ensures Silent(log)
  {}

  // ---------- The fallback without a pool ----------

  /** What the outside world answers when there is only the active session. */
  datatype Session = Session(
    loadError: Option<Error>,
    probeError: Option<Error>,
    run: Run,
    retryOnAuthError: bool,
    refreshes: bool,                   // session refreshed
    usable: bool,                      // and it carries user, space and cookies
    reprobeError: Option<Error>,
    rerun: Run)

  /** The first run failed unheard with an error that calls for a refreshed session, and there is one. */
  predicate RunsAgain(session: Session) {
    && session.run.answer.Failed? && session.run.answer.error.retryable && session.retryOnAuthError
    && !Speaks(session.run) && session.refreshes && session.usable
  }

  /** `runPromptActiveFallback` (and its sink variant). No slot is involved; the log only has attempts. */
  method RunPromptActiveFallback(session: Session) returns (answer: Answer, log: Log)
    ensures answer ==
      if session.loadError.Some? then Failed(session.loadError.value)
      else if session.probeError.Some? then Failed(session.probeError.value)
      else if !RunsAgain(session) then session.run.answer
      else if session.reprobeError.Some? then Failed(session.reprobeError.value)
      else session.rerun.answer
    ensures log ==
      if session.loadError.Some? || session.probeError.Some? then []
      else Forwarded(Attempt(0, false), session.run)
           + if RunsAgain(session) && session.reprobeError.None? then Forwarded(Attempt(0, true), session.rerun) else []
    ensures StartsInOrder(log) && NothingAcquired(log)
    ensures exists a: Attempt :: OnlyFrom(log, a)
              && (answer.Answered? ==>
                    && LastStarted(log) == Some(a)
                    && answer == (if a.retry then session.rerun else session.run).answer)
  {
    hide Silent, StartsInOrder, StartsBefore, OnlyFrom, NothingAcquired, LastStarted, Speaks, Forwarded;
    log := [];
    EmptyLog();
    var first, second := Attempt(0, false), Attempt(0, true);
    assert OnlyFrom(log, first);
    if session.loadError.Some? { return Failed(session.loadError.value), log; }
    if session.probeError.Some? { return Failed(session.probeError.value), log; }
    RunKeeps(log, first, session.run);
    var emittedAny;
    answer, log, emittedAny := Forward(first, session.run, log, false);
    assert log == Forwarded(first, session.run) + [];
    assert OnlyFrom(log, first);
    if answer.Answered? { return; }
    if session.retryOnAuthError && answer.error.retryable && !emittedAny {
      if session.refreshes && session.usable {
        if session.reprobeError.Some? { return Failed(session.reprobeError.value), log; }
        RunKeeps(log, second, session.rerun);
        answer, log, emittedAny := Forward(second, session.rerun, log, emittedAny);
        assert OnlyFrom(log, second);
        return;
      }
    }
  }
}
