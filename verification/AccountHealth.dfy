/** The record dispatch keeps of an account, written back through an overlay that takes every zero field from
    the configured account. There are two copies of it: the account in the configuration, and the one in the
    list of candidates, which is rebuilt from the configuration whenever that is saved. */
module AccountHealth {
  import opened Wrappers
  import opened Strings
  import opened Candidates

  // ---------- Marks ----------

  /** `markAccountDispatchStart`. */
  function MarkStart(a: Account, now: Time): Account {
    var current := ResetWindow(a, now);
    if a.hourlyQuota > 0
    then current.(windowRequestCount := current.windowRequestCount + 1, lastUsedAt := Some(now))
    else current.(lastUsedAt := Some(now))
  }

  /** `markAccountDispatchSuccess`. */
  function MarkSuccess(a: Account, now: Time): Account {
    a.(lastError := "", lastUsedAt := Some(now), consecutiveFailures := 0, totalSuccesses := a.totalSuccesses + 1)
  }

  /** `markAccountDispatchFailure`. */
  function MarkFailure(a: Account, now: Time, error: string): Account {
    a.(totalFailures := a.totalFailures + 1, consecutiveFailures := a.consecutiveFailures + 1,
       lastUsedAt := Some(now), lastError := TrimSpace(error))
  }

  function OrStored(value: int, stored: int): int {
    if value == 0 then stored else value
  }

  /** `UpsertAccount` on an account that exists. */
  function Overlay(stored: Account, a: Account): Account {
    a.(priority := OrStored(a.priority, stored.priority),
       hourlyQuota := OrStored(a.hourlyQuota, stored.hourlyQuota),
       windowStartedAt := if a.windowStartedAt.None? then stored.windowStartedAt else a.windowStartedAt,
       windowRequestCount := OrStored(a.windowRequestCount, stored.windowRequestCount),
       consecutiveFailures := OrStored(a.consecutiveFailures, stored.consecutiveFailures),
       lastUsedAt := if a.lastUsedAt.None? then stored.lastUsedAt else a.lastUsedAt,
       totalSuccesses := OrStored(a.totalSuccesses, stored.totalSuccesses),
       totalFailures := OrStored(a.totalFailures, stored.totalFailures),
       lastError := if a.lastError == "" then stored.lastError else a.lastError)
  }

  /** A number that is zero and a text or time that is missing come from the stored account, all others from the one
      written back. */
  lemma ZerosComeFromStored(stored: Account, a: Account)
    ensures var kept := Overlay(stored, a);
      && kept.priority == (if a.priority != 0 then a else stored).priority
      && kept.hourlyQuota == (if a.hourlyQuota != 0 then a else stored).hourlyQuota
      && kept.windowRequestCount == (if a.windowRequestCount != 0 then a else stored).windowRequestCount
      && kept.consecutiveFailures == (if a.consecutiveFailures != 0 then a else stored).consecutiveFailures
      && kept.totalSuccesses == (if a.totalSuccesses != 0 then a else stored).totalSuccesses
      && kept.totalFailures == (if a.totalFailures != 0 then a else stored).totalFailures
      && kept.windowStartedAt == (if a.windowStartedAt.Some? then a else stored).windowStartedAt
      && kept.lastUsedAt == (if a.lastUsedAt.Some? then a else stored).lastUsedAt
      && kept.lastError == (if |a.lastError| > 0 then a else stored).lastError
      && kept.key == a.key && kept.disabled == a.disabled && kept.hasArtifacts == a.hasArtifacts
  {}

  // ---------- A dispatch ----------

  /** Whether `tryRefreshAccount` was called, and with what outcome. Either outcome is written to the configured
      account, through the list of accounts that the copies of the configuration share; one that worked is saved. */
  datatype Refresh = NotTried | TryFailed(error: string) | Done

  /** What `startAutoRelogin` did for a retryable error: nothing, because a login was started less than five
      minutes ago, or it started one and noted its outcome. Otherwise it was not called. */
  datatype Relogin = NotCalled | Declined | Begun(note: string)

  /** One turn of the pool loop on an account: the first run succeeds, the run after a refresh succeeds, the
      request's context ends, or the turn fails. */
  datatype Dispatch =
    | Direct(start: Time, finish: Time)
    | Retried(start: Time, finish: Time)
    | Aborted(start: Time, refresh: Refresh)
    | Failed(start: Time, finish: Time, refresh: Refresh, relogin: Relogin, error: string)

  /** The configured account after the refresh, if any; a refresh that worked resets the failures first. */
  function Kept(stored: Account, started: Account, refresh: Refresh): Account {
    match refresh
    case NotTried => stored
    case TryFailed(error) => Overlay(stored, started.(lastError := error))
    case Done => Overlay(stored, started.(lastError := "", consecutiveFailures := 0))
  }

  /** The configured account after a turn that began with the copy `taken`. After a relogin the account is read
      again from the configuration before the failure is marked. */
  function After(stored: Account, taken: Account, d: Dispatch): Account {
    var started := MarkStart(taken, d.start);
    match d
    case Direct(_, finish) => Overlay(stored, MarkSuccess(started, finish))
    case Retried(_, finish) =>
      var kept := Kept(stored, started, Done);
      Overlay(kept, MarkSuccess(kept, finish))
    case Aborted(_, refresh) => Kept(stored, started, refresh)
    case Failed(_, finish, refresh, relogin, error) =>
      var kept := Kept(stored, started, refresh);
      match relogin
      case NotCalled => Overlay(kept, MarkFailure(started, finish, error))
      case Declined => Overlay(kept, MarkFailure(kept, finish, error))
      case Begun(note) =>
        var pending := Overlay(kept, started.(lastError := note));
        Overlay(pending, MarkFailure(pending, finish, error))
  }

  /** The turn saves the configuration, which rebuilds the list of candidates. */
  predicate Saves(d: Dispatch) {
    !d.Aborted? || d.refresh.Done?
  }

  // ---------- The two copies ----------

  datatype Copies = Copies(configured: Account, listed: Account)

  /** Something else saves the configuration, or a request takes its turn on the account. A request that names
      the account, or finds the list empty, begins with the configured copy, any other with the listed one, as
      they were when the request came in; `savedBefore` if accounts the request tried before this one have saved
      the configuration since. */
  datatype Event = Rebuilt | Turn(pinned: bool, savedBefore: bool, dispatch: Dispatch)

  function Happen(c: Copies, e: Event): Copies {
    match e
    case Rebuilt => Copies(c.configured, c.configured)
    case Turn(pinned, savedBefore, d) =>
      var after := After(c.configured, if pinned then c.configured else c.listed, d);
      Copies(after, if Saves(d) then after else if savedBefore then c.configured else c.listed)
  }

  /** From a list just built. */
  function Run(stored: Account, events: seq<Event>): Copies {
    if events == [] then Copies(stored, stored)
    else Happen(Run(stored, events[..|events| - 1]), events[|events| - 1])
  }

  predicate Succeeds(d: Dispatch) {
    d.Direct? || d.Retried?
  }

  function SuccessesIn(events: seq<Event>): nat {
    if events == [] then 0
    else
      var last := events[|events| - 1];
      SuccessesIn(events[..|events| - 1]) + (if last.Turn? && Succeeds(last.dispatch) then 1 else 0)
  }

  function FailuresIn(events: seq<Event>): nat {
    if events == [] then 0
    else
      var last := events[|events| - 1];
      FailuresIn(events[..|events| - 1]) + (if last.Turn? && last.dispatch.Failed? then 1 else 0)
  }

  /** The start is forgotten when the account was not written back before it was given up or read again. */
  predicate ForgetsStart(d: Dispatch) {
    (d.Aborted? || (d.Failed? && d.relogin.Declined?)) && d.refresh.NotTried?
  }

  /** The event writes an account that has counted a start. */
  predicate WritesStart(e: Event) {
    e.Turn? && !ForgetsStart(e.dispatch)
  }

  function StartsWritten(events: seq<Event>): nat {
    if events == [] then 0
    else StartsWritten(events[..|events| - 1]) + (if WritesStart(events[|events| - 1]) then 1 else 0)
  }

  // ---------- What the overlay makes of it ----------

  predicate Counts(a: Account) {
    a.consecutiveFailures >= 0 && a.windowRequestCount >= 0 && a.totalFailures >= 0 && a.totalSuccesses >= 0
  }

  /** A success clears the stored failures exactly if there were none. */
  lemma SuccessClearsExactly(stored: Account, taken: Account, d: Dispatch)
    requires Succeeds(d)
    ensures After(stored, taken, d).consecutiveFailures == 0 <==> stored.consecutiveFailures == 0
    ensures After(stored, taken, d).lastError == "" <==> stored.lastError == ""
  {
    hide ResetWindow;
  }

  datatype Window = Window(startedAt: Option<Time>, count: int)

  function WindowOf(a: Account): Window {
    Window(a.windowStartedAt, a.windowRequestCount)
  }

  /** The window once a start at `now` is counted. */
  function StartedWindow(taken: Account, now: Time): (w: Window)
    ensures Counts(taken) ==> w.count >= 1
    ensures taken.hourlyQuota > 0 ==> w.startedAt.Some?
  {
    var current := ResetWindow(taken, now);
    Window(current.windowStartedAt, current.windowRequestCount + 1)
  }

  predicate SameTallies(a: Account, b: Account) {
    a.totalFailures == b.totalFailures && a.totalSuccesses == b.totalSuccesses && a.hourlyQuota == b.hourlyQuota
  }

  /** The copies differ in nothing that is counted but the window. */
  predicate Agree(a: Account, b: Account) {
    Counts(a) && Counts(b) && SameTallies(a, b) && a.consecutiveFailures == b.consecutiveFailures
  }

  lemma StartMarked(taken: Account, now: Time)
    requires Counts(taken)
    ensures Agree(taken, MarkStart(taken, now))
    ensures taken.hourlyQuota > 0 ==> WindowOf(MarkStart(taken, now)) == StartedWindow(taken, now)
  {}

  /** Writing back keeps tallies that have not fallen, a count of failures unless it is zero, and a window that
      has counted a start or is the stored one. */
  lemma WrittenBack(stored: Account, a: Account)
    requires Counts(stored) && Counts(a) && a.hourlyQuota == stored.hourlyQuota
    requires a.totalFailures >= stored.totalFailures && a.totalSuccesses >= stored.totalSuccesses
    ensures var kept := Overlay(stored, a);
      && Counts(kept) && SameTallies(a, kept)
      && kept.consecutiveFailures == (if a.consecutiveFailures == 0 then stored else a).consecutiveFailures
      && ((a.windowRequestCount >= 1 && a.windowStartedAt.Some?) ==> WindowOf(kept) == WindowOf(a))
      && (WindowOf(a) == WindowOf(stored) ==> WindowOf(kept) == WindowOf(a))
  {}

  lemma RefreshWritten(stored: Account, taken: Account, now: Time, refresh: Refresh)
    requires Agree(stored, taken)
    ensures var kept := Kept(stored, MarkStart(taken, now), refresh);
      && Agree(stored, kept)
      && (stored.hourlyQuota > 0 ==>
            WindowOf(kept) == if refresh.NotTried? then WindowOf(stored) else StartedWindow(taken, now))
  {
    hide MarkStart, StartedWindow, Overlay;
    var started := MarkStart(taken, now);
    StartMarked(taken, now);
    match refresh
    case NotTried =>
    case TryFailed(error) => WrittenBack(stored, started.(lastError := error));
    case Done => WrittenBack(stored, started.(lastError := "", consecutiveFailures := 0));
  }

  /** What a turn leaves when it ends with the tallies of `d` and this window. */
  predicate Leaves(stored: Account, after: Account, d: Dispatch, w: Window) {
    var failed := if d.Failed? then 1 else 0;
    && Counts(after)
    && after.consecutiveFailures == stored.consecutiveFailures + failed
    && after.totalFailures == stored.totalFailures + failed
    && after.totalSuccesses == stored.totalSuccesses + (if Succeeds(d) then 1 else 0)
    && after.hourlyQuota == stored.hourlyQuota
    && (stored.hourlyQuota > 0 ==> WindowOf(after) == w)
  }

  lemma FailedTurn(stored: Account, taken: Account, d: Dispatch)
    requires Agree(stored, taken) && d.Failed?
    ensures Leaves(stored, After(stored, taken, d), d,
                   if ForgetsStart(d) then WindowOf(stored) else StartedWindow(taken, d.start))
  {
    hide MarkStart, StartedWindow, Overlay, Kept, TrimSpace;
    var started := MarkStart(taken, d.start);
    var kept := Kept(stored, started, d.refresh);
    StartMarked(taken, d.start);
    RefreshWritten(stored, taken, d.start, d.refresh);
    match d.relogin
    case NotCalled => WrittenBack(kept, MarkFailure(started, d.finish, d.error));
    case Declined => WrittenBack(kept, MarkFailure(kept, d.finish, d.error));
    case Begun(note) =>
      var pending := Overlay(kept, started.(lastError := note));
      WrittenBack(kept, started.(lastError := note));
      WrittenBack(pending, MarkFailure(pending, d.finish, d.error));
  }

  /** One turn changes the configured tallies by its outcome. Its window is that of the copy it began with and
      one start more, unless its start is forgotten. */
  lemma OneDispatch(stored: Account, taken: Account, d: Dispatch)
    requires Agree(stored, taken)
    ensures Leaves(stored, After(stored, taken, d), d,
                   if ForgetsStart(d) then WindowOf(stored) else StartedWindow(taken, d.start))
  {
    hide MarkStart, StartedWindow, Overlay, Kept;
    var started := MarkStart(taken, d.start);
    StartMarked(taken, d.start);
    match d
    case Direct(_, finish) => WrittenBack(stored, MarkSuccess(started, finish));
    case Retried(_, finish) =>
      RefreshWritten(stored, taken, d.start, Done);
      WrittenBack(Kept(stored, started, Done), MarkSuccess(Kept(stored, started, Done), finish));
    case Aborted(_, refresh) => RefreshWritten(stored, taken, d.start, refresh);
    case Failed(_, _, _, _, _) => FailedTurn(stored, taken, d);
  }

  /** What is configured by hand. */
  predicate SameSettings(a: Account, b: Account) {
    && a.key == b.key && a.priority == b.priority && a.hourlyQuota == b.hourlyQuota
    && a.disabled == b.disabled && a.hasArtifacts == b.hasArtifacts
  }

  /** The last of the errors that is not empty, or the one before. */
  function LastOf(errors: seq<string>, before: string): string {
    if errors == [] then before
    else if |errors[|errors| - 1]| > 0 then errors[|errors| - 1]
    else LastOf(errors[..|errors| - 1], before)
  }

  function RefreshError(refresh: Refresh): string {
    if refresh.TryFailed? then refresh.error else ""
  }

  /** The errors a turn notes, in order. A success notes none, so that the one before stays. */
  function ErrorsNoted(d: Dispatch): seq<string> {
    match d
    case Aborted(_, refresh) => [RefreshError(refresh)]
    case Failed(_, _, refresh, relogin, error) =>
      [RefreshError(refresh), if relogin.Begun? then relogin.note else "", TrimSpace(error)]
    case _ => []
  }

  /** The account was last used when the turn ended, or when it began if it was aborted behind a refresh. */
  function UsedAt(stored: Account, d: Dispatch): Option<Time> {
    match d
    case Aborted(start, refresh) => if refresh.NotTried? then stored.lastUsedAt else Some(start)
    case Direct(_, finish) => Some(finish)
    case Retried(_, finish) => Some(finish)
    case Failed(_, finish, _, _, _) => Some(finish)
  }

  /** A turn keeps the settings, notes when the account was used and the last error that says something, and leaves the
      window alone if there is no quota. */
  lemma TurnNotes(stored: Account, taken: Account, d: Dispatch)
    requires SameSettings(stored, taken)
    ensures var after := After(stored, taken, d);
      && SameSettings(stored, after) && after.lastUsedAt == UsedAt(stored, d)
      && after.lastError == LastOf(ErrorsNoted(d), stored.lastError)
      && (stored.hourlyQuota <= 0 ==> WindowOf(after) == WindowOf(stored))
  {
    hide TrimSpace, LastOf, MarkStart, Overlay;
    var started := MarkStart(taken, d.start);
    StartNotes(taken, d.start);
    LastOfNone(stored.lastError);
    match d
    case Direct(_, finish) => WritesNotes(stored, MarkSuccess(started, finish));
    case Retried(_, finish) =>
      var kept := Kept(stored, started, Done);
      WritesNotes(stored, started.(lastError := "", consecutiveFailures := 0));
      WritesNotes(kept, MarkSuccess(kept, finish));
    case Aborted(_, refresh) =>
      RefreshNotes(stored, started, refresh);
      LastOfOne(RefreshError(refresh), stored.lastError);
    case Failed(_, finish, refresh, relogin, error) =>
      var kept := Kept(stored, started, refresh);
      var pending := started.(lastError := if relogin.Begun? then relogin.note else "");
      RefreshNotes(stored, started, refresh);
      WritesNotes(kept, MarkFailure(started, finish, error));
      WritesNotes(kept, MarkFailure(kept, finish, error));
      WritesNotes(kept, pending);
      WritesNotes(Overlay(kept, pending), MarkFailure(Overlay(kept, pending), finish, error));
      LastOfThree(RefreshError(refresh), pending.lastError, TrimSpace(error), stored.lastError);
  }

  lemma StartNotes(taken: Account, now: Time)
    ensures var started := MarkStart(taken, now);
      && SameSettings(taken, started) && started.lastUsedAt == Some(now)
      && (taken.hourlyQuota <= 0 ==> WindowOf(started) == Window(None, 0))
  {}

  lemma WritesNotes(stored: Account, a: Account)
    requires SameSettings(stored, a)
    ensures var kept := Overlay(stored, a);
      && SameSettings(stored, kept)
      && kept.lastUsedAt == (if a.lastUsedAt.Some? then a.lastUsedAt else stored.lastUsedAt)
      && kept.lastError == (if a.lastError != "" then a.lastError else stored.lastError)
      && (WindowOf(a) == Window(None, 0) || WindowOf(a) == WindowOf(stored) ==> WindowOf(kept) == WindowOf(stored))
  {}

  lemma RefreshNotes(stored: Account, started: Account, refresh: Refresh)
    requires SameSettings(stored, started) && started.lastUsedAt.Some?
    ensures var kept := Kept(stored, started, refresh);
      && SameSettings(stored, kept)
      && kept.lastUsedAt == (if refresh.NotTried? then stored.lastUsedAt else started.lastUsedAt)
      && kept.lastError == (if RefreshError(refresh) != "" then RefreshError(refresh) else stored.lastError)
      && (WindowOf(started) == Window(None, 0) ==> WindowOf(kept) == WindowOf(stored))
  {
    hide Overlay;
    match refresh
    case NotTried =>
    case TryFailed(error) => WritesNotes(stored, started.(lastError := error));
    case Done => WritesNotes(stored, started.(lastError := "", consecutiveFailures := 0));
  }

  lemma LastOfNone(before: string)
    ensures LastOf([], before) == before
  {}

  lemma LastOfOne(error: string, before: string)
    ensures LastOf([error], before) == if error != "" then error else before
  {
    assert [error][..0] == [];
  }

  lemma LastOfThree(first: string, second: string, third: string, before: string)
    ensures LastOf([first, second, third], before)
      == if third != "" then third else if second != "" then second else if first != "" then first else before
  {
    assert [first, second, third][..2] == [first, second] && [first, second][..1] == [first];
    LastOfOne(first, before);
  }

  /** Both copies lie in the window that began at `begin`. */
  predicate InWindow(c: Copies, begin: Time) {
    && Agree(c.configured, c.listed) && c.configured.hourlyQuota > 0
    && c.configured.windowStartedAt == Some(begin) && c.listed.windowStartedAt == Some(begin)
  }

  /** Within a window a turn takes one request off the quota if and only if its start is not forgotten and the
      copy it began with has counted as many starts as the configured one. */
  lemma TurnCountsExactly(c: Copies, pinned: bool, savedBefore: bool, d: Dispatch, begin: Time)
    requires InWindow(c, begin) && d.start - begin < HOUR
    ensures var after := Happen(c, Turn(pinned, savedBefore, d));
      && InWindow(after, begin)
      && (after.configured.windowRequestCount == c.configured.windowRequestCount + 1 <==>
            !ForgetsStart(d) && (pinned || c.listed.windowRequestCount == c.configured.windowRequestCount))
  {
    OneDispatch(c.configured, if pinned then c.configured else c.listed, d);
    hide After;
  }

  /** A request whose context ends before any refresh leaves no trace of the account having been used. */
  lemma AbortLeavesNoTrace(c: Copies, pinned: bool, savedBefore: bool, start: Time)
    ensures Happen(c, Turn(pinned, savedBefore, Aborted(start, NotTried)))
         == if savedBefore then Happen(c, Rebuilt) else c
  {}

  /** A failure without a refresh, after a login was started shortly before, counts as a failure but takes
      nothing off the quota. */
  lemma DeclinedReloginForgetsStart(stored: Account, taken: Account, start: Time, finish: Time, error: string)
    requires Agree(stored, taken) && stored.hourlyQuota > 0
    ensures var after := After(stored, taken, Failed(start, finish, NotTried, Declined, error));
      && WindowOf(after) == WindowOf(stored)
      && after.totalFailures == stored.totalFailures + 1
      && after.consecutiveFailures == stored.consecutiveFailures + 1
  {
    OneDispatch(stored, taken, Failed(start, finish, NotTried, Declined, error));
    hide After;
  }

  // ---------- Runs ----------

  /** Over any run the count of consecutive failures only grows, by one for every failed turn: no success and
      no refresh in between takes it back, so the order of candidates ranks by all failures so far. */
  lemma {:induction false} FailuresAccumulate(stored: Account, events: seq<Event>)
    requires Counts(stored)
    ensures var after := Run(stored, events);
      && Agree(after.configured, after.listed) && after.configured.hourlyQuota == stored.hourlyQuota
      && after.configured.consecutiveFailures == stored.consecutiveFailures + FailuresIn(events)
      && after.configured.totalFailures == stored.totalFailures + FailuresIn(events)
      && after.configured.totalSuccesses == stored.totalSuccesses + SuccessesIn(events)
  {
    if events != [] {
      var before, e := Run(stored, events[..|events| - 1]), events[|events| - 1];
      FailuresAccumulate(stored, events[..|events| - 1]);
      if e.Turn? {
        OneDispatch(before.configured, if e.pinned then before.configured else before.listed, e.dispatch);
      }
      hide After, StartedWindow;
    }
  }

  /** How many of the events had happened when the list of candidates was last rebuilt. */
  function ListedAt(events: seq<Event>): (k: nat)
    ensures k <= |events|
  {
    if events == [] then 0
    else
      var n, last := |events| - 1, events[|events| - 1];
      if last.Rebuilt? || Saves(last.dispatch) then n + 1
      else if last.savedBefore then n
      else ListedAt(events[..n])
  }

  /** The turns whose starts the configured account counts: the last one to write its start, and those counted by
      the copy it began with, which is the configured account as it was then or when the list was rebuilt. */
  function Counted(events: seq<Event>): (turns: set<nat>)
    ensures forall i | i in turns :: i < |events| && WritesStart(events[i])
    decreases |events|
  {
    if events == [] then {}
    else
      var n, last := |events| - 1, events[|events| - 1];
      if !WritesStart(last) then Counted(events[..n])
      else if last.pinned then {n} + Counted(events[..n])
      else {n} + Counted(events[..n][..ListedAt(events[..n])])
  }

  /** The turns whose starts the listed copy counts. */
  function CountedByList(events: seq<Event>): set<nat> {
    Counted(events[..ListedAt(events)])
  }

  predicate StartsWithin(events: seq<Event>, begin: Time) {
    forall i | 0 <= i < |events| && events[i].Turn? :: events[i].dispatch.start - begin < HOUR
  }

  /** Over any run within one window the configured account counts exactly the starts told by the events, and the
      listed one those that were counted when the list was last rebuilt. */
  lemma {:induction false} WindowCountsDispatches(stored: Account, events: seq<Event>, begin: Time)
    requires Counts(stored) && stored.hourlyQuota > 0 && stored.windowStartedAt == Some(begin)
    requires StartsWithin(events, begin)
    ensures var after := Run(stored, events);
      && InWindow(after, begin) && after.configured.hourlyQuota == stored.hourlyQuota
      && after.configured.windowRequestCount == stored.windowRequestCount + |Counted(events)|
      && after.listed.windowRequestCount == stored.windowRequestCount + |CountedByList(events)|
  {
    hide Happen, InWindow, WritesStart;
    if events == [] {
      NothingCounted(stored, begin);
    } else {
      var n := |events| - 1;
      var front, last := events[..n], events[n];
      WindowCountsDispatches(stored, front, begin);
      assert front[..ListedAt(front)] == events[..ListedAt(front)] && events[..n + 1] == events;
      EventCounts(Run(stored, front), last, begin);
      CountedMore(events);
    }
  }

  lemma NothingCounted(stored: Account, begin: Time)
    requires Counts(stored) && stored.hourlyQuota > 0 && stored.windowStartedAt == Some(begin)
    ensures InWindow(Run(stored, []), begin) && |Counted([])| == 0
  {}

  /** The counts after an event. */
  lemma EventCounts(c: Copies, e: Event, begin: Time)
    requires InWindow(c, begin) && (e.Turn? ==> e.dispatch.start - begin < HOUR)
    ensures var after := Happen(c, e);
      && InWindow(after, begin) && after.configured.hourlyQuota == c.configured.hourlyQuota
      && after.configured.windowRequestCount
         == (if !WritesStart(e) then c.configured else if e.pinned then c.configured else c.listed).windowRequestCount
            + (if WritesStart(e) then 1 else 0)
      && after.listed.windowRequestCount
         == (if e.Rebuilt? || Saves(e.dispatch) then after.configured
             else if e.savedBefore then c.configured else c.listed).windowRequestCount
  {
    if e.Turn? {
      OneDispatch(c.configured, if e.pinned then c.configured else c.listed, e.dispatch);
      hide After;
    }
  }

  lemma CountedMore(events: seq<Event>)
    requires events != []
    ensures var n, last := |events| - 1, events[|events| - 1];
      |Counted(events)| == if !WritesStart(last) then |Counted(events[..n])|
        else 1 + |Counted(if last.pinned then events[..n] else events[..ListedAt(events[..n])])|
  {
    var n := |events| - 1;
    assert events[..n][..ListedAt(events[..n])] == events[..ListedAt(events[..n])];
    assert n !in Counted(events[..n]) && n !in Counted(events[..ListedAt(events[..n])]);
  }

  /** What is left of the quota after a run, as the next rebuilt list ranks the account. */
  lemma QuotaLeft(stored: Account, events: seq<Event>, begin: Time, now: Time)
    requires Counts(stored) && stored.hourlyQuota > 0 && stored.windowStartedAt == Some(begin)
    requires StartsWithin(events, begin) && now - begin < HOUR
    ensures var used := stored.windowRequestCount + |Counted(events)|;
      RemainingQuota(Run(stored, events).configured, now).0
        == if used < stored.hourlyQuota then stored.hourlyQuota - used else 0
  {
    WindowCountsDispatches(stored, events, begin);
    hide Run, Counted;
  }

  // ---------- When every start counts ----------

  /** The turn at `k` writes a start on top of a listed copy that lacks one written since the list was rebuilt. */
  predicate Stale(events: seq<Event>, k: nat)
    requires k < |events|
  {
    WritesStart(events[k]) && !events[k].pinned
    && exists j | ListedAt(events[..k]) <= j < k :: WritesStart(events[j])
  }

  predicate NoneStale(events: seq<Event>) {
    forall k | 0 <= k < |events| :: !Stale(events, k)
  }

  lemma NoneStalePrefix(events: seq<Event>, n: nat)
    requires n <= |events|
    ensures NoneStale(events[..n]) <==> forall k | 0 <= k < n :: !Stale(events, k)
  {
    assert forall k | 0 <= k < n :: events[..n][..k] == events[..k];
    forall k | 0 <= k < n ensures Stale(events[..n], k) <==> Stale(events, k) {
      assert forall j | 0 <= j < n :: events[..n][j] == events[j];
    }
  }

  /** Between two points starts are written exactly if some event there writes one. */
  lemma {:induction false} StartsBetween(events: seq<Event>, lo: nat)
    requires lo <= |events|
    ensures StartsWritten(events[..lo]) <= StartsWritten(events)
    ensures StartsWritten(events[..lo]) == StartsWritten(events) <==>
      forall j | lo <= j < |events| :: !WritesStart(events[j])
    decreases |events|
  {
    if lo == |events| {
      assert events[..lo] == events;
    } else {
      var n := |events| - 1;
      StartsBetween(events[..n], lo);
      assert events[..n][..lo] == events[..lo];
    }
  }

  /** One more event keeps all turns fresh exactly if it writes no start from the list, or none since that. */
  lemma NoneStaleMore(events: seq<Event>)
    requires events != []
    ensures var n, last := |events| - 1, events[|events| - 1]; var lo := ListedAt(events[..n]);
      NoneStale(events) <==>
        if WritesStart(last) && !last.pinned
        then NoneStale(events[..lo]) && StartsWritten(events[..lo]) == StartsWritten(events[..n])
        else NoneStale(events[..n])
  {
    hide NoneStale, StartsWritten, ListedAt, WritesStart, Stale;
    var n, last := |events| - 1, events[|events| - 1];
    var lo := ListedAt(events[..n]);
    assert events[..|events|] == events;
    NoneStalePrefix(events, |events|);
    NoneStalePrefix(events, n);
    NoneStalePrefix(events, lo);
    StartsBetween(events[..n], lo);
    assert events[..n][..lo] == events[..lo];
    assert forall j | lo <= j < n :: events[..n][j] == events[j];
    LastStale(events);
  }

  lemma LastStale(events: seq<Event>)
    requires events != []
    ensures var n, last := |events| - 1, events[|events| - 1]; var lo := ListedAt(events[..n]);
      && (Stale(events, n) <==>
            WritesStart(last) && !last.pinned && exists j | lo <= j < n :: WritesStart(events[j]))
      && forall k | 0 <= k < n && !WritesStart(events[k]) :: !Stale(events, k)
  {
    hide ListedAt, WritesStart;
  }

  /** Of the starts written as many are counted as there are, or fewer: all of them exactly if no turn is
      stale. */
  lemma {:induction false} AllCountedExactly(events: seq<Event>)
    ensures |Counted(events)| <= StartsWritten(events)
    ensures |Counted(events)| == StartsWritten(events) <==> NoneStale(events)
    decreases |events|
  {
    hide NoneStale, Counted, ListedAt, WritesStart;
    if events == [] {
      AllCountedYet();
    } else {
      var n, last := |events| - 1, events[|events| - 1];
      var lo := ListedAt(events[..n]);
      AllCountedExactly(events[..n]);
      AllCountedExactly(events[..lo]);
      CountedMore(events);
      NoneStaleMore(events);
      StartsBetween(events[..n], lo);
      assert events[..n][..lo] == events[..lo];
    }
  }

  lemma AllCountedYet()
    ensures |Counted([])| == StartsWritten([]) == 0 && NoneStale([])
  {}

  /** Over any run within one window every turn whose start is not forgotten takes one request off the quota, if
      and only if no turn is stale; otherwise fewer are taken off. */
  lemma EveryStartCountsExactly(stored: Account, events: seq<Event>, begin: Time)
    requires Counts(stored) && stored.hourlyQuota > 0 && stored.windowStartedAt == Some(begin)
    requires StartsWithin(events, begin)
    ensures var count := Run(stored, events).configured.windowRequestCount;
      && count <= stored.windowRequestCount + StartsWritten(events)
      && (count == stored.windowRequestCount + StartsWritten(events) <==> NoneStale(events))
  {
    WindowCountsDispatches(stored, events, begin);
    AllCountedExactly(events);
    hide Run, Counted, NoneStale, StartsWritten;
  }

  /** How one event moves starts between the copies. */
  lemma NextCounted(events: seq<Event>, e: Event)
    ensures var more := events + [e];
      && Counted(more) == (if !WritesStart(e) then Counted(events)
                           else {|events|} + (if e.pinned then Counted(events) else CountedByList(events)))
      && CountedByList(more) == (if e.Rebuilt? || Saves(e.dispatch) then Counted(more)
                                 else if e.savedBefore then Counted(events) else CountedByList(events))
  {
    hide Counted, CountedByList, WritesStart, Saves;
    NextConfigured(events, e);
    NextByList(events, e);
  }

  lemma NextConfigured(events: seq<Event>, e: Event)
    ensures Counted(events + [e]) ==
      (if !WritesStart(e) then Counted(events)
       else {|events|} + (if e.pinned then Counted(events) else CountedByList(events)))
  {
    hide ListedAt;
    var more := events + [e];
    assert more[|more| - 1] == e && more[..|more| - 1] == events;
  }

  lemma NextByList(events: seq<Event>, e: Event)
    ensures CountedByList(events + [e]) ==
      if e.Rebuilt? || Saves(e.dispatch) then Counted(events + [e])
      else if e.savedBefore then Counted(events) else CountedByList(events)
  {
    hide Counted, ListedAt, Saves;
    NextListed(events, e);
    var more := events + [e];
    assert more[..|events|] == events && more[..|more|] == more;
    assert more[..ListedAt(events)] == events[..ListedAt(events)];
  }

  lemma NextListed(events: seq<Event>, e: Event)
    ensures ListedAt(events + [e]) ==
      if e.Rebuilt? || Saves(e.dispatch) then |events| + 1 else if e.savedBefore then |events| else ListedAt(events)
  {
    hide Saves;
    assert (events + [e])[..|events|] == events;
  }

  /** An abort behind a failed refresh, then a success: two starts are written, one request is taken off. */
  lemma AbortedStartIsOverwritten(stored: Account, s: Time, error: string, s2: Time, f2: Time, begin: Time)
    requires Counts(stored) && stored.hourlyQuota > 0 && stored.windowStartedAt == Some(begin)
    requires s - begin < HOUR && s2 - begin < HOUR
    ensures var events := [Turn(false, false, Aborted(s, TryFailed(error))), Turn(false, false, Direct(s2, f2))];
      && StartsWritten(events) == 2
      && Run(stored, events).configured.windowRequestCount == stored.windowRequestCount + 1
      && Run(stored, events).listed.windowRequestCount == stored.windowRequestCount + 1
  {
    var first, second := Turn(false, false, Aborted(s, TryFailed(error))), Turn(false, false, Direct(s2, f2));
    WindowCountsDispatches(stored, [first, second], begin);
    hide Run, CountedByList, Counted;
    NothingListed();
    NextCounted([], first);
    NextCounted([first], second);
    assert [] + [first] == [first] && [first] + [second] == [first, second];
    assert [first][..0] == [] && [first, second][..1] == [first];
    assert StartsWritten([first]) == 1;
  }

  lemma NothingListed()
    ensures |CountedByList([])| == |Counted([])| == 0
  {}

  // ---------- The start of an abort behind a failed refresh ----------

  predicate InBoth(events: seq<Event>, i: nat) {
    i in Counted(events) && i in CountedByList(events)
  }

  predicate InNeither(events: seq<Event>, i: nat) {
    i !in Counted(events) && i !in CountedByList(events)
  }

  /** Only the configured account counts it. */
  predicate Pending(events: seq<Event>, i: nat) {
    i in Counted(events) && i !in CountedByList(events)
  }

  /** The event leaves the list alone and does not write over the configured account from it. */
  predicate Waits(e: Event) {
    e.Turn? && !e.savedBefore && !Saves(e.dispatch) && (WritesStart(e) ==> e.pinned)
  }

  /** The event takes the listed copy for its start and writes it. */
  predicate WritesListed(e: Event) {
    WritesStart(e) && !e.pinned
  }

  /** A start that both copies count is never lost, and one that neither counts never comes back. */
  lemma {:induction false} SettledForGood(events: seq<Event>, more: seq<Event>, i: nat)
    requires i < |events|
    ensures InBoth(events, i) ==> InBoth(events + more, i)
    ensures InNeither(events, i) ==> InNeither(events + more, i)
  {
    if more == [] {
      assert events + more == events;
    } else {
      hide Counted, CountedByList;
      var front := more[..|more| - 1];
      SettledForGood(events, front, i);
      NextCounted(events + front, more[|more| - 1]);
      assert events + front + [more[|more| - 1]] == events + more;
    }
  }

  lemma {:induction false} StaysPending(events: seq<Event>, more: seq<Event>, i: nat)
    requires i < |events| && Pending(events, i) && forall e | e in more :: Waits(e)
    ensures Pending(events + more, i)
  {
    if more == [] {
      assert events + more == events;
    } else {
      hide Counted, CountedByList;
      var front := more[..|more| - 1];
      StaysPending(events, front, i);
      assert Waits(more[|more| - 1]);
      NextCounted(events + front, more[|more| - 1]);
      assert events + front + [more[|more| - 1]] == events + more;
    }
  }

  /** The start of an abort behind a failed refresh waits in the configured account. It is counted for good if and
      only if the event that ends the waiting is no turn that writes the listed copy. One such turn decides
      nothing: it is aborted behind a failed refresh itself, after the list was rebuilt in its own request. */
  lemma AbortedStartSurvivesExactly(events: seq<Event>, abort: Event, waiting: seq<Event>, e: Event, more: seq<Event>)
    requires AbortsUnsaved(abort) && (forall w | w in waiting :: Waits(w)) && !Waits(e)
    requires !(WritesListed(e) && e.savedBefore && !Saves(e.dispatch))
    ensures |events| in Counted(events + [abort] + waiting + [e] + more) <==> !WritesListed(e)
  {
    var i, aborted := |events|, events + [abort];
    AbortIsPending(events, abort);
    StaysPending(aborted, waiting, i);
    NextCounted(aborted + waiting, e);
    SettledForGood(aborted + waiting + [e], more, i);
    hide Counted, CountedByList;
  }

  /** The request's context ends behind a failed refresh. */
  predicate AbortsUnsaved(e: Event) {
    e.Turn? && e.dispatch.Aborted? && e.dispatch.refresh.TryFailed?
  }

  lemma AbortIsPending(events: seq<Event>, abort: Event)
    requires AbortsUnsaved(abort)
    ensures Pending(events + [abort], |events|)
  {
    NextCounted(events, abort);
  }
}
