/** When the dispatch counters are exact: which steps lose count, and which configurations never do. */
module SlotAccounting {
  import opened Wrappers
  import opened DispatchSlots

  // ---------- One step ----------

  predicate Exact(sys: System, s: nat)
    requires s < |sys.slots|
  {
    sys.slots[s].inflight == |Holders(sys, s)|
  }

  /** The two steps that lose count on slot `s`: a clamp that takes effect, and the release of a request
      that acquired on a slot published earlier under the same account. */
  predicate LosesCount(sys: System, step: Step, s: nat)
    requires s < |sys.slots|
  {
    match step
    case AdvanceRebuild =>
      && sys.rebuild.Some? && sys.rebuild.value.phase.ClampCAS?
      && sys.rebuild.value.phase.slot == s && sys.rebuild.value.phase.loaded == sys.slots[s].inflight
    case Advance(t) =>
      && t < |sys.threads| && sys.threads[t].pc == ReleaseCAS(s, sys.slots[s].inflight)
      && sys.threads[t].holds != Some(s)
    case _ => false
  }

  lemma ThreadStepExact(sys: System, t: nat, s: nat)
    requires Inv(sys) && t < |sys.threads| && s in sys.published.Values && Exact(sys, s)
    ensures Exact(AdvanceThread(sys, t), s) <==> !LosesCount(sys, Advance(t), s)
  {
    hide InUse, Holders;
    var th := sys.threads[t];
    assert InUse(sys, s) by { InUseIfPublished(sys, s); }
    assert ThreadOK(sys, th);
    var after := AdvanceThread(sys, t);
    var thread := after.threads[t];
    HoldersAfter(sys, t, thread, s);
    SameHolders(SetThread(sys, t, thread), after, s);
    if th.holds.Some? { HolderIsCounted(sys, t); }
  }

  lemma InUseIfPublished(sys: System, s: nat)
    requires s in sys.published.Values
    ensures InUse(sys, s)
  {
  }

  lemma SameHolders(a: System, b: System, s: nat)
    requires a.threads == b.threads
    ensures Holders(a, s) == Holders(b, s)
  {
  }

  lemma RequestStepExact(sys: System, step: Step, s: nat)
    requires Inv(sys) && s in sys.published.Values && Exact(sys, s)
    requires Enabled(sys, step) && (step.Acquire? || step.Release?)
    ensures Exact(Next(sys, step), s)
  {
    hide Holders, InUse;
    InUseIfPublished(sys, s);
    var th := sys.threads[step.t];
    assert ThreadOK(sys, th);
    HoldersAfter(sys, step.t, Next(sys, step).threads[step.t], s);
    if step.Release? { OwnSlot(sys, th.holds.value, th.email); }
  }

  /** A published counter that equals its holders goes on doing so exactly when the step does not lose count. */
  lemma CountDriftsExactly(sys: System, step: Step, s: nat)
    requires Inv(sys) && s in sys.published.Values && Exact(sys, s)
    ensures Exact(Next(sys, step), s) <==> !LosesCount(sys, step, s)
  {
    hide AdvanceThread, BeginAcquire, BeginRelease, Holders;
    assert InUse(sys, s);
    if Enabled(sys, step) {
      match step
      case Acquire(_, _) => RequestStepExact(sys, step, s);
      case Release(_) => RequestStepExact(sys, step, s);
      case Advance(t) =>
        ThreadStepExact(sys, t, s);
        AdvanceKeepsTable(sys, t);
      case StartRebuild(accounts) => SameHolders(sys, Next(sys, step), s);
      case AdvanceRebuild => SameHolders(sys, Next(sys, step), s);
    }
  }

  lemma AdvanceKeepsTable(sys: System, t: nat)
    requires t < |sys.threads|
    ensures AdvanceThread(sys, t).published == sys.published
  {
  }

  // ---------- Whole runs ----------

  /** A configuration that removes no account and lowers no maximum; accounts are distinct. */
  predicate GentleConfig(sys: System, accounts: seq<Account>) {
    && (forall email | email in sys.published :: Lists(accounts, email))
    && NoneShrinks(sys, accounts)
    && DistinctEmails(accounts)
  }

  predicate Lists(accounts: seq<Account>, email: string) {
    exists i | 0 <= i < |accounts| :: accounts[i].email == email
  }

  predicate NoneShrinks(sys: System, accounts: seq<Account>) {
    forall i | 0 <= i < |accounts| && accounts[i].email in sys.published
      && sys.published[accounts[i].email] < |sys.slots| ::
      Effective(sys.slots[sys.published[accounts[i].email]].max) <= Effective(NormalizeMax(accounts[i].maxConcurrency))
  }

  predicate DistinctEmails(accounts: seq<Account>) {
    forall i, j | 0 <= i < j < |accounts| && accounts[i].email == accounts[j].email :: accounts[i].email == ""
  }

  predicate GentleStep(sys: System, step: Step) {
    step.StartRebuild? && Enabled(sys, step) ==> GentleConfig(sys, step.accounts)
  }

  predicate GentleRun(start: System, steps: seq<Step>) {
    forall i | 0 <= i < |steps| :: GentleStep(Execute(start, steps[..i]), steps[i])
  }

  predicate WithinMax(sys: System, s: nat)
    requires s < |sys.slots|
  {
    sys.slots[s].inflight <= Effective(sys.slots[s].max)
  }

  /** What a request has read still holds: maxima only grow. */
  predicate ReadsHold(sys: System, th: Thread) {
    match th.pc
    case LoadInflight(s, max) => s < |sys.slots| ==> max <= Effective(sys.slots[s].max)
    case AcquireCAS(s, loaded) => s < |sys.slots| ==> loaded < Effective(sys.slots[s].max)
    case _ => true
  }

  predicate RebuildGentle(sys: System, rb: Rebuild) {
    && !rb.phase.ClampCAS?
    && (rb.phase.ClampLoad? ==> rb.phase.slot < |sys.slots| && rb.phase.max == Effective(sys.slots[rb.phase.slot].max))
    && (forall email | email in sys.published :: email in rb.next || Lists(rb.todo, email))
    && NoneShrinks(sys, rb.todo) && DistinctEmails(rb.todo)
    && (forall i | 0 <= i < |rb.todo| :: rb.todo[i].email !in rb.next)
  }

  ghost predicate Gentle(sys: System) {
    && Inv(sys)
    && sys.everPublished == sys.published.Values
    && (forall s | s in sys.published.Values :: s < |sys.slots| && Exact(sys, s) && WithinMax(sys, s))
    && (forall t | 0 <= t < |sys.threads| :: ReadsHold(sys, sys.threads[t]))
    && (sys.rebuild.Some? ==> RebuildGentle(sys, sys.rebuild.value))
  }

  /** Every account stays published, so a release finds the slot it acquired on. */
  lemma ReleasesOwnSlot(sys: System, t: nat)
    requires Gentle(sys) && t < |sys.threads| && IsRelease(sys.threads[t].pc)
    ensures SlotOf(sys.threads[t].pc) == sys.threads[t].holds
  {
    assert ThreadOK(sys, sys.threads[t]);
  }

  lemma NoLossWhileGentle(sys: System, step: Step, s: nat)
    requires Gentle(sys) && s in sys.published.Values
    ensures !LosesCount(sys, step, s)
  {
    if step.Advance? && step.t < |sys.threads| && IsRelease(sys.threads[step.t].pc) {
      ReleasesOwnSlot(sys, step.t);
    }
  }

  lemma ThreadStepGentle(sys: System, step: Step)
    requires Gentle(sys) && Enabled(sys, step) && (step.Acquire? || step.Release? || step.Advance?)
    ensures Gentle(Next(sys, step))
  {
    hide Inv, Exact;
    var after := Next(sys, step);
    NextInv(sys, step);
    TableUnchanged(sys, step);
    forall s | s in after.published.Values ensures s < |after.slots| && Exact(after, s) && WithinMax(after, s) {
      CountDriftsExactly(sys, step, s);
      NoLossWhileGentle(sys, step, s);
      StaysWithinMax(sys, step, s);
    }
    forall t | 0 <= t < |after.threads| ensures ReadsHold(after, after.threads[t]) {
      assert ReadsHold(sys, sys.threads[t]);
      assert ReadsHold(sys, sys.threads[step.t]);
    }
    if after.rebuild.Some? {
      assert NoneShrinks(after, after.rebuild.value.todo);
    }
  }

  /** A request's step changes no maximum, no email and no table. */
  lemma TableUnchanged(sys: System, step: Step)
    requires Enabled(sys, step) && (step.Acquire? || step.Release? || step.Advance?)
    ensures var after := Next(sys, step);
            after.published == sys.published && after.everPublished == sys.everPublished && after.rebuild == sys.rebuild
            && |after.slots| == |sys.slots| && |after.threads| == |sys.threads|
            && (forall s | 0 <= s < |sys.slots| :: after.slots[s].max == sys.slots[s].max)
            && (forall t | 0 <= t < |sys.threads| && t != step.t :: after.threads[t] == sys.threads[t])
  {
  }

  lemma StaysWithinMax(sys: System, step: Step, s: nat)
    requires Gentle(sys) && Enabled(sys, step) && (step.Acquire? || step.Release? || step.Advance?)
    requires s < |sys.slots| && WithinMax(sys, s)
    ensures WithinMax(Next(sys, step), s)
  {
    hide Inv, Exact;
    assert ReadsHold(sys, sys.threads[step.t]);
  }

  lemma StartGentle(sys: System, accounts: seq<Account>)
    requires Gentle(sys) && sys.rebuild.None? && GentleConfig(sys, accounts)
    ensures Gentle(Next(sys, StartRebuild(accounts)))
  {
    hide Inv;
    var after := Next(sys, StartRebuild(accounts));
    NextInv(sys, StartRebuild(accounts));
    assert NoneShrinks(after, accounts);
    forall s: nat ensures Holders(after, s) == Holders(sys, s) { SameHolders(sys, after, s); }
    forall t | 0 <= t < |after.threads| ensures ReadsHold(after, after.threads[t]) {
      assert ReadsHold(sys, sys.threads[t]);
    }
  }

  lemma ListsTail(accounts: seq<Account>, email: string)
    requires Lists(accounts, email) && accounts[0].email != email
    ensures Lists(accounts[1..], email)
  {
    var i :| 0 <= i < |accounts| && accounts[i].email == email;
    assert accounts[1..][i - 1].email == email;
  }

  lemma RebuildStepGentle(sys: System)
    requires Gentle(sys) && sys.rebuild.Some?
    ensures Gentle(StepRebuild(sys))
  {
    hide Inv;
    NextInv(sys, AdvanceRebuild);
    assert Next(sys, AdvanceRebuild) == StepRebuild(sys);
    var rb, after := sys.rebuild.value, StepRebuild(sys);
    forall s: nat ensures Holders(after, s) == Holders(sys, s) { SameHolders(sys, after, s); }
    if rb.phase.NextAccount? && rb.todo != [] {
      TakeAccountGentle(sys);
    } else {
      TableFacts(sys);
      if rb.phase.ClampLoad? { assert rb.phase.slot in sys.published.Values; }
      forall t | 0 <= t < |after.threads| ensures ReadsHold(after, after.threads[t]) {
        assert ReadsHold(sys, sys.threads[t]);
      }
      if after.rebuild.Some? {
        assert NoneShrinks(after, after.rebuild.value.todo);
      } else {
        PublishGentle(sys);
      }
    }
  }

  lemma TableFacts(sys: System)
    requires Inv(sys)
    ensures TableOK(sys)
  {
  }

  lemma PublishGentle(sys: System)
    requires Gentle(sys) && sys.rebuild.Some? && sys.rebuild.value.phase.NextAccount? && sys.rebuild.value.todo == []
    ensures var after := StepRebuild(sys);
            after.everPublished == after.published.Values
            && forall s | s in after.published.Values :: s < |after.slots| && Exact(after, s) && WithinMax(after, s)
  {
    var rb, after := sys.rebuild.value, StepRebuild(sys);
    forall email | email in sys.published ensures sys.published[email] in rb.next.Values {
      assert email in rb.next && rb.next[email] == sys.published[email];
    }
    forall s | s in sys.published.Values ensures s in rb.next.Values {
      var email :| email in sys.published && sys.published[email] == s;
      assert sys.published[email] in rb.next.Values;
    }
    forall s | s in after.published.Values ensures s < |after.slots| && Exact(after, s) && WithinMax(after, s) {
      var email :| email in rb.next && rb.next[email] == s;
      SameHolders(sys, after, s);
      if email !in sys.published { UnseenHasNoHolders(sys, s); }
      else { assert s in sys.published.Values; }
    }
  }

  lemma UnseenHasNoHolders(sys: System, s: nat)
    requires Inv(sys) && s !in sys.everPublished
    ensures Holders(sys, s) == {}
  {
    forall t | 0 <= t < |sys.threads| ensures sys.threads[t].holds != Some(s) {
      assert ThreadOK(sys, sys.threads[t]);
    }
  }

  /** Taking up the next account of a gentle configuration. */
  lemma TakeAccountGentle(sys: System)
    requires Gentle(sys) && sys.rebuild.Some? && sys.rebuild.value.phase.NextAccount? && sys.rebuild.value.todo != []
    ensures var after := StepRebuild(sys);
            after.rebuild.Some? && RebuildGentle(after, after.rebuild.value)
            && after.everPublished == after.published.Values
            && (forall s | s in after.published.Values :: s < |after.slots| && Exact(after, s) && WithinMax(after, s))
            && (forall t | 0 <= t < |after.threads| :: ReadsHold(after, after.threads[t]))
  {
    var rb, after := sys.rebuild.value, StepRebuild(sys);
    var email, rest := rb.todo[0].email, rb.todo[1..];
    TableFacts(sys);
    assert forall i | 0 <= i < |rest| :: rest[i] == rb.todo[i + 1];
    MaximaGrow(sys);
    forall s | s in after.published.Values ensures s < |after.slots| && Exact(after, s) && WithinMax(after, s) {
      SameHolders(sys, after, s);
    }
    forall t | 0 <= t < |after.threads| ensures ReadsHold(after, after.threads[t]) {
      assert ReadsHold(sys, sys.threads[t]);
      assert ThreadOK(sys, sys.threads[t]);
    }
    forall e | e in after.published ensures e in after.rebuild.value.next || Lists(rest, e) {
      if e !in rb.next && e != email { ListsTail(rb.todo, e); }
    }
    RestNotShrinking(sys);
  }

  lemma MaximaGrow(sys: System)
    requires Gentle(sys) && sys.rebuild.Some? && sys.rebuild.value.phase.NextAccount? && sys.rebuild.value.todo != []
    ensures var after := StepRebuild(sys);
            |sys.slots| <= |after.slots|
            && forall s | 0 <= s < |sys.slots| ::
                 after.slots[s].inflight == sys.slots[s].inflight
                 && Effective(sys.slots[s].max) <= Effective(after.slots[s].max)
  {
    var todo := sys.rebuild.value.todo;
    assert NoneShrinks(sys, todo);
  }

  lemma RestNotShrinking(sys: System)
    requires Gentle(sys) && sys.rebuild.Some? && sys.rebuild.value.phase.NextAccount? && sys.rebuild.value.todo != []
    ensures var after := StepRebuild(sys); NoneShrinks(after, sys.rebuild.value.todo[1..])
  {
    var rb, after := sys.rebuild.value, StepRebuild(sys);
    TableFacts(sys);
    var rest := rb.todo[1..];
    forall i | 0 <= i < |rest| && rest[i].email in after.published && after.published[rest[i].email] < |after.slots|
      ensures Effective(after.slots[after.published[rest[i].email]].max)
        <= Effective(NormalizeMax(rest[i].maxConcurrency)) {
      assert rest[i] == rb.todo[i + 1];
      assert rb.todo[0].email == rb.todo[i + 1].email ==> rb.todo[0].email == "";
    }
  }

  lemma NextGentle(sys: System, step: Step)
    requires Gentle(sys) && GentleStep(sys, step)
    ensures Gentle(Next(sys, step))
  {
    hide Gentle, GentleConfig, BeginAcquire, BeginRelease, AdvanceThread, StepRebuild;
    if Enabled(sys, step) {
      match step
      case StartRebuild(accounts) => StartGentle(sys, accounts);
      case AdvanceRebuild => RebuildStepGentle(sys);
      case _ => ThreadStepGentle(sys, step);
    }
  }

  lemma InitialGentle(requests: nat)
    ensures Gentle(Initial(requests))
  {
    InitialInv(requests);
  }

  lemma {:induction false} ExecuteGentle(requests: nat, steps: seq<Step>)
    requires GentleRun(Initial(requests), steps)
    ensures Gentle(Execute(Initial(requests), steps))
  {
    hide Gentle, GentleStep, Next;
    if steps == [] {
      InitialGentle(requests);
    } else {
      var n := |steps| - 1;
      forall i | 0 <= i < n ensures GentleStep(Execute(Initial(requests), steps[..n][..i]), steps[..n][i]) {
        assert steps[..n][..i] == steps[..i];
      }
      ExecuteGentle(requests, steps[..n]);
      assert GentleStep(Execute(Initial(requests), steps[..n]), steps[n]);
      NextGentle(Execute(Initial(requests), steps[..n]), steps[n]);
    }
  }

  /** While accounts stay and no maximum shrinks, every published counter is the number of its holders
      and never above the maximum. */
  lemma ExactWhileGentle(requests: nat, steps: seq<Step>, email: string)
    requires GentleRun(Initial(requests), steps)
    ensures var sys := Execute(Initial(requests), steps);
            email in sys.published ==>
              var s := sys.published[email];
              s < |sys.slots| && sys.slots[s].inflight == |Holders(sys, s)| <= Effective(sys.slots[s].max)
  {
    hide Execute;
    ExecuteGentle(requests, steps);
    var sys := Execute(Initial(requests), steps);
    if email in sys.published { assert sys.published[email] in sys.published.Values; }
  }

  // ---------- What a shrinking maximum does ----------

  lemma ExecuteMore(sys: System, steps: seq<Step>, step: Step)
    ensures Execute(sys, steps + [step]) == Next(Execute(sys, steps), step)
  {
    assert (steps + [step])[..|steps|] == steps;
  }

  lemma {:induction false} ExecuteTwice(sys: System, a: seq<Step>, b: seq<Step>)
    ensures Execute(sys, a + b) == Execute(Execute(sys, a), b)
  {
    if b == [] {
      assert a + b == a;
    } else {
      ExecuteTwice(sys, a, b[..|b| - 1]);
      assert (a + b)[..|a + b| - 1] == a + b[..|b| - 1];
    }
  }

  function AcquireSteps(t: nat, email: string): seq<Step> {
    [Acquire(t, email), Advance(t), Advance(t), Advance(t)]
  }

  function ReleaseSteps(t: nat): seq<Step> {
    [Release(t), Advance(t), Advance(t)]
  }

  lemma AcquireAlone(sys: System, t: nat, email: string, s: nat)
    requires t < |sys.threads| && sys.threads[t].pc.Idle? && email != "" && email in sys.published
    requires sys.published[email] == s < |sys.slots| && sys.slots[s].inflight < Effective(sys.slots[s].max)
    ensures Execute(sys, AcquireSteps(t, email))
            == SetThread(SetInflight(sys, s, sys.slots[s].inflight + 1), t, Thread(Holding, email, Some(s)))
  {
    hide Execute, StepRebuild, BeginRelease, ToInt32;
    var start, x := Acquire(t, email), Advance(t);
    FourSteps(sys, start, x);
    var s1 := SetThread(sys, t, Thread(LoadMax(s), email, None));
    assert Next(sys, start) == s1;
    var s2 := SetThread(sys, t, Thread(LoadInflight(s, Effective(sys.slots[s].max)), email, None));
    assert Next(s1, x) == s2;
    var s3 := SetThread(sys, t, Thread(AcquireCAS(s, sys.slots[s].inflight), email, None));
    assert Next(s2, x) == s3;
    LastAcquireStep(sys, t, email, s);
  }

  lemma LastAcquireStep(sys: System, t: nat, email: string, s: nat)
    requires t < |sys.threads| && s < |sys.slots|
    ensures Next(SetThread(sys, t, Thread(AcquireCAS(s, sys.slots[s].inflight), email, None)), Advance(t))
            == SetThread(SetInflight(sys, s, sys.slots[s].inflight + 1), t, Thread(Holding, email, Some(s)))
  {
    hide StepRebuild, BeginRelease, BeginAcquire;
  }

  lemma FourSteps(sys: System, first: Step, x: Step)
    ensures Execute(sys, [first, x, x, x]) == Next(Next(Next(Next(sys, first), x), x), x)
    ensures Execute(sys, [first, x, x]) == Next(Next(Next(sys, first), x), x)
  {
    hide Next;
    assert [first, x, x, x][..3] == [first, x, x] && [first, x, x][..2] == [first, x];
    assert [first, x][..1] == [first] && [first][..0] == [];
    assert Execute(sys, []) == sys;
    assert Execute(sys, [first]) == Next(sys, first);
    assert Execute(sys, [first, x]) == Next(Next(sys, first), x);
    assert Execute(sys, [first, x, x]) == Next(Next(Next(sys, first), x), x);
  }

  lemma ReleaseAlone(sys: System, t: nat, email: string, s: nat)
    requires t < |sys.threads| && sys.threads[t] == Thread(Holding, email, Some(s)) && email in sys.published
    requires sys.published[email] == s < |sys.slots| && sys.slots[s].inflight > 0
    ensures Execute(sys, ReleaseSteps(t))
            == SetThread(SetInflight(sys, s, sys.slots[s].inflight - 1), t, Thread(Idle, email, None))
  {
    hide Execute, StepRebuild, BeginAcquire, ToInt32;
    var start, x := Release(t), Advance(t);
    FourSteps(sys, start, x);
    var s1 := SetThread(sys, t, Thread(ReleaseLoad(s), email, Some(s)));
    assert Next(sys, start) == s1;
    var s2 := SetThread(sys, t, Thread(ReleaseCAS(s, sys.slots[s].inflight), email, Some(s)));
    assert Next(s1, x) == s2;
    LastReleaseStep(sys, t, email, s);
    hide Next;
  }

  lemma LastReleaseStep(sys: System, t: nat, email: string, s: nat)
    requires t < |sys.threads| && s < |sys.slots|
    ensures Next(SetThread(sys, t, Thread(ReleaseCAS(s, sys.slots[s].inflight), email, Some(s))), Advance(t))
            == SetThread(SetInflight(sys, s, sys.slots[s].inflight - 1), t, Thread(Idle, email, None))
  {
    hide StepRebuild, BeginRelease, BeginAcquire;
  }

  /** Account "a" alone, with the counter of its one slot and three requests. */
  function Scene(max: int, inflight: int, threads: seq<Thread>): System {
    System([Slot(max, inflight, "a")], map["a" := 0], {0}, threads, None)
  }

  const FREE := Thread(Idle, "", None)
  const DONE := Thread(Idle, "a", None)
  const HELD := Thread(Holding, "a", Some(0))

  /** Two requests hold a slot of maximum two; the maximum becomes one; one request releases. The counter
      says nobody is left, a third request gets in, and two hold a slot of maximum one. */
  lemma ShrinkingLosesTrack()
    ensures exists steps :: var sys := Execute(Initial(3), steps);
              sys.published == map["a" := 0] && sys.slots == [Slot(1, 1, "a")] && Holders(sys, 0) == {1, 2}
  {
    hide Execute;
    var grow, shrink := [Account("a", 2)], [Account("a", 1)];
    var x := AdvanceRebuild;
    FirstPublish(grow);
    var filled := AcquireSteps(0, "a") + AcquireSteps(1, "a");
    FillTwo();
    var swapped := ReleaseSteps(0) + AcquireSteps(2, "a");
    SwapOne();
    var setup, clamp := [StartRebuild(grow)] + [x, x], [StartRebuild(shrink)] + [x, x, x, x];
    ShrinkTo(Scene(2, 2, [HELD, HELD, FREE]), shrink);
    ExecuteTwice(Initial(3), setup, filled);
    ExecuteTwice(Initial(3), setup + filled, clamp);
    ExecuteTwice(Initial(3), setup + filled + clamp, swapped);
    var sys := Execute(Initial(3), setup + filled + clamp + swapped);
    assert sys == Scene(1, 1, [DONE, HELD, HELD]);
    assert Holders(sys, 0) == {1, 2};
  }

  lemma FirstPublish(accounts: seq<Account>)
    requires accounts == [Account("a", 2)]
    ensures Execute(Initial(3), [StartRebuild(accounts)] + [AdvanceRebuild, AdvanceRebuild])
            == Scene(2, 0, [FREE, FREE, FREE])
  {
    var x, start := AdvanceRebuild, StartRebuild(accounts);
    assert [start] + [x, x] == [start] + [x] + [x] && [] + [start] == [start];
    ExecuteMore(Initial(3), [], start);
    ExecuteMore(Initial(3), [start], x);
    ExecuteMore(Initial(3), [start] + [x], x);
    var s1 := Initial(3).(rebuild := Some(Rebuild(accounts, map[], NextAccount)));
    assert Execute(Initial(3), [start]) == s1;
    var s2 := s1.(slots := [Slot(2, 0, "a")], rebuild := Some(Rebuild([], map["a" := 0], NextAccount)));
    assert StepRebuild(s1) == s2;
    assert StepRebuild(s2) == Scene(2, 0, [FREE, FREE, FREE]);
  }

  lemma FillTwo()
    ensures Execute(Scene(2, 0, [FREE, FREE, FREE]), AcquireSteps(0, "a") + AcquireSteps(1, "a"))
            == Scene(2, 2, [HELD, HELD, FREE])
  {
    hide Execute;
    var s0, s1 := Scene(2, 0, [FREE, FREE, FREE]), Scene(2, 1, [HELD, FREE, FREE]);
    AcquireAlone(s0, 0, "a", 0);
    assert Execute(s0, AcquireSteps(0, "a")) == s1;
    AcquireAlone(s1, 1, "a", 0);
    ExecuteTwice(s0, AcquireSteps(0, "a"), AcquireSteps(1, "a"));
  }

  lemma SwapOne()
    ensures Execute(Scene(1, 1, [HELD, HELD, FREE]), ReleaseSteps(0) + AcquireSteps(2, "a"))
            == Scene(1, 1, [DONE, HELD, HELD])
  {
    hide Execute;
    var s0, s1 := Scene(1, 1, [HELD, HELD, FREE]), Scene(1, 0, [DONE, HELD, FREE]);
    ReleaseAlone(s0, 0, "a", 0);
    assert Execute(s0, ReleaseSteps(0)) == s1;
    AcquireAlone(s1, 2, "a", 0);
    ExecuteTwice(s0, ReleaseSteps(0), AcquireSteps(2, "a"));
  }

  lemma ShrinkTo(before: System, accounts: seq<Account>)
    requires before.slots == [Slot(2, 2, "a")] && before.published == map["a" := 0] && before.rebuild.None?
    requires before.everPublished == {0} && accounts == [Account("a", 1)]
    ensures Execute(before, [StartRebuild(accounts)] + [AdvanceRebuild, AdvanceRebuild, AdvanceRebuild, AdvanceRebuild])
            == before.(slots := [Slot(1, 1, "a")])
  {
    var x := AdvanceRebuild;
    var start := StartRebuild(accounts);
    assert [start] + [x, x, x, x] == [start] + [x] + [x] + [x] + [x];
    assert [] + [start] == [start];
    ExecuteMore(before, [], start);
    ExecuteMore(before, [start], x);
    ExecuteMore(before, [start] + [x], x);
    ExecuteMore(before, [start] + [x] + [x], x);
    ExecuteMore(before, [start] + [x] + [x] + [x], x);
    var s1 := before.(rebuild := Some(Rebuild(accounts, map[], NextAccount)));
    assert Execute(before, [start]) == s1;
    var s2 := before.(slots := [Slot(1, 2, "a")], rebuild := Some(Rebuild([], map["a" := 0], ClampLoad(0, 1))));
    assert StepRebuild(s1) == s2;
    var s3 := s2.(rebuild := Some(Rebuild([], map["a" := 0], ClampCAS(0, 1, 2))));
    assert StepRebuild(s2) == s3;
    var s4 := s3.(slots := [Slot(1, 1, "a")], rebuild := Some(Rebuild([], map["a" := 0], NextAccount)));
    assert StepRebuild(s3) == s4;
    assert StepRebuild(s4) == before.(slots := [Slot(1, 1, "a")]);
  }
}
