/** Dispatch slots: per-account counters acquired and released by compare-and-swap while the table of
    slots is rebuilt and republished. Every atomic access is one step. */
module DispatchSlots {
  import opened Wrappers

  // ---------- State ----------

  /** An `accountSlot`. `email` is the key it was created under; it never changes. */
  datatype Slot = Slot(max: int, inflight: int, email: string)

  datatype PC =
    | Idle
    | LoadMax(slot: nat)
    | LoadInflight(slot: nat, max: int)
    | AcquireCAS(slot: nat, loaded: int)
    | Holding
    | ReleaseLoad(slot: nat)
    | ReleaseCAS(slot: nat, loaded: int)

  /** A request: what it does next, for which account, and the slot whose acquisition it still owns. */
  datatype Thread = Thread(pc: PC, email: string, holds: Option<nat>)

  datatype Account = Account(email: string, maxConcurrency: int)

  datatype Phase = NextAccount | ClampLoad(slot: nat, max: int) | ClampCAS(slot: nat, max: int, loaded: int)

  /** `rebuildAccountSlotsLocked` under way. The lock admits one at a time. */
  datatype Rebuild = Rebuild(todo: seq<Account>, next: map<string, nat>, phase: Phase)

  datatype System = System(
    slots: seq<Slot>,
    published: map<string, nat>,
    everPublished: set<nat>,
    threads: seq<Thread>,
    rebuild: Option<Rebuild>)

  // ---------- Steps ----------

  /** Conversion to a 32-bit integer. */
  function ToInt32(n: int): (r: int)
    ensures -0x8000_0000 <= r < 0x8000_0000
    ensures -0x8000_0000 <= n < 0x8000_0000 ==> r == n
  {
    (n + 0x8000_0000) % 0x1_0000_0000 - 0x8000_0000
  }

  function NormalizeMax(raw: int): int {
    ToInt32(if raw <= 0 then 1 else raw)
  }

  /** Every reader takes a maximum below one for one. */
  function Effective(max: int): (r: int)
    ensures r >= 1
  {
    if max <= 0 then 1 else max
  }

  function SetThread(sys: System, t: nat, thread: Thread): System
    requires t < |sys.threads|
  {
    sys.(threads := sys.threads[t := thread])
  }

  function SetInflight(sys: System, s: nat, inflight: int): System
    requires s < |sys.slots|
  {
    sys.(slots := sys.slots[s := sys.slots[s].(inflight := inflight)])
  }

  function Goto(sys: System, t: nat, pc: PC): System
    requires t < |sys.threads|
  {
    SetThread(sys, t, sys.threads[t].(pc := pc))
  }

  datatype Step =
    | Acquire(t: nat, email: string)
    | Release(t: nat)
    | Advance(t: nat)
    | StartRebuild(accounts: seq<Account>)
    | AdvanceRebuild

  /** `TryAcquireAccountDispatchSlot` from its map load on. */
  function BeginAcquire(sys: System, t: nat, email: string): System
    requires t < |sys.threads|
  {
    if email != "" && email in sys.published
    then SetThread(sys, t, Thread(LoadMax(sys.published[email]), email, None))
    else sys
  }

  /** `ReleaseAccountDispatchSlot` from its map load on: it looks the account up again. */
  function BeginRelease(sys: System, t: nat): System
    requires t < |sys.threads|
  {
    var email := sys.threads[t].email;
    if email in sys.published then Goto(sys, t, ReleaseLoad(sys.published[email]))
    else SetThread(sys, t, Thread(Idle, email, None))
  }

  function AdvanceThread(sys: System, t: nat): System
    requires t < |sys.threads|
  {
    var th := sys.threads[t];
    match th.pc
    case LoadMax(s) =>
      if s < |sys.slots| then Goto(sys, t, LoadInflight(s, Effective(sys.slots[s].max))) else sys
    case LoadInflight(s, max) =>
      if s >= |sys.slots| then sys
      else if sys.slots[s].inflight >= max then Goto(sys, t, Idle)
      else Goto(sys, t, AcquireCAS(s, sys.slots[s].inflight))
    case AcquireCAS(s, loaded) =>
      if s >= |sys.slots| then sys
      else if sys.slots[s].inflight == loaded then
        SetThread(SetInflight(sys, s, loaded + 1), t, Thread(Holding, th.email, Some(s)))
      else Goto(sys, t, LoadMax(s))
    case ReleaseLoad(s) =>
      if s >= |sys.slots| then sys
      else if sys.slots[s].inflight <= 0 then SetThread(sys, t, Thread(Idle, th.email, None))
      else Goto(sys, t, ReleaseCAS(s, sys.slots[s].inflight))
    case ReleaseCAS(s, loaded) =>
      if s >= |sys.slots| then sys
      else if sys.slots[s].inflight == loaded then
        SetThread(SetInflight(sys, s, loaded - 1), t, Thread(Idle, th.email, None))
      else Goto(sys, t, ReleaseLoad(s))
    case _ => sys
  }

  function StepRebuild(sys: System): System
    requires sys.rebuild.Some?
  {
    var rb := sys.rebuild.value;
    match rb.phase
    case NextAccount =>
      if rb.todo == [] then
        sys.(published := rb.next, everPublished := sys.everPublished + rb.next.Values, rebuild := None)
      else
        var account, rest := rb.todo[0], rb.(todo := rb.todo[1..]);
        var max := NormalizeMax(account.maxConcurrency);
        if account.email == "" then sys.(rebuild := Some(rest))
        else if account.email in sys.published && sys.published[account.email] < |sys.slots| then
          var s := sys.published[account.email];
          sys.(slots := sys.slots[s := sys.slots[s].(max := max)],
               rebuild := Some(rest.(next := rb.next[account.email := s], phase := ClampLoad(s, Effective(max)))))
        else
          sys.(slots := sys.slots + [Slot(max, 0, account.email)],
               rebuild := Some(rest.(next := rb.next[account.email := |sys.slots|])))
    case ClampLoad(s, max) =>
      if s >= |sys.slots| then sys
      else if sys.slots[s].inflight < 0 || sys.slots[s].inflight > max then
        sys.(rebuild := Some(rb.(phase := ClampCAS(s, max, sys.slots[s].inflight))))
      else sys.(rebuild := Some(rb.(phase := NextAccount)))
    case ClampCAS(s, max, loaded) =>
      if s >= |sys.slots| then sys
      else if sys.slots[s].inflight == loaded then
        SetInflight(sys, s, if loaded < 0 then 0 else max).(rebuild := Some(rb.(phase := NextAccount)))
      else sys.(rebuild := Some(rb.(phase := ClampLoad(s, max))))
  }

  predicate Enabled(sys: System, step: Step) {
    match step
    case Acquire(t, _) => t < |sys.threads| && sys.threads[t].pc.Idle?
    case Release(t) => t < |sys.threads| && sys.threads[t].pc.Holding?
    case Advance(t) => t < |sys.threads|
    case StartRebuild(_) => sys.rebuild.None?
    case AdvanceRebuild => sys.rebuild.Some?
  }

  function Next(sys: System, step: Step): System {
    if !Enabled(sys, step) then sys
    else match step
      case Acquire(t, email) => BeginAcquire(sys, t, email)
      case Release(t) => BeginRelease(sys, t)
      case Advance(t) => AdvanceThread(sys, t)
      case StartRebuild(accounts) => sys.(rebuild := Some(Rebuild(accounts, map[], NextAccount)))
      case AdvanceRebuild => StepRebuild(sys)
  }

  function Initial(requests: nat): System {
    System([], map[], {}, seq(requests, _ => Thread(Idle, "", None)), None)
  }

  function Execute(sys: System, steps: seq<Step>): System {
    if steps == [] then sys else Next(Execute(sys, steps[..|steps| - 1]), steps[|steps| - 1])
  }

  // ---------- The invariant ----------

  /** The requests that acquired on slot `s` and have not released. */
  function Holders(sys: System, s: nat): set<nat> {
    set t | 0 <= t < |sys.threads| && sys.threads[t].holds == Some(s)
  }

  predicate InUse(sys: System, s: nat) {
    s in sys.published.Values || (sys.rebuild.Some? && s in sys.rebuild.value.next.Values)
  }

  function SlotOf(pc: PC): Option<nat> {
    match pc
    case Idle => None
    case LoadMax(s) => Some(s)
    case LoadInflight(s, _) => Some(s)
    case AcquireCAS(s, _) => Some(s)
    case Holding => None
    case ReleaseLoad(s) => Some(s)
    case ReleaseCAS(s, _) => Some(s)
  }

  predicate IsRelease(pc: PC) {
    pc.ReleaseLoad? || pc.ReleaseCAS?
  }

  /** A slot known to a request was published once, under the request's account. */
  predicate Known(sys: System, s: nat, email: string) {
    s < |sys.slots| && s in sys.everPublished && sys.slots[s].email == email
  }

  predicate ThreadOK(sys: System, th: Thread) {
    && (th.holds.Some? <==> th.pc.Holding? || IsRelease(th.pc))
    && (th.holds.Some? ==> Known(sys, th.holds.value, th.email))
    && (SlotOf(th.pc).Some? ==> Known(sys, SlotOf(th.pc).value, th.email))
    && (th.pc.ReleaseCAS? ==> th.pc.loaded > 0)
    // A release that works on another slot than it acquired on has left its own slot unpublished for good.
    && (IsRelease(th.pc) && SlotOf(th.pc) != th.holds ==> !InUse(sys, th.holds.value))
  }

  predicate TableOK(sys: System) {
    && sys.published.Values <= sys.everPublished
    && (forall s | s in sys.everPublished :: s < |sys.slots|)
    && (forall email | email in sys.published ::
          email != "" && sys.published[email] < |sys.slots| && sys.slots[sys.published[email]].email == email)
    && (sys.rebuild.Some? ==>
          forall email | email in sys.rebuild.value.next ::
            var s := sys.rebuild.value.next[email];
            && email != "" && s < |sys.slots| && sys.slots[s].email == email
            && if email in sys.published then s == sys.published[email]
               else s !in sys.everPublished && sys.slots[s].inflight == 0)
    && (sys.rebuild.Some? && sys.rebuild.value.phase.ClampLoad? ==>
          sys.rebuild.value.phase.slot in sys.published.Values && sys.rebuild.value.phase.max >= 1)
    && (sys.rebuild.Some? && sys.rebuild.value.phase.ClampCAS? ==>
          && sys.rebuild.value.phase.slot in sys.published.Values && sys.rebuild.value.phase.max >= 1
          && (sys.rebuild.value.phase.loaded < 0 || sys.rebuild.value.phase.loaded > sys.rebuild.value.phase.max))
  }

  /** The counter never says more than there are holders. */
  predicate NoOvercount(sys: System, s: nat)
    requires s < |sys.slots|
  {
    0 <= sys.slots[s].inflight <= |Holders(sys, s)|
  }

  ghost predicate Inv(sys: System) {
    && TableOK(sys)
    && (forall t | 0 <= t < |sys.threads| :: ThreadOK(sys, sys.threads[t]))
    && (forall s: nat | InUse(sys, s) :: s < |sys.slots| && NoOvercount(sys, s))
  }

  lemma HoldersAfter(sys: System, t: nat, thread: Thread, s: nat)
    requires t < |sys.threads|
    ensures var before, after := Holders(sys, s), Holders(SetThread(sys, t, thread), s);
            after == if thread.holds == Some(s) then before + {t} else before - {t}
    ensures var before, after := Holders(sys, s), Holders(SetThread(sys, t, thread), s);
            |after| == |before| + (if thread.holds == Some(s) then 1 else 0)
                       - (if sys.threads[t].holds == Some(s) then 1 else 0)
  {
    var before, after := Holders(sys, s), Holders(SetThread(sys, t, thread), s);
    assert t in before <==> sys.threads[t].holds == Some(s);
    assert after == if thread.holds == Some(s) then before + {t} else before - {t};
  }

  /** A step of one request that changes at most one counter. */
  lemma ThreadStepInv(sys: System, t: nat, thread: Thread, s: nat, inflight: int)
    requires Inv(sys) && t < |sys.threads| && s < |sys.slots|
    requires ThreadOK(sys, thread)
    requires sys.slots[s].inflight != inflight ==> s in sys.everPublished
    // The changed counter stays within its holders, and every other slot in use keeps its holders.
    requires InUse(sys, s) ==>
               0 <= inflight <= |Holders(sys, s)| + (if thread.holds == Some(s) then 1 else 0)
                               - (if sys.threads[t].holds == Some(s) then 1 else 0)
    requires sys.threads[t].holds.Some? && sys.threads[t].holds != Some(s) && thread.holds != sys.threads[t].holds ==>
               !InUse(sys, sys.threads[t].holds.value)
    ensures Inv(SetThread(SetInflight(sys, s, inflight), t, thread))
  {
    var after := SetThread(SetInflight(sys, s, inflight), t, thread);
    forall u | 0 <= u < |after.threads| ensures ThreadOK(after, after.threads[u]) {
      assert ThreadOK(sys, if u == t then thread else sys.threads[u]);
    }
    forall v: nat | InUse(after, v) ensures v < |after.slots| && NoOvercount(after, v) {
      assert InUse(sys, v);
      HoldersAfter(sys, t, thread, v);
      assert Holders(after, v) == Holders(SetThread(sys, t, thread), v);
    }
    assert TableOK(after);
  }

  lemma SameCounters(sys: System, s: nat)
    requires s < |sys.slots|
    ensures SetInflight(sys, s, sys.slots[s].inflight) == sys
  {
    assert sys.slots[s := sys.slots[s]] == sys.slots;
  }

  /** The table gives every account its own slot. */
  lemma OwnSlot(sys: System, s: nat, email: string)
    requires TableOK(sys) && s < |sys.slots| && sys.slots[s].email == email && s in sys.everPublished
    ensures InUse(sys, s) ==> email in sys.published && sys.published[email] == s
  {
    if sys.rebuild.Some? {
      var next := sys.rebuild.value.next;
      forall e | e in next && next[e] == s ensures s in sys.published.Values {
        assert e in sys.published;
      }
    }
    if s in sys.published.Values {
      var e :| e in sys.published && sys.published[e] == s;
    }
  }

  lemma AcquireInv(sys: System, t: nat, email: string)
    requires Inv(sys) && t < |sys.threads| && sys.threads[t].pc.Idle?
    ensures Inv(BeginAcquire(sys, t, email))
  {
    hide NoOvercount, Holders;
    if email != "" && email in sys.published {
      var s := sys.published[email];
      assert InUse(sys, s) && NoOvercount(sys, s);
      SameCounters(sys, s);
      assert ThreadOK(sys, sys.threads[t]);
      Unfold(sys, s);
      ThreadStepInv(sys, t, Thread(LoadMax(s), email, None), s, sys.slots[s].inflight);
    }
  }

  lemma Unfold(sys: System, s: nat)
    requires s < |sys.slots| && NoOvercount(sys, s)
    ensures 0 <= sys.slots[s].inflight <= |Holders(sys, s)|
  {
  }

  lemma ReleaseInv(sys: System, t: nat)
    requires Inv(sys) && t < |sys.threads| && sys.threads[t].pc.Holding?
    ensures Inv(BeginRelease(sys, t))
  {
    hide NoOvercount, Holders;
    var th := sys.threads[t];
    assert ThreadOK(sys, th);
    var s := th.holds.value;
    OwnSlot(sys, s, th.email);
    if InUse(sys, s) { Unfold(sys, s); }
    SameCounters(sys, s);
    if th.email in sys.published {
      var u := sys.published[th.email];
      assert u in sys.published.Values;
      ThreadStepInv(sys, t, th.(pc := ReleaseLoad(u)), s, sys.slots[s].inflight);
    } else {
      ThreadStepInv(sys, t, Thread(Idle, th.email, None), s, sys.slots[s].inflight);
    }
  }

  lemma AdvanceInv(sys: System, t: nat)
    requires Inv(sys) && t < |sys.threads|
    ensures Inv(AdvanceThread(sys, t))
  {
    hide NoOvercount, InUse;
    var th := sys.threads[t];
    assert ThreadOK(sys, th);
    if SlotOf(th.pc).Some? {
      var s := SlotOf(th.pc).value;
      if InUse(sys, s) { Unfold(sys, s); }
      if th.holds.Some? { HolderIsCounted(sys, t); }
      SameCounters(sys, s);
      var inflight := sys.slots[s].inflight;
      match th.pc
      case LoadMax(_) => ThreadStepInv(sys, t, th.(pc := LoadInflight(s, Effective(sys.slots[s].max))), s, inflight);
      case LoadInflight(_, max) =>
        ThreadStepInv(sys, t, th.(pc := if inflight >= max then Idle else AcquireCAS(s, inflight)), s, inflight);
      case AcquireCAS(_, loaded) =>
        if inflight == loaded {
          ThreadStepInv(sys, t, Thread(Holding, th.email, Some(s)), s, loaded + 1);
        } else {
          ThreadStepInv(sys, t, th.(pc := LoadMax(s)), s, inflight);
        }
      case ReleaseLoad(_) =>
        if inflight <= 0 {
          ThreadStepInv(sys, t, Thread(Idle, th.email, None), s, inflight);
        } else {
          ThreadStepInv(sys, t, th.(pc := ReleaseCAS(s, inflight)), s, inflight);
        }
      case ReleaseCAS(_, loaded) =>
        if inflight == loaded {
          ThreadStepInv(sys, t, Thread(Idle, th.email, None), s, loaded - 1);
        } else {
          ThreadStepInv(sys, t, th.(pc := ReleaseLoad(s)), s, inflight);
        }
    }
  }

  lemma HolderIsCounted(sys: System, t: nat)
    requires t < |sys.threads| && sys.threads[t].holds.Some?
    ensures |Holders(sys, sys.threads[t].holds.value)| >= 1
  {
    assert t in Holders(sys, sys.threads[t].holds.value);
  }

  /** A rebuild step leaves every request alone; what it puts in use was in use or was never seen. */
  lemma RebuildInv(sys: System)
    requires Inv(sys) && sys.rebuild.Some?
    ensures Inv(StepRebuild(sys))
  {
    var rb := sys.rebuild.value;
    match rb.phase
    case NextAccount =>
      if rb.todo == [] {
        PublishInv(sys);
      } else if rb.todo[0].email == "" {
        SameUseInv(sys, StepRebuild(sys));
      } else if rb.todo[0].email in sys.published {
        KeepSlotInv(sys);
      } else {
        NewSlotInv(sys);
      }
    case ClampLoad(_, _) => SameUseInv(sys, StepRebuild(sys));
    case ClampCAS(s, max, loaded) =>
      if sys.slots[s].inflight == loaded {
        assert InUse(sys, s);
        ClampInv(sys, s, max);
      } else {
        SameUseInv(sys, StepRebuild(sys));
      }
  }

  /** Nothing but the phase and the list of accounts changed. */
  lemma SameUseInv(sys: System, after: System)
    requires Inv(sys) && TableOK(after)
    requires after.threads == sys.threads && after.slots == sys.slots
    requires after.published == sys.published && after.everPublished == sys.everPublished
    requires sys.rebuild.Some? && after.rebuild.Some? && after.rebuild.value.next == sys.rebuild.value.next
    ensures Inv(after)
  {
    hide TableOK;
    forall s: nat ensures InUse(after, s) == InUse(sys, s) && Holders(after, s) == Holders(sys, s) {
    }
    forall t | 0 <= t < |after.threads| ensures ThreadOK(after, after.threads[t]) {
      assert ThreadOK(sys, sys.threads[t]);
    }
  }

  lemma ClampInv(sys: System, s: nat, max: int)
    requires Inv(sys) && sys.rebuild.Some? && sys.rebuild.value.phase.ClampCAS?
    requires s < |sys.slots| && sys.rebuild.value.phase == ClampCAS(s, max, sys.slots[s].inflight)
    ensures Inv(StepRebuild(sys))
  {
    var after := StepRebuild(sys);
    assert InUse(sys, s) && NoOvercount(sys, s);
    forall v: nat ensures InUse(after, v) == InUse(sys, v) && Holders(after, v) == Holders(sys, v) {
    }
    forall t | 0 <= t < |after.threads| ensures ThreadOK(after, after.threads[t]) {
      assert ThreadOK(sys, sys.threads[t]);
    }
    assert TableOK(after);
  }

  lemma KeepSlotInv(sys: System)
    requires Inv(sys) && sys.rebuild.Some? && sys.rebuild.value.phase.NextAccount?
    requires var todo := sys.rebuild.value.todo; todo != [] && todo[0].email != "" && todo[0].email in sys.published
    ensures Inv(StepRebuild(sys))
  {
    var after := StepRebuild(sys);
    var email := sys.rebuild.value.todo[0].email;
    var s := sys.published[email];
    assert s in sys.published.Values;
    forall v: nat ensures InUse(after, v) ==> InUse(sys, v) {
      if after.rebuild.Some? && v in after.rebuild.value.next.Values {
        var e :| e in after.rebuild.value.next && after.rebuild.value.next[e] == v;
        assert e != email ==> v in sys.rebuild.value.next.Values;
      }
    }
    CarryOver(sys, after);
  }

  lemma NewSlotInv(sys: System)
    requires Inv(sys) && sys.rebuild.Some? && sys.rebuild.value.phase.NextAccount?
    requires var todo := sys.rebuild.value.todo; todo != [] && todo[0].email != "" && todo[0].email !in sys.published
    ensures Inv(StepRebuild(sys))
  {
    var after := StepRebuild(sys);
    var email := sys.rebuild.value.todo[0].email;
    var newSlot := |sys.slots|;
    forall v: nat ensures InUse(after, v) ==> InUse(sys, v) || v == newSlot {
      if after.rebuild.Some? && v in after.rebuild.value.next.Values {
        var e :| e in after.rebuild.value.next && after.rebuild.value.next[e] == v;
        assert e != email ==> v in sys.rebuild.value.next.Values;
      }
    }
    CarryOver(sys, after);
  }

  lemma PublishInv(sys: System)
    requires Inv(sys) && sys.rebuild.Some? && sys.rebuild.value.phase.NextAccount? && sys.rebuild.value.todo == []
    ensures Inv(StepRebuild(sys))
  {
    CarryOver(sys, StepRebuild(sys));
  }

  /** The requests did not move, counters in use did not change, and slots newly in use start at zero. */
  lemma CarryOver(sys: System, after: System)
    requires Inv(sys) && TableOK(after)
    requires after.threads == sys.threads && |sys.slots| <= |after.slots| && sys.everPublished <= after.everPublished
    requires forall s: nat | s < |sys.slots| ::
               after.slots[s].email == sys.slots[s].email && after.slots[s].inflight == sys.slots[s].inflight
    requires forall s: nat | InUse(after, s) && !InUse(sys, s) ::
               |sys.slots| <= s < |after.slots| && after.slots[s].inflight == 0
    ensures Inv(after)
  {
    forall t | 0 <= t < |after.threads| ensures ThreadOK(after, after.threads[t]) {
      assert ThreadOK(sys, sys.threads[t]);
    }
    forall s: nat | InUse(after, s) ensures s < |after.slots| && NoOvercount(after, s) {
      assert Holders(after, s) == Holders(sys, s);
    }
  }

  lemma InitialInv(requests: nat)
    ensures Inv(Initial(requests))
  {
  }

  lemma NextInv(sys: System, step: Step)
    requires Inv(sys)
    ensures Inv(Next(sys, step))
  {
    hide Inv, BeginAcquire, BeginRelease, AdvanceThread, StepRebuild;
    if Enabled(sys, step) {
      match step
      case Acquire(t, email) => AcquireInv(sys, t, email);
      case Release(t) => ReleaseInv(sys, t);
      case Advance(t) => AdvanceInv(sys, t);
      case StartRebuild(accounts) => StartRebuildInv(sys, accounts);
      case AdvanceRebuild => RebuildInv(sys);
    }
  }

  lemma StartRebuildInv(sys: System, accounts: seq<Account>)
    requires Inv(sys) && sys.rebuild.None?
    ensures Inv(sys.(rebuild := Some(Rebuild(accounts, map[], NextAccount))))
  {
    CarryOver(sys, sys.(rebuild := Some(Rebuild(accounts, map[], NextAccount))));
  }

  lemma {:induction false} ExecuteInv(requests: nat, steps: seq<Step>)
    ensures Inv(Execute(Initial(requests), steps))
  {
    hide Inv, Next;
    if steps == [] {
      InitialInv(requests);
    } else {
      ExecuteInv(requests, steps[..|steps| - 1]);
      NextInv(Execute(Initial(requests), steps[..|steps| - 1]), steps[|steps| - 1]);
    }
  }

  /** In every interleaving of acquires, releases and rebuilds, a published counter lies between zero and
      the number of its holders; once they have all released it is zero. */
  lemma NeverOvercounts(requests: nat, steps: seq<Step>, email: string)
    ensures var sys := Execute(Initial(requests), steps);
            email in sys.published ==>
              var s := sys.published[email];
              s < |sys.slots| && 0 <= sys.slots[s].inflight <= |Holders(sys, s)|
              && (Holders(sys, s) == {} ==> sys.slots[s].inflight == 0)
  {
    hide Execute;
    ExecuteInv(requests, steps);
    var sys := Execute(Initial(requests), steps);
    if email in sys.published {
      assert InUse(sys, sys.published[email]);
    }
  }

  // ---------- Undisturbed runs ----------

  /** A maximum in the range of 32 bits counts as it is, one below one as one; the first beyond the range wraps to a
      negative number and so counts as one. */
  lemma MaximumCounts(raw: int)
    ensures 1 <= raw <= 0x7FFF_FFFF ==> NormalizeMax(raw) == Effective(NormalizeMax(raw)) == raw
    ensures raw < 1 ==> NormalizeMax(raw) == Effective(NormalizeMax(raw)) == 1
    ensures raw == 0x8000_0000 ==> NormalizeMax(raw) < 0 && Effective(NormalizeMax(raw)) == 1
  {}

  /** An acquisition that nobody disturbs takes a place exactly if the account has a slot with one left, and counts
      one more; otherwise it changes no counter and holds nothing. */
  lemma UndisturbedAcquire(sys: System, t: nat, email: string)
    requires Inv(sys) && t < |sys.threads| && sys.threads[t].pc.Idle?
    ensures var a := Next(sys, Acquire(t, email)); var b := Next(a, Advance(t)); var c := Next(b, Advance(t));
      var after := Next(c, Advance(t));
      if email == "" || email !in sys.published then after == sys
      else
        var s := sys.published[email]; var slot := sys.slots[s];
        if slot.inflight < 1 || slot.inflight < slot.max then
          after == sys.(slots := sys.slots[s := slot.(inflight := slot.inflight + 1)],
                        threads := sys.threads[t := Thread(Holding, email, Some(s))])
        else after == sys.(threads := sys.threads[t := Thread(Idle, email, None)])
  {
    hide Inv, NoOvercount, Holders;
    InvTable(sys);
  }

  lemma InvTable(sys: System)
    requires Inv(sys)
    ensures forall email | email in sys.published :: sys.published[email] < |sys.slots|
  {}

  /** A release that nobody disturbs counts one less on the slot its account has now, but never below zero. */
  lemma UndisturbedRelease(sys: System, t: nat)
    requires Inv(sys) && t < |sys.threads| && sys.threads[t].pc.Holding?
    ensures var email := sys.threads[t].email;
      var a := Next(sys, Release(t)); var b := Next(a, Advance(t)); var after := Next(b, Advance(t));
      && after.threads == sys.threads[t := Thread(Idle, email, None)]
      && (if email !in sys.published then after.slots == sys.slots
          else
            var s := sys.published[email]; var slot := sys.slots[s];
            var left := if slot.inflight > 0 then slot.inflight - 1 else slot.inflight;
            after.slots == sys.slots[s := slot.(inflight := left)])
  {
    hide Inv, NoOvercount, Holders;
    InvTable(sys);
  }

  /** The account next in a rebuild that nobody disturbs: its slot is kept with the new maximum and at most that many
      in flight, or a new one is made, empty; an account without a key has none. */
  lemma UndisturbedRebuild(sys: System) returns (after: System)
    requires Inv(sys) && sys.rebuild.Some? && sys.rebuild.value.phase.NextAccount? && sys.rebuild.value.todo != []
    ensures var a := Next(sys, AdvanceRebuild); var b := Next(a, AdvanceRebuild); var c := Next(b, AdvanceRebuild);
      after == a || after == b || after == c
    ensures var rb := sys.rebuild.value; var account := rb.todo[0];
      after.published == sys.published && after.threads == sys.threads && after.rebuild.Some?
      && after.rebuild.value.todo == rb.todo[1..] && after.rebuild.value.phase.NextAccount?
      && var max := NormalizeMax(account.maxConcurrency);
      if account.email == "" then after.rebuild.value.next == rb.next && after.slots == sys.slots
      else if account.email in sys.published then
        var s := sys.published[account.email]; var slot := sys.slots[s];
        && after.rebuild.value.next == rb.next[account.email := s]
        && var kept := if slot.inflight > Effective(max) then Effective(max) else slot.inflight;
        after.slots == sys.slots[s := Slot(max, kept, slot.email)]
      else
        && after.rebuild.value.next == rb.next[account.email := |sys.slots|]
        && after.slots == sys.slots + [Slot(max, 0, account.email)]
  {
    hide NoOvercount, Holders;
    var account := sys.rebuild.value.todo[0];
    after := Next(sys, AdvanceRebuild);
    if account.email != "" && account.email in sys.published {
      var s := sys.published[account.email];
      CounterNotNegative(sys, account.email);
      var max := NormalizeMax(account.maxConcurrency);
      after := Next(after, AdvanceRebuild);
      if sys.slots[s].inflight > Effective(max) { after := Next(after, AdvanceRebuild); }
    }
  }

  lemma CounterNotNegative(sys: System, email: string)
    requires Inv(sys) && email in sys.published
    ensures sys.published[email] < |sys.slots| && sys.slots[sys.published[email]].inflight >= 0
  {
    assert InUse(sys, sys.published[email]);
    assert NoOvercount(sys, sys.published[email]);
  }

  /** At the end the new table is published, all at once. */
  lemma RebuildPublishes(sys: System)
    requires sys.rebuild.Some? && sys.rebuild.value.phase.NextAccount? && sys.rebuild.value.todo == []
    ensures var after := Next(sys, AdvanceRebuild);
      after.published == sys.rebuild.value.next && after.rebuild.None? && after.slots == sys.slots
      && after.threads == sys.threads
  {}
}
