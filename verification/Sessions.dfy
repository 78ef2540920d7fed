/** Continuation sessions: the session and step tables kept by `persistConversationSession`. A table is a map
    from its primary key; a statement that fails changes nothing. */
module Sessions {
  import opened Wrappers

  datatype Status = Active | Stale | Invalidated

  /** A session row. */
  datatype Session = Session(conversation: string, thread: string, turnCount: int, status: Status)

  /** The tables: sessions by id, and the ids of the configuration by session and step index. */
  datatype Tables = Tables(sessions: map<string, Session>, steps: map<(string, int), string>)

  /** What a turn remembers of the session it continues, as loaded when the turn began. */
  datatype Draft = Draft(session: string, turnCount: int)

  /** Which statements of a turn fail. */
  datatype Faults = Faults(load: bool, mark: bool, save: bool, step: bool)

  const NO_FAULTS := Faults(false, false, false, false)

  /** A turn that has an upstream thread. `generated` is the id drawn for a new session. */
  datatype Turn = Turn(
    conversation: string, thread: string, draft: Option<Draft>, repeat: bool, generated: string, configId: string,
    faults: Faults)

  datatype Event =
    | Persist(turn: Turn, found: Option<string>)
    | Mark(session: string, status: Status)
    | DeleteBy(conversation: string, thread: string)

  // ---------- Statements ----------

  predicate ActiveFor(t: Tables, id: string, conversation: string) {
    id in t.sessions && t.sessions[id].status.Active? && t.sessions[id].conversation == conversation
  }

  /** `found` is an answer of `LoadConversationSessionByConversationID`: some active session, if there is one. */
  predicate Answers(t: Tables, conversation: string, found: Option<string>) {
    match found
    case Some(id) => ActiveFor(t, id, conversation)
    case None => forall id | id in t.sessions :: !ActiveFor(t, id, conversation)
  }

  function MarkStatus(t: Tables, id: string, status: Status): Tables {
    if id in t.sessions then t.(sessions := t.sessions[id := t.sessions[id].(status := status)]) else t
  }

  function SaveSession(t: Tables, id: string, row: Session): Tables {
    t.(sessions := t.sessions[id := row])
  }

  function SaveStep(t: Tables, id: string, index: int, configId: string): Tables {
    t.(steps := t.steps[(id, index) := configId])
  }

  function DeleteRows(t: Tables, conversation: string, thread: string): Tables {
    var gone := set id | id in t.sessions && ((conversation != "" && t.sessions[id].conversation == conversation)
                                               || (thread != "" && t.sessions[id].thread == thread));
    Tables(t.sessions - gone, map key | key in t.steps && key.0 !in gone :: t.steps[key])
  }

  // ---------- A turn ----------

  predicate Continues(turn: Turn) {
    turn.draft.Some? && turn.draft.value.session != ""
  }

  function SessionOf(turn: Turn): string {
    if Continues(turn) then turn.draft.value.session else turn.generated
  }

  predicate AppendsStep(turn: Turn) {
    !(Continues(turn) && turn.repeat)
  }

  function TurnCount(turn: Turn): int {
    var count := if !Continues(turn) then 1
                 else if turn.repeat then turn.draft.value.turnCount
                 else turn.draft.value.turnCount + 1;
    if count < 1 then 1 else count
  }

  /** The rows behind a store handle; `PersistConversationSession` changes them statement by statement. */
  class SessionStore {
    var rows: Tables

    constructor ()
      ensures rows == Tables(map[], map[])
    {
      rows := Tables(map[], map[]);
    }

    /** `found` is what the query for the conversation's active session answers. */
    method PersistConversationSession(turn: Turn, found: Option<string>)
      modifies this
      ensures rows == AfterTurn(old(rows), turn, found)
    {
      var session := turn.generated;
      var turnCount := 1;
      var appendStep := true;
      if turn.draft.Some? && turn.draft.value.session != "" {
        session := turn.draft.value.session;
        if turn.repeat {
          turnCount := turn.draft.value.turnCount;
          appendStep := false;
        } else {
          turnCount := turn.draft.value.turnCount + 1;
        }
        if turnCount < 1 {
          turnCount := 1;
        }
      }
      if !turn.faults.load && found.Some? && found.value != session {
        if !turn.faults.mark {
          rows := MarkStatus(rows, found.value, Stale);
        }
      }
      if turn.faults.save {
        return;
      }
      rows := SaveSession(rows, session, Session(turn.conversation, turn.thread, turnCount, Active));
      if !appendStep {
        return;
      }
      if !turn.faults.step {
        rows := SaveStep(rows, session, turnCount - 1, turn.configId);
      }
    }
  }

  function Retired(t: Tables, turn: Turn, found: Option<string>): Tables {
    if found.Some? && found.value != SessionOf(turn) && !turn.faults.load && !turn.faults.mark
    then MarkStatus(t, found.value, Stale) else t
  }

  function AfterTurn(t: Tables, turn: Turn, found: Option<string>): Tables {
    var retired := Retired(t, turn, found);
    if turn.faults.save then retired
    else
      var saved := SaveSession(retired, SessionOf(turn),
      Session(turn.conversation, turn.thread, TurnCount(turn), Active));
      if AppendsStep(turn) && !turn.faults.step
      then SaveStep(saved, SessionOf(turn), TurnCount(turn) - 1, turn.configId)
      else saved
  }

  function After(t: Tables, event: Event): Tables {
    match event
    case Persist(turn, found) => AfterTurn(t, turn, found)
    case Mark(id, status) => MarkStatus(t, id, status)
    case DeleteBy(conversation, thread) => DeleteRows(t, conversation, thread)
  }

  function AfterAll(t: Tables, events: seq<Event>): Tables {
    if events == [] then t else After(AfterAll(t, events[..|events| - 1]), events[|events| - 1])
  }

  // ---------- What holds ----------

  /** No conversation has two active sessions. */
  ghost predicate OneActive(t: Tables) {
    forall a, b, conversation | ActiveFor(t, a, conversation) && ActiveFor(t, b, conversation) :: a == b
  }

  ghost predicate ExactSteps(t: Tables, id: string) {
    id in t.sessions ==>
      t.sessions[id].turnCount >= 1 && forall k :: (id, k) in t.steps <==> 0 <= k < t.sessions[id].turnCount
  }

  /** The step rows of every session are 0 up to its turn count, and there are no others. */
  ghost predicate StepsMatchTurns(t: Tables) {
    && (forall id | id in t.sessions :: ExactSteps(t, id))
    && (forall key | key in t.steps :: key.0 in t.sessions)
  }

  /** Turns come one at a time: a draft is the session as it is now, and a new id is not in use. */
  predicate Current(t: Tables, turn: Turn) {
    if Continues(turn)
    then SessionOf(turn) in t.sessions && t.sessions[SessionOf(turn)].turnCount == turn.draft.value.turnCount
    else turn.generated != "" && turn.generated !in t.sessions
  }

  predicate Fits(t: Tables, event: Event) {
    match event
    case Persist(turn, found) => Current(t, turn) && Answers(t, turn.conversation, found)
    case Mark(_, status) => !status.Active?
    case DeleteBy(_, _) => true
  }

  /** The session of a turn: the one its draft names, or the one drawn for it. */
  function Own(turn: Turn): string {
    match turn.draft
    case Some(draft) => if |draft.session| > 0 then draft.session else turn.generated
    case None => turn.generated
  }

  /** How many turns the session has had with this one: a repeated turn is not counted again. */
  function TurnsHad(turn: Turn): int {
    if turn.draft.Some? && |turn.draft.value.session| > 0 && turn.draft.value.turnCount >= 1
    then turn.draft.value.turnCount + (if turn.repeat then 0 else 1)
    else 1
  }

  /** Row by row, what a turn writes: its own session, active and with its turns counted, the stale mark on another
      session found active, and the configuration of the step it adds. Nothing else changes. */
  lemma TurnWrites(t: Tables, turn: Turn, found: Option<string>)
    ensures var after, own, turns := AfterTurn(t, turn, found), Own(turn), TurnsHad(turn);
      var retires := found.Some? && found.value != own && !turn.faults.load && !turn.faults.mark;
      var adds := !turn.faults.save && !turn.faults.step
        && (turn.repeat ==> turn.draft.None? || |turn.draft.value.session| == 0);
      && (!turn.faults.save ==>
            own in after.sessions && after.sessions[own] == Session(turn.conversation, turn.thread, turns, Active))
      && (forall id | id != own || turn.faults.save ::
            && (id in after.sessions <==> id in t.sessions)
            && (id in t.sessions ==>
                  var row := t.sessions[id];
                  after.sessions[id] == if retires && id == found.value then row.(status := Stale) else row))
      && (forall key | !(adds && key == (own, turns - 1)) ::
            (key in after.steps <==> key in t.steps) && (key in t.steps ==> after.steps[key] == t.steps[key]))
      && (adds ==> (own, turns - 1) in after.steps && after.steps[(own, turns - 1)] == turn.configId)
  {}

  /** Marking changes the status of that one session, and deleting removes exactly the sessions of the conversation
      and those of the thread, a blank name standing for none, together with their steps. */
  lemma OthersWrite(t: Tables, id: string, status: Status, conversation: string, thread: string)
    ensures var marked := After(t, Mark(id, status));
      && marked.sessions.Keys == t.sessions.Keys && marked.steps == t.steps
      && (forall other | other in t.sessions :: marked.sessions[other] ==
            if other == id then t.sessions[other].(status := status) else t.sessions[other])
    ensures var left := After(t, DeleteBy(conversation, thread));
      && (forall other | other in left.sessions :: other in t.sessions && left.sessions[other] == t.sessions[other])
      && (forall other | other in t.sessions :: other !in left.sessions <==>
            || (|conversation| > 0 && t.sessions[other].conversation == conversation)
            || (|thread| > 0 && t.sessions[other].thread == thread))
      && (forall key | key in left.steps :: key in t.steps && left.steps[key] == t.steps[key])
      && (forall key | key in t.steps :: key in left.steps <==> key.0 !in t.sessions || key.0 in left.sessions)
  {}

  /** A turn leaves one active session per conversation exactly unless the previous one could not be looked
      up or marked and the new one was saved all the same. */
  lemma OneActiveExactly(t: Tables, turn: Turn, found: Option<string>)
    requires OneActive(t) && Current(t, turn) && Answers(t, turn.conversation, found)
    ensures OneActive(AfterTurn(t, turn, found)) <==>
      !(found.Some? && found.value != SessionOf(turn) && (turn.faults.load || turn.faults.mark) && !turn.faults.save)
  {
    var after := AfterTurn(t, turn, found);
    if found.Some? && found.value != SessionOf(turn) && (turn.faults.load || turn.faults.mark) && !turn.faults.save {
      assert ActiveFor(after, found.value, turn.conversation) && ActiveFor(after, SessionOf(turn), turn.conversation);
    } else {
      forall a, b, conversation | ActiveFor(after, a, conversation) && ActiveFor(after, b, conversation)
        ensures a == b {
        StillActive(t, turn, found, a, conversation);
        StillActive(t, turn, found, b, conversation);
      }
    }
  }

  /** An active session was active before, or is the one just saved. */
  lemma StillActive(t: Tables, turn: Turn, found: Option<string>, id: string, conversation: string)
    requires ActiveFor(AfterTurn(t, turn, found), id, conversation)
    ensures id == SessionOf(turn)
      || (ActiveFor(t, id, conversation) && ActiveFor(Retired(t, turn, found), id, conversation))
    ensures id == SessionOf(turn) && !turn.faults.save ==> conversation == turn.conversation
    ensures turn.faults.save ==> ActiveFor(t, id, conversation)
  {}

  /** A turn keeps the step rows exact, unless exactly its step row is missing: the session was saved, a step
      was due and its statement failed. A repeated turn adds none. */
  lemma StepsExactly(t: Tables, turn: Turn, found: Option<string>)
    requires StepsMatchTurns(t) && Current(t, turn)
    ensures StepsMatchTurns(AfterTurn(t, turn, found)) <==>
      turn.faults.save || !AppendsStep(turn) || !turn.faults.step
    ensures Continues(turn) && turn.repeat ==> AfterTurn(t, turn, found).steps == t.steps
  {
    var after, own := AfterTurn(t, turn, found), SessionOf(turn);
    assert own !in t.sessions ==> forall k :: (own, k) !in t.steps;
    assert own in t.sessions ==> ExactSteps(t, own);
    forall id | id in after.sessions && id != own ensures ExactSteps(after, id) {
      assert ExactSteps(t, id);
    }
    if !turn.faults.save && AppendsStep(turn) && turn.faults.step {
      assert (own, TurnCount(turn) - 1) !in after.steps && !ExactSteps(after, own);
    } else {
      assert ExactSteps(after, own);
    }
  }

  /** Marking and deleting keep both. */
  lemma OthersKeep(t: Tables, event: Event)
    requires OneActive(t) && StepsMatchTurns(t) && Fits(t, event) && !event.Persist?
    ensures OneActive(After(t, event)) && StepsMatchTurns(After(t, event))
  {
    var after := After(t, event);
    forall a, b, conversation | ActiveFor(after, a, conversation) && ActiveFor(after, b, conversation) ensures a == b {
      assert ActiveFor(t, a, conversation) && ActiveFor(t, b, conversation);
    }
    forall id | id in after.sessions ensures ExactSteps(after, id) {
      assert ExactSteps(t, id);
    }
  }

  predicate AllFit(t: Tables, events: seq<Event>) {
    forall i | 0 <= i < |events| :: Fits(AfterAll(t, events[..i]), events[i])
  }

  predicate NoFaults(events: seq<Event>) {
    forall i | 0 <= i < |events| && events[i].Persist? :: events[i].turn.faults == NO_FAULTS
  }

  /** Over any run of turns, invalidations and deletions whose statements succeed, every conversation has at
      most one active session and every session exactly the step rows 0 to its turn count less one. */
  lemma {:induction false} SessionsStayExact(events: seq<Event>)
    requires AllFit(Tables(map[], map[]), events) && NoFaults(events)
    ensures OneActive(AfterAll(Tables(map[], map[]), events))
    ensures StepsMatchTurns(AfterAll(Tables(map[], map[]), events))
  {
    if events != [] {
      var start, front, event := Tables(map[], map[]), events[..|events| - 1], events[|events| - 1];
      hide OneActive, StepsMatchTurns, After, Fits;
      assert Fits(AfterAll(start, events[..|events| - 1]), event);
      assert AllFit(start, front) by {
        assert forall i | 0 <= i < |front| :: front[..i] == events[..i];
      }
      SessionsStayExact(front);
      var t := AfterAll(start, front);
      match event
      case Persist(turn, found) => TurnKeeps(t, turn, found);
      case _ => OthersKeep(t, event);
    }
  }

  lemma TurnKeeps(t: Tables, turn: Turn, found: Option<string>)
    requires OneActive(t) && StepsMatchTurns(t) && Fits(t, Persist(turn, found)) && turn.faults == NO_FAULTS
    ensures OneActive(After(t, Persist(turn, found))) && StepsMatchTurns(After(t, Persist(turn, found)))
  {
    OneActiveExactly(t, turn, found);
    StepsExactly(t, turn, found);
  }
}
