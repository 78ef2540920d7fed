/** What a stored response is answered with, and for how long: told from the operations alone. */
module ResponseLife {
  import opened Wrappers
  import opened Strings
  import opened ResponseStore

  /** The time to live after the operations; one that is not positive counts as a second. */
  function TTLAfter(ttl: int, ops: seq<Op>): int {
    if ops == [] then ttl
    else
      var last := ops[|ops| - 1];
      if last.SetTTLOp? then (if last.ttl <= 0 then 1_000_000_000 else last.ttl)
      else TTLAfter(ttl, ops[..|ops| - 1])
  }

  /** The operation writes a response under `id`, or all of them. */
  predicate Rewrites(op: Op, id: string) {
    op.ReplaceOp? || (op.SaveOp? && TrimSpace(op.id) == id)
  }

  /** The operation prunes, and a response created then has outlived `ttl`. */
  predicate PrunesAway(op: Op, ttl: int, created: Time) {
    && (op.PruneOp? || (op.SaveOp? && TrimSpace(op.id) != "") || (op.GetOp? && TrimSpace(op.id) != ""))
    && op.now > created + ttl
  }

  /** The operation deletes by the conversation or the thread that the response was saved under. */
  predicate DeletesBy(op: Op, record: StoredResponse) {
    op.DeleteOp?
    && var conversation, thread := TrimSpace(op.conversation), TrimSpace(op.thread);
      || (conversation != "" && conversation == TrimSpace(record.conversationID))
      || (thread != "" && thread == TrimSpace(record.threadID))
  }

  /** Some operation ends the response. */
  predicate Ended(ttl: int, record: StoredResponse, ops: seq<Op>) {
    exists i | 0 <= i < |ops| ::
      DeletesBy(ops[i], record) || PrunesAway(ops[i], TTLAfter(ttl, ops[..i]), record.createdAt)
  }

  lemma EndedMore(ttl: int, record: StoredResponse, ops: seq<Op>)
    requires ops != []
    ensures var n := |ops| - 1;
      Ended(ttl, record, ops) <==>
        || Ended(ttl, record, ops[..n])
        || DeletesBy(ops[n], record) || PrunesAway(ops[n], TTLAfter(ttl, ops[..n]), record.createdAt)
  {
    hide DeletesBy, PrunesAway, TTLAfter;
    var n := |ops| - 1;
    assert forall i | 0 <= i < n :: ops[..n][i] == ops[i] && ops[..n][..i] == ops[..i];
  }

  lemma OneOp(p: Plain, op: Op, id: string, record: StoredResponse)
    requires !Rewrites(op, id)
    requires id in p.items ==> p.items[id] == record
    ensures var after := Do(p, op, true);
      && after.ttl == TTLAfter(p.ttl, [op])
      && (id in after.items ==> after.items[id] == record)
      && (id in after.items <==> id in p.items && !DeletesBy(op, record) && !PrunesAway(op, p.ttl, record.createdAt))
  {
    hide TrimSpace;
    assert [op][..0] == [];
  }

  /** A response that no operation writes again stays as it is until one ends it, and then it is gone. */
  lemma {:induction false} StaysUntilEnded(p: Plain, id: string, ops: seq<Op>)
    requires id in p.items && forall op | op in ops :: !Rewrites(op, id)
    ensures var after := DoAll(p, ops, true);
      && after.ttl == TTLAfter(p.ttl, ops)
      && (id in after.items ==> after.items[id] == p.items[id])
      && (id in after.items <==> !Ended(p.ttl, p.items[id], ops))
  {
    hide Do, Rewrites, DeletesBy, PrunesAway;
    if ops != [] {
      var n := |ops| - 1;
      StaysUntilEnded(p, id, ops[..n]);
      EndedMore(p.ttl, p.items[id], ops);
      OneOp(DoAll(p, ops[..n], true), ops[n], id, p.items[id]);
      assert [ops[n]][..0] == [];
      hide Ended;
    }
  }

  /** A lookup of a response saved before answers with what was saved, its names trimmed and its creation time
      the one given or else the clock's, exactly as long as no operation has ended it and it has not outlived the
      time to live at the lookup. */
  lemma SavedIsAnswered(p: Plain, id: string, record: StoredResponse, at: Time, ops: seq<Op>, asked: string, now: Time)
    requires TrimSpace(id) != "" && TrimSpace(asked) == TrimSpace(id)
    requires forall op | op in ops :: !Rewrites(op, TrimSpace(id))
    ensures
      var saved := StoredResponse(record.payload, if record.createdAt == 0 then at else record.createdAt,
        TrimSpace(record.conversationID), TrimSpace(record.threadID), TrimSpace(record.accountEmail));
      var after := DoAll(Do(p, SaveOp(id, record, at), true), ops, true);
      Lookup(after.items, after.ttl, asked, now)
        == if Ended(p.ttl, saved, ops) || now > saved.createdAt + TTLAfter(p.ttl, ops) then None else Some(saved)
  {
    hide TrimSpace, DoAll, Ended, Rewrites;
    StaysUntilEnded(Do(p, SaveOp(id, record, at), true), TrimSpace(id), ops);
  }

  /** The same for the responses of a store that was loaded from records whose keys differ once trimmed. */
  lemma LoadedIsAnswered(p: Plain, records: Items, loaded: Items, key: string, ops: seq<Op>, asked: string, now: Time)
    requires LoadedFromAll(records, loaded) && key in records && TrimSpace(key) != ""
    requires forall other | other in records && TrimSpace(other) == TrimSpace(key) :: other == key
    requires TrimSpace(asked) == TrimSpace(key) && forall op | op in ops :: !Rewrites(op, TrimSpace(key))
    ensures
      var saved := StoredResponse(records[key].payload, records[key].createdAt,
        TrimSpace(records[key].conversationID), TrimSpace(records[key].threadID), TrimSpace(records[key].accountEmail));
      var after := DoAll(Do(p, ReplaceOp(loaded), true), ops, true);
      Lookup(after.items, after.ttl, asked, now)
        == if Ended(p.ttl, saved, ops) || now > saved.createdAt + TTLAfter(p.ttl, ops) then None else Some(saved)
  {
    hide TrimSpace, DoAll, Ended, Rewrites;
    var id := TrimSpace(key);
    assert Loaded(records, id, loaded[id]);
    StaysUntilEnded(Do(p, ReplaceOp(loaded), true), id, ops);
  }

  /** Under any other id nothing is answered: neither a save nor a load makes one up. */
  lemma OthersUnanswered(p: Plain, op: Op, id: string, now: Time)
    requires TrimSpace(id) !in p.items && !Rewrites(op, TrimSpace(id))
    ensures Lookup(Do(p, op, true).items, Do(p, op, true).ttl, id, now) == None
  {
    hide TrimSpace;
  }
}
