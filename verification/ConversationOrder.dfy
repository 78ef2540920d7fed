/** The recency list of the conversation store: it stays in step with the map, and it is sorted by update
    time exactly as long as the clock readings allow it. */
module ConversationOrder {
  import opened Sequences
  import opened ConversationSpec

  /** The list names every conversation exactly once. */
  predicate Agree(st: Store) {
    && Distinct(st.order)
    && (forall id | id in st.order :: id in st.items)
    && (forall id | id in st.items :: id in st.order && st.items[id].id == id)
  }

  predicate InStep(st: Store) {
    Agree(st) && |st.order| <= 1000
  }

  /** The generated id of a creation is not in use. */
  predicate DrawsUnusedId(st: Store, op: Op) {
    op.Create? ==> op.generated !in st.items
  }

  // ---------- The list operations ----------

  lemma {:induction false} WithoutMembers(order: seq<string>, id: string)
    requires Distinct(order)
    ensures Distinct(Without(order, id))
    ensures forall k :: k in Without(order, id) <==> k in order && k != id
    ensures |Without(order, id)| == |order| - (if id in order then 1 else 0)
  {
    if order != [] {
      var front, last := order[..|order| - 1], order[|order| - 1];
      assert order == front + [last] && last !in front;
      WithoutMembers(front, id);
    }
  }

  /** Moving to the front keeps the members. */
  lemma MoveKeepsMembers(order: seq<string>, id: string)
    requires Distinct(order) && id in order
    ensures Distinct(MoveToFront(order, id)) && |MoveToFront(order, id)| == |order|
    ensures MoveToFront(order, id)[0] == id
    ensures forall k :: k in MoveToFront(order, id) <==> k in order
  {
    WithoutMembers(order, id);
  }

  /** One insertion above the bound evicts exactly the last. */
  lemma TrimOne(st: Store)
    requires |st.order| <= MAX_ENTRIES + 1
    ensures Trim(st) == if |st.order| <= MAX_ENTRIES then st
                        else Store(st.items - {st.order[MAX_ENTRIES]}, st.order[..MAX_ENTRIES])
  {}

  // ---------- In step ----------

  lemma AddFront(st: Store, id: string, c: Conversation)
    requires Agree(st) && id !in st.items && c.id == id
    ensures Agree(Store(st.items[id := c], [id] + st.order))
  {
    var order := [id] + st.order;
    assert forall i | 1 <= i < |order| :: order[i] == st.order[i - 1] && order[i] in st.order;
  }

  lemma DropLast(st: Store)
    requires Agree(st) && st.order != []
    ensures Agree(Store(st.items - {st.order[|st.order| - 1]}, st.order[..|st.order| - 1]))
  {
    var front, last := st.order[..|st.order| - 1], st.order[|st.order| - 1];
    assert st.order == front + [last];
  }

  lemma CreateInStep(st: Store, op: Op)
    requires InStep(st) && DrawsUnusedId(st, op) && op.Create?
    ensures InStep(Apply(st, op))
  {
    hide Agree, Opened;
    var id := CreatedId(st, op.generated, op.request);
    var c := Opened(id, op.request, op.now);
    assert c.id == id by { OpenedHasId(id, op.request, op.now); }
    AddFront(st, id, c);
    var added := Store(st.items[id := c], [id] + st.order);
    TrimOne(added);
    if |added.order| > MAX_ENTRIES { DropLast(added); }
  }

  lemma OpenedHasId(id: string, request: Request, now: Time)
    ensures Opened(id, request, now).id == id && Opened(id, request, now).updatedAt == now
  {}

  lemma ReviseInStep(st: Store, id: string, c: Conversation)
    requires InStep(st) && id in st.items && c.id == id
    ensures InStep(Store(st.items[id := c], MoveToFront(st.order, id)))
  {
    MoveKeepsMembers(st.order, id);
    hide MoveToFront;
  }

  lemma DeleteInStep(st: Store, id: string)
    requires InStep(st)
    ensures InStep(Store(st.items - {id}, Without(st.order, id)))
  {
    WithoutMembers(st.order, id);
    hide Without;
  }

  /** The list stays in step with the map under every operation. */
  lemma StaysInStep(st: Store, op: Op)
    requires InStep(st) && DrawsUnusedId(st, op)
    ensures InStep(Apply(st, op))
  {
    hide InStep, Agree, Revised, Trim, Opened, CreatedId, Without, MoveToFront;
    match op
    case Create(_, _, _) => CreateInStep(st, op);
    case Delete(id) => DeleteInStep(st, id);
    case _ =>
      if Acts(op) && op.id in st.items {
        RevisedAt(st.items[op.id], op);
        IdOfItem(st, op.id);
        ReviseInStep(st, op.id, Revised(st.items[op.id], op));
      }
  }

  lemma IdOfItem(st: Store, id: string)
    requires InStep(st) && id in st.items
    ensures st.items[id].id == id
  {}

  /** A creation stores the new conversation under an unused id at the front and evicts exactly the last
      entry of a full list, whatever its status: never the new one. */
  lemma CreateEvictsTheLast(st: Store, op: Op)
    requires InStep(st) && DrawsUnusedId(st, op) && op.Create?
    ensures var id, after := CreatedId(st, op.generated, op.request), Apply(st, op);
      && id !in st.items && id in after.items && after.items[id] == Opened(id, op.request, op.now)
      && after.order != [] && after.order[0] == id
      && (forall k | k in st.items :: k !in after.items <==>
            |st.order| == 1000 && k == st.order[999])
      && (forall k | k in st.items && k in after.items :: after.items[k] == st.items[k])
  {
    var id := CreatedId(st, op.generated, op.request);
    var added := Store(st.items[id := Opened(id, op.request, op.now)], [id] + st.order);
    TrimOne(added);
  }

  /** A deletion removes that conversation alone, and only if it exists and is not running. */
  lemma DeleteRemovesOne(st: Store, id: string)
    requires InStep(st)
    ensures var after := Apply(st, Delete(id));
      && (forall k | k in st.items :: k !in after.items <==> k == id && !st.items[id].status.Running?)
      && (forall k | k in after.items :: k in st.items && after.items[k] == st.items[k])
      && (forall k :: k in after.order <==> k in after.items)
  {
    WithoutMembers(st.order, id);
  }

  // ---------- Sorted by update time ----------

  predicate Descending(items: map<string, Conversation>, order: seq<string>) {
    && (forall i | 0 <= i < |order| :: order[i] in items)
    && (forall i, j | 0 <= i < j < |order| :: items[order[i]].updatedAt >= items[order[j]].updatedAt)
  }

  lemma {:induction false} WithoutDescending(items: map<string, Conversation>, order: seq<string>, id: string)
    requires Descending(items, order) && Distinct(order)
    ensures Descending(items, Without(order, id))
  {
    if order != [] {
      var front, last := order[..|order| - 1], order[|order| - 1];
      WithoutDescending(items, front, id);
      WithoutMembers(front, id);
      var rest := Without(front, id);
      forall i | 0 <= i < |rest| ensures items[rest[i]].updatedAt >= items[last].updatedAt {
        assert rest[i] in front;
        var k :| 0 <= k < |front| && front[k] == rest[i];
        assert order[k] == rest[i] && order[|order| - 1] == last;
      }
    }
  }

  predicate Touches(st: Store, op: Op) {
    op.Create? || (!op.Delete? && Acts(op) && op.id in st.items)
  }

  /** The id an operation puts at the front. */
  function TouchedId(st: Store, op: Op): string {
    match op
    case Create(generated, request, _) => CreatedId(st, generated, request)
    case _ => op.id
  }

  lemma RevisedAt(c: Conversation, op: Op)
    requires !op.Create? && !op.Delete? && Acts(op)
    ensures Revised(c, op).updatedAt == op.now && Revised(c, op).id == c.id
  {}

  predicate NewestFirst(st: Store) {
    Descending(st.items, st.order)
  }

  /** No conversation other than `id` has been updated after `now`. */
  predicate NoneNewer(st: Store, id: string, now: Time) {
    forall k | k in st.items && k != id :: st.items[k].updatedAt <= now
  }

  lemma MovedRest(order: seq<string>, id: string) returns (rest: seq<string>)
    requires Distinct(order) && id in order
    ensures MoveToFront(order, id) == [id] + rest && rest == Without(order, id)
  {
    rest := Without(order, id);
    if order[0] == id {
      WithoutFirst(order);
    }
  }

  lemma {:induction false} WithoutFirst(order: seq<string>)
    requires Distinct(order) && order != []
    ensures order == [order[0]] + Without(order, order[0])
  {
    if |order| > 1 {
      WithoutFirst(order[..|order| - 1]);
    } else {
      assert order[..0] == [];
    }
  }

  /** With `id`, updated at `now`, before a sorted rest, the list is sorted exactly when nothing in the rest
      is newer. */
  lemma FrontIsNewest(items: map<string, Conversation>, after: Store, id: string, now: Time, rest: seq<string>)
    requires Descending(items, rest) && id !in rest && after.order == [id] + rest
    requires id in after.items && after.items[id].updatedAt == now
    requires forall k | k in rest :: k in items && k in after.items && after.items[k] == items[k]
    requires forall k | k in after.items && k != id :: k in rest
    ensures NewestFirst(after) <==> NoneNewer(after, id, now)
  {
    var all := after.order;
    assert forall i | 1 <= i < |all| :: all[i] == rest[i - 1] && all[i] in rest;
    forall k | k in rest && NewestFirst(after) ensures after.items[k].updatedAt <= now {
      var i :| 0 <= i < |rest| && rest[i] == k;
      assert all[0] == id && all[i + 1] == k;
    }
  }

  lemma TakeDescending(items: map<string, Conversation>, order: seq<string>, n: nat)
    requires Descending(items, order) && n <= |order|
    ensures Descending(items, order[..n])
  {}

  lemma CreatedOrder(st: Store, op: Op) returns (rest: seq<string>)
    requires InStep(st) && op.Create?
    ensures |rest| <= |st.order| && rest == st.order[..|rest|]
    ensures Apply(st, op).order == [TouchedId(st, op)] + rest
  {
    hide Trim, Opened, CreatedId;
    var id := TouchedId(st, op);
    var added := Store(st.items[id := Opened(id, op.request, op.now)], [id] + st.order);
    TrimOne(added);
    rest := if |st.order| < MAX_ENTRIES then st.order else st.order[..MAX_ENTRIES - 1];
    assert |st.order| >= MAX_ENTRIES ==> added.order[..MAX_ENTRIES] == [id] + rest;
  }

  lemma CreateSorted(st: Store, op: Op)
    requires InStep(st) && NewestFirst(st) && DrawsUnusedId(st, op) && op.Create?
    ensures NewestFirst(Apply(st, op)) <==> NoneNewer(Apply(st, op), TouchedId(st, op), op.now)
  {
    hide Apply, Opened, CreatedId, Descending;
    var id, after := TouchedId(st, op), Apply(st, op);
    OpenedHasId(id, op.request, op.now);
    CreateEvictsTheLast(st, op);
    CreateInStep(st, op);
    var rest := CreatedOrder(st, op);
    TakeDescending(st.items, st.order, |rest|);
    assert forall k | k in rest :: k in st.order && k in after.order;
    FrontIsNewest(st.items, after, id, op.now, rest);
  }

  lemma ReviseSorted(st: Store, op: Op)
    requires InStep(st) && NewestFirst(st) && Touches(st, op) && !op.Create?
    ensures NewestFirst(Apply(st, op)) <==> NoneNewer(Apply(st, op), op.id, op.now)
  {
    hide Revised, Descending, MoveToFront;
    var rest := MovedRest(st.order, op.id);
    WithoutDescending(st.items, st.order, op.id);
    WithoutMembers(st.order, op.id);
    RevisedAt(st.items[op.id], op);
    FrontIsNewest(st.items, Apply(st, op), op.id, op.now, rest);
  }

  /** An operation that touches a conversation leaves the list sorted exactly when none of the others that
      are left has been updated after the clock reading it took before it got the lock. */
  lemma SortedIffClockIsNewest(st: Store, op: Op)
    requires InStep(st) && NewestFirst(st) && DrawsUnusedId(st, op) && Touches(st, op)
    ensures NewestFirst(Apply(st, op)) <==> NoneNewer(Apply(st, op), TouchedId(st, op), op.now)
  {
    hide InStep, NewestFirst, Apply;
    if op.Create? { CreateSorted(st, op); } else { ReviseSorted(st, op); }
  }

  /** Any other operation leaves it sorted. */
  lemma OthersKeepOrder(st: Store, op: Op)
    requires InStep(st) && NewestFirst(st) && !Touches(st, op)
    ensures NewestFirst(Apply(st, op))
  {
    if op.Delete? && op.id in st.items && !st.items[op.id].status.Running? {
      WithoutDescending(st.items, st.order, op.id);
      WithoutMembers(st.order, op.id);
      var items, rest := st.items - {op.id}, Without(st.order, op.id);
      hide Without;
      assert forall i | 0 <= i < |rest| :: rest[i] in rest;
    }
  }

  // ---------- Runs ----------

  /** Clock readings do not go back from one operation to the next. */
  predicate ClockRuns(ops: seq<Op>) {
    forall i, j | 0 <= i < j < |ops| && !ops[i].Delete? && !ops[j].Delete? :: ops[i].now <= ops[j].now
  }

  predicate AllUnused(st: Store, ops: seq<Op>) {
    forall i | 0 <= i < |ops| :: DrawsUnusedId(ApplyAll(st, ops[..i]), ops[i])
  }

  function Readings(ops: seq<Op>): set<Time> {
    set i | 0 <= i < |ops| && !ops[i].Delete? :: ops[i].now
  }

  function Times(st: Store): set<Time> {
    set k | k in st.items :: st.items[k].updatedAt
  }

  /** Clock readings come in lock order, and none is before what the store was loaded with. */
  predicate ClockRunsFrom(start: Store, ops: seq<Op>) {
    ClockRuns(ops) && forall s, t | s in Times(start) && t in Readings(ops) :: s <= t
  }

  /** Every update time was there at the start or is the clock reading of some operation. */
  predicate TimesKnown(st: Store, start: Store, ops: seq<Op>) {
    forall k | k in st.items :: st.items[k].updatedAt in Times(start) + Readings(ops)
  }

  lemma AllUnusedFront(st: Store, ops: seq<Op>)
    requires AllUnused(st, ops) && ops != []
    ensures AllUnused(st, ops[..|ops| - 1])
    ensures DrawsUnusedId(ApplyAll(st, ops[..|ops| - 1]), ops[|ops| - 1])
  {
    hide ApplyAll, DrawsUnusedId;
    var front := ops[..|ops| - 1];
    assert forall i | 0 <= i < |front| :: front[..i] == ops[..i];
  }

  /** From a store in step, with unused ids, the list and the map agree after every run, and if the clock
      readings come in lock order a sorted list stays sorted by update time, newest first. */
  lemma {:induction false} RunsKeepOrder(start: Store, ops: seq<Op>)
    requires InStep(start) && AllUnused(start, ops)
    ensures InStep(ApplyAll(start, ops)) && TimesKnown(ApplyAll(start, ops), start, ops)
    ensures NewestFirst(start) && ClockRunsFrom(start, ops) ==> NewestFirst(ApplyAll(start, ops))
  {
    hide InStep, NewestFirst, Apply, AllUnused, DrawsUnusedId, TimesKnown, ClockRunsFrom;
    if ops == [] {
      TimesKnownAtStart(start);
    } else {
      var front, op := ops[..|ops| - 1], ops[|ops| - 1];
      AllUnusedFront(start, ops);
      RunsKeepOrder(start, front);
      OneMoreOp(start, front, ApplyAll(start, front), op);
      assert front + [op] == ops;
    }
  }

  lemma TimesKnownAtStart(start: Store)
    ensures TimesKnown(start, start, [])
  {}

  lemma OneMoreOp(start: Store, ops: seq<Op>, st: Store, op: Op)
    requires InStep(st) && TimesKnown(st, start, ops) && DrawsUnusedId(st, op)
    requires NewestFirst(start) && ClockRunsFrom(start, ops) ==> NewestFirst(st)
    ensures InStep(Apply(st, op)) && TimesKnown(Apply(st, op), start, ops + [op])
    ensures NewestFirst(start) && ClockRunsFrom(start, ops + [op]) ==> NewestFirst(Apply(st, op))
  {
    hide InStep, NewestFirst, Apply, DrawsUnusedId, TimesKnown, NoneNewer, ClockRunsFrom, Touches;
    StaysInStep(st, op);
    ReadAtOp(st, start, ops, op);
    ClockRunsFront(start, ops, op);
    if NewestFirst(st) {
      if Touches(st, op) { SortedIffClockIsNewest(st, op); } else { OthersKeepOrder(st, op); }
    }
  }

  lemma ClockRunsFront(start: Store, ops: seq<Op>, op: Op)
    ensures ClockRunsFrom(start, ops + [op]) ==> ClockRunsFrom(start, ops)
  {
    ReadingsOfMore(ops, op);
    assert forall i | 0 <= i < |ops| :: (ops + [op])[i] == ops[i];
  }

  lemma ReadingsOfMore(ops: seq<Op>, op: Op)
    ensures Readings(ops + [op]) == Readings(ops) + (if op.Delete? then {} else {op.now})
  {
    var all := ops + [op];
    assert all[|ops|] == op;
    forall t | t in Readings(ops) ensures t in Readings(all) {
      var i :| 0 <= i < |ops| && !ops[i].Delete? && ops[i].now == t;
      assert all[i] == ops[i];
    }
  }

  lemma ItemsAfter(st: Store, op: Op)
    requires InStep(st) && DrawsUnusedId(st, op)
    ensures forall k | k in Apply(st, op).items ::
      || (k in st.items && Apply(st, op).items[k] == st.items[k])
      || (Touches(st, op) && k == TouchedId(st, op) && Apply(st, op).items[k].updatedAt == op.now)
  {
    match op
    case Create(_, _, _) =>
      CreateEvictsTheLast(st, op);
      OpenedHasId(TouchedId(st, op), op.request, op.now);
      var added := Store(st.items[TouchedId(st, op) := Opened(TouchedId(st, op), op.request, op.now)],
                         [TouchedId(st, op)] + st.order);
      TrimOne(added);
      hide Opened;
    case Delete(id) =>
    case _ =>
      hide Revised;
      if Touches(st, op) { RevisedAt(st.items[op.id], op); }
  }

  lemma ReadAtOp(st: Store, start: Store, ops: seq<Op>, op: Op)
    requires InStep(st) && DrawsUnusedId(st, op) && TimesKnown(st, start, ops)
    ensures TimesKnown(Apply(st, op), start, ops + [op])
    ensures ClockRunsFrom(start, ops + [op]) && Touches(st, op) ==> NoneNewer(Apply(st, op), TouchedId(st, op), op.now)
  {
    ItemsAfter(st, op);
    ReadingsOfMore(ops, op);
    hide Apply, InStep, DrawsUnusedId, TouchedId, Acts, Times;
    forall t | t in Readings(ops) && ClockRuns(ops + [op]) && !op.Delete? ensures t <= op.now {
      var i :| 0 <= i < |ops| && !ops[i].Delete? && ops[i].now == t;
      assert (ops + [op])[i] == ops[i] && (ops + [op])[|ops|] == op;
    }
  }

  // ---------- Loading ----------

  lemma {:induction false} TrimAll(st: Store)
    ensures Trim(st) == if |st.order| <= MAX_ENTRIES then st
                        else Store(st.items - (set id | id in st.order[MAX_ENTRIES..]), st.order[..MAX_ENTRIES])
    decreases |st.order|
  {
    if |st.order| > MAX_ENTRIES {
      var front, last := st.order[..|st.order| - 1], st.order[|st.order| - 1];
      TrimAll(Store(st.items - {last}, front));
      assert st.order[MAX_ENTRIES..] == front[MAX_ENTRIES..] + [last];
      assert front[..MAX_ENTRIES] == st.order[..MAX_ENTRIES];
    }
  }

  lemma {:induction false} ByIdKeys(entries: seq<Conversation>)
    ensures forall id :: id in ById(entries) <==> id in Ids(entries)
    ensures forall id | id in ById(entries) :: ById(entries)[id].id == id
  {
    if entries != [] {
      var front, last := entries[..|entries| - 1], entries[|entries| - 1];
      ByIdKeys(front);
      assert Ids(entries) == Ids(front) + [last.id];
    }
  }

  /** No id of the entries that are kept occurs anywhere else. */
  predicate KeptIdsUnique(ids: seq<string>) {
    forall i, j | 0 <= i < j < |ids| && i < 1000 :: ids[i] != ids[j]
  }

  lemma KeptApart(ids: seq<string>)
    requires |ids| > MAX_ENTRIES
    ensures KeptIdsUnique(ids) <==>
      Distinct(ids[..MAX_ENTRIES]) && forall id | id in ids[..MAX_ENTRIES] :: id !in ids[MAX_ENTRIES..]
  {
    var kept, rest := ids[..MAX_ENTRIES], ids[MAX_ENTRIES..];
    forall i, j | 0 <= i < j < |ids| && i < MAX_ENTRIES && j >= MAX_ENTRIES ensures ids[j] in rest && ids[i] in kept {
      assert rest[j - MAX_ENTRIES] == ids[j] && kept[i] == ids[i];
    }
  }

  /** A store loaded from stored entries is in step exactly if no id it keeps occurs twice among them. */
  lemma LoadedInStep(entries: seq<Conversation>)
    ensures InStep(Loaded(entries)) <==> KeptIdsUnique(Ids(entries))
  {
    var st := Store(ById(entries), Ids(entries));
    TrimAll(st);
    ByIdKeys(entries);
    var ids := Ids(entries);
    hide Trim, ById, Ids;
    if |ids| <= MAX_ENTRIES {
      assert KeptIdsUnique(ids) <==> Distinct(ids);
    } else {
      KeptApart(ids);
      hide KeptIdsUnique;
      assert ids == ids[..MAX_ENTRIES] + ids[MAX_ENTRIES..];
    }
  }
}
