/** The response store: a map with a time to live, sped up by a min-heap of creation times from which
    entries are deleted lazily. */
module ResponseStore {
  import opened Wrappers
  import opened Strings

  /** Nanoseconds since the zero time. */
  type Time = int
  const ZERO_TIME: Time := 0
  const SECOND: int := 1_000_000_000

  datatype StoredResponse = StoredResponse(payload: string, createdAt: Time,
                                           conversationID: string, threadID: string, accountEmail: string)

  datatype ExpiryEntry = ExpiryEntry(responseID: string, createdAt: Time)

  type Items = map<string, StoredResponse>

  // ---------- The plain map the store must agree with ----------

  predicate Expired(createdAt: Time, now: Time, ttl: int) {
    now - createdAt > ttl
  }

  /** The items that have not outlived `ttl` at `now`. */
  function Live(items: Items, now: Time, ttl: int): Items {
    map id | id in items && !Expired(items[id].createdAt, now, ttl) :: items[id]
  }

  function NormalizeTTL(ttl: int): (r: int)
    ensures r > 0
  {
    if ttl <= 0 then SECOND else ttl
  }

  function CleanRecord(record: StoredResponse, createdAt: Time): StoredResponse {
    StoredResponse(record.payload, createdAt,
                   TrimSpace(record.conversationID), TrimSpace(record.threadID), TrimSpace(record.accountEmail))
  }

  predicate Matches(record: StoredResponse, conversationID: string, threadID: string) {
    (conversationID != "" && TrimSpace(record.conversationID) == conversationID)
    || (threadID != "" && TrimSpace(record.threadID) == threadID)
  }

  // ---------- Heap order ----------

  function Parent(k: int): int {
    (k - 1) / 2
  }

  predicate InOrder(h: seq<ExpiryEntry>, k: nat)
    requires 0 < k < |h|
  {
    h[Parent(k)].createdAt <= h[k].createdAt
  }

  predicate HeapOrdered(h: seq<ExpiryEntry>) {
    forall k: nat | 0 < k < |h| :: InOrder(h, k)
  }

  function Swap(h: seq<ExpiryEntry>, i: nat, j: nat): (r: seq<ExpiryEntry>)
    requires i < |h| && j < |h|
    ensures |r| == |h| && multiset(r) == multiset(h)
  {
    h[i := h[j]][j := h[i]]
  }

  /** In heap order only entry `j` may be smaller than its parent, and its children respect that parent. */
  predicate OrderedButUp(h: seq<ExpiryEntry>, j: nat) {
    && (forall k: nat | 0 < k < |h| && k != j :: InOrder(h, k))
    && (forall k: nat | 0 < k < |h| && Parent(k) == j && j > 0 :: h[Parent(j)].createdAt <= h[k].createdAt)
  }

  /** Among the first `n` entries only entry `i` may be larger than its children, which respect its parent. */
  predicate OrderedButDown(h: seq<ExpiryEntry>, i: nat, n: nat)
    requires n <= |h|
  {
    && (forall k: nat | 0 < k < n && Parent(k) != i :: InOrder(h, k))
    && (forall k: nat | 0 < k < n && Parent(k) == i && i > 0 :: h[Parent(i)].createdAt <= h[k].createdAt)
  }

  /** The root of a heap is its oldest entry. */
  lemma {:induction false} RootIsOldest(h: seq<ExpiryEntry>, k: nat)
    requires HeapOrdered(h) && k < |h|
    ensures h[0].createdAt <= h[k].createdAt
    decreases k
  {
    if k > 0 {
      assert InOrder(h, k);
      RootIsOldest(h, Parent(k));
    }
  }

  lemma SiftUpStep(h: seq<ExpiryEntry>, j: nat)
    requires 0 < j < |h| && OrderedButUp(h, j) && h[j].createdAt < h[Parent(j)].createdAt
    ensures OrderedButUp(Swap(h, Parent(j), j), Parent(j))
  {
    var i := Parent(j);
    var g := Swap(h, i, j);
    forall k: nat | 0 < k < |g| && k != i ensures InOrder(g, k) {
      if k != j { assert InOrder(h, k); }
    }
    forall k: nat | 0 < k < |g| && Parent(k) == i && i > 0 ensures g[Parent(i)].createdAt <= g[k].createdAt {
      assert InOrder(h, i);
      if k != j { assert InOrder(h, k); }
    }
  }

  lemma SiftDownStep(h: seq<ExpiryEntry>, i: nat, j: nat, n: nat)
    requires i < j < n <= |h| && Parent(j) == i && OrderedButDown(h, i, n)
    requires h[j].createdAt < h[i].createdAt
    requires forall k: nat | k < n && 0 < k && Parent(k) == i :: h[j].createdAt <= h[k].createdAt
    ensures OrderedButDown(Swap(h, i, j), j, n)
  {
    var g := Swap(h, i, j);
    forall k: nat | 0 < k < n && Parent(k) != j ensures InOrder(g, k) {
      if Parent(k) != i && k != i { assert InOrder(h, k); }
    }
    forall k: nat | 0 < k < n && Parent(k) == j ensures g[Parent(j)].createdAt <= g[k].createdAt {
      assert InOrder(h, k);
    }
  }

  /** Every stored item has an entry with its creation time. */
  predicate Covered(items: Items, h: seq<ExpiryEntry>) {
    forall id | id in items :: ExpiryEntry(id, items[id].createdAt) in h
  }

  class Store {
    var ttl: int
    var items: Items
    var expirations: seq<ExpiryEntry>

    predicate Valid() reads this {
      ttl > 0 && HeapOrdered(expirations) && Covered(items, expirations)
    }

    /** The store seen as a plain map. */
    function View(): Plain reads this {
      Plain(items, ttl)
    }

    constructor (ttl: int)
      ensures Valid() && items == map[] && this.ttl == NormalizeTTL(ttl)
    {
      this.ttl := NormalizeTTL(ttl);
      items, expirations := map[], [];
    }

    method SetTTL(ttl: int)
      requires Valid()
      modifies this`ttl
      ensures Valid() && View() == Do(old(View()), SetTTLOp(ttl), true)
    {
      this.ttl := NormalizeTTL(ttl);
    }

    // ---------- container/heap on the slice ----------

    method Up(start: nat)
      requires start < |expirations| && OrderedButUp(expirations, start)
      modifies this`expirations
      ensures HeapOrdered(expirations) && multiset(expirations) == multiset(old(expirations))
    {
      var j: nat := start;
      while true
        invariant j < |expirations| && OrderedButUp(expirations, j)
        invariant multiset(expirations) == multiset(old(expirations))
        decreases j
      {
        if j == 0 { break; }
        var i := Parent(j);
        if !(expirations[j].createdAt < expirations[i].createdAt) {
          assert InOrder(expirations, j);
          break;
        }
        SiftUpStep(expirations, j);
        expirations := Swap(expirations, i, j);
        j := i;
      }
    }

    method Down(start: nat, n: nat)
      requires start < n <= |expirations| && OrderedButDown(expirations, start, n)
      modifies this`expirations
      ensures |expirations| == |old(expirations)| && expirations[n..] == old(expirations)[n..]
      ensures forall k: nat | 0 < k < n :: InOrder(expirations, k)
      ensures multiset(expirations[..n]) == multiset(old(expirations)[..n])
    {
      var i := start;
      while true
        invariant i < n && |expirations| == |old(expirations)| && expirations[n..] == old(expirations)[n..]
        invariant OrderedButDown(expirations, i, n)
        invariant multiset(expirations[..n]) == multiset(old(expirations)[..n])
        decreases n - i
      {
        var j1 := 2 * i + 1;
        if j1 >= n {
          assert forall k: nat | 0 < k < n :: Parent(k) != i;
          break;
        }
        var j := j1;
        var j2 := j1 + 1;
        if j2 < n && expirations[j2].createdAt < expirations[j1].createdAt { j := j2; }
        assert forall k: nat | 0 < k < n && Parent(k) == i :: k == j1 || k == j2;
        if !(expirations[j].createdAt < expirations[i].createdAt) {
          assert forall k: nat | 0 < k < n && Parent(k) == i :: InOrder(expirations, k);
          break;
        }
        SiftDownStep(expirations, i, j, n);
        SwapInFront(expirations, i, j, n);
        expirations := Swap(expirations, i, j);
        i := j;
      }
    }

    method PushEntry(entry: ExpiryEntry)
      requires HeapOrdered(expirations)
      modifies this`expirations
      ensures HeapOrdered(expirations)
      ensures multiset(expirations) == multiset(old(expirations)) + multiset{entry}
    {
      expirations := expirations + [entry];
      forall k: nat | 0 < k < |expirations| - 1 ensures InOrder(expirations, k) {
        assert InOrder(old(expirations), k);
      }
      Up(|expirations| - 1);
    }

    method PopEntry() returns (entry: ExpiryEntry)
      requires HeapOrdered(expirations) && expirations != []
      modifies this`expirations
      ensures HeapOrdered(expirations) && entry == old(expirations)[0]
      ensures |expirations| == |old(expirations)| - 1
      ensures multiset(expirations) + multiset{entry} == multiset(old(expirations))
    {
      var n := |expirations| - 1;
      ghost var before := expirations;
      expirations := Swap(expirations, 0, n);
      ghost var swapped := expirations;
      if n > 0 {
        forall k: nat | 0 < k < n && Parent(k) != 0 ensures InOrder(expirations, k) {
          assert InOrder(before, k);
        }
        Down(0, n);
      }
      LastMoved(before, swapped, expirations, n);
      entry := expirations[n];
      forall k: nat | 0 < k < n ensures InOrder(expirations[..n], k) {
        assert InOrder(expirations, k);
      }
      expirations := expirations[..n];
    }

    // ---------- The store ----------

    /** Removes exactly the expired items and returns their number, whatever stale or duplicate entries
        the heap holds. */
    method PruneExpired(now: Time) returns (removed: int)
      requires Valid()
      modifies this`items, this`expirations
      ensures Valid()
      ensures items == Live(old(items), now, ttl) && View() == Do(old(View()), PruneOp(now), true)
      ensures removed == |old(items)| - |items|
    {
      hide Live, PartlyPruned, HeapOrdered;
      removed := 0;
      PruneNothing(items, now, ttl);
      if |items| == 0 || |expirations| == 0 {
        NothingToPrune(items, expirations);
        return;
      }
      while |expirations| > 0
        invariant HeapOrdered(expirations) && Covered(items, expirations)
        invariant PartlyPruned(old(items), items, now, ttl)
        invariant removed == |old(items)| - |items|
        decreases |expirations|
      {
        var top := expirations[0];
        if now - top.createdAt <= ttl {
          NothingExpired(items, expirations, now, ttl);
          break;
        }
        ghost var before := expirations;
        var entry := PopEntry();
        PopKeepsCover(items, before, expirations, entry);
        if entry.responseID in items && items[entry.responseID].createdAt == entry.createdAt {
          RemoveOne(items, entry.responseID);
          PruneStep(old(items), items, entry.responseID, now, ttl);
          items := items - {entry.responseID};
          removed := removed + 1;
        }
      }
      PrunedIsLive(old(items), items, now, ttl);
    }

    method Save(responseID: string, record: StoredResponse, now: Time)
      requires Valid()
      modifies this`items, this`expirations
      ensures Valid()
      ensures View() == Do(old(View()), SaveOp(responseID, record, now), true)
    {
      hide TrimSpace;
      var id := TrimSpace(responseID);
      if id == "" { return; }
      var _ := PruneExpired(now);
      var createdAt := if record.createdAt == ZERO_TIME then now else record.createdAt;
      ghost var kept, before := items, expirations;
      items := items[id := CleanRecord(record, createdAt)];
      PushEntry(ExpiryEntry(id, createdAt));
      PushKeepsCover(kept, before, expirations, id, items[id]);
    }

    /** Looks an item up among the live ones. Once pruned, an item can no longer be expired: the second
        check of the source never fires. */
    method Get(responseID: string, now: Time) returns (record: Option<StoredResponse>)
      requires Valid()
      modifies this`items, this`expirations
      ensures Valid()
      ensures View() == Do(old(View()), GetOp(responseID, now), true)
      ensures record == Lookup(old(items), ttl, responseID, now)
    {
      hide TrimSpace;
      var id := TrimSpace(responseID);
      if id == "" { return None; }
      var _ := PruneExpired(now);
      if id !in items { return None; }
      if now - items[id].createdAt > ttl {
        assert false;
      }
      return Some(items[id]);
    }

    method ReplaceAll(records: Items)
      requires Valid()
      modifies this`items, this`expirations
      ensures Valid()
      ensures LoadedFromAll(records, items)
      ensures View() == Do(old(View()), ReplaceOp(items), true)
    {
      hide TrimSpace, HeapOrdered, Loaded;
      items, expirations := map[], [];
      assert HeapOrdered(expirations) by { NoEntries(); }
      var todo := records.Keys;
      while todo != {}
        invariant todo <= records.Keys && HeapOrdered(expirations) && Covered(items, expirations)
        invariant items.Keys == set key | key in records.Keys - todo && TrimSpace(key) != "" :: TrimSpace(key)
        invariant forall id | id in items :: Loaded(records, id, items[id])
        decreases |todo|
      {
        var key :| key in todo;
        todo := todo - {key};
        var cleanID := TrimSpace(key);
        if cleanID != "" {
          var record := CleanRecord(records[key], records[key].createdAt);
          ghost var kept, before := items, expirations;
          items := items[cleanID := record];
          PushEntry(ExpiryEntry(cleanID, record.createdAt));
          PushKeepsCover(kept, before, expirations, cleanID, record);
          LoadedFrom(records, key);
        }
      }
    }

    method DeleteByConversationOrThread(conversation: string, thread: string) returns (removed: int)
      requires Valid()
      modifies this`items
      ensures Valid()
      ensures View() == Do(old(View()), DeleteOp(conversation, thread), true)
      ensures removed == |old(items)| - |items|
    {
      hide TrimSpace, HeapOrdered, Covered, Live, CleanRecord;
      var conversationID, threadID := TrimSpace(conversation), TrimSpace(thread);
      removed := 0;
      if conversationID == "" && threadID == "" {
        assert items == Kept(items, conversation, thread);
        return;
      }
      hide Matches;
      var todo := items.Keys;
      while todo != {}
        invariant todo <= items.Keys <= old(items).Keys && Covered(items, expirations)
        invariant forall id | id in items :: items[id] == old(items)[id]
        invariant forall id | id in old(items) && id !in todo ::
                    id in items <==> !Matches(old(items)[id], conversationID, threadID)
        invariant removed == |old(items)| - |items|
        decreases |todo|
      {
        var id :| id in todo;
        todo := todo - {id};
        if Matches(items[id], conversationID, threadID) {
          RemoveOne(items, id);
          StillCovered(items, id, expirations);
          items := items - {id};
          removed := removed + 1;
        }
      }
    }
  }

  /** The record under `id` comes from one of the loaded keys that trim to it: payload and creation time as
      they are, the names trimmed. */
  predicate Loaded(records: Items, id: string, record: StoredResponse) {
    exists key | key in records ::
      && TrimSpace(key) == id
      && record.payload == records[key].payload && record.createdAt == records[key].createdAt
      && record.conversationID == TrimSpace(records[key].conversationID)
      && record.threadID == TrimSpace(records[key].threadID)
      && record.accountEmail == TrimSpace(records[key].accountEmail)
  }

  /** What a load makes of the records: one item for every id that is not blank. */
  predicate LoadedFromAll(records: Items, items: Items) {
    && items.Keys == (set key | key in records && TrimSpace(key) != "" :: TrimSpace(key))
    && forall id | id in items :: Loaded(records, id, items[id])
  }

  lemma LoadedFrom(records: Items, key: string)
    requires key in records
    ensures Loaded(records, TrimSpace(key), CleanRecord(records[key], records[key].createdAt))
  {
  }

  /** After the swap and the sift the old root stands last, and the rest is what was there besides. */
  lemma LastMoved(before: seq<ExpiryEntry>, swapped: seq<ExpiryEntry>, after: seq<ExpiryEntry>, n: nat)
    requires |before| == |swapped| == |after| == n + 1 && swapped == Swap(before, 0, n)
    requires after[n..] == swapped[n..] && multiset(after[..n]) == multiset(swapped[..n])
    ensures after[n] == before[0] && multiset(after[..n]) + multiset{after[n]} == multiset(before)
  {
    assert swapped[n] == before[0] && after[n] == after[n..][0] == swapped[n..][0];
    assert swapped == swapped[..n] + [before[0]];
    assert multiset(swapped) == multiset(before);
  }

  lemma SwapInFront(h: seq<ExpiryEntry>, i: nat, j: nat, n: nat)
    requires i < n && j < n <= |h|
    ensures Swap(h, i, j)[n..] == h[n..] && multiset(Swap(h, i, j)[..n]) == multiset(h[..n])
  {
    assert Swap(h, i, j)[..n] == Swap(h[..n], i, j);
  }

  lemma NoEntries()
    ensures HeapOrdered([])
  {
  }

  lemma StillCovered(items: Items, id: string, h: seq<ExpiryEntry>)
    requires Covered(items, h)
    ensures Covered(items - {id}, h)
  {}

  lemma RemoveOne(items: Items, id: string)
    requires id in items
    ensures |items - {id}| == |items| - 1
  {
    assert (items - {id}).Keys == items.Keys - {id};
  }

  lemma NothingToPrune(items: Items, h: seq<ExpiryEntry>)
    requires Covered(items, h) && (|items| == 0 || |h| == 0)
    ensures items == map[]
  {
    assert forall id :: id !in items;
  }

  lemma NothingExpired(items: Items, h: seq<ExpiryEntry>, now: Time, ttl: int)
    requires HeapOrdered(h) && Covered(items, h) && h != [] && !Expired(h[0].createdAt, now, ttl)
    ensures forall id | id in items :: !Expired(items[id].createdAt, now, ttl)
  {
    forall id | id in items ensures !Expired(items[id].createdAt, now, ttl) {
      var k :| 0 <= k < |h| && h[k] == ExpiryEntry(id, items[id].createdAt);
      RootIsOldest(h, k);
    }
  }

  lemma PushKeepsCover(items: Items, before: seq<ExpiryEntry>, after: seq<ExpiryEntry>,
      id: string, record: StoredResponse)
    requires Covered(items, before)
    requires multiset(after) == multiset(before) + multiset{ExpiryEntry(id, record.createdAt)}
    ensures Covered(items[id := record], after)
  {
    assert ExpiryEntry(id, record.createdAt) in multiset(after);
    forall other | other in items && other != id ensures ExpiryEntry(other, items[other].createdAt) in after {
      assert ExpiryEntry(other, items[other].createdAt) in multiset(before);
      assert ExpiryEntry(other, items[other].createdAt) in multiset(after);
    }
  }

  /** Popping an entry uncovers at most the item it stands for. */
  lemma PopKeepsCover(items: Items, before: seq<ExpiryEntry>, after: seq<ExpiryEntry>, entry: ExpiryEntry)
    requires Covered(items, before) && multiset(after) + multiset{entry} == multiset(before)
    ensures forall id | id in items && ExpiryEntry(id, items[id].createdAt) != entry ::
              ExpiryEntry(id, items[id].createdAt) in after
  {
    forall id | id in items && ExpiryEntry(id, items[id].createdAt) != entry
      ensures ExpiryEntry(id, items[id].createdAt) in after {
      assert ExpiryEntry(id, items[id].createdAt) in multiset(before);
      assert ExpiryEntry(id, items[id].createdAt) in multiset(after);
    }
  }

  lemma PruneNothing(items: Items, now: Time, ttl: int)
    ensures PartlyPruned(items, items, now, ttl)
    ensures items == map[] ==> items == Live(items, now, ttl)
  {
  }

  /** Between `before` and `items` only expired items went. */
  predicate PartlyPruned(before: Items, items: Items, now: Time, ttl: int) {
    && (forall id | id in items :: id in before && items[id] == before[id])
    && (forall id | id in before && id !in items :: Expired(before[id].createdAt, now, ttl))
  }

  lemma PrunedIsLive(before: Items, items: Items, now: Time, ttl: int)
    requires PartlyPruned(before, items, now, ttl)
    requires forall id | id in items :: !Expired(items[id].createdAt, now, ttl)
    ensures items == Live(before, now, ttl)
  {
  }

  lemma PruneStep(before: Items, items: Items, id: string, now: Time, ttl: int)
    requires PartlyPruned(before, items, now, ttl) && id in items && Expired(items[id].createdAt, now, ttl)
    ensures PartlyPruned(before, items - {id}, now, ttl)
  {
  }

  // ---------- Pruning early or only at lookup ----------

  /** What a lookup at `now` answers on a plain map. */
  function Lookup(items: Items, ttl: int, responseID: string, now: Time): Option<StoredResponse> {
    var id := TrimSpace(responseID);
    if id != "" && id in items && !Expired(items[id].createdAt, now, ttl) then Some(items[id]) else None
  }

  datatype Op =
    | SaveOp(id: string, record: StoredResponse, now: Time)
    | GetOp(id: string, now: Time)
    | PruneOp(now: Time)
    | SetTTLOp(ttl: int)
    | DeleteOp(conversation: string, thread: string)
    | ReplaceOp(loaded: Items)

  datatype Plain = Plain(items: Items, ttl: int)

  function Kept(items: Items, conversation: string, thread: string): Items {
    map id | id in items && !Matches(items[id], TrimSpace(conversation), TrimSpace(thread)) :: items[id]
  }

  /** One operation on a plain map; `eager` says whether expired items are dropped on the way, as the
      store does, or kept until a lookup filters them. */
  function Do(p: Plain, op: Op, eager: bool): Plain {
    match op
    case SaveOp(id, record, now) =>
      if TrimSpace(id) == "" then p
      else p.(items := (if eager then Live(p.items, now, p.ttl) else p.items)
                       [TrimSpace(id) := CleanRecord(record,
                           if record.createdAt == ZERO_TIME then now else record.createdAt)])
    case GetOp(id, now) =>
      if TrimSpace(id) == "" || !eager then p else p.(items := Live(p.items, now, p.ttl))
    case PruneOp(now) => if eager then p.(items := Live(p.items, now, p.ttl)) else p
    case SetTTLOp(ttl) => p.(ttl := NormalizeTTL(ttl))
    case DeleteOp(conversation, thread) => p.(items := Kept(p.items, conversation, thread))
    case ReplaceOp(loaded) => p.(items := loaded)
  }

  function DoAll(p: Plain, ops: seq<Op>, eager: bool): Plain {
    if ops == [] then p else Do(DoAll(p, ops[..|ops| - 1], eager), ops[|ops| - 1], eager)
  }

  /** The creation time before which a pruning operation drops items. */
  function Horizon(op: Op, ttl: int): Option<int> {
    match op
    case SaveOp(id, _, now) => if TrimSpace(id) == "" then None else Some(now - ttl)
    case GetOp(id, now) => if TrimSpace(id) == "" then None else Some(now - ttl)
    case PruneOp(now) => Some(now - ttl)
    case _ => None
  }

  /** No pruning of the run looked past `horizon`. */
  predicate PrunedUpTo(p: Plain, ops: seq<Op>, horizon: int) {
    forall i | 0 <= i < |ops| ::
      var h := Horizon(ops[i], DoAll(p, ops[..i], true).ttl); h.Some? ==> h.value <= horizon
  }

  predicate Follows(eager: Plain, lazy: Plain, horizon: int) {
    && eager.ttl == lazy.ttl
    && (forall id | id in eager.items :: id in lazy.items && lazy.items[id] == eager.items[id])
    && (forall id | id in lazy.items && id !in eager.items :: lazy.items[id].createdAt < horizon)
  }

  lemma DoFollows(eager: Plain, lazy: Plain, op: Op, horizon: int)
    requires Follows(eager, lazy, horizon)
    requires var h := Horizon(op, eager.ttl); h.Some? ==> h.value <= horizon
    ensures Follows(Do(eager, op, true), Do(lazy, op, false), horizon)
  {
    hide TrimSpace;
  }

  lemma {:induction false} DoAllFollows(p: Plain, ops: seq<Op>, horizon: int)
    requires PrunedUpTo(p, ops, horizon)
    ensures Follows(DoAll(p, ops, true), DoAll(p, ops, false), horizon)
  {
    hide Do, Horizon;
    if ops != [] {
      var n := |ops| - 1;
      forall i | 0 <= i < n ensures
          var h := Horizon(ops[..n][i], DoAll(p, ops[..n][..i], true).ttl); h.Some? ==> h.value <= horizon {
        assert ops[..n][..i] == ops[..i];
      }
      DoAllFollows(p, ops[..n], horizon);
      DoFollows(DoAll(p, ops[..n], true), DoAll(p, ops[..n], false), ops[n], horizon);
    }
  }

  /** A store that drops items early answers a lookup like one that only filters at lookup, as long as
      no earlier pruning looked further ahead than this lookup. */
  lemma EagerAnswersLikeLazy(p: Plain, ops: seq<Op>, id: string, now: Time)
    requires PrunedUpTo(p, ops, now - DoAll(p, ops, true).ttl)
    ensures var eager, lazy := DoAll(p, ops, true), DoAll(p, ops, false);
            Lookup(eager.items, eager.ttl, id, now) == Lookup(lazy.items, lazy.ttl, id, now)
  {
    hide TrimSpace, DoAll;
    DoAllFollows(p, ops, now - DoAll(p, ops, true).ttl);
  }

  /** That condition is exact: after a pruning, all maps answer a lookup unchanged if and only if the
      horizon did not fall. It falls when the clock goes back or the time to live grows. */
  lemma HorizonIsExact(pruneAt: Time, ttl1: int, lookupAt: Time, ttl2: int)
    ensures (forall items: Items, id: string ::
               Lookup(Live(items, pruneAt, ttl1), ttl2, id, lookupAt) == Lookup(items, ttl2, id, lookupAt))
            <==> pruneAt - ttl1 <= lookupAt - ttl2
  {
    if pruneAt - ttl1 > lookupAt - ttl2 {
      var record := StoredResponse("", lookupAt - ttl2, "", "", "");
      var items := map["r" := record];
      TrimSpaceOfTrimmed("r");
      assert Lookup(items, ttl2, "r", lookupAt) == Some(record);
      assert Lookup(Live(items, pruneAt, ttl1), ttl2, "r", lookupAt) == None;
    }
  }
}
