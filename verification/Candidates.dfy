/** The order in which accounts are tried: the comparator, the list it determines, and the merge with a
    preferred account. */
module Candidates {
  import opened Wrappers
  import opened Strings

  type Time = int
  const HOUR: int := 3600

  /** The fields of an account that dispatch reads or writes. `key` is its canonical email; times that are
      missing or unreadable are `None`. */
  datatype Account = Account(
    key: string, priority: int, hourlyQuota: int, windowStartedAt: Option<Time>, windowRequestCount: int,
    consecutiveFailures: int, lastUsedAt: Option<Time>, disabled: bool, hasArtifacts: bool,
    totalSuccesses: int, totalFailures: int, lastError: string)

  // ---------- Quota ----------

  /** `resetAccountUsageWindow`. */
  function ResetWindow(a: Account, now: Time): Account {
    if a.hourlyQuota <= 0 then a.(windowStartedAt := None, windowRequestCount := 0)
    else if a.windowStartedAt.None? || now - a.windowStartedAt.value >= HOUR then
      a.(windowStartedAt := Some(now), windowRequestCount := 0)
    else a
  }

  /** `accountRemainingQuota`: what is left of the hourly quota, and whether there is one. */
  function RemainingQuota(a: Account, now: Time): (r: (int, bool))
    ensures r.0 >= 0
    ensures !r.1 ==> r.0 == 0
  {
    if a.hourlyQuota <= 0 then (0, false)
    else
      var current := ResetWindow(a, now);
      var remaining := current.hourlyQuota - current.windowRequestCount;
      (if remaining < 0 then 0 else remaining, true)
  }

  // ---------- The comparator ----------

  /** The comparison function handed to the sort. */
  predicate Before(activeKey: string, now: Time, left: Account, right: Account) {
    var leftActive, rightActive := left.key == activeKey, right.key == activeKey;
    if leftActive != rightActive then leftActive
    else if left.priority != right.priority then left.priority > right.priority
    else
      var (leftRemaining, leftLimited) := RemainingQuota(left, now);
      var (rightRemaining, rightLimited) := RemainingQuota(right, now);
      if leftLimited != rightLimited then !leftLimited
      else if leftLimited && rightLimited && leftRemaining != rightRemaining then leftRemaining > rightRemaining
      else if left.consecutiveFailures != right.consecutiveFailures then
        left.consecutiveFailures < right.consecutiveFailures
      else if left.lastUsedAt.None? != right.lastUsedAt.None? then left.lastUsedAt.None?
      else if left.lastUsedAt != right.lastUsedAt then left.lastUsedAt.value < right.lastUsedAt.value
      else Less(left.key, right.key)
  }

  /** The requests left of a quota: all of them unless a window of an hour is under way. */
  function Left(a: Account, now: Time): int {
    if a.windowStartedAt.None? || now >= a.windowStartedAt.value + 3600 then a.hourlyQuota
    else if a.windowRequestCount >= a.hourlyQuota then 0
    else a.hourlyQuota - a.windowRequestCount
  }

  /** The criteria in order, smaller first; the key comes last. */
  function Rank(activeKey: string, now: Time, a: Account): (r: seq<int>)
    ensures |r| == 7
  {
    var limited := a.hourlyQuota > 0;
    [if a.key == activeKey then 0 else 1, -a.priority,
     if limited then 1 else 0, if limited then -Left(a, now) else 0,
     a.consecutiveFailures, if a.lastUsedAt.None? then 0 else 1, if a.lastUsedAt.None? then 0 else a.lastUsedAt.value]
  }

  /** Lexicographic order from position `k` on. */
  predicate LexBefore(a: seq<int>, b: seq<int>, k: nat)
    requires |a| == |b|
    decreases |a| - k
  {
    k < |a| && (a[k] < b[k] || (a[k] == b[k] && LexBefore(a, b, k + 1)))
  }

  lemma BeforeIsRank(activeKey: string, now: Time, a: Account, b: Account)
    ensures var ra, rb := Rank(activeKey, now, a), Rank(activeKey, now, b);
            Before(activeKey, now, a, b) <==> LexBefore(ra, rb, 0) || (ra == rb && Less(a.key, b.key))
  {
    hide Less, RemainingQuota, Left;
    LeftIsRemaining(a, now);
    LeftIsRemaining(b, now);
    var ra, rb := Rank(activeKey, now, a), Rank(activeKey, now, b);
    LexFrom(ra, rb, 0); LexFrom(ra, rb, 1); LexFrom(ra, rb, 2); LexFrom(ra, rb, 3);
    LexFrom(ra, rb, 4); LexFrom(ra, rb, 5); LexFrom(ra, rb, 6); LexFrom(ra, rb, 7);
    assert ra == rb <==> forall k: nat | k < 7 :: ra[k] == rb[k];
    hide LexBefore;
  }

  /** `accountRemainingQuota` says what is left, if there is a quota. */
  lemma LeftIsRemaining(a: Account, now: Time)
    ensures RemainingQuota(a, now) == if a.hourlyQuota > 0 then (Left(a, now), true) else (0, false)
  {}

  /** A window under way is kept if there is a quota; otherwise counting starts afresh, at `now` if there is one. */
  lemma WindowRestarts(a: Account, now: Time)
    ensures var goesOn := a.windowStartedAt.Some? && now < a.windowStartedAt.value + 3600;
      ResetWindow(a, now) ==
        if a.hourlyQuota < 1 then a.(windowStartedAt := None, windowRequestCount := 0)
        else if goesOn then a
        else a.(windowStartedAt := Some(now), windowRequestCount := 0)
  {}

  lemma LexFrom(a: seq<int>, b: seq<int>, k: nat)
    requires |a| == |b|
    ensures LexBefore(a, b, k) <==> k < |a| && (a[k] < b[k] || (a[k] == b[k] && LexBefore(a, b, k + 1)))
  {}

  lemma {:induction false} LexOrder(a: seq<int>, b: seq<int>, c: seq<int>, k: nat)
    requires |a| == |b| == |c| && k <= |a|
    ensures !LexBefore(a, a, k)
    ensures LexBefore(a, b, k) && LexBefore(b, c, k) ==> LexBefore(a, c, k)
    ensures (forall i | k <= i < |a| :: a[i] == b[i]) || LexBefore(a, b, k) || LexBefore(b, a, k)
    decreases |a| - k
  {
    if k < |a| { LexOrder(a, b, c, k + 1); }
  }

  /** The comparator is a strict order, total on accounts with different keys. */
  lemma BeforeIsStrictOrder(activeKey: string, now: Time, a: Account, b: Account, c: Account)
    ensures !Before(activeKey, now, a, a)
    ensures Before(activeKey, now, a, b) && Before(activeKey, now, b, c) ==> Before(activeKey, now, a, c)
    ensures a.key != b.key ==> Before(activeKey, now, a, b) || Before(activeKey, now, b, a)
    ensures !(Before(activeKey, now, a, b) && Before(activeKey, now, b, a))
  {
    hide Before, Rank, Less, LexBefore;
    BeforeIsRank(activeKey, now, a, a);
    BeforeIsRank(activeKey, now, a, b);
    BeforeIsRank(activeKey, now, b, a);
    BeforeIsRank(activeKey, now, b, c);
    BeforeIsRank(activeKey, now, a, c);
    LexOrder(Rank(activeKey, now, a), Rank(activeKey, now, b), Rank(activeKey, now, c), 0);
    LexOrder(Rank(activeKey, now, b), Rank(activeKey, now, a), Rank(activeKey, now, b), 0);
    LessIrreflexive(a.key);
    if Less(a.key, b.key) && Less(b.key, c.key) { LessTransitive(a.key, b.key, c.key); }
    if Less(a.key, b.key) && Less(b.key, a.key) { LessTransitive(a.key, b.key, a.key); }
    LessTotal(a.key, b.key);
  }

  // ---------- The candidate list ----------

  predicate DistinctKeys(accounts: seq<Account>) {
    forall i, j | 0 <= i < j < |accounts| :: accounts[i].key != accounts[j].key
  }

  /** What any sort guarantees: no later account comes before an earlier one. */
  predicate Sorted(activeKey: string, now: Time, accounts: seq<Account>) {
    forall i, j | 0 <= i < j < |accounts| :: !Before(activeKey, now, accounts[j], accounts[i])
  }

  function Eligible(accounts: seq<Account>): seq<Account> {
    if accounts == [] then []
    else
      var last := accounts[|accounts| - 1];
      Eligible(accounts[..|accounts| - 1]) + (if !last.disabled && last.hasArtifacts then [last] else [])
  }

  /** `list` is an outcome of `buildDispatchCandidateOrder` on the configured accounts. */
  predicate IsDispatchOrder(activeKey: string, now: Time, accounts: seq<Account>, list: seq<Account>) {
    multiset(list) == multiset(Eligible(accounts)) && Sorted(activeKey, now, list)
  }

  lemma {:induction false} EligibleSubset(accounts: seq<Account>)
    ensures multiset(Eligible(accounts)) <= multiset(accounts)
  {
    if accounts != [] {
      EligibleSubset(accounts[..|accounts| - 1]);
      assert accounts == accounts[..|accounts| - 1] + [accounts[|accounts| - 1]];
    }
  }

  lemma {:induction false} EligibleExactly(accounts: seq<Account>, a: Account)
    ensures multiset(Eligible(accounts))[a] == if !a.disabled && a.hasArtifacts then multiset(accounts)[a] else 0
  {
    if accounts != [] {
      EligibleExactly(accounts[..|accounts| - 1], a);
      assert accounts == accounts[..|accounts| - 1] + [accounts[|accounts| - 1]];
    }
  }

  /** Every candidate list holds exactly the accounts that are enabled and have artifacts, as often as they are
      configured, and each comes by its criteria, and then by its key, before those behind it. */
  lemma DispatchOrderLists(activeKey: string, now: Time, accounts: seq<Account>, list: seq<Account>)
    requires IsDispatchOrder(activeKey, now, accounts, list)
    ensures forall a :: multiset(list)[a] == if !a.disabled && a.hasArtifacts then multiset(accounts)[a] else 0
    ensures forall i, j | 0 <= i < j < |list| && list[i].key != list[j].key ::
      var ri, rj := Rank(activeKey, now, list[i]), Rank(activeKey, now, list[j]);
      LexBefore(ri, rj, 0) || (ri == rj && Less(list[i].key, list[j].key))
  {
    hide Eligible, Before, Rank, LexBefore, Less;
    forall a ensures multiset(list)[a] == if !a.disabled && a.hasArtifacts then multiset(accounts)[a] else 0 {
      EligibleExactly(accounts, a);
    }
    forall i, j | 0 <= i < j < |list| && list[i].key != list[j].key
      ensures var ri, rj := Rank(activeKey, now, list[i]), Rank(activeKey, now, list[j]);
        LexBefore(ri, rj, 0) || (ri == rj && Less(list[i].key, list[j].key)) {
      BeforeIsStrictOrder(activeKey, now, list[i], list[j], list[i]);
      BeforeIsRank(activeKey, now, list[i], list[j]);
    }
  }

  lemma {:induction false} NoTwice(accounts: seq<Account>, a: Account)
    requires DistinctKeys(accounts)
    ensures multiset(accounts)[a] <= 1
  {
    if accounts != [] {
      var front, last := accounts[..|accounts| - 1], accounts[|accounts| - 1];
      NoTwice(front, a);
      assert accounts == front + [last];
      if a == last { assert a !in front; }
    }
  }

  lemma SortedTail(activeKey: string, now: Time, list: seq<Account>)
    requires Sorted(activeKey, now, list) && list != []
    ensures Sorted(activeKey, now, list[1..])
  {
    hide Before;
  }

  /** Accounts of a collection are told apart by their keys. */
  predicate KeysTellApart(accounts: multiset<Account>) {
    forall x, y | x in accounts && y in accounts && x != y :: x.key != y.key
  }

  /** Nothing precedes the first account of a sorted list. */
  lemma NoneBeforeFirst(activeKey: string, now: Time, list: seq<Account>, x: Account)
    requires Sorted(activeKey, now, list) && x in multiset(list) && x != list[0]
    ensures !Before(activeKey, now, x, list[0])
  {
    hide Before;
    var i :| 0 <= i < |list| && list[i] == x;
    assert 0 < i;
  }

  lemma SameFirst(activeKey: string, now: Time, a: seq<Account>, b: seq<Account>)
    requires multiset(a) == multiset(b) && Sorted(activeKey, now, a) && Sorted(activeKey, now, b)
    requires a != [] && b != [] && KeysTellApart(multiset(a))
    ensures a[0] == b[0]
  {
    hide Before, Sorted;
    assert a[0] in multiset(a) && b[0] in multiset(b);
    BeforeIsStrictOrder(activeKey, now, a[0], b[0], a[0]);
    if a[0] != b[0] {
      NoneBeforeFirst(activeKey, now, a, b[0]);
      NoneBeforeFirst(activeKey, now, b, a[0]);
    }
  }

  /** Two sorted arrangements of the same accounts are equal. */
  lemma {:induction false} SortedIsUnique(activeKey: string, now: Time, a: seq<Account>, b: seq<Account>)
    requires multiset(a) == multiset(b) && Sorted(activeKey, now, a) && Sorted(activeKey, now, b)
    requires KeysTellApart(multiset(a))
    ensures a == b
    decreases |a|
  {
    hide Before, Sorted, KeysTellApart;
    assert |a| == |multiset(a)| && |b| == |multiset(b)|;
    if a != [] {
      SameFirst(activeKey, now, a, b);
      assert a == [a[0]] + a[1..] && b == [a[0]] + b[1..];
      assert multiset(a[1..]) == multiset(a) - multiset{a[0]};
      assert multiset(b[1..]) == multiset(b) - multiset{a[0]};
      SortedTail(activeKey, now, a);
      SortedTail(activeKey, now, b);
      FewerTellApart(multiset(a[1..]), multiset(a));
      SortedIsUnique(activeKey, now, a[1..], b[1..]);
    }
  }

  lemma FewerTellApart(fewer: multiset<Account>, accounts: multiset<Account>)
    requires fewer <= accounts && KeysTellApart(accounts)
    ensures KeysTellApart(fewer)
  {}

  lemma DistinctTellApart(accounts: seq<Account>, some: multiset<Account>)
    requires DistinctKeys(accounts) && some <= multiset(accounts)
    ensures KeysTellApart(some)
  {
    forall x, y | x in some && y in some && x != y ensures x.key != y.key {
      assert x in multiset(accounts) && y in multiset(accounts);
      var i :| 0 <= i < |accounts| && accounts[i] == x;
      var j :| 0 <= j < |accounts| && accounts[j] == y;
      assert i < j || j < i;
    }
  }

  /** With distinct email keys the candidate list does not depend on the sorting algorithm. */
  lemma DispatchOrderIsUnique(activeKey: string, now: Time, accounts: seq<Account>, a: seq<Account>, b: seq<Account>)
    requires DistinctKeys(accounts)
    requires IsDispatchOrder(activeKey, now, accounts, a) && IsDispatchOrder(activeKey, now, accounts, b)
    ensures a == b
  {
    hide Before, Sorted, KeysTellApart, DistinctKeys, Eligible;
    EligibleSubset(accounts);
    DistinctTellApart(accounts, multiset(a));
    SortedIsUnique(activeKey, now, a, b);
  }

  function Insert(activeKey: string, now: Time, x: Account, list: seq<Account>): seq<Account> {
    if list == [] then [x]
    else if Before(activeKey, now, x, list[0]) then [x] + list
    else [list[0]] + Insert(activeKey, now, x, list[1..])
  }

  /** No account of the collection precedes `first`. */
  predicate NoneBefore(activeKey: string, now: Time, accounts: multiset<Account>, first: Account) {
    forall y | y in accounts :: !Before(activeKey, now, y, first)
  }

  lemma SortedCons(activeKey: string, now: Time, first: Account, rest: seq<Account>)
    requires Sorted(activeKey, now, rest) && NoneBefore(activeKey, now, multiset(rest), first)
    ensures Sorted(activeKey, now, [first] + rest)
  {
    hide Before;
    assert forall i | 0 <= i < |rest| :: rest[i] in multiset(rest);
  }

  lemma FirstPrecedesAll(activeKey: string, now: Time, list: seq<Account>, x: Account)
    requires Sorted(activeKey, now, list) && list != []
    ensures NoneBefore(activeKey, now, multiset(list), list[0])
    ensures Before(activeKey, now, x, list[0]) ==> NoneBefore(activeKey, now, multiset(list), x)
  {
    hide Before, Sorted;
    forall y | y in multiset(list)
      ensures !Before(activeKey, now, y, list[0])
      ensures Before(activeKey, now, x, list[0]) ==> !Before(activeKey, now, y, x)
    {
      if y != list[0] { NoneBeforeFirst(activeKey, now, list, y); }
      BeforeIsStrictOrder(activeKey, now, y, x, list[0]);
      BeforeIsStrictOrder(activeKey, now, list[0], x, list[0]);
    }
  }

  lemma {:induction false} InsertSorts(activeKey: string, now: Time, x: Account, list: seq<Account>)
    requires Sorted(activeKey, now, list)
    ensures Sorted(activeKey, now, Insert(activeKey, now, x, list))
    ensures multiset(Insert(activeKey, now, x, list)) == multiset(list) + multiset{x}
  {
    hide Before, Sorted;
    if list == [] {
      SortedCons(activeKey, now, x, []) by { SingleSorted(activeKey, now); }
      assert [x] + [] == [x];
    } else {
      assert list == [list[0]] + list[1..];
      FirstPrecedesAll(activeKey, now, list, x);
      if Before(activeKey, now, x, list[0]) {
        SortedCons(activeKey, now, x, list);
      } else {
        SortedTail(activeKey, now, list);
        InsertSorts(activeKey, now, x, list[1..]);
        SortedCons(activeKey, now, list[0], Insert(activeKey, now, x, list[1..]));
      }
    }
  }

  lemma SingleSorted(activeKey: string, now: Time)
    ensures Sorted(activeKey, now, [])
  {}

  /** A candidate list always exists. */
  lemma {:induction false} DispatchOrderExists(activeKey: string, now: Time, accounts: seq<Account>)
    returns (list: seq<Account>)
    ensures IsDispatchOrder(activeKey, now, accounts, list)
  {
    hide Before, Sorted;
    list := SortAll(activeKey, now, Eligible(accounts));
  }

  lemma {:induction false} SortAll(activeKey: string, now: Time, accounts: seq<Account>) returns (list: seq<Account>)
    ensures multiset(list) == multiset(accounts) && Sorted(activeKey, now, list)
  {
    hide Before;
    if accounts == [] {
      list := [];
    } else {
      var front, last := accounts[..|accounts| - 1], accounts[|accounts| - 1];
      list := SortAll(activeKey, now, front);
      InsertSorts(activeKey, now, last, list);
      list := Insert(activeKey, now, last, list);
      assert accounts == front + [last];
    }
  }

  // ---------- Merging in a preferred account ----------

  /** The first account of every non-blank key, in order. */
  function FirstOfEachKey(accounts: seq<Account>): seq<Account> {
    if accounts == [] then []
    else
      var front, last := FirstOfEachKey(accounts[..|accounts| - 1]), accounts[|accounts| - 1];
      if last.key == "" || HasKey(front, last.key) then front else front + [last]
  }

  predicate HasKey(accounts: seq<Account>, key: string) {
    exists i | 0 <= i < |accounts| :: accounts[i].key == key
  }

  ghost predicate KeysAre(seen: set<string>, accounts: seq<Account>) {
    forall key :: key in seen <==> HasKey(accounts, key)
  }

  lemma FirstOfEachKeyAppend(accounts: seq<Account>, a: Account)
    ensures FirstOfEachKey(accounts + [a])
         == FirstOfEachKey(accounts) + (if a.key == "" || HasKey(FirstOfEachKey(accounts), a.key) then [] else [a])
  {
    assert (accounts + [a])[..|accounts|] == accounts;
  }

  lemma KeysAppend(seen: set<string>, accounts: seq<Account>, a: Account)
    ensures KeysAre(seen, accounts) ==> KeysAre(seen + {a.key}, accounts + [a])
  {
    HasKeyAppend(accounts, a);
  }

  lemma NothingSeenYet()
    ensures FirstOfEachKey([]) == [] && KeysAre({}, [])
    ensures forall key :: !HasKey([], key)
  {}

  method MergeDispatchCandidates(preferred: Option<Account>, candidates: seq<Account>) returns (out: seq<Account>)
    ensures out == FirstOfEachKey((if preferred.Some? then [preferred.value] else []) + candidates)
  {
    hide HasKey, FirstOfEachKey;
    out := [];
    var seen := {};
    ghost var first := if preferred.Some? then [preferred.value] else [];
    NothingSeenYet();
    if preferred.Some? {
      FirstOfEachKeyAppend([], preferred.value);
      assert [] + [preferred.value] == first;
      KeysAppend({}, [], preferred.value);
      if preferred.value.key != "" {
        seen := seen + {preferred.value.key};
        out := out + [preferred.value];
      }
    }
    assert first + candidates[..0] == first;
    for i := 0 to |candidates|
      invariant out == FirstOfEachKey(first + candidates[..i])
      invariant KeysAre(seen, out)
    {
      var account := candidates[i];
      FirstOfEachKeyAppend(first + candidates[..i], account);
      assert first + candidates[..i] + [account] == first + candidates[..i + 1];
      KeysAppend(seen, out, account);
      if account.key != "" && account.key !in seen {
        seen := seen + {account.key};
        out := out + [account];
      }
    }
    assert candidates[..|candidates|] == candidates;
  }

  lemma HasKeyAppend(accounts: seq<Account>, a: Account)
    ensures forall key :: HasKey(accounts + [a], key) <==> HasKey(accounts, key) || key == a.key
  {
    assert (accounts + [a])[|accounts|] == a;
    assert forall i | 0 <= i < |accounts| :: (accounts + [a])[i] == accounts[i];
  }

  /** The merged list has no key twice and loses no key. */
  lemma {:induction false} MergedKeys(accounts: seq<Account>)
    ensures DistinctKeys(FirstOfEachKey(accounts))
    ensures forall key :: HasKey(FirstOfEachKey(accounts), key) <==> key != "" && HasKey(accounts, key)
  {
    if accounts != [] {
      var front, last := accounts[..|accounts| - 1], accounts[|accounts| - 1];
      MergedKeys(front);
      HasKeyAppend(FirstOfEachKey(front), last);
      HasKeyAppend(front, last);
      assert accounts == front + [last];
      assert DistinctKeys(FirstOfEachKey(accounts)) by {
        if !HasKey(FirstOfEachKey(front), last.key) {
          assert forall i | 0 <= i < |FirstOfEachKey(front)| :: FirstOfEachKey(front)[i].key != last.key;
        }
      }
    }
  }

  /** The first position of a key, or the length. */
  function FirstAt(accounts: seq<Account>, key: string): (k: nat)
    ensures k <= |accounts| && forall i | 0 <= i < k :: accounts[i].key != key
    ensures k < |accounts| ==> accounts[k].key == key
  {
    if accounts == [] || accounts[0].key == key then 0 else FirstAt(accounts[1..], key) + 1
  }

  lemma FirstAtMore(accounts: seq<Account>, a: Account, key: string)
    ensures FirstAt(accounts + [a], key)
      == if FirstAt(accounts, key) < |accounts| then FirstAt(accounts, key)
         else if a.key == key then |accounts| else |accounts| + 1
  {
    var longer := accounts + [a];
    var k, l := FirstAt(accounts, key), FirstAt(longer, key);
    assert forall i | 0 <= i < |accounts| :: longer[i] == accounts[i];
    assert longer[|accounts|] == a;
    assert l < |accounts| ==> accounts[l].key == key;
    assert k < |accounts| ==> longer[k].key == key;
  }

  /** Every merged account is the first with its key, and they stand in the order of the list merged. */
  lemma {:induction false} MergedAreFirsts(accounts: seq<Account>)
    ensures var merged := FirstOfEachKey(accounts);
      && (forall k | 0 <= k < |merged| ::
            FirstAt(accounts, merged[k].key) < |accounts| && accounts[FirstAt(accounts, merged[k].key)] == merged[k])
      && (forall k, l | 0 <= k < l < |merged| ::
            FirstAt(accounts, merged[k].key) < FirstAt(accounts, merged[l].key))
  {
    hide FirstAt, HasKey;
    if accounts != [] {
      var front, last := accounts[..|accounts| - 1], accounts[|accounts| - 1];
      assert accounts == front + [last];
      MergedAreFirsts(front);
      MergedKeys(front);
      FirstOfEachKeyAppend(front, last);
      hide FirstOfEachKey;
      var before := FirstOfEachKey(front);
      forall k | 0 <= k < |before| ensures FirstAt(accounts, before[k].key) == FirstAt(front, before[k].key) {
        FirstAtMore(front, last, before[k].key);
      }
      FirstAtMore(front, last, last.key);
      if !HasKey(before, last.key) && last.key != "" { NoKeyNoPlace(front, last.key); }
    }
  }

  lemma NoKeyNoPlace(accounts: seq<Account>, key: string)
    requires !HasKey(accounts, key)
    ensures FirstAt(accounts, key) == |accounts|
  {}

  function Without(accounts: seq<Account>, key: string): seq<Account> {
    if accounts == [] then []
    else
      var last := accounts[|accounts| - 1];
      Without(accounts[..|accounts| - 1], key) + (if last.key == key then [] else [last])
  }

  /** Only the account in front can make another one a repetition. */
  lemma HasKeyBehind(preferred: Account, accounts: seq<Account>, key: string)
    ensures HasKey([preferred] + accounts, key) <==> preferred.key == key || HasKey(accounts, key)
  {
    var all := [preferred] + accounts;
    assert all[0] == preferred;
    assert forall i | 0 <= i < |accounts| :: all[i + 1] == accounts[i];
  }

  lemma FirstOfOne(a: Account)
    ensures FirstOfEachKey([a] + []) == if a.key == "" then [] else [a]
  {
    NothingSeenYet();
    FirstOfEachKeyAppend([], a);
    assert [] + [a] == [a] + [] == [a];
  }

  lemma WithoutMore(accounts: seq<Account>, a: Account, key: string)
    ensures Without(accounts + [a], key) == Without(accounts, key) + (if a.key == key then [] else [a])
  {
    assert (accounts + [a])[..|accounts|] == accounts;
  }

  /** The preferred account comes first, and the others follow as they would without it, less its key; one
      with a blank key changes nothing. */
  lemma {:induction false} PreferredComesFirst(preferred: Account, candidates: seq<Account>)
    ensures FirstOfEachKey([preferred] + candidates)
         == if preferred.key == "" then FirstOfEachKey(candidates)
            else [preferred] + Without(FirstOfEachKey(candidates), preferred.key)
  {
    hide FirstOfEachKey, HasKey, Without;
    if candidates == [] {
      FirstOfOne(preferred);
      NothingSeenYet();
      WithoutNothing(preferred.key);
      assert [preferred] + [] == [preferred];
    } else {
      var front, last := candidates[..|candidates| - 1], candidates[|candidates| - 1];
      PreferredComesFirst(preferred, front);
      MergedKeys([preferred] + front);
      MergedKeys(front);
      HasKeyBehind(preferred, front, last.key);
      FirstOfEachKeyAppend([preferred] + front, last);
      FirstOfEachKeyAppend(front, last);
      WithoutMore(FirstOfEachKey(front), last, preferred.key);
      assert candidates == front + [last];
      assert [preferred] + front + [last] == [preferred] + candidates;
      var others := Without(FirstOfEachKey(front), preferred.key);
      assert [preferred] + others + [last] == [preferred] + (others + [last]);
      assert [preferred] + others + [] == [preferred] + (others + []);
      assert FirstOfEachKey(front) + [] == FirstOfEachKey(front);
    }
  }

  lemma WithoutNothing(key: string)
    ensures Without([], key) == []
  {}
}
