/** The `useSearchHistory` hook: one category's bounded, deduplicated, newest-first list of past queries,
    written through to browser storage under `search-history-<category>`.
    Storage is a map from key to stored blob; ids and timestamps are supplied by the caller. */
module HistoryStore {
  import opened Optional
  import opened Seqs
  import Json

  /** The four histories the pages keep; a hook is bound to one of them. */
  datatype Category = Search | Translation | Integration | Problem

  function CategoryName(c: Category): string
  {
    match c
    case Search => "search"
    case Translation => "translation"
    case Integration => "integration"
    case Problem => "problem"
  }

  const KeyPrefix: string := "search-history-"

  /** The storage key a category's list lives under. */
  function StorageKey(c: Category): (k: string)
    ensures KeyPrefix <= k
    ensures k[|KeyPrefix|..] == CategoryName(c)
  {
    KeyPrefix + CategoryName(c)
  }

  /** One remembered query. `results` is the opaque payload (absent when the caller passed none). */
  datatype HistoryItem = HistoryItem(
    id: string,
    query: string,
    timestamp: int,
    results: Option<Json.Value>,
    category: Category)

  /** What storage holds under a key: a list that parses back, or text that does not
      (malformed JSON, a non-array, or the empty string, which the load skips just the same). */
  datatype Blob = Serialized(items: seq<HistoryItem>) | Unparsable

  type Storage = map<string, Blob>

  /** The hook's state: its category, its cap, the in-memory list and the whole of browser storage. */
  datatype Hook = Hook(category: Category, maxItems: int, history: seq<HistoryItem>, storage: Storage)

  /** The load effect: adopt the stored list if the key is present and parses; otherwise keep the
      current list (the failure is only logged). */
  function Load(h: Hook): (r: Hook)
    ensures r.category == h.category && r.maxItems == h.maxItems && r.storage == h.storage
    ensures StorageKey(h.category) !in h.storage ==> r.history == h.history
    ensures StorageKey(h.category) in h.storage && h.storage[StorageKey(h.category)] == Unparsable ==>
              r.history == h.history
    ensures StorageKey(h.category) in h.storage && h.storage[StorageKey(h.category)].Serialized? ==>
              r.history == h.storage[StorageKey(h.category)].items
  {
    var key := StorageKey(h.category);
    if key in h.storage && h.storage[key].Serialized? then h.(history := h.storage[key].items) else h
  }

  /** A freshly mounted hook: empty list, then the load effect. */
  function Mount(category: Category, maxItems: int, storage: Storage): (r: Hook)
    ensures r.category == category && r.maxItems == maxItems && r.storage == storage
    ensures (StorageKey(category) !in storage || storage[StorageKey(category)] == Unparsable) ==> r.history == []
    ensures StorageKey(category) in storage && storage[StorageKey(category)].Serialized? ==>
              r.history == storage[StorageKey(category)].items
  {
    Load(Hook(category, maxItems, [], storage))
  }

  /** What a page reload shows: a new hook over the same storage. */
  function Reload(h: Hook): Hook
  {
    Mount(h.category, h.maxItems, h.storage)
  }

  function QueryIsNot(q: string): HistoryItem -> bool
  {
    (it: HistoryItem) => it.query != q
  }

  function IdIsNot(id: string): HistoryItem -> bool
  {
    (it: HistoryItem) => it.id != id
  }

  /** No two entries share a query. */
  predicate UniqueQueries(s: seq<HistoryItem>)
  {
    forall i, j :: 0 <= i < j < |s| ==> s[i].query != s[j].query
  }

  /** Replace the list and write it through to the category's key. */
  function Persist(h: Hook, updated: seq<HistoryItem>): Hook
  {
    h.(history := updated, storage := h.storage[StorageKey(h.category) := Serialized(updated)])
  }

  /** `addToHistory(query, results)`: drop entries with the same query, put the new item first, keep
      the first `maxItems`, store the result. */
  function AddToHistory(h: Hook, query: string, results: Option<Json.Value>, id: string, now: int): (r: Hook)
    ensures r.category == h.category && r.maxItems == h.maxItems
    ensures h.maxItems >= 1 ==> |r.history| > 0 && r.history[0] == HistoryItem(id, query, now, results, h.category)
    ensures h.maxItems >= 0 ==> |r.history| == Min(h.maxItems, 1 + |Filter(QueryIsNot(query), h.history)|)
    ensures h.maxItems >= 0 ==> |r.history| <= h.maxItems
    ensures forall i :: 1 <= i < |r.history| ==> r.history[i].query != query
    ensures h.maxItems >= 1 ==> r.history[1..] <= Filter(QueryIsNot(query), h.history)
    ensures UniqueQueries(h.history) ==> UniqueQueries(r.history)
    ensures r.storage == h.storage[StorageKey(h.category) := Serialized(r.history)]
  {
    var newItem := HistoryItem(id, query, now, results, h.category);
    var filtered := Filter(QueryIsNot(query), h.history);
    var updated := Prefix([newItem] + filtered, h.maxItems);
    assert forall i :: 1 <= i < |updated| ==> updated[i] == filtered[i - 1];
    AddKeepsUniqueQueries(newItem, h.history, h.maxItems);
    Persist(h, updated)
  }

  /** Dropping the entries of one query keeps the remaining queries distinct. */
  lemma {:induction false} FilterKeepsUniqueQueries(q: string, s: seq<HistoryItem>)
    ensures UniqueQueries(s) ==> UniqueQueries(Filter(QueryIsNot(q), s))
  {
    if |s| > 0 && UniqueQueries(s) {
      FilterKeepsUniqueQueries(q, s[1..]);
      assert UniqueQueries(s[1..]);
      var rest := Filter(QueryIsNot(q), s[1..]);
      if s[0].query != q {
        assert Filter(QueryIsNot(q), s) == [s[0]] + rest;
        forall j | 0 <= j < |rest| ensures rest[j].query != s[0].query {
          assert rest[j] in s[1..];
        }
      }
    }
  }

  /** The list `addToHistory` stores has distinct queries when the old one had. */
  lemma AddKeepsUniqueQueries(x: HistoryItem, s: seq<HistoryItem>, maxItems: int)
    ensures UniqueQueries(s) ==> UniqueQueries(Prefix([x] + Filter(QueryIsNot(x.query), s), maxItems))
  {
    var full := [x] + Filter(QueryIsNot(x.query), s);
    FilterKeepsUniqueQueries(x.query, s);
    PushKeepsUniqueQueries(x, Filter(QueryIsNot(x.query), s));
    var updated := Prefix(full, maxItems);
    assert forall i :: 0 <= i < |updated| ==> updated[i] == full[i];
  }

  /** Putting an entry in front of a list without its query keeps the queries distinct. */
  lemma PushKeepsUniqueQueries(x: HistoryItem, s: seq<HistoryItem>)
    requires forall i :: 0 <= i < |s| ==> s[i].query != x.query
    ensures UniqueQueries(s) ==> UniqueQueries([x] + s)
  {
    forall i, j | 0 <= i < j < |[x] + s| && UniqueQueries(s)
      ensures ([x] + s)[i].query != ([x] + s)[j].query
    {
      if i == 0 {
        assert ([x] + s)[j] == s[j - 1];
      } else {
        assert ([x] + s)[i] == s[i - 1] && ([x] + s)[j] == s[j - 1];
      }
    }
  }

  /** `clearHistory()`: empty list, and the category's key removed from storage (not overwritten). */
  function ClearHistory(h: Hook): (r: Hook)
    ensures r.category == h.category && r.maxItems == h.maxItems
    ensures r.history == []
    ensures StorageKey(h.category) !in r.storage
    ensures forall k :: k in r.storage ==> k in h.storage && r.storage[k] == h.storage[k]
    ensures forall k :: k in h.storage && k != StorageKey(h.category) ==> k in r.storage
  {
    h.(history := [], storage := h.storage - {StorageKey(h.category)})
  }

  /** `removeItem(id)`: keep the entries with a different id, in order, and store the result. */
  function RemoveItem(h: Hook, id: string): (r: Hook)
    ensures r.category == h.category && r.maxItems == h.maxItems
    ensures forall i :: 0 <= i < |r.history| ==> r.history[i].id != id && r.history[i] in h.history
    ensures forall i :: 0 <= i < |h.history| && h.history[i].id != id ==> h.history[i] in r.history
    ensures forall i :: 0 <= i < |h.history| && h.history[i].id != id ==>
              multiset(r.history)[h.history[i]] == multiset(h.history)[h.history[i]]
    ensures IsSubsequence(r.history, h.history)
    ensures (forall i :: 0 <= i < |h.history| ==> h.history[i].id != id) ==> r.history == h.history
    ensures r.storage == h.storage[StorageKey(h.category) := Serialized(r.history)]
  {
    FilterIsSubsequence(IdIsNot(id), h.history);
    FilterKeepsCopies(IdIsNot(id), h.history);
    Persist(h, Filter(IdIsNot(id), h.history))
  }

  /** Clearing twice is the same as clearing once. */
  lemma ClearIdempotent(h: Hook)
    ensures ClearHistory(ClearHistory(h)) == ClearHistory(h)
  {
  }

  /** A change to the list made by the hook. */
  datatype Op =
    | Add(query: string, results: Option<Json.Value>, id: string, now: int)
    | Remove(id: string)
    | Clear

  function Apply(h: Hook, op: Op): Hook
  {
    match op
    case Add(q, res, id, now) => AddToHistory(h, q, res, id, now)
    case Remove(id) => RemoveItem(h, id)
    case Clear => ClearHistory(h)
  }

  function Run(h: Hook, ops: seq<Op>): Hook
    decreases |ops|
  {
    if |ops| == 0 then h else Run(Apply(h, ops[0]), ops[1..])
  }

  /** The invariants of one category's list: capped, queries unique, every entry of the category. */
  predicate Valid(h: Hook)
  {
    && 0 <= h.maxItems
    && |h.history| <= h.maxItems
    && UniqueQueries(h.history)
    && forall i :: 0 <= i < |h.history| ==> h.history[i].category == h.category
  }

  /** Every single operation keeps the invariants. */
  lemma ApplyPreservesValid(h: Hook, op: Op)
    requires Valid(h)
    ensures Valid(Apply(h, op))
  {
    match op
    case Add(q, res, id, now) =>
      var r := AddToHistory(h, q, res, id, now);
      var filtered := Filter(QueryIsNot(q), h.history);
      forall i | 0 <= i < |r.history| ensures r.history[i].category == h.category {
        if i > 0 {
          assert r.history[1..] <= filtered;
          assert r.history[i] == filtered[i - 1];
          assert filtered[i - 1] in h.history;
        }
      }
    case Remove(id) =>
      var r := RemoveItem(h, id);
      forall i, j | 0 <= i < j < |r.history| ensures r.history[i].query != r.history[j].query {
        SubsequenceKeepsUniqueQueries(r.history, h.history);
      }
      SubsequenceNoLonger(r.history, h.history);
    case Clear =>
  }

  lemma {:induction false} SubsequenceNoLonger(a: seq<HistoryItem>, b: seq<HistoryItem>)
    requires IsSubsequence(a, b)
    ensures |a| <= |b|
    decreases |b|
  {
    if |a| > 0 {
      if a[0] == b[0] && IsSubsequence(a[1..], b[1..]) {
        SubsequenceNoLonger(a[1..], b[1..]);
      } else {
        SubsequenceNoLonger(a, b[1..]);
      }
    }
  }

  /** Deleting entries never creates a duplicate query. */
  lemma {:induction false} SubsequenceKeepsUniqueQueries(a: seq<HistoryItem>, b: seq<HistoryItem>)
    requires IsSubsequence(a, b)
    requires UniqueQueries(b)
    ensures UniqueQueries(a)
    decreases |b|
  {
    if |a| > 0 {
      assert UniqueQueries(b[1..]);
      if a[0] == b[0] && IsSubsequence(a[1..], b[1..]) {
        SubsequenceKeepsUniqueQueries(a[1..], b[1..]);
        forall j | 1 <= j < |a| ensures a[0].query != a[j].query {
          SubsequenceMembers(a[1..], b[1..]);
          assert a[j] == a[1..][j - 1];
        }
      } else {
        SubsequenceKeepsUniqueQueries(a, b[1..]);
      }
    }
  }

  lemma {:induction false} SubsequenceMembers(a: seq<HistoryItem>, b: seq<HistoryItem>)
    requires IsSubsequence(a, b)
    ensures forall i :: 0 <= i < |a| ==> a[i] in b
    decreases |b|
  {
    if |a| > 0 {
      if a[0] == b[0] && IsSubsequence(a[1..], b[1..]) {
        SubsequenceMembers(a[1..], b[1..]);
        assert forall i :: 1 <= i < |a| ==> a[i] == a[1..][i - 1];
      } else {
        SubsequenceMembers(a, b[1..]);
      }
    }
  }

  /** Any sequence of adds, removes and clears keeps the invariants: the list never exceeds the cap
      and never holds the same query twice. */
  lemma {:induction false} RunPreservesValid(h: Hook, ops: seq<Op>)
    requires Valid(h)
    ensures Valid(Run(h, ops))
    decreases |ops|
  {
    if |ops| > 0 {
      ApplyPreservesValid(h, ops[0]);
      RunPreservesValid(Apply(h, ops[0]), ops[1..]);
    }
  }

  /** Write-through: after any add, remove or clear, a reload shows exactly the in-memory state. */
  lemma ReloadAfterApply(h: Hook, op: Op)
    ensures Reload(Apply(h, op)) == Apply(h, op)
  {
  }

  /** After a non-empty sequence of operations, a reload reproduces the list the page was showing. */
  lemma {:induction false} ReloadAfterRun(h: Hook, ops: seq<Op>)
    requires |ops| > 0
    ensures Reload(Run(h, ops)) == Run(h, ops)
    decreases |ops|
  {
    if |ops| == 1 {
      ReloadAfterApply(h, ops[0]);
      assert Run(Apply(h, ops[0]), ops[1..]) == Apply(h, ops[0]);
    } else {
      ReloadAfterRun(Apply(h, ops[0]), ops[1..]);
    }
  }

  /** A corrupt stored value loads as an empty list on mount. */
  lemma MountIgnoresCorruptBlob(c: Category, maxItems: int, storage: Storage)
    requires StorageKey(c) in storage && storage[StorageKey(c)] == Unparsable
    ensures Mount(c, maxItems, storage).history == []
  {
  }

  /**
   * A cap-of-3 scenario: adding a, b, c, d and then b again
   * (four distinct queries) leaves [b, d, c] — the repeat moves to the front and the oldest falls off.
   */
  lemma CapThreeScenario(a: string, b: string, c: string, d: string, ids: seq<string>, ts: seq<int>)
    requires a != b && a != c && a != d && b != c && b != d && c != d
    requires |ids| == 5 && |ts| == 5
    ensures var h := Run(Mount(Search, 3, map[]), ScenarioOps(a, b, c, d, ids, ts));
            h.history == [Item(ids[4], b, ts[4]), Item(ids[3], d, ts[3]), Item(ids[2], c, ts[2])]
  {
    var ops := ScenarioOps(a, b, c, d, ids, ts);
    var h3 := ScenarioOpening(a, b, c, ids, ts, ops[3..]);
    ScenarioClosing(h3, b, d, ids, ts);
  }

  /** The first three adds fill the list to its cap, newest first. */
  lemma ScenarioOpening(a: string, b: string, c: string, ids: seq<string>, ts: seq<int>, rest: seq<Op>)
    returns (h3: Hook)
    requires a != b && a != c && b != c
    requires |ids| == 5 && |ts| == 5
    ensures Run(Mount(Search, 3, map[]), [Add(a, None, ids[0], ts[0]), Add(b, None, ids[1], ts[1]),
                                          Add(c, None, ids[2], ts[2])] + rest) == Run(h3, rest)
    ensures h3.category == Search && h3.maxItems == 3
    ensures h3.history == [Item(ids[2], c, ts[2]), Item(ids[1], b, ts[1]), Item(ids[0], a, ts[0])]
  {
    var x1, x2 := Item(ids[0], a, ts[0]), Item(ids[1], b, ts[1]);
    var o1, o2, o3 := Add(a, None, ids[0], ts[0]), Add(b, None, ids[1], ts[1]), Add(c, None, ids[2], ts[2]);
    KeptWhole(b, [x1]);
    KeptWhole(c, [x2, x1]);
    assert [o1, o2, o3] + rest == [o1] + ([o2] + ([o3] + rest));
    var h1 := ScenarioStep(Mount(Search, 3, map[]), [], a, ids[0], ts[0], [], [o2] + ([o3] + rest));
    var h2 := ScenarioStep(h1, [x1], b, ids[1], ts[1], [x1], [o3] + rest);
    h3 := ScenarioStep(h2, [x2, x1], c, ids[2], ts[2], [x2, x1], rest);
  }

  /** A new query pushes out the oldest entry; the repeated one moves to the front. */
  lemma ScenarioClosing(h3: Hook, b: string, d: string, ids: seq<string>, ts: seq<int>)
    requires |ids| == 5 && |ts| == 5 && b != d
    requires h3.category == Search && h3.maxItems == 3
    requires |h3.history| == 3 && h3.history[1] == Item(ids[1], b, ts[1])
    requires h3.history[0].query != b && h3.history[0].query != d && h3.history[2].query != d
    ensures Run(h3, [Add(d, None, ids[3], ts[3]), Add(b, None, ids[4], ts[4])]).history
              == [Item(ids[4], b, ts[4]), Item(ids[3], d, ts[3]), h3.history[0]]
  {
    var o4, o5 := Add(d, None, ids[3], ts[3]), Add(b, None, ids[4], ts[4]);
    assert [o4, o5] == [o4] + [o5];
    var h4 := ScenarioNewQuery(h3, d, ids[3], ts[3], [o5]);
    ScenarioRepeat(h4, b, ids[4], ts[4]);
  }

  /** A fourth distinct query: it goes in front and the oldest of the three entries falls off. */
  lemma ScenarioNewQuery(h: Hook, q: string, id: string, now: int, rest: seq<Op>) returns (r: Hook)
    requires h.category == Search && h.maxItems == 3 && |h.history| == 3
    requires forall i :: 0 <= i < 3 ==> h.history[i].query != q
    ensures Run(h, [Add(q, None, id, now)] + rest) == Run(r, rest)
    ensures r.category == Search && r.maxItems == 3 && r.history == [Item(id, q, now), h.history[0], h.history[1]]
  {
    var x, y, z := h.history[0], h.history[1], h.history[2];
    assert h.history == [x, y, z];
    KeptHead(q, x, y, z);
    r := ScenarioStep(h, [x, y, z], q, id, now, [x, y], rest);
  }

  /** The query of the last of three entries again: that entry goes and the new one leads. */
  lemma ScenarioRepeat(h: Hook, q: string, id: string, now: int)
    requires h.category == Search && h.maxItems == 3 && |h.history| == 3
    requires h.history[0].query != q && h.history[1].query != q && h.history[2].query == q
    ensures Run(h, [Add(q, None, id, now)]).history == [Item(id, q, now), h.history[0], h.history[1]]
  {
    var x, y, z := h.history[0], h.history[1], h.history[2];
    assert h.history == [x, y, z];
    KeptDroppingRepeat(q, x, y, z);
    assert [Add(q, None, id, now)] == [Add(q, None, id, now)] + [];
    var r := ScenarioStep(h, [x, y, z], q, id, now, [x, y], []);
  }

  function ScenarioOps(a: string, b: string, c: string, d: string, ids: seq<string>, ts: seq<int>): (ops: seq<Op>)
    requires |ids| == 5 && |ts| == 5
    ensures |ops| == 5
    ensures ops == [Add(a, None, ids[0], ts[0]), Add(b, None, ids[1], ts[1]), Add(c, None, ids[2], ts[2])] + ops[3..]
    ensures ops[3..] == [Add(d, None, ids[3], ts[3]), Add(b, None, ids[4], ts[4])]
  {
    [Add(a, None, ids[0], ts[0]), Add(b, None, ids[1], ts[1]), Add(c, None, ids[2], ts[2]),
     Add(d, None, ids[3], ts[3]), Add(b, None, ids[4], ts[4])]
  }

  /** Nothing is filtered and nothing is cut when at most two entries differ from the query. */
  lemma KeptWhole(q: string, s: seq<HistoryItem>)
    requires |s| <= 2 && forall i :: 0 <= i < |s| ==> s[i].query != q
    ensures Prefix(Filter(QueryIsNot(q), s), 2) == s
  {
    NoneFiltered(q, s);
  }

  /** Three entries that differ from the query: the oldest is cut. */
  lemma KeptHead(q: string, x: HistoryItem, y: HistoryItem, z: HistoryItem)
    requires x.query != q && y.query != q && z.query != q
    ensures Prefix(Filter(QueryIsNot(q), [x, y, z]), 2) == [x, y]
  {
    NoneFiltered(q, [x, y, z]);
  }

  /** The repeat of the query is filtered out, the other two stay. */
  lemma KeptDroppingRepeat(q: string, x: HistoryItem, y: HistoryItem, z: HistoryItem)
    requires x.query != q && y.query != q && z.query == q
    ensures Prefix(Filter(QueryIsNot(q), [x, y, z]), 2) == [x, y]
  {
    LastFiltered(q, [x, y], z);
    assert [x, y, z] == [x, y] + [z];
  }

  lemma NoneFiltered(q: string, s: seq<HistoryItem>)
    requires forall i :: 0 <= i < |s| ==> s[i].query != q
    ensures Filter(QueryIsNot(q), s) == s
  {
  }

  lemma {:induction false} LastFiltered(q: string, s: seq<HistoryItem>, x: HistoryItem)
    requires forall i :: 0 <= i < |s| ==> s[i].query != q
    requires x.query == q
    ensures Filter(QueryIsNot(q), s + [x]) == s
  {
    if |s| > 0 {
      assert (s + [x])[1..] == s[1..] + [x];
      LastFiltered(q, s[1..], x);
    } else {
      assert s + [x] == [x];
    }
  }

  /** One add of the scenario: `kept` is what survives of `before` after the filter and the cut. */
  lemma ScenarioStep(h: Hook, before: seq<HistoryItem>, q: string, id: string, now: int, kept: seq<HistoryItem>,
                     rest: seq<Op>)
    returns (r: Hook)
    requires h.category == Search && h.maxItems == 3 && h.history == before
    requires Prefix(Filter(QueryIsNot(q), before), 2) == kept
    ensures Run(h, [Add(q, None, id, now)] + rest) == Run(r, rest)
    ensures r.category == Search && r.maxItems == 3 && r.history == [Item(id, q, now)] + kept
  {
    r := Apply(h, Add(q, None, id, now));
    var filtered := Filter(QueryIsNot(q), before);
    assert Prefix([Item(id, q, now)] + filtered, 3) == [Item(id, q, now)] + Prefix(filtered, 2);
    assert ([Add(q, None, id, now)] + rest)[1..] == rest;
  }

  /** A search-category item with no payload. */
  function Item(id: string, query: string, now: int): HistoryItem
  {
    HistoryItem(id, query, now, None, Search)
  }
}
