/** `MappingService`: term search and code translation over two in-memory tables, the JSON "partial"
    list and the NAMASTE CSV rows. Loading the files is not modelled; the tables are parameters. */
module MappingService {
  import opened Optional
  import opened Seqs
  import opened Text

  /** One item of the JSON "partial" list. A missing "synonyms" key reads as the empty list.
      `icdCodes` is `None` when the "icd11_tm2_codes" key is missing. */
  datatype Entry = Entry(code: string, labelText: string, synonyms: seq<string>, icdCodes: Option<seq<string>>)

  /** One CSV row; a `None` cell is NaN. */
  datatype Row = Row(id: string, term: Option<string>, synonyms: Option<string>, icdCode: Option<string>)

  /** One search result. `confidence` is in hundredths (0.95 is 95). */
  datatype Hit = Hit(id: string, term: Option<string>, code: string, matched: string, confidence: nat)

  const JsonExactConfidence: nat := 95
  const JsonPartialConfidence: nat := 85
  const CsvConfidence: nat := 80
  const NoDirectMatch: string := "No Direct Match"

  /** `", ".join(parts)`: the parts in order, with ", " between neighbours and nowhere else. */
  function JoinComma(parts: seq<string>): (r: string)
    ensures |parts| == 0 ==> r == ""
    ensures |parts| == 1 ==> r == parts[0]
    ensures |parts| > 0 ==> parts[0] <= r
    ensures |parts| > 0 ==> |r| == SumLengths(parts) + 2 * (|parts| - 1)
  {
    if |parts| == 0 then "" else if |parts| == 1 then parts[0] else parts[0] + ", " + JoinComma(parts[1..])
  }

  function SumLengths(parts: seq<string>): nat
  {
    if |parts| == 0 then 0 else |parts[0]| + SumLengths(parts[1..])
  }

  /** Joining two non-empty lists is joining each and putting one ", " between them. */
  lemma {:induction false} JoinCommaConcat(a: seq<string>, b: seq<string>)
    requires |a| > 0 && |b| > 0
    ensures JoinComma(a + b) == JoinComma(a) + ", " + JoinComma(b)
    decreases |a|
  {
    var ab := a + b;
    assert ab[0] == a[0];
    if |a| == 1 {
      assert ab[1..] == b;
      assert JoinComma(ab) == a[0] + ", " + JoinComma(b);
    } else {
      assert ab[1..] == a[1..] + b;
      JoinCommaConcat(a[1..], b);
      var x, y, z := JoinComma(a[1..]), JoinComma(b), ", ";
      assert JoinComma(ab) == a[0] + z + (x + z + y);
      assert JoinComma(a) == a[0] + z + x;
    }
  }

  /** The lowered query `q` occurs in the lowered label or in some lowered synonym. */
  predicate EntryMatches(q: string, e: Entry)
  {
    Contains(Lower(e.labelText), q) || exists i :: 0 <= i < |e.synonyms| && Contains(Lower(e.synonyms[i]), q)
  }

  /** The pandas mask: the term or the synonyms cell contains `q` ignoring case; NaN cells never match. */
  predicate RowMatches(q: string, row: Row)
  {
    (row.term.Some? && Contains(Lower(row.term.value), q))
    || (row.synonyms.Some? && Contains(Lower(row.synonyms.value), q))
  }

  function EntryMatcher(q: string): Entry -> bool
  {
    (e: Entry) => EntryMatches(q, e)
  }

  function RowMatcher(q: string): Row -> bool
  {
    (row: Row) => RowMatches(q, row)
  }

  function EntryHit(q: string, e: Entry): Hit
  {
    Hit(e.code, Some(e.labelText), e.code, JoinComma(e.icdCodes.GetOr([])),
        if q == Lower(e.labelText) then JsonExactConfidence else JsonPartialConfidence)
  }

  function RowHit(row: Row): Hit
  {
    Hit(row.id, row.term, row.id, row.icdCode.GetOr(NoDirectMatch), CsvConfidence)
  }

  /** The hit every entry would give, matching or not (the reference the JSON hits are ordered by). */
  function EntryHits(q: string, entries: seq<Entry>): (r: seq<Hit>)
    ensures |r| == |entries|
    ensures forall i :: 0 <= i < |entries| ==> r[i] == EntryHit(q, entries[i])
  {
    seq(|entries|, i requires 0 <= i < |entries| => EntryHit(q, entries[i]))
  }

  function RowHits(rows: seq<Row>): (r: seq<Hit>)
    ensures |r| == |rows|
    ensures forall h :: h in r ==> h.confidence == CsvConfidence
    ensures forall i :: 0 <= i < |rows| ==> r[i] == RowHit(rows[i])
  {
    seq(|rows|, i requires 0 <= i < |rows| => RowHit(rows[i]))
  }

  /** Each hit in `r` is the hit of some entry the query matches. */
  predicate FromMatchingEntries(q: string, entries: seq<Entry>, r: seq<Hit>)
  {
    forall i :: 0 <= i < |r| ==>
      exists j :: 0 <= j < |entries| && EntryMatches(q, entries[j]) && r[i] == EntryHit(q, entries[j])
  }

  /** Each entry the query matches has its hit in `r`. */
  predicate CoversMatchingEntries(q: string, entries: seq<Entry>, r: seq<Hit>)
  {
    forall j :: 0 <= j < |entries| && EntryMatches(q, entries[j]) ==> EntryHit(q, entries[j]) in r
  }

  /** The first loop of `search`: one hit per matching JSON entry, in list order. */
  function JsonHits(q: string, entries: seq<Entry>): (r: seq<Hit>)
    ensures |r| <= |entries|
    ensures FromMatchingEntries(q, entries, r)
    ensures CoversMatchingEntries(q, entries, r)
    ensures IsSubsequence(r, EntryHits(q, entries))
  {
    if |entries| == 0 then []
    else
      var rest := JsonHits(q, entries[1..]);
      JsonHitsStep(q, entries, rest);
      if EntryMatches(q, entries[0]) then [EntryHit(q, entries[0])] + rest else rest
  }

  /** The JSON hits are exactly the hits of the matching entries, one per entry, in list order: a duplicate
      entry gives a duplicate hit and nothing is merged. */
  lemma {:induction false} JsonHitsAreMatchingEntries(q: string, entries: seq<Entry>)
    ensures JsonHits(q, entries) == EntryHits(q, Filter(EntryMatcher(q), entries))
  {
    if |entries| > 0 {
      JsonHitsAreMatchingEntries(q, entries[1..]);
      var rest := Filter(EntryMatcher(q), entries[1..]);
      if EntryMatches(q, entries[0]) {
        assert Filter(EntryMatcher(q), entries) == [entries[0]] + rest;
        EntryHitsCons(q, entries[0], rest);
      } else {
        assert Filter(EntryMatcher(q), entries) == rest;
      }
    }
  }

  lemma EntryHitsCons(q: string, e: Entry, es: seq<Entry>)
    ensures EntryHits(q, [e] + es) == [EntryHit(q, e)] + EntryHits(q, es)
  {
    var a, b := EntryHits(q, [e] + es), [EntryHit(q, e)] + EntryHits(q, es);
    forall i | 0 <= i < |a| ensures a[i] == b[i] {
      if i > 0 { assert ([e] + es)[i] == es[i - 1]; }
    }
  }

  /** One step of the first loop: what holds of the hits of the tail holds of the whole list. */
  lemma JsonHitsStep(q: string, entries: seq<Entry>, rest: seq<Hit>)
    requires |entries| > 0
    requires FromMatchingEntries(q, entries[1..], rest)
    requires CoversMatchingEntries(q, entries[1..], rest)
    requires IsSubsequence(rest, EntryHits(q, entries[1..]))
    ensures var r := if EntryMatches(q, entries[0]) then [EntryHit(q, entries[0])] + rest else rest;
            FromMatchingEntries(q, entries, r) && CoversMatchingEntries(q, entries, r)
            && IsSubsequence(r, EntryHits(q, entries))
  {
    StepFrom(q, entries, rest);
    StepCovers(q, entries, rest);
    StepSubsequence(q, entries, rest);
  }

  lemma StepFrom(q: string, entries: seq<Entry>, rest: seq<Hit>)
    requires |entries| > 0
    requires FromMatchingEntries(q, entries[1..], rest)
    ensures var r := if EntryMatches(q, entries[0]) then [EntryHit(q, entries[0])] + rest else rest;
            FromMatchingEntries(q, entries, r)
  {
    var r := if EntryMatches(q, entries[0]) then [EntryHit(q, entries[0])] + rest else rest;
    forall i | 0 <= i < |r|
      ensures exists j :: 0 <= j < |entries| && EntryMatches(q, entries[j]) && r[i] == EntryHit(q, entries[j])
    {
      if EntryMatches(q, entries[0]) && i == 0 {
        assert r[0] == EntryHit(q, entries[0]);
      } else {
        var i' := if EntryMatches(q, entries[0]) then i - 1 else i;
        assert r[i] == rest[i'];
        var j :| 0 <= j < |entries[1..]| && EntryMatches(q, entries[1..][j]) && rest[i'] == EntryHit(q, entries[1..][j]);
        assert entries[1..][j] == entries[j + 1];
      }
    }
  }

  lemma StepCovers(q: string, entries: seq<Entry>, rest: seq<Hit>)
    requires |entries| > 0
    requires CoversMatchingEntries(q, entries[1..], rest)
    ensures var r := if EntryMatches(q, entries[0]) then [EntryHit(q, entries[0])] + rest else rest;
            CoversMatchingEntries(q, entries, r)
  {
    var r := if EntryMatches(q, entries[0]) then [EntryHit(q, entries[0])] + rest else rest;
    forall j | 0 <= j < |entries| && EntryMatches(q, entries[j]) ensures EntryHit(q, entries[j]) in r {
      if j > 0 {
        assert entries[j] == entries[1..][j - 1];
        assert EntryHit(q, entries[j]) in rest;
      }
    }
  }

  lemma StepSubsequence(q: string, entries: seq<Entry>, rest: seq<Hit>)
    requires |entries| > 0
    requires IsSubsequence(rest, EntryHits(q, entries[1..]))
    ensures var r := if EntryMatches(q, entries[0]) then [EntryHit(q, entries[0])] + rest else rest;
            IsSubsequence(r, EntryHits(q, entries))
  {
    var all := EntryHits(q, entries);
    assert all[1..] == EntryHits(q, entries[1..]);
    var r := if EntryMatches(q, entries[0]) then [EntryHit(q, entries[0])] + rest else rest;
    if EntryMatches(q, entries[0]) {
      assert r[0] == all[0] && r[1..] == rest;
    } else if |r| > 0 {
      assert IsSubsequence(r, all[1..]);
    }
  }

  /** `any(r["id"] == id for r in results)`. */
  predicate HasId(hits: seq<Hit>, id: string)
  {
    exists i :: 0 <= i < |hits| && hits[i].id == id
  }

  /** The second loop of `search`: append each candidate row unless a hit with its id is already collected
      (JSON hits and earlier CSV hits alike). */
  function AppendRowHits(acc: seq<Hit>, candidates: seq<Row>): (r: seq<Hit>)
    ensures acc <= r
    ensures |r| <= |acc| + |candidates|
    ensures forall i :: |acc| <= i < |r| ==> r[i] in RowHits(candidates) && !HasId(r[..i], r[i].id)
    ensures forall j :: 0 <= j < |candidates| ==> HasId(r, candidates[j].id)
    decreases |candidates|
  {
    if |candidates| == 0 then acc
    else
      var row := candidates[0];
      var acc' := if HasId(acc, row.id) then acc else acc + [RowHit(row)];
      var r := AppendRowHits(acc', candidates[1..]);
      AppendRowHitsStep(acc, candidates, acc', r);
      r
  }

  /** One step of the second loop: what holds after the rest of the candidates holds after all of them. */
  lemma AppendRowHitsStep(acc: seq<Hit>, candidates: seq<Row>, acc': seq<Hit>, r: seq<Hit>)
    requires |candidates| > 0
    requires acc' == if HasId(acc, candidates[0].id) then acc else acc + [RowHit(candidates[0])]
    requires acc' <= r && |r| <= |acc'| + |candidates| - 1
    requires forall i :: |acc'| <= i < |r| ==> r[i] in RowHits(candidates[1..]) && !HasId(r[..i], r[i].id)
    requires forall j :: 0 <= j < |candidates| - 1 ==> HasId(r, candidates[1..][j].id)
    ensures acc <= r && |r| <= |acc| + |candidates|
    ensures forall i :: |acc| <= i < |r| ==> r[i] in RowHits(candidates) && !HasId(r[..i], r[i].id)
    ensures forall j :: 0 <= j < |candidates| ==> HasId(r, candidates[j].id)
  {
    var row := candidates[0];
    assert HasId(acc', row.id) by {
      if !HasId(acc, row.id) { assert acc'[|acc|].id == row.id; }
    }
    assert HasId(r, row.id) by { var i :| 0 <= i < |acc'| && acc'[i].id == row.id; assert r[i] == acc'[i]; }
    forall j | 0 <= j < |candidates| ensures HasId(r, candidates[j].id) {
      if j > 0 { assert candidates[j] == candidates[1..][j - 1]; }
    }
    assert RowHits(candidates[1..]) == RowHits(candidates)[1..];
    forall i | |acc| <= i < |r| ensures r[i] in RowHits(candidates) && !HasId(r[..i], r[i].id) {
      if i < |acc'| {
        assert acc' != acc && i == |acc|;
        assert r[i] == RowHit(row) && r[..i] == acc;
        assert RowHits(candidates)[0] == RowHit(row);
      }
    }
  }

  /** Candidate `j` brings an id that neither the collected hits nor an earlier candidate carries. */
  predicate FirstNew(acc: seq<Hit>, candidates: seq<Row>, j: nat)
    requires j < |candidates|
  {
    !HasId(acc, candidates[j].id) && forall k :: 0 <= k < j ==> candidates[k].id != candidates[j].id
  }

  /** The candidates from index `j` on that bring a new id, in row order. */
  function NewRowsFrom(acc: seq<Hit>, candidates: seq<Row>, j: nat): seq<Row>
    requires j <= |candidates|
    decreases |candidates| - j
  {
    if j == |candidates| then []
    else (if FirstNew(acc, candidates, j) then [candidates[j]] else []) + NewRowsFrom(acc, candidates, j + 1)
  }

  /** The candidates that bring an id neither `acc` nor an earlier candidate carries, in row order. */
  function NewRows(acc: seq<Hit>, candidates: seq<Row>): seq<Row>
  {
    NewRowsFrom(acc, candidates, 0)
  }

  /** The second loop appends exactly the CSV hits of the candidates that bring a new id, in row order. */
  lemma {:induction false} AppendRowHitsIsNewRows(acc: seq<Hit>, candidates: seq<Row>)
    ensures AppendRowHits(acc, candidates)[|acc|..] == RowHits(NewRows(acc, candidates))
    decreases |candidates|
  {
    if |candidates| > 0 {
      var row := candidates[0];
      var acc' := if HasId(acc, row.id) then acc else acc + [RowHit(row)];
      var head := if HasId(acc, row.id) then [] else [row];
      var r := AppendRowHits(acc', candidates[1..]);
      AppendRowHitsIsNewRows(acc', candidates[1..]);
      NewRowsCons(acc, candidates);
      RowHitsConcat(head, NewRows(acc', candidates[1..]));
      AppendedSplit(acc, acc', r, RowHits(head));
    }
  }

  /** The first candidate contributes itself when its id is new, and the rest is taken against the
      collected hits with its hit added. */
  lemma NewRowsCons(acc: seq<Hit>, candidates: seq<Row>)
    requires |candidates| > 0
    ensures var row := candidates[0];
            var acc' := if HasId(acc, row.id) then acc else acc + [RowHit(row)];
            NewRows(acc, candidates) == (if HasId(acc, row.id) then [] else [row]) + NewRows(acc', candidates[1..])
  {
    NewRowsShift(acc, candidates, 1);
    assert FirstNew(acc, candidates, 0) <==> !HasId(acc, candidates[0].id);
  }

  lemma AppendedSplit(acc: seq<Hit>, acc': seq<Hit>, r: seq<Hit>, added: seq<Hit>)
    requires acc' == acc + added && acc' <= r
    ensures r[|acc|..] == added + r[|acc'|..]
  {
  }

  lemma RowHitsConcat(a: seq<Row>, b: seq<Row>)
    ensures RowHits(a + b) == RowHits(a) + RowHits(b)
  {
    assert forall i :: 0 <= i < |b| ==> (a + b)[|a| + i] == b[i];
  }

  /** Past the first candidate, being new for `acc` is being new for `acc` with the first candidate's
      hit added when its id is new. */
  lemma {:induction false} NewRowsShift(acc: seq<Hit>, candidates: seq<Row>, j: nat)
    requires 1 <= j <= |candidates|
    ensures var acc' := if HasId(acc, candidates[0].id) then acc else acc + [RowHit(candidates[0])];
            NewRowsFrom(acc, candidates, j) == NewRowsFrom(acc', candidates[1..], j - 1)
    decreases |candidates| - j
  {
    var acc' := if HasId(acc, candidates[0].id) then acc else acc + [RowHit(candidates[0])];
    if j < |candidates| {
      NewRowsShift(acc, candidates, j + 1);
      FirstNewShift(acc, candidates, j);
      assert candidates[1..][j - 1] == candidates[j];
    }
  }

  lemma FirstNewShift(acc: seq<Hit>, candidates: seq<Row>, j: nat)
    requires 1 <= j < |candidates|
    ensures var acc' := if HasId(acc, candidates[0].id) then acc else acc + [RowHit(candidates[0])];
            FirstNew(acc, candidates, j) <==> FirstNew(acc', candidates[1..], j - 1)
  {
    var acc' := if HasId(acc, candidates[0].id) then acc else acc + [RowHit(candidates[0])];
    var id := candidates[j].id;
    assert HasId(acc', id) <==> HasId(acc, id) || (!HasId(acc, candidates[0].id) && candidates[0].id == id) by {
      if !HasId(acc, candidates[0].id) {
        assert acc'[|acc|].id == candidates[0].id;
        if HasId(acc', id) && !HasId(acc, id) {
          var i :| 0 <= i < |acc'| && acc'[i].id == id;
          if i < |acc| { assert acc'[i] == acc[i]; }
        }
        if HasId(acc, id) {
          var i :| 0 <= i < |acc| && acc[i].id == id;
          assert acc'[i] == acc[i];
        }
      }
    }
    assert forall k :: 0 <= k < j - 1 ==> candidates[1..][k] == candidates[k + 1];
    if HasId(acc, candidates[0].id) && !HasId(acc, id) {
      assert candidates[0].id != id;
    }
  }

  /** The appended hits follow the candidates' row order. */
  lemma {:induction false} AppendRowHitsInRowOrder(acc: seq<Hit>, candidates: seq<Row>)
    ensures IsSubsequence(AppendRowHits(acc, candidates)[|acc|..], RowHits(candidates))
    decreases |candidates|
  {
    var r := AppendRowHits(acc, candidates);
    if |candidates| > 0 {
      var row := candidates[0];
      var acc' := if HasId(acc, row.id) then acc else acc + [RowHit(row)];
      AppendRowHitsInRowOrder(acc', candidates[1..]);
      assert r == AppendRowHits(acc', candidates[1..]);
      var all := RowHits(candidates);
      assert all[1..] == RowHits(candidates[1..]);
      if HasId(acc, row.id) {
        StillSubsequence(r[|acc|..], all);
      } else {
        assert r[|acc|..][0] == all[0] && r[|acc|..][1..] == r[|acc'|..];
      }
    }
  }

  /** Dropping the head of the longer list keeps a subsequence relation. */
  lemma StillSubsequence<T>(a: seq<T>, b: seq<T>)
    requires |b| > 0 && IsSubsequence(a, b[1..])
    ensures IsSubsequence(a, b)
  {
  }

  /** Every candidate with a new id is appended as its CSV hit. */
  lemma {:induction false} AppendRowHitsTakesFirstNew(acc: seq<Hit>, candidates: seq<Row>)
    ensures var r := AppendRowHits(acc, candidates);
            forall j :: 0 <= j < |candidates| && FirstNew(acc, candidates, j) ==> RowHit(candidates[j]) in r[|acc|..]
    decreases |candidates|
  {
    var r := AppendRowHits(acc, candidates);
    if |candidates| > 0 {
      var row := candidates[0];
      var acc' := if HasId(acc, row.id) then acc else acc + [RowHit(row)];
      AppendRowHitsTakesFirstNew(acc', candidates[1..]);
      assert r == AppendRowHits(acc', candidates[1..]);
      forall j | 0 <= j < |candidates| && FirstNew(acc, candidates, j)
        ensures RowHit(candidates[j]) in r[|acc|..]
      {
        if j == 0 {
          assert r[|acc|] == RowHit(row);
        } else {
          var id := candidates[j].id;
          assert candidates[1..][j - 1] == candidates[j];
          assert !HasId(acc', id) by {
            forall i | 0 <= i < |acc'| ensures acc'[i].id != id {
              if i < |acc| { assert acc'[i] == acc[i]; }
            }
          }
          assert FirstNew(acc', candidates[1..], j - 1) by {
            forall k | 0 <= k < j - 1 ensures candidates[1..][k].id != id {
              assert candidates[1..][k] == candidates[k + 1];
            }
          }
          assert r[|acc'|..] == r[|acc|..][|acc'| - |acc|..];
        }
      }
    }
  }

  /** The rows `df[mask].head(n)` hands to the second loop. */
  function Candidates(q: string, rows: seq<Row>, n: int): seq<Row>
  {
    Prefix(Filter(RowMatcher(q), rows), n)
  }

  /** `search(query, limit)`. The hits start with the JSON hits; CSV rows are consulted only when there are
      fewer JSON hits than `limit`, and then only the first `limit - |JSON hits|` matching rows, each one
      added only if no collected hit has its id. The whole is cut to `limit` (Python's `[:limit]`). */
  function Search(entries: seq<Entry>, rows: seq<Row>, query: string, limit: int): (r: seq<Hit>)
    ensures 0 <= limit ==> |r| <= limit
    ensures var js := JsonHits(Lower(query), entries);
            |js| >= limit ==> r == Prefix(js, limit)
    ensures var js := JsonHits(Lower(query), entries);
            RowHitsAfter(js, r, RowHits(Candidates(Lower(query), rows, limit - |js|)))
  {
    var q := Lower(query);
    Collect(JsonHits(q, entries), q, rows, limit)
  }

  /** Past the first `|js|` places, `r` holds only CSV hits (confidence 80) drawn from `tail`, each with an
      id no earlier hit carries. */
  predicate RowHitsAfter(js: seq<Hit>, r: seq<Hit>, tail: seq<Hit>)
  {
    forall i :: |js| <= i < |r| ==>
      && r[i].confidence == CsvConfidence
      && r[i] in tail
      && !HasId(r[..i], r[i].id)
  }

  /** The second half of the search: top the JSON hits `js` up from the CSV rows, then cut to `limit`. */
  function Collect(js: seq<Hit>, q: string, rows: seq<Row>, limit: int): (r: seq<Hit>)
    ensures 0 <= limit ==> |r| <= limit
    ensures |js| >= limit ==> r == Prefix(js, limit)
    ensures RowHitsAfter(js, r, RowHits(Candidates(q, rows, limit - |js|)))
  {
    if |js| < limit then
      var c := Candidates(q, rows, limit - |js|);
      TopUp(js, c, limit);
      Prefix(AppendRowHits(js, c), limit)
    else Prefix(js, limit)
  }

  /** The JSON hits lead the result: all of them when they fit in `limit`. */
  lemma SearchJsonFirst(entries: seq<Entry>, rows: seq<Row>, query: string, limit: int)
    ensures var js := JsonHits(Lower(query), entries);
            var r := Search(entries, rows, query, limit);
            (|js| <= limit ==> js <= r) && (limit <= |js| ==> r <= js)
  {
    var q := Lower(query);
    var js := JsonHits(q, entries);
    if |js| < limit {
      TopUp(js, Candidates(q, rows, limit - |js|), limit);
    }
  }

  /** When the JSON hits fall short of `limit`, the top-up really happens: the final cut removes nothing, so
      the CSV part is exactly the hits of the candidate rows that bring a new id, in row order, and every
      candidate row's id is held by some hit. */
  lemma SearchTopsUp(entries: seq<Entry>, rows: seq<Row>, query: string, limit: int)
    ensures var js := JsonHits(Lower(query), entries);
            var c := Candidates(Lower(query), rows, limit - |js|);
            var r := Search(entries, rows, query, limit);
            |js| < limit ==>
              && r == AppendRowHits(js, c)
              && r[|js|..] == RowHits(NewRows(js, c))
              && (forall j :: 0 <= j < |c| ==> HasId(r, c[j].id))
              && (forall j :: 0 <= j < |c| && FirstNew(js, c, j) ==> RowHit(c[j]) in r[|js|..])
              && IsSubsequence(r[|js|..], RowHits(c))
  {
    var q := Lower(query);
    var js := JsonHits(q, entries);
    if |js| < limit {
      var c := Candidates(q, rows, limit - |js|);
      CollectIsTopUp(js, q, rows, limit);
      AppendRowHitsIsNewRows(js, c);
      AppendRowHitsInRowOrder(js, c);
      AppendRowHitsTakesFirstNew(js, c);
    }
  }

  /** With fewer hits collected than `limit`, the cut to `limit` keeps the whole topped-up list. */
  lemma CollectIsTopUp(js: seq<Hit>, q: string, rows: seq<Row>, limit: int)
    requires |js| < limit
    ensures Collect(js, q, rows, limit) == AppendRowHits(js, Candidates(q, rows, limit - |js|))
  {
    var all := AppendRowHits(js, Candidates(q, rows, limit - |js|));
    CandidatesBound(q, rows, limit - |js|);
    assert |all| <= limit;
    assert Prefix(all, limit) == all;
  }

  /** `head(n)` yields at most `n` rows. */
  lemma CandidatesBound(q: string, rows: seq<Row>, n: int)
    requires 0 <= n
    ensures |Candidates(q, rows, n)| <= n
  {
  }

  /** The cut to `limit` after topping up keeps all JSON hits and only deduplicated CSV hits. */
  lemma TopUp(js: seq<Hit>, c: seq<Row>, limit: int)
    requires |js| < limit
    ensures var r := Prefix(AppendRowHits(js, c), limit);
            && |r| <= limit
            && js <= r
            && forall i :: |js| <= i < |r| ==>
                 r[i].confidence == CsvConfidence && r[i] in RowHits(c) && !HasId(r[..i], r[i].id)
  {
    var all := AppendRowHits(js, c);
    var r := Prefix(all, limit);
    assert |r| == Min(limit, |all|);
    forall i | |js| <= i < |r|
      ensures r[i].confidence == CsvConfidence && r[i] in RowHits(c) && !HasId(r[..i], r[i].id)
    {
      assert r[i] == all[i] && r[..i] == all[..i];
    }
  }

  /** Every JSON-sourced hit names a JSON entry whose label or some synonym contains the lowered query,
      ignoring case, and carries 95 exactly when the lowered label equals the lowered query. */
  lemma JsonHitsMatch(entries: seq<Entry>, query: string)
    ensures var js := JsonHits(Lower(query), entries);
            forall i :: 0 <= i < |js| ==>
              exists j :: 0 <= j < |entries| && entries[j].code == js[i].id && js[i].term == Some(entries[j].labelText)
                && EntryMatches(Lower(query), entries[j])
                && (js[i].confidence == JsonExactConfidence <==> Lower(query) == Lower(entries[j].labelText))
                && (js[i].confidence == JsonExactConfidence || js[i].confidence == JsonPartialConfidence)
  {
    var q := Lower(query);
    var js := JsonHits(q, entries);
    forall i | 0 <= i < |js|
      ensures exists j :: 0 <= j < |entries| && entries[j].code == js[i].id && js[i].term == Some(entries[j].labelText)
                && EntryMatches(q, entries[j])
                && (js[i].confidence == JsonExactConfidence <==> q == Lower(entries[j].labelText))
                && (js[i].confidence == JsonExactConfidence || js[i].confidence == JsonPartialConfidence)
    {
      var j :| 0 <= j < |entries| && EntryMatches(q, entries[j]) && js[i] == EntryHit(q, entries[j]);
    }
  }

  /** Every CSV-sourced hit comes from a row whose term or synonyms contain the query, has confidence 80,
      and shows the row's ICD code, or "No Direct Match" when that cell is NaN. */
  lemma CandidateHitsMatch(q: string, rows: seq<Row>, n: int, h: Hit)
    requires h in RowHits(Candidates(q, rows, n))
    ensures exists k :: 0 <= k < |rows| && RowMatches(q, rows[k]) && h.id == rows[k].id && h.code == rows[k].id
              && h.term == rows[k].term && h.confidence == CsvConfidence
              && (rows[k].icdCode.Some? ==> h.matched == rows[k].icdCode.value)
              && (rows[k].icdCode.None? ==> h.matched == NoDirectMatch)
  {
    var c := Candidates(q, rows, n);
    var f := Filter(RowMatcher(q), rows);
    var i :| 0 <= i < |c| && RowHits(c)[i] == h;
    assert c[i] == f[i];
    assert RowMatcher(q)(f[i]);
    var k :| 0 <= k < |rows| && rows[k] == f[i];
  }

  datatype Status = Mapped | Pending

  datatype Translation = Translation(
    sourceCode: string,
    sourceTerm: Option<string>,
    targetCode: string,
    system: string,
    status: Status)

  /** What `translate` gives: a mapping, `None` (no match), or the KeyError raised when the matching JSON
      entry has no "icd11_tm2_codes" key. */
  datatype TranslateOutcome = Translated(t: Translation) | NoMatch | MissingCodesKey

  const CsvSystem: string := "ICD-11 TM2"
  const JsonSystem: string := "ICD-11"
  const Tbd: string := "TBD"

  /** Index of the first row with the given id (`row.iloc[0]` of the id filter). */
  function FirstRow(rows: seq<Row>, code: string): (r: Option<nat>)
    ensures r.Some? ==> r.value < |rows| && rows[r.value].id == code
    ensures r.Some? ==> forall j :: 0 <= j < r.value ==> rows[j].id != code
    ensures r.None? <==> forall j :: 0 <= j < |rows| ==> rows[j].id != code
  {
    if |rows| == 0 then None
    else if rows[0].id == code then Some(0)
    else
      var rest := FirstRow(rows[1..], code);
      assert forall j :: 1 <= j < |rows| ==> rows[j] == rows[1..][j - 1];
      if rest.Some? then Some(rest.value + 1) else None
  }

  /** Index of the first JSON entry with the given code. */
  function FirstEntry(entries: seq<Entry>, code: string): (r: Option<nat>)
    ensures r.Some? ==> r.value < |entries| && entries[r.value].code == code
    ensures r.Some? ==> forall j :: 0 <= j < r.value ==> entries[j].code != code
    ensures r.None? <==> forall j :: 0 <= j < |entries| ==> entries[j].code != code
  {
    if |entries| == 0 then None
    else if entries[0].code == code then Some(0)
    else
      var rest := FirstEntry(entries[1..], code);
      assert forall j :: 1 <= j < |entries| ==> entries[j] == entries[1..][j - 1];
      if rest.Some? then Some(rest.value + 1) else None
  }

  /** `translate(code)`: an exact id match among the CSV rows takes precedence; then an exact code match
      among the JSON entries; otherwise nothing. */
  function Translate(entries: seq<Entry>, rows: seq<Row>, code: string): (r: TranslateOutcome)
    ensures r == NoMatch <==>
              (forall j :: 0 <= j < |rows| ==> rows[j].id != code)
              && (forall j :: 0 <= j < |entries| ==> entries[j].code != code)
    ensures forall k :: 0 <= k < |rows| && rows[k].id == code && (forall j :: 0 <= j < k ==> rows[j].id != code) ==>
              && r.Translated?
              && r.t.sourceCode == code
              && r.t.sourceTerm == rows[k].term
              && r.t.system == CsvSystem
              && (r.t.status == Mapped <==> rows[k].icdCode.Some?)
              && r.t.targetCode == rows[k].icdCode.GetOr(Tbd)
    ensures (forall j :: 0 <= j < |rows| ==> rows[j].id != code) ==>
              forall k :: 0 <= k < |entries| && entries[k].code == code
                          && (forall j :: 0 <= j < k ==> entries[j].code != code) ==>
                && (entries[k].icdCodes.None? <==> r == MissingCodesKey)
                && (entries[k].icdCodes.Some? ==>
                      && r.Translated?
                      && r.t.sourceCode == code
                      && r.t.sourceTerm == Some(entries[k].labelText)
                      && r.t.system == JsonSystem
                      && r.t.status == Mapped
                      && r.t.targetCode == (if |entries[k].icdCodes.value| > 0 then entries[k].icdCodes.value[0] else Tbd))
  {
    match FirstRow(rows, code)
    case Some(k) =>
      var row := rows[k];
      Translated(Translation(row.id, row.term, row.icdCode.GetOr(Tbd), CsvSystem,
                             if row.icdCode.Some? then Mapped else Pending))
    case None =>
      match FirstEntry(entries, code)
      case Some(k) =>
        var e := entries[k];
        if e.icdCodes.None? then MissingCodesKey
        else
          Translated(Translation(e.code, Some(e.labelText),
                                 if |e.icdCodes.value| > 0 then e.icdCodes.value[0] else Tbd, JsonSystem, Mapped))
      case None => NoMatch
  }

  /** A pending mapping always shows "TBD" as its target. */
  lemma PendingIsTbd(entries: seq<Entry>, rows: seq<Row>, code: string)
    ensures var o := Translate(entries, rows, code);
            o.Translated? && o.t.status == Pending ==> o.t.targetCode == Tbd && o.t.system == CsvSystem
  {
  }

  datatype Stats = Stats(totalMappings: nat, dailyQueries: nat, activeUsers: nat, fhirResources: nat)

  /** `get_stats()`: the mapping total counts both tables; the resource count is the CSV rows alone;
      the two usage figures are fixed placeholders. */
  function GetStats(entries: seq<Entry>, rows: seq<Row>): (s: Stats)
    ensures s.fhirResources == |rows|
    ensures s.totalMappings == s.fhirResources + |entries|
    ensures s.dailyQueries == 142 && s.activeUsers == 12
  {
    Stats(|rows| + |entries|, 142, 12, |rows|)
  }
}
