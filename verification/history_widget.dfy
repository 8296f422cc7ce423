/** The `SearchHistory` display widget: relative-age labels, the one-line result summary, and the set of
    expanded entries. The current time is a parameter. */
module HistoryWidget {
  import opened Optional
  import opened Text
  import Json

  const MinuteMs: int := 60000
  const HourMs: int := 3600000
  const DayMs: int := 86400000

  /** The coarsest unit formatTime reports; there is nothing above days. */
  datatype Age = JustNow | MinutesAgo(minutes: nat) | HoursAgo(hours: nat) | DaysAgo(days: nat)

  /** The bucket for `diff` elapsed milliseconds. Each unit count is the floor of a division by a
      positive constant, which Dafny's `/` computes exactly. A negative `diff` (a timestamp in the
      future) counts as "just now". */
  function AgeOf(diff: int): (a: Age)
    ensures a == JustNow <==> diff < MinuteMs
    ensures a.MinutesAgo? <==> MinuteMs <= diff < HourMs
    ensures a.HoursAgo? <==> HourMs <= diff < DayMs
    ensures a.DaysAgo? <==> DayMs <= diff
    ensures a.MinutesAgo? ==> 1 <= a.minutes <= 59 && a.minutes * MinuteMs <= diff < (a.minutes + 1) * MinuteMs
    ensures a.HoursAgo? ==> 1 <= a.hours <= 23 && a.hours * HourMs <= diff < (a.hours + 1) * HourMs
    ensures a.DaysAgo? ==> 1 <= a.days && a.days * DayMs <= diff < (a.days + 1) * DayMs
  {
    var minutes := diff / MinuteMs;
    var hours := diff / HourMs;
    var days := diff / DayMs;
    if minutes < 1 then JustNow
    else if minutes < 60 then MinutesAgo(minutes)
    else if hours < 24 then HoursAgo(hours)
    else DaysAgo(days)
  }

  function AgeText(a: Age): string
  {
    match a
    case JustNow => "Just now"
    case MinutesAgo(m) => NatToString(m) + "m ago"
    case HoursAgo(h) => NatToString(h) + "h ago"
    case DaysAgo(d) => NatToString(d) + "d ago"
  }

  /** Reads a label back into its bucket. */
  function ParseAge(s: string): Option<Age>
  {
    if s == "Just now" then Some(JustNow)
    else if |s| < 5 then None
    else
      var count := ParseNat(s[..|s| - 5]);
      var unit := s[|s| - 5..];
      if count.None? then None
      else if unit == "m ago" then Some(MinutesAgo(count.value))
      else if unit == "h ago" then Some(HoursAgo(count.value))
      else if unit == "d ago" then Some(DaysAgo(count.value))
      else None
  }

  /** `formatTime(timestamp)` evaluated at time `now` (both in milliseconds). The label names its bucket
      unambiguously: reading it back gives the bucket, and only ages under a minute say "Just now". */
  function FormatTime(now: int, timestamp: int): (s: string)
    ensures s == "Just now" <==> now - timestamp < MinuteMs
    ensures ParseAge(s) == Some(AgeOf(now - timestamp))
  {
    var a := AgeOf(now - timestamp);
    ParseAgeText(a);
    AgeText(a)
  }

  /** Every label reads back as the bucket it was made from. */
  lemma ParseAgeText(a: Age)
    ensures ParseAge(AgeText(a)) == Some(a)
    ensures AgeText(a) == "Just now" <==> a == JustNow
  {
    match a
    case JustNow =>
    case MinutesAgo(m) => CountedText(m, "m ago");
    case HoursAgo(h) => CountedText(h, "h ago");
    case DaysAgo(d) => CountedText(d, "d ago");
  }

  /** A label reads back only if it is exactly the label of its bucket: no other spelling (a leading zero,
      say) is accepted, so the label `formatTime` prints is fixed by the bucket. */
  lemma ParsedAgeIsText(s: string)
    ensures ParseAge(s).Some? ==> AgeText(ParseAge(s).value) == s
  {
    if ParseAge(s).Some? && s != "Just now" {
      var front := s[..|s| - 5];
      ParsedNatIsPrinted(front);
      assert s == front + s[|s| - 5..];
    }
  }

  lemma CountedText(n: nat, unit: string)
    requires |unit| == 5 && unit[4] == 'o'
    ensures var s := NatToString(n) + unit;
            s != "Just now" && |s| >= 5 && s[..|s| - 5] == NatToString(n) && s[|s| - 5..] == unit
            && ParseNat(s[..|s| - 5]) == Some(n)
  {
    var s := NatToString(n) + unit;
    assert s[|s| - 1] == 'o';
    assert s[..|s| - 5] == NatToString(n);
    assert s[|s| - 5..] == unit;
    ParseNatToString(n);
  }

  /** The collapsed-row summary kinds, in the order they are tried. `count` is `None` when the field has
      no length (it then prints as "undefined"). */
  datatype Summary =
    | MatchesFound(count: Option<nat>)
    | SuggestionCount(count: Option<nat>)
    | EntityCount(count: Option<nat>)
    | TranslationCount(count: Option<nat>)
    | ResultsAvailable

  function Matches(results: Option<Json.Value>): Option<Json.Value>
  {
    Json.Prop(Json.Prop(results, "search"), "matches")
  }

  function SuggestionList(results: Option<Json.Value>): Option<Json.Value>
  {
    Json.Prop(Json.Prop(results, "suggest"), "suggestions")
  }

  predicate HasMatches(results: Option<Json.Value>)
  {
    Json.Truthy(Json.Prop(results, "search")) && Json.Truthy(Matches(results))
  }

  predicate HasSuggestions(results: Option<Json.Value>)
  {
    Json.Truthy(Json.Prop(results, "suggest")) && Json.Truthy(SuggestionList(results))
  }

  predicate HasEntities(results: Option<Json.Value>)
  {
    Json.Truthy(Json.Prop(results, "entities"))
  }

  predicate HasTargets(results: Option<Json.Value>)
  {
    Json.Truthy(Json.Prop(results, "targets"))
  }

  /** `getResultSummary(results)`: nothing for a falsy payload; otherwise the first known field present,
      in the order matches, suggestions, entities, targets, with that field's length; otherwise a
      generic line. */
  function ResultSummary(results: Option<Json.Value>): (r: Option<Summary>)
    ensures r.None? <==> !Json.Truthy(results)
    ensures r.Some? && r.value.MatchesFound? <==> Json.Truthy(results) && HasMatches(results)
    ensures r.Some? && r.value.SuggestionCount? <==>
              Json.Truthy(results) && !HasMatches(results) && HasSuggestions(results)
    ensures r.Some? && r.value.EntityCount? <==>
              Json.Truthy(results) && !HasMatches(results) && !HasSuggestions(results) && HasEntities(results)
    ensures r.Some? && r.value.TranslationCount? <==>
              Json.Truthy(results) && !HasMatches(results) && !HasSuggestions(results) && !HasEntities(results)
              && HasTargets(results)
    ensures r == Some(ResultsAvailable) <==>
              Json.Truthy(results) && !HasMatches(results) && !HasSuggestions(results) && !HasEntities(results)
              && !HasTargets(results)
    ensures r.Some? && r.value.MatchesFound? ==> r.value.count == Json.Length(Matches(results))
    ensures r.Some? && r.value.SuggestionCount? ==> r.value.count == Json.Length(SuggestionList(results))
    ensures r.Some? && r.value.EntityCount? ==> r.value.count == Json.Length(Json.Prop(results, "entities"))
    ensures r.Some? && r.value.TranslationCount? ==> r.value.count == Json.Length(Json.Prop(results, "targets"))
  {
    if !Json.Truthy(results) then None
    else if HasMatches(results) then Some(MatchesFound(Json.Length(Matches(results))))
    else if HasSuggestions(results) then Some(SuggestionCount(Json.Length(SuggestionList(results))))
    else if HasEntities(results) then Some(EntityCount(Json.Length(Json.Prop(results, "entities"))))
    else if HasTargets(results) then Some(TranslationCount(Json.Length(Json.Prop(results, "targets"))))
    else Some(ResultsAvailable)
  }

  /** A truthy payload that is not an object (a list, a string, a number, `true`) has none of the known
      fields, so it is summarised generically. */
  lemma NonObjectSummary(results: Option<Json.Value>)
    requires Json.Truthy(results) && !results.value.JObj?
    ensures ResultSummary(results) == Some(ResultsAvailable)
  {
  }

  function CountText(count: Option<nat>): string
  {
    match count
    case Some(n) => NatToString(n)
    case None => "undefined"
  }

  /** The summary line `getResultSummary` returns. */
  function SummaryText(s: Summary): string
  {
    match s
    case MatchesFound(c) => CountText(c) + " matches found"
    case SuggestionCount(c) => CountText(c) + " suggestions"
    case EntityCount(c) => CountText(c) + " entities"
    case TranslationCount(c) => CountText(c) + " translations"
    case ResultsAvailable => "Results available"
  }

  /** Index of the first space of `s`, or `|s|` when there is none. */
  function SpaceIndex(s: string): (k: nat)
    ensures k <= |s|
    ensures forall i :: 0 <= i < k ==> s[i] != ' '
    ensures k < |s| ==> s[k] == ' '
  {
    if |s| == 0 || s[0] == ' ' then 0 else 1 + SpaceIndex(s[1..])
  }

  /** Reads a printed count back: "undefined" is a missing length. */
  function ParseCount(t: string): Option<Option<nat>>
  {
    if t == "undefined" then Some(None)
    else match ParseNat(t)
      case Some(n) => Some(Some(n))
      case None => None
  }

  /** Reads a summary line back into its kind and count: the count runs up to the first space. */
  function ParseSummary(s: string): Option<Summary>
  {
    if s == "Results available" then Some(ResultsAvailable)
    else
      var k := SpaceIndex(s);
      var count := ParseCount(s[..k]);
      var unit := s[k..];
      if count.None? then None
      else if unit == " matches found" then Some(MatchesFound(count.value))
      else if unit == " suggestions" then Some(SuggestionCount(count.value))
      else if unit == " entities" then Some(EntityCount(count.value))
      else if unit == " translations" then Some(TranslationCount(count.value))
      else None
  }

  /** Every summary line reads back as the summary it was made from, so no two summaries print alike. */
  lemma ParseSummaryText(x: Summary)
    ensures ParseSummary(SummaryText(x)) == Some(x)
  {
    if !x.ResultsAvailable? {
      var unit := match x
        case MatchesFound(_) => " matches found"
        case SuggestionCount(_) => " suggestions"
        case EntityCount(_) => " entities"
        case TranslationCount(_) => " translations";
      CountLine(x.count, unit);
      assert SummaryText(x) == CountText(x.count) + unit;
    }
  }

  /** Splitting a count line at its first space gives back the count and the unit. */
  lemma CountLine(c: Option<nat>, unit: string)
    requires |unit| > 1 && unit[0] == ' '
    ensures var s := CountText(c) + unit;
            s != "Results available" && SpaceIndex(s) == |CountText(c)|
            && s[..SpaceIndex(s)] == CountText(c) && s[SpaceIndex(s)..] == unit
            && ParseCount(CountText(c)) == Some(c)
  {
    var t := CountText(c);
    var s := t + unit;
    if c.Some? {
      ParseNatToString(c.value);
      assert t[0] != 'u';
    }
    assert forall i :: 0 <= i < |t| ==> s[i] == t[i] && t[i] != ' ';
    assert s[|t|] == ' ';
    assert s[0] == t[0] && t[0] != 'R';
    assert s[..|t|] == t && s[|t|..] == unit;
  }

  /** A line reads back only if it is exactly the line of its summary. */
  lemma ParsedSummaryIsText(s: string)
    ensures ParseSummary(s).Some? ==> SummaryText(ParseSummary(s).value) == s
  {
    if ParseSummary(s).Some? && s != "Results available" {
      var k := SpaceIndex(s);
      var t, unit := s[..k], s[k..];
      ParsedCountIsText(t);
      var c := ParseCount(t).value;
      assert s == CountText(c) + unit;
    }
  }

  /** A count reads back only if it is exactly its printing. */
  lemma ParsedCountIsText(t: string)
    ensures ParseCount(t).Some? ==> CountText(ParseCount(t).value) == t
  {
    if t != "undefined" {
      ParsedNatIsPrinted(t);
    }
  }

  /** Keys other than the four inspected ones never change the summary of an object payload. */
  lemma SummaryIgnoresOtherKeys(fields: map<string, Json.Value>, key: string, v: Json.Value)
    requires key != "search" && key != "suggest" && key != "entities" && key != "targets"
    ensures ResultSummary(Some(Json.JObj(fields[key := v]))) == ResultSummary(Some(Json.JObj(fields)))
  {
    var a, b := Some(Json.JObj(fields[key := v])), Some(Json.JObj(fields));
    assert Json.Prop(a, "search") == Json.Prop(b, "search");
    assert Json.Prop(a, "suggest") == Json.Prop(b, "suggest");
    assert Json.Prop(a, "entities") == Json.Prop(b, "entities");
    assert Json.Prop(a, "targets") == Json.Prop(b, "targets");
  }

  /** `toggleItemExpansion(id)`: exactly `id` changes membership in the set of expanded entries. */
  function ToggleItemExpansion(expanded: set<string>, id: string): (r: set<string>)
    ensures id in r <==> id !in expanded
    ensures forall x :: x != id ==> (x in r <==> x in expanded)
  {
    if id in expanded then expanded - {id} else expanded + {id}
  }

  /** Toggling the same entry twice restores the set. */
  lemma ToggleTwice(expanded: set<string>, id: string)
    ensures ToggleItemExpansion(ToggleItemExpansion(expanded, id), id) == expanded
  {
  }
}
