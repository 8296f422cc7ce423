/** The `TranslateSection` component's state logic: type-ahead suggestions, choosing a suggestion, the
    translate request's outcome, and the CSS class per coding system. Server responses are parameters. */
module TranslateSection {
  import opened Optional
  import opened Seqs
  import opened Text

  /** One translation target as the server returns it. */
  datatype Target = Target(system: string, title: string, code: string)

  /** A suggestion as the server sends it: any field may be missing. */
  datatype RawSuggestion = RawSuggestion(labelText: Option<string>, namasteCode: Option<string>, confidence: Option<int>)

  /** A suggestion the component keeps and shows. */
  datatype Suggestion = Suggestion(labelText: string, namasteCode: Option<string>, confidence: Option<int>)

  /** The outcome of a request: the parsed body, or a failure (network error, body not JSON, or a property
      read on a null body), all of which land in the same `catch`. */
  datatype Fetched<T> = Fetched(data: T) | FetchFailed

  /** The component's state. */
  datatype Ui = Ui(code: string, system: string, translateResult: seq<Target>, suggestions: seq<Suggestion>, showDropdown: bool)

  const MaxSuggestions: nat := 20

  /** `(s.label || '')`. */
  function LabelOf(s: RawSuggestion): string
  {
    s.labelText.GetOr("")
  }

  /** The suggestion filter: the label starts with the input, ignoring case. */
  predicate StartsWithInput(input: string, s: RawSuggestion)
  {
    Lower(input) <= Lower(LabelOf(s))
  }

  function AsRaw(s: Suggestion): RawSuggestion
  {
    RawSuggestion(Some(s.labelText), s.namasteCode, s.confidence)
  }

  function AsRawAll(s: seq<Suggestion>): (r: seq<RawSuggestion>)
    ensures |r| == |s|
    ensures forall i :: 0 <= i < |s| ==> r[i] == AsRaw(s[i])
  {
    seq(|s|, i requires 0 <= i < |s| => AsRaw(s[i]))
  }

  /** A non-blank input never keeps a suggestion without a label: "" starts with no non-empty string. */
  lemma UnlabelledNeverKept(input: string, s: RawSuggestion)
    requires !IsBlank(input)
    requires StartsWithInput(input, s)
    ensures s.labelText.Some? && |s.labelText.value| >= |input|
  {
  }

  /** `.filter(...)` followed by the field copy `.map(...)`, for a non-blank input. */
  function KeepMatching(input: string, raw: seq<RawSuggestion>): (r: seq<Suggestion>)
    requires !IsBlank(input)
    ensures |r| <= |raw|
    ensures forall i :: 0 <= i < |r| ==> Lower(input) <= Lower(r[i].labelText)
    ensures forall j :: 0 <= j < |raw| && StartsWithInput(input, raw[j]) ==> raw[j] in AsRawAll(r)
    ensures IsSubsequence(AsRawAll(r), raw)
  {
    if |raw| == 0 then []
    else
      var rest := KeepMatching(input, raw[1..]);
      assert forall j :: 1 <= j < |raw| ==> raw[j] == raw[1..][j - 1];
      if StartsWithInput(input, raw[0]) then
        UnlabelledNeverKept(input, raw[0]);
        var s := Suggestion(raw[0].labelText.value, raw[0].namasteCode, raw[0].confidence);
        assert AsRawAll([s] + rest) == [raw[0]] + AsRawAll(rest);
        [s] + rest
      else
        assert |AsRawAll(rest)| > 0 ==> IsSubsequence(AsRawAll(rest), raw[1..]);
        rest
  }

  function InputMatcher(input: string): RawSuggestion -> bool
  {
    (s: RawSuggestion) => StartsWithInput(input, s)
  }

  /** The kept suggestions are exactly the server's matching suggestions, copy for copy and in order. */
  lemma {:induction false} KeepMatchingIsFilter(input: string, raw: seq<RawSuggestion>)
    requires !IsBlank(input)
    ensures AsRawAll(KeepMatching(input, raw)) == Filter(InputMatcher(input), raw)
  {
    if |raw| > 0 {
      KeepMatchingIsFilter(input, raw[1..]);
      KeepMatchingStep(input, raw);
      assert Filter(InputMatcher(input), raw)
          == (if StartsWithInput(input, raw[0]) then [raw[0]] else []) + Filter(InputMatcher(input), raw[1..]);
    }
  }

  /** One step of `KeepMatching`, seen through `AsRawAll`: the head is kept exactly when it matches. */
  lemma KeepMatchingStep(input: string, raw: seq<RawSuggestion>)
    requires !IsBlank(input) && |raw| > 0
    ensures AsRawAll(KeepMatching(input, raw))
         == (if StartsWithInput(input, raw[0]) then [raw[0]] else []) + AsRawAll(KeepMatching(input, raw[1..]))
  {
    var rest := KeepMatching(input, raw[1..]);
    if StartsWithInput(input, raw[0]) {
      UnlabelledNeverKept(input, raw[0]);
      var s := Suggestion(raw[0].labelText.value, raw[0].namasteCode, raw[0].confidence);
      assert KeepMatching(input, raw) == [s] + rest;
      assert AsRawAll([s] + rest) == [raw[0]] + AsRawAll(rest);
    } else {
      assert KeepMatching(input, raw) == rest;
    }
  }

  /** `handleTypeTranslate(input)`: a blank input or a failed request clears and hides the dropdown;
      otherwise the first 20 server suggestions whose label starts with the input are kept, in server
      order, and the dropdown shows exactly when one is kept. A missing `suggestions` list reads as empty. */
  function HandleTypeTranslate(ui: Ui, input: string, response: Fetched<Option<seq<RawSuggestion>>>): (r: Ui)
    ensures r.code == ui.code && r.system == ui.system && r.translateResult == ui.translateResult
    ensures IsBlank(input) || response.FetchFailed? ==> r.suggestions == [] && !r.showDropdown
    ensures r.showDropdown <==> |r.suggestions| > 0
    ensures |r.suggestions| <= MaxSuggestions
    ensures forall i :: 0 <= i < |r.suggestions| ==> Lower(input) <= Lower(r.suggestions[i].labelText)
    ensures !IsBlank(input) && response.Fetched? ==>
              var all := KeepMatching(input, response.data.GetOr([]));
              r.suggestions <= all && (|r.suggestions| == MaxSuggestions || r.suggestions == all)
  {
    if IsBlank(input) then ui.(suggestions := [], showDropdown := false)
    else
      match response
      case FetchFailed => ui.(suggestions := [], showDropdown := false)
      case Fetched(data) =>
        var items := Prefix(KeepMatching(input, data.GetOr([])), MaxSuggestions);
        ui.(suggestions := items, showDropdown := |items| > 0)
  }

  /** `handleInputChange(value)`: the input shows `value`, then the suggestions are refreshed for it. */
  function HandleInputChange(ui: Ui, value: string, response: Fetched<Option<seq<RawSuggestion>>>): (r: Ui)
    ensures r.code == value
    ensures r.system == ui.system && r.translateResult == ui.translateResult
    ensures r.suggestions == HandleTypeTranslate(ui, value, response).suggestions
    ensures r.showDropdown == HandleTypeTranslate(ui, value, response).showDropdown
  {
    HandleTypeTranslate(ui.(code := value), value, response)
  }

  /** `handleSuggestionClick(s)`: the input takes the suggestion's label and the dropdown closes. */
  function HandleSuggestionClick(ui: Ui, s: Suggestion): (r: Ui)
    ensures r.code == s.labelText && !r.showDropdown
    ensures r.system == ui.system && r.translateResult == ui.translateResult && r.suggestions == ui.suggestions
  {
    ui.(code := s.labelText, showDropdown := false)
  }

  /** `handleTranslate()`: nothing happens for a blank code; otherwise the result list becomes the
      response's `targets`, or empty when that field is missing or the request fails. */
  function HandleTranslate(ui: Ui, response: Fetched<Option<seq<Target>>>): (r: Ui)
    ensures IsBlank(ui.code) ==> r == ui
    ensures r.code == ui.code && r.system == ui.system && r.suggestions == ui.suggestions
    ensures r.showDropdown == ui.showDropdown
    ensures !IsBlank(ui.code) && response.Fetched? && response.data.Some? ==> r.translateResult == response.data.value
    ensures !IsBlank(ui.code) && (response.FetchFailed? || response.data.None?) ==> r.translateResult == []
  {
    if IsBlank(ui.code) then ui
    else
      match response
      case FetchFailed => ui.(translateResult := [])
      case Fetched(data) => ui.(translateResult := data.GetOr([]))
  }

  /** Choosing one of the suggestions shown for `input` fills the box with a code that starts with
      `input` (ignoring case) and closes the dropdown. */
  lemma ClickedSuggestionExtendsInput(ui: Ui, input: string, response: Fetched<Option<seq<RawSuggestion>>>, i: nat)
    requires i < |HandleTypeTranslate(ui, input, response).suggestions|
    ensures var shown := HandleTypeTranslate(ui, input, response);
            var r := HandleSuggestionClick(shown, shown.suggestions[i]);
            Lower(input) <= Lower(r.code) && !r.showDropdown && r.suggestions == shown.suggestions
  {
  }

  /** Repeating a translation with the same answer changes nothing more. */
  lemma TranslateTwice(ui: Ui, response: Fetched<Option<seq<Target>>>)
    ensures HandleTranslate(HandleTranslate(ui, response), response) == HandleTranslate(ui, response)
  {
  }

  const KnownSystems: set<string> := {"namaste", "icd11", "snomed", "loinc"}

  /** `getSystemColor(name)`: the four known systems, in any letter case, get their own class; every other
      name gets the generic one. */
  function SystemColor(name: string): (r: string)
    ensures Lower(name) in KnownSystems <==> r == "coding-system-" + Lower(name)
    ensures Lower(name) !in KnownSystems <==> r == "medical-code"
  {
    var n := Lower(name);
    assert ("coding-system-" + n)[0] == 'c';
    if n == "namaste" then "coding-system-namaste"
    else if n == "icd11" then "coding-system-icd11"
    else if n == "snomed" then "coding-system-snomed"
    else if n == "loinc" then "coding-system-loinc"
    else "medical-code"
  }

  /** Two spellings that differ only in letter case get the same class. */
  lemma SystemColorIgnoresCase(a: string, b: string)
    requires Lower(a) == Lower(b)
    ensures SystemColor(a) == SystemColor(b)
  {
  }
}
