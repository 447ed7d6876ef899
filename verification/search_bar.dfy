/**
 The search bar of the map page (`SearchBar.js`): a free-text query over the
 catalog, the effect that recomputes the result list, the handlers that reset
 it, and the two display predicates derived from its state.
 */
module SearchBar {
  import opened Text
  import opened Catalog

  /** The component's three pieces of React state. */
  datatype SearchState = SearchState(term: string, showResults: bool, results: seq<Restaurant>)

  /** State at mount: empty query, hidden and empty result list. */
  const Initial: SearchState := SearchState("", false, [])

  /** A restaurant matches when its lower-cased name or type contains the
      lower-cased query. No other field is consulted. */
  predicate Matches(r: Restaurant, term: string) {
    Contains(Lower(r.name), Lower(term)) || Contains(Lower(r.kind), Lower(term))
  }

  /** `a` is `b` with some elements dropped, the rest kept in order. */
  ghost predicate IsSubsequence<T>(a: seq<T>, b: seq<T>)
    decreases |b|
  {
    if a == [] then true
    else if b == [] then false
    else (a[0] == b[0] && IsSubsequence(a[1..], b[1..])) || IsSubsequence(a, b[1..])
  }

  /** `restaurants.filter(...)` with the search predicate. */
  function FilterByTerm(catalog: seq<Restaurant>, term: string): seq<Restaurant>
    decreases |catalog|
  {
    if catalog == [] then []
    else (if Matches(catalog[0], term) then [catalog[0]] else []) + FilterByTerm(catalog[1..], term)
  }

  /** The filter keeps catalog order: its result is a subsequence of the catalog. */
  lemma {:induction false} FilterKeepsOrder(catalog: seq<Restaurant>, term: string)
    ensures IsSubsequence(FilterByTerm(catalog, term), catalog)
    decreases |catalog|
  {
    if catalog != [] {
      var rest := FilterByTerm(catalog[1..], term);
      FilterKeepsOrder(catalog[1..], term);
      if Matches(catalog[0], term) {
        assert ([catalog[0]] + rest)[1..] == rest;
      } else {
        assert [] + rest == rest;
      }
    }
  }

  /** A restaurant is in the result exactly when it is in the catalog and
      matches, and it appears as often as it does in the catalog. */
  lemma {:induction false} FilterContents(catalog: seq<Restaurant>, term: string)
    ensures forall r :: r in FilterByTerm(catalog, term) <==> r in catalog && Matches(r, term)
    ensures forall r ::
      multiset(FilterByTerm(catalog, term))[r] == (if Matches(r, term) then multiset(catalog)[r] else 0)
    decreases |catalog|
  {
    if catalog != [] {
      FilterContents(catalog[1..], term);
      assert catalog == [catalog[0]] + catalog[1..];
    }
  }

  /** The search effect, run after every change of the query or the catalog.
      A blank query (empty after trimming) hides and empties the list; any
      other query filters the catalog with the query as typed, untrimmed. */
  function RunSearch(s: SearchState, catalog: seq<Restaurant>): (r: SearchState)
    ensures r.term == s.term
    ensures AllSpace(s.term) ==> r.results == [] && !r.showResults
    ensures !AllSpace(s.term) ==> r.showResults && r.results == FilterByTerm(catalog, s.term)
    ensures forall x :: x in r.results <==> !AllSpace(s.term) && x in catalog && Matches(x, s.term)
  {
    if Trim(s.term) != [] then
      FilterContents(catalog, s.term);
      s.(results := FilterByTerm(catalog, s.term), showResults := true)
    else
      s.(results := [], showResults := false)
  }

  /** The state the effect leaves behind: running it again changes nothing. */
  predicate Settled(s: SearchState, catalog: seq<Restaurant>) {
    RunSearch(s, catalog) == s
  }

  /** Typing in the input (`setSearchTerm(e.target.value)`) followed by the effect. */
  function Type(s: SearchState, text: string, catalog: seq<Restaurant>): (r: SearchState)
    ensures r.term == text && Settled(r, catalog)
    ensures r.showResults <==> !AllSpace(text)
    ensures forall x :: x in r.results <==> !AllSpace(text) && x in catalog && Matches(x, text)
    ensures IsSubsequence(r.results, catalog)
  {
    FilterKeepsOrder(catalog, text);
    RunSearch(s.(term := text), catalog)
  }

  /** What `handleSelectRestaurant` hands to its caller, and the state it leaves. */
  datatype Selection = Selection(picked: Restaurant, state: SearchState)

  /** Picking a result passes exactly that restaurant on, clears the query and
      hides the list; the stale result list stays until the effect runs. */
  function Select(s: SearchState, chosen: Restaurant): (out: Selection)
    ensures out.picked == chosen
    ensures out.state.term == "" && !out.state.showResults
    ensures out.state.results == s.results
  {
    Selection(chosen, s.(term := "", showResults := false))
  }

  /** The clear button: query emptied, list hidden, nothing else touched. */
  function ClearSearch(s: SearchState): (r: SearchState)
    ensures r.term == "" && !r.showResults
    ensures r.results == s.results
  {
    s.(term := "", showResults := false)
  }

  /** A document `mousedown`. Only a press outside the mounted search box
      hides the list; the query and the results are kept either way. */
  function MouseDown(s: SearchState, mounted: bool, insideBox: bool): (r: SearchState)
    ensures r.term == s.term && r.results == s.results
    ensures r.showResults <==> s.showResults && (!mounted || insideBox)
  {
    if mounted && !insideBox then s.(showResults := false) else s
  }

  /** The dropdown of results is rendered. */
  predicate ShowResultList(s: SearchState) {
    s.showResults && |s.results| > 0
  }

  /** The "no matching results" message is rendered. */
  predicate ShowNoResults(s: SearchState) {
    s.showResults && s.term != "" && |s.results| == 0
  }

  /** The clear (X) button is rendered. */
  predicate ShowClearButton(s: SearchState) {
    s.term != ""
  }

  /** The result list and the "no results" message never appear together. */
  lemma DisplaysExclusive(s: SearchState)
    ensures !(ShowResultList(s) && ShowNoResults(s))
  {
  }

  /** After the effect, what is displayed follows from the query and the
      catalog alone: the list when something matches a non-blank query, the
      message when nothing does, and neither for a blank query. */
  lemma SettledDisplay(s: SearchState, catalog: seq<Restaurant>)
    requires Settled(s, catalog)
    ensures ShowResultList(s) <==> !AllSpace(s.term) && exists x :: x in catalog && Matches(x, s.term)
    ensures ShowNoResults(s) <==> !AllSpace(s.term) && forall x :: x in catalog ==> !Matches(x, s.term)
  {
    if !AllSpace(s.term) {
      assert s.term != [];
      var found := s.results;
      if |found| > 0 {
        assert found[0] in found;
      } else {
      }
    }
  }

  /** Selecting a result and letting the effect run leaves an empty, hidden
      list and nothing on screen, whatever was shown before. */
  lemma SelectThenSearch(s: SearchState, chosen: Restaurant, catalog: seq<Restaurant>)
    ensures var after := RunSearch(Select(s, chosen).state, catalog);
      after == Initial && !ShowResultList(after) && !ShowNoResults(after) && !ShowClearButton(after)
  {
    assert AllSpace("");
  }

  /** The same for the clear button. */
  lemma ClearThenSearch(s: SearchState, catalog: seq<Restaurant>)
    ensures RunSearch(ClearSearch(s), catalog) == Initial
  {
    assert AllSpace("");
  }

  /** An outside press hides both displays. The state it leaves is one the
      effect would produce only for a blank query with no stale results. */
  lemma MouseDownOutsideHides(s: SearchState, catalog: seq<Restaurant>)
    ensures var r := MouseDown(s, true, false);
      !ShowResultList(r) && !ShowNoResults(r) && (Settled(r, catalog) <==> AllSpace(s.term) && s.results == [])
  {
  }
}
