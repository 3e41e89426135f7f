/**
 * The breed search box (frontend/src/app/components/breed-search/breed-search.component.ts):
 * a guarded search by the trimmed term, its two reply callbacks, the reset, and the
 * temperament cut at a length.
 */
module BreedSearch {
  import opened Wrappers
  import opened Text
  import opened Breeds

  const EmptyTermError := "Por favor ingresa un t\U{00E9}rmino de b\U{00FA}squeda"
  const SearchError := "Error al buscar razas. Por favor intenta de nuevo."

  /** The component's fields. */
  datatype SearchState = SearchState(
    searchTerm: string,
    searchResults: seq<Breed>,
    loading: bool,
    error: string,
    hasSearched: bool)

  /** The query `searchBreeds` sends: the trimmed term, or nothing when the term is blank. */
  function Query(searchTerm: string): (r: Option<string>)
    ensures r.None? <==> IsBlank(searchTerm)
    ensures r.Some? ==> r.value == Trim(searchTerm) && r.value != []
  {
    var t := Trim(searchTerm);
    if t == [] then None else Some(t)
  }

  /** The state `searchBreeds` leaves until the reply arrives. */
  function AfterSearch(st: SearchState): (r: SearchState)
    ensures IsBlank(st.searchTerm) ==> r == st.(error := EmptyTermError)
    ensures !IsBlank(st.searchTerm) ==> r == st.(loading := true, error := "", hasSearched := true)
  {
    if Query(st.searchTerm).None? then st.(error := EmptyTermError)
    else st.(loading := true, error := "", hasSearched := true)
  }

  /** The `next` callback: the results replace the old ones. */
  function AfterResults(st: SearchState, results: seq<Breed>): (r: SearchState)
    ensures r.searchResults == results && !r.loading
    ensures r.(searchResults := st.searchResults, loading := st.loading) == st
  {
    st.(searchResults := results, loading := false)
  }

  /** The `error` callback: the old results stay. */
  function AfterSearchError(st: SearchState): (r: SearchState)
    ensures r.error == SearchError && !r.loading
    ensures r.(error := st.error, loading := st.loading) == st
  {
    st.(error := SearchError, loading := false)
  }

  /** `clearSearch`: everything but `loading` back to its initial value. */
  function Cleared(st: SearchState): (r: SearchState)
    ensures r.searchTerm == "" && r.searchResults == [] && r.error == "" && !r.hasSearched
    ensures r.loading == st.loading
  {
    SearchState("", [], st.loading, "", false)
  }

  /** A blank term sends nothing, and the message is the only change. */
  lemma BlankTermSearchesNothing(st: SearchState)
    requires IsBlank(st.searchTerm)
    ensures Query(st.searchTerm).None?
    ensures AfterSearch(st).error == EmptyTermError
    ensures AfterSearch(st).(error := st.error) == st
  {
  }

  /** A search that succeeds ends with the results, not loading and no message. */
  lemma SearchThenResults(st: SearchState, results: seq<Breed>)
    requires !IsBlank(st.searchTerm)
    ensures var r := AfterResults(AfterSearch(st), results);
      && r.searchResults == results && !r.loading && r.error == "" && r.hasSearched
      && r.searchTerm == st.searchTerm
  {
  }

  /** A search that fails ends with the message, not loading, and the previous results. */
  lemma SearchThenError(st: SearchState)
    requires !IsBlank(st.searchTerm)
    ensures var r := AfterSearchError(AfterSearch(st));
      && r.searchResults == st.searchResults && !r.loading && r.error == SearchError && r.hasSearched
  {
  }

  /** Clearing twice is clearing once. */
  lemma ClearIdempotent(st: SearchState)
    ensures Cleared(Cleared(st)) == Cleared(st)
  {
  }

  /** After clearing, a search is refused until a term is typed. */
  lemma ClearedRefusesSearch(st: SearchState)
    ensures AfterSearch(Cleared(st)).error == EmptyTermError
    ensures !AfterSearch(Cleared(st)).hasSearched
  {
  }

  class BreedSearchComponent {
    var searchTerm: string
    var searchResults: seq<Breed>
    var loading: bool
    var error: string
    var hasSearched: bool

    function State(): SearchState
      reads this
    {
      SearchState(searchTerm, searchResults, loading, error, hasSearched)
    }

    /** The field initialisers. */
    constructor ()
      ensures State() == SearchState("", [], false, "", false)
    {
      searchTerm, searchResults := "", [];
      loading, error, hasSearched := false, "", false;
    }

    /** `searchBreeds` up to the request: the query sent, if any. */
    method SearchBreeds() returns (query: Option<string>)
      modifies this
      ensures query == Query(old(searchTerm))
      ensures State() == AfterSearch(old(State()))
    {
      query := Query(searchTerm);
      if query.None? {
        error := EmptyTermError;
        return;
      }
      loading := true;
      error := "";
      hasSearched := true;
    }

    method OnResults(results: seq<Breed>)
      modifies this
      ensures State() == AfterResults(old(State()), results)
    {
      searchResults := results;
      loading := false;
    }

    method OnSearchError()
      modifies this
      ensures State() == AfterSearchError(old(State()))
    {
      error := SearchError;
      loading := false;
    }

    method ClearSearch()
      modifies this
      ensures State() == Cleared(old(State()))
    {
      searchTerm := "";
      searchResults := [];
      error := "";
      hasSearched := false;
    }
  }

  /** The default `maxLength` of `getTruncatedTemperament`. */
  const DefaultMaxLength := 100

  /**
   * `getTruncatedTemperament(temperament, maxLength)`: `N/A` when missing or empty; the
   * text itself when it fits; otherwise its first `maxLength` characters and `...`
   * (`substring` treats a negative length as 0).
   */
  function TruncateTemperament(temperament: Option<string>, maxLength: int := DefaultMaxLength): (r: string)
    ensures temperament.None? || temperament == Some("") ==> r == "N/A"
    ensures temperament.Some? && temperament.value != "" && |temperament.value| <= maxLength ==>
      r == temperament.value
    ensures temperament.Some? && temperament.value != "" && |temperament.value| > maxLength ==>
      var kept := if maxLength < 0 then 0 else maxLength;
      |r| == kept + 3 && r[..kept] <= temperament.value && r[kept..] == "..."
  {
    if temperament.None? || temperament.value == "" then "N/A"
    else
      var t := temperament.value;
      if |t| > maxLength then t[..if maxLength < 0 then 0 else maxLength] + "..." else t
  }

  /** With the default length, a long text keeps 100 characters and gains `...`. */
  lemma DefaultTruncation(t: string)
    requires |t| > DefaultMaxLength
    ensures |TruncateTemperament(Some(t))| == DefaultMaxLength + 3
    ensures TruncateTemperament(Some(t)) == t[..DefaultMaxLength] + "..."
  {
  }
}
