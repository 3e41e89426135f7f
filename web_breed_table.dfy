/**
 * The breed table of the cat-web application
 * (cat-web/src/app/components/breed-table/breed-table.component.ts): it loads the
 * first fifty breeds as the search returns them, filters them by a search term and sorts
 * them by a column.
 */
module WebBreedTable {
  import opened Wrappers
  import opened Breeds
  import opened BreedTable

  class BreedTableComponent {
    var breeds: seq<Breed>
    var filteredBreeds: seq<Breed>
    var loading: bool
    var error: string
    var searchTerm: string
    var sortColumn: string
    var sortDirection: Direction

    /** The field initialisers. */
    constructor ()
      ensures breeds == [] && filteredBreeds == [] && !loading && error == ""
      ensures searchTerm == "" && sortColumn == "" && sortDirection == Asc
    {
      breeds, filteredBreeds := [], [];
      loading, error := false, "";
      searchTerm, sortColumn, sortDirection := "", "", Asc;
    }

    /**
     * `loadAllBreeds`, with the answers of the services given: `names` is the outcome of
     * `getBreedNames` and `search(name)` that of searching one name. Returns the names
     * searched, in order. No images are fetched: the records are kept as found.
     */
    method LoadAllBreeds(names: Response<seq<string>>, search: string -> SearchOutcome)
      returns (searched: seq<string>)
      modifies this
      ensures !loading
      ensures searchTerm == old(searchTerm) && sortColumn == old(sortColumn) && sortDirection == old(sortDirection)
      ensures names.Failure? ==>
        && searched == []
        && error == NamesLoadError
        && breeds == old(breeds) && filteredBreeds == old(filteredBreeds)
      ensures names.Success? ==> searched == SearchedNames(names.value)
      ensures names.Success? && AnyFailed(SearchAll(search, searched)) ==>
        && error == BreedsLoadError
        && breeds == old(breeds) && filteredBreeds == old(filteredBreeds)
      ensures names.Success? && !AnyFailed(SearchAll(search, searched)) ==>
        && breeds == Heads(SearchAll(search, searched))
        && filteredBreeds == breeds
        && error == ""
    {
      loading := true;
      error := "";
      if names.Failure? {
        error := NamesLoadError;
        loading := false;
        return [];
      }
      searched := SearchedNames(names.value);
      var results := SearchAll(search, searched);
      if AnyFailed(results) {
        error := BreedsLoadError;
        loading := false;
        return;
      }
      breeds := Heads(results);
      filteredBreeds := breeds;
      loading := false;
    }

    /** `filterBreeds`: the visible rows for the current search term. */
    method FilterBreeds()
      modifies this
      ensures filteredBreeds == BreedTable.FilterBreeds(breeds, searchTerm)
      ensures breeds == old(breeds) && searchTerm == old(searchTerm)
      ensures loading == old(loading) && error == old(error)
      ensures sortColumn == old(sortColumn) && sortDirection == old(sortDirection)
    {
      filteredBreeds := BreedTable.FilterBreeds(breeds, searchTerm);
    }

    /** `sortBy(column)`: the next sort state, and the visible rows sorted by it. */
    method SortBy(column: string)
      modifies this
      ensures SortState(sortColumn, sortDirection) == NextSort(SortState(old(sortColumn), old(sortDirection)), column)
      ensures filteredBreeds == SortBreeds(column, sortDirection, old(filteredBreeds))
      ensures breeds == old(breeds) && searchTerm == old(searchTerm)
      ensures loading == old(loading) && error == old(error)
    {
      var next := NextSort(SortState(sortColumn, sortDirection), column);
      sortColumn, sortDirection := next.column, next.direction;
      filteredBreeds := SortBreeds(column, sortDirection, filteredBreeds);
    }

    /** `getSortIcon(column)` for the current sort state. */
    function GetSortIcon(column: string): (r: string)
      reads this
      ensures r == Unsorted <==> sortColumn != column
      ensures sortColumn == column ==> r == (if sortDirection == Asc then SortedUp else SortedDown)
    {
      SortIcon(SortState(sortColumn, sortDirection), column)
    }
  }
}
