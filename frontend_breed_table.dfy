/**
 * The breed table of the frontend application
 * (frontend/src/app/components/breed-table/breed-table.component.ts): it loads the
 * first fifty breeds with one image each, filters them by a search term and sorts
 * them by a column.
 */
module FrontendBreedTable {
  import opened Wrappers
  import opened Breeds
  import opened BreedTable

  class BreedTableComponent {
    var breeds: seq<Breed>
    var filteredBreeds: seq<Breed>
    var loading: bool
    var error: string
    var searchTerm: string
    var sortColumn: string
    var sortDirection: Direction

    /** The field initialisers. */
    constructor ()
      ensures breeds == [] && filteredBreeds == [] && !loading && error == ""
      ensures searchTerm == "" && sortColumn == "" && sortDirection == Asc
    {
      breeds, filteredBreeds := [], [];
      loading, error := false, "";
      searchTerm, sortColumn, sortDirection := "", "", Asc;
    }

    /**
     * `loadAllBreeds`, with the answers of the services given: `names` is the outcome of
     * `getBreedNames`, `search(name)` that of searching one name and `images(id)` that of
     * fetching the images of one breed. Returns the names searched and the breed ids
     * whose images were fetched, in order.
     */
    method LoadAllBreeds(names: Response<seq<string>>, search: string -> SearchOutcome, images: string -> ImageOutcome)
      returns (searched: seq<string>, imageFetches: seq<string>)
      modifies this
      ensures !loading
      ensures searchTerm == old(searchTerm) && sortColumn == old(sortColumn) && sortDirection == old(sortDirection)
      ensures names.Failure? ==>
        && searched == [] && imageFetches == []
        && error == NamesLoadError
        && breeds == old(breeds) && filteredBreeds == old(filteredBreeds)
      ensures names.Success? ==> searched == SearchedNames(names.value)
      ensures names.Success? && AnyFailed(SearchAll(search, searched)) ==>
        && imageFetches == []
        && error == BreedsLoadError
        && breeds == old(breeds) && filteredBreeds == old(filteredBreeds)
      ensures names.Success? && !AnyFailed(SearchAll(search, searched)) ==>
        var heads := Heads(SearchAll(search, searched));
        && imageFetches == ImageRequests(heads)
        && breeds == MergeImages(heads, FetchAll(images, heads))
        && filteredBreeds == breeds
        && error == ""
    {
      loading := true;
      error := "";
      if names.Failure? {
        error := NamesLoadError;
        loading := false;
        return [], [];
      }
      searched := SearchedNames(names.value);
      var results := SearchAll(search, searched);
      if AnyFailed(results) {
        error := BreedsLoadError;
        loading := false;
        return searched, [];
      }
      var heads := Heads(results);
      imageFetches := ImageRequests(heads);
      breeds := MergeImages(heads, FetchAll(images, heads));
      filteredBreeds := breeds;
      loading := false;
    }

    /** `filterBreeds`: the visible rows for the current search term. */
    method FilterBreeds()
      modifies this
      ensures filteredBreeds == BreedTable.FilterBreeds(breeds, searchTerm)
      ensures breeds == old(breeds) && searchTerm == old(searchTerm)
      ensures loading == old(loading) && error == old(error)
      ensures sortColumn == old(sortColumn) && sortDirection == old(sortDirection)
    {
      filteredBreeds := BreedTable.FilterBreeds(breeds, searchTerm);
    }

    /** `sortBy(column)`: the next sort state, and the visible rows sorted by it. */
    method SortBy(column: string)
      modifies this
      ensures SortState(sortColumn, sortDirection) == NextSort(SortState(old(sortColumn), old(sortDirection)), column)
      ensures filteredBreeds == SortBreeds(column, sortDirection, old(filteredBreeds))
      ensures breeds == old(breeds) && searchTerm == old(searchTerm)
      ensures loading == old(loading) && error == old(error)
    {
      var next := NextSort(SortState(sortColumn, sortDirection), column);
      sortColumn, sortDirection := next.column, next.direction;
      filteredBreeds := SortBreeds(column, sortDirection, filteredBreeds);
    }

    /** `getSortIcon(column)` for the current sort state. */
    function GetSortIcon(column: string): (r: string)
      reads this
      ensures r == Unsorted <==> sortColumn != column
      ensures sortColumn == column ==> r == (if sortDirection == Asc then SortedUp else SortedDown)
    {
      SortIcon(SortState(sortColumn, sortDirection), column)
    }
  }
}
