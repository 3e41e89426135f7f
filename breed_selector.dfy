/**
 * The breed drop-down (frontend/src/app/components/breed-selector/breed-selector.component.ts):
 * loading the names, and showing the first match of the selected name with its image.
 */
module BreedSelector {
  import opened Wrappers
  import opened Breeds

  const NamesLoadError := "Error al cargar las razas"
  const NotFound := "No se encontr\U{00F3} informaci\U{00F3}n de la raza"
  const DetailsLoadError := "Error al cargar los detalles de la raza"

  /** `this.selectedBreed?.image?.url || ''`. */
  function ImageUrl(b: Breed): (r: string)
    ensures b.image.Some? ==> r == b.image.value.url
    ensures b.image.None? ==> r == ""
  {
    match b.image
    case Some(img) => img.url
    case None => ""
  }

  class BreedSelectorComponent {
    var breedNames: seq<string>
    var selectedBreedName: string
    var selectedBreed: Option<Breed>
    var loading: bool
    var error: string
    var breedImage: string

    /** The field initialisers. */
    constructor ()
      ensures breedNames == [] && selectedBreedName == "" && selectedBreed.None?
      ensures !loading && error == "" && breedImage == ""
    {
      breedNames, selectedBreedName, selectedBreed := [], "", None;
      loading, error, breedImage := false, "", "";
    }

    /** `loadBreedNames` up to the request. */
    method LoadBreedNames()
      modifies this
      ensures loading
      ensures breedNames == old(breedNames) && error == old(error)
      ensures selectedBreedName == old(selectedBreedName) && selectedBreed == old(selectedBreed)
      ensures breedImage == old(breedImage)
    {
      loading := true;
    }

    /** The reply to `getBreedNames`: the names, or the error message. */
    method OnBreedNames(names: Response<seq<string>>)
      modifies this
      ensures !loading
      ensures names.Success? ==> breedNames == names.value && error == old(error)
      ensures names.Failure? ==> breedNames == old(breedNames) && error == NamesLoadError
      ensures selectedBreedName == old(selectedBreedName) && selectedBreed == old(selectedBreed)
      ensures breedImage == old(breedImage)
    {
      if names.Success? {
        breedNames := names.value;
      } else {
        error := NamesLoadError;
      }
      loading := false;
    }

    /**
     * `onBreedSelect` up to the request: an empty selection clears the shown breed and
     * sends nothing; otherwise the selected name is searched.
     */
    method OnBreedSelect() returns (query: Option<string>)
      modifies this
      ensures selectedBreedName == "" ==>
        && query.None? && selectedBreed.None?
        && loading == old(loading) && error == old(error)
      ensures selectedBreedName != "" ==>
        && query == Some(selectedBreedName) && selectedBreed == old(selectedBreed)
        && loading && error == ""
      ensures selectedBreedName == old(selectedBreedName)
      ensures breedNames == old(breedNames) && breedImage == old(breedImage)
    {
      if selectedBreedName == "" {
        selectedBreed := None;
        return None;
      }
      loading := true;
      error := "";
      query := Some(selectedBreedName);
    }

    /** The `next` callback: the first match and its image, or the not-found message. */
    method OnBreeds(breeds: seq<Breed>)
      modifies this
      ensures !loading
      ensures |breeds| > 0 ==>
        selectedBreed == Some(breeds[0]) && breedImage == ImageUrl(breeds[0]) && error == old(error)
      ensures |breeds| == 0 ==> selectedBreed.None? && breedImage == "" && error == NotFound
      ensures breedNames == old(breedNames) && selectedBreedName == old(selectedBreedName)
    {
      if |breeds| > 0 {
        selectedBreed := Some(breeds[0]);
        breedImage := ImageUrl(breeds[0]);
      } else {
        error := NotFound;
        selectedBreed := None;
        breedImage := "";
      }
      loading := false;
    }

    /** The `error` callback: the message, and nothing shown. */
    method OnBreedsError()
      modifies this
      ensures !loading && error == DetailsLoadError
      ensures selectedBreed.None? && breedImage == ""
      ensures breedNames == old(breedNames) && selectedBreedName == old(selectedBreedName)
    {
      error := DetailsLoadError;
      loading := false;
      selectedBreed := None;
      breedImage := "";
    }
  }
}
