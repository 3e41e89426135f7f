/**
 * The breed records of cat-web/src/app/models/breed.model.ts, as values. The
 * optional (`?`) fields are `Option`s; the cat API's snake_case names become
 * camelCase.
 */
module Breeds {
  import opened Wrappers

  /** `weight`: the imperial and metric ranges, both optional. */
  datatype Weight = Weight(imperial: Option<string>, metric: Option<string>)

  /** `image`: what a breed record carries once an image is attached. */
  datatype Image = Image(id: string, url: string, width: Option<int>, height: Option<int>)

  /** `Breed` / `BreedSearchResult` (the latter only restates `image`). */
  datatype Breed = Breed(
    id: string,
    name: string,
    origin: Option<string>,
    temperament: Option<string>,
    description: Option<string>,
    lifeSpan: Option<string>,
    weight: Option<Weight>,
    adaptability: Option<int>,
    affectionLevel: Option<int>,
    childFriendly: Option<int>,
    dogFriendly: Option<int>,
    energyLevel: Option<int>,
    intelligence: Option<int>,
    socialNeeds: Option<int>,
    strangerFriendly: Option<int>,
    wikipediaUrl: Option<string>,
    referenceImageId: Option<string>,
    image: Option<Image>)
}
