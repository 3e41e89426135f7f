# Cat breeds web client: a verified model of its core

This is a model, in Dafny, of the client-side logic of a cat-breed web application
built with Angular. There are two generations of the client: `cat-web/` and `frontend/`.

- **TTL cache** (`CacheService`). It keeps an in-memory map of time-stamped entries
  and mirrors it into `localStorage` under `cache_<key>`.
  - Reads evict lazily: `get` drops an entry older than the ttl it is given, from both stores.
  - `cacheObservable` memoises an HTTP request.
  - The constructor reloads the stored `cache_` records in key order, up to the first one
    that fails to parse.
- **Breed tables.** They load the first fifty breeds, filter them by a search term, sort
  them by a column and show a sort icon and a shortened temperament.
  - The `frontend/` table also fetches images for every breed that has a reference image,
    and attaches the first one when that fetch returns a non-empty list.
  - The `cat-web/` table keeps the records as the search returns them.
- **Breed search box**: a guarded search by the trimmed term, and a temperament cut at a length.
- **Breed drop-down**: loads the breed names and shows the first match of the selected one.
- **Registration and login forms**: a fixed chain of checks, the first failing one
  reported, then the request and the handling of its reply. This includes the e-mail pattern
  `^[^\s@]+@[^\s@]+\.[^\s@]+$`, written as a predicate.

## How the model is built

Files and modules:

| file | module | what |
|---|---|---|
| `wrappers.dfy` | `Wrappers` | `Option` and `Response` (success or failure). |
| `text.dfy` | `Text` | The JavaScript string operations the components rely on: `trim`, `toLowerCase`, `includes`, `split`/`join` on one character, and `<`. |
| `email.dfy` | `Email` | The e-mail predicate and its agreement with the regular expression. |
| `cache.dfy` | `Cache` | The cache: specification functions on a `Store` value, their properties, and the class `CacheService`. |
| `breeds.dfy` | `Breeds` | The breed record of `breed.model.ts`. |
| `breed_table.dfy` | `BreedTable` | The logic both breed tables share: heads, image merge, filter, sort, icon, truncation. |
| `frontend_breed_table.dfy`, `web_breed_table.dfy` | `FrontendBreedTable`, `WebBreedTable` | The two table components as classes. |
| `breed_search.dfy` | `BreedSearch` | The search box. |
| `breed_selector.dfy` | `BreedSelector` | The drop-down. |
| `forms.dfy` | `Forms` | The server-message fallback. |
| `registro.dfy` | `Registro` | The registration form. |
| `login.dfy` | `Login` | The login form. |

How the program's inputs appear in the model:

- **Components.** Every component is a `class` with the component's fields.
- **Clock.** `Date.now()` is a `now` parameter.
- **Services.** The answers of the HTTP services are parameters.
  - A request is a method that returns what it would send.
  - Each `subscribe` callback (`next`, `error`) is a method of its own.
  - So the state between request and reply (for example `loading == true`) can be observed.
- **Breed tables.** `loadAllBreeds` is one method, given the outcome of `getBreedNames`
  and the per-name search outcomes and per-breed image outcomes as functions. It returns
  the names it searched and the breeds whose images it fetched.
  - The fan-out through `Promise.all` and `forkJoin` is a sequential map.
  - Its result keeps the order of the names.
- **Cache.** The class methods are specified by pure functions on the `Store` value:
  `Lookup`, `AfterGet`, `AfterSet`, `AfterRemove`, `AfterClear`, `Load` and `Wrap`.
  The properties are lemmas about those functions.
  - `localStorage` is a second map of the class.
  - `JSON.stringify` and `JSON.parse` are the identity, except that a stored text may
    be empty (`Blank`) or fail to parse (`Malformed`).
  - `Object.keys(localStorage)` is a key order handed to the constructor.
- **Stored null.** A stored `null` is modelled explicitly (`Nullable.Null`). `get` returns `null`
  both for a miss and for a stored `null`, so `has` and `cacheObservable` treat a stored
  `null` as a miss.

- **Default arguments.** The ttl of `get`, `has` and `cacheObservable` defaults to
  `DEFAULT_TTL` (five minutes), and `persistInLocalStorage` of `set` and `cacheObservable`
  defaults to `true`. These are Dafny default parameters; the clock parameters come before them.
- **Loading stored records.** `loadFromLocalStorage` has a single `try` around its whole loop
  (cat-web/src/app/services/cache.service.ts:118-130). So the first record that `JSON.parse`
  rejects ends the load, and no key after it in `Object.keys` order is loaded. `Cache.Load`
  returns at a `Malformed` record, and `Cache.LoadStopsAtMalformed` proves that later keys are
  never visited. An empty stored text is skipped (`if (value)`), and the loop goes on after it.

## Model

| member | source | states |
|---|---|---|
| Cache.StorageKey | cat-web/src/app/services/cache.service.ts:111 | The `localStorage` key of a cache key starts with `cache_` and gives the key back once the prefix is dropped. |
| Cache.CacheKeyOf | cat-web/src/app/services/cache.service.ts:121 | `key.replace('cache_', '')` on a key that starts with `cache_` is the key whose storage key it is. |
| Cache.WithoutCacheKeys | cat-web/src/app/services/cache.service.ts:141-148 | After clearing, `localStorage` holds exactly its non-`cache_` keys, with their values unchanged. |
| Cache.IsFresh | cat-web/src/app/services/cache.service.ts:31-33 | An entry is fresh unless its age `now - timestamp` exceeds the ttl. |
| Cache.Lookup | cat-web/src/app/services/cache.service.ts:23-40 | A key not in memory reads `null`; a non-null answer is the data of a fresh entry under the key. |
| Cache.HasFresh | cat-web/src/app/services/cache.service.ts:61-63 | True exactly when the key holds a fresh entry with non-null data. |
| Cache.AfterGet | cat-web/src/app/services/cache.service.ts:30-37 | The key stays in memory exactly when its entry is fresh; no other key changes; `localStorage` is unchanged or loses only `cache_<key>`. |
| Cache.AfterSet | cat-web/src/app/services/cache.service.ts:45-56 | Memory gains the key with the entry stamped `now`; no other key of either store changes. |
| Cache.AfterRemove | cat-web/src/app/services/cache.service.ts:68-71 | The key leaves memory and `cache_<key>` leaves `localStorage`; everything else keeps its value. |
| Cache.AfterClear | cat-web/src/app/services/cache.service.ts:76-79 | Memory is empty, and `localStorage` keeps exactly its non-`cache_` keys. |
| Cache.Load | cat-web/src/app/services/cache.service.ts:117-131 | Loading never drops a key already loaded (a later record under the same key replaces its entry), and every key it adds comes from a visited `cache_` key. |
| Cache.Wrap | cat-web/src/app/services/cache.service.ts:91-106 | The source is subscribed to exactly on a miss. A hit emits the cached data and leaves the stores alone; a miss emits what the source gives. |
| Cache.DefaultTtlWindow | cat-web/src/app/services/cache.service.ts:14 | With `DEFAULT_TTL` an entry is still returned five minutes after it was set and gone a millisecond later. |
| Cache.DefaultsScenario | frontend/src/app/services/cache.service.spec.ts:23-65 | `set(key, data)`, `get(key)` and `has(key)` with every default taken give the data back and true, and the entry is persisted. |
| Cache.MissChangesNothing | cat-web/src/app/services/cache.service.ts:24-28 | `get` on a key that is not in memory returns `null` and changes neither store; `has` on it is false. |
| Cache.StaleEntryEvicted | cat-web/src/app/services/cache.service.ts:30-37 | An entry older than the ttl reads as `null`. It is removed from memory and from `localStorage`, and every other key is untouched. |
| Cache.AgeWithinTtlIsFresh | cat-web/src/app/services/cache.service.ts:31-39 | An entry whose age is at most the ttl, equal to it included, is returned and changes neither store (eviction needs `age > ttl`). |
| Cache.SetThenGet | cat-web/src/app/services/cache.service.ts:45-51 | `set` then `get` at the same time with a ttl of at least 0 returns the data, and the get evicts nothing. |
| Cache.SetOverwrites | cat-web/src/app/services/cache.service.ts:46-51 | A second `set` replaces the entry with the second data and time stamp, in memory and, if persisted, in `localStorage`. |
| Cache.SetPersistence | cat-web/src/app/services/cache.service.ts:53-55 | `set` writes `cache_<key>` with the identical entry exactly when asked to persist; otherwise `localStorage` is unchanged. |
| Cache.StoredNullReadsAsMiss | cat-web/src/app/services/cache.service.ts:61-63 | A stored `null` reads as a miss: `has` is false and `cacheObservable` subscribes to its source. |
| Cache.SizeAfterSet | cat-web/src/app/services/cache.service.ts:84-86 | `size` grows by one when `set` adds a new key and stays the same when the key was there. |
| Cache.SizeAfterRemove | cat-web/src/app/services/cache.service.ts:68-71 | `size` shrinks by one exactly when the removed key was present. |
| Cache.RemoveIdempotent | cat-web/src/app/services/cache.service.ts:68-71 | `remove` takes the key out of both stores, and removing twice equals removing once. |
| Cache.ClearEmpties | cat-web/src/app/services/cache.service.ts:76-79 | `clear` leaves memory empty and removes exactly the `cache_` keys of `localStorage`, other values unchanged; it is idempotent. |
| Cache.HitSkipsSource | cat-web/src/app/services/cache.service.ts:97-101 | On a fresh non-null hit, `cacheObservable` emits the cached value, changes no store and never subscribes to the source. |
| Cache.MissStoresEmission | cat-web/src/app/services/cache.service.ts:103-105 | On a miss, the emitted value is passed on and stored with the emission time, after the eviction `get` made. |
| Cache.FailureNotCached | cat-web/src/app/services/cache.service.ts:103-105 | On a miss with a failing source, the failure is passed on and nothing is stored. |
| Cache.SecondCallReturnsOriginal | frontend/src/app/services/cache.service.spec.ts:127-140 | After a call that emitted `v`, a second call within the ttl returns `v` whatever its own source is, without subscribing. |
| Cache.LoadFinds | cat-web/src/app/services/cache.service.ts:117-127 | When no record fails to parse, loading puts every persisted `cache_X` record into memory under `X`, with the same entry. |
| Cache.LoadOnly | cat-web/src/app/services/cache.service.ts:119-126 | Loading adds nothing but the records stored under visited `cache_` keys. |
| Cache.LoadStopsAtMalformed | cat-web/src/app/services/cache.service.ts:118-130 | A record that fails to parse ends the load: the result is the load of the keys before it. |
| Cache.ReloadRestores | frontend/src/app/services/cache.service.spec.ts:167-182 | A persisted `set` followed by a new service on the same storage and a `get` at the same time returns the data. |
| Cache.BreedNamesScenario | frontend/src/app/services/cats.service.ts:12-27 | The breed names cached under `breed_names` are read back within the service's ten-minute ttl. |
| Cache.CacheService.constructor | cat-web/src/app/services/cache.service.ts:16-18 | A new service holds the given `localStorage`, and memory is the load of its `cache_` records in key order. |
| Cache.CacheService.Get | cat-web/src/app/services/cache.service.ts:23-40 | Returns `Lookup` of the old stores and leaves them as `AfterGet` says (stale entry evicted from both); the ttl defaults to `DefaultTtl`. |
| Cache.CacheService.Set | cat-web/src/app/services/cache.service.ts:45-56 | The new stores are `AfterSet` of the old ones: entry stamped `now`, persisted when asked, which is the default. |
| Cache.CacheService.Has | cat-web/src/app/services/cache.service.ts:61-63 | Returns whether `get` finds non-null data, with `get`'s eviction as its side effect; the ttl defaults to `DefaultTtl`. |
| Cache.CacheService.Remove | cat-web/src/app/services/cache.service.ts:68-71 | The new stores are `AfterRemove` of the old ones. |
| Cache.CacheService.Clear | cat-web/src/app/services/cache.service.ts:76-79 | The new stores are `AfterClear` of the old ones. |
| Cache.CacheService.Size | cat-web/src/app/services/cache.service.ts:84-86 | Returns the number of entries in memory, stale ones included. |
| Cache.CacheService.CacheObservable | cat-web/src/app/services/cache.service.ts:91-106 | The new stores, the emitted result and whether the source was subscribed to are those of `Wrap`; ttl and persistence have `get`'s and `set`'s defaults. |
| Cache.CacheService.SaveToLocalStorage | cat-web/src/app/services/cache.service.ts:109-115 | Writes the entry under `cache_<key>` and changes nothing else. |
| Cache.CacheService.RemoveFromLocalStorage | cat-web/src/app/services/cache.service.ts:133-139 | Removes `cache_<key>` and changes nothing else. |
| Cache.CacheService.ClearLocalStorage | cat-web/src/app/services/cache.service.ts:141-148 | Removes the `cache_` keys one by one; the result keeps exactly the other keys, and memory is unchanged. |
| Cache.CacheService.LoadFromLocalStorage | cat-web/src/app/services/cache.service.ts:117-131 | The loop leaves memory as `Load` of the keys in order: records put under their key, blanks skipped, stop at the first unparseable text. |
| BreedTable.SearchedNames | cat-web/src/app/components/breed-table/breed-table.component.ts:40 | The names searched are a prefix of the names, of length 50, or all of them when there are fewer. |
| BreedTable.AnyFailed | frontend/src/app/components/breed-table/breed-table.component.ts:46-98 | `Promise.all` rejects when any one of the searches rejects. |
| BreedTable.HeadOf | frontend/src/app/components/breed-table/breed-table.component.ts:47-49 | The first breed of a result that has a value and at least one breed, and nothing otherwise. |
| BreedTable.SearchAll | frontend/src/app/components/breed-table/breed-table.component.ts:42-44 | One search per name, in name order. |
| BreedTable.Heads | frontend/src/app/components/breed-table/breed-table.component.ts:47-49 | The kept breeds are no more than the results. |
| BreedTable.HeadsAppend | frontend/src/app/components/breed-table/breed-table.component.ts:47-49 | Head selection distributes over concatenation, so the kept breeds keep the order of the results. |
| BreedTable.HeadsAreTheHeads | cat-web/src/app/components/breed-table/breed-table.component.ts:45-47 | Every kept breed is the first breed of some result, and the first breed of every non-empty result is kept. |
| BreedTable.HeadsOfNonEmpty | frontend/src/app/components/breed-table/breed-table.component.ts:47-49 | When every result is non-empty, breed `i` is the first breed of result `i`, and nothing is dropped. |
| BreedTable.EmptyResultsDropped | frontend/src/app/components/breed-table/breed-table.component.ts:48 | Results that are empty or have no value contribute nothing. |
| BreedTable.HasReferenceImage | frontend/src/app/components/breed-table/breed-table.component.ts:52 | `breed.reference_image_id` is truthy: present and not the empty string. |
| BreedTable.AttachImage | frontend/src/app/components/breed-table/breed-table.component.ts:52-72 | Only `image` can change. It becomes the first fetched image when the breed has a reference id and the fetch returned images; otherwise the record is unchanged. |
| BreedTable.FetchAll | frontend/src/app/components/breed-table/breed-table.component.ts:53 | One image outcome per breed, from that breed's own id. |
| BreedTable.ImageRequests | frontend/src/app/components/breed-table/breed-table.component.ts:51-73 | There are no more image requests than breeds. |
| BreedTable.ImageRequestsAppend | frontend/src/app/components/breed-table/breed-table.component.ts:51-73 | Image requests distribute over concatenation: one request per record with a reference image, in record order. |
| BreedTable.ImageRequestsExact | frontend/src/app/components/breed-table/breed-table.component.ts:52-72 | An image is fetched for a breed's id exactly when some breed with that id has a non-empty reference image id. |
| BreedTable.MergeImages | frontend/src/app/components/breed-table/breed-table.component.ts:75-79 | The merge keeps length and order, and record `i` depends only on breed `i` and its own image outcome. |
| BreedTable.MergeCases | frontend/src/app/components/breed-table/breed-table.component.ts:52-72 | Record by record: no reference id leaves it unchanged; a non-empty fetch sets the first image; a failed or empty fetch leaves it unchanged. |
| BreedTable.Matches | frontend/src/app/components/breed-table/breed-table.component.ts:116-119 | The filter's test. The empty term matches every record, and a lowercased name containing the term is enough. |
| BreedTable.KeepMatching | frontend/src/app/components/breed-table/breed-table.component.ts:115-120 | The kept records are an order-preserving subsequence and all match. Each matching record is kept as many times as it occurs, and no non-matching record is kept. |
| BreedTable.FilterBreeds | cat-web/src/app/components/breed-table/breed-table.component.ts:67-78 | A blank (after trim) term gives all breeds. Otherwise the result is the subsequence of records matching the lowercased, untrimmed term, each as often as it occurs in the input. |
| BreedTable.FilterMatchesLowercased | frontend/src/app/components/breed-table/breed-table.component.ts:115-117 | A record whose lowercased name contains the lowercased term is shown. |
| BreedTable.NextSort | cat-web/src/app/components/breed-table/breed-table.component.ts:84-90 | The column becomes the clicked one; the same column flips the direction, another column starts ascending. |
| BreedTable.SortToggleTwice | frontend/src/app/components/breed-table/breed-table.component.ts:128-134 | Two clicks on the current column restore the sort state. |
| BreedTable.KeyOf | cat-web/src/app/components/breed-table/breed-table.component.ts:95-122 | A column has a value exactly when it is one of the six known ones; `name`, `origin` and `life_span` give strings, the three levels numbers; `name` gives the breed's name. |
| BreedTable.Compare | cat-web/src/app/components/breed-table/breed-table.component.ts:91-131 | The comparator returns -1, 0 or 1. It is 0 exactly when the column is unknown or both values are equal. It is negative exactly when the first value is smaller (ascending) or larger (descending). |
| BreedTable.InOrderMeaning | cat-web/src/app/components/breed-table/breed-table.component.ts:124-130 | For a known column, "may stand before" means not larger in ascending order and not smaller in descending order. |
| BreedTable.KeyOrder | cat-web/src/app/components/breed-table/breed-table.component.ts:95-119 | Keys of one column (string with `''` default, or number with `0` default) are strictly and totally ordered by `<`. |
| BreedTable.InOrderTotal | cat-web/src/app/components/breed-table/breed-table.component.ts:91-131 | The comparator relates every pair one way or the other. |
| BreedTable.InOrderTransitive | cat-web/src/app/components/breed-table/breed-table.component.ts:91-131 | The comparator's "may stand before" is transitive. |
| BreedTable.Insert | cat-web/src/app/components/breed-table/breed-table.component.ts:91 | Inserting adds exactly the one element (multiset). |
| BreedTable.SortBreeds | cat-web/src/app/components/breed-table/breed-table.component.ts:91 | The sorted rows are a permutation of the rows. |
| BreedTable.InsertSorted | cat-web/src/app/components/breed-table/breed-table.component.ts:91-131 | Inserting into sorted rows keeps them sorted. |
| BreedTable.SortBreedsSorted | cat-web/src/app/components/breed-table/breed-table.component.ts:91-131 | After sorting, every pair of rows is in order for the column and direction. |
| BreedTable.InsertWithKey | cat-web/src/app/components/breed-table/breed-table.component.ts:91-131 | An inserted row goes before every row with the same value, so among equal values it stays first. |
| BreedTable.SortBreedsStable | cat-web/src/app/components/breed-table/breed-table.component.ts:91-131 | The sort is stable: the rows with a given value in the sorted column come out in their input order. |
| BreedTable.UnknownColumnKeepsOrder | cat-web/src/app/components/breed-table/breed-table.component.ts:120-121 | When the column is unknown the comparator is always 0, and the rows keep their order. |
| BreedTable.UnknownColumns | cat-web/src/app/components/breed-table/breed-table.component.ts:95-121 | Every column other than the six listed has no key. |
| BreedTable.SortIcon | cat-web/src/app/components/breed-table/breed-table.component.ts:137-142 | The neutral icon exactly off the sorted column; on it, the up arrow exactly when ascending and the down arrow exactly when descending. |
| BreedTable.SortIconAfterSortBy | cat-web/src/app/components/breed-table/breed-table.component.ts:137-142 | After a click, that column shows the arrow of the new direction and every other column shows the neutral icon. |
| BreedTable.SortIconToggles | frontend/src/app/components/breed-table/breed-table.component.ts:181-186 | A second click on the sorted column changes its arrow. |
| BreedTable.TruncateTemperament | frontend/src/app/components/breed-table/breed-table.component.ts:191-195 | Missing or empty gives `N/A`; at most three comma pieces come back unchanged. More give a prefix of the input that is exactly its first three pieces, followed by `...`. |
| FrontendBreedTable.BreedTableComponent.GetSortIcon | frontend/src/app/components/breed-table/breed-table.component.ts:181-186 | The neutral icon exactly when the column is not the sorted one; otherwise the arrow of the current direction. |
| FrontendBreedTable.BreedTableComponent.constructor | frontend/src/app/components/breed-table/breed-table.component.ts:17-23 | The field initial values. |
| FrontendBreedTable.BreedTableComponent.LoadAllBreeds | frontend/src/app/components/breed-table/breed-table.component.ts:34-106 | A names failure or a search failure sets its message and keeps the old rows. Success searches the first 50 names and fetches images for exactly the heads with a reference id; `breeds` is the merge, `filteredBreeds` a copy, `error` empty. `loading` ends false. |
| FrontendBreedTable.BreedTableComponent.FilterBreeds | frontend/src/app/components/breed-table/breed-table.component.ts:111-122 | `filteredBreeds` becomes the filter of `breeds` by the term; nothing else changes. |
| FrontendBreedTable.BreedTableComponent.SortBy | frontend/src/app/components/breed-table/breed-table.component.ts:127-176 | The sort state is `NextSort` of the old one, and `filteredBreeds` is the sort of its old value by the clicked column and new direction. |
| WebBreedTable.BreedTableComponent.GetSortIcon | cat-web/src/app/components/breed-table/breed-table.component.ts:137-142 | The neutral icon exactly when the column is not the sorted one; otherwise the arrow of the current direction. |
| WebBreedTable.BreedTableComponent.constructor | cat-web/src/app/components/breed-table/breed-table.component.ts:15-21 | The field initial values. |
| WebBreedTable.BreedTableComponent.LoadAllBreeds | cat-web/src/app/components/breed-table/breed-table.component.ts:32-62 | Failures set their message and keep the old rows. Success sets `breeds` to the heads of the first 50 names' results, in order, and `filteredBreeds` to a copy. `loading` ends false. |
| WebBreedTable.BreedTableComponent.FilterBreeds | cat-web/src/app/components/breed-table/breed-table.component.ts:67-78 | `filteredBreeds` becomes the filter of `breeds` by the term; nothing else changes. |
| WebBreedTable.BreedTableComponent.SortBy | cat-web/src/app/components/breed-table/breed-table.component.ts:83-132 | The sort state is `NextSort` of the old one, and `filteredBreeds` is the sort of its old value. |
| BreedSearch.Query | frontend/src/app/components/breed-search/breed-search.component.ts:24-33 | No query for a blank term; otherwise the trimmed term, which is non-empty. |
| BreedSearch.AfterSearch | frontend/src/app/components/breed-search/breed-search.component.ts:23-33 | A blank term only sets the message. Otherwise `loading` and `hasSearched` are set and `error` is cleared. |
| BreedSearch.AfterResults | frontend/src/app/components/breed-search/breed-search.component.ts:34-37 | The results are the reply and `loading` is false; no other field changes. |
| BreedSearch.AfterSearchError | frontend/src/app/components/breed-search/breed-search.component.ts:38-42 | The message is the search error and `loading` is false; no other field changes, so the old results stay. |
| BreedSearch.Cleared | frontend/src/app/components/breed-search/breed-search.component.ts:46-51 | Term, results and message are empty and `hasSearched` is false; `loading` is kept. |
| BreedSearch.BlankTermSearchesNothing | frontend/src/app/components/breed-search/breed-search.component.ts:24-27 | A blank term sends nothing, and the message is the only field that changes. |
| BreedSearch.SearchThenResults | frontend/src/app/components/breed-search/breed-search.component.ts:34-37 | A successful search ends with the results shown, `loading` false, no message and `hasSearched` set. |
| BreedSearch.SearchThenError | frontend/src/app/components/breed-search/breed-search.component.ts:38-42 | A failed search ends with the message, `loading` false and the previous results kept. |
| BreedSearch.ClearIdempotent | frontend/src/app/components/breed-search/breed-search.component.ts:46-51 | Clearing twice is clearing once. |
| BreedSearch.ClearedRefusesSearch | frontend/src/app/components/breed-search/breed-search.component.ts:24-51 | After clearing, searching only sets the empty-term message. |
| BreedSearch.BreedSearchComponent.constructor | frontend/src/app/components/breed-search/breed-search.component.ts:15-19 | The field initial values. |
| BreedSearch.BreedSearchComponent.SearchBreeds | frontend/src/app/components/breed-search/breed-search.component.ts:23-33 | Returns the query sent, if any; the new state is `AfterSearch` of the old one. |
| BreedSearch.BreedSearchComponent.OnResults | frontend/src/app/components/breed-search/breed-search.component.ts:34-37 | The results replace the old ones and `loading` ends; nothing else changes. |
| BreedSearch.BreedSearchComponent.OnSearchError | frontend/src/app/components/breed-search/breed-search.component.ts:38-42 | Sets the message and ends `loading`; nothing else changes. |
| BreedSearch.BreedSearchComponent.ClearSearch | frontend/src/app/components/breed-search/breed-search.component.ts:46-51 | Term, results, message and `hasSearched` return to their initial values; `loading` is kept. |
| BreedSearch.TruncateTemperament | frontend/src/app/components/breed-search/breed-search.component.ts:53-58 | Missing or empty gives `N/A`; text that fits comes back unchanged. Longer text gives its first `maxLength` characters (0 for a negative length) followed by `...`, so the length is the kept length plus 3. |
| BreedSearch.DefaultTruncation | frontend/src/app/components/breed-search/breed-search.component.ts:53-57 | With the default length, a long text becomes its first 100 characters and `...`, 103 characters in all. |
| BreedSelector.ImageUrl | frontend/src/app/components/breed-selector/breed-selector.component.ts:63 | The image address of a breed, or `''` when it has no image. |
| BreedSelector.BreedSelectorComponent.constructor | frontend/src/app/components/breed-selector/breed-selector.component.ts:15-20 | The field initial values. |
| BreedSelector.BreedSelectorComponent.LoadBreedNames | frontend/src/app/components/breed-selector/breed-selector.component.ts:31-33 | Sets `loading` and changes nothing else. |
| BreedSelector.BreedSelectorComponent.OnBreedNames | frontend/src/app/components/breed-selector/breed-selector.component.ts:34-42 | Success stores the names; failure sets the message and keeps the names; `loading` ends false either way. |
| BreedSelector.BreedSelectorComponent.OnBreedSelect | frontend/src/app/components/breed-selector/breed-selector.component.ts:49-59 | An empty selection clears the shown breed and sends nothing, with `loading` and `error` untouched. Otherwise the selected name is searched, `loading` set and `error` cleared. |
| BreedSelector.BreedSelectorComponent.OnBreeds | frontend/src/app/components/breed-selector/breed-selector.component.ts:60-70 | A non-empty reply shows its first breed and that breed's image address. An empty one sets the not-found message and shows nothing. `loading` ends false. |
| BreedSelector.BreedSelectorComponent.OnBreedsError | frontend/src/app/components/breed-selector/breed-selector.component.ts:71-77 | Sets the message, ends `loading` and shows no breed or image. |
| Email.IsValidEmail | cat-web/src/app/components/login/login.component.ts:52-55 | An accepted address holds an `@`, no white space, and at least five characters. |
| Email.EmailPatternAgrees | cat-web/src/app/components/registro/registro.component.ts:73-76 | The scan `IsValidEmail` accepts exactly the strings the regular expression `^[^\s@]+@[^\s@]+\.[^\s@]+$` matches. |
| Email.ScanFindsSplit | cat-web/src/app/components/login/login.component.ts:52-55 | A string the scan accepts splits into the three runs the pattern needs. |
| Email.SplitPassesScan | cat-web/src/app/components/login/login.component.ts:52-55 | A string the pattern matches passes the scan. |
| Email.AcceptsTestAddress | frontend/src/app/components/registro/registro.component.spec.ts:139-141 | `test@example.com` is valid. |
| Email.RejectsTestAddresses | cat-web/src/app/components/login/login.component.spec.ts:104-109 | `invalid-email`, `test@` and `@example.com` are not valid. |
| Forms.ServerMessage | cat-web/src/app/components/login/login.component.ts:47 | The server's `mensaje` when present and non-empty, the fallback otherwise. |
| Registro.FirstError | cat-web/src/app/components/registro/registro.component.ts:32-50 | No error exactly when every check passes. Each message is reported exactly when its check fails and every earlier one passes: empty fields, then e-mail, then length under 6, then mismatch. |
| Registro.FormTestCases | frontend/src/app/components/registro/registro.component.spec.ts:40-74 | The test inputs get the tests' messages; a 5-character password fails the length check and a 6-character one passes. |
| Registro.RegistroComponent.constructor | cat-web/src/app/components/registro/registro.component.ts:15-21 | The field initial values. |
| Registro.RegistroComponent.OnSubmit | cat-web/src/app/components/registro/registro.component.ts:28-58 | The message is cleared, then the first failing check's message is set and nothing is sent. If all pass, `loading` is set and the request is `{name, email, password}`. |
| Registro.RegistroComponent.OnRegistered | cat-web/src/app/components/registro/registro.component.ts:59-61 | `loading` ends and `success` is set. |
| Registro.RegistroComponent.OnRegisterError | cat-web/src/app/components/registro/registro.component.ts:66-69 | `loading` ends and `error` is the server's message, or `Error al registrarse`. |
| Login.FirstError | cat-web/src/app/components/login/login.component.ts:26-34 | No error exactly when both fields are filled and the e-mail is valid. The missing-fields message comes first, then the e-mail message. |
| Login.FormTestCases | cat-web/src/app/components/login/login.component.spec.ts:40-97 | The test inputs get the tests' messages, or pass the checks. |
| Login.LoginComponent.constructor | cat-web/src/app/components/login/login.component.ts:15-18 | The field initial values. |
| Login.LoginComponent.OnSubmit | cat-web/src/app/components/login/login.component.ts:25-39 | A failing check sets its message and sends nothing. Otherwise `loading` is set, `error` cleared and the request is `{email, password}`. |
| Login.LoginComponent.OnLoggedIn | cat-web/src/app/components/login/login.component.ts:41-44 | `loading` ends and the route is `/breeds`. |
| Login.LoginComponent.OnLoginError | cat-web/src/app/components/login/login.component.ts:45-48 | `loading` ends and `error` is the server's message, or `Error al iniciar sesión`. |
| Text.IsBlank | cat-web/src/app/components/breed-table/breed-table.component.ts:68 | `!s.trim()`: the string is empty or white space only. |
| Text.LeadingBlank | cat-web/src/app/components/breed-table/breed-table.component.ts:68 | The length of the white-space run at the start of a string (for `trim`). |
| Text.ContentEnd | cat-web/src/app/components/breed-table/breed-table.component.ts:68 | The position after the last non-white-space character (for `trim`). |
| Text.Trim | frontend/src/app/components/breed-search/breed-search.component.ts:24-33 | `trim` is empty exactly for blank input. Otherwise it is the infix without white space at either end, and everything outside it is white space. |
| Text.LowerChar | frontend/src/app/components/breed-table/breed-table.component.ts:115 | ASCII capital letters become the small letters 32 code points above; other characters are kept. |
| Text.ToLower | frontend/src/app/components/breed-table/breed-table.component.ts:115-119 | `toLowerCase`, character by character, same length. |
| Text.Contains | frontend/src/app/components/breed-table/breed-table.component.ts:117-119 | `includes` holds exactly when the term occurs at some offset. |
| Text.IndexOf | cat-web/src/app/components/registro/registro.component.ts:74 | The position of the first occurrence of a character, or none when it does not occur. |
| Text.IndexOfFirst | cat-web/src/app/components/registro/registro.component.ts:74 | A position holding the character with none before it is the one `IndexOf` finds. |
| Text.Join | cat-web/src/app/components/breed-table/breed-table.component.ts:150 | `join(',')`: the pieces with one comma between neighbours. |
| Text.Split | frontend/src/app/components/breed-table/breed-table.component.ts:193 | `split(',')` gives at least one piece, no piece holds a comma, and joining the pieces gives the input back. |
| Text.SplitJoin | cat-web/src/app/components/breed-table/breed-table.component.ts:149-150 | Splitting comma-free pieces after joining them gives the pieces back. |
| Text.JoinPrefix | cat-web/src/app/components/breed-table/breed-table.component.ts:149-150 | Joining the first `k` pieces gives a prefix of joining them all. |
| Text.StrLess | cat-web/src/app/components/breed-table/breed-table.component.ts:124-127 | JavaScript `<` on strings: a proper prefix, or a smaller character at the first difference. |
| Text.StrLessIrreflexive | cat-web/src/app/components/breed-table/breed-table.component.ts:124 | No string is less than itself. |
| Text.StrLessTransitive | cat-web/src/app/components/breed-table/breed-table.component.ts:124-127 | String `<` is transitive. |
| Text.StrLessTotal | cat-web/src/app/components/breed-table/breed-table.component.ts:124-127 | Of two different strings one is less than the other. |

## Left out

- **Cache copies.** The frontend's `CacheService` is not part of this model.
  Its tests (frontend/src/app/services/cache.service.spec.ts) are read against the cat-web copy.
- **`JSON.stringify` and `JSON.parse`.**
  - Serialisation is the identity.
  - A stored text is a record, an empty text or an unparseable text.
  - Values that parse but are not entries (a `null`, a number, an object without a `timestamp`) are not modelled.
- **Ignored failures.** `try`/`catch` around `localStorage`, and `console.warn`/`console.error`,
  are no-ops except where they change control flow (the aborted load).
  A `setItem` that fails for lack of quota is not modelled.
- **Clock and ttl values.**
  - The clock is the `now` parameter: no real time and no fake timers.
  - In `cacheObservable`, the time of the emission is a separate parameter `emittedAt`.
  - ttl and time stamps are integers; non-integer and `NaN` values are not modelled.
- **Observable sources.**
  - A source is one outcome: one value, or an error.
  - A source that emits several values or none is not modelled.
  - `cacheObservable` is modelled as subscribed to once; the laziness of the returned observable is not.
- **Asynchrony.** The concurrency and timing of RxJS, `Promise.all`, `toPromise` and `forkJoin`
  are sequential processing of given outcomes.
  - Only the result order and length are stated.
  - Requests are issued in name order.
- **The `forkJoin` error branch, and in-place mutation of a breed.** The `error` branch of `forkJoin`
  (frontend/src/app/components/breed-table/breed-table.component.ts:82-87) is not modelled.
  - Every inner request there has its own `catchError`, so the branch cannot be reached.
  - In-place mutation of a shared `breed` object is modelled as building a new record.
- **Image payloads.**
  - An image reply is a list of `{id, url, width?, height?}` records.
  - A `null` reply body, which the code treats like an empty list, is the model's empty list.
- **Unused breed fields.** The breed fields that no core operation reads (description,
  weight, the other levels, wikipedia address) are carried in `Breeds.Breed` but not used.
- **Routing.**
  - Router navigation is reduced to the route the login method returns.
  - The registration form's `setTimeout(2000)` navigation to `/login` is left out.
  - `goToLogin`, `goToRegister` and `cat-web/src/app/app.routes.ts` are router configuration and are left out.
- **HTTP services.** `frontend/src/app/services/cats.service.ts` and the auth service are thin
  HTTP wrappers. Their answers are parameters, and only the cache key `breed_names` and the
  ten-minute ttl are reused.
- **Unicode and JavaScript semantics.**
  - `toLowerCase` is ASCII-only: no Unicode case folding.
  - String length, `substring` and `<` count and compare Unicode scalar values, not UTF-16 code units.
  - The regular expression engine is replaced by an explicit predicate, with the `\s` set written out.
  - A string ordered against a number, or a falsy non-string `mensaje`, is not modelled.
- **Sort algorithm.** The browser's `Array.prototype.sort` is modelled by a stable insertion sort.
  - It is proved to give a sorted permutation.
  - It is proved stable: rows with equal values in the sorted column keep their order.
  - The exact sequence of comparator calls a browser makes is not modelled.
- **Form-field types.** Form fields are strings: `null` or `undefined` bound values are not modelled.
- **Other files.** The tests of services and guards that are not part of this model
  (`cat-web/src/app/services/auth.service.spec.ts`, `frontend/src/app/guards/auth.guard.spec.ts`,
  `frontend/src/app/app.component.spec.ts`), `user.model.ts` and the build configuration
  are not part of this model.
