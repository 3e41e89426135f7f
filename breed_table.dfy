/**
 * The logic the two breed tables share (frontend/src/app/components/breed-table and
 * cat-web/src/app/components/breed-table): choosing the first breed of every search
 * result, attaching images, filtering by a search term, the sort state machine with
 * its comparator, the sort icon and the truncated temperament.
 */
module BreedTable {
  import opened Wrappers
  import opened Text
  import opened Breeds

  // ---------------------------------------------------------------------------
  // Loading: names, searches, heads
  // ---------------------------------------------------------------------------

  /** `names.slice(0, 50)`: how many breed names are searched. */
  const MaxSearchedNames: nat := 50

  const NamesLoadError := "Error al cargar los nombres de las razas"
  const BreedsLoadError := "Error al cargar las razas"

  /** The names whose full record is searched: the first 50, in order. */
  function SearchedNames(names: seq<string>): (r: seq<string>)
    ensures |r| == if |names| < MaxSearchedNames then |names| else MaxSearchedNames
    ensures r <= names
  {
    if |names| < MaxSearchedNames then names else names[..MaxSearchedNames]
  }

  /**
   * What one `searchBreeds(name, true).toPromise()` settles to: a list of matches,
   * no value at all (the promise resolves to `undefined`), or a rejection.
   */
  datatype SearchOutcome = Found(results: seq<Breed>) | NoValue | SearchFailed

  /** The searches of `names`, one per name and in the same order; glue for `Heads`, which carries the content. */
  function SearchAll(search: string -> SearchOutcome, names: seq<string>): (r: seq<SearchOutcome>)
    ensures |r| == |names|
    ensures forall i | 0 <= i < |names| :: r[i] == search(names[i])
  {
    seq(|names|, i requires 0 <= i < |names| => search(names[i]))
  }

  /** `Promise.all` rejects when one of the searches does. */
  predicate AnyFailed(outcomes: seq<SearchOutcome>) {
    exists i | 0 <= i < |outcomes| :: outcomes[i].SearchFailed?
  }

  /** `result && result.length > 0 ? result[0]`: the first breed of a non-empty result. */
  function HeadOf(o: SearchOutcome): Option<Breed> {
    if o.Found? && |o.results| > 0 then Some(o.results[0]) else None
  }

  /** The head of `o` as a list of zero or one breed. */
  function HeadList(o: SearchOutcome): (r: seq<Breed>)
    ensures HeadOf(o).None? ==> r == []
    ensures HeadOf(o).Some? ==> r == [HeadOf(o).value]
  {
    if o.Found? && |o.results| > 0 then [o.results[0]] else []
  }

  /** The heads of the non-empty results, in the order of the results. */
  function Heads(outcomes: seq<SearchOutcome>): (r: seq<Breed>)
    ensures |r| <= |outcomes|
  {
    if outcomes == [] then [] else HeadList(outcomes[0]) + Heads(outcomes[1..])
  }

  /** Head selection works piecewise, so it keeps the order of the results. */
  lemma {:induction false} HeadsAppend(a: seq<SearchOutcome>, b: seq<SearchOutcome>)
    ensures Heads(a + b) == Heads(a) + Heads(b)
    decreases |a|
  {
    if a == [] {
      assert a + b == b;
    } else {
      assert (a + b)[0] == a[0];
      assert (a + b)[1..] == a[1..] + b;
      HeadsAppend(a[1..], b);
      calc {
        Heads(a + b);
        HeadList(a[0]) + Heads(a[1..] + b);
        HeadList(a[0]) + (Heads(a[1..]) + Heads(b));
        (HeadList(a[0]) + Heads(a[1..])) + Heads(b);
      }
    }
  }

  /** Every breed kept is the head of some result, and every head is kept. */
  lemma {:induction false} HeadsAreTheHeads(outcomes: seq<SearchOutcome>)
    ensures forall k | 0 <= k < |Heads(outcomes)| ::
      exists i | 0 <= i < |outcomes| :: HeadOf(outcomes[i]) == Some(Heads(outcomes)[k])
    ensures forall i | 0 <= i < |outcomes| && HeadOf(outcomes[i]).Some? ::
      HeadOf(outcomes[i]).value in Heads(outcomes)
    decreases |outcomes|
  {
    if outcomes != [] {
      var rest := outcomes[1..];
      HeadsAreTheHeads(rest);
      var r := Heads(outcomes);
      var front := HeadList(outcomes[0]);
      assert r == front + Heads(rest);
      forall k | 0 <= k < |Heads(outcomes)|
        ensures exists i | 0 <= i < |outcomes| :: HeadOf(outcomes[i]) == Some(Heads(outcomes)[k])
      {
        if k < |front| {
          assert HeadOf(outcomes[0]) == Some(r[k]);
        } else {
          assert r[k] == Heads(rest)[k - |front|];
          var i :| 0 <= i < |rest| && HeadOf(rest[i]) == Some(Heads(rest)[k - |front|]);
          assert HeadOf(outcomes[i + 1]) == Some(r[k]);
        }
      }
      forall i | 0 <= i < |outcomes| && HeadOf(outcomes[i]).Some?
        ensures HeadOf(outcomes[i]).value in r
      {
        if i == 0 {
          assert r[0] == HeadOf(outcomes[0]).value;
        } else {
          assert outcomes[i] == rest[i - 1];
          assert Heads(rest) <= r[|front|..];
        }
      }
    } else {
      assert Heads(outcomes) == [];
    }
  }

  /** When every result is non-empty, breed `i` is the head of result `i`. */
  lemma {:induction false} HeadsOfNonEmpty(outcomes: seq<SearchOutcome>)
    requires forall i | 0 <= i < |outcomes| :: HeadOf(outcomes[i]).Some?
    ensures |Heads(outcomes)| == |outcomes|
    ensures forall i | 0 <= i < |outcomes| :: Some(Heads(outcomes)[i]) == HeadOf(outcomes[i])
    decreases |outcomes|
  {
    if outcomes != [] {
      HeadsOfNonEmpty(outcomes[1..]);
    }
  }

  /** Results without a value or with no breed are dropped. */
  lemma {:induction false} EmptyResultsDropped(outcomes: seq<SearchOutcome>)
    requires forall i | 0 <= i < |outcomes| :: HeadOf(outcomes[i]).None?
    ensures Heads(outcomes) == []
    decreases |outcomes|
  {
    if outcomes != [] {
      EmptyResultsDropped(outcomes[1..]);
    }
  }

  // ---------------------------------------------------------------------------
  // Image enrichment (frontend table only)
  // ---------------------------------------------------------------------------

  /** What one `getImagesByBreedId(breed.id)` yields: a list of images, or an error. */
  datatype ImageOutcome = Fetched(images: seq<Image>) | FetchFailed

  /** `if (breed.reference_image_id)`: present and not the empty string. */
  predicate HasReferenceImage(b: Breed) {
    b.referenceImageId.Some? && b.referenceImageId.value != ""
  }

  /** The image fetch for `b` happened and returned at least one image. */
  predicate GetsImage(b: Breed, o: ImageOutcome) {
    HasReferenceImage(b) && o.Fetched? && |o.images| > 0
  }

  /** One record after its image request: the first image replaces `image`, or the record is kept. */
  function AttachImage(b: Breed, o: ImageOutcome): (r: Breed)
    ensures r.(image := b.image) == b
    ensures GetsImage(b, o) ==> r.image == Some(o.images[0])
    ensures !GetsImage(b, o) ==> r == b
  {
    if GetsImage(b, o) then
      var first := o.images[0];
      b.(image := Some(Image(first.id, first.url, first.width, first.height)))
    else
      b
  }

  /**
   * The image outcomes of the records, record by record (ignored where no fetch is made);
   * glue for `MergeImages`, which carries the content.
   */
  function FetchAll(images: string -> ImageOutcome, breeds: seq<Breed>): (r: seq<ImageOutcome>)
    ensures |r| == |breeds|
    ensures forall i | 0 <= i < |breeds| :: r[i] == images(breeds[i].id)
  {
    seq(|breeds|, i requires 0 <= i < |breeds| => images(breeds[i].id))
  }

  /** The record ids an image is fetched for: those with a reference image, in order. */
  function ImageRequests(breeds: seq<Breed>): (r: seq<string>)
    ensures |r| <= |breeds|
  {
    if breeds == [] then [] else RequestOf(breeds[0]) + ImageRequests(breeds[1..])
  }

  /** The image request of one record: its id when it has a reference image, else none. */
  function RequestOf(b: Breed): seq<string> {
    if HasReferenceImage(b) then [b.id] else []
  }

  /** Image requests work piecewise: one per record with a reference image, in record order. */
  lemma {:induction false} ImageRequestsAppend(a: seq<Breed>, b: seq<Breed>)
    ensures ImageRequests(a + b) == ImageRequests(a) + ImageRequests(b)
    decreases |a|
  {
    if a == [] {
      assert a + b == b;
    } else {
      assert (a + b)[0] == a[0];
      assert (a + b)[1..] == a[1..] + b;
      ImageRequestsAppend(a[1..], b);
      calc {
        ImageRequests(a + b);
        RequestOf(a[0]) + ImageRequests(a[1..] + b);
        RequestOf(a[0]) + (ImageRequests(a[1..]) + ImageRequests(b));
        (RequestOf(a[0]) + ImageRequests(a[1..])) + ImageRequests(b);
      }
    }
  }

  /** A fetch is made for exactly the records that carry a reference image. */
  lemma {:induction false} ImageRequestsExact(breeds: seq<Breed>)
    ensures forall i | 0 <= i < |breeds| && HasReferenceImage(breeds[i]) :: breeds[i].id in ImageRequests(breeds)
    ensures forall id | id in ImageRequests(breeds) ::
      exists i | 0 <= i < |breeds| :: HasReferenceImage(breeds[i]) && breeds[i].id == id
    decreases |breeds|
  {
    if breeds != [] {
      var rest := breeds[1..];
      ImageRequestsExact(rest);
      forall i | 0 <= i < |breeds| && HasReferenceImage(breeds[i])
        ensures breeds[i].id in ImageRequests(breeds)
      {
        if i > 0 { assert breeds[i] == rest[i - 1]; }
      }
      forall id | id in ImageRequests(breeds)
        ensures exists i | 0 <= i < |breeds| :: HasReferenceImage(breeds[i]) && breeds[i].id == id
      {
        if id !in ImageRequests(rest) {
          assert HasReferenceImage(breeds[0]) && breeds[0].id == id;
        } else {
          var i :| 0 <= i < |rest| && HasReferenceImage(rest[i]) && rest[i].id == id;
          assert breeds[i + 1] == rest[i];
        }
      }
    }
  }

  /**
   * `forkJoin(imageRequests)`: every record after its own image request, same length
   * and order; a record only ever gains an image, from its own fetch.
   */
  function MergeImages(breeds: seq<Breed>, fetched: seq<ImageOutcome>): (r: seq<Breed>)
    requires |fetched| == |breeds|
    ensures |r| == |breeds|
    ensures forall i | 0 <= i < |breeds| :: r[i] == AttachImage(breeds[i], fetched[i])
    decreases |breeds|
  {
    if breeds == [] then []
    else [AttachImage(breeds[0], fetched[0])] + MergeImages(breeds[1..], fetched[1..])
  }

  /** The three cases of the merge, record by record. */
  lemma MergeCases(breeds: seq<Breed>, fetched: seq<ImageOutcome>, i: nat)
    requires |fetched| == |breeds| && i < |breeds|
    ensures !HasReferenceImage(breeds[i]) ==> MergeImages(breeds, fetched)[i] == breeds[i]
    ensures GetsImage(breeds[i], fetched[i]) ==>
      MergeImages(breeds, fetched)[i] == breeds[i].(image := Some(fetched[i].images[0]))
    ensures fetched[i].FetchFailed? || fetched[i] == Fetched([]) ==> MergeImages(breeds, fetched)[i] == breeds[i]
  {
  }

  // ---------------------------------------------------------------------------
  // Filtering
  // ---------------------------------------------------------------------------

  /** `a` is `b` with some elements left out, the rest in their order. */
  predicate IsSubsequence<T(==)>(a: seq<T>, b: seq<T>)
    decreases |b|
  {
    if a == [] then true
    else if b == [] then false
    else if a[0] == b[0] then IsSubsequence(a[1..], b[1..])
    else IsSubsequence(a, b[1..])
  }

  /**
   * The filter's test: the lowercased name, origin or temperament of `b` contains `term`.
   * As with `includes('')`, the empty term matches every record.
   */
  function Matches(b: Breed, term: string): (r: bool)
    ensures term == [] ==> r
    ensures Contains(ToLower(b.name), term) ==> r
  {
    || Contains(ToLower(b.name), term)
    || (b.origin.Some? && Contains(ToLower(b.origin.value), term))
    || (b.temperament.Some? && Contains(ToLower(b.temperament.value), term))
  }

  /** `breeds.filter(...)`: the records that match, in their order. */
  function KeepMatching(breeds: seq<Breed>, term: string): (r: seq<Breed>)
    ensures IsSubsequence(r, breeds)
    ensures forall b | b in r :: Matches(b, term)
    ensures forall i | 0 <= i < |breeds| && Matches(breeds[i], term) :: breeds[i] in r
    ensures forall b :: multiset(r)[b] == if Matches(b, term) then multiset(breeds)[b] else 0
    decreases |breeds|
  {
    if breeds == [] then []
    else
      var rest := KeepMatching(breeds[1..], term);
      assert breeds == [breeds[0]] + breeds[1..];
      if Matches(breeds[0], term) then
        assert ([breeds[0]] + rest)[1..] == rest;
        [breeds[0]] + rest
      else
        assert forall i | 1 <= i < |breeds| :: breeds[i] == breeds[1..][i - 1];
        rest
  }

  /**
   * `filterBreeds`: a blank term shows every record; otherwise the records whose
   * name, origin or temperament contains the lowercased term (which is not trimmed).
   */
  function FilterBreeds(breeds: seq<Breed>, searchTerm: string): (r: seq<Breed>)
    ensures IsBlank(searchTerm) ==> r == breeds
    ensures IsSubsequence(r, breeds)
    ensures !IsBlank(searchTerm) ==>
      (forall b | b in r :: Matches(b, ToLower(searchTerm))) &&
      (forall i | 0 <= i < |breeds| && Matches(breeds[i], ToLower(searchTerm)) :: breeds[i] in r) &&
      (forall b :: multiset(r)[b] == if Matches(b, ToLower(searchTerm)) then multiset(breeds)[b] else 0)
  {
    if Trim(searchTerm) == [] then
      SubsequenceOfItself(breeds);
      breeds
    else
      KeepMatching(breeds, ToLower(searchTerm))
  }

  lemma {:induction false} SubsequenceOfItself<T>(s: seq<T>)
    ensures IsSubsequence(s, s)
    decreases |s|
  {
    if s != [] { SubsequenceOfItself(s[1..]); }
  }

  /** A record whose lowercased name contains the lowercased term is shown, whatever the letter case typed. */
  lemma FilterMatchesLowercased(b: Breed, searchTerm: string)
    requires !IsBlank(searchTerm)
    requires Contains(ToLower(b.name), ToLower(searchTerm))
    ensures b in FilterBreeds([b], searchTerm)
  {
  }

  // ---------------------------------------------------------------------------
  // Sorting
  // ---------------------------------------------------------------------------

  datatype Direction = Asc | Desc

  /** The table's `sortColumn` and `sortDirection`. */
  datatype SortState = SortState(column: string, direction: Direction)

  /** `sortBy(column)` on the state: the same column flips the direction, another one starts at `asc`. */
  function NextSort(st: SortState, column: string): (r: SortState)
    ensures r.column == column
    ensures st.column == column ==> r.direction != st.direction
    ensures st.column != column ==> r.direction == Asc
  {
    if st.column == column then
      SortState(column, if st.direction == Asc then Desc else Asc)
    else
      SortState(column, Asc)
  }

  /** Clicking the same header twice restores the sort state. */
  lemma SortToggleTwice(st: SortState)
    ensures NextSort(NextSort(st, st.column), st.column) == st
  {
  }

  /** A column value the comparator compares. */
  datatype SortKey = Text(s: string) | Number(n: int)

  /** The six columns the comparator knows; the numeric ones compare as numbers. */
  const TextColumns: set<string> := {"name", "origin", "life_span"}
  const NumberColumns: set<string> := {"affection_level", "energy_level", "intelligence"}

  /** The value of column `column` of `b`, with `''` and `0` for missing values; `None` for unknown columns. */
  function KeyOf(b: Breed, column: string): (r: Option<SortKey>)
    ensures r.Some? <==> column in TextColumns + NumberColumns
    ensures r.Some? ==> (r.value.Text? <==> column in TextColumns)
    ensures column == "name" ==> r == Some(Text(b.name))
  {
    if column == "name" then Some(Text(b.name))
    else if column == "origin" then Some(Text(b.origin.GetOr("")))
    else if column == "life_span" then Some(Text(b.lifeSpan.GetOr("")))
    else if column == "affection_level" then Some(Number(b.affectionLevel.GetOr(0)))
    else if column == "energy_level" then Some(Number(b.energyLevel.GetOr(0)))
    else if column == "intelligence" then Some(Number(b.intelligence.GetOr(0)))
    else None
  }

  /** JavaScript `<` on two values of the same column. */
  predicate KeyLess(x: SortKey, y: SortKey) {
    match (x, y)
    case (Text(a), Text(b)) => StrLess(a, b)
    case (Number(a), Number(b)) => a < b
    case _ => false
  }

  /**
   * The comparator passed to `filteredBreeds.sort`: -1, 0 or 1; 0 exactly when the column
   * is unknown or both keys are equal; and the descending result is the ascending one negated.
   */
  function Compare(column: string, dir: Direction, a: Breed, b: Breed): (r: int)
    ensures -1 <= r <= 1
    ensures r == 0 <==> KeyOf(a, column).None? || KeyOf(a, column) == KeyOf(b, column)
    ensures KeyOf(a, column).Some? && dir == Asc ==> (r < 0 <==> KeyLess(KeyOf(a, column).value, KeyOf(b, column).value))
    ensures KeyOf(a, column).Some? && dir == Desc ==> (r < 0 <==> KeyLess(KeyOf(b, column).value, KeyOf(a, column).value))
  {
    if KeyOf(a, column).Some? then KeyOrder(column, a, b, a); KeyOrder(column, b, a, b); CompareKeys(column, dir, a, b)
    else CompareKeys(column, dir, a, b)
  }

  /** The comparator's arithmetic on two column values. */
  function CompareKeys(column: string, dir: Direction, a: Breed, b: Breed): int {
    match (KeyOf(a, column), KeyOf(b, column))
    case (Some(x), Some(y)) =>
      if KeyLess(x, y) then (if dir == Asc then -1 else 1)
      else if KeyLess(y, x) then (if dir == Asc then 1 else -1)
      else 0
    case _ => 0
  }

  /** `a` may stand before `b`. */
  predicate InOrder(column: string, dir: Direction, a: Breed, b: Breed) {
    Compare(column, dir, a, b) <= 0
  }

  /** Whether a column has a key, and its kind, depend on the column only. */
  lemma SameKind(column: string, a: Breed, b: Breed)
    ensures KeyOf(a, column).Some? == KeyOf(b, column).Some?
    ensures KeyOf(a, column).Some? ==> KeyOf(a, column).value.Text? == KeyOf(b, column).value.Text?
  {
  }

  /** In ascending order a key never stands before a smaller one; in descending order, before a larger one. */
  lemma InOrderMeaning(column: string, dir: Direction, a: Breed, b: Breed)
    requires KeyOf(a, column).Some?
    ensures dir == Asc ==> (InOrder(column, dir, a, b) <==> !KeyLess(KeyOf(b, column).value, KeyOf(a, column).value))
    ensures dir == Desc ==> (InOrder(column, dir, a, b) <==> !KeyLess(KeyOf(a, column).value, KeyOf(b, column).value))
  {
    SameKind(column, a, b);
    KeyOrder(column, a, b, a);
  }

  /** Two keys of the same column are equal or one is less than the other, never both. */
  lemma KeyOrder(column: string, a: Breed, b: Breed, c: Breed)
    requires KeyOf(a, column).Some?
    ensures var x, y, z := KeyOf(a, column).value, KeyOf(b, column).value, KeyOf(c, column).value;
      && !KeyLess(x, x)
      && (x == y || KeyLess(x, y) || KeyLess(y, x))
      && (KeyLess(x, y) && KeyLess(y, z) ==> KeyLess(x, z))
  {
    SameKind(column, a, b);
    SameKind(column, a, c);
    var x, y, z := KeyOf(a, column).value, KeyOf(b, column).value, KeyOf(c, column).value;
    if x.Text? {
      StrLessIrreflexive(x.s);
      StrLessTotal(x.s, y.s);
      if KeyLess(x, y) && KeyLess(y, z) {
        StrLessTransitive(x.s, y.s, z.s);
      }
    }
  }

  lemma InOrderTotal(column: string, dir: Direction, a: Breed, b: Breed)
    ensures InOrder(column, dir, a, b) || InOrder(column, dir, b, a)
  {
    SameKind(column, a, b);
    if KeyOf(a, column).Some? {
      KeyOrder(column, a, b, a);
      InOrderMeaning(column, dir, a, b);
      InOrderMeaning(column, dir, b, a);
    }
  }

  lemma InOrderTransitive(column: string, dir: Direction, a: Breed, b: Breed, c: Breed)
    requires InOrder(column, dir, a, b) && InOrder(column, dir, b, c)
    ensures InOrder(column, dir, a, c)
  {
    SameKind(column, a, b);
    SameKind(column, a, c);
    if KeyOf(a, column).Some? {
      KeyOrder(column, a, b, c);
      KeyOrder(column, b, c, a);
      KeyOrder(column, c, a, b);
      KeyOrder(column, b, a, c);
      InOrderMeaning(column, dir, a, b);
      InOrderMeaning(column, dir, b, c);
      InOrderMeaning(column, dir, a, c);
    }
  }

  /** Every pair in `s` is in order. */
  predicate Sorted(column: string, dir: Direction, s: seq<Breed>) {
    forall i, j | 0 <= i < j < |s| :: InOrder(column, dir, s[i], s[j])
  }

  /** `x` may stand before every element of `s`. */
  predicate Precedes(column: string, dir: Direction, x: Breed, s: seq<Breed>) {
    forall j | 0 <= j < |s| :: InOrder(column, dir, x, s[j])
  }

  /** `x` put before the first element of `s` it may stand before. */
  function Insert(column: string, dir: Direction, x: Breed, s: seq<Breed>): (r: seq<Breed>)
    ensures multiset(r) == multiset(s) + multiset{x}
    decreases |s|
  {
    if s == [] then [x]
    else if InOrder(column, dir, x, s[0]) then [x] + s
    else
      assert s == [s[0]] + s[1..];
      [s[0]] + Insert(column, dir, x, s[1..])
  }

  /** A stable sort of `s` by the comparator (insertion sort). */
  function SortBreeds(column: string, dir: Direction, s: seq<Breed>): (r: seq<Breed>)
    ensures multiset(r) == multiset(s)
    decreases |s|
  {
    if s == [] then []
    else
      assert s == [s[0]] + s[1..];
      Insert(column, dir, s[0], SortBreeds(column, dir, s[1..]))
  }

  /** Putting `x` before sorted rows that it may precede gives sorted rows. */
  lemma SortedCons(column: string, dir: Direction, x: Breed, t: seq<Breed>)
    requires Precedes(column, dir, x, t) && Sorted(column, dir, t)
    ensures Sorted(column, dir, [x] + t)
  {
    var r := [x] + t;
    forall i, j | 0 <= i < j < |r| ensures InOrder(column, dir, r[i], r[j]) {
      if i > 0 { assert r[i] == t[i - 1] && r[j] == t[j - 1]; }
    }
  }

  /** An element that may precede the first of sorted rows may precede them all. */
  lemma PrecedesSorted(column: string, dir: Direction, x: Breed, s: seq<Breed>)
    requires s != [] && Sorted(column, dir, s) && InOrder(column, dir, x, s[0])
    ensures Precedes(column, dir, x, s)
  {
    forall j | 0 <= j < |s| ensures InOrder(column, dir, x, s[j]) {
      if j > 0 { InOrderTransitive(column, dir, x, s[0], s[j]); }
    }
  }

  /** The first of sorted rows may precede every element of the rows with `x` inserted behind it. */
  lemma PrecedesAfterInsert(column: string, dir: Direction, x: Breed, s: seq<Breed>, t: seq<Breed>)
    requires s != [] && Sorted(column, dir, s) && InOrder(column, dir, s[0], x)
    requires multiset(t) == multiset(s[1..]) + multiset{x}
    ensures Precedes(column, dir, s[0], t)
  {
    forall j | 0 <= j < |t| ensures InOrder(column, dir, s[0], t[j]) {
      assert t[j] in multiset(t);
      if t[j] != x {
        assert t[j] in multiset(s[1..]);
        var k :| 0 <= k < |s[1..]| && s[1..][k] == t[j];
        assert s[k + 1] == t[j];
      }
    }
  }

  lemma {:induction false} InsertSorted(column: string, dir: Direction, x: Breed, s: seq<Breed>)
    requires Sorted(column, dir, s)
    ensures Sorted(column, dir, Insert(column, dir, x, s))
    decreases |s|
  {
    if s == [] {
    } else if InOrder(column, dir, x, s[0]) {
      PrecedesSorted(column, dir, x, s);
      SortedCons(column, dir, x, s);
    } else {
      var t := Insert(column, dir, x, s[1..]);
      assert Sorted(column, dir, s[1..]) by {
        forall i, j | 0 <= i < j < |s[1..]| ensures InOrder(column, dir, s[1..][i], s[1..][j]) {
          assert s[1..][i] == s[i + 1] && s[1..][j] == s[j + 1];
        }
      }
      InsertSorted(column, dir, x, s[1..]);
      InOrderTotal(column, dir, x, s[0]);
      PrecedesAfterInsert(column, dir, x, s, t);
      SortedCons(column, dir, s[0], t);
    }
  }

  /** The sorted table is in order by the chosen column and direction. */
  lemma {:induction false} SortBreedsSorted(column: string, dir: Direction, s: seq<Breed>)
    ensures Sorted(column, dir, SortBreeds(column, dir, s))
    decreases |s|
  {
    if s != [] {
      SortBreedsSorted(column, dir, s[1..]);
      InsertSorted(column, dir, s[0], SortBreeds(column, dir, s[1..]));
    }
  }

  /** The rows of `s` whose value in `column` is `key`, in their order. */
  function WithKey(column: string, key: Option<SortKey>, s: seq<Breed>): seq<Breed>
    decreases |s|
  {
    if s == [] then []
    else (if KeyOf(s[0], column) == key then [s[0]] else []) + WithKey(column, key, s[1..])
  }

  /** `x` lands in front of every row with its own key, so among equal keys it stays first. */
  lemma {:induction false} InsertWithKey(column: string, dir: Direction, x: Breed, t: seq<Breed>, key: Option<SortKey>)
    ensures WithKey(column, key, Insert(column, dir, x, t))
         == (if KeyOf(x, column) == key then [x] else []) + WithKey(column, key, t)
    decreases |t|
  {
    if t == [] {
    } else if InOrder(column, dir, x, t[0]) {
      assert ([x] + t)[0] == x && ([x] + t)[1..] == t;
    } else {
      InsertWithKey(column, dir, x, t[1..], key);
      assert KeyOf(x, column) != KeyOf(t[0], column);
      var r := [t[0]] + Insert(column, dir, x, t[1..]);
      assert r[0] == t[0] && r[1..] == Insert(column, dir, x, t[1..]);
    }
  }

  /**
   * The sort is stable, as `Array.prototype.sort` is: the rows that share a value in the
   * sorted column come out in the order they went in.
   */
  lemma {:induction false} SortBreedsStable(column: string, dir: Direction, s: seq<Breed>, key: Option<SortKey>)
    ensures WithKey(column, key, SortBreeds(column, dir, s)) == WithKey(column, key, s)
    decreases |s|
  {
    if s != [] {
      SortBreedsStable(column, dir, s[1..], key);
      InsertWithKey(column, dir, s[0], SortBreeds(column, dir, s[1..]), key);
    }
  }

  /** An unknown column compares every pair as equal, so the order stays as it was. */
  lemma {:induction false} UnknownColumnKeepsOrder(column: string, dir: Direction, s: seq<Breed>)
    requires forall b: Breed :: KeyOf(b, column).None?
    ensures SortBreeds(column, dir, s) == s
    decreases |s|
  {
    if s != [] {
      UnknownColumnKeepsOrder(column, dir, s[1..]);
      assert s == [s[0]] + s[1..];
    }
  }

  /** The six sortable columns; any other name is unknown to the comparator. */
  lemma UnknownColumns(column: string, b: Breed)
    requires column !in {"name", "origin", "life_span", "affection_level", "energy_level", "intelligence"}
    ensures KeyOf(b, column).None?
  {
  }

  // ---------------------------------------------------------------------------
  // Sort icon and truncated temperament
  // ---------------------------------------------------------------------------

  const Unsorted := "\U{2195}\U{FE0F}"
  const SortedUp := "\U{2191}"
  const SortedDown := "\U{2193}"

  /** `getSortIcon(column)` for sort state `st`: the neutral icon off the sorted column, else its direction's arrow. */
  function SortIcon(st: SortState, column: string): (r: string)
    ensures r == Unsorted <==> st.column != column
    ensures r == SortedUp <==> st.column == column && st.direction == Asc
    ensures r == SortedDown <==> st.column == column && st.direction == Desc
  {
    assert |Unsorted| == 2 && |SortedUp| == |SortedDown| == 1 && SortedUp != SortedDown;
    if st.column != column then Unsorted
    else match st.direction
      case Asc => SortedUp
      case Desc => SortedDown
  }

  /** After a click on `column` its header shows the new direction and every other header the neutral icon. */
  lemma SortIconAfterSortBy(st: SortState, column: string, other: string)
    requires other != column
    ensures var next := NextSort(st, column);
      && SortIcon(next, column) == (if next.direction == Asc then SortedUp else SortedDown)
      && SortIcon(next, other) == Unsorted
  {
  }

  /** A second click on the sorted column flips its arrow. */
  lemma SortIconToggles(st: SortState)
    ensures SortIcon(st, st.column) != SortIcon(NextSort(st, st.column), st.column)
  {
  }

  const NotAvailable := "N/A"
  const Ellipsis := "..."

  /** The number of comma pieces kept by the table's temperament column. */
  const KeptPieces: nat := 3

  /**
   * `getTruncatedTemperament` of the tables. A missing or empty temperament reads `N/A`;
   * up to three comma pieces come back unchanged; more become the first three pieces of
   * the input, exactly, followed by `...`.
   */
  function TruncateTemperament(temperament: Option<string>): (r: string)
    ensures temperament.None? || temperament == Some("") ==> r == NotAvailable
    ensures temperament.Some? && temperament.value != "" && |Split(temperament.value, ',')| <= KeptPieces ==>
      r == temperament.value
    ensures temperament.Some? && temperament.value != "" && |Split(temperament.value, ',')| > KeptPieces ==>
      var t := temperament.value;
      var p := Join(Split(t, ',')[..KeptPieces], ',');
      && r == p + Ellipsis
      && p <= t
      && Split(p, ',') == Split(t, ',')[..KeptPieces]
  {
    if temperament.None? || temperament.value == "" then NotAvailable
    else
      var pieces := Split(temperament.value, ',');
      if |pieces| <= KeptPieces then
        Join(pieces, ',')
      else
        JoinPrefix(pieces, ',', KeptPieces);
        SplitJoin(pieces[..KeptPieces], ',');
        Join(pieces[..KeptPieces], ',') + Ellipsis
  }
}
