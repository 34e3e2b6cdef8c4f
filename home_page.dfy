/** The list-state controller of client/app/page.tsx: the sort configuration and its
    comparator sort, the reconcile of one refreshed record, the page count, and the
    state the page component keeps and its handlers. */
module HomePage {
  import opened Records
  import opened Text
  import MockData

  /** The columns the results table lets the user sort by
      (client/components/results-table.tsx:69,78,88). */
  datatype SortField = Name | IsProcessed | CreatedAt

  datatype Direction = Asc | Desc

  /** `sortBy`: a field, or none (`null`), and a direction. */
  datatype SortConfig = SortConfig(field: Option<SortField>, direction: Direction)

  /** The initial `sortBy`: newest first. */
  const InitialSort := SortConfig(Some(CreatedAt), Desc)

  /** The page sizes the limit selector offers (client/components/pagination.tsx:44-47). */
  const LimitOptions: set<int> := {5, 10, 20, 50}

  /** `handleSort(field)`: a new field starts ascending; the current field flips
      from ascending to descending and from descending back to ascending. */
  function NextSort(prev: SortConfig, field: SortField): (next: SortConfig)
    ensures next.field == Some(field)
    ensures prev.field != Some(field) ==> next.direction == Asc
    ensures prev.field == Some(field) ==> next.direction != prev.direction
  {
    SortConfig(Some(field), if prev.field == Some(field) && prev.direction == Asc then Desc else Asc)
  }

  /** Clicking the same column twice restores the configuration; clicking the
      initially sorted column first turns it ascending. */
  lemma NextSortTwice(c: SortConfig, field: SortField)
    requires c.field == Some(field)
    ensures NextSort(NextSort(c, field), field) == c
    ensures NextSort(InitialSort, CreatedAt) == SortConfig(Some(CreatedAt), Asc)
  {
  }

  /** A sort key: the value of the sorted column. */
  datatype SortKey = TextKey(text: string) | FlagKey(flag: bool)

  function Key(img: ImageResult, field: SortField): SortKey
  {
    match field
    case Name => TextKey(img.name)
    case IsProcessed => FlagKey(img.isProcessed)
    case CreatedAt => TextKey(img.createdAt)
  }

  /** `<` on two strings: character by character, a proper prefix first. Dafny
      characters are Unicode scalar values, so this is JavaScript's UTF-16 code-unit
      order only for characters up to U+FFFF. */
  function StrLess(a: string, b: string): bool
    decreases |a|
  {
    if |a| == 0 then |b| > 0
    else if |b| == 0 then false
    else if a[0] != b[0] then a[0] < b[0]
    else StrLess(a[1..], b[1..])
  }

  /** `<` on two keys of the same column; `false < true` for flags. */
  function KeyLess(x: SortKey, y: SortKey): bool
  {
    match (x, y)
    case (TextKey(a), TextKey(b)) => StrLess(a, b)
    case (FlagKey(a), FlagKey(b)) => !a && b
    case _ => false
  }

  /** The comparator passed to `sort`: 0 without a field or for equal values,
      otherwise -1 or 1 by `<`, negated for a descending sort. */
  function Compare(a: ImageResult, b: ImageResult, sortBy: SortConfig): (c: int)
    ensures c == -1 || c == 0 || c == 1
  {
    match sortBy.field
    case None => 0
    case Some(f) =>
      var ka := Key(a, f);
      var kb := Key(b, f);
      if ka == kb then 0
      else
        var comparison := if KeyLess(ka, kb) then -1 else 1;
        if sortBy.direction == Asc then comparison else -comparison
  }

  lemma {:induction false} StrLessIrreflexive(a: string)
    ensures !StrLess(a, a)
    decreases |a|
  {
    if |a| > 0 {
      StrLessIrreflexive(a[1..]);
    }
  }

  lemma {:induction false} StrLessAsymmetric(a: string, b: string)
    ensures StrLess(a, b) ==> !StrLess(b, a)
    decreases |a|
  {
    if |a| > 0 && |b| > 0 && a[0] == b[0] {
      StrLessAsymmetric(a[1..], b[1..]);
    }
  }

  lemma {:induction false} StrLessTransitive(a: string, b: string, c: string)
    ensures StrLess(a, b) && StrLess(b, c) ==> StrLess(a, c)
    decreases |a|
  {
    if |a| > 0 && |b| > 0 && |c| > 0 && a[0] == b[0] && b[0] == c[0] {
      StrLessTransitive(a[1..], b[1..], c[1..]);
    }
  }

  lemma {:induction false} StrLessTotal(a: string, b: string)
    ensures a != b ==> StrLess(a, b) || StrLess(b, a)
    decreases |a|
  {
    if |a| > 0 && |b| > 0 && a[0] == b[0] {
      if a[1..] == b[1..] {
        assert a == [a[0]] + a[1..] && b == [b[0]] + b[1..];
      }
      StrLessTotal(a[1..], b[1..]);
    }
  }

  /** `<` on the keys of one column is a strict total order. */
  lemma KeyLessOrder(x: SortKey, y: SortKey, z: SortKey)
    requires x.TextKey? == y.TextKey? == z.TextKey?
    ensures !KeyLess(x, x)
    ensures KeyLess(x, y) ==> !KeyLess(y, x)
    ensures KeyLess(x, y) && KeyLess(y, z) ==> KeyLess(x, z)
    ensures x != y ==> KeyLess(x, y) || KeyLess(y, x)
  {
    if x.TextKey? {
      StrLessIrreflexive(x.text);
      StrLessAsymmetric(x.text, y.text);
      StrLessTransitive(x.text, y.text, z.text);
      StrLessTotal(x.text, y.text);
    }
  }

  /** The comparator is consistent: swapping its arguments negates it, it is 0
      exactly for equal keys (always without a field), and "not after" is a total
      preorder. */
  lemma CompareConsistent(a: ImageResult, b: ImageResult, c: ImageResult, sortBy: SortConfig)
    ensures Compare(a, b, sortBy) == -Compare(b, a, sortBy)
    ensures Compare(a, b, sortBy) == 0 <==> sortBy.field.None? || Key(a, sortBy.field.value) == Key(b, sortBy.field.value)
    ensures Compare(a, b, sortBy) <= 0 && Compare(b, c, sortBy) <= 0 ==> Compare(a, c, sortBy) <= 0
  {
    if sortBy.field.Some? {
      var f := sortBy.field.value;
      KeyLessOrder(Key(a, f), Key(b, f), Key(c, f));
      KeyLessOrder(Key(b, f), Key(a, f), Key(c, f));
      KeyLessOrder(Key(c, f), Key(b, f), Key(a, f));
      KeyLessOrder(Key(a, f), Key(c, f), Key(b, f));
    }
  }

  /** Inserts `x` before the first element it does not come after under `cmp`. */
  function Insert<T>(x: T, sorted: seq<T>, cmp: (T, T) -> int): seq<T>
    decreases |sorted|
  {
    if sorted == [] then [x]
    else if cmp(x, sorted[0]) <= 0 then [x] + sorted
    else [sorted[0]] + Insert(x, sorted[1..], cmp)
  }

  /** Sorts by inserting each element, last first, into the sorted rest. */
  function InsertionSort<T>(s: seq<T>, cmp: (T, T) -> int): seq<T>
    decreases |s|
  {
    if s == [] then [] else Insert(s[0], InsertionSort(s[1..], cmp), cmp)
  }

  /** `cmp` behaves as a comparator: swapping the arguments negates it, and "not
      after" is transitive. */
  ghost predicate Comparator<T(!new)>(cmp: (T, T) -> int)
  {
    && (forall a, b :: cmp(a, b) == -cmp(b, a))
    && (forall a, b, c :: cmp(a, b) <= 0 && cmp(b, c) <= 0 ==> cmp(a, c) <= 0)
  }

  /** No element comes after a later one. */
  ghost predicate Ordered<T>(s: seq<T>, cmp: (T, T) -> int)
  {
    forall i, j :: 0 <= i < j < |s| ==> cmp(s[i], s[j]) <= 0
  }

  lemma ConsMultiset<T>(x: T, s: seq<T>)
    ensures multiset([x] + s) == multiset(s) + multiset{x}
  {
  }

  lemma {:induction false} InsertPermutes<T>(x: T, s: seq<T>, cmp: (T, T) -> int)
    ensures multiset(Insert(x, s, cmp)) == multiset(s) + multiset{x}
    decreases |s|
  {
    if s != [] && cmp(x, s[0]) > 0 {
      var tail := s[1..];
      InsertPermutes(x, tail, cmp);
      assert s == [s[0]] + tail;
    }
  }

  /** Sorting keeps the same elements with the same multiplicities. */
  lemma {:induction false} InsertionSortPermutes<T>(s: seq<T>, cmp: (T, T) -> int)
    ensures multiset(InsertionSort(s, cmp)) == multiset(s)
    decreases |s|
  {
    if s != [] {
      var x, tail := s[0], s[1..];
      var rest := InsertionSort(tail, cmp);
      InsertionSortPermutes(tail, cmp);
      InsertPermutes(x, rest, cmp);
      assert s == [x] + tail;
      ConsMultiset(x, tail);
    }
  }

  /** An element that comes after none of an ordered sequence can go in front. */
  lemma ConsOrdered<T>(y: T, t: seq<T>, cmp: (T, T) -> int)
    requires Ordered(t, cmp)
    requires forall k :: 0 <= k < |t| ==> cmp(y, t[k]) <= 0
    ensures Ordered([y] + t, cmp)
  {
    var r := [y] + t;
    forall i, j | 0 <= i < j < |r|
      ensures cmp(r[i], r[j]) <= 0
    {
      if i > 0 {
        assert r[i] == t[i - 1] && r[j] == t[j - 1];
      }
    }
  }

  /** When `x` goes in front, it comes after no element of `s`. */
  lemma FrontBeforeAll<T(!new)>(x: T, s: seq<T>, cmp: (T, T) -> int)
    requires Comparator(cmp) && Ordered(s, cmp)
    requires s != [] && cmp(x, s[0]) <= 0
    ensures forall k :: 0 <= k < |s| ==> cmp(x, s[k]) <= 0
  {
    forall k | 0 < k < |s|
      ensures cmp(x, s[k]) <= 0
    {
      assert cmp(s[0], s[k]) <= 0;
    }
  }

  /** When `x` passes the head of `s`, the head comes after nothing in the rest. */
  lemma HeadBeforeRest<T(!new)>(x: T, s: seq<T>, cmp: (T, T) -> int)
    requires Comparator(cmp) && Ordered(s, cmp)
    requires s != [] && cmp(x, s[0]) > 0
    ensures var rest := Insert(x, s[1..], cmp);
      forall k :: 0 <= k < |rest| ==> cmp(s[0], rest[k]) <= 0
  {
    var tail := s[1..];
    var rest := Insert(x, tail, cmp);
    InsertPermutes(x, tail, cmp);
    assert cmp(s[0], x) == -cmp(x, s[0]);
    forall k | 0 <= k < |rest|
      ensures cmp(s[0], rest[k]) <= 0
    {
      assert rest[k] in multiset(rest);
      if rest[k] != x {
        assert rest[k] in multiset(tail);
        var m :| 0 <= m < |tail| && tail[m] == rest[k];
        assert tail[m] == s[m + 1];
      }
    }
  }

  lemma {:induction false} InsertOrdered<T(!new)>(x: T, s: seq<T>, cmp: (T, T) -> int)
    requires Comparator(cmp) && Ordered(s, cmp)
    ensures Ordered(Insert(x, s, cmp), cmp)
    ensures |Insert(x, s, cmp)| == |s| + 1
    decreases |s|
  {
    if s == [] {
    } else if cmp(x, s[0]) <= 0 {
      FrontBeforeAll(x, s, cmp);
      ConsOrdered(x, s, cmp);
    } else {
      var tail := s[1..];
      assert Ordered(tail, cmp) by {
        forall i, j | 0 <= i < j < |tail|
          ensures cmp(tail[i], tail[j]) <= 0
        {
          assert tail[i] == s[i + 1] && tail[j] == s[j + 1];
        }
      }
      InsertOrdered(x, tail, cmp);
      HeadBeforeRest(x, s, cmp);
      ConsOrdered(s[0], Insert(x, tail, cmp), cmp);
    }
  }

  /** Under a comparator, the sorted sequence is in order. */
  lemma {:induction false} InsertionSortOrdered<T(!new)>(s: seq<T>, cmp: (T, T) -> int)
    requires Comparator(cmp)
    ensures Ordered(InsertionSort(s, cmp), cmp)
    ensures |InsertionSort(s, cmp)| == |s|
    decreases |s|
  {
    if s != [] {
      InsertionSortOrdered(s[1..], cmp);
      InsertOrdered(s[0], InsertionSort(s[1..], cmp), cmp);
    }
  }

  lemma FilterCons<T>(y: T, t: seq<T>, keep: T -> bool)
    ensures Filter([y] + t, keep) == (if keep(y) then [y] else []) + Filter(t, keep)
  {
    assert ([y] + t)[1..] == t;
  }

  lemma {:induction false} InsertStable<T(!new)>(x: T, s: seq<T>, cmp: (T, T) -> int, keep: T -> bool)
    requires forall a, b :: keep(a) && keep(b) ==> cmp(a, b) == 0
    ensures Filter(Insert(x, s, cmp), keep) == (if keep(x) then [x] else []) + Filter(s, keep)
    decreases |s|
  {
    if s != [] && cmp(x, s[0]) > 0 {
      var tail := s[1..];
      var inserted := Insert(x, tail, cmp);
      assert Insert(x, s, cmp) == [s[0]] + inserted;
      assert s == [s[0]] + tail;
      InsertStable(x, tail, cmp, keep);
      FilterCons(s[0], inserted, keep);
      FilterCons(s[0], tail, keep);
      if keep(x) {
        assert !keep(s[0]);
      }
    } else {
      assert Insert(x, s, cmp) == [x] + s;
      FilterCons(x, s, keep);
    }
  }

  /** The sort is stable: elements the comparator cannot tell apart keep their order. */
  lemma {:induction false} InsertionSortStable<T(!new)>(s: seq<T>, cmp: (T, T) -> int, keep: T -> bool)
    requires forall a, b :: keep(a) && keep(b) ==> cmp(a, b) == 0
    ensures Filter(InsertionSort(s, cmp), keep) == Filter(s, keep)
    decreases |s|
  {
    if s != [] {
      InsertionSortStable(s[1..], cmp, keep);
      InsertStable(s[0], InsertionSort(s[1..], cmp), cmp, keep);
      FilterCons(s[0], s[1..], keep);
      assert s == [s[0]] + s[1..];
    }
  }

  /** A comparator that never puts one element after another leaves the order as is. */
  lemma {:induction false} InsertionSortKeepsOrder<T(!new)>(s: seq<T>, cmp: (T, T) -> int)
    requires forall a, b :: cmp(a, b) <= 0
    ensures InsertionSort(s, cmp) == s
    decreases |s|
  {
    if s != [] {
      InsertionSortKeepsOrder(s[1..], cmp);
      assert s == [s[0]] + s[1..];
    }
  }

  /** The comparator of `sortedImages` as a function value. */
  function Comparer(sortBy: SortConfig): (ImageResult, ImageResult) -> int
  {
    (a: ImageResult, b: ImageResult) => Compare(a, b, sortBy)
  }

  /** `[...images].sort(comparator)`. `Array.prototype.sort` is stable, and a stable
      sort under a consistent comparator has one possible outcome; this insertion sort
      produces it. */
  function SortImages(images: seq<ImageResult>, sortBy: SortConfig): seq<ImageResult>
  {
    InsertionSort(images, Comparer(sortBy))
  }

  lemma CompareIsComparator(sortBy: SortConfig)
    ensures Comparator(Comparer(sortBy))
  {
    forall a, b, c {
      CompareConsistent(a, b, c, sortBy);
    }
  }

  /** The sorted copy holds the same records with the same multiplicities. */
  lemma SortPermutes(images: seq<ImageResult>, sortBy: SortConfig)
    ensures multiset(SortImages(images, sortBy)) == multiset(images)
  {
    InsertionSortPermutes(images, Comparer(sortBy));
  }

  /** The sorted copy is in comparator order: ascending or descending by the chosen
      column. */
  lemma SortOrdered(images: seq<ImageResult>, sortBy: SortConfig)
    ensures var r := SortImages(images, sortBy);
      && |r| == |images|
      && forall i, j :: 0 <= i < j < |r| ==> Compare(r[i], r[j], sortBy) <= 0
  {
    CompareIsComparator(sortBy);
    InsertionSortOrdered(images, Comparer(sortBy));
  }

  /** Selects the records whose key in `field` is `k`. */
  function HasKey(field: SortField, k: SortKey): ImageResult -> bool
  {
    (img: ImageResult) => Key(img, field) == k
  }

  /** The records whose sort key is `k`, in order. */
  function WithKey(s: seq<ImageResult>, field: SortField, k: SortKey): (r: seq<ImageResult>)
    ensures forall i :: 0 <= i < |r| ==> Key(r[i], field) == k
  {
    Filter(s, HasKey(field, k))
  }

  /** The sort is stable: the records sharing any one key value keep their original
      relative order. */
  lemma SortStable(images: seq<ImageResult>, field: SortField, direction: Direction, k: SortKey)
    ensures WithKey(SortImages(images, SortConfig(Some(field), direction)), field, k) == WithKey(images, field, k)
  {
    var sortBy := SortConfig(Some(field), direction);
    forall a, b | HasKey(field, k)(a) && HasKey(field, k)(b)
      ensures Comparer(sortBy)(a, b) == 0
    {
      CompareConsistent(a, b, b, sortBy);
    }
    InsertionSortStable(images, Comparer(sortBy), HasKey(field, k));
  }

  /** Without a sort field the comparator is always 0 and the order is kept. */
  lemma SortWithoutField(images: seq<ImageResult>, direction: Direction)
    ensures SortImages(images, SortConfig(None, direction)) == images
  {
    InsertionSortKeepsOrder(images, Comparer(SortConfig(None, direction)));
  }

  /** `prevImages.map(img => img.image_id === updatedImage.image_id ? updatedImage : img)`. */
  function Reconcile(images: seq<ImageResult>, updated: ImageResult): (r: seq<ImageResult>)
    ensures |r| == |images|
    ensures forall i :: 0 <= i < |r| ==> r[i].imageId == images[i].imageId
    ensures forall i :: 0 <= i < |r| && images[i].imageId == updated.imageId ==> r[i] == updated
  {
    seq(|images|, i requires 0 <= i < |images| => if images[i].imageId == updated.imageId then updated else images[i])
  }

  /** Reconciling touches only the records with the updated id, is a no-op when no
      record has it, is idempotent, and afterwards a lookup by that id finds the
      updated record. */
  lemma ReconcileProperties(images: seq<ImageResult>, updated: ImageResult)
    ensures forall i :: 0 <= i < |images| && images[i].imageId != updated.imageId ==>
      Reconcile(images, updated)[i] == images[i]
    ensures (forall i :: 0 <= i < |images| ==> images[i].imageId != updated.imageId) ==>
      Reconcile(images, updated) == images
    ensures Reconcile(Reconcile(images, updated), updated) == Reconcile(images, updated)
    ensures MockData.FindById(images, updated.imageId).Some? ==>
      MockData.FindById(Reconcile(images, updated), updated.imageId) == Some(updated)
  {
    var r := Reconcile(images, updated);
    var id := updated.imageId;
    if MockData.FindById(images, id).Some? {
      var i :| MockData.FirstWithId(images, id, i);
      assert MockData.FirstWithId(r, id, i);
      FirstWithIdUnique(r, id, i);
    }
  }

  /** Lookup returns the record at the first position with the id. */
  lemma FirstWithIdUnique(images: seq<ImageResult>, id: int, i: int)
    requires MockData.FirstWithId(images, id, i)
    ensures MockData.FindById(images, id) == Some(images[i])
  {
    var found := MockData.FindById(images, id);
    assert found.Some?;
    var j :| MockData.FirstWithId(images, id, j) && images[j] == found.value;
    assert 0 <= j < |images| && images[j].imageId == id;
    assert forall k :: 0 <= k < j ==> images[k].imageId != id;
    assert forall k :: 0 <= k < i ==> images[k].imageId != id;
  }

  /** `Math.ceil(total / limit)` for a positive limit. */
  function TotalPages(total: int, limit: int): (n: int)
    requires limit > 0
    ensures (n - 1) * limit < total <= n * limit
  {
    if total % limit == 0 then total / limit else total / limit + 1
  }

  /** The state of the page component and its handlers. The fetch is a parameter:
      `fetch(page, limit, searchTerm)` is the response, or `None` when the request fails. */
  class Home {
    var images: seq<ImageResult>
    var loading: bool
    var page: int
    var limit: int
    var total: int
    var searchTerm: string
    var sortBy: SortConfig

    /** The limit is always one the selector offers. */
    predicate Valid()
      reads this
    {
      limit in LimitOptions
    }

    constructor ()
      ensures Valid()
      ensures images == [] && loading && page == 1 && limit == 10 && total == 0
      ensures searchTerm == "" && sortBy == InitialSort
    {
      images := [];
      loading := true;
      page := 1;
      limit := 10;
      total := 0;
      searchTerm := "";
      sortBy := InitialSort;
    }

    /** `loadImages()`: asks for the current page, limit and term; on success takes the
        response's records and total, on failure keeps both; not loading afterwards. */
    method LoadImages(fetch: (int, int, string) -> Option<PaginatedResponse>)
      modifies this
      ensures var response := fetch(old(page), old(limit), old(searchTerm));
        && (response.Some? ==> images == response.value.data && total == response.value.total)
        && (response.None? ==> images == old(images) && total == old(total))
      ensures !loading
      ensures page == old(page) && limit == old(limit) && searchTerm == old(searchTerm) && sortBy == old(sortBy)
    {
      loading := true;
      var response := fetch(page, limit, searchTerm);
      if response.Some? {
        images := response.value.data;
        total := response.value.total;
      }
      loading := false;
    }

    /** `handleUploadSuccess()`: reloads the list. */
    method HandleUploadSuccess(fetch: (int, int, string) -> Option<PaginatedResponse>)
      modifies this
      ensures var response := fetch(old(page), old(limit), old(searchTerm));
        && (response.Some? ==> images == response.value.data && total == response.value.total)
        && (response.None? ==> images == old(images) && total == old(total))
      ensures !loading
      ensures page == old(page) && limit == old(limit) && searchTerm == old(searchTerm) && sortBy == old(sortBy)
    {
      LoadImages(fetch);
    }

    /** `handlePageChange(newPage)`: changes the page and nothing else. */
    method HandlePageChange(newPage: int)
      modifies this`page
      ensures page == newPage
    {
      page := newPage;
    }

    /** `handleLimitChange(newLimit)`: takes the new limit and goes back to page 1. */
    method HandleLimitChange(newLimit: int)
      requires newLimit in LimitOptions
      modifies this`limit, this`page
      ensures Valid() && limit == newLimit && page == 1
    {
      limit := newLimit;
      page := 1;
    }

    /** `handleSearch(term)`: takes the new term and goes back to page 1. */
    method HandleSearch(term: string)
      modifies this`searchTerm, this`page
      ensures searchTerm == term && page == 1
    {
      searchTerm := term;
      page := 1;
    }

    /** `handleSort(field)`. */
    method HandleSort(field: SortField)
      modifies this`sortBy
      ensures sortBy == NextSort(old(sortBy), field)
    {
      sortBy := NextSort(sortBy, field);
    }

    /** `sortedImages`: a sorted copy; `images` itself keeps its order. */
    function SortedImages(): seq<ImageResult>
      reads this
    {
      SortImages(images, sortBy)
    }

    /** The `totalPages` passed to the pagination bar. */
    function PageCount(): int
      reads this
      requires Valid()
    {
      TotalPages(total, limit)
    }

    /** The `onImageUpdate` callback: reconciles the refreshed record into `images`. */
    method OnImageUpdate(updated: ImageResult)
      modifies this`images
      ensures images == Reconcile(old(images), updated)
    {
      images := Reconcile(images, updated);
    }
  }
}
