/** The in-memory backend used when no server is configured (client/lib/mock-data.ts):
    a fixed set of ten records, a name search with offset/limit paging, and lookup by id.
    Queries are pure: they filter a copy and never change the seed records. */
module MockData {
  import opened Records
  import opened Text

  const Placeholder := "/placeholder.svg?height=400&width=600"

  const SeedName1 := "city_street.jpg"
  const SeedRecord1: ImageResult := ImageResult(
    1, SeedName1, true, false, Placeholder,
    [],
    [
      DetectedObject("person", 0.92, Box(120.0, 100.0, 220.0, 350.0)),
      DetectedObject("car", 0.88, Box(300.0, 200.0, 500.0, 300.0)),
      DetectedObject("bicycle", 0.76, Box(50.0, 250.0, 150.0, 350.0))
    ],
    "2025-05-01T14:32:10.006323", "2025-05-01T14:32:15.962234", Placeholder)

  const SeedName2 := "beach_sunset.png"
  const SeedRecord2: ImageResult := ImageResult(
    2, SeedName2, true, false, Placeholder,
    [],
    [
      DetectedObject("person", 0.85, Box(200.0, 150.0, 300.0, 400.0)),
      DetectedObject("umbrella", 0.79, Box(350.0, 100.0, 450.0, 200.0))
    ],
    "2025-05-02T09:44:42.006323", "2025-05-02T09:44:47.962234", Placeholder)

  const SeedName3 := "office_meeting.jpg"
  const SeedRecord3: ImageResult := ImageResult(
    3, SeedName3, true, false, Placeholder,
    [],
    [
      DetectedObject("person", 0.94, Box(100.0, 120.0, 200.0, 350.0)),
      DetectedObject("person", 0.91, Box(250.0, 120.0, 350.0, 350.0)),
      DetectedObject("laptop", 0.87, Box(180.0, 250.0, 280.0, 300.0)),
      DetectedObject("chair", 0.82, Box(120.0, 200.0, 180.0, 380.0))
    ],
    "2025-05-03T11:22:33.006323", "2025-05-03T11:22:38.962234", Placeholder)

  const SeedName4 := "park_picnic.webp"
  const SeedRecord4: ImageResult := ImageResult(
    4, SeedName4, true, false, Placeholder,
    [],
    [
      DetectedObject("person", 0.89, Box(150.0, 100.0, 250.0, 350.0)),
      DetectedObject("dog", 0.86, Box(300.0, 250.0, 380.0, 320.0)),
      DetectedObject("tree", 0.92, Box(50.0, 50.0, 150.0, 400.0))
    ],
    "2025-05-04T15:10:22.006323", "2025-05-04T15:10:27.962234", Placeholder)

  const SeedName5 := "kitchen_cooking.jpg"
  const SeedRecord5: ImageResult := ImageResult(
    5, SeedName5, false, false, Placeholder,
    [],
    [],
    "2025-05-05T08:45:12.006323", "2025-05-05T08:45:12.006323", "")

  const SeedName6 := "concert_crowd.png"
  const SeedRecord6: ImageResult := ImageResult(
    6, SeedName6, true, false, Placeholder,
    [],
    [
      DetectedObject("person", 0.95, Box(100.0, 150.0, 180.0, 350.0)),
      DetectedObject("person", 0.93, Box(200.0, 150.0, 280.0, 350.0)),
      DetectedObject("person", 0.91, Box(300.0, 150.0, 380.0, 350.0)),
      DetectedObject("microphone", 0.84, Box(250.0, 100.0, 270.0, 130.0))
    ],
    "2025-05-06T19:30:42.006323", "2025-05-06T19:30:47.962234", Placeholder)

  const SeedName7 := "nsfw_content.jpg"
  const SeedRecord7: ImageResult := ImageResult(
    7, SeedName7, true, true, Placeholder,
    [NsfwDetection("explicit_content", 0.89)],
    [
      DetectedObject("person", 0.97, Box(150.0, 100.0, 350.0, 400.0))
    ],
    "2025-05-07T12:15:22.006323", "2025-05-07T12:15:27.962234", Placeholder)

  const SeedName8 := "airport_terminal.jpg"
  const SeedRecord8: ImageResult := ImageResult(
    8, SeedName8, true, false, Placeholder,
    [],
    [
      DetectedObject("person", 0.88, Box(120.0, 150.0, 200.0, 350.0)),
      DetectedObject("suitcase", 0.82, Box(220.0, 300.0, 280.0, 350.0)),
      DetectedObject("chair", 0.79, Box(300.0, 250.0, 350.0, 350.0))
    ],
    "2025-05-08T07:20:12.006323", "2025-05-08T07:20:17.962234", Placeholder)

  const SeedName9 := "restaurant_dinner.webp"
  const SeedRecord9: ImageResult := ImageResult(
    9, SeedName9, true, false, Placeholder,
    [],
    [
      DetectedObject("person", 0.91, Box(100.0, 150.0, 200.0, 350.0)),
      DetectedObject("wine glass", 0.87, Box(250.0, 200.0, 280.0, 250.0)),
      DetectedObject("fork", 0.76, Box(220.0, 250.0, 240.0, 280.0)),
      DetectedObject("plate", 0.94, Box(200.0, 250.0, 300.0, 300.0))
    ],
    "2025-05-09T20:45:32.006323", "2025-05-09T20:45:37.962234", Placeholder)

  const SeedName10 := "gym_workout.jpg"
  const SeedRecord10: ImageResult := ImageResult(
    10, SeedName10, true, false, Placeholder,
    [],
    [
      DetectedObject("person", 0.96, Box(150.0, 100.0, 300.0, 400.0)),
      DetectedObject("dumbbell", 0.89, Box(320.0, 250.0, 380.0, 280.0))
    ],
    "2025-05-10T16:30:22.006323", "2025-05-10T16:30:27.962234", Placeholder)

  /** The ten seed records, in their fixed order. */
  const MockImages: seq<ImageResult> := [
    SeedRecord1, SeedRecord2, SeedRecord3, SeedRecord4, SeedRecord5,
    SeedRecord6, SeedRecord7, SeedRecord8, SeedRecord9, SeedRecord10
  ]

  /** The name test of the search: the lower-cased name includes the (already
      lower-cased) term. */
  predicate NameMatches(img: ImageResult, term: string)
  {
    Includes(Lower(img.name), term)
  }

  /** The name test as a function value. */
  function MatchesTerm(term: string): ImageResult -> bool
  {
    (img: ImageResult) => NameMatches(img, term)
  }

  /** `images.filter((img) => img.name.toLowerCase().includes(term))`. */
  function FilterByName(images: seq<ImageResult>, term: string): (r: seq<ImageResult>)
    ensures |r| <= |images|
    ensures forall i :: 0 <= i < |r| ==> NameMatches(r[i], term)
  {
    Filter(images, MatchesTerm(term))
  }

  /** The search step: an empty term leaves the copy as it is, any other term is
      lower-cased and filters it. */
  function SearchFilter(images: seq<ImageResult>, searchTerm: string): seq<ImageResult>
  {
    if searchTerm != "" then FilterByName(images, Lower(searchTerm)) else images
  }

  /** `getMockPaginatedImages` over an arbitrary seed: search, then slice the
      window `[(page-1)*limit, (page-1)*limit + limit)`. */
  function QueryImages(seed: seq<ImageResult>, page: int, limit: int, searchTerm: string): PaginatedResponse
  {
    var filtered := SearchFilter(seed, searchTerm);
    var startIndex := (page - 1) * limit;
    var endIndex := startIndex + limit;
    PaginatedResponse(page, limit, |filtered|, Slice(filtered, startIndex, endIndex))
  }

  /** The filter keeps every matching record with its multiplicity and drops every
      other one. */
  lemma FilterByNameMultiset(images: seq<ImageResult>, term: string, x: ImageResult)
    ensures multiset(FilterByName(images, term))[x] == if NameMatches(x, term) then multiset(images)[x] else 0
  {
    FilterMultiset(images, MatchesTerm(term), x);
  }

  /** The filter works record by record, so it keeps the seed order: filtering a
      concatenation is concatenating the filtered parts. */
  lemma FilterByNameAppend(xs: seq<ImageResult>, ys: seq<ImageResult>, term: string)
    ensures FilterByName(xs + ys, term) == FilterByName(xs, term) + FilterByName(ys, term)
  {
    FilterAppend(xs, ys, MatchesTerm(term));
  }

  /** The empty term matches every name, so the `if (searchTerm)` guard changes
      nothing: searching for "" is filtering by "". */
  lemma FilterByEmptyTermKeepsAll(images: seq<ImageResult>)
    ensures FilterByName(images, "") == images
  {
    forall i | 0 <= i < |images|
      ensures MatchesTerm("")(images[i])
    {
      IncludesEmpty(Lower(images[i].name));
    }
    FilterAcceptsAll(images, MatchesTerm(""));
  }

  /** `total` counts every record whose lower-cased name includes the lower-cased
      term, whatever page and limit were asked for; an empty term counts them all. */
  lemma QueryTotal(seed: seq<ImageResult>, page: int, limit: int, searchTerm: string)
    ensures QueryImages(seed, page, limit, searchTerm).total == |FilterByName(seed, Lower(searchTerm))|
    ensures searchTerm == "" ==> QueryImages(seed, page, limit, searchTerm).total == |seed|
  {
    if searchTerm == "" {
      FilterByEmptyTermKeepsAll(seed);
    }
  }

  /** For a page from 1 on and a non-negative limit, `data` is the window
      `[(page-1)*limit, page*limit)` of the filtered records cut at their end, so it
      holds at most `limit` and at most `total` records; past the end it is empty. */
  lemma QueryPageWindow(seed: seq<ImageResult>, page: int, limit: int, searchTerm: string)
    requires page >= 1 && limit >= 0
    ensures var r := QueryImages(seed, page, limit, searchTerm);
      var filtered := SearchFilter(seed, searchTerm);
      var start := (page - 1) * limit;
      var lo := if start <= |filtered| then start else |filtered|;
      var hi := if start + limit <= |filtered| then start + limit else |filtered|;
      && 0 <= lo <= hi
      && r.data == filtered[lo..hi]
      && |r.data| <= limit
      && |r.data| <= r.total
      && (start >= r.total ==> r.data == [])
  {
    MulNonNegative(page - 1, limit);
  }

  lemma MulNonNegative(a: int, b: int)
    requires a >= 0 && b >= 0
    ensures a * b >= 0
  {
  }

  /** `getMockPaginatedImages(page, limit, searchTerm)` on the seed records. */
  function GetMockPaginatedImages(page: int, limit: int, searchTerm: string): (r: PaginatedResponse)
    ensures r.page == page && r.limit == limit
    ensures r.total == |FilterByName(MockImages, Lower(searchTerm))|
    ensures page >= 1 && limit >= 0 ==> |r.data| <= limit && |r.data| <= r.total
  {
    QueryTotal(MockImages, page, limit, searchTerm);
    if page >= 1 && limit >= 0 then
      QueryPageWindow(MockImages, page, limit, searchTerm);
      QueryImages(MockImages, page, limit, searchTerm)
    else
      QueryImages(MockImages, page, limit, searchTerm)
  }

  /** Position `i` holds the first record of `images` whose id is `imageId`. */
  predicate FirstWithId(images: seq<ImageResult>, imageId: int, i: int)
  {
    && 0 <= i < |images|
    && images[i].imageId == imageId
    && forall j :: 0 <= j < i ==> images[j].imageId != imageId
  }

  /** `images.find((img) => img.image_id === imageId)`: the first record with that
      id, or nothing when no record has it. */
  function FindById(images: seq<ImageResult>, imageId: int): (r: Option<ImageResult>)
    ensures r.None? <==> forall i :: 0 <= i < |images| ==> images[i].imageId != imageId
    ensures r.Some? ==> exists i :: FirstWithId(images, imageId, i) && images[i] == r.value
    decreases |images|
  {
    if images == [] then None
    else if images[0].imageId == imageId then
      assert FirstWithId(images, imageId, 0);
      Some(images[0])
    else
      var r := FindById(images[1..], imageId);
      assert r.Some? ==> exists i :: FirstWithId(images, imageId, i) && images[i] == r.value by {
        if r.Some? {
          var i :| FirstWithId(images[1..], imageId, i) && images[1..][i] == r.value;
          assert FirstWithId(images, imageId, i + 1);
        }
      }
      r
  }

  /** `getMockImageById(imageId)` on the seed records. */
  function GetMockImageById(imageId: int): (r: Option<ImageResult>)
  {
    FindById(MockImages, imageId)
  }

  /** The seed holds ten records with ids 1 to 10 in order, so ids are distinct. */
  lemma MockIdsAreOneToTen()
    ensures |MockImages| == 10
    ensures forall i :: 0 <= i < |MockImages| ==> MockImages[i].imageId == i + 1
    ensures forall i, j :: 0 <= i < j < |MockImages| ==> MockImages[i].imageId != MockImages[j].imageId
  {
  }

  /** Every seed record satisfies the record invariant; id 5 is the only unprocessed
      record and id 7 the only NSFW one, processed and with an NSFW detection; a seed
      record is unprocessed exactly when it has no detections and no output image. */
  lemma MockRecordsWellFormed()
    ensures forall i :: 0 <= i < |MockImages| ==> WellFormedRecord(MockImages[i])
    ensures forall i :: 0 <= i < |MockImages| ==> (!MockImages[i].isProcessed <==> MockImages[i].imageId == 5)
    ensures forall i :: 0 <= i < |MockImages| ==> (MockImages[i].isNsfw <==> MockImages[i].imageId == 7)
    ensures forall i :: 0 <= i < |MockImages| && MockImages[i].isNsfw ==>
      MockImages[i].isProcessed && MockImages[i].detectedNsfw != []
    ensures forall i :: 0 <= i < |MockImages| ==>
      (!MockImages[i].isProcessed <==> MockImages[i].detectedObjects == [] && MockImages[i].outputImageUrl == "")
  {
  }

  /** Page 1 with limit 5 and no search: five records (ids 1 to 5) out of ten. */
  lemma MockFirstPage()
    ensures GetMockPaginatedImages(1, 5, "").total == 10
    ensures GetMockPaginatedImages(1, 5, "").data == MockImages[..5]
    ensures |GetMockPaginatedImages(1, 5, "").data| == 5
  {
    QueryTotal(MockImages, 1, 5, "");
  }

  /** Id 999 is not in the seed; id 2 is the beach record. */
  lemma MockLookup()
    ensures GetMockImageById(999) == None
    ensures GetMockImageById(2) == Some(MockImages[1])
  {
    MockIdsAreOneToTen();
  }

  /** A filter over records none of which match is empty. */
  lemma {:induction false} FilterNoneMatch(images: seq<ImageResult>, term: string)
    requires forall i :: 0 <= i < |images| ==> !NameMatches(images[i], term)
    ensures FilterByName(images, term) == []
    decreases |images|
  {
    if images != [] {
      FilterNoneMatch(images[1..], term);
    }
  }

  /** A filter where exactly the record at `k` matches yields that record alone. */
  lemma FilterSingleMatch(images: seq<ImageResult>, term: string, k: int)
    requires 0 <= k < |images| && NameMatches(images[k], term)
    requires forall i :: 0 <= i < |images| && i != k ==> !NameMatches(images[i], term)
    ensures FilterByName(images, term) == [images[k]]
  {
    assert images == images[..k] + ([images[k]] + images[k + 1..]);
    FilterByNameAppend(images[..k], [images[k]] + images[k + 1..], term);
    FilterByNameAppend([images[k]], images[k + 1..], term);
    FilterNoneMatch(images[..k], term);
    FilterNoneMatch(images[k + 1..], term);
  }

  /** A string without upper-case ASCII letters is its own lower-case form. */
  lemma {:induction false} LowerOfLowerCase(s: string)
    requires forall i :: 0 <= i < |s| ==> !('A' <= s[i] <= 'Z')
    ensures Lower(s) == s
    decreases |s|
  {
    if s != [] {
      LowerOfLowerCase(s[1..]);
    }
  }

  /** A lower-case name that lacks some character of the term does not include it. */
  lemma NameLacksChar(name: string, term: string, c: char)
    requires c in term && c !in name
    requires forall i :: 0 <= i < |name| ==> !('A' <= name[i] <= 'Z')
    ensures !Includes(Lower(name), term)
  {
    LowerOfLowerCase(name);
    MissingCharExcludes(name, term, c);
  }

  /** The names of the seed records, in seed order. */
  const SeedNames: seq<string> := [
    SeedName1, SeedName2, SeedName3, SeedName4, SeedName5,
    SeedName6, SeedName7, SeedName8, SeedName9, SeedName10]

  lemma SeedNamesOfMockImages()
    ensures |MockImages| == |SeedNames|
    ensures forall i :: 0 <= i < |MockImages| ==> MockImages[i].name == SeedNames[i]
  {
  }

  /** The search term of the fixture checks below. */
  const BeachTerm := "beach"

  /** The second seed name, "beach_sunset.png", includes "beach". */
  lemma SecondNameIncludesBeach()
    ensures Includes(Lower(SeedNames[1]), BeachTerm)
  {
    LowerOfLowerCase(SeedName2);
    assert OccursAt(Lower(SeedNames[1]), BeachTerm, 0);
  }

  /** "city_street.jpg" does not include "beach": it has no 'b'. */
  lemma CityLacksBeach()
    ensures !Includes(Lower(SeedName1), BeachTerm)
  {
    NameLacksChar(SeedName1, BeachTerm, 'b');
  }

  /** "office_meeting.jpg" does not include "beach": it has no 'b'. */
  lemma OfficeLacksBeach()
    ensures !Includes(Lower(SeedName3), BeachTerm)
  {
    NameLacksChar(SeedName3, BeachTerm, 'b');
  }

  /** "park_picnic.webp" does not include "beach": it has no 'h'. */
  lemma ParkLacksBeach()
    ensures !Includes(Lower(SeedName4), BeachTerm)
  {
    NameLacksChar(SeedName4, BeachTerm, 'h');
  }

  /** "kitchen_cooking.jpg" does not include "beach": it has no 'b'. */
  lemma KitchenLacksBeach()
    ensures !Includes(Lower(SeedName5), BeachTerm)
  {
    NameLacksChar(SeedName5, BeachTerm, 'b');
  }

  /** "concert_crowd.png" does not include "beach": it has no 'b'. */
  lemma ConcertLacksBeach()
    ensures !Includes(Lower(SeedName6), BeachTerm)
  {
    NameLacksChar(SeedName6, BeachTerm, 'b');
  }

  /** "nsfw_content.jpg" does not include "beach": it has no 'b'. */
  lemma NsfwLacksBeach()
    ensures !Includes(Lower(SeedName7), BeachTerm)
  {
    NameLacksChar(SeedName7, BeachTerm, 'b');
  }

  /** "airport_terminal.jpg" does not include "beach": it has no 'b'. */
  lemma AirportLacksBeach()
    ensures !Includes(Lower(SeedName8), BeachTerm)
  {
    NameLacksChar(SeedName8, BeachTerm, 'b');
  }

  /** "restaurant_dinner.webp" does not include "beach": it has no 'h'. */
  lemma RestaurantLacksBeach()
    ensures !Includes(Lower(SeedName9), BeachTerm)
  {
    NameLacksChar(SeedName9, BeachTerm, 'h');
  }

  /** "gym_workout.jpg" does not include "beach": it has no 'b'. */
  lemma GymLacksBeach()
    ensures !Includes(Lower(SeedName10), BeachTerm)
  {
    NameLacksChar(SeedName10, BeachTerm, 'b');
  }

  /** Of the ten seed names, only the second includes "beach". */
  lemma OnlySecondNameIncludesBeach()
    ensures Includes(Lower(SeedNames[1]), BeachTerm)
    ensures forall i :: 0 <= i < |SeedNames| && i != 1 ==> !Includes(Lower(SeedNames[i]), BeachTerm)
  {
    SecondNameIncludesBeach();
    CityLacksBeach();
    OfficeLacksBeach();
    ParkLacksBeach();
    KitchenLacksBeach();
    ConcertLacksBeach();
    NsfwLacksBeach();
    AirportLacksBeach();
    RestaurantLacksBeach();
    GymLacksBeach();
  }

  /** When names decide the filter and only the name at `k` matches, the filter keeps
      the record at `k` alone. */
  lemma FilterByNames(images: seq<ImageResult>, names: seq<string>, term: string, k: int)
    requires |images| == |names| && 0 <= k < |names|
    requires forall i :: 0 <= i < |images| ==> images[i].name == names[i]
    requires Includes(Lower(names[k]), term)
    requires forall i :: 0 <= i < |names| && i != k ==> !Includes(Lower(names[i]), term)
    ensures FilterByName(images, term) == [images[k]]
  {
    FilterSingleMatch(images, term, k);
  }

  /** Only the beach record's name includes "beach". */
  lemma BeachFilter()
    ensures FilterByName(MockImages, "beach") == [MockImages[1]]
  {
    SeedNamesOfMockImages();
    OnlySecondNameIncludesBeach();
    FilterByNames(MockImages, SeedNames, BeachTerm, 1);
  }

  /** Searching "beach" (in any letter case) finds exactly the beach record, id 2. */
  lemma MockSearchBeach()
    ensures GetMockPaginatedImages(1, 5, "beach").total == 1
    ensures GetMockPaginatedImages(1, 5, "beach").data == [MockImages[1]]
    ensures MockImages[1].imageId == 2
    ensures GetMockPaginatedImages(1, 5, "BEACH") == GetMockPaginatedImages(1, 5, "beach")
  {
    LowerOfLowerCase("beach");
    assert Lower("BEACH") == "beach";
    BeachFilter();
  }
}
