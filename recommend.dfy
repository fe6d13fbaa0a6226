/** app/api/recommend/route.js: from the filters chosen on the main page to one
    recommended restaurant with a summary of its reviews. */
module Recommend {
  import opened Js
  import opened Places

  /** The request body fields the route uses; `lat` and `lng` are only passed
      through to the search. `budget` is the number `Number(budget)` gives. */
  datatype Request = Request(
    radius: Option<int>,
    cuisine: string,
    budget: int,
    time: string,
    googleApiKey: Option<string>,
    geminiApiKey: Option<string>)

  /** The Nearby Search parameters derived from the request. */
  datatype NearbyQuery = NearbyQuery(radius: int, keyword: string, minPrice: int, maxPrice: int, openNow: bool)

  datatype Review = Review(text: string)
  datatype PlaceDetails = PlaceDetails(reviews: Option<seq<Review>>, formattedAddress: Option<string>)
  datatype DetailsResponse = DetailsResponse(result: Option<PlaceDetails>)

  /** The data the summary prompt is built from; the prompt's wording is not modelled. */
  datatype SummaryPrompt = SummaryPrompt(name: string, rating: Option<real>, reviews: string)

  datatype Reply =
    | Failed(httpStatus: int, message: string)
    | Recommendation(
        name: string,
        rating: Option<real>,
        userRatingsTotal: Option<int>,
        priceLevel: Option<int>,
        address: Option<string>,
        openNow: Option<bool>,
        placeId: string,
        mapsUrl: string,
        aiSummary: string)

  /** What the search status check decides. */
  datatype SearchVerdict = Reject(httpStatus: int, message: string) | Proceed(results: seq<Place>)

  const MissingKeyMessage: string := "未提供 API Key，請在設定中輸入"
  const NotFoundMessage: string := "附近找不到符合條件的餐廳😭 試試看拉大搜尋範圍？"
  const UpstreamErrorPrefix: string := "Google API 錯誤: "
  const BusyMessage: string := "系統忙線中"
  const DefaultRadius: int := 1000
  const AnyCuisine: string := "隨便"
  const FoodKeyword: string := "美食"
  const RestaurantSuffix: string := "餐廳"
  const MinRating: real := 3.5
  const ReviewSeparator: string := "\n---\n"
  const ReviewLimit: nat := 2000
  const NoReviews: string := "（暫無詳細評論）"

  /** Line 10: both keys must be present and non-empty. */
  predicate HasKeys(req: Request)
    ensures !HasKeys(req) <==> req.googleApiKey in {None, Some("")} || req.geminiApiKey in {None, Some("")}
  {
    Truthy(req.googleApiKey) && Truthy(req.geminiApiKey)
  }

  /** `radius || 1000`: a missing radius and a radius of 0 both mean 1000 metres. */
  function SearchRadius(radius: Option<int>): (r: int)
    ensures r != 0
    ensures radius.Some? && radius.value != 0 ==> r == radius.value
    ensures radius.None? || radius.value == 0 ==> r == DefaultRadius
  {
    match radius
    case Some(x) => if x != 0 then x else DefaultRadius
    case None => DefaultRadius
  }

  /** The price band for a budget level: the level itself as the ceiling, one
      below it as the floor, never below 0. */
  function PriceRange(budget: int): (r: (int, int))
    ensures r.1 == budget
    ensures r.0 == if budget - 1 < 0 then 0 else budget - 1
    ensures 0 <= budget ==> 0 <= r.0 <= r.1 && r.1 - r.0 <= 1
    ensures budget <= 1 ==> r.0 == 0
  {
    var minPrice := if budget <= 1 then 0 else budget - 1;
    (minPrice, budget)
  }

  /** `cuisine === '隨便' ? '美食' : cuisine + '餐廳'`. */
  function Keyword(cuisine: string): (k: string)
    ensures cuisine == AnyCuisine ==> k == FoodKeyword
    ensures cuisine != AnyCuisine ==> cuisine <= k
    ensures k != ""
  {
    if cuisine == AnyCuisine then FoodKeyword else cuisine + RestaurantSuffix
  }

  /** Reads the cuisine back from a keyword. */
  function CuisineOf(keyword: string): Option<string> {
    if keyword == FoodKeyword then Some(AnyCuisine)
    else if |keyword| >= |RestaurantSuffix| && keyword[|keyword| - |RestaurantSuffix|..] == RestaurantSuffix
    then Some(keyword[..|keyword| - |RestaurantSuffix|])
    else None
  }

  /** The keyword determines the cuisine: no cuisine's keyword is "美食" except
      the "anything" choice's, since every other keyword ends in "餐廳". */
  lemma KeywordRoundTrip(cuisine: string)
    ensures CuisineOf(Keyword(cuisine)) == Some(cuisine)
  {
    if cuisine != AnyCuisine {
      var k := cuisine + RestaurantSuffix;
      assert k[|k| - 1] == '廳' != FoodKeyword[|FoodKeyword| - 1];
      assert k[|k| - |RestaurantSuffix|..] == RestaurantSuffix;
      assert k[..|k| - |RestaurantSuffix|] == cuisine;
    }
  }

  lemma KeywordInjective(a: string, b: string)
    requires Keyword(a) == Keyword(b)
    ensures a == b
  {
    KeywordRoundTrip(a);
    KeywordRoundTrip(b);
  }

  /** Lines 17-23: the search parameters. */
  function NearbyQueryOf(req: Request): (q: NearbyQuery)
    ensures q.openNow <==> req.time == "now"
    ensures q.radius == SearchRadius(req.radius)
    ensures (q.minPrice, q.maxPrice) == PriceRange(req.budget)
    ensures q.keyword == Keyword(req.cuisine)
  {
    var prices := PriceRange(req.budget);
    NearbyQuery(SearchRadius(req.radius), Keyword(req.cuisine), prices.0, prices.1, req.time == "now")
  }

  /** Lines 28-35: a status other than OK or ZERO_RESULTS is an upstream error;
      a missing or empty result list is "nothing found". */
  function CheckNearby(resp: SearchResponse): (v: SearchVerdict)
    ensures v.Proceed? <==> (resp.status == "OK" || resp.status == "ZERO_RESULTS")
                            && resp.results.Some? && resp.results.value != []
    ensures v.Proceed? ==> v.results == resp.results.value && v.results != []
    ensures v.Reject? && v.httpStatus == 500 <==> resp.status != "OK" && resp.status != "ZERO_RESULTS"
    ensures v.Reject? ==> v.httpStatus == 500 || v == Reject(404, NotFoundMessage)
  {
    if resp.status != "OK" && resp.status != "ZERO_RESULTS" then
      Reject(500, UpstreamErrorPrefix + resp.status)
    else if resp.results.None? || resp.results.value == [] then
      Reject(404, NotFoundMessage)
    else
      Proceed(resp.results.value)
  }

  /** `detailsData.result?.reviews || []`. */
  function ReviewsOf(d: DetailsResponse): (reviews: seq<Review>)
    ensures d.result.Some? && d.result.value.reviews.Some? ==> reviews == d.result.value.reviews.value
    ensures d.result.None? || d.result.value.reviews.None? ==> reviews == []
  {
    match d.result
    case Some(PlaceDetails(Some(reviews), _)) => reviews
    case _ => []
  }

  /** `detailsData.result?.formatted_address`. */
  function DetailsAddress(d: DetailsResponse): (a: Option<string>)
    ensures d.result.Some? ==> a == d.result.value.formattedAddress
    ensures d.result.None? ==> a.None?
  {
    match d.result
    case Some(details) => details.formattedAddress
    case None => None
  }

  function Texts(reviews: seq<Review>): (ts: seq<string>)
    ensures |ts| == |reviews| && forall i :: 0 <= i < |reviews| ==> ts[i] == reviews[i].text
  {
    seq(|reviews|, i requires 0 <= i < |reviews| => reviews[i].text)
  }

  /** Line 48: the review texts joined by "\n---\n", cut to 2000 characters. */
  function ReviewsText(reviews: seq<Review>): (t: string)
    ensures |t| == if |Join(Texts(reviews), ReviewSeparator)| <= ReviewLimit
                   then |Join(Texts(reviews), ReviewSeparator)| else ReviewLimit
    ensures t <= Join(Texts(reviews), ReviewSeparator)
    ensures |Join(Texts(reviews), ReviewSeparator)| <= ReviewLimit ==> t == Join(Texts(reviews), ReviewSeparator)
  {
    SliceTo(Join(Texts(reviews), ReviewSeparator), ReviewLimit)
  }

  /** The first review always reaches the model whole when it fits in the limit. */
  lemma FirstReviewKept(reviews: seq<Review>)
    requires reviews != [] && |reviews[0].text| <= ReviewLimit
    ensures reviews[0].text <= ReviewsText(reviews)
  {
    var all := Join(Texts(reviews), ReviewSeparator);
    var first := reviews[0].text;
    var t := ReviewsText(reviews);
    assert first <= all;
    assert |first| <= |t|;
    assert t[..|first|] == all[..|first|] == first;
  }

  /** `reviewsText || "（暫無詳細評論）"`: the prompt never shows an empty review section. */
  function ReviewsForPrompt(reviewsText: string): (r: string)
    ensures r != ""
    ensures reviewsText != "" ==> r == reviewsText
    ensures reviewsText == "" ==> r == NoReviews
  {
    if reviewsText != "" then reviewsText else NoReviews
  }

  /** The POST handler. `nearby`, `details` and `summarize` stand for the Nearby
      Search call, the Place Details call (by place id) and the model call; `u`
      is the value `Math.random()` returned. A call that throws ends in 500. */
  function HandleRecommend(
    req: Request,
    nearby: NearbyQuery -> Outcome<SearchResponse>,
    u: real,
    details: string -> Outcome<DetailsResponse>,
    summarize: SummaryPrompt -> Outcome<string>): (reply: Reply)
    requires 0.0 <= u < 1.0
    ensures !HasKeys(req) <==> reply == Failed(401, MissingKeyMessage)
    ensures reply.Failed? ==> reply.httpStatus == 401 || reply.httpStatus == 404 || reply.httpStatus == 500
    ensures HasKeys(req) && nearby(NearbyQueryOf(req)).Threw? ==> reply == Failed(500, BusyMessage)
    ensures HasKeys(req) && nearby(NearbyQueryOf(req)).Returned? && CheckNearby(nearby(NearbyQueryOf(req)).value).Proceed? ==>
      var place := Pick(ChoosePool(CheckNearby(nearby(NearbyQueryOf(req)).value).results, MinRating), u);
      (details(place.placeId).Threw? ==> reply == Failed(500, BusyMessage))
      && (details(place.placeId).Returned?
          && summarize(SummaryPrompt(place.name, place.rating,
               ReviewsForPrompt(ReviewsText(ReviewsOf(details(place.placeId).value))))).Threw?
          ==> reply == Failed(500, BusyMessage))
  {
    if !HasKeys(req) then Failed(401, MissingKeyMessage)
    else
      match nearby(NearbyQueryOf(req))
      case Threw(_) => Failed(500, BusyMessage)
      case Returned(resp) =>
        match CheckNearby(resp)
        case Reject(status, message) => Failed(status, message)
        case Proceed(results) =>
          var place := Pick(ChoosePool(results, MinRating), u);
          match details(place.placeId)
          case Threw(_) => Failed(500, BusyMessage)
          case Returned(d) =>
            var reviewsText := ReviewsText(ReviewsOf(d));
            var address := AddressOf(DetailsAddress(d), place);
            match summarize(SummaryPrompt(place.name, place.rating, ReviewsForPrompt(reviewsText)))
            case Threw(_) => Failed(500, BusyMessage)
            case Returned(summary) =>
              Recommendation(place.name, place.rating, place.userRatingsTotal, place.priceLevel,
                             address, place.openNow, place.placeId, MapsUrl(place), summary)
  }

  /** Without both keys nothing is called: the reply is the same whatever the services would do. */
  lemma MissingKeysMakeNoCall(
    req: Request, u: real,
    n1: NearbyQuery -> Outcome<SearchResponse>, n2: NearbyQuery -> Outcome<SearchResponse>,
    d1: string -> Outcome<DetailsResponse>, d2: string -> Outcome<DetailsResponse>,
    s1: SummaryPrompt -> Outcome<string>, s2: SummaryPrompt -> Outcome<string>)
    requires 0.0 <= u < 1.0 && !HasKeys(req)
    ensures HandleRecommend(req, n1, u, d1, s1) == HandleRecommend(req, n2, u, d2, s2) == Failed(401, MissingKeyMessage)
  {
  }

  /** A failed or empty search ends the request before the details and model
      calls: the reply does not depend on them. */
  lemma SearchFailureStopsEarly(
    req: Request, u: real, nearby: NearbyQuery -> Outcome<SearchResponse>,
    d1: string -> Outcome<DetailsResponse>, d2: string -> Outcome<DetailsResponse>,
    s1: SummaryPrompt -> Outcome<string>, s2: SummaryPrompt -> Outcome<string>)
    requires 0.0 <= u < 1.0 && HasKeys(req)
    requires nearby(NearbyQueryOf(req)).Returned? && CheckNearby(nearby(NearbyQueryOf(req)).value).Reject?
    ensures var resp := nearby(NearbyQueryOf(req)).value;
      HandleRecommend(req, nearby, u, d1, s1) == HandleRecommend(req, nearby, u, d2, s2)
      == if resp.status != "OK" && resp.status != "ZERO_RESULTS"
         then Failed(500, UpstreamErrorPrefix + resp.status)
         else Failed(404, NotFoundMessage)
  {
  }

  /** When every call succeeds, the reply recommends a place drawn from the
      search results, rated at least 3.5 whenever some result is, with the
      details address when there is one, a link that names exactly that place,
      and the model's text as the summary. */
  lemma RecommendationFromResults(
    req: Request, u: real, nearby: NearbyQuery -> Outcome<SearchResponse>,
    details: string -> Outcome<DetailsResponse>, summarize: SummaryPrompt -> Outcome<string>)
    requires 0.0 <= u < 1.0 && HasKeys(req)
    requires nearby(NearbyQueryOf(req)).Returned? && CheckNearby(nearby(NearbyQueryOf(req)).value).Proceed?
    requires var results := nearby(NearbyQueryOf(req)).value.results.value;
      var place := Pick(ChoosePool(results, MinRating), u);
      details(place.placeId).Returned?
      && summarize(SummaryPrompt(place.name, place.rating,
           ReviewsForPrompt(ReviewsText(ReviewsOf(details(place.placeId).value))))).Returned?
    ensures var results := nearby(NearbyQueryOf(req)).value.results.value;
      var place := Pick(ChoosePool(results, MinRating), u);
      var d := details(place.placeId).value;
      var reply := HandleRecommend(req, nearby, u, details, summarize);
      reply.Recommendation?
      && place in results
      && (SomeRatedAtLeast(results, MinRating) ==> RatedAtLeast(place, MinRating))
      && reply.name == place.name && reply.placeId == place.placeId
      && reply.rating == place.rating && reply.userRatingsTotal == place.userRatingsTotal
      && reply.priceLevel == place.priceLevel && reply.openNow == place.openNow
      && reply.address == AddressOf(DetailsAddress(d), place)
      && ParseMapsUrl(reply.mapsUrl) == Some((place.name, place.placeId))
      && reply.aiSummary == summarize(SummaryPrompt(place.name, place.rating,
           ReviewsForPrompt(ReviewsText(ReviewsOf(d))))).value
  {
    var results := nearby(NearbyQueryOf(req)).value.results.value;
    PickedFromResults(results, MinRating, u);
    MapsUrlRoundTrip(Pick(ChoosePool(results, MinRating), u));
  }
}
