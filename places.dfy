/** What the recommendation route and the wish-pool route share: the place
    record a Places search returns, the rating filter with its fallback, the
    random pick, the address fallback and the maps link. */
module Places {
  import opened Js
  import opened Uri

  /** A Places search answer: its status and, when present, its results. */
  datatype SearchResponse = SearchResponse(status: string, results: Option<seq<Place>>)

  /** One search result, with the fields the routes read. Fields the Places
      service may leave out are optional. */
  datatype Place = Place(
    name: string,
    placeId: string,
    rating: Option<real>,
    userRatingsTotal: Option<int>,
    priceLevel: Option<int>,
    vicinity: Option<string>,
    formattedAddress: Option<string>,
    openNow: Option<bool>)

  /** `p.rating >= threshold`: a place without a rating compares false. */
  predicate RatedAtLeast(p: Place, threshold: real) {
    p.rating.Some? && p.rating.value >= threshold
  }

  predicate SomeRatedAtLeast(results: seq<Place>, threshold: real) {
    exists p :: p in results && RatedAtLeast(p, threshold)
  }

  /** `results.filter(r => r.rating >= threshold)`. */
  function FilterRated(results: seq<Place>, threshold: real): (r: seq<Place>)
    ensures |r| <= |results|
    ensures forall p :: p in r ==> p in results && RatedAtLeast(p, threshold)
    ensures forall i :: 0 <= i < |results| && RatedAtLeast(results[i], threshold) ==> results[i] in r
    ensures forall p :: multiset(r)[p] == if RatedAtLeast(p, threshold) then multiset(results)[p] else 0
  {
    if results == [] then []
    else
      assert results == [results[0]] + results[1..];
      (if RatedAtLeast(results[0], threshold) then [results[0]] else [])
      + FilterRated(results[1..], threshold)
  }

  /** `a` is `b` with some elements left out, the rest kept in order. */
  predicate IsSubsequence<T(==)>(a: seq<T>, b: seq<T>)
    decreases |b|
  {
    a == [] || (b != [] && if a[0] == b[0] then IsSubsequence(a[1..], b[1..]) else IsSubsequence(a, b[1..]))
  }

  lemma {:induction false} FilterIsSubsequence(results: seq<Place>, threshold: real)
    ensures IsSubsequence(FilterRated(results, threshold), results)
    decreases |results|
  {
    if results != [] {
      var rest := FilterRated(results[1..], threshold);
      FilterIsSubsequence(results[1..], threshold);
      if RatedAtLeast(results[0], threshold) {
        assert FilterRated(results, threshold) == [results[0]] + rest;
        assert ([results[0]] + rest)[1..] == rest;
      } else {
        assert FilterRated(results, threshold) == rest;
        SubsequenceOfTail(rest, results);
      }
    }
  }

  /** A subsequence of the tail of `b` is a subsequence of `b`. */
  lemma {:induction false} SubsequenceOfTail<T>(a: seq<T>, b: seq<T>)
    requires b != [] && IsSubsequence(a, b[1..])
    ensures IsSubsequence(a, b)
    decreases |b|, 0
  {
    if a != [] && a[0] == b[0] {
      SubsequenceDropHead(a, b[1..]);
    }
  }

  lemma {:induction false} SubsequenceDropHead<T>(a: seq<T>, b: seq<T>)
    requires a != [] && IsSubsequence(a, b)
    ensures IsSubsequence(a[1..], b)
    decreases |b|, 1
  {
    if a[0] == b[0] {
      SubsequenceOfTail(a[1..], b);
    } else {
      SubsequenceDropHead(a, b[1..]);
      SubsequenceOfTail(a[1..], b);
    }
  }

  /** The candidates the route draws from: the places rated at least
      `threshold`, or every result when none is. */
  function ChoosePool(results: seq<Place>, threshold: real): (pool: seq<Place>)
    ensures results != [] ==> pool != []
    ensures forall p :: p in pool ==> p in results
    ensures SomeRatedAtLeast(results, threshold) ==>
              (forall p :: p in pool ==> RatedAtLeast(p, threshold))
              && (forall i :: 0 <= i < |results| && RatedAtLeast(results[i], threshold) ==> results[i] in pool)
    ensures SomeRatedAtLeast(results, threshold) ==> pool == FilterRated(results, threshold)
    ensures !SomeRatedAtLeast(results, threshold) ==> pool == results
  {
    var candidates := FilterRated(results, threshold);
    if |candidates| > 0 then
      assert candidates[0] in candidates;
      candidates
    else results
  }

  lemma PoolIsSubsequence(results: seq<Place>, threshold: real)
    ensures IsSubsequence(ChoosePool(results, threshold), results)
  {
    FilterIsSubsequence(results, threshold);
    if |FilterRated(results, threshold)| == 0 {
      SubsequenceReflexive(results);
    }
  }

  lemma {:induction false} SubsequenceReflexive<T>(a: seq<T>)
    ensures IsSubsequence(a, a)
    decreases |a|
  {
    if a != [] {
      SubsequenceReflexive(a[1..]);
    }
  }

  /** `Math.floor(u * n)` for the value `u` of `Math.random()`, which lies in [0, 1). */
  function PickIndex(u: real, n: nat): (i: nat)
    requires 0.0 <= u < 1.0 && n > 0
    ensures i < n
  {
    var x := u * n as real;
    assert 0.0 <= x < n as real by { ScaleBelow(u, n); }
    x.Floor
  }

  lemma ScaleBelow(u: real, n: nat)
    requires 0.0 <= u < 1.0 && n > 0
    ensures 0.0 <= u * n as real < n as real
  {
  }

  /** Every index can come out of the draw: `u = i / n` picks index `i`. */
  lemma EveryIndexReachable(i: nat, n: nat)
    requires i < n
    ensures 0.0 <= i as real / n as real < 1.0
    ensures PickIndex(i as real / n as real, n) == i
  {
    var u := i as real / n as real;
    assert u * n as real == i as real;
  }

  /** `pool[Math.floor(Math.random() * pool.length)]`. */
  function Pick(pool: seq<Place>, u: real): (p: Place)
    requires 0.0 <= u < 1.0 && pool != []
    ensures p in pool
  {
    pool[PickIndex(u, |pool|)]
  }

  /** The place a route recommends is one of the search results, and it meets
      the rating bar whenever any result does. */
  lemma PickedFromResults(results: seq<Place>, threshold: real, u: real)
    requires 0.0 <= u < 1.0 && results != []
    ensures Pick(ChoosePool(results, threshold), u) in results
    ensures SomeRatedAtLeast(results, threshold) ==> RatedAtLeast(Pick(ChoosePool(results, threshold), u), threshold)
  {
  }

  /** `primary || place.vicinity`: the preferred address when it is truthy,
      otherwise the short address the search returned. */
  function AddressOf(primary: Option<string>, place: Place): (a: Option<string>)
    ensures Truthy(primary) ==> a == primary
    ensures !Truthy(primary) ==> a == place.vicinity
  {
    Or(primary, place.vicinity)
  }

  const MapsSearchPrefix: string := "https://www.google.com/maps/search/?api=1&query="
  const PlaceIdParameter: string := "&query_place_id="

  /** The navigation link both routes return: the encoded name and the place id. */
  function MapsUrl(place: Place): (url: string)
    ensures MapsSearchPrefix <= url
  {
    MapsSearchPrefix + EncodeURIComponent(place.name) + PlaceIdParameter + place.placeId
  }

  /** The position of the first `c` in `s`, or `|s|` when there is none. */
  function IndexOf(s: string, c: char): (k: nat)
    ensures k <= |s| && Lacks(s[..k], c)
    ensures k < |s| ==> s[k] == c
  {
    if s == [] || s[0] == c then 0
    else
      var k := 1 + IndexOf(s[1..], c);
      assert s[..k] == [s[0]] + s[1..][..k - 1];
      k
  }

  /** `s` without the leading `prefix`, if `s` starts with it. */
  function StripPrefix(prefix: string, s: string): (r: Option<string>)
    ensures r.Some? <==> prefix <= s
    ensures r.Some? ==> s == prefix + r.value
  {
    if prefix <= s then
      assert s == prefix + s[|prefix|..];
      Some(s[|prefix|..])
    else None
  }

  lemma StripPrefixOf(prefix: string, t: string)
    ensures StripPrefix(prefix, prefix + t) == Some(t)
  {
    assert prefix <= prefix + t;
  }

  /** Reads back the place name and id from a maps link. */
  function ParseMapsUrl(url: string): Option<(string, string)> {
    match StripPrefix(MapsSearchPrefix, url)
    case None => None
    case Some(rest) => ParseQuery(rest)
  }

  /** Reads the encoded name up to the first `&`, then the place id parameter. */
  function ParseQuery(rest: string): Option<(string, string)> {
    var k := IndexOf(rest, '&');
    match StripPrefix(PlaceIdParameter, rest[k..])
    case None => None
    case Some(id) =>
      match DecodeURIComponent(rest[..k])
      case None => None
      case Some(name) => Some((name, id))
  }

  /** The link carries exactly the selected place's name and id: the encoded
      name never contains the `&` that starts the next parameter. */
  lemma MapsUrlRoundTrip(place: Place)
    ensures ParseMapsUrl(MapsUrl(place)) == Some((place.name, place.placeId))
  {
    var rest := EncodeURIComponent(place.name) + (PlaceIdParameter + place.placeId);
    assert MapsUrl(place) == MapsSearchPrefix + rest;
    StripPrefixOf(MapsSearchPrefix, rest);
    QueryRoundTrip(place.name, place.placeId);
  }

  lemma QueryRoundTrip(name: string, id: string)
    ensures ParseQuery(EncodeURIComponent(name) + (PlaceIdParameter + id)) == Some((name, id))
  {
    var e := EncodeURIComponent(name);
    var rest := e + (PlaceIdParameter + id);
    IndexAfterPrefix(e, PlaceIdParameter + id);
    assert rest[..|e|] == e;
    assert rest[|e|..] == PlaceIdParameter + id;
    StripPrefixOf(PlaceIdParameter, id);
    DecodeEncode(name);
  }

  lemma IndexAfterPrefix(e: string, t: string)
    requires Lacks(e, '&') && t != [] && t[0] == '&'
    ensures IndexOf(e + t, '&') == |e|
  {
    var k := IndexOf(e + t, '&');
    assert (e + t)[|e|] == '&';
  }
}
