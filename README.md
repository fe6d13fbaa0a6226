# Food search: a verified model of its server logic

This project models the server side of a location-based restaurant picker. The
app has three POST handlers and one credential helper:

- The geocode route turns a reverse-geocoding answer into a short place name.
  It collects four names (city or county, district, village, road) in one pass
  over the address components. It then picks a display name with four
  strategies in a fixed order, and falls back to "未知位置" when all of them
  give nothing.
- The recommend route derives Nearby Search parameters from the user's
  filters. It classifies the search answer as an upstream error, "nothing
  found" or usable. It keeps places rated at least 3.5, or all of them when
  none is, and draws one at random. It then joins and cuts that place's
  reviews for the summary prompt, and builds the address and the maps link.
- The smart-search route (the "wish pool") strips code fences from the model's
  answer and parses it. When parsing fails it uses the default parameters. It
  runs a Text Search, keeps places rated at least 4.0 with the same fallback,
  draws one, and builds the address and the link.
- `getValidKey` swaps an administrator passphrase for the server's key.

Every external call becomes a function parameter of the handler. That covers
the Places, Details and Geocoding requests, the language-model requests and
`JSON.parse`. `Math.random()` becomes a real `u` in [0, 1). Each handler is a
pure function of the request and those parameters. Lemmas show which calls a
reply depends on. For example, without keys the reply is the same for every
service.

The modules follow the source files:

| module | file | models |
|---|---|---|
| `Js` | js.dfy | `undefined`, truthiness, `trim`, `slice`, `join` |
| `Uri` | uri.dfy | `encodeURIComponent`, and the decoding that undoes it |
| `Keys` | keys.dfy | app/lib/keys.js |
| `Places` | places.dfy | rating filter, random pick, address fallback and maps link, shared by both search routes |
| `Geocode` | geocode.dfy | app/api/geocode/route.js |
| `Recommend` | recommend.dfy | app/api/recommend/route.js |
| `SmartSearch` | smart_search.dfy | app/api/smart-search/route.js |

The `forEach` loop of the geocode route changes four local variables step by
step. It is the method `Geocode.FillSlots`, a `while` loop proved equal to the
fold `FoldSlots`. `SlotRef` is a separate, loop-free description of each slot:
the last component of the preferred type wins, otherwise the first non-empty
fallback after it wins. The lemma `FoldMatchesRef` proves that both give the
same names. The name strategies are then stated in terms of the component list.

Three behaviours of the code are worth stating:

- The recommend route checks the keys exactly as the caller sent them. It does
  not pass them through `getValidKey`.
- The smart-search route reads its keys from the server environment. When one
  is missing it answers 500, not 401.
- The geocode route appends the road after a lone district, separated by a
  space.

## Model

| member | source | states |
|---|---|---|
| `Js.Or` | app/api/recommend/route.js:49 | `a \|\| b` is the first operand when that one is truthy, and the second otherwise; it is truthy exactly when one operand is |
| `Js.DropWhile` | app/api/geocode/route.js:60 | removes exactly the longest prefix whose characters all satisfy the predicate |
| `Js.TrimEnd` | app/api/smart-search/route.js:35 | the result is a prefix, and everything cut is white space, up to a last character that is not |
| `Js.Trim` | app/api/smart-search/route.js:35 | the trimmed text is a contiguous piece of the input with only white space around it, and it neither starts nor ends with white space; text with no white space is unchanged |
| `Js.TrimAround` | app/api/smart-search/route.js:35 | white space added before and after a text leaves its trimmed form unchanged |
| `Js.DropLeadingRun` | app/api/smart-search/route.js:35 | dropping a leading run passes over a prefix made only of run characters entirely |
| `Js.DropWhileAppend` | app/api/smart-search/route.js:35 | dropping a leading run from a concatenation stops inside the first part unless all of that part belongs to the run, in which case it goes on into the second |
| `Js.TrimEndWhitespace` | app/api/smart-search/route.js:35 | `trimEnd` removes a white-space suffix and then trims what precedes it, as if the suffix were not there |
| `Js.SliceTo` | app/api/recommend/route.js:48 | `slice(0, n)` is a prefix of length min(n, length) |
| `Js.Join` | app/api/recommend/route.js:48 | joining nothing gives the empty text; the first part is a prefix and the last part a suffix |
| `Js.JoinLength` | app/api/recommend/route.js:48 | the joined length is the sum of the parts plus one separator between each pair of neighbours |
| `Js.JoinCons` | app/api/recommend/route.js:48 | joining a first part to at least one more gives that part, one separator, then the join of the rest, so every part and separator sits in place |
| `Uri.EncodeURIComponent` | app/api/recommend/route.js:81 | the output contains only unreserved characters and `%`, so never `&` |
| `Uri.DecodeOneChar` | app/api/smart-search/route.js:71 | decoding one encoded character followed by any text gives that character in front of the decoding of the text, or fails exactly when that decoding fails |
| `Uri.DecodeEncode` | app/api/smart-search/route.js:71 | decoding the UTF-8 percent-encoding gives back the exact name |
| `Uri.EncodeInjective` | app/api/recommend/route.js:81 | two different place names never share an encoded form |
| `Keys.ServerGoogleKey` | app/lib/keys.js:10 | GOOGLE_MAPS_API_KEY when it is non-empty, otherwise Maps_API_KEY |
| `Keys.GetValidKey` | app/lib/keys.js:2-21 | the Google passphrase in the Google field gives the server Maps key, and the Gemini passphrase in the Gemini field gives GEMINI_API_KEY; every other input, and every other type, comes back unchanged |
| `Keys.GooglePassphraseInGeminiField` | app/lib/keys.js:8 | the Google passphrase typed into the Gemini field is passed through as the user's own key |
| `Keys.GeminiPassphraseInGoogleField` | app/lib/keys.js:14 | the Gemini passphrase typed into the Google field is passed through |
| `Keys.UnsetPassphraseUnlocksServerKey` | app/lib/keys.js:4-11 | with ADMIN_USER unset, a request without a key receives the server Maps key |
| `Keys.GetValidKeyGuarded` | app/lib/keys.js:2-21 | a missing or empty key is always handed back unchanged; otherwise the result is that of `getValidKey` |
| `Keys.GuardedNeverUnlocksForMissingKey` | app/lib/keys.js:8-17 | with the guard, no configuration lets a missing or empty key obtain a server key |
| `Places.FilterRated` | app/api/recommend/route.js:38 | keeps exactly the results rated at least the threshold, each as many times as it occurs in the results; an unrated place never passes |
| `Places.FilterIsSubsequence` | app/api/recommend/route.js:38 | the filtered list keeps the results' order |
| `Places.ChoosePool` | app/api/recommend/route.js:38-39 | the pool is non-empty for non-empty results and lies within them. When some result meets the threshold, the pool is the filtered list itself, duplicates included. When none does, the pool is every result |
| `Places.PoolIsSubsequence` | app/api/smart-search/route.js:50-51 | the pool is a subsequence of the results |
| `Places.PickIndex` | app/api/recommend/route.js:40 | `Math.floor(u * n)` for `u` in [0, 1) is a valid index |
| `Places.EveryIndexReachable` | app/api/smart-search/route.js:52 | every index of the pool comes out of some draw |
| `Places.Pick` | app/api/smart-search/route.js:52 | the drawn place belongs to the pool |
| `Places.PickedFromResults` | app/api/recommend/route.js:38-40 | the drawn place is a search result, and it meets the rating bar whenever any result does |
| `Places.AddressOf` | app/api/smart-search/route.js:70 | the preferred address when it is truthy, otherwise the search's `vicinity` |
| `Places.MapsUrl` | app/api/smart-search/route.js:71 | the link starts with the maps search prefix |
| `Places.QueryRoundTrip` | app/api/recommend/route.js:81 | the query part of the link, an encoded name followed by the place id parameter, reads back as exactly that name and id |
| `Places.MapsUrlRoundTrip` | app/api/recommend/route.js:81 | parsing the link gives back exactly the place's name and place id |
| `Geocode.StepSlot` | app/api/geocode/route.js:27-37 | for each slot, one component applies the preferred-type overwrite and then the fallback-if-empty rule. Hence it changes a slot only to its own name; a slot it is neither preferred type nor fallback for is untouched; a fallback never overwrites a non-empty slot; a preferred type with a non-empty name always sets the slot |
| `Geocode.FoldSlots` | app/api/geocode/route.js:26-38 | every non-empty collected name is the name of some component of the list |
| `Geocode.FillSlots` | app/api/geocode/route.js:26-38 | the `forEach` loop leaves the four names equal to the fold of the one-component step over the list |
| `Geocode.FoldMatchesRef` | app/api/geocode/route.js:26-38 | each collected name equals the loop-free description: the last preferred component if its name is non-empty, otherwise the first non-empty fallback after it |
| `Geocode.LastPreferredWins` | app/api/geocode/route.js:28-31 | the last component typed level 1, 3, 4 or `route` decides its slot. For district and village this needs a non-empty name |
| `Geocode.FallbackFillsOnlyEmpty` | app/api/geocode/route.js:34-37 | without a preferred component, the first fallback component with a non-empty name fills the slot, and no later fallback replaces it |
| `Geocode.SlotStaysEmpty` | app/api/geocode/route.js:26-38 | with neither a preferred component nor a named fallback, the slot stays empty |
| `Geocode.PreferredOverridesEarlierFallback` | app/api/geocode/route.js:29-37 | a level-3 or level-4 component after a fallback still decides the slot |
| `Geocode.StripPostalCode` | app/api/geocode/route.js:60 | the result is a suffix of the address. Text not starting with a digit is unchanged. Otherwise something is cut, and what is left does not start with white space |
| `Geocode.PostalCodeIsCut` | app/api/geocode/route.js:60 | for text starting with a digit, exactly a maximal non-empty run of ASCII digits and the white space after it are cut, as `^\d+\s*` does |
| `Geocode.StripCountry` | app/api/geocode/route.js:60 | one leading "台灣" is removed and nothing else |
| `Geocode.FirstSegment` | app/api/geocode/route.js:60 | `split(' ')[0]` is the space-free prefix that ends at the first space |
| `Geocode.ShortAddress` | app/api/geocode/route.js:60 | the short address is a space-free prefix of the cleaned address that ends at a space or at the end |
| `Geocode.ComposeName` | app/api/geocode/route.js:41-61 | a district always leads the name; without one, the city or county is the name; without either, the short address is; the name is non-empty whenever a district or city is known |
| `Geocode.LocationName` | app/api/geocode/route.js:63-64 | the returned name is never empty |
| `Geocode.NameIsDistrictThenSubLocality` | app/api/geocode/route.js:44-45 | with a district and a village, the name is the two joined with no separator |
| `Geocode.NameFromLevels3And4` | app/api/geocode/route.js:44-45 | the last named level-3 and level-4 components give their concatenation |
| `Geocode.NameIsDistrictWithRoute` | app/api/geocode/route.js:48-51 | with a district but no village, the name is the district, followed by a space and the road when there is one |
| `Geocode.NameIsProvince` | app/api/geocode/route.js:54-55 | with no district, the city or county is the name |
| `Geocode.NameFromFormattedAddress` | app/api/geocode/route.js:58-64 | with neither, the name is the shortened address, or "未知位置" when that is empty |
| `Geocode.HandleGeocode` | app/api/geocode/route.js:3-75 | a falsy key, and only a falsy key, gives 400. With a key, a geocoding call that throws gives 500 with the error's message, and only such a call gives 500. A located reply always has a non-empty name |
| `Geocode.MissingKeyMakesNoCall` | app/api/geocode/route.js:7-9 | without a key, the reply does not depend on the geocoding service |
| `Geocode.NoResultGivesPlainSentinel` | app/api/geocode/route.js:67-69 | a non-OK status or no results gives "定位完成" and no full address |
| `Geocode.ResultNamed` | app/api/geocode/route.js:17-18 | an OK answer names the first result and returns its formatted address |
| `Recommend.HasKeys` | app/api/recommend/route.js:10 | the keys count as missing exactly when either is `undefined` or empty |
| `Recommend.SearchRadius` | app/api/recommend/route.js:17 | a missing or zero radius becomes 1000 and any other radius is kept, so the radius is never 0 |
| `Recommend.PriceRange` | app/api/recommend/route.js:18-19 | max is the budget and min is max(0, budget − 1). For budgets from 0 up, 0 ≤ min ≤ max ≤ min + 1 |
| `Recommend.Keyword` | app/api/recommend/route.js:20 | "隨便" searches for "美食"; any other cuisine starts its keyword; the keyword is never empty |
| `Recommend.KeywordRoundTrip` | app/api/recommend/route.js:20 | the cuisine can be read back from its keyword: "美食" for "隨便", otherwise the keyword minus its "餐廳" suffix |
| `Recommend.KeywordInjective` | app/api/recommend/route.js:20 | two cuisines never share a keyword |
| `Recommend.NearbyQueryOf` | app/api/recommend/route.js:17-23 | open-now exactly when time is "now"; the radius, price band and keyword as above |
| `Recommend.CheckNearby` | app/api/recommend/route.js:28-35 | a status other than OK or ZERO_RESULTS gives 500. Otherwise missing or empty results give 404. The route goes on exactly when neither applies |
| `Recommend.ReviewsOf` | app/api/recommend/route.js:47 | the details' review list when there is one, otherwise no reviews |
| `Recommend.Texts` | app/api/recommend/route.js:48 | one text per review, in order |
| `Recommend.ReviewsText` | app/api/recommend/route.js:47-48 | the prefix of the reviews joined by "\n---\n" whose length is min(2000, length of the join): all of it when it fits, exactly 2000 characters otherwise |
| `Recommend.FirstReviewKept` | app/api/recommend/route.js:48 | a first review of at most 2000 characters always reaches the prompt whole |
| `Recommend.DetailsAddress` | app/api/recommend/route.js:49 | the details' formatted address when a details result exists, otherwise `undefined` |
| `Recommend.ReviewsForPrompt` | app/api/recommend/route.js:59 | the joined reviews when there are any, otherwise the placeholder "（暫無詳細評論）"; so the section is never empty |
| `Recommend.HandleRecommend` | app/api/recommend/route.js:4-88 | a missing key, and only that, gives 401. With both keys, a search, details or model call that throws gives 500 "系統忙線中". Every other failure is 404 or 500 |
| `Recommend.MissingKeysMakeNoCall` | app/api/recommend/route.js:10-12 | without both keys, the reply does not depend on any service |
| `Recommend.SearchFailureStopsEarly` | app/api/recommend/route.js:28-35 | a bad status (500 with the status embedded) or no results (404) ends the request before the details and model calls |
| `Recommend.RecommendationFromResults` | app/api/recommend/route.js:38-81 | the recommended place is a search result, rated at least 3.5 when any result is. It carries that place's name, place id, rating, rating count, price level and open-now flag, the details address or else the vicinity, a link naming exactly it, and the model's text |
| `SmartSearch.StripFences` | app/api/smart-search/route.js:35 | the result is never longer than the input, and a first character other than a backtick is kept (`StripKeepsPrefix` states the rest: all text outside the fences is kept) |
| `SmartSearch.ParseText` | app/api/smart-search/route.js:35 | the cleaned text is never longer than the answer, and neither starts nor ends with white space (`ParseFencedAnswer` gives its exact value for a fenced answer) |
| `SmartSearch.StripLeavesNoFence` | app/api/smart-search/route.js:35 | removing the fences never leaves three backticks in a row |
| `SmartSearch.StripWithoutFence` | app/api/smart-search/route.js:35 | text without fences passes through unchanged |
| `SmartSearch.StripIdempotent` | app/api/smart-search/route.js:35 | stripping twice is stripping once |
| `SmartSearch.StripKeepsPrefix` | app/api/smart-search/route.js:35 | a fence-free prefix that does not end in a backtick comes out unchanged, followed by the stripping of what comes after it |
| `SmartSearch.OpeningFence` | app/api/smart-search/route.js:35 | an opening "```json" and the fence-free body after it give that body, followed by the stripping of the rest |
| `SmartSearch.ClosingFence` | app/api/smart-search/route.js:35 | a bare "```" is removed and stripping goes on after it, unless "json" follows it |
| `SmartSearch.FencedBlock` | app/api/smart-search/route.js:35 | a "```json … ```" block comes out as its body, and the text after it is stripped in turn |
| `SmartSearch.StripAroundBlock` | app/api/smart-search/route.js:35 | fence-free text before and after a fenced block is kept, and only the two fences go |
| `SmartSearch.StripFencedAnswer` | app/api/smart-search/route.js:35 | an answer of white space, a "```json … ```" block and white space loses exactly its two fences |
| `SmartSearch.ParseFencedAnswer` | app/api/smart-search/route.js:35 | for such an answer, `JSON.parse` receives the block's body, trimmed |
| `SmartSearch.ParseTextHasNoFence` | app/api/smart-search/route.js:35 | the text handed to `JSON.parse` never holds a fence |
| `SmartSearch.ParamsOrDefault` | app/api/smart-search/route.js:36-37 | a parse failure gives keyword "美食" with prices 0 to 4 |
| `SmartSearch.TextQueryOf` | app/api/smart-search/route.js:40 | the text search uses the parsed keyword and prices, a 2000 m radius and open-now |
| `SmartSearch.HandleSmartSearch` | app/api/smart-search/route.js:4-79 | a missing server key, and only that, gives the 500 key message. With both keys, a parse-prompt, Text Search or reason call that throws gives 500 "AI 思考中斷，請重試". Every other failure is 404 or 500 |
| `SmartSearch.MissingKeysMakeNoCall` | app/api/smart-search/route.js:10-16 | without both server keys, the reply does not depend on the model or the search |
| `SmartSearch.ParseFailureIsSilent` | app/api/smart-search/route.js:36-37 | an unparsable answer behaves exactly like an answer of the default parameters |
| `SmartSearch.StatusIgnored` | app/api/smart-search/route.js:45-47 | the search status is never consulted |
| `SmartSearch.NoResultsIsNotFound` | app/api/smart-search/route.js:45-47 | missing or empty results give 404 before the second model call |
| `SmartSearch.WishFromResults` | app/api/smart-search/route.js:50-71 | the place is a search result, rated at least 4.0 when any result is. It carries that place's name, rating and rating count, its own address or else the vicinity, a link naming exactly it, and the model's explanation |

## Findings

| source | as written | input that shows it | evidently intended | confidence | as-written member | corrected member |
|---|---|---|---|---|---|---|
| app/lib/keys.js:4-11 | `inputKey === adminUser` also holds when both are `undefined` | ADMIN_USER unset, `getValidKey(undefined, 'google')` returns the server Maps key | only a caller who types the configured passphrase unlocks a server key | medium, not executed; no route handler imports `getValidKey` | `Keys.UnsetPassphraseUnlocksServerKey` | `Keys.GetValidKeyGuarded` |

## Left out

- Network calls: `fetch` to the Places, Details, Geocoding and Text Search services and the model's `generateContent` are function parameters. Only the outcome matters: a value, or an exception that ends in the handler's 500.
- Prompt wording: prompts are modelled by the data they carry (name, rating, review text, the wish), not by their free text.
- `lat` and `lng` are only forwarded into request URLs and are not modelled.
- Outbound requests are modelled by their parameters, not by the URL strings that carry them.
- `Recommend.NearbyQueryOf`: the service is modelled as receiving the keyword exactly, but app/api/recommend/route.js:23 puts it into the URL without `encodeURIComponent` (app/api/smart-search/route.js:40 does encode it). A cuisine holding `&`, `#`, `+` or `%` therefore reaches the service changed: `&` ends the keyword and starts another parameter, `+` and `%xx` are decoded by the service, and `#` cuts off the rest of the URL, key included, so the search is refused and the route answers 500.
- `Math.random()` is the parameter `u` in [0, 1). The floating-point rounding of `u * n` is not modelled.
- Ratings are JavaScript doubles, modelled as `real`.
- `Recommend.PriceRange`: `Number(budget)` is taken as already an integer. The page sends "1" to "4". A non-numeric budget (NaN) is not modelled.
- `Recommend.SearchRadius`: the radius is a number or absent. Other JSON values (strings, NaN) are not modelled.
- `Recommend.ReviewsText`: lengths count Unicode scalar values. JavaScript's `slice` counts UTF-16 code units, so for reviews with characters outside the Basic Multilingual Plane the cut falls earlier in JavaScript and may split a surrogate pair.
- `Uri.EncodeURIComponent`: JavaScript's `encodeURIComponent` throws a `URIError` on a lone surrogate, which would end in the handler's 500. A Dafny `char` cannot hold a lone surrogate, so place names here are always well-formed and that path is not modelled.
- `JSON.parse` is a parameter returning a `SearchParams` record or nothing. A JSON value of another shape, say without `keyword`, is not modelled.
- Response fields assumed present: `formatted_address` and `long_name` in the Geocoding answer, and `name` and `place_id` in a place. A missing one would make JavaScript throw or print "undefined". Review texts are strings.
- Exceptions from reading malformed responses are not modelled. The outer `catch` is modelled only for the calls themselves.
- Logging with `console.log` and `console.error` is not modelled.
- The validate-keys route, the two pages, the map component, the icon and the layout are not part of this model. They only probe services or render the interface.
