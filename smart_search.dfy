/** app/api/smart-search/route.js, the "wish pool": a free-text wish is turned
    into search parameters by the language model, a Text Search finds places,
    one is drawn and the model explains why it fits the wish. */
module SmartSearch {
  import opened Js
  import opened Places
  import Keys

  /** The JSON object the model is asked to produce. */
  datatype SearchParams = SearchParams(keyword: string, minPrice: int, maxPrice: int)

  /** The Text Search parameters. */
  datatype TextQuery = TextQuery(keyword: string, radius: int, minPrice: int, maxPrice: int, openNow: bool)

  /** The two questions put to the model, by the data they carry; their wording is not modelled. */
  datatype Prompt =
    | ParsePrompt(query: string)
    | ReasonPrompt(query: string, name: string, rating: Option<real>)

  datatype Reply =
    | Failed(httpStatus: int, message: string)
    | Wish(
        name: string,
        rating: Option<real>,
        userRatingsTotal: Option<int>,
        address: Option<string>,
        mapsUrl: string,
        aiReason: string)

  const DefaultParams: SearchParams := SearchParams("美食", 0, 4)
  const MissingKeyMessage: string := "API Key 未設定 (許願池目前仍使用後端 Key)"
  const NotFoundMessage: string := "找不到符合願望的店..."
  const InterruptedMessage: string := "AI 思考中斷，請重試"
  const MinRating: real := 4.0
  const TextSearchRadius: int := 2000

  const JsonFence: string := "```json"
  const Fence: string := "```"

  // ---------------------------------------------------------------------------
  // Cleaning the model's answer

  /** `replace(/```json|```/g, '')`: scanning from the left, an opening
      "```json" is removed, else a bare "```", else the character is kept. */
  function StripFences(s: string): (r: string)
    ensures |r| <= |s|
    ensures s != [] && s[0] != '`' ==> r != [] && r[0] == s[0]
    decreases |s|
  {
    if JsonFence <= s then StripFences(s[|JsonFence|..])
    else if Fence <= s then StripFences(s[|Fence|..])
    else if s == [] then []
    else [s[0]] + StripFences(s[1..])
  }

  /** Three backticks start at position `i`. */
  predicate HasFenceAt(s: string, i: int) {
    0 <= i && i + 3 <= |s| && s[i] == '`' && s[i + 1] == '`' && s[i + 2] == '`'
  }

  predicate NoFence(s: string) {
    forall i :: 0 <= i < |s| ==> !HasFenceAt(s, i)
  }

  /** Line 35: the text handed to `JSON.parse`. */
  function ParseText(modelText: string): (text: string)
    ensures |text| <= |modelText|
    ensures text != [] ==> !IsWhitespace(text[0]) && !IsWhitespace(text[|text| - 1])
  {
    Trim(StripFences(modelText))
  }

  lemma StripKeepsLeadingBacktick(t: string)
    requires StripFences(t) != [] && StripFences(t)[0] == '`'
    ensures t != [] && t[0] == '`'
  {
  }

  lemma StripKeepsLeadingBackticks(t: string)
    requires |StripFences(t)| >= 2 && StripFences(t)[0] == '`' && StripFences(t)[1] == '`'
    ensures |t| >= 2 && t[0] == '`' && t[1] == '`'
  {
    if !(Fence <= t) {
      assert StripFences(t) == [t[0]] + StripFences(t[1..]);
      StripKeepsLeadingBacktick(t[1..]);
    }
  }

  /** Removing fences never leaves a fence behind, even where removals bring
      backticks together. */
  lemma {:induction false} StripLeavesNoFence(s: string)
    ensures NoFence(StripFences(s))
    decreases |s|
  {
    if JsonFence <= s {
      StripLeavesNoFence(s[|JsonFence|..]);
    } else if Fence <= s {
      StripLeavesNoFence(s[|Fence|..]);
    } else if s != [] {
      var rest := StripFences(s[1..]);
      var r := [s[0]] + rest;
      assert StripFences(s) == r;
      StripLeavesNoFence(s[1..]);
      forall i | 0 <= i < |r| ensures !HasFenceAt(r, i) {
        if i == 0 {
          if |rest| >= 2 && rest[0] == '`' && rest[1] == '`' {
            // then s[1] and s[2] are backticks, so s[0] is not: s has no leading fence
            StripKeepsLeadingBackticks(s[1..]);
          }
        } else {
          assert !HasFenceAt(rest, i - 1);
        }
      }
    }
  }

  /** Text without fences passes through unchanged, so stripping twice is stripping once. */
  lemma {:induction false} StripWithoutFence(s: string)
    requires NoFence(s)
    ensures StripFences(s) == s
    decreases |s|
  {
    if s != [] {
      assert !HasFenceAt(s, 0);
      assert !(Fence <= s);
      JsonFenceIsFence(s);
      assert NoFence(s[1..]) by {
        forall i | 0 <= i < |s[1..]| ensures !HasFenceAt(s[1..], i) {
          assert !HasFenceAt(s, i + 1);
        }
      }
      StripWithoutFence(s[1..]);
    }
  }

  lemma StripIdempotent(s: string)
    ensures StripFences(StripFences(s)) == StripFences(s)
  {
    StripLeavesNoFence(s);
    StripWithoutFence(StripFences(s));
  }

  /** Text before any fence is kept as it is: a fence-free prefix that does not
      end in a backtick passes through, and stripping goes on after it. */
  lemma {:induction false} StripKeepsPrefix(a: string, t: string)
    requires NoFence(a) && (a == [] || a[|a| - 1] != '`')
    ensures StripFences(a + t) == a + StripFences(t)
    decreases |a|
  {
    if a == [] {
      assert a + t == t;
    } else {
      var s := a + t;
      NoLeadingFence(a, t);
      assert s[1..] == a[1..] + t;
      NoFenceSlice(a, 1, |a|);
      assert a[1..|a|] == a[1..];
      StripKeepsPrefix(a[1..], t);
      StripStep(s);
      ConsConcat(a, StripFences(t));
    }
  }

  lemma ConsConcat(x: string, z: string)
    requires x != []
    ensures [x[0]] + (x[1..] + z) == x + z
  {
  }

  /** Where no fence starts, the first character is kept and the scan moves on. */
  lemma StripStep(s: string)
    requires s != [] && !(Fence <= s) && !(JsonFence <= s)
    ensures StripFences(s) == [s[0]] + StripFences(s[1..])
  {
  }

  /** A fence-free text that does not end in a backtick cannot start a fence, whatever follows it. */
  lemma NoLeadingFence(a: string, t: string)
    requires NoFence(a) && a != [] && a[|a| - 1] != '`'
    ensures !(Fence <= a + t) && !(JsonFence <= a + t)
  {
    var s := a + t;
    if |a| >= 3 {
      assert !HasFenceAt(a, 0);
      assert s[0] == a[0] && s[1] == a[1] && s[2] == a[2];
    } else {
      assert s[|a| - 1] == a[|a| - 1];
    }
    JsonFenceIsFence(s);
  }

  /** The usual answer, a fenced JSON block, comes out as the block's body,
      and whatever follows it is stripped in turn. */
  lemma FencedBlock(body: string, t: string)
    requires NoFence(body) && (body == [] || body[|body| - 1] != '`')
    ensures StripFences(JsonFence + body + Fence + t) == body + StripFences(t) || JsonFence <= Fence + t
  {
    if !(JsonFence <= Fence + t) {
      assert JsonFence + body + Fence + t == JsonFence + body + (Fence + t);
      OpeningFence(body, Fence + t);
      ClosingFence(t);
    }
  }

  lemma OpeningFence(body: string, t: string)
    requires NoFence(body) && (body == [] || body[|body| - 1] != '`')
    ensures StripFences(JsonFence + body + t) == body + StripFences(t)
  {
    var s := JsonFence + body + t;
    assert JsonFence <= s;
    assert s[|JsonFence|..] == body + t;
    StripKeepsPrefix(body, t);
  }

  lemma ClosingFence(t: string)
    ensures StripFences(Fence + t) == StripFences(t) || JsonFence <= Fence + t
  {
    var u := Fence + t;
    assert Fence <= u && u[|Fence|..] == t;
  }

  /** The answer the prompt asks for, a fenced JSON block with white space
      around it, reaches `JSON.parse` as the trimmed body of the block. */
  lemma ParseFencedAnswer(lead: string, body: string, ws: string)
    requires AllWhitespace(lead) && AllWhitespace(ws)
    requires NoFence(body) && (body == [] || body[|body| - 1] != '`')
    ensures ParseText(lead + JsonFence + body + Fence + ws) == Trim(body)
  {
    StripFencedAnswer(lead, body, ws);
    TrimAround(lead, body, ws);
  }

  lemma StripFencedAnswer(lead: string, body: string, ws: string)
    requires AllWhitespace(lead) && AllWhitespace(ws)
    requires NoFence(body) && (body == [] || body[|body| - 1] != '`')
    ensures StripFences(lead + JsonFence + body + Fence + ws) == lead + body + ws
  {
    WhitespaceHasNoFence(lead);
    WhitespaceHasNoFence(ws);
    NoJsonFenceAfterWhitespace(ws);
    StripAroundBlock(lead, body, ws);
  }

  lemma StripAroundBlock(lead: string, body: string, t: string)
    requires NoFence(lead) && (lead == [] || lead[|lead| - 1] != '`')
    requires NoFence(body) && (body == [] || body[|body| - 1] != '`')
    requires NoFence(t) && !(JsonFence <= Fence + t)
    ensures StripFences(lead + JsonFence + body + Fence + t) == lead + body + t
  {
    var x := JsonFence + body + Fence + t;
    Regroup(lead, JsonFence, body, Fence, t);
    StripKeepsPrefix(lead, x);
    FencedBlock(body, t);
    StripWithoutFence(t);
    assert StripFences(lead + JsonFence + body + Fence + t) == lead + (body + t);
    Assoc(lead, body, t);
  }

  lemma Regroup(a: string, b: string, c: string, d: string, e: string)
    ensures a + b + c + d + e == a + (b + c + d + e)
  {
  }

  lemma NoJsonFenceAfterWhitespace(ws: string)
    requires AllWhitespace(ws)
    ensures !(JsonFence <= Fence + ws)
  {
    if |Fence + ws| >= |JsonFence| {
      assert (Fence + ws)[3] == ws[0];
      assert JsonFence[3] == 'j';
    }
  }

  lemma WhitespaceHasNoFence(s: string)
    requires AllWhitespace(s)
    ensures NoFence(s) && (s == [] || s[|s| - 1] != '`')
  {
    forall i | 0 <= i < |s| ensures !HasFenceAt(s, i) {
      assert IsWhitespace(s[i]);
    }
  }

  lemma JsonFenceIsFence(s: string)
    ensures JsonFence <= s ==> Fence <= s
  {
    if JsonFence <= s {
      assert s[..|Fence|] == JsonFence[..|Fence|] == Fence;
    }
  }

  /** A suffix or prefix of fence-free text is fence-free. */
  lemma NoFenceSlice(s: string, lo: nat, hi: nat)
    requires NoFence(s) && lo <= hi <= |s|
    ensures NoFence(s[lo..hi])
  {
    var t := s[lo..hi];
    forall i | 0 <= i < |t| ensures !HasFenceAt(t, i) {
      assert !HasFenceAt(s, lo + i);
    }
  }

  /** Whatever the model writes, the text given to `JSON.parse` holds no fence. */
  lemma ParseTextHasNoFence(modelText: string)
    ensures NoFence(ParseText(modelText))
  {
    StripLeavesNoFence(modelText);
    NoFenceTrim(StripFences(modelText));
  }

  lemma NoFenceTrim(s: string)
    requires NoFence(s)
    ensures NoFence(Trim(s))
  {
    NoFenceDropWhile(s);
    NoFenceTrimEnd(DropWhile(IsWhitespace, s));
  }

  lemma NoFenceDropWhile(s: string)
    requires NoFence(s)
    ensures NoFence(DropWhile(IsWhitespace, s))
  {
    var d := DropWhile(IsWhitespace, s);
    assert s[|s| - |d|..|s|] == d;
    NoFenceSlice(s, |s| - |d|, |s|);
  }

  lemma NoFenceTrimEnd(d: string)
    requires NoFence(d)
    ensures NoFence(TrimEnd(d))
  {
    var r := TrimEnd(d);
    assert d[0..|r|] == r;
    NoFenceSlice(d, 0, |r|);
  }

  /** Line 37: a parse failure is replaced by the default parameters. */
  function ParamsOrDefault(parsed: Option<SearchParams>): (p: SearchParams)
    ensures parsed.Some? ==> p == parsed.value
    ensures parsed.None? ==> p == SearchParams("美食", 0, 4)
  {
    match parsed
    case Some(params) => params
    case None => DefaultParams
  }

  /** Line 40: a fixed radius of 2000 metres and open places only. */
  function TextQueryOf(p: SearchParams): (q: TextQuery)
    ensures q.radius == 2000 && q.openNow
    ensures q.keyword == p.keyword && q.minPrice == p.minPrice && q.maxPrice == p.maxPrice
  {
    TextQuery(p.keyword, TextSearchRadius, p.minPrice, p.maxPrice, true)
  }

  /** The POST handler. `env` is the process environment, `generate` the model
      call, `parseJson` what `JSON.parse` makes of a text (`None` where it
      throws), `textSearch` the Text Search call and `u` the value
      `Math.random()` returned. */
  function HandleSmartSearch(
    query: string,
    env: Keys.Env,
    generate: Prompt -> Outcome<string>,
    parseJson: string -> Option<SearchParams>,
    textSearch: TextQuery -> Outcome<SearchResponse>,
    u: real): (reply: Reply)
    requires 0.0 <= u < 1.0
    ensures !Truthy(Keys.ServerGoogleKey(env)) || !Truthy(env.geminiApiKey) <==> reply == Failed(500, MissingKeyMessage)
    ensures reply.Failed? ==> reply.httpStatus == 404 || reply.httpStatus == 500
    ensures Truthy(Keys.ServerGoogleKey(env)) && Truthy(env.geminiApiKey) ==>
      var first := generate(ParsePrompt(query));
      (first.Threw? ==> reply == Failed(500, InterruptedMessage))
      && (first.Returned? ==>
          var search := textSearch(TextQueryOf(ParamsOrDefault(parseJson(ParseText(first.value)))));
          (search.Threw? ==> reply == Failed(500, InterruptedMessage))
          && (search.Returned? && search.value.results.Some? && search.value.results.value != [] ==>
              var place := Pick(ChoosePool(search.value.results.value, MinRating), u);
              generate(ReasonPrompt(query, place.name, place.rating)).Threw? ==> reply == Failed(500, InterruptedMessage)))
  {
    if !Truthy(Keys.ServerGoogleKey(env)) || !Truthy(env.geminiApiKey) then
      Failed(500, MissingKeyMessage)
    else
      match generate(ParsePrompt(query))
      case Threw(_) => Failed(500, InterruptedMessage)
      case Returned(text) =>
        var params := ParamsOrDefault(parseJson(ParseText(text)));
        match textSearch(TextQueryOf(params))
        case Threw(_) => Failed(500, InterruptedMessage)
        case Returned(resp) =>
          if resp.results.None? || resp.results.value == [] then
            Failed(404, NotFoundMessage)
          else
            var place := Pick(ChoosePool(resp.results.value, MinRating), u);
            match generate(ReasonPrompt(query, place.name, place.rating))
            case Threw(_) => Failed(500, InterruptedMessage)
            case Returned(reason) =>
              Wish(place.name, place.rating, place.userRatingsTotal,
                   AddressOf(place.formattedAddress, place), MapsUrl(place), reason)
  }

  /** Without both server keys the model is never asked: the reply does not depend on any service. */
  lemma MissingKeysMakeNoCall(
    query: string, env: Keys.Env, u: real,
    g1: Prompt -> Outcome<string>, g2: Prompt -> Outcome<string>,
    p1: string -> Option<SearchParams>, p2: string -> Option<SearchParams>,
    t1: TextQuery -> Outcome<SearchResponse>, t2: TextQuery -> Outcome<SearchResponse>)
    requires 0.0 <= u < 1.0
    requires !Truthy(Keys.ServerGoogleKey(env)) || !Truthy(env.geminiApiKey)
    ensures HandleSmartSearch(query, env, g1, p1, t1, u) == HandleSmartSearch(query, env, g2, p2, t2, u)
  {
  }

  /** An answer `JSON.parse` rejects is not an error: the request goes on
      exactly as if the model had answered the default parameters. */
  lemma ParseFailureIsSilent(
    query: string, env: Keys.Env, u: real, generate: Prompt -> Outcome<string>,
    parseJson: string -> Option<SearchParams>, textSearch: TextQuery -> Outcome<SearchResponse>)
    requires 0.0 <= u < 1.0
    requires generate(ParsePrompt(query)).Returned?
    requires parseJson(ParseText(generate(ParsePrompt(query)).value)) == None
    ensures HandleSmartSearch(query, env, generate, parseJson, textSearch, u)
         == HandleSmartSearch(query, env, generate, _ => Some(DefaultParams), textSearch, u)
  {
  }

  /** Unlike the recommendation route, the search status is never looked at:
      two answers with the same results give the same reply. */
  lemma StatusIgnored(
    query: string, env: Keys.Env, u: real, generate: Prompt -> Outcome<string>,
    parseJson: string -> Option<SearchParams>,
    t1: TextQuery -> Outcome<SearchResponse>, t2: TextQuery -> Outcome<SearchResponse>)
    requires 0.0 <= u < 1.0
    requires forall q :: t1(q).Returned? == t2(q).Returned?
    requires forall q :: t1(q).Returned? ==> t1(q).value.results == t2(q).value.results
    ensures HandleSmartSearch(query, env, generate, parseJson, t1, u)
         == HandleSmartSearch(query, env, generate, parseJson, t2, u)
  {
  }

  /** With keys and a successful parse call, no results means 404, and nothing more is asked of the model. */
  lemma NoResultsIsNotFound(
    query: string, env: Keys.Env, u: real, generate: Prompt -> Outcome<string>,
    parseJson: string -> Option<SearchParams>, textSearch: TextQuery -> Outcome<SearchResponse>)
    requires 0.0 <= u < 1.0
    requires Truthy(Keys.ServerGoogleKey(env)) && Truthy(env.geminiApiKey)
    requires generate(ParsePrompt(query)).Returned?
    requires var params := ParamsOrDefault(parseJson(ParseText(generate(ParsePrompt(query)).value)));
      textSearch(TextQueryOf(params)).Returned?
      && (textSearch(TextQueryOf(params)).value.results.None? || textSearch(TextQueryOf(params)).value.results.value == [])
    ensures HandleSmartSearch(query, env, generate, parseJson, textSearch, u) == Failed(404, NotFoundMessage)
  {
  }

  /** When every call succeeds, the reply names a place drawn from the results,
      rated at least 4.0 whenever some result is, with its own full address
      when it has one, a link that names exactly that place, and the model's
      explanation. */
  lemma WishFromResults(
    query: string, env: Keys.Env, u: real, generate: Prompt -> Outcome<string>,
    parseJson: string -> Option<SearchParams>, textSearch: TextQuery -> Outcome<SearchResponse>)
    requires 0.0 <= u < 1.0
    requires Truthy(Keys.ServerGoogleKey(env)) && Truthy(env.geminiApiKey)
    requires generate(ParsePrompt(query)).Returned?
    requires var params := ParamsOrDefault(parseJson(ParseText(generate(ParsePrompt(query)).value)));
      var out := textSearch(TextQueryOf(params));
      out.Returned? && out.value.results.Some? && out.value.results.value != []
      && var place := Pick(ChoosePool(out.value.results.value, MinRating), u);
         generate(ReasonPrompt(query, place.name, place.rating)).Returned?
    ensures var params := ParamsOrDefault(parseJson(ParseText(generate(ParsePrompt(query)).value)));
      var results := textSearch(TextQueryOf(params)).value.results.value;
      var place := Pick(ChoosePool(results, MinRating), u);
      var reply := HandleSmartSearch(query, env, generate, parseJson, textSearch, u);
      reply.Wish?
      && place in results
      && (SomeRatedAtLeast(results, MinRating) ==> RatedAtLeast(place, MinRating))
      && reply.name == place.name
      && reply.rating == place.rating && reply.userRatingsTotal == place.userRatingsTotal
      && (Truthy(place.formattedAddress) ==> reply.address == place.formattedAddress)
      && (!Truthy(place.formattedAddress) ==> reply.address == place.vicinity)
      && ParseMapsUrl(reply.mapsUrl) == Some((place.name, place.placeId))
      && reply.aiReason == generate(ReasonPrompt(query, place.name, place.rating)).value
  {
    var params := ParamsOrDefault(parseJson(ParseText(generate(ParsePrompt(query)).value)));
    var results := textSearch(TextQueryOf(params)).value.results.value;
    PickedFromResults(results, MinRating, u);
    MapsUrlRoundTrip(Pick(ChoosePool(results, MinRating), u));
  }
}
