/** app/api/geocode/route.js: turns a reverse-geocoding answer into a short
    place name for the header of the page. */
module Geocode {
  import opened Js

  /** One entry of `address_components`. */
  datatype AddressComponent = AddressComponent(longName: string, types: seq<string>)

  /** One entry of `results`. */
  datatype GeocodeResult = GeocodeResult(addressComponents: seq<AddressComponent>, formattedAddress: string)

  /** The body the Geocoding service answers with. */
  datatype GeocodeResponse = GeocodeResponse(status: string, results: seq<GeocodeResult>)

  /** What the route answers: an error with its HTTP status, or a name. */
  datatype Reply =
    | Failed(httpStatus: int, message: string)
    | Located(locationName: string, fullAddress: Option<string>)

  const Level1: string := "administrative_area_level_1"
  const Level2: string := "administrative_area_level_2"
  const Level3: string := "administrative_area_level_3"
  const Level4: string := "administrative_area_level_4"
  const RouteType: string := "route"
  const LocalityType: string := "locality"
  const SubLocality1Type: string := "sublocality_level_1"
  const SubLocalityType: string := "sublocality"

  const UnknownLocation: string := "未知位置"
  const LocatedWithoutName: string := "定位完成"
  const MissingKeyMessage: string := "API Key 未設定"

  // ---------------------------------------------------------------------------
  // Collecting the four names

  /** The four names the route collects: city or county, district, village, road. */
  datatype Slots = Slots(province: string, district: string, subLocality: string, route: string)

  const NoSlots: Slots := Slots("", "", "", "")

  /** One visit of the `forEach` callback. Every assignment reads the value the
      previous one left, so a fallback sees what the preferred type just wrote. */
  function Step(s: Slots, c: AddressComponent): Slots {
    var t := c.types;
    var province := if Level1 in t then c.longName else s.province;
    var district := if Level3 in t then c.longName else s.district;
    var subLocality := if Level4 in t then c.longName else s.subLocality;
    var route := if RouteType in t then c.longName else s.route;
    var district := if district == "" && LocalityType in t && Level1 !in t then c.longName else district;
    var district := if district == "" && Level2 in t then c.longName else district;
    var subLocality := if subLocality == "" && SubLocality1Type in t then c.longName else subLocality;
    var subLocality := if subLocality == "" && SubLocalityType in t then c.longName else subLocality;
    Slots(province, district, subLocality, route)
  }

  /** The slots after visiting `cs` in order. */
  function FoldSlots(cs: seq<AddressComponent>): (r: Slots)
    ensures forall slot :: Get(r, slot) == "" || exists j :: NamedBy(cs, j, Get(r, slot))
  {
    if cs == [] then NoSlots
    else
      var init, last := cs[..|cs| - 1], cs[|cs| - 1];
      var prev := FoldSlots(init);
      var r := Step(prev, last);
      assert forall slot :: Get(r, slot) == Get(prev, slot) || Get(r, slot) == last.longName by {
        forall slot ensures Get(r, slot) == Get(prev, slot) || Get(r, slot) == last.longName {
          StepSlot(prev, last, slot);
        }
      }
      assert forall j, name :: NamedBy(init, j, name) ==> NamedBy(cs, j, name);
      assert NamedBy(cs, |cs| - 1, cs[|cs| - 1].longName);
      r
  }

  /** Component `j` of `cs` carries the name `name`. */
  predicate NamedBy(cs: seq<AddressComponent>, j: int, name: string) {
    0 <= j < |cs| && cs[j].longName == name
  }

  /** The `forEach` loop over `address_components`, four local names updated in place. */
  method FillSlots(components: seq<AddressComponent>) returns (slots: Slots)
    ensures slots == FoldSlots(components)
  {
    var adminArea1, district, subLocality, route := "", "", "", "";
    var i := 0;
    while i < |components|
      invariant 0 <= i <= |components|
      invariant Slots(adminArea1, district, subLocality, route) == FoldSlots(components[..i])
    {
      var c := components[i];
      var t := c.types;
      if Level1 in t { adminArea1 := c.longName; }
      if Level3 in t { district := c.longName; }
      if Level4 in t { subLocality := c.longName; }
      if RouteType in t { route := c.longName; }
      if district == "" && LocalityType in t && Level1 !in t { district := c.longName; }
      if district == "" && Level2 in t { district := c.longName; }
      if subLocality == "" && SubLocality1Type in t { subLocality := c.longName; }
      if subLocality == "" && SubLocalityType in t { subLocality := c.longName; }
      assert components[..i + 1][..i] == components[..i];
      i := i + 1;
    }
    assert components[..i] == components;
    slots := Slots(adminArea1, district, subLocality, route);
  }

  // ---------------------------------------------------------------------------
  // A per-slot reference definition of the same names

  datatype Slot = Province | District | SubLocality | Route

  function Get(s: Slots, slot: Slot): string {
    match slot
    case Province => s.province
    case District => s.district
    case SubLocality => s.subLocality
    case Route => s.route
  }

  /** The type that always overwrites the slot. */
  function PreferredType(slot: Slot): string {
    match slot
    case Province => Level1
    case District => Level3
    case SubLocality => Level4
    case Route => RouteType
  }

  /** The types that fill the slot only while it is still empty. */
  predicate IsFallbackFor(slot: Slot, c: AddressComponent) {
    match slot
    case District => (LocalityType in c.types && Level1 !in c.types) || Level2 in c.types
    case SubLocality => SubLocality1Type in c.types || SubLocalityType in c.types
    case _ => false
  }

  /** The index of the last component carrying type `ty`. */
  function LastWithType(cs: seq<AddressComponent>, ty: string): (r: Option<nat>)
    ensures r.Some? ==> r.value < |cs| && ty in cs[r.value].types
  {
    if cs == [] then None
    else if ty in cs[|cs| - 1].types then Some(|cs| - 1)
    else LastWithType(cs[..|cs| - 1], ty)
  }

  /** `LastWithType` finds the last such component, and finds none only when
      there is none. */
  lemma {:induction false} LastWithTypeIsLast(cs: seq<AddressComponent>, ty: string)
    ensures LastWithType(cs, ty).None? <==> forall j :: 0 <= j < |cs| ==> ty !in cs[j].types
    ensures LastWithType(cs, ty).Some? ==> forall j :: LastWithType(cs, ty).value < j < |cs| ==> ty !in cs[j].types
    decreases |cs|
  {
    if cs != [] && ty !in cs[|cs| - 1].types {
      var init := cs[..|cs| - 1];
      LastWithTypeIsLast(init, ty);
      assert forall j :: 0 <= j < |init| ==> init[j] == cs[j];
    }
  }

  /** The first non-empty name among the components that are fallbacks for the slot. */
  function FirstFallbackName(cs: seq<AddressComponent>, slot: Slot): string {
    if cs == [] then ""
    else if IsFallbackFor(slot, cs[0]) && cs[0].longName != "" then cs[0].longName
    else FirstFallbackName(cs[1..], slot)
  }

  /** The first fallback component with a non-empty name decides
      `FirstFallbackName`; with none, it is empty. */
  lemma {:induction false} FirstFallbackWins(cs: seq<AddressComponent>, slot: Slot, k: nat)
    requires k < |cs| && IsFallbackFor(slot, cs[k]) && cs[k].longName != ""
    requires forall j :: 0 <= j < k ==> !IsFallbackFor(slot, cs[j]) || cs[j].longName == ""
    ensures FirstFallbackName(cs, slot) == cs[k].longName
    decreases k
  {
    if k > 0 {
      FirstFallbackWins(cs[1..], slot, k - 1);
    }
  }

  lemma {:induction false} NoFallbackName(cs: seq<AddressComponent>, slot: Slot)
    requires forall j :: 0 <= j < |cs| ==> !IsFallbackFor(slot, cs[j]) || cs[j].longName == ""
    ensures FirstFallbackName(cs, slot) == ""
    decreases |cs|
  {
    if cs != [] {
      NoFallbackName(cs[1..], slot);
    }
  }

  /** What a slot holds after the whole list, described without the loop: the
      last component of the preferred type wins when its name is non-empty;
      otherwise the first non-empty fallback that comes after it (or anywhere,
      when no component has the preferred type). */
  function SlotRef(cs: seq<AddressComponent>, slot: Slot): string {
    SlotAfter(cs, slot, LastWithType(cs, PreferredType(slot)))
  }

  /** The slot's name once the last preferred component `last` is known. */
  function SlotAfter(cs: seq<AddressComponent>, slot: Slot, last: Option<nat>): string
    requires last.Some? ==> last.value < |cs|
  {
    match last
    case None => FirstFallbackName(cs, slot)
    case Some(i) => if cs[i].longName != "" then cs[i].longName else FirstFallbackName(cs[i + 1..], slot)
  }

  /** One step seen from a single slot: the slot only ever takes the
      component's own name; a component that is neither its preferred type nor
      a fallback for it leaves it alone; a fallback never overwrites a non-empty
      slot; a preferred type with a non-empty name always sets it. */
  lemma StepSlot(s: Slots, c: AddressComponent, slot: Slot)
    ensures var v := if PreferredType(slot) in c.types then c.longName else Get(s, slot);
      Get(Step(s, c), slot) == if v == "" && IsFallbackFor(slot, c) then c.longName else v
    ensures Get(Step(s, c), slot) == Get(s, slot) || Get(Step(s, c), slot) == c.longName
    ensures PreferredType(slot) !in c.types && !IsFallbackFor(slot, c) ==> Get(Step(s, c), slot) == Get(s, slot)
    ensures PreferredType(slot) !in c.types && Get(s, slot) != "" ==> Get(Step(s, c), slot) == Get(s, slot)
    ensures PreferredType(slot) in c.types && c.longName != "" ==> Get(Step(s, c), slot) == c.longName
  {
  }

  /** Appending a component to a list that yielded no fallback name. */
  lemma {:induction false} FirstFallbackSnoc(cs: seq<AddressComponent>, c: AddressComponent, slot: Slot)
    ensures FirstFallbackName(cs + [c], slot) ==
      if FirstFallbackName(cs, slot) == "" && IsFallbackFor(slot, c) then c.longName
      else FirstFallbackName(cs, slot)
    decreases |cs|
  {
    if cs != [] {
      assert (cs + [c])[1..] == cs[1..] + [c];
      FirstFallbackSnoc(cs[1..], c, slot);
    }
  }

  /** The reference definition obeys the same one-step rule as the loop. */
  lemma RefSnoc(init: seq<AddressComponent>, c: AddressComponent, slot: Slot)
    ensures var v := if PreferredType(slot) in c.types then c.longName else SlotRef(init, slot);
      SlotRef(init + [c], slot) == if v == "" && IsFallbackFor(slot, c) then c.longName else v
  {
    var cs := init + [c];
    var ty := PreferredType(slot);
    if ty in c.types {
      assert LastWithType(cs, ty) == Some(|init|);
      assert cs[|init| + 1..] == [];
    } else {
      assert cs[..|cs| - 1] == init;
      assert LastWithType(cs, ty) == LastWithType(init, ty);
      RefSnocOther(init, c, slot);
    }
  }

  lemma RefSnocOther(init: seq<AddressComponent>, c: AddressComponent, slot: Slot)
    requires LastWithType(init + [c], PreferredType(slot)) == LastWithType(init, PreferredType(slot))
    ensures var v := SlotRef(init, slot);
      SlotRef(init + [c], slot) == if v == "" && IsFallbackFor(slot, c) then c.longName else v
  {
    SlotAfterSnoc(init, c, slot, LastWithType(init, PreferredType(slot)));
  }

  lemma SlotAfterSnoc(init: seq<AddressComponent>, c: AddressComponent, slot: Slot, last: Option<nat>)
    requires last.Some? ==> last.value < |init|
    ensures var v := SlotAfter(init, slot, last);
      SlotAfter(init + [c], slot, last) == if v == "" && IsFallbackFor(slot, c) then c.longName else v
  {
    var cs := init + [c];
    if last.None? {
      FirstFallbackSnoc(init, c, slot);
    } else {
      var i := last.value;
      assert cs[i] == init[i];
      assert cs[i + 1..] == init[i + 1..] + [c];
      FirstFallbackSnoc(init[i + 1..], c, slot);
    }
  }

  /** The loop and the reference definition agree on every slot. */
  lemma {:induction false} FoldMatchesRef(cs: seq<AddressComponent>, slot: Slot)
    ensures Get(FoldSlots(cs), slot) == SlotRef(cs, slot)
    decreases |cs|
  {
    if cs != [] {
      var init, c := cs[..|cs| - 1], cs[|cs| - 1];
      assert cs == init + [c];
      FoldMatchesRef(init, slot);
      StepSlot(FoldSlots(init), c, slot);
      RefSnoc(init, c, slot);
    }
  }

  /** Lines 28-31: a component of the preferred type overwrites the slot, so the
      last one wins; for district and village that holds when its name is
      non-empty, since an empty name leaves room for a later fallback. */
  lemma LastPreferredWins(cs: seq<AddressComponent>, slot: Slot, i: nat)
    requires i < |cs| && PreferredType(slot) in cs[i].types
    requires forall j :: i < j < |cs| ==> PreferredType(slot) !in cs[j].types
    requires cs[i].longName != "" || slot == Province || slot == Route
    ensures Get(FoldSlots(cs), slot) == cs[i].longName
  {
    RefPreferred(cs, slot, i);
    FoldMatchesRef(cs, slot);
  }

  lemma RefPreferred(cs: seq<AddressComponent>, slot: Slot, i: nat)
    requires i < |cs| && PreferredType(slot) in cs[i].types
    requires forall j :: i < j < |cs| ==> PreferredType(slot) !in cs[j].types
    requires cs[i].longName != "" || slot == Province || slot == Route
    ensures SlotRef(cs, slot) == cs[i].longName
  {
    LastWithTypeIsLast(cs, PreferredType(slot));
    assert LastWithType(cs, PreferredType(slot)) == Some(i);
    if cs[i].longName == "" {
      NoFallbackName(cs[i + 1..], slot);
    }
  }

  /** Lines 34-37: without any component of the preferred type, the first
      fallback component with a non-empty name fills the slot, and no later
      fallback replaces it. */
  lemma FallbackFillsOnlyEmpty(cs: seq<AddressComponent>, slot: Slot, k: nat)
    requires forall j :: 0 <= j < |cs| ==> PreferredType(slot) !in cs[j].types
    requires k < |cs| && IsFallbackFor(slot, cs[k]) && cs[k].longName != ""
    requires forall j :: 0 <= j < k ==> !IsFallbackFor(slot, cs[j]) || cs[j].longName == ""
    ensures Get(FoldSlots(cs), slot) == cs[k].longName
  {
    FoldMatchesRef(cs, slot);
    LastWithTypeIsLast(cs, PreferredType(slot));
    FirstFallbackWins(cs, slot, k);
  }

  /** With neither a preferred component nor a named fallback, the slot stays empty. */
  lemma SlotStaysEmpty(cs: seq<AddressComponent>, slot: Slot)
    requires forall j :: 0 <= j < |cs| ==> PreferredType(slot) !in cs[j].types
    requires forall j :: 0 <= j < |cs| ==> !IsFallbackFor(slot, cs[j]) || cs[j].longName == ""
    ensures Get(FoldSlots(cs), slot) == ""
  {
    FoldMatchesRef(cs, slot);
    LastWithTypeIsLast(cs, PreferredType(slot));
    NoFallbackName(cs, slot);
  }

  /** A preferred component overrides an earlier fallback: a level-3 component
      after a locality still decides the district. */
  lemma PreferredOverridesEarlierFallback(before: seq<AddressComponent>, c: AddressComponent, after: seq<AddressComponent>, slot: Slot)
    requires PreferredType(slot) in c.types && c.longName != ""
    requires forall j :: 0 <= j < |after| ==> PreferredType(slot) !in after[j].types
    ensures Get(FoldSlots(before + [c] + after), slot) == c.longName
  {
    RefPreferredAfter(before, c, after, slot);
    FoldMatchesRef(before + [c] + after, slot);
  }

  lemma RefPreferredAfter(before: seq<AddressComponent>, c: AddressComponent, after: seq<AddressComponent>, slot: Slot)
    requires PreferredType(slot) in c.types && c.longName != ""
    requires forall j :: 0 <= j < |after| ==> PreferredType(slot) !in after[j].types
    ensures SlotRef(before + [c] + after, slot) == c.longName
  {
    var cs := before + [c] + after;
    assert cs[|before|] == c;
    assert forall j :: |before| < j < |cs| ==> cs[j] == after[j - |before| - 1];
    RefPreferred(cs, slot, |before|);
  }

  // ---------------------------------------------------------------------------
  // Composing the name

  // The first `replace` on line 60, pattern ^\d+\s* : a leading run of ASCII
  // digits (a postal code) and the white space after it.
  function StripPostalCode(s: string): (r: string)
    ensures |r| <= |s| && r == s[|s| - |r|..]
    ensures s == [] || !IsAsciiDigit(s[0]) ==> r == s
    ensures s != [] && IsAsciiDigit(s[0]) ==> |r| < |s| && (r == [] || !IsWhitespace(r[0]))
  {
    if s != [] && IsAsciiDigit(s[0]) then DropWhile(IsWhitespace, DropWhile(IsAsciiDigit, s)) else s
  }

  /** What `^\d+\s*` cuts: a maximal run of digits and the white space after it. */
  lemma PostalCodeIsCut(s: string)
    requires s != [] && IsAsciiDigit(s[0])
    ensures exists d :: PostalCodeCut(s, d, StripPostalCode(s))
  {
    var t := DropWhile(IsAsciiDigit, s);
    var r := DropWhile(IsWhitespace, t);
    assert StripPostalCode(s) == r;
    PostalCodeCutOf(s, t, r);
  }

  lemma PostalCodeCutOf(s: string, t: string, r: string)
    requires s != [] && IsAsciiDigit(s[0])
    requires t == DropWhile(IsAsciiDigit, s) && r == DropWhile(IsWhitespace, t)
    ensures |r| < |s| && r == s[|s| - |r|..]
    ensures exists d :: PostalCodeCut(s, d, r)
  {
    var d := |s| - |t|;
    assert 0 < d;
    assert r == s[|s| - |r|..];
    forall j | d <= j < |s| - |r|
      ensures IsWhitespace(s[j])
    {
      assert IsWhitespace(t[j - d]);
    }
    assert PostalCodeCut(s, d, r);
  }

  /** The first `|s| - |r|` characters of `s` are a run of `d > 0` ASCII digits that
      the next character does not extend, followed by white space only. */
  predicate PostalCodeCut(s: string, d: int, r: string) {
    var k := |s| - |r|;
    0 < d <= k <= |s|
    && (forall i :: 0 <= i < d ==> IsAsciiDigit(s[i]))
    && (d < |s| ==> !IsAsciiDigit(s[d]))
    && (forall i :: d <= i < k ==> IsWhitespace(s[i]))
  }

  const Taiwan: string := "台灣"

  /** `replace(/^台灣/, '')`. */
  function StripCountry(s: string): (r: string)
    ensures Taiwan <= s ==> s == Taiwan + r
    ensures !(Taiwan <= s) ==> r == s
  {
    if Taiwan <= s then s[|Taiwan|..] else s
  }

  /** `split(' ')[0]`: everything before the first space. */
  function FirstSegment(s: string): (r: string)
    ensures r <= s && Lacks(r, ' ')
    ensures |r| < |s| ==> s[|r|] == ' '
  {
    if s == [] || s[0] == ' ' then []
    else
      var r := [s[0]] + FirstSegment(s[1..]);
      assert forall i :: 1 <= i < |r| ==> r[i] == FirstSegment(s[1..])[i - 1];
      r
  }

  /** Line 60: the formatted address cut down to its first part. */
  function ShortAddress(formattedAddress: string): (r: string)
    ensures var cleaned := Trim(StripCountry(StripPostalCode(formattedAddress)));
      r <= cleaned && Lacks(r, ' ') && (r == cleaned || cleaned[|r|] == ' ')
  {
    FirstSegment(Trim(StripCountry(StripPostalCode(formattedAddress))))
  }

  /** Lines 41-61: the four strategies, in order. */
  function ComposeName(s: Slots, formattedAddress: string): (name: string)
    ensures s.district != "" ==> s.district <= name
    ensures s.district == "" && s.province != "" ==> name == s.province
    ensures s.district == "" && s.province == "" ==> name == ShortAddress(formattedAddress)
    ensures s.district != "" || s.province != "" ==> name != ""
  {
    if s.district != "" && s.subLocality != "" then
      s.district + s.subLocality
    else if s.district != "" then
      if s.route != "" then s.district + " " + s.route else s.district
    else if s.province != "" then
      s.province
    else
      ShortAddress(formattedAddress)
  }

  /** The name the route returns for one geocoding result. */
  function LocationName(components: seq<AddressComponent>, formattedAddress: string): (name: string)
    ensures name != ""
  {
    var composed := ComposeName(FoldSlots(components), formattedAddress);
    if composed == "" then UnknownLocation else composed
  }

  /** The POST handler. `reverseGeocode` stands for the Geocoding call made
      with the given key; its outcome is what `fetch` and `res.json()` give. */
  function HandleGeocode(apiKey: Option<string>, reverseGeocode: string -> Outcome<GeocodeResponse>): (reply: Reply)
    ensures !Truthy(apiKey) <==> reply == Failed(400, MissingKeyMessage)
    ensures reply.Failed? ==> reply.httpStatus == 400 || reply.httpStatus == 500
    ensures reply.Located? ==> reply.locationName != ""
    ensures Truthy(apiKey) && reverseGeocode(apiKey.value).Threw?
      ==> reply == Failed(500, reverseGeocode(apiKey.value).message)
    ensures reply.Failed? && reply.httpStatus == 500 ==> Truthy(apiKey) && reverseGeocode(apiKey.value).Threw?
  {
    if !Truthy(apiKey) then Failed(400, MissingKeyMessage)
    else
      match reverseGeocode(apiKey.value)
      case Threw(message) => Failed(500, message)
      case Returned(data) =>
        if data.status == "OK" && |data.results| > 0 then
          var result := data.results[0];
          Located(LocationName(result.addressComponents, result.formattedAddress), Some(result.formattedAddress))
        else
          Located(LocatedWithoutName, None)
  }

  // ---------------------------------------------------------------------------
  // The strategies, stated over the component list

  /** Strategy 1: district and village, joined with no separator. */
  lemma NameIsDistrictThenSubLocality(cs: seq<AddressComponent>, addr: string)
    requires SlotRef(cs, District) != "" && SlotRef(cs, SubLocality) != ""
    ensures LocationName(cs, addr) == SlotRef(cs, District) + SlotRef(cs, SubLocality)
  {
    FoldMatchesRef(cs, District);
    FoldMatchesRef(cs, SubLocality);
  }

  /** Strategy 1 for the usual Taiwanese answer: the last level-3 component and
      the last level-4 component, when both have names. */
  lemma NameFromLevels3And4(cs: seq<AddressComponent>, addr: string, i: nat, j: nat)
    requires i < |cs| && Level3 in cs[i].types && cs[i].longName != ""
    requires forall k :: i < k < |cs| ==> Level3 !in cs[k].types
    requires j < |cs| && Level4 in cs[j].types && cs[j].longName != ""
    requires forall k :: j < k < |cs| ==> Level4 !in cs[k].types
    ensures LocationName(cs, addr) == cs[i].longName + cs[j].longName
  {
    LastPreferredWins(cs, District, i);
    LastPreferredWins(cs, SubLocality, j);
  }

  /** Strategy 2: the district alone, followed by a space and the road when there is one. */
  lemma NameIsDistrictWithRoute(cs: seq<AddressComponent>, addr: string)
    requires SlotRef(cs, District) != "" && SlotRef(cs, SubLocality) == ""
    ensures SlotRef(cs, Route) != "" ==> LocationName(cs, addr) == SlotRef(cs, District) + " " + SlotRef(cs, Route)
    ensures SlotRef(cs, Route) == "" ==> LocationName(cs, addr) == SlotRef(cs, District)
  {
    FoldMatchesRef(cs, District);
    FoldMatchesRef(cs, SubLocality);
    FoldMatchesRef(cs, Route);
  }

  /** Strategy 3: no district, so the city or county. */
  lemma NameIsProvince(cs: seq<AddressComponent>, addr: string)
    requires SlotRef(cs, District) == "" && SlotRef(cs, Province) != ""
    ensures LocationName(cs, addr) == SlotRef(cs, Province)
  {
    FoldMatchesRef(cs, District);
    FoldMatchesRef(cs, Province);
  }

  /** Strategy 4 and the sentinel: the first part of the cleaned-up formatted
      address, or "未知位置" when that part is empty. */
  lemma NameFromFormattedAddress(cs: seq<AddressComponent>, addr: string)
    requires SlotRef(cs, District) == "" && SlotRef(cs, Province) == ""
    ensures ShortAddress(addr) != "" ==> LocationName(cs, addr) == ShortAddress(addr)
    ensures ShortAddress(addr) == "" ==> LocationName(cs, addr) == UnknownLocation
  {
    FoldMatchesRef(cs, District);
    FoldMatchesRef(cs, Province);
  }

  /** No geocoding request is made without a key: the reply does not depend on the service. */
  lemma MissingKeyMakesNoCall(apiKey: Option<string>, g1: string -> Outcome<GeocodeResponse>, g2: string -> Outcome<GeocodeResponse>)
    requires !Truthy(apiKey)
    ensures HandleGeocode(apiKey, g1) == HandleGeocode(apiKey, g2) == Failed(400, MissingKeyMessage)
  {
  }

  /** A status other than OK, or no results, gives "定位完成" and no full address. */
  lemma NoResultGivesPlainSentinel(apiKey: Option<string>, g: string -> Outcome<GeocodeResponse>)
    requires Truthy(apiKey) && g(apiKey.value).Returned?
    requires g(apiKey.value).value.status != "OK" || g(apiKey.value).value.results == []
    ensures HandleGeocode(apiKey, g) == Located(LocatedWithoutName, None)
  {
  }

  /** With a usable answer the route names the first result and returns its full address. */
  lemma ResultNamed(apiKey: Option<string>, g: string -> Outcome<GeocodeResponse>)
    requires Truthy(apiKey) && g(apiKey.value).Returned?
    requires g(apiKey.value).value.status == "OK" && g(apiKey.value).value.results != []
    ensures var r := g(apiKey.value).value.results[0];
      HandleGeocode(apiKey, g) == Located(LocationName(r.addressComponents, r.formattedAddress), Some(r.formattedAddress))
  {
  }
}
