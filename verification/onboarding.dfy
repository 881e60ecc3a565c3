/**
 * The bot's conversation as a transition function on the stored profile:
 * the onboarding steps of the text handler, the `edit:*` callbacks and
 * `/reset`, with every call to a language model replaced by its outcome
 * given as a parameter. Also the `firstFlat` helper of the profile view and
 * the offset/limit clamp of the `/api/users` endpoint.
 */
module Onboarding {
  import opened Wrappers
  import opened Text
  import DateParser = Dates

  /** The `step` field of a user; `Unknown` stands for any other stored string. */
  datatype Step =
    | Dest | DestCity | DestCountry | Dates
    | TastesMusic | TastesCuisine | TastesArt | TastesCinema | Budget | Done
    | EditLocation | EditMusic | EditCuisine | EditArt
    | Unknown(name: string)

  /** One element of a normalised taste list; `category` is the JSON field `type`. */
  datatype Item = Item(genre: Option<string>, category: Option<string>, additional: Option<string>)

  /** A normalised taste as stored: a JSON array (its elements may be null) or some other value. */
  datatype Taste = Items(items: seq<Option<Item>>) | NotAList

  /** The profile fields the conversation reads and writes. */
  datatype Profile = Profile(
    step: Step,
    destination: Option<string>, country: Option<string>, city: Option<string>,
    dates: Option<DateParser.Range>, budget: Option<string>,
    music: Option<Taste>, cuisine: Option<Taste>, art: Option<Taste>, cinema: Option<Taste>,
    musicRaw: Option<string>, cuisineRaw: Option<string>, artRaw: Option<string>, cinemaRaw: Option<string>)

  /** What `normalizeLocation` returns. */
  datatype Location = Location(
    city: Option<string>, country: Option<string>, normalized: Option<string>,
    needsCity: bool, needsCountry: bool)

  /** The outcome of an awaited call: its value, or an exception. */
  datatype Outcome<T> = Returned(value: T) | Threw

  /** The outcomes the external calls of one message would have. */
  datatype External = External(location: Outcome<Location>, taste: Outcome<Taste>)

  /** The four taste questions. */
  datatype TasteKind = Music | Cuisine | Art | Cinema

  /** JavaScript truthiness of a possibly missing string. */
  predicate Truthy(s: Option<string>) {
    s.Some? && s.value != ""
  }

  /** `a || b` on possibly missing strings. */
  function Or(a: Option<string>, b: Option<string>): (r: Option<string>)
    ensures Truthy(r) <==> Truthy(a) || Truthy(b)
  {
    if Truthy(a) then a else b
  }

  /** `a || fallback` where the fallback is a string. */
  function OrText(a: Option<string>, fallback: string): (r: string)
    ensures r == fallback || (Truthy(a) && r == a.value)
  {
    if Truthy(a) then a.value else fallback
  }

  /** `city && country ? `${city}, ${country}` : normalized || text` */
  function Destination(city: Option<string>, country: Option<string>, normalized: Option<string>, text: string): string {
    if Truthy(city) && Truthy(country) then city.value + ", " + country.value else OrText(normalized, text)
  }

  /** A user as `getOrCreateUser` or `/start` creates them: step `dest`, nothing filled in. */
  const Fresh := Profile(Dest, None, None, None, None, None, None, None, None, None, None, None, None, None)

  // ---------------------------------------------------------------------
  // The text handler.
  // ---------------------------------------------------------------------

  /** The location the handler works with when `normalizeLocation` throws in `dest` or `edit_location`. */
  function LocationOr(o: Outcome<Location>, fallback: Location): Location {
    match o
    case Returned(l) => l
    case Threw => fallback
  }

  const NoLocation := Location(None, None, None, false, false)

  /**
   * The location answer of `dest` and `edit_location`: ask for the city when
   * only a country is known, for the country when only a city is known,
   * otherwise store the place and move on to `next`.
   */
  function Locate(p: Profile, text: string, loc: Location, askCity: Step, askCountry: Step, next: Step): (r: Profile)
    ensures loc.needsCity && Truthy(loc.country) ==> r == p.(country := loc.country, city := None, destination := None, step := askCity)
    ensures !(loc.needsCity && Truthy(loc.country)) && loc.needsCountry && Truthy(loc.city) ==>
      r == p.(city := loc.city, country := None, destination := None, step := askCountry)
    ensures !(loc.needsCity && Truthy(loc.country)) && !(loc.needsCountry && Truthy(loc.city)) ==>
      && r.step == next
      && r.city == (if Truthy(loc.city) then loc.city else None)
      && r.country == (if Truthy(loc.country) then loc.country else None)
      && r.destination == Some(
           if Truthy(loc.city) && Truthy(loc.country) then loc.city.value + ", " + loc.country.value
           else if Truthy(loc.normalized) then loc.normalized.value
           else text)
      && r == p.(city := r.city, country := r.country, destination := r.destination, step := next)
  {
    if loc.needsCity && Truthy(loc.country) then
      p.(country := loc.country, city := None, destination := None, step := askCity)
    else if loc.needsCountry && Truthy(loc.city) then
      p.(city := loc.city, country := None, destination := None, step := askCountry)
    else
      var city := Or(loc.city, None);
      var country := Or(loc.country, None);
      p.(city := city, country := country, destination := Some(Destination(city, country, loc.normalized, text)), step := next)
  }

  /**
   * `dest_city`: the answer completes the country asked about. The city the
   * location call recognised wins over the typed text; the stored country wins
   * over the recognised one.
   */
  function AnswerCity(p: Profile, text: string, o: Outcome<Location>): (r: Profile)
    ensures r.step == Dates
    ensures r.city == Some(if o.Returned? && Truthy(o.value.city) then o.value.city.value else text)
    ensures r.country ==
      if Truthy(p.country) then p.country
      else if o.Returned? && Truthy(o.value.country) then o.value.country
      else None
    ensures r.destination == Some(
      if Truthy(r.city) && Truthy(r.country) then r.city.value + ", " + r.country.value
      else if o.Returned? && Truthy(o.value.normalized) then o.value.normalized.value
      else text)
    ensures r == p.(city := r.city, country := r.country, destination := r.destination, step := Dates)
  {
    var guess := LocationOr(o, Location(None, p.country, None, false, false));
    var city := Some(OrText(guess.city, text));
    var country := Or(p.country, Or(guess.country, None));
    p.(city := city, country := country, destination := Some(Destination(city, country, guess.normalized, text)), step := Dates)
  }

  /**
   * `dest_country`: the answer completes the city asked about. The country the
   * location call recognised wins over the typed text; the stored city wins
   * over the recognised one.
   */
  function AnswerCountry(p: Profile, text: string, o: Outcome<Location>): (r: Profile)
    ensures r.step == Dates
    ensures r.country == Some(if o.Returned? && Truthy(o.value.country) then o.value.country.value else text)
    ensures r.city ==
      if Truthy(p.city) then p.city
      else if o.Returned? && Truthy(o.value.city) then o.value.city
      else None
    ensures r.destination == Some(
      if Truthy(r.city) && Truthy(r.country) then r.city.value + ", " + r.country.value
      else if o.Returned? && Truthy(o.value.normalized) then o.value.normalized.value
      else text)
    ensures r == p.(city := r.city, country := r.country, destination := r.destination, step := Dates)
  {
    var guess := LocationOr(o, Location(p.city, None, None, false, false));
    var city := Or(p.city, Or(guess.city, None));
    var country := Some(OrText(guess.country, text));
    p.(city := city, country := country, destination := Some(Destination(city, country, guess.normalized, text)), step := Dates)
  }

  /**
   * A taste answer: the raw text is always stored, the normalised value only
   * when normalisation returned one.
   */
  function RecordTaste(p: Profile, kind: TasteKind, text: string, o: Outcome<Taste>): (r: Profile)
    ensures kind == Music ==>
      r == p.(musicRaw := Some(text), music := if o.Returned? then Some(o.value) else p.music)
    ensures kind == Cuisine ==>
      r == p.(cuisineRaw := Some(text), cuisine := if o.Returned? then Some(o.value) else p.cuisine)
    ensures kind == Art ==>
      r == p.(artRaw := Some(text), art := if o.Returned? then Some(o.value) else p.art)
    ensures kind == Cinema ==>
      r == p.(cinemaRaw := Some(text), cinema := if o.Returned? then Some(o.value) else p.cinema)
    ensures r.step == p.step && r.dates == p.dates && r.budget == p.budget && r.destination == p.destination
  {
    match kind
    case Music => p.(musicRaw := Some(text), music := if o.Returned? then Some(o.value) else p.music)
    case Cuisine => p.(cuisineRaw := Some(text), cuisine := if o.Returned? then Some(o.value) else p.cuisine)
    case Art => p.(artRaw := Some(text), art := if o.Returned? then Some(o.value) else p.art)
    case Cinema => p.(cinemaRaw := Some(text), cinema := if o.Returned? then Some(o.value) else p.cinema)
  }

  /** A message starting with `/` is a command, which the text handler ignores. */
  predicate IsCommand(text: string) {
    text != [] && text[0] == '/'
  }

  /** The `bot.on('text')` handler as a change of the stored profile. */
  function OnText(p: Profile, message: string, currentYear: int, ext: External): (r: Profile)
    ensures IsCommand(Trim(message)) ==> r == p
    ensures p.step == Done || p.step.Unknown? ==> r == p
  {
    var text := Trim(message);
    if IsCommand(text) then p
    else
      match p.step
      case EditLocation => Locate(p, text, LocationOr(ext.location, NoLocation), EditLocation, EditLocation, Done)
      case EditMusic => RecordTaste(p, Music, text, ext.taste).(step := Done)
      case EditCuisine => RecordTaste(p, Cuisine, text, ext.taste).(step := Done)
      case EditArt => RecordTaste(p, Art, text, ext.taste).(step := Done)
      case Dest => Locate(p, text, LocationOr(ext.location, NoLocation), DestCity, DestCountry, Dates)
      case DestCity => AnswerCity(p, text, ext.location)
      case DestCountry => AnswerCountry(p, text, ext.location)
      case Dates =>
        (match DateParser.ParseDateRangeFlexible(text, currentYear)
         case None => p
         case Some(range) => p.(dates := Some(range), step := TastesMusic))
      case TastesMusic => RecordTaste(p, Music, text, ext.taste).(step := TastesCuisine)
      case TastesCuisine => RecordTaste(p, Cuisine, text, ext.taste).(step := TastesArt)
      case TastesArt => RecordTaste(p, Art, text, ext.taste).(step := TastesCinema)
      case TastesCinema => RecordTaste(p, Cinema, text, ext.taste).(step := Budget)
      case Budget => p.(budget := Some(text), step := Done)
      case Done => p
      case Unknown(_) => p
  }

  /** The callback data of the six buttons of the edit menu. */
  const EditButtons: set<string> :=
    {"edit:location", "edit:music", "edit:cuisine", "edit:art", "edit:cancel", "edit:back"}

  /** The callback-query handler: the `edit:*` buttons. */
  function OnCallback(p: Profile, data: string): (r: Profile)
    ensures r == p || r == p.(step := r.step)
    ensures data == "edit:location" ==> r == p.(step := EditLocation)
    ensures data == "edit:music" ==> r == p.(step := EditMusic)
    ensures data == "edit:cuisine" ==> r == p.(step := EditCuisine)
    ensures data == "edit:art" ==> r == p.(step := EditArt)
    ensures data == "edit:cancel" || data == "edit:back" ==> r == p.(step := Done)
    ensures data !in EditButtons ==> r == p
  {
    if data == "edit:location" then p.(step := EditLocation)
    else if data == "edit:music" then p.(step := EditMusic)
    else if data == "edit:cuisine" then p.(step := EditCuisine)
    else if data == "edit:art" then p.(step := EditArt)
    else if data == "edit:cancel" || data == "edit:back" then p.(step := Done)
    else p
  }

  /**
   * A taste button followed by a (non-command) answer stores that one taste and
   * ends at `done`, leaving every other field as it was before the button.
   */
  lemma {:induction false} EditTasteRoundTrip(p: Profile, message: string, currentYear: int, ext: External)
    requires !IsCommand(Trim(message))
    ensures var o := ext.taste;
      OnText(OnCallback(p, "edit:music"), message, currentYear, ext)
      == p.(musicRaw := Some(Trim(message)), music := if o.Returned? then Some(o.value) else p.music, step := Done)
    ensures var o := ext.taste;
      OnText(OnCallback(p, "edit:cuisine"), message, currentYear, ext)
      == p.(cuisineRaw := Some(Trim(message)), cuisine := if o.Returned? then Some(o.value) else p.cuisine, step := Done)
    ensures var o := ext.taste;
      OnText(OnCallback(p, "edit:art"), message, currentYear, ext)
      == p.(artRaw := Some(Trim(message)), art := if o.Returned? then Some(o.value) else p.art, step := Done)
  {
  }

  /** The location button followed by an answer re-runs the destination lookup and ends at `done`. */
  lemma {:induction false} EditLocationRoundTrip(p: Profile, message: string, currentYear: int, ext: External)
    requires !IsCommand(Trim(message))
    ensures OnText(OnCallback(p, "edit:location"), message, currentYear, ext)
      == Locate(p.(step := EditLocation), Trim(message), LocationOr(ext.location, NoLocation), EditLocation, EditLocation, Done)
  {
  }

  /** `/reset`: back to `dest` with every listed field cleared. */
  function Reset(p: Profile): (r: Profile)
    ensures r.step == Dest
    ensures r.destination.None? && r.country.None? && r.city.None? && r.dates.None? && r.budget.None?
    ensures r.music.None? && r.cuisine.None? && r.art.None? && r.cinema.None?
    ensures r.musicRaw.None? && r.cuisineRaw.None? && r.artRaw.None? && r.cinemaRaw.None?
  {
    p.(step := Dest, destination := None, country := None, city := None, dates := None, budget := None,
       music := None, cuisine := None, art := None, cinema := None,
       musicRaw := None, cuisineRaw := None, artRaw := None, cinemaRaw := None)
  }

  // ---------------------------------------------------------------------
  // Properties of the conversation.
  // ---------------------------------------------------------------------

  /** The onboarding order, written down independently of the handler. */
  function Successors(s: Step): set<Step> {
    match s
    case Dest => {DestCity, DestCountry, Dates}
    case DestCity => {Dates}
    case DestCountry => {Dates}
    case Dates => {TastesMusic}
    case TastesMusic => {TastesCuisine}
    case TastesCuisine => {TastesArt}
    case TastesArt => {TastesCinema}
    case TastesCinema => {Budget}
    case Budget => {Done}
    case _ => {}
  }

  predicate IsOnboarding(s: Step) {
    s in {Dest, DestCity, DestCountry, Dates, TastesMusic, TastesCuisine, TastesArt, TastesCinema, Budget}
  }

  /**
   * Every answer in an onboarding step moves to one of its successors, except
   * a date answer that does not parse, which leaves the step where it was.
   */
  lemma FollowsOrder(p: Profile, message: string, currentYear: int, ext: External)
    requires IsOnboarding(p.step) && !IsCommand(Trim(message))
    ensures var r := OnText(p, message, currentYear, ext);
      r.step in Successors(p.step)
      || (p.step == Dates && r == p && DateParser.ParseDateRangeFlexible(Trim(message), currentYear).None?)
  {
  }

  /** Which of its three successors `dest` goes to, by what the location answer says. */
  lemma DestBranches(p: Profile, message: string, currentYear: int, ext: External)
    requires p.step == Dest && !IsCommand(Trim(message))
    ensures var loc := LocationOr(ext.location, NoLocation); var r := OnText(p, message, currentYear, ext);
      && (r.step == DestCity <==> loc.needsCity && Truthy(loc.country))
      && (r.step == DestCountry <==> !(loc.needsCity && Truthy(loc.country)) && loc.needsCountry && Truthy(loc.city))
      && (r.step == Dates <==> !(loc.needsCity && Truthy(loc.country)) && !(loc.needsCountry && Truthy(loc.city)))
  {
  }

  /** A date answer that does not parse changes nothing: the step stays `dates`. */
  lemma UnparsedDatesStay(p: Profile, message: string, currentYear: int, ext: External)
    requires p.step == Dates && !IsCommand(Trim(message))
    requires DateParser.ParseDateRangeFlexible(Trim(message), currentYear).None?
    ensures OnText(p, message, currentYear, ext) == p
  {
  }

  /** A parsed date range is stored as it is, the step becomes `tastes_music`, and nothing else changes. */
  lemma ParsedDatesStored(p: Profile, message: string, currentYear: int, ext: External)
    requires p.step == Dates && !IsCommand(Trim(message))
    requires DateParser.ParseDateRangeFlexible(Trim(message), currentYear).Some?
    ensures var r := OnText(p, message, currentYear, ext);
      && r.dates == DateParser.ParseDateRangeFlexible(Trim(message), currentYear)
      && r.step == TastesMusic
      && r == p.(dates := r.dates, step := TastesMusic)
      && LexLe(r.dates.value.start, r.dates.value.end)
  {
  }

  /** The taste a taste step asks about, and where it goes next. */
  function TasteOf(s: Step): Option<(TasteKind, Step)> {
    match s
    case TastesMusic => Some((Music, TastesCuisine))
    case TastesCuisine => Some((Cuisine, TastesArt))
    case TastesArt => Some((Art, TastesCinema))
    case TastesCinema => Some((Cinema, Budget))
    case EditMusic => Some((Music, Done))
    case EditCuisine => Some((Cuisine, Done))
    case EditArt => Some((Art, Done))
    case _ => None
  }

  /**
   * A taste step advances whether normalisation returned or threw, and the raw
   * text is stored on both paths.
   */
  lemma TastesAdvance(p: Profile, message: string, currentYear: int, ext: External)
    requires TasteOf(p.step).Some? && !IsCommand(Trim(message))
    ensures var (kind, next) := TasteOf(p.step).value; var r := OnText(p, message, currentYear, ext);
      && r.step == next
      && r == RecordTaste(p, kind, Trim(message), ext.taste).(step := next)
      && (kind == Music ==> r.musicRaw == Some(Trim(message)))
      && (kind == Cuisine ==> r.cuisineRaw == Some(Trim(message)))
      && (kind == Art ==> r.artRaw == Some(Trim(message)))
      && (kind == Cinema ==> r.cinemaRaw == Some(Trim(message)))
  {
  }

  /** Editing a location ends in `done` unless the answer needs a city or a country, when it asks again. */
  lemma EditLocationEnds(p: Profile, message: string, currentYear: int, ext: External)
    requires p.step == EditLocation && !IsCommand(Trim(message))
    ensures var loc := LocationOr(ext.location, NoLocation); var r := OnText(p, message, currentYear, ext);
      && (r.step == EditLocation <==> (loc.needsCity && Truthy(loc.country)) || (loc.needsCountry && Truthy(loc.city)))
      && (r.step == Done <==> !(r.step == EditLocation))
  {
  }

  /** Every edit answer and the cancel and back buttons end in `done`. */
  lemma EditsEndDone(p: Profile, message: string, currentYear: int, ext: External)
    requires p.step in {EditMusic, EditCuisine, EditArt} && !IsCommand(Trim(message))
    ensures OnText(p, message, currentYear, ext).step == Done
    ensures OnCallback(p, "edit:cancel").step == Done && OnCallback(p, "edit:back").step == Done
  {
  }

  /** `/reset` leaves exactly the profile of a newly created user, whatever was stored. */
  lemma ResetIsFresh(p: Profile)
    ensures Reset(p) == Fresh
  {
  }

  /** The budget answer finishes onboarding with the text as the budget. */
  lemma BudgetFinishes(p: Profile, message: string, currentYear: int, ext: External)
    requires p.step == Budget && !IsCommand(Trim(message))
    ensures OnText(p, message, currentYear, ext) == p.(budget := Some(Trim(message)), step := Done)
  {
  }

  // ---------------------------------------------------------------------
  // `firstFlat`.
  // ---------------------------------------------------------------------

  datatype Flat = Flat(main: Option<string>, add: Option<string>)

  const EmptyItem := Item(None, None, None)

  /** `firstFlat(arr, kind)`: `genre` or `type` and `additional` of the first element. */
  function FirstFlat(arr: Taste, kind: string): (r: Flat)
    ensures arr.NotAList? || arr.items == [] || (kind != "genre" && kind != "type") ==> r == Flat(None, None)
    ensures arr.Items? && arr.items != [] && kind == "genre" ==> r == Flat(arr.items[0].GetOr(EmptyItem).genre, arr.items[0].GetOr(EmptyItem).additional)
    ensures arr.Items? && arr.items != [] && kind == "type" ==> r == Flat(arr.items[0].GetOr(EmptyItem).category, arr.items[0].GetOr(EmptyItem).additional)
  {
    match arr
    case NotAList => Flat(None, None)
    case Items(items) =>
      if items == [] then Flat(None, None)
      else
        var item := items[0].GetOr(EmptyItem);
        if kind == "genre" then Flat(item.genre, item.additional)
        else if kind == "type" then Flat(item.category, item.additional)
        else Flat(None, None)
  }

  /** Only the first element matters; a null first element reads as all-null. */
  lemma FirstFlatFirstOnly(x: Option<Item>, rest: seq<Option<Item>>, kind: string)
    ensures FirstFlat(Items([x] + rest), kind) == FirstFlat(Items([x]), kind)
    ensures x.None? ==> FirstFlat(Items([x] + rest), kind) == Flat(None, None)
  {
  }

  // ---------------------------------------------------------------------
  // `/api/users` paging.
  // ---------------------------------------------------------------------

  /** A JavaScript number as `parseInt` can return it. */
  datatype Number = NaN | Int(value: int)

  /** The longest run of digits at the start of `s`. */
  function DigitPrefix(s: string): (n: nat)
    ensures n <= |s|
    ensures forall i :: 0 <= i < n ==> IsDigit(s[i])
    ensures n < |s| ==> !IsDigit(s[n])
  {
    if s != [] && IsDigit(s[0]) then 1 + DigitPrefix(s[1..]) else 0
  }

  /**
   * `parseInt(s, 10)`: leading white space skipped, an optional sign, then as
   * many decimal digits as there are; `NaN` when there are none.
   */
  function ParseInt(s: string): (r: Number)
    ensures r.Int? ==> exists i :: 0 <= i < |s| && IsDigit(s[i])
    ensures s != [] && !IsSpace(s[0]) && !IsDigit(s[0]) && s[0] != '-' && s[0] != '+' ==> r.NaN?
    ensures s != [] && IsDigit(s[0]) ==> r.Int? && r.value >= 0
    ensures Blank(s) ==> r.NaN?
  {
    var t := s[LeadingSpaces(s)..];
    var negative := t != [] && t[0] == '-';
    var u := if t != [] && (t[0] == '-' || t[0] == '+') then t[1..] else t;
    var n := DigitPrefix(u);
    if n == 0 then NaN
    else
      assert IsDigit(u[0]);
      var v: int := DigitsValue(u[..n]);
      Int(if negative then -v else v)
  }

  /** `Math.max(x, lo)`: `NaN` stays `NaN`. */
  function AtLeast(x: Number, lo: int): (r: Number)
    ensures r.NaN? <==> x.NaN?
    ensures r.Int? ==> r.value >= lo && (r.value == lo || r.value == x.value)
  {
    match x
    case NaN => NaN
    case Int(v) => Int(if v >= lo then v else lo)
  }

  /** `Math.min(x, hi)`: `NaN` stays `NaN`. */
  function AtMost(x: Number, hi: int): (r: Number)
    ensures r.NaN? <==> x.NaN?
    ensures r.Int? ==> r.value <= hi && (r.value == hi || r.value == x.value)
  {
    match x
    case NaN => NaN
    case Int(v) => Int(if v <= hi then v else hi)
  }

  /** The offset and limit `/api/users` passes to the query, from the query-string values as written. */
  function Paging(offsetParam: Option<string>, limitParam: Option<string>): (r: (Number, Number))
    ensures r.0.Int? ==> r.0.value >= 0
    ensures r.1.Int? ==> 1 <= r.1.value <= 100
    ensures r.0.NaN? <==> ParseInt(OrText(offsetParam, "0")).NaN?
    ensures r.1.NaN? <==> ParseInt(OrText(limitParam, "20")).NaN?
  {
    (AtLeast(ParseInt(OrText(offsetParam, "0")), 0), AtMost(AtLeast(ParseInt(OrText(limitParam, "20")), 1), 100))
  }

  /** `parseInt` reads back what `String` printed. */
  lemma ParseIntOfPrinted(i: int)
    ensures ParseInt(IntToString(i)) == Int(i)
  {
    var d := NatToString(if i < 0 then -i else i);
    assert !IsSpace(d[0]) && !IsDigit('-');
    DigitsPrefixAll(d);
    DigitsValueOfNatToString(if i < 0 then -i else i);
    assert d[..|d|] == d;
    if i < 0 {
      var s := "-" + d;
      assert s[0] == '-' && !IsSpace(s[0]);
      assert LeadingSpaces(s) == 0;
      assert s[0..][1..] == d;
    } else {
      assert LeadingSpaces(d) == 0;
      assert d[0..] == d;
    }
  }

  lemma DigitsPrefixAll(d: string)
    requires IsDigits(d)
    ensures DigitPrefix(d) == |d|
  {
    if |d| > 1 {
      DigitsPrefixAll(d[1..]);
    }
  }

  /** For integer query values the offset is the value floored at 0 and the limit is clamped to 1..100. */
  lemma PagingOfIntegers(offset: int, limit: int)
    ensures var r := Paging(Some(IntToString(offset)), Some(IntToString(limit)));
      && r.0 == Int(if offset >= 0 then offset else 0)
      && r.1 == Int(if limit < 1 then 1 else if limit > 100 then 100 else limit)
  {
    ParseIntOfPrinted(offset);
    ParseIntOfPrinted(limit);
    NatToStringLength(if offset < 0 then -offset else offset);
    NatToStringLength(if limit < 0 then -limit else limit);
  }

  /** Missing or empty query values give the defaults 0 and 20. */
  lemma PagingDefaults()
    ensures Paging(None, None) == (Int(0), Int(20)) && Paging(Some(""), Some("")) == (Int(0), Int(20))
  {
    ParseIntOfPrinted(0);
    ParseIntOfPrinted(20);
    assert IntToString(0) == "0";
    assert IntToString(20) == "20";
  }

  /** As written, a query value without digits reaches the database query as `NaN`. */
  lemma PagingPassesNaN()
    ensures Paging(Some("abc"), Some("all")) == (NaN, NaN)
  {
    assert "abc"[0] == 'a' && !IsSpace('a') && !IsDigit('a');
    assert "all"[0] == 'a';
    assert LeadingSpaces("abc") == 0 && LeadingSpaces("all") == 0;
    assert "abc"[0..] == "abc" && "all"[0..] == "all";
  }

  /** Paging with `NaN` replaced by the defaults the `|| '0'` and `|| '20'` fallbacks aim at. */
  function PagingDefaulted(offsetParam: Option<string>, limitParam: Option<string>): (r: (int, int))
    ensures r.0 >= 0 && 1 <= r.1 <= 100
    ensures Paging(offsetParam, limitParam).0.Int? ==> r.0 == Paging(offsetParam, limitParam).0.value
    ensures Paging(offsetParam, limitParam).1.Int? ==> r.1 == Paging(offsetParam, limitParam).1.value
    ensures Paging(offsetParam, limitParam).0.NaN? ==> r.0 == 0
    ensures Paging(offsetParam, limitParam).1.NaN? ==> r.1 == 20
  {
    var (offset, limit) := Paging(offsetParam, limitParam);
    (if offset.Int? then offset.value else 0, if limit.Int? then limit.value else 20)
  }
}
