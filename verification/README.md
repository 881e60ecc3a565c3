# ai-city-guide: the date-range parser and the conversation core, in Dafny

ai-city-guide is a Telegram bot. It asks a traveller where they are going, when, what they like and
what they can spend. Then it proposes events. This project models the deterministic core of the bot
and proves properties of it:

- **The free-text date-range parser** (`src/dates.js`), the main subject. A message such as
  "12-18 октября 2025", "с 25 октября до 4 ноября", "2025-10-12 — 2025-10-18" or "12.10-18.10" becomes
  a pair of dates printed `year-MM-DD`, or nothing. The year is printed as a number, so it has four
  digits only when it lies in 1000..9999. The model covers:
  - the month table and month resolution;
  - `pad`, `toISO` and `parseISOParts`;
  - the five single-date shapes of `parseOneDate`;
  - `compareOrder`, `splitByFirstDash` and the same-month shorthand;
  - every branch of `parseDateRangeFlexible`: normalisation, ISO pairs, the spaced dash, the compact
    `D-D.M[.Y]` form, the year hint and the two-way backfill.
  - Anchored regular expressions are written as sequences of atoms (`Pattern`). A generic anchored
    matcher reads them with the source's greedy behaviour. The unanchored searches (the ISO pair, the
    `20dd` year hint and `" - "`) are leftmost scans over the text.
  - The current year is the parameter `currentYear`, because the source reads the clock.
- **The UI screen stack** (`src/state.js`). This is a per-user record holding the last prompt id, a
  stack of menu screens and the spinner message id. `getUI`, `setUI`, `resetUI`, `pushScreen` and
  `popScreen` are functions from the old map to the new one.
- **The conversation** (`src/index.js`). The text handler is a function from the stored profile and one
  message to the new profile. It covers the onboarding steps `dest`, `dest_city`, `dest_country`,
  `dates`, the four taste steps and `budget`, plus the `edit_*` steps. The model also covers:
  - the `edit:*` callback buttons and `/reset`;
  - `firstFlat` of the profile view;
  - the offset/limit clamp of `/api/users`, with a JavaScript-faithful `parseInt` and `Math.max`/`Math.min`
    that propagate `NaN`.
  - The outcomes of the language-model calls (`normalizeLocation`, `normalizeMusic` and the others) are
    parameters. Each is a value or "threw".
- **Recommendation post-processing** (`src/recs.js`):
  - the tag pipeline: concatenation, `String(tag || '').trim().toLowerCase()`, dropping empty tags,
    first-occurrence de-duplication and the cap of 20;
  - the loop that keeps the first candidate per `title|start` key and stops at `limit`.

The modules are:
- `Wrappers`: `Option`.
- `Text`: white space, `trim`, ASCII/Cyrillic lower-casing, decimal digits, lexicographic order.
- `Pattern`: atoms, `Match` and its completeness.
- `Search`: the first position satisfying a predicate.
- `Months`, `IsoDate`, `Normalization` and `Dates`: the parser.
- `DateFacts`: end-to-end theorems about the parser.
- `UiState`, `Onboarding` and `Recs`.

Where the code and its design notes disagree, the model follows the code:
- A lone ISO date such as `2025-10-12` is not a one-day range. The hyphen split cuts it at its first
  hyphen, and neither side then parses (`DateFacts.LoneIsoDateFails`).
- The preposition `с` is removed wherever it is followed by white space, not only at the start.
  So "с " alone normalises to the empty string (`Normalization.StripFromAnywhere`,
  `Normalization.FromAloneVanishes`).
- Every `to` is replaced, even inside words. So "october" becomes "oc-ber", and no English month
  written with `to` reaches the parser intact (`Normalization.OctoberRewritten`,
  `Normalization.NoOctoberSurvives`).
- The ISO-compact branch (`\d{4}-\d{2}-\d{2}-\d{4}-\d{2}-\d{2}`) can never fire, because every text it
  matches is already matched by the ISO-pair pattern (`Dates.IsoCompactUnreachable`).
- Borrowing a year and month from the other endpoint re-parses that endpoint with `parseISOParts`.
  A date whose year has fewer than four significant digits (`0999`) therefore cannot lend them, and
  the range fails (`DateFacts.NamedMonthRange`, `DateFacts.BackfillRules`).
- The year of the same-month shorthand (`12 18 октября 2025`) must be `20xx`. Any other four digits
  make the shorthand fail.
- The result is not always ISO 8601. A typed year is read as a number and printed without leading
  zeros, so "12.10.0999" gives the one-day range `999-10-12` (`DateFacts.ShortYearUnpadded`,
  `IsoDate.ToIsoRoundTrip`).

## Model

| member | source | states |
|---|---|---|
| Months.Lookup | src/dates.js:6-69 | every month key (full, genitive, three-letter, in Russian and English) maps to a month in 1..12, the same one its stem names |
| Months.PrefixClosed | src/dates.js:6-69 | every key has at least three letters, and its three-letter prefix resolves to the same month |
| Months.ResolveMonth | src/dates.js:113-117 | a resolved month is in 1..12 |
| Months.ResolveByStem | src/dates.js:113-117 | resolution lower-cases the word and then finds the month by exact key or by three-letter prefix, which is the same as asking which month's stem it starts with |
| IsoDate.Pad | src/dates.js:71-73 | the padded number is digits only, and for values below 100 it is two digits that read back as the number |
| IsoDate.PadRoundTrip | src/dates.js:71-73 | padding the value of any two-digit string gives that string back |
| IsoDate.ToISO | src/dates.js:74-76 | the result ends in `-MM-DD`, whose digits read back as the month and the day |
| IsoDate.ParseIsoParts | src/dates.js:78-82 | it returns parts exactly when the string is `DDDD-DD-DD` |
| IsoDate.ToIsoRoundTrip | src/dates.js:74-82 | a printed date is ISO-shaped exactly when its year has four digits, and then it parses back to the same year, month and day |
| IsoDate.ParseThenPrint | src/dates.js:74-82 | re-printing a parsed ISO string gives it back exactly when its year does not start with 0 |
| IsoDate.PadOrder | src/dates.js:71-73 | padded numbers compare as strings the way the numbers compare |
| IsoDate.TwoDigitOrder | src/dates.js:71-73 | two-digit strings compare lexicographically as their values do |
| IsoDate.SameMonthOrder | src/dates.js:74-76 | two dates of one year and month compare as strings the way their days compare |
| Dates.CompareOrder | src/dates.js:119-121 | the result holds the same two strings, earlier first in string order |
| Dates.CompareOrderSymmetric | src/dates.js:119-121 | the order of the arguments does not matter |
| Text.LexLeTotal | src/dates.js:119-121 | any two strings are comparable by `<=` |
| Text.LexLeAntisymmetric | src/dates.js:119-121 | strings each `<=` the other are equal |
| Text.LexLeTransitive | src/dates.js:119-121 | string `<=` is transitive |
| Dates.BareDayFits | src/dates.js:198-211 | `^\d{1,2}$` matches exactly the strings of one or two digits |
| Dates.ParseSameMonthRange | src/dates.js:137-148 | it returns a range exactly when the shorthand shape matches and the month word resolves; the range is ordered, and both ends are dates |
| Dates.DaysOfMonth | src/dates.js:143-147 | the earlier day comes first, and both ends are dates |
| Dates.FindIsoPair | src/dates.js:166-169 | it finds two ISO-shaped strings when the ISO-pair pattern matches somewhere in the text, and nothing exactly when it matches nowhere |
| Dates.IsoPairPosition | src/dates.js:166-169 | the leftmost position where the ISO-pair pattern matches, or none when it matches nowhere |
| Dates.FindIsoCompact | src/dates.js:171-174 | the same for the compact pattern |
| Dates.IsoCompactUnreachable | src/dates.js:166-174 | when no ISO pair is found, no compact pair is found either |
| Dates.SpacedDash | src/dates.js:176 | the first index of `" - "`, and none exactly when it does not occur |
| Dates.FirstGoodSplit | src/dates.js:123-134 | the first hyphen whose two trimmed sides are both non-empty, and none exactly when no hyphen qualifies |
| Dates.SplitByFirstDash | src/dates.js:123-134 | none exactly when no hyphen has two non-empty trimmed sides; otherwise the two trimmed sides of the first such hyphen |
| Dates.YearPosition | src/dates.js:195 | the leftmost `20dd` in the text, and none exactly when there is none |
| Dates.YearIn | src/dates.js:195-196 | a year hint is in 2000..2099, and there is none exactly when no `20dd` occurs |
| Dates.NumericDate | src/dates.js:92-93 | a `D.M.YYYY` token gives a date |
| Dates.NumericShortDate | src/dates.js:95-96 | a `D.M` token gives a date, and only when a fallback year is present |
| Dates.NamedDate | src/dates.js:98-102 | a `D month YYYY` token gives a date |
| Dates.NamedShortDate | src/dates.js:104-108 | a `D month` token gives a date, and only when a fallback year is present |
| Dates.IsoTokenDate | src/dates.js:89-90 | an ISO token gives a date |
| Dates.ParseOneDate | src/dates.js:85-111 | whatever shape matched, the result is a date |
| Dates.CompactRange | src/dates.js:198-211 | the compact `D-D.M[.YYYY]` form gives an ordered pair of dates |
| Dates.CompactLeft | src/dates.js:205-210 | with a bare-day left side, the pair is ordered and both ends are dates |
| Dates.SharedMonth | src/dates.js:200-209 | two days of one month and year give an ordered pair of dates |
| Dates.Borrow | src/dates.js:217-229 | a day can borrow the year and month of the other endpoint exactly when that endpoint is ISO-shaped |
| Dates.Backfill | src/dates.js:213-231 | any pair it returns is a pair of dates |
| Dates.ParseEndpoints | src/dates.js:195-233 | a range read from two endpoints is ordered, and both ends are dates |
| Dates.ParseSplitOrSingle | src/dates.js:176-233 | the same for the split and single-date paths |
| Dates.IsoRange | src/dates.js:166-174 | the same for the ISO-pair branches |
| Dates.ParseNormalized | src/dates.js:161-233 | the same for every branch after normalisation |
| Dates.ParseDateRangeFlexible | src/dates.js:151-234 | any range it returns is ordered, and both ends are `…-MM-DD` dates |
| Normalization.ReplaceTo | src/dates.js:156 | no `to`, in any case, survives the replacement, and the first character is kept or becomes the hyphen |
| Normalization.UnifyDashes | src/dates.js:157 | each en or em dash becomes a hyphen, and every other character is kept in place |
| Normalization.UnifyDashesAppend | src/dates.js:157 | dash unification works character by character across a concatenation |
| Normalization.CollapseSpaces | src/dates.js:158 | the result is empty exactly when the input is, and a leading white-space run becomes one space |
| Normalization.Normalize | src/dates.js:152-159 | normalised text has single spaces only, none at either end, no en or em dash and no `to` in any case |
| Normalization.NormalizeSettled | src/dates.js:152-159 | on text that none of the rewrites touch, normalisation only unifies dashes |
| Normalization.NormalizeFixes | src/dates.js:152-159 | single-spaced text with no dash, no `с ` and no connective or `to` to rewrite is already normal and is its own normalisation |
| Normalization.StripFromSettled | src/dates.js:153 | text in which no `с` is followed by white space is left as it is |
| Normalization.ReplaceConnectiveSettled | src/dates.js:154-155 | text in which no `по` (or `до`) stands between white space is left as it is |
| Normalization.ConnectiveReplaced | src/dates.js:154-155 | a one-word prefix followed by ` по ` (or ` до `) and a word becomes the prefix, a hyphen and the rest rewritten in the same way |
| Normalization.NoToNoConstructor | src/dates.js:156 | text without `to` never lower-cases to "constructor" |
| Normalization.NoConstructorSurvives | src/dates.js:6-69 | no piece of a normalised message lower-cases to "constructor", the one inherited key of the month table that a word could spell |
| Normalization.StripFromAnywhere | src/dates.js:153 | `с` followed by white space is removed also in the middle of the text |
| Normalization.FromAloneVanishes | src/dates.js:153-161 | the message "с " normalises to the empty string |
| Normalization.ReplaceToKeeps | src/dates.js:156 | the first `to` becomes a hyphen, and the text before it is kept |
| Normalization.OctoberRewritten | src/dates.js:156 | "october" becomes "oc-ber" |
| Normalization.NoOctoberSurvives | src/dates.js:152-159 | no normalised text contains "october" in any case |
| DateFacts.LoneIsoDateFails | src/dates.js:123-134 | a message that is one ISO date yields no range |
| DateFacts.IsoPairVerbatim | src/dates.js:166-169 | two ISO dates joined by a hyphen, en or em dash, with or without spaces, give exactly those two strings in order |
| DateFacts.SameMonthMessage | src/dates.js:137-148 | "D1 D2 month" gives days min..max of that month in the current year |
| DateFacts.SameMonthMessageWithYear | src/dates.js:137-148 | "D1 D2 month 20YY" gives days min..max of that month in that year |
| DateFacts.SameMonthSwap | src/dates.js:137-148 | swapping the two days does not change the result |
| DateFacts.SameMonthUnresolved | src/dates.js:137-148 | with a word that is no month, the shorthand and the whole parse fail |
| DateFacts.CompactRangeShared | src/dates.js:198-211 | "D1-D2.M" gives both days in month M of the current year, ordered |
| DateFacts.CompactRangeWithYearShared | src/dates.js:198-211 | "D1-D2.M.YYYY" gives both days in month M of year YYYY, ordered |
| DateFacts.CompactRangeNoYear | src/dates.js:198-211 | the compact branch alone, without a year, uses the fallback year for both days |
| DateFacts.CompactRangeWithYear | src/dates.js:198-211 | the compact branch alone, with a year, uses that year for both days |
| DateFacts.BackfillRules | src/dates.js:217-231 | both sides parsed: kept; neither: none; only one: the other side, if it is a bare day, borrows the parsed side's year and month, provided the parsed side is ISO-shaped |
| DateFacts.NamedMonthRange | src/dates.js:195-233 | "D1-D2 month YYYY" gives both days in that month and year, ordered, unless the year starts with 0 |
| DateFacts.NumericDateReads | src/dates.js:92-93 | a `D.M.YYYY` token reads as that day, month and year |
| DateFacts.NumericShortReads | src/dates.js:95-96 | a `D.M` token reads as that day and month in the fallback year, and fails without one |
| DateFacts.NamedDateReads | src/dates.js:98-102 | a `D month YYYY` token reads as that day, resolved month and year |
| DateFacts.NamedShortReads | src/dates.js:104-108 | a `D month` token reads as that day and month in the fallback year, and fails when either is missing |
| DateFacts.IsoTokenReads | src/dates.js:89-90 | an ISO token is read back through its parts, and comes out unchanged exactly when its year does not start with 0 |
| DateFacts.DigitsTokenFails | src/dates.js:85-111 | a token of digits only matches no date shape |
| DateFacts.SingleDatePath | src/dates.js:184-190 | text with no shorthand, no spaced dash and no usable hyphen is read as one date, giving a one-day range or nothing |
| DateFacts.SingleNumericDate | src/dates.js:184-190 | "D.M.YYYY" or "D/M/YYYY" alone gives the one-day range of that date |
| DateFacts.ShortYearUnpadded | src/dates.js:74-76 | "12.10.0999" gives the one-day range `999-10-12`: the year is printed as a number, without its leading zero |
| DateFacts.DayDashSplit | src/dates.js:123-134 | "D-rest", where rest has no hyphen and starts and ends with a digit, splits into D and rest |
| DateFacts.FourDigitYear | src/dates.js:78-82 | a four-digit year string has a value of at least 1000 exactly when it does not start with 0 |
| DateFacts.IsoPairSplits | src/dates.js:123-134 | any text holding an ISO pair also has a usable hyphen split |
| Text.Lower | src/dates.js:115 | lower-casing keeps the length and maps each character on its own: A-Z, А-Я and Ё to lower case, and the Kelvin sign to `k` |
| Text.LowerIdempotent | src/recs.js:50 | lower-casing twice is lower-casing once |
| Text.TrimSpec | src/dates.js:159 | trimming removes exactly the leading and trailing white space, and gives the empty string exactly for blank text |
| Text.NatToStringOfDigitsValue | src/dates.js:200-208 | the value of a digit string without a leading zero prints back as that string |
| Text.DigitsValueOfNatToString | src/dates.js:71-73 | a printed number reads back as itself |
| Pattern.Match | src/dates.js:85-111 | a match splits the whole text into one group per atom, and each group fits its atom |
| Pattern.MatchComplete | src/dates.js:85-111 | for patterns whose atoms each need a character and whose neighbouring atoms share no character, any split into fitting groups is found |
| UiState.GetUI | src/state.js:4-13 | the user's record is returned and stored; a new user gets an empty record; other users are untouched |
| UiState.SetUI | src/state.js:15-20 | the record is stored with missing screens and spinner filled as empty; other users are untouched |
| UiState.ResetUI | src/state.js:22-26 | the user's record becomes empty; other users are untouched |
| UiState.PushScreen | src/state.js:28-32 | the screen is appended on top, the prompt id and spinner are kept, and other users are untouched |
| UiState.PopScreen | src/state.js:34-39 | an empty stack gives nothing; otherwise the top screen is returned and removed, and other users are untouched |
| UiState.PushThenPop | src/state.js:28-39 | popping right after a push returns the pushed screen and restores the stack |
| UiState.PushAllPopAll | src/state.js:28-39 | pushing n screens and popping n times returns them in reverse order and restores the stack |
| UiState.PopTimesReturnsTop | src/state.js:34-39 | popping a stack `base + ss` \|ss\| times returns ss last-first and leaves base |
| UiState.PopEmpty | src/state.js:34-39 | popping an empty stack returns nothing and changes only what `getUI` creates |
| Onboarding.Locate | src/index.js:594-657 | a country without a city asks for the city; a city without a country asks for the country; otherwise the recognised city and country (empty ones become null) are stored with the destination "city, country" when both are present, else the normalised place, else the typed text; nothing else changes |
| Onboarding.AnswerCity | src/index.js:659-687 | the city is the one the location call recognised, else the typed answer; the country is the stored one, else the recognised one, else null; the destination is "city, country" when both are present, else the normalised place, else the answer; the step becomes `dates` and nothing else changes |
| Onboarding.AnswerCountry | src/index.js:689-717 | the country is the one the location call recognised, else the typed answer; the city is the stored one, else the recognised one, else null; the destination is "city, country" when both are present, else the normalised place, else the answer; the step becomes `dates` and nothing else changes |
| Onboarding.RecordTaste | src/index.js:738-864 | the raw text of the asked taste is always stored; its normalised value is replaced only when normalisation returned, and kept when it threw; no other field changes |
| Onboarding.OnText | src/index.js:435-903 | a command changes nothing, and neither does any message in step `done` or an unknown step |
| Onboarding.OnCallback | src/index.js:383-432 | each of the four edit buttons moves to its own `edit_*` step, cancel and back go to `done`, any other data changes nothing, and no button changes anything but the step |
| Onboarding.EditTasteRoundTrip | src/index.js:390-408 | pressing the music, cuisine or art button and then answering stores the answer as that taste's raw text, stores the normalised taste when normalisation returns, keeps it otherwise, and ends at `done` |
| Onboarding.EditLocationRoundTrip | src/index.js:383-389 | pressing the location button and then answering runs the destination lookup with `edit_location` as the step for every follow-up question and `done` as the step after it |
| Onboarding.Reset | src/index.js:272-292 | `/reset` goes back to `dest` and clears every profile field |
| Onboarding.FollowsOrder | src/index.js:594-877 | every answer in an onboarding step moves to one of the successors in the onboarding order, except an unparsed date answer, which stays |
| Onboarding.DestBranches | src/index.js:594-657 | which of `dest_city`, `dest_country` or `dates` follows `dest`, by what the location answer says |
| Onboarding.UnparsedDatesStay | src/index.js:719-736 | a date answer that does not parse leaves the profile unchanged |
| Onboarding.ParsedDatesStored | src/index.js:719-736 | a parsed range is stored as it is, ordered, and the step becomes `tastes_music` with nothing else changed |
| Onboarding.TastesAdvance | src/index.js:504-592 | every taste and taste-edit step advances whether normalisation returned or threw, and stores the raw text |
| Onboarding.EditLocationEnds | src/index.js:445-501 | editing the location ends in `done` unless the answer needs a city or a country |
| Onboarding.EditsEndDone | src/index.js:504-592 | the taste edits and the cancel and back buttons end in `done` |
| Onboarding.ResetIsFresh | src/index.js:272-292 | `/reset` gives exactly the profile of a new user, whatever was stored |
| Onboarding.BudgetFinishes | src/index.js:866-877 | the budget answer is stored and onboarding ends |
| Onboarding.FirstFlat | src/index.js:224-236 | non-arrays and empty arrays give nulls; otherwise `genre` or `type`, with `additional`, of the first element |
| Onboarding.FirstFlatFirstOnly | src/index.js:224-236 | only the first element matters, and a null first element reads as all-null |
| Onboarding.Paging | src/index.js:939-940 | the offset is at least 0 and the limit is within 1..100 whenever they are numbers; each is `NaN` exactly when its `parseInt` is |
| Onboarding.ParseInt | src/index.js:939-940 | `parseInt` gives a number only when the text holds a digit; text starting with any other character than white space, a sign or a digit, and blank text, give `NaN`; a leading digit gives a non-negative number |
| Onboarding.ParseIntOfPrinted | src/index.js:939-940 | `parseInt` reads back any printed integer |
| Onboarding.PagingOfIntegers | src/index.js:939-940 | for integer query values, the offset is floored at 0 and the limit is clamped to 1..100 |
| Onboarding.PagingDefaults | src/index.js:939-940 | missing or empty query values give offset 0 and limit 20 |
| Onboarding.PagingPassesNaN | src/index.js:939-940 | `offset=abc&limit=all` passes `NaN` for both |
| Onboarding.PagingDefaulted | src/index.js:939-940 | the corrected clamp is always within bounds, agrees with the original wherever that gives a number, and falls back to 0 and 20 otherwise |
| Recs.NormalizeTags | src/recs.js:43-51 | no tag left is empty, and there are no more tags than went in |
| Recs.NormalizeTagsMembers | src/recs.js:43-51 | every non-empty normalised tag is kept, and every kept tag is the normalisation of an input tag |
| Recs.NormalizeTagsAppend | src/recs.js:43-51 | normalising the concatenated lists is concatenating the normalised lists |
| Recs.NormalizeTagIdempotent | src/recs.js:50 | normalising a normalised tag changes nothing |
| Recs.UniqueTags | src/recs.js:52 | at most 20 distinct tags, all from the input, and all of them when fewer than 20 |
| Recs.UniqueTagsFirstOccurrences | src/recs.js:52 | the kept tags are the first occurrences, in input order |
| Recs.SearchTags | src/recs.js:43-52 | at most 20 distinct non-empty tags, each the normalisation of some input tag |
| Recs.FirstByKey | src/recs.js:71-79 | the kept elements have distinct keys, and their keys are the input's keys not seen before |
| Recs.FirstByKeyPicksFirsts | src/recs.js:71-79 | the kept elements are the first element of each new key, in input order |
| Recs.FirstByKeyAppend | src/recs.js:71-79 | de-duplicating `a + b` keeps a's firsts, then b's firsts among keys a did not have |
| Recs.DedupWithLimit | src/recs.js:71-79 | the loop returns the first `limit` first-per-key candidates; keys are distinct; when it stops early, every key is present |
| Recs.DedupIgnoresRepeats | src/recs.js:71-79 | repeating the candidate list does not change what is kept |
| Recs.TakeDistinct | src/recs.js:71-79 | a prefix of a key-distinct list is key-distinct |

## Left out

- The bot transport and the database. Telegram messages, prompts, deleting earlier prompts, the
  spinner's interval timer (`clearInterval` in `resetUI`), Prisma queries and the Express server are
  I/O. The model keeps only the profile fields and the in-memory UI map they change.
- Language-model calls. `normalizeLocation`, `normalizeMusic`/`Cuisine`/`Art`/`Cinema`, `expandTastes`
  and the friendly reply are passed in as outcomes (`Onboarding.External`). What they return is not
  modelled.
- The clock. `new Date().getFullYear()` is the parameter `currentYear`.
- Onboarding.OnText: in step `done` the source sends a language-model reply. That reply is left out,
  because it changes no profile field.
- Onboarding.OnText: a missing step defaults to `dest` (`step ?? 'dest'`). That default is not modelled;
  the profile always carries a step.
- Onboarding.Reset: `getOrCreateUser`'s upsert is not modelled. A new user is the constant profile
  `Onboarding.Fresh`.
- Onboarding.ParseInt: JavaScript numbers are doubles, so very long digit strings lose precision in
  `parseInt`. The model reads them exactly.
- Recs.DedupWithLimit: the sort by confidence that runs before the loop is not modelled (it needs
  floating point). The loop is proved for any input order.
- `budgetToEUR`, the mock event provider and the recommendation schema are not part of this model.
- `toLowerCase` covers ASCII, Cyrillic (with `Ё`) and the Kelvin sign only, not full Unicode case
  folding. Every month name and connective the parser knows uses these letters. Recommendation tags
  are free text, so tag de-duplication (`Recs.NormalizeTag`) is exact only for tags in these
  alphabets: "Électro" and "électro" are one tag in JavaScript and two in the model.
- Text.IsLetter: the letter class `[a-zа-яё]` under the `i` flag is modelled on the listed letters only.
  JavaScript's case-insensitive matching also lets the Cyrillic Extended-C letters U+1C80-U+1C86
  match, because they upper-case into `[А-Я]`. The model rejects them. U+1C87 and U+1C88 upper-case
  outside `[А-Я]`, so JavaScript rejects them too.
- Normalization.StripFrom: `/с\s+/gi` also removes U+1C83, which upper-cases to `С`. The model keeps
  it, because `LowerChar` does not fold it onto `с`.
- Normalization.ReplaceConnective: `/\s+по\s+/gi` and `/\s+до\s+/gi` also accept U+1C82 for `о` and
  U+1C81 for `д`, which upper-case to `О` and `Д`. The model does not treat them as connectives.
- Months.ResolveMonth: the month table is a plain object, so the source's `MONTHS['constructor']` is the
  inherited `Object` function, which is truthy and is returned as the "month". The model returns
  nothing for that word. The parser never meets the word, because the `/to/gi` rewrite removes every
  `to` before any lookup (`Normalization.NoConstructorSurvives`). `Dates.ParseOneDate`,
  `Dates.NamedDate`, `Dates.NamedShortDate` and `Dates.ParseSameMonthRange` are therefore exact on
  every piece of a normalised message, and the parser passes them nothing else.
- Months.ResolveByStem: the stem characterisation leaves out the same `constructor` key as
  `Months.ResolveMonth` above, for the same reason.
- Text.TrimSpec: white space is JavaScript's fixed list of WhiteSpace and LineTerminator characters.
  The list is written out, not derived from the Unicode space category.

## Findings

| source | as written | input that shows it | evidently intended | confidence | as-written member | corrected member |
|---|---|---|---|---|---|---|
| src/index.js:939-940 | `Math.max(parseInt(req.query.offset \|\| '0', 10), 0)` and the matching limit clamp; the `\|\| '0'` fallback only covers a missing or empty value, and `Math.max`/`Math.min` pass `NaN` through | `/api/users?offset=abc&limit=all` gives offset `NaN` and limit `NaN` | non-numeric values fall back to offset 0 and limit 20 | not executed | Onboarding.PagingPassesNaN | Onboarding.PagingDefaulted |
