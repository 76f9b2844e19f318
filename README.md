# Charter bus quoter — a verified model of its core

This project models the core of a charter-bus quote service and proves
properties of the model in Dafny. Trip details come in as a quote request
and are checked twice: first against the shared request schema, then by the
controller's own field checks. The pricing engine turns an accepted request
into a priced quote: an ordered breakdown of lines, a subtotal, a 10% service
fee, a total, and an expiry 24 hours later. The quote is then kept in an
in-memory store. It can be fetched again by its identifier until it expires;
after that the lookup reports "expired" rather than "not found". The web
client and the embeddable widget add display helpers: amenity labels,
capitalized words, bus type names, and a 12-hour clock.

Modules, one per part of the program:

- `Wrappers`, `Text` (`text.dfy`): the optional value, character classes as
  JavaScript's regular expressions see them, ASCII case mapping, `split`,
  `join` and decimal text.
- `Schema` (`schema.dfy`): the request and response records as datatypes.
  The one constraint the types cannot express, the passenger bound, is a
  validity predicate.
- `Dates` (`dates.dfy`): instants in milliseconds, `YYYY-MM-DD` dates as day
  numbers, and the local day of an instant for a server at a fixed UTC
  offset.
- `Pricing` (`pricing.dfy`): `calculateQuote`. The breakdown and the sum are
  imperative methods, each proved equal to a specification function, and the
  lemmas state the pricing law. Money is integer cents. The source's dollar
  arithmetic is computed on exact reals, and each of its `Math.round` calls
  is proved exact.
- `Storage` (`storage.dfy`): the `MemStorage` class. Each JavaScript `Map`
  becomes two fields: a map for the entries, and a sequence of keys in the
  first-insertion order that `Map` iteration follows.
- `Controller` (`controller.dfy`):
  - `validateQuoteRequest`, proved against a pure description of which checks
    fail;
  - the `getQuoteById` decision;
  - the schema-check, field-check, calculate, save pipeline of
    `generateQuote`, with HTTP outcomes as values carrying their status codes.
- `Formatters` (`formatters.dfy`): `formatAmenities`, `capitalize` and
  `formatBusType`.
- `Widget` (`widget.dfy`): `formatTime`, with JavaScript's `parseInt` and `%`
  written out.

Where the documentation and the code disagree, the model follows the code.
The controller's clock carries a choice of how a date text becomes a day: as
the code reads it (`new Date(text)` then `setHours(0, 0, 0, 0)`), or the
corrected calendar day. With the first, `Controller.ValidateQuoteRequest` and
`Controller.GenerateQuote` are the code as it stands; the two readings report
the same errors from UTC eastward and differ west of UTC (see "## Findings").
The documented response carries `createdAt = now`, but `calculateQuote`
returns no `createdAt`. Its result therefore fails the response schema, and
`Pricing.CalculateQuote` states this (`!ValidResponse(q)`). No reader of a
quote looks at `createdAt`, so the model keeps that behaviour.

## Model

| member | source | states |
|---|---|---|
| Schema.ParseTripType | shared/schema.ts:34 | a trip type is exactly one of the two literals `oneWay`, `roundTrip`; anything else is rejected |
| Schema.ParseBusType | shared/schema.ts:41 | a bus type is exactly one of `standard`, `luxury`; anything else is rejected |
| Schema.OneWayMayCarryReturnDate | shared/schema.ts:33-44 | the request schema does not tie `returnDate` to round trips: a valid one-way request may carry one |
| Text.BeforeFirst | server/services/pricingService.ts:68 | `split(',')[0]` is the longest prefix without a comma, and the comma follows it when the text is longer |
| Text.SplitPrefix | public/elementor-widget.js:440 | a separator-free prefix is glued onto the first piece of a split |
| Dates.ParseDateText | server/controllers/quoteController.ts:117 | a `YYYY-MM-DD` text with month 1 to 12 and day 1 to 31 is read as that day number; any other month or day is an Invalid Date |
| Dates.ParseIsoDateRoundTrip | server/controllers/quoteController.ts:117 | the `YYYY-MM-DD` text of any date is read back as that date's day number |
| Dates.OverlongDayRollsOver | server/controllers/quoteController.ts:117 | a day past its month's end rolls over: "2024-02-30" is read as 2024-03-01, and day 32 is an Invalid Date |
| Dates.MidnightDayAsWritten | server/controllers/quoteController.ts:117-118 | as written, the compared day is defined exactly when the date text is valid (midnight UTC moved to the local midnight before it) |
| Dates.AsWrittenShiftsByWholeDays | server/controllers/quoteController.ts:117-118 | as written, the compared day is the named day moved by the offset's whole days, rounded down |
| Dates.AsWrittenShiftsWestOfUtc | server/controllers/quoteController.ts:114-120 | west of UTC, the day the departure check compares is the day before the one the text names |
| Dates.AsWrittenExactEastOfUtc | server/controllers/quoteController.ts:114-120 | at UTC or east of it, the compared day is the named day |
| Dates.TodayLooksPastAsWritten | server/controllers/quoteController.ts:114-125 | at noon on 2024-05-01 in UTC-5, the departure "2024-05-01" is today there, yet as written it falls before today |
| Dates.CalendarDay | server/controllers/quoteController.ts:117-118 | the corrected day is the named calendar day, whatever the server's offset |
| Dates.CalendarTodayIsToday | server/controllers/quoteController.ts:114-125 | with the corrected day, today's date in the server's zone is compared as today |
| Pricing.RoughDistanceMatchesSqrt | server/services/pricingService.ts:59-63 | the squared comparison decides `sqrt(d) * 111 > km` exactly, for every non-negative root |
| Pricing.DistanceFee | server/services/pricingService.ts:51-64 | the distance fee is always 85, 120 or 150 dollars, and 85 unless all four coordinates are truthy |
| Pricing.BuildBreakdown | server/services/pricingService.ts:27-99 | the pushes build exactly the breakdown `Breakdown(r)` |
| Pricing.SumLines | server/services/pricingService.ts:102 | the `reduce` fold is the sum of the line amounts |
| Pricing.CalculateQuote | server/services/pricingService.ts:17-127 | identifier and trip details carried over; expiry 24 hours after now; no `createdAt`, so the result fails the response schema; the breakdown; the exact subtotal; fee exactly a tenth of the subtotal; total their sum |
| Pricing.BreakdownLayout | server/services/pricingService.ts:27-99 | `Breakdown`: 4 to 6 lines in fixed order; the amenities and round-trip lines appear exactly when they apply; only the round-trip line has a multiplier; every amount is non-negative whole dollars |
| Pricing.BasePriceByBusType | server/services/pricingService.ts:30-35 | the first line is the base price: 200 dollars for luxury, 100 otherwise, named after the bus type |
| Pricing.PassengerAdjustmentSteps | server/services/pricingService.ts:38-47 | more passengers never cost less; the steps are 150/100/50/0 dollars above 50/30/15 passengers |
| Pricing.FalsyCoordinateKeepsDefault | server/services/pricingService.ts:54-55 | any one of the four coordinates zero or absent keeps the default distance fee of 85 dollars |
| Pricing.DistanceFeeSteps | server/services/pricingService.ts:57-64 | with coordinates, and `km` the square root of the squared degrees times 111: 150 dollars beyond 50 km, 120 beyond 20 km, 85 otherwise |
| Pricing.AmenitiesLine | server/services/pricingService.ts:21-88 | absent amenities price as none; the amenities charge depends only on how many tags there are |
| Pricing.SumAmountsConcat | server/services/pricingService.ts:102 | the sum of concatenated lines is the sum of the sums |
| Pricing.BreakdownSum | server/services/pricingService.ts:102 | the line sum is base + passengers + distance + duration + 25 dollars per amenity; the round-trip line adds nothing |
| Pricing.SumIsWholeDollars | server/services/pricingService.ts:27-99 | the line sum is a whole number of dollars |
| Pricing.DollarArithmeticIsExact | server/services/pricingService.ts:105-111 | on a whole-dollar sum, scaling by 1.8, the 10% fee and the total all land on whole cents, so each `Math.round` is exact |
| Pricing.RoundHalfUpOfInteger | server/services/pricingService.ts:108 | `Math.round` of an integer is that integer |
| Pricing.RoundingIsExact | server/services/pricingService.ts:101-122 | `SubtotalCents`, `ServiceFeeCents`, `TotalCents`: the round-trip subtotal is 1.8 times the sum; the fee is exactly 10% of the subtotal; the total is exactly 110% |
| Pricing.SubtotalBounds | server/services/pricingService.ts:27-105 | the subtotal is at least 305 dollars one way and 549 for a round trip |
| Pricing.LuxuryCostsMore | server/services/pricingService.ts:30 | all else equal, a luxury total exceeds a standard one |
| Pricing.RoundTripCostsMore | server/services/pricingService.ts:91-105 | all else equal, a round-trip total exceeds a one-way one |
| Storage.InsertOrder | server/storage.ts:52 | after `Map.set`, every key already there keeps its place, the order grows by one exactly for a new key, its keys are the old ones and the new one, and distinct keys stay distinct |
| Storage.OrderedKeysCount | server/storage.ts:22-23 | with distinct keys, the key order is as long as the map |
| Storage.SetKeepsOrderedKeys | server/storage.ts:46-52 | `Map.set` keeps the key order distinct and equal to the map's domain |
| Storage.ValuesAfterSet | server/storage.ts:51-62 | after a save, the enumeration gains the new value at the end, or replaces the old value in its original position |
| Storage.ValuesAreTheEntries | server/storage.ts:60-62 | `ValuesInOrder`, what `getAllQuotes` enumerates, has one value per stored key, found at that key's place in the order |
| Storage.RepeatedSet | server/storage.ts:52 | saving twice is idempotent; a second save under a key wins without adding a key |
| Storage.MemStorage.constructor | server/storage.ts:26-30 | both maps start empty and user ids start at 1 |
| Storage.MemStorage.GetUser | server/storage.ts:33-35 | a user by id, or none when the id is unknown |
| Storage.MemStorage.GetUserByUsername | server/storage.ts:37-41 | the first user, in insertion order, with that name; none exactly when no user has it |
| Storage.MemStorage.CreateUser | server/storage.ts:43-48 | the user gets the current counter, a fresh id, and the counter moves on; ids stay unique and increasing; quotes are untouched |
| Storage.MemStorage.SaveQuote | server/storage.ts:51-54 | the quote is stored under its id and returned unchanged; other entries and the users are untouched |
| Storage.MemStorage.GetQuote | server/storage.ts:56-58 | the stored quote for that exact id, expired or not, or none when it was never saved |
| Storage.MemStorage.GetAllQuotes | server/storage.ts:60-62 | all stored quotes, one per id, in first-insertion order |
| Controller.ReportIsFaithful | server/controllers/quoteController.ts:110-183 | `Report`, the errors as field and message: different checks have different messages, so a response body determines the failed checks, in order |
| Controller.ReportedSpec | server/controllers/quoteController.ts:110-183 | the seven reports together name exactly the failing checks, each once, in check order |
| Controller.FailuresAreTheFailingChecks | server/controllers/quoteController.ts:110-183 | `Failures`: an error is reported exactly when its check `Fails`; errors come in check order; no errors exactly when every check passes |
| Controller.ValidateQuoteRequest | server/controllers/quoteController.ts:110-183 | the errors are exactly the failing checks, in check order: departure day before today; round-trip return day before departure day; fewer than 1 or more than 100 passengers; empty pickup or dropoff place; equal non-empty places; each date read as the clock says |
| Controller.ReadDayAsWritten | server/controllers/quoteController.ts:117-118 | as written, a date text is valid exactly when its calendar day is, and is moved by the offset's whole days |
| Controller.ReturnCheckIgnoresReading | server/controllers/quoteController.ts:128-138 | the return check gives the same verdict as written and corrected, on any offset, because both dates move alike |
| Controller.ReadingsAgreeEastOfUtc | server/controllers/quoteController.ts:110-183 | from UTC to a day east of it, the code as written reports exactly the errors of the corrected reading |
| Controller.TodayIsNotPast | server/controllers/quoteController.ts:114-125 | with the corrected reading, or as written from UTC eastward: departing on today's local date passes, and the same date fails a day later |
| Controller.TodayFlaggedWestOfUtc | server/controllers/quoteController.ts:114-125 | as written, west of UTC, departing on today's local date is reported as in the past, so the request fails; the corrected reading does not report it |
| Controller.SameDayReturnPasses | server/controllers/quoteController.ts:128-138 | on any clock, a return on the departure day, or no return date, is never flagged |
| Controller.DecideLookup | server/controllers/quoteController.ts:63-94 | empty id → 400; unknown id → 404; `expiresAt` strictly before now → 410; otherwise 200 with the stored quote |
| Controller.GetQuoteById | server/controllers/quoteController.ts:63-102 | the lookup decision applied to what the store holds for that id |
| Controller.ServedForADay | server/controllers/quoteController.ts:84-94 | a quote made at `t` is served up to and including `t` + 24 h, and is then expired |
| Controller.GenerateQuote | server/controllers/quoteController.ts:13-55 | schema rejection (400) or field errors (400, exactly the failing checks) leave the store untouched; otherwise the quote is saved under its id and returned (200), with its trip details, breakdown, subtotal, fee, total, no `createdAt`, and expiry a day after now |
| Controller.SchemaSubsumesPassengerChecks | server/controllers/quoteController.ts:141-153 | a request the schema admits never fails the passenger checks |
| Formatters.InsertSpacesShape | client/src/lib/utils.ts:50 | the spaced tag never starts with a capital, is one longer per capital, and has a comma only where the tag has one |
| Formatters.DecamelInsertSpaces | client/src/lib/utils.ts:50 | dropping each space before a capital undoes the space insertion |
| Formatters.FormatTagRoundTrip | client/src/lib/utils.ts:49-52 | a label determines its tag, so distinct tags get distinct labels |
| Formatters.FormatTagShape | client/src/lib/utils.ts:49-52 | label length is tag length plus the number of capitals; commas are kept as they are |
| Formatters.FormatTagExample | client/src/lib/utils.ts:48-51 | "wiFi" reads "Wi Fi"; a tag starting with a capital gets a leading space |
| Formatters.SplitJoin | client/src/lib/utils.ts:54 | comma-free parts joined by ", " split back at commas into the parts, later ones behind a space |
| Formatters.FormatAmenitiesRoundTrip | client/src/lib/utils.ts:43-55 | a non-empty list of comma-free tags is recovered, in order, from its text |
| Formatters.NothingSelected | client/src/lib/utils.ts:44 | a missing or empty list reads "None selected" |
| Formatters.Capitalize | client/src/lib/utils.ts:58-63 | `capitalize` keeps the length |
| Formatters.CapitalizeAt | client/src/lib/utils.ts:58-63 | at each position: the first character of a `\w\S*` word is upper-cased; the rest of the word is lower-cased; everything else is unchanged |
| Formatters.ScanRestarts | client/src/lib/utils.ts:60 | the left-to-right scan for words restarts cleanly where no word runs across |
| Formatters.WordCoversRun | client/src/lib/utils.ts:60 | a word covers its whole run of non-space characters |
| Formatters.CapitalizeIdempotent | client/src/lib/utils.ts:58-63 | capitalizing twice is capitalizing once |
| Formatters.BusTypeNames | client/src/lib/utils.ts:66-71 | "standard" reads "Standard Charter Bus" and "luxury" reads "Luxury Charter Bus" |
| Formatters.OtherBusTypes | client/src/lib/utils.ts:72-73 | any other text is capitalized word by word, keeping its length, and formatting it again changes nothing |
| Widget.ParseInt | public/elementor-widget.js:441 | text that, after white space, starts with neither a digit nor a sign is NaN |
| Widget.FormatTime | public/elementor-widget.js:437-446 | the result is empty exactly for an empty time, and otherwise ends in " AM" or " PM" |
| Widget.JsRem | public/elementor-widget.js:443 | JavaScript's `%` by a positive divisor: magnitude below the divisor, Euclidean for non-negative operands |
| Widget.ParseIntRoundTrip | public/elementor-widget.js:441 | `parseInt` reads the decimal text of any integer back as that integer |
| Widget.DigitsParse | public/elementor-widget.js:441 | a text of digits, with or without a leading zero, is read as its decimal value |
| Widget.HourReading | public/elementor-widget.js:442-443 | PM exactly from hour 12; the dial hour of 0..23 lies in 1..12; the 24-hour hour is recovered from the dial hour and the suffix |
| Widget.FormatTimeOfParts | public/elementor-widget.js:437-446 | `hours:minutes` reads as the parsed dial hour, a colon, the minutes verbatim, and the suffix |
| Widget.SecondsAreDropped | public/elementor-widget.js:440 | anything after a second colon is ignored |
| Widget.SplitThreePieces | public/elementor-widget.js:440 | `a:b:rest` splits into `a`, `b`, then the pieces of `rest` |
| Widget.FormatClockTime | public/elementor-widget.js:437-446 | a clock time `HH:MM` reads `h:MM AM/PM`, the hour without its leading zero and 0 shown as 12 |
| Widget.ClockExamples | public/elementor-widget.js:442-443 | hours 0, 13 and 9 show as 12 AM, 1 PM and 9 AM |
| Widget.EmptyTime | public/elementor-widget.js:438 | an empty time reads as nothing |
| Widget.FormatTimeOddInput | public/elementor-widget.js:440-445 | an hour that is not a number shows as 12 AM, and missing minutes show as `undefined` |
| Widget.NegativeHours | public/elementor-widget.js:443 | negative hours keep their sign, as JavaScript's remainder does; -12 shows as 12 |

## Left out

- Floating point: amounts are exact cents, and the dollar arithmetic is done on exact reals, not IEEE doubles. `Math.sqrt` is replaced by a squared comparison that is proved equivalent.
- The fresh identifier (`uuidv4`) and the clock (`new Date()`) are parameters of the operations that use them.
- Time zones are a fixed offset in minutes east of UTC; daylight saving changes are not modelled, so "24 hours later" is `now + 86 400 000` ms.
- `new Date(text)` is modelled for `YYYY-MM-DD` texts only, as V8 (the engine under Node) reads them: a month of 1 to 12 and a day of 1 to 31, with a day past the month's end rolling over into the next month. Any other text is an Invalid Date (`None`), and every comparison with it is false, as in JavaScript. Other engines, which reject such overlong days, are not modelled.
- Case mapping (`toUpperCase`, `toLowerCase`) covers ASCII letters only.
- Formatters.Capitalize: the regular-expression class `\w` is ASCII, as in JavaScript without the unicode flag. Non-ASCII letters are left as they are.
- The 500 responses of `generateQuote` and `getQuoteById`: the modelled engine and store cannot throw.
- Schema rejection carries no error list, so zod's own messages and paths are not modelled. A non-integer passenger count cannot be expressed, because the field is an `int`.
- The JSON bodies, Express routing and middleware, the `IStorage` interface, the `storage` singleton, the React components and the embedding scripts are not part of this model.
- Widget.ParseInt: numbers beyond 2^53 lose precision in JavaScript but are exact here. Number-to-text conversion in exponent form is not modelled.
- Widget.FormatTime: `timeStr` is a string; an `undefined` argument is not modelled.
- Formatters.FormatAmenities: the argument is optional, covering the `!amenities` guard; non-array values are not modelled.
- Storage.MemStorage.CreateUser: usernames are not checked for uniqueness, as in the source. Passwords are opaque strings.

## Findings

| source | as written | input that shows it | evidently intended | confidence | as-written member | corrected member |
|---|---|---|---|---|---|---|
| server/controllers/quoteController.ts:117-120 | `new Date("YYYY-MM-DD")` is midnight UTC; `setHours(0,0,0,0)` then moves it to the local midnight before it, which is the previous day west of UTC | a server at UTC-5, at noon on 2024-05-01, receives departure date "2024-05-01" and reports "Departure date cannot be in the past" | the named calendar day is compared with the server's local day, so today is accepted | not executed | Dates.MidnightDayAsWritten, Dates.TodayLooksPastAsWritten, Controller.TodayFlaggedWestOfUtc | Dates.CalendarDay, Dates.CalendarTodayIsToday, Controller.TodayIsNotPast |
