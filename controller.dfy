/**
 * The quote controller: the field checks applied to a parsed request, the
 * validate-calculate-save pipeline behind `POST`, and the lookup decision
 * behind `GET` by identifier. HTTP responses become outcome values with
 * their status codes.
 */
module Controller {
  import opened Wrappers
  import opened Schema
  import Dates
  import Pricing
  import Storage

  /** The field checks, in the order `validateQuoteRequest` runs them. */
  datatype Check =
    | DepartureInPast | ReturnBeforeDeparture | TooFewPassengers | TooManyPassengers
    | PickupRequired | DropoffRequired | SameLocations

  /** An error as the response body reports it. */
  datatype FieldError = FieldError(field: string, message: string)

  function Field(c: Check): string
  {
    match c
    case DepartureInPast => "departureDate"
    case ReturnBeforeDeparture => "returnDate"
    case TooFewPassengers => "numPassengers"
    case TooManyPassengers => "numPassengers"
    case PickupRequired => "pickupLocation"
    case DropoffRequired => "dropoffLocation"
    case SameLocations => "dropoffLocation"
  }

  function Message(c: Check): string
  {
    match c
    case DepartureInPast => "Departure date cannot be in the past"
    case ReturnBeforeDeparture => "Return date must be after departure date"
    case TooFewPassengers => "Number of passengers must be at least 1"
    case TooManyPassengers => "Number of passengers cannot exceed 100"
    case PickupRequired => "Valid pickup location is required"
    case DropoffRequired => "Valid dropoff location is required"
    case SameLocations => "Pickup and dropoff locations cannot be the same"
  }

  /** The errors in the shape the response body carries. */
  function Report(errors: seq<Check>): (body: seq<FieldError>)
    ensures |body| == |errors|
    ensures forall i :: 0 <= i < |errors| ==> body[i] == FieldError(Field(errors[i]), Message(errors[i]))
  {
    seq(|errors|, i requires 0 <= i < |errors| => FieldError(Field(errors[i]), Message(errors[i])))
  }

  /** The position of a check in the order they run. */
  function Rank(c: Check): (k: nat)
    ensures k < 7
  {
    match c
    case DepartureInPast => 0
    case ReturnBeforeDeparture => 1
    case TooFewPassengers => 2
    case TooManyPassengers => 3
    case PickupRequired => 4
    case DropoffRequired => 5
    case SameLocations => 6
  }

  /** Each check reports at most once, and the reports come in check order. */
  predicate InCheckOrder(errors: seq<Check>)
  {
    forall i, j :: 0 <= i < j < |errors| ==> Rank(errors[i]) < Rank(errors[j])
  }

  /** Every reported check runs before the one of rank `k`. */
  predicate RanksBelow(errors: seq<Check>, k: nat)
  {
    forall i :: 0 <= i < |errors| ==> Rank(errors[i]) < k
  }

  /** Different checks report different messages, so a response body names its checks unambiguously. */
  lemma ReportIsFaithful(errors: seq<Check>, other: seq<Check>)
    requires Report(errors) == Report(other)
    ensures errors == other
  {
    assert |errors| == |other|;
    forall i | 0 <= i < |errors| ensures errors[i] == other[i] {
      assert Report(errors)[i] == Report(other)[i];
      MessageDetermines(errors[i], other[i]);
    }
  }

  lemma MessageDetermines(c: Check, d: Check)
    requires Message(c) == Message(d)
    ensures c == d
  {
  }

  /**
   * How a date text becomes the day the checks compare: `AsWritten` is what
   * the code does (`new Date(text)` then `setHours(0, 0, 0, 0)`), `Corrected`
   * takes the calendar day the text names.
   */
  datatype DayReading = AsWritten | Corrected

  /** The server's clock: the current instant, its offset from UTC in minutes, and the reading of date texts. */
  datatype Clock = Clock(nowMs: int, offsetMinutes: int, reading: DayReading)

  /** `new Date()` after `setHours(0, 0, 0, 0)`: the server's local day. */
  function Today(k: Clock): int
  {
    Dates.LocalDay(k.nowMs, k.offsetMinutes)
  }

  /** The day a date text is compared as. `None` is an Invalid Date: every comparison with it is false. */
  function ReadDay(s: string, k: Clock): Option<int>
  {
    match k.reading
    case AsWritten => Dates.MidnightDayAsWritten(s, k.offsetMinutes)
    case Corrected => Dates.CalendarDay(s)
  }

  function DepartureDay(r: QuoteRequest, k: Clock): Option<int>
  {
    ReadDay(r.departureDate, k)
  }

  /** `quoteRequest.returnDate` is truthy: present and not empty. */
  predicate HasReturnDate(r: QuoteRequest)
  {
    r.returnDate.Some? && r.returnDate.value != ""
  }

  predicate DepartsBeforeToday(r: QuoteRequest, k: Clock)
  {
    DepartureDay(r, k).Some? && DepartureDay(r, k).value < Today(k)
  }

  /** The return check runs only for a round trip with a return date. */
  predicate ReturnsBeforeDeparture(r: QuoteRequest, k: Clock)
  {
    && r.tripType == RoundTrip && HasReturnDate(r)
    && DepartureDay(r, k).Some? && ReadDay(r.returnDate.value, k).Some?
    && ReadDay(r.returnDate.value, k).value < DepartureDay(r, k).value
  }

  predicate SamePlaces(r: QuoteRequest)
  {
    var a, b := r.pickupLocation.placeId, r.dropoffLocation.placeId;
    a != "" && b != "" && a == b
  }

  /** Whether check `c` objects to the request, on the server's clock `k`. */
  predicate Fails(r: QuoteRequest, k: Clock, c: Check)
  {
    match c
    case DepartureInPast => DepartsBeforeToday(r, k)
    case ReturnBeforeDeparture => ReturnsBeforeDeparture(r, k)
    case TooFewPassengers => r.numPassengers < 1
    case TooManyPassengers => r.numPassengers > 100
    case PickupRequired => r.pickupLocation.placeId == ""
    case DropoffRequired => r.dropoffLocation.placeId == ""
    case SameLocations => SamePlaces(r)
  }

  /** A request no check objects to. */
  predicate PassesChecks(r: QuoteRequest, k: Clock)
  {
    && !DepartsBeforeToday(r, k)
    && !ReturnsBeforeDeparture(r, k)
    && 1 <= r.numPassengers <= 100
    && r.pickupLocation.placeId != ""
    && r.dropoffLocation.placeId != ""
    && !SamePlaces(r)
  }

  /** The report of one check: its error when it fails, nothing otherwise. */
  function Flag(failed: bool, c: Check): seq<Check>
  {
    if failed then [c] else []
  }

  /** What the seven checks report, in the order they run, given which of them fail. */
  function Reported(failed: Check -> bool): seq<Check>
  {
    Flag(failed(DepartureInPast), DepartureInPast) + Flag(failed(ReturnBeforeDeparture), ReturnBeforeDeparture)
    + Flag(failed(TooFewPassengers), TooFewPassengers) + Flag(failed(TooManyPassengers), TooManyPassengers)
    + Flag(failed(PickupRequired), PickupRequired) + Flag(failed(DropoffRequired), DropoffRequired)
    + Flag(failed(SameLocations), SameLocations)
  }

  /** The errors the checks report for a request on the server's clock `k`. */
  function Failures(r: QuoteRequest, k: Clock): seq<Check>
  {
    Reported(c => Fails(r, k, c))
  }

  lemma RankIsInjective(c: Check, d: Check)
    requires Rank(c) == Rank(d)
    ensures c == d
  {
  }

  /**
   * One more check's report, after those of every check before it, names
   * exactly the failing checks up to and including it, in check order.
   */
  lemma FlagStep(e: seq<Check>, failed: Check -> bool, c: Check)
    requires InCheckOrder(e) && RanksBelow(e, Rank(c))
    requires forall d :: d in e <==> Rank(d) < Rank(c) && failed(d)
    ensures InCheckOrder(e + Flag(failed(c), c)) && RanksBelow(e + Flag(failed(c), c), Rank(c) + 1)
    ensures forall d :: d in e + Flag(failed(c), c) <==> Rank(d) <= Rank(c) && failed(d)
  {
    forall d ensures d in e + Flag(failed(c), c) <==> Rank(d) <= Rank(c) && failed(d) {
      if Rank(d) == Rank(c) {
        RankIsInjective(d, c);
      }
    }
  }

  /** The report names exactly the failing checks, each once and in check order. */
  lemma ReportedSpec(failed: Check -> bool)
    ensures forall c :: c in Reported(failed) <==> failed(c)
    ensures InCheckOrder(Reported(failed))
  {
    FlagStep([], failed, DepartureInPast);
    assert [] + Flag(failed(DepartureInPast), DepartureInPast) == Flag(failed(DepartureInPast), DepartureInPast);
    var e := Flag(failed(DepartureInPast), DepartureInPast);
    FlagStep(e, failed, ReturnBeforeDeparture);
    e := e + Flag(failed(ReturnBeforeDeparture), ReturnBeforeDeparture);
    FlagStep(e, failed, TooFewPassengers);
    e := e + Flag(failed(TooFewPassengers), TooFewPassengers);
    FlagStep(e, failed, TooManyPassengers);
    e := e + Flag(failed(TooManyPassengers), TooManyPassengers);
    FlagStep(e, failed, PickupRequired);
    e := e + Flag(failed(PickupRequired), PickupRequired);
    FlagStep(e, failed, DropoffRequired);
    e := e + Flag(failed(DropoffRequired), DropoffRequired);
    FlagStep(e, failed, SameLocations);
    e := e + Flag(failed(SameLocations), SameLocations);
    assert e == Reported(failed);
  }

  /**
   * The report names exactly the checks that fail, each once and in check
   * order; it is empty exactly for a request no check objects to.
   */
  lemma FailuresAreTheFailingChecks(r: QuoteRequest, k: Clock)
    ensures forall c :: c in Failures(r, k) <==> Fails(r, k, c)
    ensures InCheckOrder(Failures(r, k))
    ensures Failures(r, k) == [] <==> PassesChecks(r, k)
  {
    ReportedSpec(c => Fails(r, k, c));
    if PassesChecks(r, k) {
      forall c ensures !Fails(r, k, c) {
      }
    } else {
      var c :| Fails(r, k, c);
      assert c in Failures(r, k);
    }
  }

  /**
   * `validateQuoteRequest`: each check appends its error. With the
   * `AsWritten` reading this is the code as it stands.
   */
  method ValidateQuoteRequest(r: QuoteRequest, k: Clock) returns (errors: seq<Check>)
    ensures errors == Failures(r, k)
    ensures forall c :: c in errors <==> Fails(r, k, c)
    ensures InCheckOrder(errors)
    ensures errors == [] <==> PassesChecks(r, k)
  {
    errors := [];

    var today := Today(k);
    var departureDay := ReadDay(r.departureDate, k);
    if departureDay.Some? && departureDay.value < today {
      errors := errors + [DepartureInPast];
    }
    assert errors == Flag(Fails(r, k, DepartureInPast), DepartureInPast);

    ghost var before := errors;
    if r.tripType == RoundTrip && r.returnDate.Some? && r.returnDate.value != "" {
      var returnDay := ReadDay(r.returnDate.value, k);
      if returnDay.Some? && departureDay.Some? && returnDay.value < departureDay.value {
        errors := errors + [ReturnBeforeDeparture];
      }
    }
    assert errors == before + Flag(Fails(r, k, ReturnBeforeDeparture), ReturnBeforeDeparture);

    before := errors;
    if r.numPassengers < 1 {
      errors := errors + [TooFewPassengers];
    }
    assert errors == before + Flag(Fails(r, k, TooFewPassengers), TooFewPassengers);
    before := errors;
    if r.numPassengers > 100 {
      errors := errors + [TooManyPassengers];
    }
    assert errors == before + Flag(Fails(r, k, TooManyPassengers), TooManyPassengers);

    before := errors;
    if r.pickupLocation.placeId == "" {
      errors := errors + [PickupRequired];
    }
    assert errors == before + Flag(Fails(r, k, PickupRequired), PickupRequired);
    before := errors;
    if r.dropoffLocation.placeId == "" {
      errors := errors + [DropoffRequired];
    }
    assert errors == before + Flag(Fails(r, k, DropoffRequired), DropoffRequired);

    before := errors;
    var pickup, dropoff := r.pickupLocation.placeId, r.dropoffLocation.placeId;
    if pickup != "" && dropoff != "" && pickup == dropoff {
      errors := errors + [SameLocations];
    }
    assert errors == before + Flag(Fails(r, k, SameLocations), SameLocations);
    assert errors == Failures(r, k);
    FailuresAreTheFailingChecks(r, k);
  }

  /** The as-written day is the named day moved by the offset's whole days, for departure and return alike. */
  lemma ReadDayAsWritten(s: string, k: Clock)
    requires k.reading == AsWritten
    ensures ReadDay(s, k).Some? <==> Dates.CalendarDay(s).Some?
    ensures ReadDay(s, k).Some? ==> ReadDay(s, k).value == Dates.CalendarDay(s).value + k.offsetMinutes / Dates.MinutesPerDay
  {
    if Dates.CalendarDay(s).Some? {
      Dates.AsWrittenShiftsByWholeDays(s, k.offsetMinutes);
    }
  }

  /**
   * The return check does not depend on the reading: as written, both dates
   * move by the same number of days, whatever the server's offset.
   */
  lemma ReturnCheckIgnoresReading(r: QuoteRequest, k: Clock)
    ensures ReturnsBeforeDeparture(r, k) == ReturnsBeforeDeparture(r, k.(reading := Corrected))
  {
    if k.reading == AsWritten {
      ReadDayAsWritten(r.departureDate, k);
      if r.returnDate.Some? {
        ReadDayAsWritten(r.returnDate.value, k);
      }
    }
  }

  /**
   * From UTC to a day east of it the code as written and the corrected
   * reading report the same errors.
   */
  lemma ReadingsAgreeEastOfUtc(r: QuoteRequest, k: Clock)
    requires 0 <= k.offsetMinutes < Dates.MinutesPerDay
    ensures Failures(r, k) == Failures(r, k.(reading := Corrected))
    ensures PassesChecks(r, k) <==> PassesChecks(r, k.(reading := Corrected))
  {
    var k' := k.(reading := Corrected);
    if k.reading == AsWritten {
      ReadDayAsWritten(r.departureDate, k);
      ReturnCheckIgnoresReading(r, k);
    }
    assert Today(k) == Today(k');
    assert DepartsBeforeToday(r, k) == DepartsBeforeToday(r, k');
    forall c ensures Fails(r, k, c) == Fails(r, k', c) {
    }
    ReportedDependsOnlyOnVerdicts(c => Fails(r, k, c), c => Fails(r, k', c));
  }

  /** The report depends only on which checks fail. */
  lemma ReportedDependsOnlyOnVerdicts(f: Check -> bool, g: Check -> bool)
    requires forall c :: f(c) == g(c)
    ensures Reported(f) == Reported(g)
  {
  }

  /**
   * With the corrected reading, or as written from UTC to a day east of it,
   * departing today passes and departing yesterday does not.
   */
  lemma TodayIsNotPast(r: QuoteRequest, k: Clock)
    requires k.reading == Corrected || 0 <= k.offsetMinutes < Dates.MinutesPerDay
    requires Dates.CalendarDay(r.departureDate) == Some(Today(k))
    ensures !DepartsBeforeToday(r, k)
    ensures DepartsBeforeToday(r, k.(nowMs := k.nowMs + Dates.MsPerDay))
  {
    var k' := k.(nowMs := k.nowMs + Dates.MsPerDay);
    var t := k.nowMs + k.offsetMinutes * Dates.MsPerMinute;
    assert Today(k') == Today(k) + 1 by {
      assert k'.nowMs + k.offsetMinutes * Dates.MsPerMinute == t + Dates.MsPerDay;
    }
    if k.reading == AsWritten {
      ReadDayAsWritten(r.departureDate, k);
      ReadDayAsWritten(r.departureDate, k');
    }
  }

  /**
   * The code as written, west of UTC by less than a day, reports a departure
   * on today's local date as in the past, so `generateQuote` answers 400.
   */
  lemma TodayFlaggedWestOfUtc(r: QuoteRequest, k: Clock)
    requires k.reading == AsWritten && -Dates.MinutesPerDay < k.offsetMinutes < 0
    requires Dates.CalendarDay(r.departureDate) == Some(Today(k))
    ensures DepartureInPast in Failures(r, k)
    ensures !PassesChecks(r, k)
    ensures DepartureInPast !in Failures(r, k.(reading := Corrected))
  {
    ReadDayAsWritten(r.departureDate, k);
    assert k.offsetMinutes / Dates.MinutesPerDay == -1;
    FailuresAreTheFailingChecks(r, k);
    FailuresAreTheFailingChecks(r, k.(reading := Corrected));
  }

  /** A return on the departure day passes, on any clock; a missing or empty return date is never flagged. */
  lemma SameDayReturnPasses(r: QuoteRequest, k: Clock)
    requires HasReturnDate(r) ==> Dates.CalendarDay(r.returnDate.value) == Dates.CalendarDay(r.departureDate)
    ensures !ReturnsBeforeDeparture(r, k)
  {
    ReturnCheckIgnoresReading(r, k);
  }

  // ---------------------------------------------------------------------------
  // GET /api/quotes/:quoteId

  datatype LookupOutcome = MissingId | NotFound | Expired | Served(quote: QuoteResponse)

  function LookupStatus(o: LookupOutcome): int
  {
    match o
    case MissingId => 400
    case NotFound => 404
    case Expired => 410
    case Served(_) => 200
  }

  /** The decision of `getQuoteById`, from the id, what the store holds for it and the current instant. */
  function DecideLookup(quoteId: string, stored: Option<QuoteResponse>, nowMs: int): (o: LookupOutcome)
    ensures o == MissingId <==> quoteId == ""
    ensures o == NotFound <==> quoteId != "" && stored.None?
    ensures o == Expired <==> quoteId != "" && stored.Some? && stored.value.expiresAt < nowMs
    ensures o.Served? <==> quoteId != "" && stored.Some? && nowMs <= stored.value.expiresAt
    ensures o.Served? ==> o.quote == stored.value
  {
    if quoteId == "" then MissingId
    else if stored.None? then NotFound
    else if stored.value.expiresAt < nowMs then Expired
    else Served(stored.value)
  }

  /** `getQuoteById`: the store is consulted only for a non-empty id. */
  method GetQuoteById(store: Storage.MemStorage, quoteId: string, nowMs: int) returns (o: LookupOutcome)
    requires store.Valid()
    ensures o == DecideLookup(quoteId, if quoteId in store.quotes then Some(store.quotes[quoteId]) else None, nowMs)
    ensures o.Served? ==> o.quote.quoteId == quoteId
  {
    if quoteId == "" {
      return MissingId;
    }
    var quote := store.GetQuote(quoteId);
    if quote.None? {
      return NotFound;
    }
    if quote.value.expiresAt < nowMs {
      return Expired;
    }
    return Served(quote.value);
  }

  /**
   * A quote made at instant `t` is served until `t` plus 24 hours, that
   * instant included, and is expired afterwards.
   */
  lemma ServedForADay(q: QuoteResponse, t: int, nowMs: int)
    requires q.quoteId != "" && q.expiresAt == t + Pricing.QuoteLifetimeMs
    ensures DecideLookup(q.quoteId, Some(q), nowMs) == (if nowMs <= t + 86400000 then Served(q) else Expired)
  {
  }

  // ---------------------------------------------------------------------------
  // POST /api/quotes

  datatype GenerateOutcome =
    | SchemaRejected
    | Invalid(errors: seq<Check>)
    | Generated(quote: QuoteResponse)

  function GenerateStatus(o: GenerateOutcome): int
  {
    match o
    case SchemaRejected => 400
    case Invalid(_) => 400
    case Generated(_) => 200
  }

  /**
   * `generateQuote`: the schema check, the field checks, then the engine and
   * the store, which is touched only for a request that passes both. On a
   * clock with the `AsWritten` reading this is the code as it stands.
   */
  method GenerateQuote(store: Storage.MemStorage, r: QuoteRequest, quoteId: string, k: Clock)
    returns (o: GenerateOutcome)
    requires store.Valid()
    modifies store
    ensures store.Valid()
    ensures o.SchemaRejected? <==> !ValidRequest(r)
    ensures o.Invalid? <==> ValidRequest(r) && !PassesChecks(r, k)
    ensures o.Invalid? ==> o.errors == Failures(r, k) && o.errors != []
    ensures o.Invalid? ==> TooFewPassengers !in o.errors && TooManyPassengers !in o.errors
    ensures !o.Generated? ==> unchanged(store)
    ensures o.Generated? ==>
      && o.quote.quoteId == quoteId && o.quote.tripDetails == r
      && o.quote.breakdown == Pricing.Breakdown(r)
      && o.quote.subtotal == Pricing.SubtotalCents(r)
      && o.quote.serviceFee == Pricing.ServiceFeeCents(r)
      && o.quote.total == Pricing.TotalCents(r)
      && o.quote.createdAt == None
      && o.quote.expiresAt == k.nowMs + Pricing.QuoteLifetimeMs
      && store.quotes == old(store.quotes)[quoteId := o.quote]
      && store.quoteOrder == Storage.InsertOrder(old(store.quoteOrder), quoteId)
      && store.users == old(store.users) && store.currentUserId == old(store.currentUserId)
  {
    if !ValidRequest(r) {
      return SchemaRejected;
    }
    var errors := ValidateQuoteRequest(r, k);
    if errors != [] {
      return Invalid(errors);
    }
    var quote := Pricing.CalculateQuote(r, quoteId, k.nowMs);
    Pricing.RoundingIsExact(r);
    var saved := store.SaveQuote(quote);
    return Generated(saved);
  }

  /** A request the schema admits always passes the passenger checks, so those two errors never reach a caller. */
  lemma SchemaSubsumesPassengerChecks(r: QuoteRequest)
    requires ValidRequest(r)
    ensures !(r.numPassengers < 1) && !(r.numPassengers > 100)
  {
  }
}
