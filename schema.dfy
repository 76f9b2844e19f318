/**
 * The shared request/response schemas. A zod object becomes a datatype (a
 * JSON number becomes `int` or `real`, an optional field an `Option`, an enum
 * a datatype of constants); what the datatypes cannot express, such as the
 * passenger bound, is the validity predicate beside it.
 */
module Schema {
  import opened Wrappers

  datatype TripType = OneWay | RoundTrip
  datatype BusType = Standard | Luxury

  /** The enum literal of a trip type as it travels in JSON. */
  function TripTypeName(t: TripType): string
  {
    match t
    case OneWay => "oneWay"
    case RoundTrip => "roundTrip"
  }

  /** The enum literal of a bus type as it travels in JSON. */
  function BusTypeName(b: BusType): string
  {
    match b
    case Standard => "standard"
    case Luxury => "luxury"
  }

  /** Parsing an enum literal: anything but the listed strings is rejected. */
  function ParseBusType(s: string): (r: Option<BusType>)
    ensures r.Some? ==> BusTypeName(r.value) == s
    ensures forall b :: BusTypeName(b) == s ==> r == Some(b)
  {
    if s == "standard" then Some(Standard)
    else if s == "luxury" then Some(Luxury)
    else None
  }

  function ParseTripType(s: string): (r: Option<TripType>)
    ensures r.Some? ==> TripTypeName(r.value) == s
    ensures forall t :: TripTypeName(t) == s ==> r == Some(t)
  {
    if s == "oneWay" then Some(OneWay)
    else if s == "roundTrip" then Some(RoundTrip)
    else None
  }

  /** A place: three required strings and optional coordinates. */
  datatype Location = Location(
    placeId: string,
    formattedAddress: string,
    addressInput: string,
    lat: Option<real>,
    lng: Option<real>)

  datatype QuoteRequest = QuoteRequest(
    tripType: TripType,
    numPassengers: int,
    departureDate: string,
    departureTime: string,
    returnDate: Option<string>,
    pickupLocation: Location,
    dropoffLocation: Location,
    busType: BusType,
    amenities: Option<seq<string>>,
    specialRequirements: Option<string>)

  /** One line of the price breakdown; `amount` is in cents. */
  datatype BreakdownItem = BreakdownItem(
    name: string,
    description: string,
    amount: int,
    multiplier: Option<real>)

  /**
   * A quote. Money is in cents; `createdAt` and `expiresAt` are the instants
   * their ISO texts denote, in milliseconds since the epoch.
   */
  datatype QuoteResponse = QuoteResponse(
    quoteId: string,
    tripDetails: QuoteRequest,
    breakdown: seq<BreakdownItem>,
    subtotal: int,
    serviceFee: int,
    total: int,
    createdAt: Option<int>,
    expiresAt: int)

  const MinPassengers := 1
  const MaxPassengers := 100

  /** `quoteRequestSchema`: the only constraint beyond the types is the passenger bound. */
  predicate ValidRequest(r: QuoteRequest)
  {
    MinPassengers <= r.numPassengers <= MaxPassengers
  }

  /** `quoteResponseSchema`: the trip details are a valid request and both timestamps are present. */
  predicate ValidResponse(q: QuoteResponse)
  {
    ValidRequest(q.tripDetails) && q.createdAt.Some?
  }

  /** The schema does not tie a return date to round trips: a one-way request may carry one. */
  lemma OneWayMayCarryReturnDate()
    ensures exists r: QuoteRequest :: ValidRequest(r) && r.tripType == OneWay && r.returnDate.Some?
  {
    var here := Location("a", "A", "A", None, None);
    var r := QuoteRequest(OneWay, 1, "2030-01-01", "10:00", Some("2030-01-02"),
                          here, here, Standard, None, None);
    assert ValidRequest(r) && r.tripType == OneWay && r.returnDate.Some?;
  }
}
