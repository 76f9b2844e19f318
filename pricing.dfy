/**
 * The quote pricing engine: a flat step model. Every breakdown line is a whole
 * number of dollars (kept here in cents); the subtotal is the sum of the lines,
 * scaled by 1.8 for round trips; the service fee is 10% of the subtotal and
 * the total is their sum, each rounded to cents.
 */
module Pricing {
  import opened Wrappers
  import opened Schema
  import Text

  const StandardBasePrice := 10000
  const LuxuryBasePrice := 20000
  const DefaultDistanceFee := 8500
  const MidDistanceFee := 12000
  const LongDistanceFee := 15000
  const DurationFee := 12000
  const AmenityFee := 2500
  const RoundTripMultiplier: real := 1.8
  const ServiceFeeRate: real := 0.10
  const KmPerDegree: real := 111.0
  /** `setHours(getHours() + 24)`, with no daylight-saving change in between. */
  const QuoteLifetimeMs := 24 * 60 * 60 * 1000

  // ---------------------------------------------------------------------------
  // The step functions

  function BasePrice(b: BusType): int
  {
    if b == Luxury then LuxuryBasePrice else StandardBasePrice
  }

  function PassengerAdjustment(n: int): int
  {
    if n > 50 then 15000 else if n > 30 then 10000 else if n > 15 then 5000 else 0
  }

  /** JavaScript truthiness of an optional number: present and not zero. */
  predicate Truthy(x: Option<real>)
  {
    x.Some? && x.value != 0.0
  }

  /** The distance fee is recomputed only when all four coordinates are truthy. */
  predicate HasCoordinates(p: Location, d: Location)
  {
    Truthy(p.lat) && Truthy(p.lng) && Truthy(d.lat) && Truthy(d.lng)
  }

  function Abs(x: real): (a: real)
    ensures a >= 0.0 && a * a == x * x
  {
    if x < 0.0 then -x else x
  }

  /** `latDiff * latDiff + lngDiff * lngDiff`, in squared degrees. */
  function SquaredDegrees(p: Location, d: Location): (sq: real)
    requires HasCoordinates(p, d)
    ensures sq >= 0.0
  {
    var latDiff := Abs(p.lat.value - d.lat.value);
    var lngDiff := Abs(p.lng.value - d.lng.value);
    latDiff * latDiff + lngDiff * lngDiff
  }

  /** `Math.sqrt(sq) * 111 > km`, stated without the square root. */
  predicate RoughDistanceExceeds(sq: real, km: real)
  {
    sq * (KmPerDegree * KmPerDegree) > km * km
  }

  /** The squared comparison agrees with the square-root comparison for every non-negative root. */
  lemma RoughDistanceMatchesSqrt(sq: real, root: real, km: real)
    requires root >= 0.0 && root * root == sq && km >= 0.0
    ensures (root * KmPerDegree > km) <==> RoughDistanceExceeds(sq, km)
  {
    var x := root * KmPerDegree;
    assert x * x == sq * (KmPerDegree * KmPerDegree);
    if x > km {
      assert x * x > km * km by {
        assert x * x - km * km == (x - km) * (x + km);
        assert x - km > 0.0 && x + km > 0.0;
        assert (x - km) * (x + km) > 0.0;
      }
    } else {
      assert x * x <= km * km by { assert km * km - x * x == (km - x) * (km + x); }
    }
  }

  function DistanceFee(p: Location, d: Location): (fee: int)
    ensures fee == DefaultDistanceFee || fee == MidDistanceFee || fee == LongDistanceFee
    ensures !HasCoordinates(p, d) ==> fee == DefaultDistanceFee
  {
    if !HasCoordinates(p, d) then DefaultDistanceFee
    else if RoughDistanceExceeds(SquaredDegrees(p, d), 50.0) then LongDistanceFee
    else if RoughDistanceExceeds(SquaredDegrees(p, d), 20.0) then MidDistanceFee
    else DefaultDistanceFee
  }

  /** `amenities = []` when the field is absent. */
  function Amenities(r: QuoteRequest): seq<string>
  {
    if r.amenities.Some? then r.amenities.value else []
  }

  // ---------------------------------------------------------------------------
  // The breakdown lines

  function BaseItem(r: QuoteRequest): BreakdownItem
  {
    var bus := BusTypeName(r.busType);
    BreakdownItem("Base Price (" + bus + ")", "Starting price for " + bus + " charter bus",
                  BasePrice(r.busType), None)
  }

  function PassengerItem(r: QuoteRequest): BreakdownItem
  {
    BreakdownItem("Passenger Count Adjustment",
                  "Based on " + Text.IntToString(r.numPassengers) + " passengers",
                  PassengerAdjustment(r.numPassengers), None)
  }

  function DistanceItem(r: QuoteRequest): BreakdownItem
  {
    BreakdownItem("Distance Fee",
                  "From " + Text.BeforeFirst(r.pickupLocation.formattedAddress, ',')
                  + " to " + Text.BeforeFirst(r.dropoffLocation.formattedAddress, ','),
                  DistanceFee(r.pickupLocation, r.dropoffLocation), None)
  }

  const DurationItem := BreakdownItem("Duration Fee", "Estimated trip time", DurationFee, None)

  function AmenitiesItem(count: nat): BreakdownItem
  {
    BreakdownItem("Additional Amenities", Text.IntToString(count) + " amenities selected",
                  count * AmenityFee, None)
  }

  const RoundTripItem := BreakdownItem("Round Trip Multiplier", "Return journey discount applied",
                                       0, Some(RoundTripMultiplier))

  /** The breakdown, in the order the engine pushes its lines. */
  function Breakdown(r: QuoteRequest): seq<BreakdownItem>
  {
    [BaseItem(r), PassengerItem(r), DistanceItem(r), DurationItem]
    + (if |Amenities(r)| > 0 then [AmenitiesItem(|Amenities(r)|)] else [])
    + (if r.tripType == RoundTrip then [RoundTripItem] else [])
  }

  /** `breakdown.reduce((sum, item) => sum + item.amount, 0)`. */
  function SumAmounts(items: seq<BreakdownItem>): int
  {
    if items == [] then 0 else SumAmounts(items[..|items| - 1]) + items[|items| - 1].amount
  }

  lemma {:induction false} SumAmountsConcat(a: seq<BreakdownItem>, b: seq<BreakdownItem>)
    ensures SumAmounts(a + b) == SumAmounts(a) + SumAmounts(b)
  {
    if b != [] {
      assert (a + b)[..|a + b| - 1] == a + b[..|b| - 1];
      SumAmountsConcat(a, b[..|b| - 1]);
    } else {
      assert a + b == a;
    }
  }

  function TripMultiplier(t: TripType): real
  {
    if t == RoundTrip then RoundTripMultiplier else 1.0
  }

  /** `Math.round`: the nearest integer, halves rounded up. */
  function RoundHalfUp(x: real): int
  {
    (x + 0.5).Floor
  }

  lemma RoundHalfUpOfInteger(n: int)
    ensures RoundHalfUp(n as real) == n
  {
  }

  /**
   * The source's dollar arithmetic on a whole-dollar sum: scaling, the 10% fee
   * and the total all land on whole cents, so each `Math.round` is exact.
   */
  lemma DollarArithmeticIsExact(sum: int, t: TripType)
    requires sum % 100 == 0
    ensures var subtotal := sum as real / 100.0 * TripMultiplier(t);
      var cents := if t == RoundTrip then sum * 18 / 10 else sum;
      && RoundHalfUp(subtotal * 100.0) == cents
      && RoundHalfUp(subtotal * ServiceFeeRate * 100.0) * 10 == cents
      && RoundHalfUp((subtotal + RoundHalfUp(subtotal * ServiceFeeRate * 100.0) as real / 100.0) * 100.0)
         == cents + cents / 10
  {
    var dollars := sum / 100;
    var subtotal := sum as real / 100.0 * TripMultiplier(t);
    var units := if t == RoundTrip then dollars * 18 else dollars * 10;
    assert sum == dollars * 100;
    assert subtotal == dollars as real * TripMultiplier(t);
    assert subtotal * 100.0 == (units * 10) as real;
    assert subtotal * ServiceFeeRate * 100.0 == units as real;
    RoundHalfUpOfInteger(units * 10);
    RoundHalfUpOfInteger(units);
    assert (subtotal + units as real / 100.0) * 100.0 == (units * 11) as real;
    RoundHalfUpOfInteger(units * 11);
    var cents := if t == RoundTrip then sum * 18 / 10 else sum;
    assert cents == units * 10;
  }

  // ---------------------------------------------------------------------------
  // The amounts the engine reports, in exact cents

  function SubtotalCents(r: QuoteRequest): int
  {
    var sum := SumAmounts(Breakdown(r));
    if r.tripType == RoundTrip then sum * 18 / 10 else sum
  }

  function ServiceFeeCents(r: QuoteRequest): int
  {
    SubtotalCents(r) / 10
  }

  function TotalCents(r: QuoteRequest): int
  {
    SubtotalCents(r) + ServiceFeeCents(r)
  }

  // ---------------------------------------------------------------------------
  // The engine

  /**
   * The first half of `calculateQuote`: the breakdown, pushed line by line
   * with the step amounts computed as the source computes them.
   */
  method BuildBreakdown(r: QuoteRequest) returns (breakdown: seq<BreakdownItem>)
    ensures breakdown == Breakdown(r)
  {
    var amenities := Amenities(r);
    breakdown := [];

    // 1. Base price by bus type
    var basePrice := if r.busType == Luxury then LuxuryBasePrice else StandardBasePrice;
    var bus := BusTypeName(r.busType);
    breakdown := breakdown + [BreakdownItem("Base Price (" + bus + ")",
                                            "Starting price for " + bus + " charter bus",
                                            basePrice, None)];
    assert breakdown == [BaseItem(r)];

    // 2. Passenger count adjustment
    var passengerPrice := 0;
    if r.numPassengers > 50 {
      passengerPrice := 15000;
    } else if r.numPassengers > 30 {
      passengerPrice := 10000;
    } else if r.numPassengers > 15 {
      passengerPrice := 5000;
    }
    breakdown := breakdown + [BreakdownItem("Passenger Count Adjustment",
                                            "Based on " + Text.IntToString(r.numPassengers) + " passengers",
                                            passengerPrice, None)];
    assert breakdown == [BaseItem(r), PassengerItem(r)];

    // 3. Distance fee, recomputed from coordinates when all four are truthy
    var p, d := r.pickupLocation, r.dropoffLocation;
    var distanceFee := DefaultDistanceFee;
    if Truthy(p.lat) && Truthy(p.lng) && Truthy(d.lat) && Truthy(d.lng) {
      var latDiff := Abs(p.lat.value - d.lat.value);
      var lngDiff := Abs(p.lng.value - d.lng.value);
      var squared := latDiff * latDiff + lngDiff * lngDiff;
      if RoughDistanceExceeds(squared, 50.0) {
        distanceFee := LongDistanceFee;
      } else if RoughDistanceExceeds(squared, 20.0) {
        distanceFee := MidDistanceFee;
      }
    }
    breakdown := breakdown + [BreakdownItem("Distance Fee",
                                            "From " + Text.BeforeFirst(p.formattedAddress, ',')
                                            + " to " + Text.BeforeFirst(d.formattedAddress, ','),
                                            distanceFee, None)];
    assert breakdown == [BaseItem(r), PassengerItem(r), DistanceItem(r)];

    // 4. Duration fee
    breakdown := breakdown + [BreakdownItem("Duration Fee", "Estimated trip time", DurationFee, None)];

    // 5. Amenities fee
    if |amenities| > 0 {
      breakdown := breakdown + [BreakdownItem("Additional Amenities",
                                              Text.IntToString(|amenities|) + " amenities selected",
                                              |amenities| * AmenityFee, None)];
    }

    // 6. Round-trip multiplier line
    if r.tripType == RoundTrip {
      breakdown := breakdown + [BreakdownItem("Round Trip Multiplier", "Return journey discount applied",
                                              0, Some(RoundTripMultiplier))];
    }
  }

  /** The `reduce` fold: the sum of the line amounts. */
  method SumLines(items: seq<BreakdownItem>) returns (sum: int)
    ensures sum == SumAmounts(items)
  {
    sum := 0;
    var i := 0;
    while i < |items|
      invariant 0 <= i <= |items|
      invariant sum == SumAmounts(items[..i])
    {
      assert items[..i + 1][..i] == items[..i];
      sum := sum + items[i].amount;
      i := i + 1;
    }
    assert items[..i] == items;
  }

  /**
   * `calculateQuote`, with the fresh identifier and the current instant as
   * parameters: the breakdown, its sum scaled by the trip multiplier, and the
   * fee and total rounded to cents as the source does. The contract states
   * that every rounding is exact and that the result lacks `createdAt`.
   */
  method CalculateQuote(r: QuoteRequest, quoteId: string, nowMs: int) returns (q: QuoteResponse)
    ensures q.quoteId == quoteId && q.tripDetails == r
    ensures q.expiresAt == nowMs + QuoteLifetimeMs && q.createdAt == None
    ensures q.breakdown == Breakdown(r)
    ensures q.subtotal == SubtotalCents(r)
    ensures q.serviceFee * 10 == q.subtotal
    ensures q.total == q.subtotal + q.serviceFee
    ensures q.serviceFee == RoundHalfUp(q.subtotal as real * ServiceFeeRate)
    ensures !ValidResponse(q)
  {
    var breakdown := BuildBreakdown(r);
    var tripMultiplier := if r.tripType == RoundTrip then RoundTripMultiplier else 1.0;

    var sum := SumLines(breakdown);
    // The source computes in dollars; the amounts here are cents.
    var subtotal: real := sum as real / 100.0;
    subtotal := subtotal * tripMultiplier;
    var serviceFee := RoundHalfUp(subtotal * ServiceFeeRate * 100.0);
    var total := RoundHalfUp((subtotal + serviceFee as real / 100.0) * 100.0);
    var expiresAt := nowMs + QuoteLifetimeMs;

    SumIsWholeDollars(r);
    DollarArithmeticIsExact(sum, r.tripType);
    q := QuoteResponse(quoteId, r, breakdown, RoundHalfUp(subtotal * 100.0), serviceFee, total,
                       None, expiresAt);
    RoundHalfUpOfInteger(serviceFee);
    assert q.subtotal as real * ServiceFeeRate == serviceFee as real;
  }

  // ---------------------------------------------------------------------------
  // Properties of the pricing law

  /** The breakdown has its lines in a fixed order; the optional ones appear exactly when they apply. */
  lemma BreakdownLayout(r: QuoteRequest)
    ensures var b := Breakdown(r);
      var k := |Amenities(r)|;
      && |b| == 4 + (if k > 0 then 1 else 0) + (if r.tripType == RoundTrip then 1 else 0)
      && 4 <= |b| <= 6
      && b[0].amount == BasePrice(r.busType)
      && b[1].name == "Passenger Count Adjustment"
      && b[1].amount == PassengerAdjustment(r.numPassengers)
      && b[2].name == "Distance Fee"
      && b[2].amount == DistanceFee(r.pickupLocation, r.dropoffLocation)
      && b[3].name == "Duration Fee" && b[3].amount == DurationFee
      && (k > 0 ==> b[4].name == "Additional Amenities" && b[4].amount == AmenityFee * k)
      && (r.tripType == RoundTrip <==> b[|b| - 1] == RoundTripItem)
      && (forall i :: 0 <= i < |b| && b[i].multiplier.Some? ==> b[i] == RoundTripItem)
      && (forall i :: 0 <= i < |b| ==> b[i].amount >= 0 && b[i].amount % 100 == 0)
  {
  }

  /** The base price: 200 dollars for luxury, 100 otherwise. */
  lemma BasePriceByBusType(r: QuoteRequest)
    ensures Breakdown(r)[0].amount == (if r.busType == Luxury then 20000 else 10000)
    ensures Breakdown(r)[0].name == "Base Price (" + BusTypeName(r.busType) + ")"
  {
  }

  /** The passenger steps, and that more passengers never cost less. */
  lemma PassengerAdjustmentSteps(n: int, m: int)
    ensures PassengerAdjustment(n) == (if n > 50 then 15000 else if n > 30 then 10000
                                       else if n > 15 then 5000 else 0)
    ensures n <= m ==> PassengerAdjustment(n) <= PassengerAdjustment(m)
  {
  }

  /** Any one of the four coordinates absent or exactly zero keeps the default distance fee. */
  lemma FalsyCoordinateKeepsDefault(r: QuoteRequest)
    requires || !Truthy(r.pickupLocation.lat) || !Truthy(r.pickupLocation.lng)
             || !Truthy(r.dropoffLocation.lat) || !Truthy(r.dropoffLocation.lng)
    ensures Breakdown(r)[2].amount == DefaultDistanceFee
  {
  }

  /**
   * The distance steps, in kilometres: with `root` the square root of the
   * squared degrees, more than 50 km gives 150 dollars, more than 20 km
   * gives 120, and anything shorter 85.
   */
  lemma DistanceFeeSteps(p: Location, d: Location, root: real)
    requires HasCoordinates(p, d)
    requires root >= 0.0 && root * root == SquaredDegrees(p, d)
    ensures var km := root * KmPerDegree;
      DistanceFee(p, d) == (if km > 50.0 then 15000 else if km > 20.0 then 12000 else 8500)
  {
    RoughDistanceMatchesSqrt(SquaredDegrees(p, d), root, 50.0);
    RoughDistanceMatchesSqrt(SquaredDegrees(p, d), root, 20.0);
  }

  /** Absent amenities are no amenities; the amenities line is 25 dollars per tag, whatever the tags say. */
  lemma AmenitiesLine(r: QuoteRequest)
    ensures r.amenities.None? ==> Breakdown(r) == Breakdown(r.(amenities := Some([])))
    ensures forall tags: seq<string> :: |tags| == |Amenities(r)| ==>
              SumAmounts(Breakdown(r.(amenities := Some(tags)))) == SumAmounts(Breakdown(r))
  {
    forall tags: seq<string> | |tags| == |Amenities(r)|
      ensures SumAmounts(Breakdown(r.(amenities := Some(tags)))) == SumAmounts(Breakdown(r))
    {
      BreakdownSum(r);
      BreakdownSum(r.(amenities := Some(tags)));
    }
  }

  /** The sum of the lines, the round-trip line contributing nothing. */
  lemma {:induction false} BreakdownSum(r: QuoteRequest)
    ensures SumAmounts(Breakdown(r)) ==
            BasePrice(r.busType) + PassengerAdjustment(r.numPassengers)
            + DistanceFee(r.pickupLocation, r.dropoffLocation) + DurationFee
            + AmenityFee * |Amenities(r)|
  {
    var k := |Amenities(r)|;
    var fixed := [BaseItem(r), PassengerItem(r), DistanceItem(r), DurationItem];
    var amen: seq<BreakdownItem> := if k > 0 then [AmenitiesItem(k)] else [];
    var rt: seq<BreakdownItem> := if r.tripType == RoundTrip then [RoundTripItem] else [];
    SumAmountsConcat(fixed + amen, rt);
    SumAmountsConcat(fixed, amen);
    assert fixed[..3] == [BaseItem(r), PassengerItem(r), DistanceItem(r)];
    assert fixed[..3][..2] == [BaseItem(r), PassengerItem(r)];
    assert fixed[..3][..2][..1] == [BaseItem(r)];
    assert fixed[..3][..2][..1][..0] == [];
    assert SumAmounts([BaseItem(r)]) == BaseItem(r).amount;
    assert SumAmounts([BaseItem(r), PassengerItem(r)]) == BaseItem(r).amount + PassengerItem(r).amount;
    assert SumAmounts(fixed[..3]) == BaseItem(r).amount + PassengerItem(r).amount + DistanceItem(r).amount;
    assert SumAmounts(fixed) == BaseItem(r).amount + PassengerItem(r).amount
                                + DistanceItem(r).amount + DurationFee;
    if k > 0 {
      assert amen[..0] == [];
    }
    if r.tripType == RoundTrip {
      assert rt[..0] == [];
    }
  }

  /** Every line is whole dollars, so their sum is. */
  lemma SumIsWholeDollars(r: QuoteRequest)
    ensures SumAmounts(Breakdown(r)) % 100 == 0
  {
    BreakdownSum(r);
    var k := |Amenities(r)|;
    var fixed := BasePrice(r.busType) + PassengerAdjustment(r.numPassengers)
                 + DistanceFee(r.pickupLocation, r.dropoffLocation) + DurationFee;
    assert fixed == (fixed / 100) * 100;
    assert SumAmounts(Breakdown(r)) == (fixed / 100 + 25 * k) * 100;
  }

  /** Every line is whole dollars, so the round-trip subtotal is exact and the fee is exactly 10%. */
  lemma RoundingIsExact(r: QuoteRequest)
    ensures r.tripType == RoundTrip ==> SubtotalCents(r) * 10 == SumAmounts(Breakdown(r)) * 18
    ensures ServiceFeeCents(r) * 10 == SubtotalCents(r)
    ensures TotalCents(r) * 10 == SubtotalCents(r) * 11
  {
    SumIsWholeDollars(r);
    var sum := SumAmounts(Breakdown(r));
    var dollars := sum / 100;
    assert sum == dollars * 100;
    assert r.tripType == RoundTrip ==> SubtotalCents(r) == dollars * 180;
    assert r.tripType == OneWay ==> SubtotalCents(r) == dollars * 100;
  }

  /** The least subtotal is 305 dollars one way and 549 dollars for a round trip. */
  lemma SubtotalBounds(r: QuoteRequest)
    ensures r.tripType == OneWay ==> SubtotalCents(r) >= 30500
    ensures r.tripType == RoundTrip ==> SubtotalCents(r) >= 54900
  {
    BreakdownSum(r);
  }

  /** All else equal, a luxury bus costs more than a standard one. */
  lemma LuxuryCostsMore(r: QuoteRequest)
    ensures TotalCents(r.(busType := Luxury)) > TotalCents(r.(busType := Standard))
  {
    BreakdownSum(r.(busType := Luxury));
    BreakdownSum(r.(busType := Standard));
  }

  /** All else equal, a round trip costs more than a one-way trip. */
  lemma RoundTripCostsMore(r: QuoteRequest)
    ensures TotalCents(r.(tripType := RoundTrip)) > TotalCents(r.(tripType := OneWay))
  {
    BreakdownSum(r.(tripType := RoundTrip));
    BreakdownSum(r.(tripType := OneWay));
  }
}
