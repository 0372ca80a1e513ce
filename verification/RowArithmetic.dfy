/** Whether a bill row's printed quantity, rate and amount can agree, given the precision they are
    printed at. */
module RowArithmetic {
  import opened Options
  import opened Decimals

  datatype Consistency = Exact | ConsistentWithDisplayRounding | Review

  datatype Classification = Classification(
    consistency: Consistency,
    exactProduct: real,
    statedAmount: Decimal,
    difference: real,
    minimumPossibleAmount: real,
    maximumPossibleAmount: real,
    rateDecimals: nat,
    amountDecimals: nat,
    rateRoundingUnit: real,
    impliedRate: Option<Decimal>,
    rateDifference: Option<real>)

  function Min(x: real, y: real): real { if x <= y then x else y }

  function Max(x: real, y: real): real { if x >= y then x else y }

  function Times(x: real, y: real): real { x * y }

  function Abs(x: real): real { if x < 0.0 then -x else x }

  /** Half of the last printed place. */
  function HalfUnit(d: Decimal): real {
    Unit(d.PrintedExponent()) / 2.0
  }

  /** The overlap test between what the printed amount stands for and what the printed rate can
      produce. `h` and `g` are half of the last printed place of the rate and of the amount. */
  function Verdict(q: real, r: real, a: real, h: real, g: real): Consistency {
    var low, high := Times(q, r - h), Times(q, r + h);
    if Times(q, r) == a then Exact
    else if a - g <= Max(low, high) && a + g >= Min(low, high) then ConsistentWithDisplayRounding
    else Review
  }

  function ConsistencyOf(quantity: Decimal, rate: Decimal, amount: Decimal): Consistency {
    Verdict(quantity.Value(), rate.Value(), amount.Value(), HalfUnit(rate), HalfUnit(amount))
  }

  /** The question `_closes` asks of a triple. */
  predicate Closes(quantity: Decimal, rate: Decimal, amount: Decimal) {
    !ConsistencyOf(quantity, rate, amount).Review?
  }

  function ImpliedRate(q: real, a: real): Option<Decimal> {
    if q == 0.0 then None else Some(Quantise(a / q, -10))
  }

  function Classify(quantity: Decimal, rate: Decimal, amount: Decimal): Classification {
    var q, r, a, h := quantity.Value(), rate.Value(), amount.Value(), HalfUnit(rate);
    var low, high := Times(q, r - h), Times(q, r + h);
    var implied := ImpliedRate(q, a);
    Classification(
      ConsistencyOf(quantity, rate, amount),
      Times(q, r), amount, a - Times(q, r), Min(low, high), Max(low, high),
      rate.DisplayedDecimals(), amount.DisplayedDecimals(), Unit(rate.PrintedExponent()),
      implied,
      if implied.None? then None else Some(implied.value.Value() - r))
  }

  // ---- What the verdict means ----

  /** Rounding the true value `x` at the printed precision of `d` could have printed `d`. */
  predicate CouldPrintAs(x: real, d: Decimal) {
    Abs(x - d.Value()) <= HalfUnit(d)
  }

  /** `trueRate`, and the amount computed from it, are both hidden by what the row prints. */
  predicate Explains(trueRate: real, quantity: Decimal, rate: Decimal, amount: Decimal) {
    CouldPrintAs(trueRate, rate) && CouldPrintAs(Times(quantity.Value(), trueRate), amount)
  }

  function Envelope(quantity: Decimal, rate: Decimal, amount: Decimal): real {
    Times(Abs(quantity.Value()), HalfUnit(rate)) + HalfUnit(amount)
  }

  lemma VerdictIsOneInequality(q: real, r: real, a: real, h: real, g: real)
    requires h > 0.0 && g > 0.0
    ensures !Verdict(q, r, a, h, g).Review? <==> Abs(a - Times(q, r)) <= Times(Abs(q), h) + g
  {
    Spread(q, r, h);
  }

  lemma Spread(q: real, r: real, h: real)
    requires h > 0.0
    ensures Min(Times(q, r - h), Times(q, r + h)) == Times(q, r) - Times(Abs(q), h)
    ensures Max(Times(q, r - h), Times(q, r + h)) == Times(q, r) + Times(Abs(q), h)
    ensures Times(Abs(q), h) >= 0.0
  {
    assert q * (r - h) == q * r - q * h;
    assert q * (r + h) == q * r + q * h;
    Monotone(0.0, Abs(q), h);
  }

  lemma HalfUnitPositive(d: Decimal)
    ensures HalfUnit(d) > 0.0
  {
    UnitPositive(d.PrintedExponent());
  }

  /** The verdict as one inequality, for every sign of quantity and rate. */
  lemma ClosesIffWithinEnvelope(quantity: Decimal, rate: Decimal, amount: Decimal)
    ensures Closes(quantity, rate, amount)
            <==> Abs(amount.Value() - Times(quantity.Value(), rate.Value())) <= Envelope(quantity, rate, amount)
  {
    HalfUnitPositive(rate);
    HalfUnitPositive(amount);
    VerdictIsOneInequality(quantity.Value(), rate.Value(), amount.Value(), HalfUnit(rate), HalfUnit(amount));
  }

  lemma Monotone(x: real, y: real, factor: real)
    requires factor >= 0.0 && x <= y
    ensures Times(factor, x) <= Times(factor, y)
  {
  }

  /** A row is reviewed exactly when no true rate and true amount could have been printed like it. */
  lemma ReviewIffUnexplained(quantity: Decimal, rate: Decimal, amount: Decimal)
    ensures Classify(quantity, rate, amount).consistency.Review?
            <==> !exists trueRate :: Explains(trueRate, quantity, rate, amount)
  {
    ClosesIffWithinEnvelope(quantity, rate, amount);
    HalfUnitPositive(rate);
    HalfUnitPositive(amount);
    if Closes(quantity, rate, amount) {
      var trueRate := Nearest(quantity.Value(), rate.Value(), amount.Value(), HalfUnit(rate), HalfUnit(amount));
      assert Explains(trueRate, quantity, rate, amount);
    }
    forall trueRate | Explains(trueRate, quantity, rate, amount)
      ensures Closes(quantity, rate, amount)
    {
      ScaledDistance(quantity.Value(), trueRate, rate.Value(), HalfUnit(rate));
    }
  }

  lemma ScaledDistance(q: real, x: real, y: real, h: real)
    requires Abs(x - y) <= h
    ensures Abs(Times(q, x) - Times(q, y)) <= Times(Abs(q), h)
  {
    assert q * x - q * y == q * (x - y);
    Monotone(x - y, h, Abs(q));
    Monotone(-h, x - y, Abs(q));
  }

  /** A true rate for a row that closes: the one whose amount is the printed amount moved as little
      as possible into the product envelope. */
  lemma Nearest(q: real, r: real, a: real, h: real, g: real) returns (t: real)
    requires h > 0.0 && g > 0.0 && Abs(a - Times(q, r)) <= Times(Abs(q), h) + g
    ensures Abs(t - r) <= h && Abs(Times(q, t) - a) <= g
  {
    if q == 0.0 {
      t := r;
    } else {
      Spread(q, r, h);
      var target := Max(Times(q, r) - Times(Abs(q), h), Min(Times(q, r) + Times(Abs(q), h), a));
      t := Divide(target, q);
      Distributes(q, t, r);
      DivideDistance(q, t - r, h);
    }
  }

  lemma Divide(target: real, q: real) returns (t: real)
    requires q != 0.0
    ensures Times(q, t) == target
  {
    t := target / q;
  }

  lemma Distributes(q: real, x: real, y: real)
    ensures Times(q, x - y) == Times(q, x) - Times(q, y)
  {
  }

  lemma DivideDistance(q: real, x: real, h: real)
    requires q != 0.0 && Abs(Times(q, x)) <= Times(Abs(q), h)
    ensures Abs(x) <= h
  {
    if x > h { StrictScale(h, x, Abs(q)); }
    if x < -h { StrictScale(x, -h, Abs(q)); }
  }

  lemma StrictScale(x: real, y: real, unit: real)
    requires unit > 0.0 && x < y
    ensures unit * x < unit * y
  {
  }

  /** A bill that prints a true rate and its true product, each rounded to its own number of places,
      is never sent to review. */
  lemma HonestRowsAlwaysClose(quantity: Decimal, trueRate: real, ratePlaces: nat, amountPlaces: nat)
    ensures Closes(quantity, Quantise(trueRate, 0 - ratePlaces),
                   Quantise(Times(quantity.Value(), trueRate), 0 - amountPlaces))
  {
    var trueAmount := Times(quantity.Value(), trueRate);
    QuantiseIsNearest(trueRate, 0 - ratePlaces);
    QuantiseIsNearest(trueAmount, 0 - amountPlaces);
    var rate, amount := Quantise(trueRate, 0 - ratePlaces), Quantise(trueAmount, 0 - amountPlaces);
    assert Explains(trueRate, quantity, rate, amount);
    ReviewIffUnexplained(quantity, rate, amount);
  }

  /** Printing more places never excuses more: a row in review stays there when the same rate and
      amount are printed to at least as many places. */
  lemma MorePlacesNeverExcuse(quantity: Decimal, rate: Decimal, amount: Decimal, rate': Decimal, amount': Decimal)
    requires rate'.Value() == rate.Value() && rate'.DisplayedDecimals() >= rate.DisplayedDecimals()
    requires amount'.Value() == amount.Value() && amount'.DisplayedDecimals() >= amount.DisplayedDecimals()
    ensures Closes(quantity, rate', amount') ==> Closes(quantity, rate, amount)
  {
    ClosesIffWithinEnvelope(quantity, rate, amount);
    ClosesIffWithinEnvelope(quantity, rate', amount');
    UnitGrows(rate'.PrintedExponent(), rate.PrintedExponent());
    UnitGrows(amount'.PrintedExponent(), amount.PrintedExponent());
    Monotone(HalfUnit(rate'), HalfUnit(rate), Abs(quantity.Value()));
  }

  /** The reported window is exactly the range of amounts a rate hidden by the printed one can
      produce, both ends included, and the signed difference is the stated amount minus the product. */
  lemma WindowIsExact(quantity: Decimal, rate: Decimal, amount: Decimal, trueRate: real)
    requires CouldPrintAs(trueRate, rate)
    ensures var c := Classify(quantity, rate, amount);
            && c.minimumPossibleAmount <= Times(quantity.Value(), trueRate) <= c.maximumPossibleAmount
            && (exists low :: CouldPrintAs(low, rate) && Times(quantity.Value(), low) == c.minimumPossibleAmount)
            && (exists high :: CouldPrintAs(high, rate) && Times(quantity.Value(), high) == c.maximumPossibleAmount)
            && c.exactProduct + c.difference == amount.Value()
  {
    var q, r, h := quantity.Value(), rate.Value(), HalfUnit(rate);
    HalfUnitPositive(rate);
    Spread(q, r, h);
    ScaledDistance(q, trueRate, r, h);
    assert CouldPrintAs(r - h, rate) && CouldPrintAs(r + h, rate);
  }

  /** A row is exact exactly when its product is its amount, and explained by rounding exactly when it is not but some
      hidden rate and amount could have been printed so. */
  lemma ThreeVerdicts(quantity: Decimal, rate: Decimal, amount: Decimal)
    ensures var c := Classify(quantity, rate, amount).consistency;
            && (c == Exact <==> quantity.Value() * rate.Value() == amount.Value())
            && (c == ConsistentWithDisplayRounding
                <==> && quantity.Value() * rate.Value() != amount.Value()
                     && exists trueRate :: Explains(trueRate, quantity, rate, amount))
  {
    ReviewIffUnexplained(quantity, rate, amount);
    if quantity.Value() * rate.Value() == amount.Value() {
      HalfUnitPositive(rate);
      HalfUnitPositive(amount);
      assert Explains(rate.Value(), quantity, rate, amount);
    }
  }

  /** What is reported of the figures themselves: the amount as stated, the places the rate and the amount were printed
      to, and the unit of the rate's last place, which is one over ten to that many. */
  lemma PlacesAreReported(quantity: Decimal, rate: Decimal, amount: Decimal)
    ensures var c := Classify(quantity, rate, amount);
            && c.statedAmount == amount
            && c.rateDecimals == (if rate.exponent < 0 then 0 - rate.exponent else 0)
            && c.amountDecimals == (if amount.exponent < 0 then 0 - amount.exponent else 0)
            && Scaled(c.rateRoundingUnit, c.rateDecimals) == 1.0
            && (c.impliedRate.Some? ==> c.rateDifference == Some(c.impliedRate.value.Value() - rate.Value()))
            && (c.impliedRate.None? ==> c.rateDifference == None)
  {
    ScaledBack(1.0, 0 - rate.PrintedExponent());
  }

  // ---- What normalising the rate would do ----

  ghost predicate Excused(quantity: Decimal, rate: Decimal, amount: Decimal) {
    !Closes(quantity, rate, amount) && Closes(quantity, Normalise(rate), amount)
  }

  lemma {:induction false} NormaliseDropsPlaces(d: Decimal)
    ensures Normalise(d).DisplayedDecimals() <= d.DisplayedDecimals()
    decreases if d.coefficient < 0 then -d.coefficient else d.coefficient
  {
    if d.coefficient != 0 && d.coefficient % 10 == 0 { NormaliseDropsPlaces(Decimal(d.coefficient / 10, d.exponent + 1)); }
  }

  lemma {:induction false} UnitTimes(a: int, b: int)
    ensures Times(Unit(a), Unit(b)) == Unit(a + b)
    decreases if b < 0 then -b else b
  {
    if b > 0 {
      UnitTimes(a, b - 1);
      ScaledStep(1.0, a + b - 1);
      assert Unit(a) * (10.0 * Unit(b - 1)) == 10.0 * (Unit(a) * Unit(b - 1));
    }
    if b < 0 {
      UnitTimes(a, b + 1);
      ScaledStep(1.0, a + b);
      assert 10.0 * (Unit(a) * Unit(b)) == Unit(a) * (10.0 * Unit(b));
    }
  }

  lemma {:induction false} ScaledIsTimes(x: real, e: int)
    ensures Scaled(x, e) == Times(x, Unit(e))
    decreases if e < 0 then -e else e
  {
    if e > 0 { ScaledIsTimes(x, e - 1); }
    if e < 0 { ScaledIsTimes(x, e + 1); }
  }

  lemma Regroup(c: real, x: real, d: real, y: real)
    ensures Times(Times(c, x), Times(d, y)) == Times(Times(c, d), Times(x, y))
  {
    var cd, xy := c * d, x * y;
    assert c * x * (d * y) == cd * xy by {
      assert x * (d * y) == d * (x * y);
      assert c * (d * xy) == c * d * xy;
    }
  }

  lemma ProductOfUnits(c: real, d: real, a: int, b: int)
    ensures Times(Scaled(c, a), Scaled(d, b)) == Times(Times(c, d), Unit(a + b))
  {
    hide Scaled, Unit, Times;
    ScaledIsTimes(c, a);
    ScaledIsTimes(d, b);
    UnitTimes(a, b);
    Regroup(c, Unit(a), d, Unit(b));
  }

  lemma {:induction false} ScaledAbs(x: real, e: int)
    ensures Scaled(Abs(x), e) == Abs(Scaled(x, e))
    decreases if e < 0 then -e else e
  {
    if e > 0 { ScaledAbs(x, e - 1); }
    if e < 0 { ScaledAbs(x, e + 1); }
  }

  /** An amount five last places of the rate away, for each unit of quantity: too far for the rate as printed,
      and not for one printed to a place less. */
  function Distant(quantity: Decimal, rate: Decimal): Decimal {
    var size := if quantity.coefficient < 0 then -quantity.coefficient else quantity.coefficient;
    Decimal(quantity.coefficient * rate.coefficient + 5 * size, quantity.exponent + rate.exponent)
  }

  lemma Distribute(p: real, size: real, unit: real)
    ensures Times(p + 5.0 * size, unit) == Times(p, unit) + 5.0 * Times(size, unit)
  {
    assert 5.0 * size * unit == 5.0 * (size * unit);
  }

  lemma DistantIsFiveUnitsOff(quantity: Decimal, rate: Decimal)
    ensures Distant(quantity, rate).Value() - Times(quantity.Value(), rate.Value())
            == Times(Abs(quantity.Value()), 5.0 * Unit(rate.exponent))
  {
    hide Scaled, Unit, Times;
    var c, d, e := quantity.coefficient as real, rate.coefficient as real, quantity.exponent + rate.exponent;
    ProductOfUnits(c, d, quantity.exponent, rate.exponent);
    ScaledAbs(c, quantity.exponent);
    SizeTimesUnit(Abs(c), quantity.exponent, rate.exponent);
    ScaledIsTimes(Distant(quantity, rate).coefficient as real, e);
    DistantCoefficient(quantity, rate);
    Distribute(Times(c, d), Abs(c), Unit(e));
    FiveTimes(Abs(quantity.Value()), Unit(rate.exponent));
  }

  lemma SizeTimesUnit(size: real, a: int, b: int)
    ensures Times(Scaled(size, a), Unit(b)) == Times(size, Unit(a + b))
  {
    ScaledIsTimes(size, a);
    UnitTimes(a, b);
    hide Scaled, Unit;
    assert size * Unit(a) * Unit(b) == size * (Unit(a) * Unit(b));
  }

  lemma DistantCoefficient(quantity: Decimal, rate: Decimal)
    ensures Distant(quantity, rate).coefficient as real
            == Times(quantity.coefficient as real, rate.coefficient as real) + 5.0 * Abs(quantity.coefficient as real)
  {
  }

  lemma FiveTimes(x: real, y: real)
    ensures Times(x, 5.0 * y) == 5.0 * Times(x, y) && Times(x, y / 2.0) == Times(x, y) / 2.0
  {
    assert x * (5.0 * y) == 5.0 * (x * y);
    assert x * (y / 2.0) == x * y / 2.0;
  }

  lemma PrintedUnitIsSmall(quantity: Decimal, rate: Decimal)
    requires quantity.coefficient != 0
    ensures Unit(Distant(quantity, rate).PrintedExponent()) <= Times(Abs(quantity.Value()), Unit(rate.exponent))
    ensures Times(Abs(quantity.Value()), Unit(rate.exponent)) > 0.0
  {
    var c, e := quantity.coefficient as real, quantity.exponent + rate.exponent;
    ScaledAbs(c, quantity.exponent);
    SizeTimesUnit(Abs(c), quantity.exponent, rate.exponent);
    UnitGrows(Distant(quantity, rate).PrintedExponent(), e);
    UnitPositive(e);
    assert Abs(c) >= 1.0;
    Monotone(1.0, Abs(c), Unit(e));
  }

  lemma NormalisingExcusesIff(quantity: Decimal, rate: Decimal, amount: Decimal)
    ensures Excused(quantity, rate, amount)
            <==> && Envelope(quantity, rate, amount) < Abs(amount.Value() - Times(quantity.Value(), rate.Value()))
                 && Abs(amount.Value() - Times(quantity.Value(), rate.Value())) <= Envelope(quantity, Normalise(rate), amount)
  {
    NormaliseKeepsValue(rate);
    ClosesIffWithinEnvelope(quantity, rate, amount);
    ClosesIffWithinEnvelope(quantity, Normalise(rate), amount);
  }

  /** Why parsing must keep the exponent: normalising the rate would excuse some amount exactly when the
      quantity is not zero and the rate was printed with a decimal place that is zero. */
  lemma NormalisingExcusesSomeIff(quantity: Decimal, rate: Decimal)
    ensures (exists amount :: Excused(quantity, rate, amount))
            <==> quantity.Value() != 0.0 && Normalise(rate).DisplayedDecimals() < rate.DisplayedDecimals()
  {
    hide Closes, Normalise, Unit, Scaled;
    NormaliseDropsPlaces(rate);
    if amount :| Excused(quantity, rate, amount) {
      NormalisingExcusesIff(quantity, rate, amount);
      if quantity.Value() == 0.0 { assert Times(0.0, HalfUnit(rate)) == 0.0 == Times(0.0, HalfUnit(Normalise(rate))); }
    }
    if quantity.Value() != 0.0 && Normalise(rate).DisplayedDecimals() < rate.DisplayedDecimals() {
      DistantIsExcused(quantity, rate);
    }
  }

  lemma DistantIsExcused(quantity: Decimal, rate: Decimal)
    requires quantity.Value() != 0.0 && Normalise(rate).DisplayedDecimals() < rate.DisplayedDecimals()
    ensures Excused(quantity, rate, Distant(quantity, rate))
  {
    hide Closes, Normalise, Unit, Distant, Decimal.Value;
    var amount, size := Distant(quantity, rate), Abs(quantity.Value());
    NonZero(quantity);
    DistantIsFiveUnitsOff(quantity, rate);
    PrintedUnitIsSmall(quantity, rate);
    HalfUnitPositive(amount);
    FiveTimes(size, Unit(rate.exponent));
    UnitGrows(rate.exponent + 1, Normalise(rate).PrintedExponent());
    ScaledStep(1.0, rate.exponent);
    TenTimes(rate.exponent);
    Monotone(5.0 * Unit(rate.exponent), HalfUnit(Normalise(rate)), size);
    NormalisingExcusesIff(quantity, rate, amount);
  }

  lemma TenTimes(e: int)
    ensures Unit(e + 1) == 10.0 * Unit(e)
  {
    ScaledStep(1.0, e);
  }

  lemma NonZero(d: Decimal)
    requires d.Value() != 0.0
    ensures d.coefficient != 0
  {
    ScaledZero(d.exponent);
  }

  /** The implied rate is the amount per unit of quantity, to ten places, and is absent only for a
      zero quantity. */
  lemma ImpliedRateMeaning(quantity: Decimal, rate: Decimal, amount: Decimal)
    ensures var c := Classify(quantity, rate, amount);
            if quantity.coefficient == 0 then c.impliedRate.None? && c.rateDifference.None?
            else c.impliedRate.Some? && quantity.Value() != 0.0
                 && Abs(c.impliedRate.value.Value() - amount.Value() / quantity.Value()) <= Unit(-10) / 2.0
                 && c.rateDifference == Some(c.impliedRate.value.Value() - rate.Value())
  {
    ScaledZero(quantity.exponent);
    ScaledOrder(quantity.coefficient as real, 0.0, quantity.exponent);
    ScaledOrder(0.0, quantity.coefficient as real, quantity.exponent);
    if quantity.coefficient != 0 {
      QuantiseIsNearest(amount.Value() / quantity.Value(), -10);
    }
  }

  // ---- A whole bill ----

  datatype Triple = Triple(quantity: Decimal, rate: Decimal, amount: Decimal)

  function TotalAmount(rows: seq<Triple>): real {
    if rows == [] then 0.0 else TotalAmount(rows[..|rows| - 1]) + rows[|rows| - 1].amount.Value()
  }

  function TotalProduct(rows: seq<Triple>): real {
    if rows == [] then 0.0
    else TotalProduct(rows[..|rows| - 1]) + Times(rows[|rows| - 1].quantity.Value(), rows[|rows| - 1].rate.Value())
  }

  function TotalEnvelope(rows: seq<Triple>): real {
    if rows == [] then 0.0
    else var row := rows[|rows| - 1];
         TotalEnvelope(rows[..|rows| - 1]) + Envelope(row.quantity, row.rate, row.amount)
  }

  /** Over any bill without a row in review, what the rows add up to differs from the sum of the exact
      products by no more than display rounding can hide in all of them together. */
  lemma {:induction false} BillTotalWithinEnvelope(rows: seq<Triple>)
    requires forall row :: row in rows ==> Closes(row.quantity, row.rate, row.amount)
    ensures Abs(TotalAmount(rows) - TotalProduct(rows)) <= TotalEnvelope(rows)
  {
    if rows != [] {
      BillTotalWithinEnvelope(rows[..|rows| - 1]);
      var row := rows[|rows| - 1];
      assert row in rows;
      ClosesIffWithinEnvelope(row.quantity, row.rate, row.amount);
    }
  }
}
