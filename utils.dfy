/**
 * currencies/utils.py: price conversion over the stored factors, rounded to
 * cents away from zero, and the choice of the visitor's currency code.
 */
module Utils {
  import opened Wrappers
  import opened Models
  import opened Managers
  import opened Decimals

  /** Decimal division under the default context: x/0 traps. */
  function Divide(x: real, y: real): Result<real, Exception> {
    if y != 0.0 then Success(x / y)
    else if x == 0.0 then Failure(InvalidOperation)
    else Failure(DivisionByZero)
  }

  /** convert's exact amount: amount * (to_factor / from_factor). */
  function Scaled(amount: real, fromFactor: real, toFactor: real): real
    requires fromFactor != 0.0
  {
    amount * (toFactor / fromFactor)
  }

  /** calculate's exact amount: (price / default_factor) * factor. */
  function PriceAt(price: real, defaultFactor: real, factor: real): real
    requires defaultFactor != 0.0
  {
    (price / defaultFactor) * factor
  }

  /** The code has a record the `active` manager can get(). */
  predicate IsActiveCode(rows: Table, code: Code) {
    code in rows && rows[code].isActive
  }

  /** r is `exact` rounded away from zero to cents. */
  predicate RoundedUp(r: real, exact: real) {
    && Places2(r)
    && (exact >= 0.0 ==> exact <= r < exact + 0.01)
    && (exact < 0.0 ==> exact - 0.01 < r <= exact)
  }

  /**
   * calculate(price, code): a price in the default currency, in `code`.
   * `price` is the value Decimal(price) parses, None where it raises
   * InvalidOperation.
   */
  function Calculate(rows: Table, price: Option<real>, code: Code): (r: Result<real, Exception>)
    ensures !IsActiveCode(rows, code) ==> r == Failure(DoesNotExist)
    ensures IsActiveCode(rows, code) && Default(rows).Failure? ==> r == Failure(Default(rows).error)
    ensures IsActiveCode(rows, code) && Default(rows).Success? && price.None? ==> r == Failure(InvalidOperation)
    ensures r.Success? <==>
      && IsActiveCode(rows, code) && Default(rows).Success? && price.Some?
      && rows[Default(rows).value].factor != 0.0
  {
    if !IsActiveCode(rows, code) then Failure(DoesNotExist)
    else if Default(rows).Failure? then Failure(Default(rows).error)
    else if price.None? then Failure(InvalidOperation)
    else
      var fd := rows[Default(rows).value].factor;
      if fd == 0.0 then Divide(price.value, fd)
      else Success(QuantizeUp2(PriceAt(price.value, fd, rows[code].factor)))
  }

  /**
   * convert(amount, from_code, to_code). `amount` is the value Decimal(amount)
   * parses, None where it raises InvalidOperation; the same code hands the
   * amount back as it was given, parsed or not.
   */
  function Convert(rows: Table, amount: Option<real>, fromCode: Code, toCode: Code): (r: Result<Option<real>, Exception>)
    // the same code: the amount comes back untouched, without lookup, parsing or rounding
    ensures fromCode == toCode ==> r == Success(amount)
    ensures fromCode != toCode && !(IsActiveCode(rows, fromCode) && IsActiveCode(rows, toCode)) ==>
      r == Failure(DoesNotExist)
    // D(amount) is evaluated after both lookups and before the factor division
    ensures fromCode != toCode && IsActiveCode(rows, fromCode) && IsActiveCode(rows, toCode) && amount.None? ==>
      r == Failure(InvalidOperation)
    ensures fromCode != toCode ==>
      (r.Success? <==> IsActiveCode(rows, fromCode) && IsActiveCode(rows, toCode) && amount.Some? && rows[fromCode].factor != 0.0)
    ensures fromCode != toCode && r.Success? ==> r.value.Some?
    ensures fromCode != toCode && r.Failure? && IsActiveCode(rows, fromCode) && IsActiveCode(rows, toCode) && amount.Some? ==>
      r.error == (if rows[toCode].factor == 0.0 then InvalidOperation else DivisionByZero)
  {
    if fromCode == toCode then Success(amount)
    else if !IsActiveCode(rows, fromCode) || !IsActiveCode(rows, toCode) then Failure(DoesNotExist)
    else if amount.None? then Failure(InvalidOperation)
    else if rows[fromCode].factor == 0.0 then Failure(Divide(rows[toCode].factor, rows[fromCode].factor).error)
    else Success(Some(QuantizeUp2(Scaled(amount.value, rows[fromCode].factor, rows[toCode].factor))))
  }

  /** z is x up to a cent, plus a cent scaled by k. */
  predicate WithinTwoCents(x: real, z: real, k: real) {
    -0.01 - 0.01 * k < z - x < 0.01 + 0.01 * k
  }

  /** Two roundings, each off by less than a cent, around a ratio and its inverse. */
  lemma {:induction false} RoundTripError(x: real, y: real, z: real, there: real, back: real)
    requires there * back == 1.0 && back > 0.0
    requires -0.01 < y - x * there < 0.01
    requires -0.01 < z - y * back < 0.01
    ensures WithinTwoCents(x, z, back)
  {
    var e1 := y - x * there;
    assert e1 * back == y * back - x by {
      calc {
        e1 * back;
        y * back - x * there * back;
        { assert x * there * back == x * (there * back); }
        y * back - x;
      }
    }
    assert -0.01 * back < e1 * back < 0.01 * back;
  }

  lemma InverseRatios(p: real, q: real)
    requires p > 0.0 && q > 0.0
    ensures (q / p) * (p / q) == 1.0
  {
    var u, v := q / p, p / q;
    assert u * p == q && v * q == p;
    calc {
      (u * v) * (p * q);
      (u * p) * (v * q);
      q * (v * q);
      q * p;
    }
    assert (u * v - 1.0) * (p * q) == 0.0;
  }

  /** What convert computes between two distinct active codes with non-zero factors. */
  lemma ConvertBetweenActive(rows: Table, x: real, a: Code, b: Code)
    requires a != b && IsActiveCode(rows, a) && IsActiveCode(rows, b) && rows[a].factor != 0.0
    ensures Convert(rows, Some(x), a, b) == Success(Some(QuantizeUp2(Scaled(x, rows[a].factor, rows[b].factor))))
  {
  }

  /** What calculate computes when it succeeds: the price, rounded up to cents. */
  lemma CalculateValue(rows: Table, price: real, code: Code, d: Code)
    requires IsActiveCode(rows, code) && Default(rows) == Success(d) && rows[d].factor != 0.0
    ensures Calculate(rows, Some(price), code) == Success(QuantizeUp2(PriceAt(price, rows[d].factor, rows[code].factor)))
  {
  }

  /** calculate's result is the exact conversion rounded away from zero to cents. */
  lemma CalculateRoundsUp(rows: Table, price: real, code: Code)
    requires Calculate(rows, Some(price), code).Success?
    ensures Default(rows).Success?
    ensures var fd := rows[Default(rows).value].factor;
      RoundedUp(Calculate(rows, Some(price), code).value, PriceAt(price, fd, rows[code].factor))
  {
    CalculateValue(rows, price, code, Default(rows).value);
  }

  /** convert's result between two codes is the exact conversion rounded away from zero to cents. */
  lemma ConvertRoundsUp(rows: Table, x: real, a: Code, b: Code)
    requires a != b && Convert(rows, Some(x), a, b).Success?
    ensures Convert(rows, Some(x), a, b).value.Some?
    ensures RoundedUp(Convert(rows, Some(x), a, b).value.value, Scaled(x, rows[a].factor, rows[b].factor))
  {
    ConvertBetweenActive(rows, x, a, b);
  }

  /** Scaling by a factor ratio is multiplying by it. */
  lemma ScaledByRatio(x: real, fa: real, fb: real)
    requires fa != 0.0
    ensures Scaled(x, fa, fb) == x * (fb / fa)
  {
  }

  /** Scaling there and back, each time off by less than a cent. */
  lemma {:induction false} RoundTripScaled(x: real, y: real, z: real, fa: real, fb: real)
    requires fa > 0.0 && fb > 0.0
    requires -0.01 < y - Scaled(x, fa, fb) < 0.01
    requires -0.01 < z - Scaled(y, fb, fa) < 0.01
    ensures WithinTwoCents(x, z, fa / fb)
  {
    ScaledByRatio(x, fa, fb);
    ScaledByRatio(y, fb, fa);
    InverseRatios(fa, fb);
    RoundTripError(x, y, z, fb / fa, fa / fb);
  }

  /**
   * Converting there and back returns the amount to within the two roundings:
   * one cent, plus one cent scaled back by the factor ratio.
   */
  lemma {:induction false} ConvertRoundTrip(rows: Table, x: real, a: Code, b: Code)
    requires a != b && IsActiveCode(rows, a) && IsActiveCode(rows, b)
    requires rows[a].factor > 0.0 && rows[b].factor > 0.0
    ensures Convert(rows, Some(x), a, b).Success? && Convert(rows, Some(x), a, b).value.Some?
    ensures var back := Convert(rows, Convert(rows, Some(x), a, b).value, b, a);
      && back.Success? && back.value.Some?
      && WithinTwoCents(x, back.value.value, rows[a].factor / rows[b].factor)
  {
    var fa, fb := rows[a].factor, rows[b].factor;
    var y := Convert(rows, Some(x), a, b).value.value;
    assert -0.01 < y - Scaled(x, fa, fb) < 0.01 by {
      ConvertBetweenActive(rows, x, a, b);
      QuantizeUp2Magnitude(Scaled(x, fa, fb));
    }
    var z := Convert(rows, Some(y), b, a).value.value;
    assert -0.01 < z - Scaled(y, fb, fa) < 0.01 by {
      ConvertBetweenActive(rows, y, b, a);
      QuantizeUp2Magnitude(Scaled(y, fb, fa));
    }
    RoundTripScaled(x, y, z, fa, fb);
  }

  /** (p / d) * t and p * (t / d) are the same amount. */
  lemma {:induction false} PriceAtIsScaled(p: real, d: real, t: real)
    requires d != 0.0
    ensures PriceAt(p, d, t) == Scaled(p, d, t)
  {
    var q, w := p / d, t / d;
    assert q * d == p && w * d == t;
    calc {
      q * t;
      q * (w * d);
      (q * d) * w;
      p * w;
    }
  }

  /**
   * calculate is convert from the default currency, when that currency is not
   * the target and has a non-zero factor: the same outcome, the same error,
   * parsed or not.
   */
  lemma {:induction false} CalculateIsConvertFromDefault(rows: Table, price: Option<real>, code: Code)
    requires Default(rows).Success? && Default(rows).value != code
    requires rows[Default(rows).value].factor != 0.0
    ensures var c := Calculate(rows, price, code);
      var v := Convert(rows, price, Default(rows).value, code);
      && (c.Success? <==> v.Success?)
      && (c.Success? ==> v.value == Some(c.value))
      && (c.Failure? ==> v.error == c.error)
  {
    var d := Default(rows).value;
    if IsActiveCode(rows, code) && price.Some? {
      CalculateValue(rows, price.value, code, d);
      ConvertBetweenActive(rows, price.value, d, code);
      PriceAtIsScaled(price.value, rows[d].factor, rows[code].factor);
    }
  }

  /** The case documented for calculate('10', 'USD'): default factor 1.0, USD 1.5. */
  lemma CalculateDocumentedCase()
    ensures
      var rows := map["EUR" := Currency("Euro", "", 1.0, true, false, true),
                      "USD" := Currency("US Dollar", "$", 1.5, true, true, false)];
      Calculate(rows, Some(10.0), "USD") == Success(15.0)
  {
    var rows := map["EUR" := Currency("Euro", "", 1.0, true, false, true),
                    "USD" := Currency("US Dollar", "$", 1.5, true, true, false)];
    var act := Active(rows);
    assert Flagged(act, IsDefault) == {"EUR"};
    assert Default(rows) == Success("EUR");
    assert Places2(15.0) by {
      assert (15.0 * 100.0).Floor == 1500;
    }
  }

  /** The request attributes get_currency_code looks at, when present. */
  datatype Request = Request(session: Option<map<string, Code>>, cookies: Option<map<string, Code>>)

  predicate HasEntry(store: Option<map<string, Code>>, key: string) {
    store.Some? && key in store.value
  }

  /**
   * get_currency_code(request): the session's entry under `key`, else the
   * cookie's, else the active default's code, else None.
   */
  function CurrencyCode(request: Request, rows: Table, key: string): (r: Result<Option<Code>, Exception>)
    ensures HasEntry(request.session, key) ==> r == Success(Some(request.session.value[key]))
    ensures !HasEntry(request.session, key) && HasEntry(request.cookies, key) ==>
      r == Success(Some(request.cookies.value[key]))
    ensures !HasEntry(request.session, key) && !HasEntry(request.cookies, key) ==>
      && (r.Success? && r.value.Some? ==> IsActiveCode(rows, r.value.value) && rows[r.value.value].isDefault)
      && (r == Success(None) <==> forall c :: c in rows && rows[c].isActive ==> !rows[c].isDefault)
      && (r.Failure? <==>
           exists a, b :: a in rows && b in rows && a != b && rows[a].isActive && rows[b].isActive
             && rows[a].isDefault && rows[b].isDefault)
      && (r.Failure? ==> r.error == MultipleObjectsReturned)
  {
    if HasEntry(request.session, key) then Success(Some(request.session.value[key]))
    else if HasEntry(request.cookies, key) then Success(Some(request.cookies.value[key]))
    else match Default(rows)
      case Success(c) => Success(Some(c))
      case Failure(DoesNotExist) => Success(None)
      case Failure(e) => Failure(e)
  }
}
