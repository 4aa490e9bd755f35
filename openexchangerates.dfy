/**
 * The openexchangerates.org source of the management commands
 * (currencies/management/commands/_openexchangerates.py): validation of a
 * latest() response, rebasing a rate table onto another currency, and the
 * two module-level caches, `currencies` and `rates`, held here by a
 * RatesCache object. The HTTP client is a Client value: its replies are given,
 * not fetched.
 */
module OpenExchangeRates {
  import opened Wrappers
  import opened Models
  import opened Decimals

  /**
   * The keys of a latest() response the module reads, None where the key is
   * missing, and whether the reply holds any other key ("disclaimer",
   * "license", ...), which the module never reads but which makes the dict
   * non-empty.
   */
  datatype Response = Response(rates: Option<map<Code, real>>, base: Option<Code>, timestamp: Option<int>, others: bool)

  /** `not rates`: nothing cached, or a response dict with no key at all. */
  predicate Empty(cached: Option<Response>) {
    cached.None? || cached.value == Response(None, None, None, false)
  }

  /** check_rates(rates, base): the warnings it writes, or the exception it raises. */
  function CheckRates(r: Response, base: Code): (res: Result<seq<Warning>, Exception>)
    // only a missing rate table is an error
    ensures res.Failure? <==> r.rates.None?
    ensures res.Failure? ==> res.error == RuntimeError
    // a missing or different base, or a base without a rate, is only a warning
    ensures res.Success? ==> (res.value == [] <==> r.base == Some(base) && base in r.rates.value)
    ensures res.Success? && res.value != [] ==> res.value == [BaseNotFound]
  {
    if r.rates.None? then Failure(RuntimeError)
    else if r.base != Some(base) || base !in r.rates.value then Success([BaseNotFound])
    else Success([])
  }

  /** The rate table once changebase's loop has rewritten every entry. */
  function Rebased(rates: map<Code, real>, newBase: Code): (r: map<Code, real>)
    requires newBase in rates && rates[newBase] != 0.0
    ensures r.Keys == rates.Keys
  {
    map c | c in rates :: Requote(rates[c], 1.0 / rates[newBase])
  }

  /** changebase(rates, current_base, new_base): the rebased response or the exception. */
  function ChangedBase(r: Response, currentBase: Code, newBase: Code): (res: Result<Response, Exception>)
    ensures res.Failure? <==> r.rates.None? || newBase !in r.rates.value || r.rates.value[newBase] == 0.0
    // no rate table, or no rate for the new base: RuntimeError; a zero rate: decimal division by zero
    ensures res.Failure? ==>
      res.error == if r.rates.Some? && newBase in r.rates.value then DivisionByZero else RuntimeError
    // the same codes, the new base, the old timestamp and other keys
    ensures res.Success? ==>
      && res.value.rates.Some? && res.value.rates.value.Keys == r.rates.value.Keys
      && res.value.base == Some(newBase) && res.value.timestamp == r.timestamp && res.value.others == r.others
    // so the closing check_rates finds nothing to warn about
    ensures res.Success? ==> CheckRates(res.value, newBase) == Success([])
  {
    if r.rates.None? || newBase !in r.rates.value then Failure(RuntimeError)
    else if r.rates.value[newBase] == 0.0 then Failure(DivisionByZero)
    else Success(r.(rates := Some(Rebased(r.rates.value, newBase)), base := Some(newBase)))
  }

  /** The warnings changebase writes before it returns or raises. */
  function ChangeBaseWarnings(r: Response, currentBase: Code, newBase: Code): (w: seq<Warning>)
    ensures ChangingBase in w <==> r.rates.Some? && newBase in r.rates.value
    ensures BaseNotFound in w <==> r.rates.Some? && CheckRates(r, currentBase).value != []
  {
    if r.rates.None? then []
    else CheckRates(r, currentBase).value + if newBase in r.rates.value then [ChangingBase] else []
  }

  /**
   * changebase: validate, then rewrite every rate in place as
   * rate * (1 / rate[newBase]) quantized to 4 digits, set the base, validate again.
   */
  method ChangeBase(r: Response, currentBase: Code, newBase: Code) returns (res: Result<Response, Exception>, warnings: seq<Warning>)
    ensures res == ChangedBase(r, currentBase, newBase)
    ensures warnings == ChangeBaseWarnings(r, currentBase, newBase)
  {
    var check := CheckRates(r, currentBase);
    if check.Failure? {
      return Failure(check.error), [];
    }
    warnings := check.value;
    var rates := r.rates.value;
    if newBase !in rates {
      return Failure(RuntimeError), warnings;
    }
    warnings := warnings + [ChangingBase];
    if rates[newBase] == 0.0 {
      return Failure(DivisionByZero), warnings;
    }
    var multiplier := 1.0 / rates[newBase];
    var todo := rates.Keys;
    while todo != {}
      invariant todo <= rates.Keys && rates.Keys == r.rates.value.Keys
      invariant forall c :: c in rates ==>
        rates[c] == if c in todo then r.rates.value[c] else Requote(r.rates.value[c], multiplier)
      decreases |todo|
    {
      var c :| c in todo;
      rates := rates[c := Requote(rates[c], multiplier)];
      todo := todo - {c};
    }
    assert rates == Rebased(r.rates.value, newBase);
    var rebased := r.(rates := Some(rates), base := Some(newBase));
    var after := CheckRates(rebased, newBase);
    warnings := warnings + after.value;
    res := Success(rebased);
  }

  /** After changebase, the new base's rate is exactly 1. */
  lemma {:induction false} ChangedBaseNewBaseIsOne(r: Response, currentBase: Code, newBase: Code)
    requires ChangedBase(r, currentBase, newBase).Success?
    ensures ChangedBase(r, currentBase, newBase).value.rates.value[newBase] == 1.0
  {
    var x := r.rates.value[newBase];
    assert x * (1.0 / x) == 1.0;
    RequoteInverse(x, 1.0 / x);
  }

  /**
   * Every rebased rate has 4 fractional digits and lies within half a unit of
   * the 4th digit of rate / rate[newBase].
   */
  lemma {:induction false} ChangedBaseClose(r: Response, currentBase: Code, newBase: Code)
    requires ChangedBase(r, currentBase, newBase).Success?
    ensures var old_ := r.rates.value;
      var new_ := ChangedBase(r, currentBase, newBase).value.rates.value;
      forall c :: c in old_ ==>
        Places4(new_[c]) && -0.00005 <= new_[c] - old_[c] / old_[newBase] <= 0.00005
  {
    var old_ := r.rates.value;
    var new_ := ChangedBase(r, currentBase, newBase).value.rates.value;
    forall c | c in old_
      ensures Places4(new_[c]) && -0.00005 <= new_[c] - old_[c] / old_[newBase] <= 0.00005
    {
      RequoteClose(old_[c], old_[newBase]);
    }
  }

  /** Rebasing a 4-digit table onto a currency whose rate is already 1 changes no rate. */
  lemma {:induction false} ChangedBaseIdentity(r: Response, currentBase: Code, newBase: Code)
    requires r.rates.Some? && newBase in r.rates.value && r.rates.value[newBase] == 1.0
    requires forall c :: c in r.rates.value ==> Places4(r.rates.value[c])
    ensures ChangedBase(r, currentBase, newBase) == Success(r.(base := Some(newBase)))
  {
    var rates := r.rates.value;
    assert 1.0 / rates[newBase] == 1.0;
    forall c | c in rates ensures Rebased(rates, newBase)[c] == rates[c] {
      RequoteByOne(rates[c]);
    }
    assert Rebased(rates, newBase) == rates;
  }

  /** The replies of an OpenExchangeRatesClient: currencies(), and latest(base=...) per base. */
  datatype Client = Client(
    currencies: Result<map<Code, string>, Exception>,
    latest: Code -> Result<Response, Exception>)

  /** The calls made to the client, in order. */
  datatype Request = CurrenciesCall | LatestCall(base: Code)

  /** An OpenExchangeRatesClientException whose text starts with "403". */
  predicate Forbidden(e: Exception) {
    e.ClientError? && |e.message| >= 3 && e.message[..3] == "403"
  }

  /**
   * What get_latestcurrencyrates does on an empty cache: the response it
   * assigns to the cache (None when the assignment is never reached), the
   * warnings, the exception it lets escape, and the calls it makes.
   */
  datatype Fetch = Fetch(rates: Option<Response>, warnings: seq<Warning>, error: Option<Exception>, calls: seq<Request>)

  function Fetched(client: Client, base: Code): (f: Fetch)
    // a fetch that raises nothing caches a response that holds a rate table
    ensures f.error.None? ==> f.rates.Some? && f.rates.value.rates.Some?
    // a direct reply is cached even when check_rates then rejects it
    ensures client.latest(base).Success? ==>
      var check := CheckRates(client.latest(base).value, base);
      && f.rates == Some(client.latest(base).value) && f.calls == [LatestCall(base)]
      && (f.error.Some? <==> client.latest(base).value.rates.None?)
      && (f.error.Some? ==> f.error == Some(RuntimeError))
      && f.warnings == (if check.Success? then check.value else [])
    // any client error other than a 403 escapes, and nothing is cached
    ensures client.latest(base).Failure? && !Forbidden(client.latest(base).error) ==>
      f == Fetch(None, [], Some(client.latest(base).error), [LatestCall(base)])
    // a 403 falls back to the USD table, rebased onto the requested base
    ensures client.latest(base).Failure? && Forbidden(client.latest(base).error) ==>
      && f.calls == [LatestCall(base), LatestCall("USD")]
      && (f.rates.Some? <==> f.error.None?)
      && (f.rates.Some? ==>
           client.latest("USD").Success? && ChangedBase(client.latest("USD").value, "USD", base) == Success(f.rates.value))
      // the rebased table is cached exactly when the USD reply and changebase both succeed
      && (f.error.None? <==>
           client.latest("USD").Success? && ChangedBase(client.latest("USD").value, "USD", base).Success?)
      // a failing USD reply escapes as it is, with no warning
      && (client.latest("USD").Failure? ==> f.error == Some(client.latest("USD").error) && f.warnings == [])
      // otherwise changebase's warnings are written, and its exception escapes
      && (client.latest("USD").Success? ==>
           var res := ChangedBase(client.latest("USD").value, "USD", base);
           && f.warnings == ChangeBaseWarnings(client.latest("USD").value, "USD", base)
           && (res.Failure? ==> f.error == Some(res.error)))
  {
    match client.latest(base)
    case Success(reply) =>
      var check := CheckRates(reply, base);
      if check.Failure? then Fetch(Some(reply), [], Some(check.error), [LatestCall(base)])
      else Fetch(Some(reply), check.value, None, [LatestCall(base)])
    case Failure(e) =>
      if !Forbidden(e) then Fetch(None, [], Some(e), [LatestCall(base)])
      else
        var calls := [LatestCall(base), LatestCall("USD")];
        match client.latest("USD")
        case Failure(e2) => Fetch(None, [], Some(e2), calls)
        case Success(usd) =>
          var res := ChangedBase(usd, "USD", base);
          var w := ChangeBaseWarnings(usd, "USD", base);
          if res.Failure? then Fetch(None, w, Some(res.error), calls)
          else Fetch(Some(res.value), w, None, calls)
  }

  /**
   * A direct reply without "rates" but with some other key makes check_rates
   * raise, yet it stays cached and counts as non-empty: later lookups use it
   * without asking the client again.
   */
  lemma {:induction false} RejectedReplyStays(client: Client, base: Code)
    requires client.latest(base).Success?
    requires client.latest(base).value.rates.None? && client.latest(base).value.others
    ensures Fetched(client, base).error == Some(RuntimeError)
    ensures Fetched(client, base).rates == Some(client.latest(base).value)
    ensures !Empty(Fetched(client, base).rates)
  {
  }

  /** After a 403, a successful fetch caches a table quoted against the requested base. */
  lemma {:induction false} ForbiddenFallbackRebased(client: Client, base: Code)
    requires client.latest(base).Failure? && Forbidden(client.latest(base).error)
    requires Fetched(client, base).error.None?
    ensures var cached := Fetched(client, base).rates.value;
      && cached.base == Some(base) && base in cached.rates.value
      && cached.rates.value[base] == 1.0
      && CheckRates(cached, base) == Success([])
  {
    var usd := client.latest("USD").value;
    ChangedBaseNewBaseIsOne(usd, "USD", base);
  }

  /** rates["rates"][code] with a KeyError turned into None. */
  function RateOf(cached: Response, code: Code): (r: Option<real>)
    ensures r.Some? <==> cached.rates.Some? && code in cached.rates.value
    ensures r.Some? ==> r.value == cached.rates.value[code]
  {
    if cached.rates.Some? && code in cached.rates.value then Some(cached.rates.value[code]) else None
  }

  /** The module's two caches and the message streams it writes to. */
  class RatesCache {
    var currencies: Option<map<Code, string>>
    var rates: Option<Response>
    var warnings: seq<Warning>
    ghost var requests: seq<Request>

    constructor ()
      ensures currencies == None && rates == None && warnings == [] && requests == []
    {
      currencies, rates, warnings, requests := None, None, [], [];
    }

    /**
     * get_latestcurrencyrates(handle, base): with a non-empty cache, nothing
     * happens, whatever the base; otherwise the fetch described by Fetched.
     */
    method LatestCurrencyRates(client: Client, base: Code) returns (error: Option<Exception>)
      modifies this
      ensures currencies == old(currencies)
      ensures !Empty(old(rates)) ==>
        rates == old(rates) && warnings == old(warnings) && requests == old(requests) && error.None?
      ensures Empty(old(rates)) ==>
        var f := Fetched(client, base);
        && rates == (if f.rates.Some? then f.rates else old(rates))
        && warnings == old(warnings) + f.warnings
        && requests == old(requests) + f.calls
        && error == f.error
      ensures error.None? ==> !Empty(rates)
    {
      if !Empty(rates) {
        return None;
      }
      requests := requests + [LatestCall(base)];
      var reply := client.latest(base);
      if reply.Success? {
        rates := Some(reply.value);
        var check := CheckRates(reply.value, base);
        if check.Failure? {
          return Some(check.error);
        }
        warnings := warnings + check.value;
        return None;
      }
      if !Forbidden(reply.error) {
        return Some(reply.error);
      }
      requests := requests + [LatestCall("USD")];
      var usd := client.latest("USD");
      if usd.Failure? {
        return Some(usd.error);
      }
      var res, w := ChangeBase(usd.value, "USD", base);
      warnings := warnings + w;
      if res.Failure? {
        return Some(res.error);
      }
      rates := Some(res.value);
      error := None;
    }

    /** get_ratefactor(handle, base, code): the cached rate of code, None when absent. */
    method RateFactor(client: Client, base: Code, code: Code) returns (r: Result<Option<real>, Exception>)
      modifies this
      ensures currencies == old(currencies)
      ensures !Empty(old(rates)) ==>
        && rates == old(rates) && warnings == old(warnings) && requests == old(requests)
        && r == Success(RateOf(old(rates).value, code))
      ensures Empty(old(rates)) ==>
        var f := Fetched(client, base);
        && rates == (if f.rates.Some? then f.rates else old(rates))
        && warnings == old(warnings) + f.warnings
        && requests == old(requests) + f.calls
        && r == (if f.error.Some? then Failure(f.error.value) else Success(RateOf(f.rates.value, code)))
    {
      var error := LatestCurrencyRates(client, base);
      if error.Some? {
        return Failure(error.value);
      }
      r := Success(RateOf(rates.value, code));
    }

    /** get_ratetimestamp(handle, base, code): the cached timestamp, None when absent. */
    method RateTimestamp(client: Client, base: Code) returns (r: Result<Option<int>, Exception>)
      modifies this
      ensures currencies == old(currencies)
      ensures !Empty(old(rates)) ==>
        && rates == old(rates) && warnings == old(warnings) && requests == old(requests)
        && r == Success(old(rates).value.timestamp)
      ensures Empty(old(rates)) ==>
        var f := Fetched(client, base);
        && rates == (if f.rates.Some? then f.rates else old(rates))
        && warnings == old(warnings) + f.warnings
        && requests == old(requests) + f.calls
        && r == (if f.error.Some? then Failure(f.error.value) else Success(f.rates.value.timestamp))
    {
      var error := LatestCurrencyRates(client, base);
      if error.Some? {
        return Failure(error.value);
      }
      r := Success(rates.value.timestamp);
    }

    /** get_allcurrencycodes(handle): always asks the client, and caches the reply. */
    method AllCurrencyCodes(client: Client) returns (r: Result<set<Code>, Exception>)
      modifies this
      ensures rates == old(rates) && warnings == old(warnings)
      ensures requests == old(requests) + [CurrenciesCall]
      ensures client.currencies.Success? ==>
        currencies == Some(client.currencies.value) && r == Success(client.currencies.value.Keys)
      ensures client.currencies.Failure? ==>
        currencies == old(currencies) && r == Failure(client.currencies.error)
    {
      requests := requests + [CurrenciesCall];
      match client.currencies
      case Success(names) =>
        currencies := Some(names);
        r := Success(names.Keys);
      case Failure(e) =>
        r := Failure(e);
    }

    /** get_currencyname(handle, code): fetches the names only while none are cached. */
    method CurrencyName(client: Client, code: Code) returns (r: Result<string, Exception>)
      modifies this
      ensures rates == old(rates) && warnings == old(warnings)
      ensures old(currencies).Some? && old(currencies).value != map[] ==>
        && currencies == old(currencies) && requests == old(requests)
        && r == if code in currencies.value then Success(currencies.value[code]) else Failure(KeyError)
      ensures old(currencies).None? || old(currencies).value == map[] ==>
        && requests == old(requests) + [CurrenciesCall]
        && (client.currencies.Failure? ==> currencies == old(currencies) && r == Failure(client.currencies.error))
        && (client.currencies.Success? ==>
             var names := client.currencies.value;
             currencies == Some(names) && r == if code in names then Success(names[code]) else Failure(KeyError))
    {
      if currencies.None? || currencies.value == map[] {
        var codes := AllCurrencyCodes(client);
        if codes.Failure? {
          return Failure(codes.error);
        }
      }
      var names := currencies.value;
      r := if code in names then Success(names[code]) else Failure(KeyError);
    }

    /** remove_cache(): both caches emptied, so the next lookup asks the client again. */
    method RemoveCache()
      modifies this
      ensures currencies == None && rates == None
      ensures Empty(rates)
      ensures warnings == old(warnings) && requests == old(requests)
    {
      currencies, rates := None, None;
    }
  }
}
