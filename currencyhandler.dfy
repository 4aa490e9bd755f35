/**
 * BaseHandler of currencies/management/commands/_currencyhandler.py: the
 * lazily loaded symbol table and the lazily computed multiplier used to quote
 * factors against another base currency.
 */
module CurrencyHandler {
  import opened Wrappers
  import opened Models
  import opened Decimals

  class BaseHandler {
    var symbols: Option<map<Code, string>>
    var multiplier: Option<real>
    var warnings: seq<Warning>
    ghost var symbolLoads: nat

    constructor ()
      ensures symbols == None && multiplier == None && warnings == [] && symbolLoads == 0
    {
      symbols, multiplier, warnings, symbolLoads := None, None, [], 0;
    }

    /** `not self._symbols`: nothing loaded, or an empty table. */
    predicate SymbolsEmpty()
      reads this
    {
      symbols.None? || symbols.value == map[]
    }

    /** `not self._multiplier`: none computed, or a zero one. */
    predicate MultiplierUnset()
      reads this
    {
      multiplier.None? || multiplier.value == 0.0
    }

    /**
     * get_currencysymbol(code): the symbol file's entry for code, or None. The
     * file (its parsed content is `file`) is read only while the table is empty.
     */
    method CurrencySymbol(file: map<Code, string>, code: Code) returns (s: Option<string>)
      modifies this
      ensures multiplier == old(multiplier) && warnings == old(warnings)
      ensures old(SymbolsEmpty()) ==> symbols == Some(file) && symbolLoads == old(symbolLoads) + 1
      ensures !old(SymbolsEmpty()) ==> symbols == old(symbols) && symbolLoads == old(symbolLoads)
      ensures symbols.Some?
      ensures s.Some? <==> code in symbols.value
      ensures s.Some? ==> s.value == symbols.value[code]
    {
      if SymbolsEmpty() {
        symbols := Some(file);
        symbolLoads := symbolLoads + 1;
      }
      s := if code in symbols.value then Some(symbols.value[code]) else None;
    }

    /**
     * ratechangebase(ratefactor, current_base, new_base). On the first call
     * (while no multiplier is set) it warns, checks that the current base is
     * quoted at 1 against itself, and sets the multiplier to 1 / the new
     * base's factor; every call returns ratefactor * multiplier quantized to
     * 4 digits. `rateFactor` is the handler's get_ratefactor(base, code).
     */
    method RateChangeBase(
      rateFactor: (Code, Code) -> Result<Option<real>, Exception>,
      ratefactor: real, currentBase: Code, newBase: Code)
      returns (r: Result<real, Exception>)
      modifies this
      ensures symbols == old(symbols) && symbolLoads == old(symbolLoads)
      // once set, the multiplier is reused whatever the bases, with no check and no warning
      ensures !old(MultiplierUnset()) ==>
        && multiplier == old(multiplier) && warnings == old(warnings)
        && r == Success(Requote(ratefactor, multiplier.value))
      ensures old(MultiplierUnset()) ==>
        && warnings == old(warnings) + [ChangingBase]
        && var check := rateFactor(currentBase, currentBase);
           var quote := rateFactor(currentBase, newBase);
           // the base check: an error escapes, any value but 1 is a RuntimeError
           && (check.Failure? ==> r == Failure(check.error) && multiplier == old(multiplier))
           && (check.Success? && check.value != Some(1.0) ==> r == Failure(RuntimeError) && multiplier == old(multiplier))
           && (check == Success(Some(1.0)) ==>
                // Decimal(1) / None and Decimal(1) / 0 raise
                && (quote.Failure? ==> r == Failure(quote.error) && multiplier == old(multiplier))
                && (quote == Success(None) ==> r == Failure(TypeError) && multiplier == old(multiplier))
                && (quote == Success(Some(0.0)) ==> r == Failure(DivisionByZero) && multiplier == old(multiplier))
                && (quote.Success? && quote.value.Some? && quote.value.value != 0.0 ==>
                      && multiplier == Some(1.0 / quote.value.value)
                      && r == Success(Requote(ratefactor, 1.0 / quote.value.value))))
      // after a success the multiplier stays set for every later call
      ensures r.Success? ==> !MultiplierUnset()
    {
      if MultiplierUnset() {
        warnings := warnings + [ChangingBase];
        var check := rateFactor(currentBase, currentBase);
        if check.Failure? {
          return Failure(check.error);
        }
        if check.value != Some(1.0) {
          return Failure(RuntimeError);
        }
        var quote := rateFactor(currentBase, newBase);
        if quote.Failure? {
          return Failure(quote.error);
        }
        if quote.value.None? {
          return Failure(TypeError);
        }
        if quote.value.value == 0.0 {
          return Failure(DivisionByZero);
        }
        multiplier := Some(1.0 / quote.value.value);
      }
      r := Success(Requote(ratefactor, multiplier.value));
    }
  }
}
