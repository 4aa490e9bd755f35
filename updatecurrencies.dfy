/**
 * The updatecurrencies management command
 * (currencies/management/commands/updatecurrencies.py): ask openexchangerates
 * for the rates against the current base, mark the reply's base currency as
 * the base, and store every rate, quantized to 4 digits, as a factor.
 */
module UpdateCurrencies {
  import opened Wrappers
  import opened Models
  import opened Managers
  import opened Decimals
  import opened OpenExchangeRates

  /** The base to ask the client for: the is_base record's code, else USD. */
  function RequestedBase(rows: Table): (r: Result<Code, Exception>)
    // the base record's code, or USD exactly when no record is the base
    ensures r.Success? ==>
      || (r.value in rows && rows[r.value].isBase)
      || (r.value == "USD" && forall c :: c in rows ==> !rows[c].isBase)
    ensures (forall c :: c in rows ==> !rows[c].isBase) ==> r == Success("USD")
    ensures r.Success? && r.value in rows && rows[r.value].isBase ==>
      forall c :: c in rows && rows[c].isBase ==> c == r.value
    // two base records: the .get() raises and the command stops
    ensures r.Failure? <==> exists a, b :: a in rows && b in rows && a != b && rows[a].isBase && rows[b].isBase
    ensures r.Failure? ==> r.error == MultipleObjectsReturned
  {
    var found := Get(rows, IsBase);
    if found.Success? then Success(found.value)
    else if found.error == DoesNotExist then Success("USD")
    else Failure(found.error)
  }

  /** The table once the reply's base record, if there is one, has been saved with is_base. */
  function WithBase(rows: Table, reply: Response): (r: Table)
    ensures r.Keys == rows.Keys
  {
    if reply.base.Some? && reply.base.value in rows then
      var b := reply.base.value;
      AfterSave(rows, b, rows[b].(isBase := true))
    else rows
  }

  /** The table once every record with a rate has the quantized rate as its factor. */
  function NewFactors(rows: Table, rates: map<Code, real>): (r: Table)
    ensures r.Keys == rows.Keys
  {
    map c | c in rows :: if c in rates then rows[c].(factor := Quantize4(rates[c])) else rows[c]
  }

  /** The codes of the table without a rate. */
  function Unrated(rows: Table, rates: map<Code, real>): (r: set<Code>)
    ensures forall c :: c in r <==> c in rows && c !in rates
  {
    set c | c in rows && c !in rates
  }

  /** The codes whose stored factor differs from the quantized rate, so that an update() is issued. */
  function Changed(rows: Table, rates: map<Code, real>): (r: set<Code>)
    ensures forall c :: c in r <==> c in rows && c in rates && rows[c].factor != Quantize4(rates[c])
  {
    set c | c in rows && c in rates && rows[c].factor != Quantize4(rates[c])
  }

  /** Handling one more code c of the table: its factor is written if it has a rate, and it joins one of the reports. */
  lemma {:induction false} FactorStep(rows: Table, rates: map<Code, real>, todo: set<Code>, c: Code)
    requires c in todo && c in rows
    ensures c in rates ==>
      NewFactors(rows, rates - (todo - {c})) == NewFactors(rows, rates - todo)[c := rows[c].(factor := Quantize4(rates[c]))]
    ensures c !in rates ==> NewFactors(rows, rates - (todo - {c})) == NewFactors(rows, rates - todo)
    ensures Unrated(rows, rates) - (todo - {c}) == (Unrated(rows, rates) - todo) + (if c in rates then {} else {c})
    ensures Changed(rows, rates) - (todo - {c}) == (Changed(rows, rates) - todo) +
      (if c in rates && rows[c].factor != Quantize4(rates[c]) then {c} else {})
  {
  }

  /**
   * The loop's progress: the codes not in todo are handled, their factors
   * written and each reported as unrated or updated.
   */
  predicate Handled(snapshot: Table, rates: map<Code, real>, todo: set<Code>,
                    rows: Table, unrated: set<Code>, updated: set<Code>)
  {
    && rows == NewFactors(snapshot, rates - todo)
    && unrated == Unrated(snapshot, rates) - todo
    && updated == Changed(snapshot, rates) - todo
  }

  /** Nothing is handled before the loop. */
  lemma {:induction false} HandledStart(rows: Table, rates: map<Code, real>)
    ensures Handled(rows, rates, rows.Keys, rows, {}, {})
  {
    assert NewFactors(rows, rates - rows.Keys) == rows;
  }

  /** Everything is handled after the loop. */
  lemma {:induction false} HandledEnd(snapshot: Table, rates: map<Code, real>,
                                      rows: Table, unrated: set<Code>, updated: set<Code>)
    requires Handled(snapshot, rates, {}, rows, unrated, updated)
    ensures rows == NewFactors(snapshot, rates)
    ensures unrated == Unrated(snapshot, rates) && updated == Changed(snapshot, rates)
  {
    assert rates - {} == rates;
  }

  /** One iteration of the loop, in its three cases. */
  lemma {:induction false} HandledStep(snapshot: Table, rates: map<Code, real>, todo: set<Code>,
                                       rows: Table, unrated: set<Code>, updated: set<Code>, c: Code)
    requires Handled(snapshot, rates, todo, rows, unrated, updated)
    requires c in todo && c in snapshot
    ensures c in rows && rows[c] == snapshot[c]
    ensures c !in rates ==> Handled(snapshot, rates, todo - {c}, rows, unrated + {c}, updated)
    ensures c in rates && snapshot[c].factor == Quantize4(rates[c]) ==>
      Handled(snapshot, rates, todo - {c}, rows, unrated, updated)
    ensures c in rates && snapshot[c].factor != Quantize4(rates[c]) ==>
      Handled(snapshot, rates, todo - {c}, rows[c := rows[c].(factor := Quantize4(rates[c]))], unrated, updated + {c})
  {
    FactorStep(snapshot, rates, todo, c);
    if c in rates && snapshot[c].factor == Quantize4(rates[c]) {
      assert rows[c := rows[c].(factor := Quantize4(rates[c]))] == rows;
    }
  }

  /** What the command reports: a base without a record, the codes without a rate, the factors written. */
  datatype Report = Report(baseMissing: bool, unrated: set<Code>, updated: set<Code>)

  /** The table the command leaves behind and what it returns or raises. */
  datatype Run = Run(rows: Table, result: Result<Report, Exception>)

  /** handle(): the whole command on a table and the client's latest() replies. */
  function Update(rows: Table, latest: Code -> Result<Response, Exception>): Run {
    var requested := RequestedBase(rows);
    if requested.Failure? then Run(rows, Failure(requested.error))
    else
      var reply := latest(requested.value);
      if reply.Failure? then Run(rows, Failure(reply.error))
      else
        var l := reply.value;
        var based := WithBase(rows, l);
        if l.rates.None? && based != map[] then Run(based, Failure(KeyError))
        else
          var rates := if l.rates.Some? then l.rates.value else map[];
          Run(NewFactors(based, rates), Success(Report(
            l.base.Some? && l.base.value !in rows, Unrated(based, rates), Changed(based, rates))))
  }

  /** Saving the reply's base makes it the only base record, and an active one. */
  lemma {:induction false} WithBaseSoleBase(rows: Table, reply: Response)
    requires UniqueNames(rows)
    requires reply.base.Some? && reply.base.value in rows
    ensures var r := WithBase(rows, reply);
      var b := reply.base.value;
      && (forall c :: c in r && r[c].isBase <==> c == b)
      && r[b].isActive
  {
    var b := reply.base.value;
    AfterSaveSoleFlags(rows, b, rows[b].(isBase := true));
    assert !NameTaken(rows, b, rows[b].name);
  }

  /**
   * Saving the base touches only flags: names, symbols and factors stay. The
   * save also clears is_default on the other records when the base record is
   * the default, which changes nothing when at most one record is the default.
   */
  lemma {:induction false} WithBaseKeepsColumns(rows: Table, reply: Response)
    requires UniqueNames(rows)
    ensures var r := WithBase(rows, reply);
      forall c :: c in rows ==>
        && r[c].name == rows[c].name && r[c].symbol == rows[c].symbol && r[c].factor == rows[c].factor
        && (SingleDefault(rows) ==> r[c].isDefault == rows[c].isDefault)
  {
    if reply.base.Some? && reply.base.value in rows {
      var b := reply.base.value;
      var rec := rows[b].(isBase := true);
      var r := AfterSave(rows, b, rec);
      var cleared := Cleared(rows, rec);
      assert !NameTaken(rows, b, rec.name);
      forall c | c in rows
        ensures && r[c].name == rows[c].name && r[c].symbol == rows[c].symbol && r[c].factor == rows[c].factor
                && (SingleDefault(rows) ==> r[c].isDefault == rows[c].isDefault)
      {
        if c == b {
          assert r[c] == rec.(isActive := true);
        } else {
          assert r[c] == cleared[c];
          assert SingleDefault(rows) && rows[b].isDefault ==> !rows[c].isDefault;
        }
      }
    }
  }

  /** NewFactors writes only the factor column, and writes the quantized rate exactly where there is one. */
  lemma {:induction false} NewFactorsOnlyFactor(rows: Table, rates: map<Code, real>)
    ensures var r := NewFactors(rows, rates);
      forall c :: c in rows ==>
        && r[c].(factor := rows[c].factor) == rows[c]
        && (c in rates ==> r[c].factor == Quantize4(rates[c]) && Places4(r[c].factor))
        && (c !in rates ==> r[c] == rows[c])
  {
  }

  /**
   * When the reply's base has a record, the command leaves it as the only
   * base record, active, whatever else happens after the save.
   */
  lemma {:induction false} UpdateSoleBase(rows: Table, latest: Code -> Result<Response, Exception>)
    requires UniqueNames(rows)
    requires RequestedBase(rows).Success? && latest(RequestedBase(rows).value).Success?
    requires var l := latest(RequestedBase(rows).value).value; l.base.Some? && l.base.value in rows
    ensures var b := latest(RequestedBase(rows).value).value.base.value;
      var r := Update(rows, latest).rows;
      && (forall c :: c in r && r[c].isBase <==> c == b)
      && r[b].isActive
  {
    var l := latest(RequestedBase(rows).value).value;
    WithBaseSoleBase(rows, l);
    var based := WithBase(rows, l);
    if !(l.rates.None? && based != map[]) {
      NewFactorsOnlyFactor(based, if l.rates.Some? then l.rates.value else map[]);
    }
  }

  /** When the reply's base has no record, no is_base flag changes. */
  lemma {:induction false} UpdateBaseMissing(rows: Table, latest: Code -> Result<Response, Exception>)
    requires RequestedBase(rows).Success? && latest(RequestedBase(rows).value).Success?
    requires var l := latest(RequestedBase(rows).value).value; !(l.base.Some? && l.base.value in rows)
    ensures var r := Update(rows, latest).rows;
      r.Keys == rows.Keys && forall c :: c in rows ==> r[c].isBase == rows[c].isBase
  {
    var l := latest(RequestedBase(rows).value).value;
    if !(l.rates.None? && rows != map[]) {
      NewFactorsOnlyFactor(rows, if l.rates.Some? then l.rates.value else map[]);
    }
  }

  /**
   * A successful run stores the quantized rate as the factor of every record
   * that has one, keeps the factor of every other record, and changes no
   * name or symbol, nor any is_default flag of a table with at most one default.
   */
  lemma {:induction false} UpdateFactors(rows: Table, latest: Code -> Result<Response, Exception>)
    requires UniqueNames(rows)
    requires Update(rows, latest).result.Success?
    ensures var l := latest(RequestedBase(rows).value).value;
      var r := Update(rows, latest).rows;
      && r.Keys == rows.Keys
      && (forall c :: c in rows ==>
           && r[c].name == rows[c].name && r[c].symbol == rows[c].symbol
           && (SingleDefault(rows) ==> r[c].isDefault == rows[c].isDefault)
           && (l.rates.Some? && c in l.rates.value ==> r[c].factor == Quantize4(l.rates.value[c]))
           && (l.rates.None? || c !in l.rates.value ==> r[c].factor == rows[c].factor))
  {
    var l := latest(RequestedBase(rows).value).value;
    var based := WithBase(rows, l);
    WithBaseKeepsColumns(rows, l);
    NewFactorsOnlyFactor(based, if l.rates.Some? then l.rates.value else map[]);
  }

  /** When the reply quotes its own base at 1, the base record ends with factor 1. */
  lemma {:induction false} UpdateBaseFactorOne(rows: Table, latest: Code -> Result<Response, Exception>)
    requires UniqueNames(rows)
    requires Update(rows, latest).result.Success?
    requires var l := latest(RequestedBase(rows).value).value;
      && l.base.Some? && l.base.value in rows && l.rates.Some?
      && l.base.value in l.rates.value && l.rates.value[l.base.value] == 1.0
    ensures var l := latest(RequestedBase(rows).value).value;
      Update(rows, latest).rows[l.base.value].factor == 1.0
  {
    var l := latest(RequestedBase(rows).value).value;
    UpdateFactors(rows, latest);
    assert Places4(1.0) by {
      assert (1.0 * 10000.0).Floor == 10000;
    }
  }

  /** filter(pk=code).update(factor=factor): the name is kept, so the write cannot clash. */
  method WriteFactor(store: CurrencyStore, code: Code, factor: real)
    requires store.Valid() && code in store.rows
    modifies store
    ensures store.Valid()
    ensures store.rows == old(store.rows)[code := old(store.rows)[code].(factor := factor)]
  {
    var ok := store.Update(code, store.rows[code].(factor := factor));
  }

  /** The loop of handle(): one update() per code whose quantized rate differs from its factor. */
  method StoreFactors(store: CurrencyStore, rates: map<Code, real>)
    returns (unrated: set<Code>, updated: set<Code>)
    requires store.Valid()
    modifies store
    ensures store.Valid()
    ensures store.rows == NewFactors(old(store.rows), rates)
    ensures unrated == Unrated(old(store.rows), rates)
    ensures updated == Changed(old(store.rows), rates)
  {
    var snapshot := store.rows;
    var todo := snapshot.Keys;
    unrated, updated := {}, {};
    HandledStart(snapshot, rates);
    while todo != {}
      invariant todo <= snapshot.Keys
      invariant store.Valid()
      invariant Handled(snapshot, rates, todo, store.rows, unrated, updated)
      decreases |todo|
    {
      var c :| c in todo;
      HandledStep(snapshot, rates, todo, store.rows, unrated, updated, c);
      if c !in rates {
        unrated := unrated + {c};
      } else {
        var factor := Quantize4(rates[c]);
        if snapshot[c].factor != factor {
          WriteFactor(store, c, factor);
          updated := updated + {c};
        }
      }
      todo := todo - {c};
    }
    HandledEnd(snapshot, rates, store.rows, unrated, updated);
  }

  /** The command on the database table. */
  method UpdateCurrencies(store: CurrencyStore, latest: Code -> Result<Response, Exception>)
    returns (r: Result<Report, Exception>)
    requires store.Valid()
    modifies store
    ensures store.Valid()
    ensures Run(store.rows, r) == Update(old(store.rows), latest)
  {
    ghost var start := store.rows;
    var requested := RequestedBase(store.rows);
    if requested.Failure? {
      return Failure(requested.error);
    }
    var reply := latest(requested.value);
    if reply.Failure? {
      return Failure(reply.error);
    }
    var l := reply.value;
    var baseMissing := false;
    if l.base.Some? {
      var b := l.base.value;
      if b !in store.rows {
        baseMissing := true;
      } else {
        var ok := store.Save(b, store.rows[b].(isBase := true));
      }
    }
    assert store.rows == WithBase(start, l);
    if l.rates.None? && store.rows != map[] {
      return Failure(KeyError);
    }
    var rates := if l.rates.Some? then l.rates.value else map[];
    var unrated, updated := StoreFactors(store, rates);
    r := Success(Report(baseMissing, unrated, updated));
  }
}
