/**
 * The updatecurrencysymbols management command
 * (currencies/management/commands/updatecurrencysymbols.py): give every
 * record that has no symbol the one listed in the bundled symbol file, write
 * it through Currency.save(), and report how many were filled.
 */
module UpdateCurrencySymbols {
  import opened Wrappers
  import opened Models
  import opened Strings

  /** `mappings.get(code)` is truthy: the file lists a non-empty symbol for the code. */
  predicate HasSymbol(mappings: map<Code, string>, code: Code) {
    code in mappings && mappings[code] != ""
  }

  /** The record is written: its own symbol is empty and the file has one. */
  predicate Fills(rec: Currency, mappings: map<Code, string>, code: Code) {
    rec.symbol == "" && HasSymbol(mappings, code)
  }

  /** The symbol a record ends with. */
  function FilledSymbol(rec: Currency, mappings: map<Code, string>, code: Code): (s: string)
    ensures rec.symbol != "" ==> s == rec.symbol
    ensures rec.symbol == "" && !HasSymbol(mappings, code) ==> s == ""
    ensures rec.symbol == "" && HasSymbol(mappings, code) ==> s == mappings[code] && s != ""
  {
    if Fills(rec, mappings, code) then mappings[code] else rec.symbol
  }

  /** The queryset yields every record once: `order` lists each code of the table exactly once. */
  predicate Listing(order: seq<Code>, rows: Table) {
    && (forall c :: c in order ==> c in rows)
    && (forall c :: c in rows ==> c in order)
    && Distinct(order)
  }

  /** The table after the visited records, the counter i, and an IntegrityError from save(). */
  datatype SymbolRun = SymbolRun(rows: Table, count: nat, error: Option<Exception>)

  /**
   * One record of the queryset: the instance holds the record as it was
   * when the queryset was read (`snapshot`), so save() writes those fields,
   * with the new symbol, over the current row.
   */
  function FillOne(r: SymbolRun, snapshot: Table, code: Code, mappings: map<Code, string>): SymbolRun
    requires code in snapshot
  {
    var rec := snapshot[code];
    if r.error.Some? || !Fills(rec, mappings, code) then r
    else
      var saved := rec.(symbol := mappings[code]);
      if NameTaken(r.rows, code, saved.name) then SymbolRun(AfterSave(r.rows, code, saved), r.count, Some(IntegrityError))
      else SymbolRun(AfterSave(r.rows, code, saved), r.count + 1, None)
  }

  /** The loop over a prefix of the records, starting from the table the queryset read. */
  function Fill(snapshot: Table, order: seq<Code>, mappings: map<Code, string>): SymbolRun
    requires forall c :: c in order ==> c in snapshot
  {
    if order == [] then SymbolRun(snapshot, 0, None)
    else
      var code := order[|order| - 1];
      FillOne(Fill(snapshot, order[..|order| - 1], mappings), snapshot, code, mappings)
  }

  /** Fill one record further: unfolds the definition at a prefix of a longer sequence. */
  lemma {:induction false} FillNext(snapshot: Table, order: seq<Code>, mappings: map<Code, string>, k: nat)
    requires forall c :: c in order ==> c in snapshot
    requires k < |order|
    ensures forall c :: c in order[..k] ==> c in snapshot
    ensures Fill(snapshot, order[..k + 1], mappings) ==
      FillOne(Fill(snapshot, order[..k], mappings), snapshot, order[k], mappings)
  {
    assert order[..k + 1][..k] == order[..k];
  }

  /** An error ends the run: later records are not visited. */
  lemma {:induction false} FillStops(snapshot: Table, order: seq<Code>, mappings: map<Code, string>, k: nat)
    requires forall c :: c in order ==> c in snapshot
    requires k <= |order|
    requires forall c :: c in order[..k] ==> c in snapshot
    requires Fill(snapshot, order[..k], mappings).error.Some?
    ensures Fill(snapshot, order, mappings) == Fill(snapshot, order[..k], mappings)
    decreases |order|
  {
    if k < |order| {
      var init := order[..|order| - 1];
      assert init[..k] == order[..k];
      FillStops(snapshot, init, mappings, k);
    } else {
      assert order[..k] == order;
    }
  }

  /** "Updated %i symbol" for one, "Updated %i symbols" otherwise. */
  function Message(count: nat): (s: string)
    ensures |s| > 8 + |NatToString(count)| && s[..8] == "Updated "
    ensures ParseNat(s[8..8 + |NatToString(count)|]) == Some(count)
    ensures s[|s| - 1] == 's' <==> count != 1
  {
    ParseNatToString(count);
    var s := "Updated " + NatToString(count) + if count == 1 then " symbol" else " symbols";
    assert s[8..8 + |NatToString(count)|] == NatToString(count);
    s
  }

  /**
   * What a record is once the codes `done` are visited, up to its two
   * flags: a filled record is the queryset's record with the file's symbol
   * as save() writes it (made active when it is a base or default); any
   * other record is as the queryset read it.
   */
  function Expect(snapshot: Table, mappings: map<Code, string>, done: set<Code>, c: Code): Currency
    requires c in snapshot
  {
    var rec := snapshot[c];
    if c in done && Fills(rec, mappings, c) then Stored(rec.(symbol := mappings[c])) else rec
  }

  /**
   * The table once the codes `done` are visited: the same codes, each record
   * as Expect says, and no flag gained (a later save() of another flagged
   * record may have cleared one).
   */
  predicate Kept(snapshot: Table, mappings: map<Code, string>, done: set<Code>, t: Table) {
    && t.Keys == snapshot.Keys
    && forall c :: c in t ==>
         && t[c].(isBase := snapshot[c].isBase, isDefault := snapshot[c].isDefault) == Expect(snapshot, mappings, done, c)
         && (t[c].isBase ==> snapshot[c].isBase)
         && (t[c].isDefault ==> snapshot[c].isDefault)
  }

  /** A save() of a visited record keeps the table as Kept says. */
  lemma {:induction false} KeptStep(snapshot: Table, mappings: map<Code, string>, done: set<Code>, t: Table, code: Code)
    requires code in snapshot && Kept(snapshot, mappings, done, t)
    requires Fills(snapshot[code], mappings, code)
    ensures var saved := snapshot[code].(symbol := mappings[code]);
      var u := AfterSave(t, code, saved);
      !NameTaken(t, code, saved.name) ==> Kept(snapshot, mappings, done + {code}, u)
  {
    var saved := snapshot[code].(symbol := mappings[code]);
    var u := AfterSave(t, code, saved);
    AfterSaveOthers(t, code, saved);
    if !NameTaken(t, code, saved.name) {
      forall c | c in u
        ensures u[c].(isBase := snapshot[c].isBase, isDefault := snapshot[c].isDefault) == Expect(snapshot, mappings, done + {code}, c)
      {
        if c != code {
          assert Expect(snapshot, mappings, done + {code}, c) == Expect(snapshot, mappings, done, c);
        }
      }
    }
  }

  /** A visited record that is not filled leaves the table as it was, and Kept extends to it. */
  lemma {:induction false} KeptSkip(snapshot: Table, mappings: map<Code, string>, done: set<Code>, t: Table, code: Code)
    requires code in snapshot && Kept(snapshot, mappings, done, t)
    requires !Fills(snapshot[code], mappings, code)
    ensures Kept(snapshot, mappings, done + {code}, t)
  {
    forall c | c in t
      ensures Expect(snapshot, mappings, done + {code}, c) == Expect(snapshot, mappings, done, c)
    {
    }
  }

  /**
   * After the loop over any visited codes: when no error stopped it, the
   * table is as Kept says; only IntegrityError can stop it, and only a
   * duplicate name raises it.
   */
  lemma {:induction false} FillState(snapshot: Table, order: seq<Code>, mappings: map<Code, string>)
    requires forall c :: c in order ==> c in snapshot
    ensures var r := Fill(snapshot, order, mappings);
      && (r.error.Some? ==> r.error.value == IntegrityError)
      && (r.error.None? ==> Kept(snapshot, mappings, Elems(order), r.rows))
    decreases |order|
  {
    if order == [] {
      var r := Fill(snapshot, order, mappings);
      forall c | c in r.rows ensures r.rows[c] == Expect(snapshot, mappings, {}, c) {
      }
    } else {
      var init := order[..|order| - 1];
      var code := order[|order| - 1];
      assert forall c :: c in init ==> c in order;
      FillState(snapshot, init, mappings);
      assert order == init + [code];
      assert Elems(order) == Elems(init) + {code};
      var before := Fill(snapshot, init, mappings);
      if before.error.None? {
        if Fills(snapshot[code], mappings, code) {
          KeptStep(snapshot, mappings, Elems(init), before.rows, code);
        } else {
          KeptSkip(snapshot, mappings, Elems(init), before.rows, code);
        }
      }
    }
  }

  /** The codes whose record the visited codes `done` fill. */
  function FilledCodes(snapshot: Table, mappings: map<Code, string>, done: set<Code>): (r: set<Code>)
    ensures forall c :: c in r <==> c in done && c in snapshot && Fills(snapshot[c], mappings, c)
  {
    set c | c in done && c in snapshot && Fills(snapshot[c], mappings, c)
  }

  /** The counter is the number of filled records, when every record is visited once. */
  lemma {:induction false} FillCount(snapshot: Table, order: seq<Code>, mappings: map<Code, string>)
    requires forall c :: c in order ==> c in snapshot
    requires Distinct(order)
    ensures var r := Fill(snapshot, order, mappings);
      r.error.None? ==> r.count == |FilledCodes(snapshot, mappings, Elems(order))|
    decreases |order|
  {
    if order == [] {
      assert FilledCodes(snapshot, mappings, {}) == {};
    } else {
      var init := order[..|order| - 1];
      var code := order[|order| - 1];
      assert forall c :: c in init ==> c in order;
      DistinctLast(order);
      FillCount(snapshot, init, mappings);
      var done := Elems(init);
      assert order == init + [code];
      assert Elems(order) == done + {code};
      var before := Fill(snapshot, init, mappings);
      if before.error.None? {
        CountStep(snapshot, mappings, done, before, code);
      }
    }
  }

  /** One record not visited before raises the counter exactly when it is filled. */
  lemma {:induction false} CountStep(snapshot: Table, mappings: map<Code, string>, done: set<Code>, before: SymbolRun, code: Code)
    requires code in snapshot && code !in done
    requires before.error.None? && before.count == |FilledCodes(snapshot, mappings, done)|
    ensures var r := FillOne(before, snapshot, code, mappings);
      r.error.None? ==> r.count == |FilledCodes(snapshot, mappings, done + {code})|
  {
    CountFilled(snapshot, mappings, done, code);
  }

  /** A code not visited before adds one to the filled codes when it is filled, and none otherwise. */
  lemma {:induction false} CountFilled(snapshot: Table, mappings: map<Code, string>, done: set<Code>, code: Code)
    requires code in snapshot && code !in done
    ensures |FilledCodes(snapshot, mappings, done + {code})| ==
      |FilledCodes(snapshot, mappings, done)| + if Fills(snapshot[code], mappings, code) then 1 else 0
  {
    var before := FilledCodes(snapshot, mappings, done);
    if Fills(snapshot[code], mappings, code) {
      assert FilledCodes(snapshot, mappings, done + {code}) == before + {code};
    } else {
      assert FilledCodes(snapshot, mappings, done + {code}) == before;
    }
  }

  /**
   * With a single base and a single default in the table, no save() clears
   * a flag: every record keeps the flags the queryset read.
   */
  lemma {:induction false} FillFlags(snapshot: Table, order: seq<Code>, mappings: map<Code, string>)
    requires forall c :: c in order ==> c in snapshot
    requires SingleBase(snapshot) && SingleDefault(snapshot)
    ensures var r := Fill(snapshot, order, mappings);
      r.error.None? ==> r.rows.Keys == snapshot.Keys && forall c :: c in r.rows ==>
        r.rows[c].isBase == snapshot[c].isBase && r.rows[c].isDefault == snapshot[c].isDefault
    decreases |order|
  {
    FillState(snapshot, order, mappings);
    if order != [] {
      var init := order[..|order| - 1];
      var code := order[|order| - 1];
      assert forall c :: c in init ==> c in order;
      FillFlags(snapshot, init, mappings);
      FillState(snapshot, init, mappings);
      var before := Fill(snapshot, init, mappings);
      if before.error.None? && Fills(snapshot[code], mappings, code) {
        FlagsStep(snapshot, before.rows, code, snapshot[code].(symbol := mappings[code]));
      }
    }
  }

  /** save() of a record with the queryset's flags, onto a table with the queryset's single flags, keeps every flag. */
  lemma {:induction false} FlagsStep(snapshot: Table, t: Table, code: Code, saved: Currency)
    requires SingleBase(snapshot) && SingleDefault(snapshot)
    requires t.Keys == snapshot.Keys && code in snapshot
    requires saved.isBase == snapshot[code].isBase && saved.isDefault == snapshot[code].isDefault
    requires forall c :: c in t ==> t[c].isBase == snapshot[c].isBase && t[c].isDefault == snapshot[c].isDefault
    ensures var u := AfterSave(t, code, saved);
      !NameTaken(t, code, saved.name) ==>
        forall c :: c in u ==> u[c].isBase == snapshot[c].isBase && u[c].isDefault == snapshot[c].isDefault
  {
    var u := AfterSave(t, code, saved);
    AfterSaveOthers(t, code, saved);
    if !NameTaken(t, code, saved.name) {
      forall c | c in u && c != code
        ensures u[c].isBase == snapshot[c].isBase && u[c].isDefault == snapshot[c].isDefault
      {
        var cleared := Cleared(t, saved);
        assert u[c] == cleared[c];
      }
    }
  }

  /**
   * The whole command on a table with unique names, every record visited
   * once: no save() fails; every record keeps its name and factor; a record
   * with an empty symbol gets the file's non-empty one and every other
   * symbol stays; a filled base or default record becomes active and no
   * other record changes activity; no flag is gained; and the counter is the
   * number of filled records.
   */
  lemma {:induction false} FillResult(snapshot: Table, order: seq<Code>, mappings: map<Code, string>)
    requires UniqueNames(snapshot) && Listing(order, snapshot)
    ensures var r := Fill(snapshot, order, mappings);
      && r.error.None?
      && r.rows.Keys == snapshot.Keys
      && (forall c :: c in r.rows ==>
            && r.rows[c].name == snapshot[c].name
            && r.rows[c].factor == snapshot[c].factor
            && r.rows[c].symbol == FilledSymbol(snapshot[c], mappings, c)
            && r.rows[c].isActive == (snapshot[c].isActive ||
                 (Fills(snapshot[c], mappings, c) && (snapshot[c].isBase || snapshot[c].isDefault)))
            && (r.rows[c].isBase ==> snapshot[c].isBase)
            && (r.rows[c].isDefault ==> snapshot[c].isDefault))
      && r.count == |set c | c in snapshot && Fills(snapshot[c], mappings, c)|
  {
    assert forall c :: c in order ==> c in snapshot;
    NoClash(snapshot, order, mappings);
    FillState(snapshot, order, mappings);
    FillCount(snapshot, order, mappings);
    var r := Fill(snapshot, order, mappings);
    assert Elems(order) == snapshot.Keys;
    assert FilledCodes(snapshot, mappings, snapshot.Keys) == set c | c in snapshot && Fills(snapshot[c], mappings, c);
    KeptAll(snapshot, mappings, r.rows);
  }

  /** Kept, once every record is visited, field by field. */
  lemma {:induction false} KeptAll(snapshot: Table, mappings: map<Code, string>, t: Table)
    requires Kept(snapshot, mappings, snapshot.Keys, t)
    ensures forall c :: c in t ==>
      && t[c].name == snapshot[c].name
      && t[c].factor == snapshot[c].factor
      && t[c].symbol == FilledSymbol(snapshot[c], mappings, c)
      && t[c].isActive == (snapshot[c].isActive ||
           (Fills(snapshot[c], mappings, c) && (snapshot[c].isBase || snapshot[c].isDefault)))
  {
    forall c | c in t
      ensures t[c].name == snapshot[c].name && t[c].factor == snapshot[c].factor
      ensures t[c].symbol == FilledSymbol(snapshot[c], mappings, c)
      ensures t[c].isActive == (snapshot[c].isActive ||
                 (Fills(snapshot[c], mappings, c) && (snapshot[c].isBase || snapshot[c].isDefault)))
    {
      assert t[c].(isBase := snapshot[c].isBase, isDefault := snapshot[c].isDefault) ==
        Expect(snapshot, mappings, snapshot.Keys, c);
    }
  }

  /** Every save() writes a record under its own unchanged name, so a table with unique names never clashes. */
  lemma {:induction false} NoClash(snapshot: Table, order: seq<Code>, mappings: map<Code, string>)
    requires forall c :: c in order ==> c in snapshot
    requires UniqueNames(snapshot)
    ensures Fill(snapshot, order, mappings).error.None?
    decreases |order|
  {
    if order != [] {
      var init := order[..|order| - 1];
      var code := order[|order| - 1];
      assert forall c :: c in init ==> c in order;
      NoClash(snapshot, init, mappings);
      FillState(snapshot, init, mappings);
      var before := Fill(snapshot, init, mappings);
      KeptNames(snapshot, mappings, Elems(init), before.rows, code);
    }
  }

  /** Kept changes no name, so under unique names no other record has the visited record's name. */
  lemma {:induction false} KeptNames(snapshot: Table, mappings: map<Code, string>, done: set<Code>, t: Table, code: Code)
    requires code in snapshot && UniqueNames(snapshot) && Kept(snapshot, mappings, done, t)
    ensures !NameTaken(t, code, snapshot[code].name)
  {
    forall c | c in t && c != code ensures t[c].name != snapshot[code].name {
      assert t[c].name == Expect(snapshot, mappings, done, c).name;
    }
  }

  /**
   * On a consistent table (one base, one default, both active) the command
   * changes nothing but the symbols: every record ends as the queryset read
   * it, with its symbol filled from the file when it had none.
   */
  lemma {:induction false} ConsistentResult(snapshot: Table, order: seq<Code>, mappings: map<Code, string>)
    requires UniqueNames(snapshot) && Listing(order, snapshot)
    requires SingleBase(snapshot) && SingleDefault(snapshot) && FlagsActive(snapshot)
    ensures Fill(snapshot, order, mappings).rows ==
      map c | c in snapshot :: snapshot[c].(symbol := FilledSymbol(snapshot[c], mappings, c))
  {
    FillResult(snapshot, order, mappings);
    FillFlags(snapshot, order, mappings);
  }

  /** Command.handle_noargs(): `mappings` is the loaded currencies.json, `order` the queryset's order. */
  method UpdateSymbols(store: CurrencyStore, mappings: map<Code, string>, order: seq<Code>)
    returns (report: Result<string, Exception>)
    requires store.Valid() && Listing(order, store.rows)
    modifies store
    ensures store.Valid()
    ensures var r := Fill(old(store.rows), order, mappings);
      && store.rows == r.rows
      && report == if r.error.Some? then Failure(r.error.value) else Success(Message(r.count))
  {
    var snapshot := store.rows;
    var i: nat := 0;
    var k := 0;
    while k < |order|
      invariant 0 <= k <= |order|
      invariant store.Valid()
      invariant Fill(snapshot, order[..k], mappings) == SymbolRun(store.rows, i, None)
    {
      var error;
      i, error := FillAt(store, snapshot, order, mappings, k, i);
      if error.Some? {
        FillStops(snapshot, order, mappings, k + 1);
        return Failure(error.value);
      }
      k := k + 1;
    }
    assert order[..k] == order;
    report := Success(Message(i));
  }

  /** The loop body: the record at index k, continuing the run over the records before it. */
  method FillAt(store: CurrencyStore, snapshot: Table, order: seq<Code>, mappings: map<Code, string>,
                k: nat, count: nat)
    returns (next: nat, error: Option<Exception>)
    requires forall c :: c in order ==> c in snapshot
    requires k < |order|
    requires store.Valid()
    requires Fill(snapshot, order[..k], mappings) == SymbolRun(store.rows, count, None)
    modifies store
    ensures store.Valid()
    ensures Fill(snapshot, order[..k + 1], mappings) == SymbolRun(store.rows, next, error)
  {
    FillNext(snapshot, order, mappings, k);
    var code := order[k];
    var rec := snapshot[code];
    next, error := count, None;
    if rec.symbol == "" && code in mappings && mappings[code] != "" {
      var ok := store.Save(code, rec.(symbol := mappings[code]));
      if ok {
        next := count + 1;
      } else {
        error := Some(IntegrityError);
      }
    }
  }
}
