/**
 * The `currencies` management command
 * (currencies/management/commands/currencies.py): create the currencies that
 * openexchangerates lists, optionally only the requested ones, and fill in
 * their symbols from the bundled symbol file. Under --force existing
 * records are processed again (their symbol is refreshed); without it they
 * are skipped.
 */
module ImportCurrencies {
  import opened Wrappers
  import opened Models
  import opened Strings

  /** `[e for e in imports if e]`: the --import values without the empty ones. */
  function NonEmpty(imports: seq<string>): (r: seq<string>)
    ensures forall e :: e in r <==> e in imports && e != ""
    ensures |r| <= |imports|
  {
    if imports == [] then []
    else if imports[0] == "" then NonEmpty(imports[1..])
    else [imports[0]] + NonEmpty(imports[1..])
  }

  /** `(not self.imports) or code in self.imports` */
  predicate Selected(wanted: seq<string>, code: Code) {
    wanted == [] || code in wanted
  }

  /** The record of a code the command created: the source's name, inactive, the file's symbol if any. */
  function Created(name: string, symbols: map<Code, string>, code: Code): (rec: Currency)
    ensures rec.name == name && rec.factor == 1.0
    ensures !rec.isActive && !rec.isBase && !rec.isDefault
    ensures rec.symbol == if code in symbols then symbols[code] else ""
  {
    Currency(name, if code in symbols then symbols[code] else "", 1.0, false, false, false)
  }

  /** The table after one visited code, and the IntegrityError that stops the command. */
  datatype Progress = Progress(rows: Table, error: Option<Exception>)

  /**
   * get_or_create() of a missing code, then update() of its name and
   * is_active. The inserted record has an empty name, so the insert clashes
   * when another record has an empty name; the update clashes when another
   * record has the source's name.
   */
  function Create(rows: Table, code: Code, name: string): Progress
    requires code !in rows
  {
    if NameTaken(rows, code, "") then Progress(AfterSave(rows, code, NewCurrency("")), Some(IntegrityError))
    else
      var inserted := AfterSave(rows, code, NewCurrency(""));
      if name != "" && NameTaken(inserted, code, name) then Progress(inserted, Some(IntegrityError))
      else Progress(AfterUpdate(inserted, code, inserted[code].(name := name, isActive := false)), None)
  }

  /**
   * The body of the loop for one source code: skip it unless it is selected
   * and either missing or forced; create a missing record; then write the
   * file's symbol, if it has one. The `continue` for a record that has a
   * symbol only fires without --force, which never reaches this point for an
   * existing record, and a created record has no symbol.
   */
  function ImportOne(rows: Table, code: Code, name: string, symbols: map<Code, string>,
                     wanted: seq<string>, force: bool): Progress
  {
    if !Selected(wanted, code) || (code in rows && !force) then Progress(rows, None)
    else
      var got := if code in rows then Progress(rows, None) else Create(rows, code, name);
      if got.error.Some? || code !in symbols then got
      else Progress(AfterUpdate(got.rows, code, got.rows[code].(symbol := symbols[code])), None)
  }

  /** ImportRun one code further: unfolds the definition at a prefix of a longer sequence. */
  lemma {:induction false} ImportRunNext(rows: Table, codes: seq<Code>, source: map<Code, string>,
                                         symbols: map<Code, string>, wanted: seq<string>, force: bool, i: nat)
    requires forall c :: c in codes ==> c in source
    requires i < |codes|
    ensures forall c :: c in codes[..i] ==> c in source
    ensures var before := ImportRun(rows, codes[..i], source, symbols, wanted, force);
      ImportRun(rows, codes[..i + 1], source, symbols, wanted, force) ==
        if before.error.Some? then before
        else ImportOne(before.rows, codes[i], source[codes[i]], symbols, wanted, force)
  {
    assert codes[..i + 1][..i] == codes[..i];
  }

  /** The loop over a prefix of the sorted codes; the first error ends it. */
  function ImportRun(rows: Table, codes: seq<Code>, source: map<Code, string>,
                     symbols: map<Code, string>, wanted: seq<string>, force: bool): Progress
    requires forall c :: c in codes ==> c in source
  {
    if codes == [] then Progress(rows, None)
    else
      var before := ImportRun(rows, codes[..|codes| - 1], source, symbols, wanted, force);
      var code := codes[|codes| - 1];
      if before.error.Some? then before
      else ImportOne(before.rows, code, source[code], symbols, wanted, force)
  }

  /** An error ends the run: later codes are not visited and the table stays as the error left it. */
  lemma {:induction false} ImportRunStops(rows: Table, codes: seq<Code>, source: map<Code, string>,
                                          symbols: map<Code, string>, wanted: seq<string>, force: bool, k: nat)
    requires forall c :: c in codes ==> c in source
    requires k <= |codes|
    requires forall c :: c in codes[..k] ==> c in source
    requires ImportRun(rows, codes[..k], source, symbols, wanted, force).error.Some?
    ensures ImportRun(rows, codes, source, symbols, wanted, force) == ImportRun(rows, codes[..k], source, symbols, wanted, force)
    decreases |codes|
  {
    if k < |codes| {
      var init := codes[..|codes| - 1];
      assert init[..k] == codes[..k];
      ImportRunStops(rows, init, source, symbols, wanted, force, k);
    } else {
      assert codes[..k] == codes;
    }
  }

  /**
   * What one code's record is once the visited codes `done` are processed:
   * a created record for a selected code that had none; the old record with
   * the file's symbol for a selected one under --force; otherwise the old
   * record.
   */
  function Expected(rows: Table, source: map<Code, string>, symbols: map<Code, string>,
                    wanted: seq<string>, force: bool, done: set<Code>, c: Code): Currency
    requires c in rows || (c in done && c in source && Selected(wanted, c))
  {
    if c in done && Selected(wanted, c) && c !in rows then Created(source[c], symbols, c)
    else if c in done && Selected(wanted, c) && force && c in symbols then rows[c].(symbol := symbols[c])
    else rows[c]
  }

  /** The codes the run creates: visited, selected and without a record. */
  function CreatedCodes(rows: Table, wanted: seq<string>, done: set<Code>): (r: set<Code>)
    ensures forall c :: c in r <==> c in done && Selected(wanted, c) && c !in rows
  {
    set c | c in done && Selected(wanted, c) && c !in rows
  }

  /** Creating a missing code adds the named, inactive record, or fails with IntegrityError. */
  lemma {:induction false} CreateEffect(rows: Table, code: Code, name: string)
    requires code !in rows
    ensures var p := Create(rows, code, name);
      // a failed update() leaves the inserted record, with its empty name, behind
      && (p.error.Some? ==> p.error.value == IntegrityError && (p.rows == rows || p.rows == rows[code := NewCurrency("")]))
      && (p.error.None? ==> p.rows == rows[code := Currency(name, "", 1.0, false, false, false)])
  {
    var rec := NewCurrency("");
    var inserted := AfterSave(rows, code, rec);
    assert Cleared(rows, rec) == rows;
    if !NameTaken(rows, code, "") {
      assert inserted == rows[code := rec];
      if !(name != "" && NameTaken(inserted, code, name)) {
        assert !(name != inserted[code].name && NameTaken(inserted, code, name));
      }
    }
  }

  /** The table after a visit that raised nothing: at most the visited code's record changes. */
  function Visited(rows: Table, code: Code, name: string, symbols: map<Code, string>,
                   wanted: seq<string>, force: bool): Table
  {
    if Selected(wanted, code) && code !in rows then rows[code := Created(name, symbols, code)]
    else if Selected(wanted, code) && force && code in symbols then rows[code := rows[code].(symbol := symbols[code])]
    else rows
  }

  /** One code's step: only that code's record changes, as Expected says, and only IntegrityError can stop it. */
  lemma {:induction false} ImportOneEffect(rows: Table, code: Code, name: string, symbols: map<Code, string>,
                                           wanted: seq<string>, force: bool)
    ensures var p := ImportOne(rows, code, name, symbols, wanted, force);
      && (p.error.Some? ==>
           && p.error.value == IntegrityError && Selected(wanted, code) && code !in rows
           && (p.rows == rows || p.rows == rows[code := NewCurrency("")]))
      && (p.error.None? ==> p.rows == Visited(rows, code, name, symbols, wanted, force))
  {
    if Selected(wanted, code) && code !in rows {
      CreateEffect(rows, code, name);
      if Create(rows, code, name).error.None? {
        CreatedSymbol(rows, code, name, symbols);
      }
    }
  }

  /** A created record then takes the file's symbol: the write changes no name, so it cannot clash. */
  lemma {:induction false} CreatedSymbol(rows: Table, code: Code, name: string, symbols: map<Code, string>)
    requires code !in rows
    requires Create(rows, code, name).error.None?
    requires Create(rows, code, name).rows == rows[code := Currency(name, "", 1.0, false, false, false)]
    ensures var t := Create(rows, code, name).rows;
      code in symbols ==> AfterUpdate(t, code, t[code].(symbol := symbols[code])) == rows[code := Created(name, symbols, code)]
  {
  }

  /** The table once the codes `done` are visited: old codes plus created ones, each record as Expected says. */
  predicate Imported(rows: Table, source: map<Code, string>, symbols: map<Code, string>,
                     wanted: seq<string>, force: bool, done: set<Code>, t: Table)
    requires done <= source.Keys
  {
    && t.Keys == rows.Keys + CreatedCodes(rows, wanted, done)
    && forall c :: c in t ==> t[c] == Expected(rows, source, symbols, wanted, force, done, c)
  }

  /** Visiting one more code keeps the table as Expected says. */
  lemma {:induction false} ImportedStep(rows: Table, source: map<Code, string>, symbols: map<Code, string>,
                                        wanted: seq<string>, force: bool, done: set<Code>, t: Table, code: Code)
    requires done <= source.Keys && code in source
    requires Imported(rows, source, symbols, wanted, force, done, t)
    ensures Imported(rows, source, symbols, wanted, force, done + {code}, Visited(t, code, source[code], symbols, wanted, force))
  {
    var next := Visited(t, code, source[code], symbols, wanted, force);
    var after := done + {code};
    assert next.Keys == rows.Keys + CreatedCodes(rows, wanted, after);
    forall c | c in next
      ensures next[c] == Expected(rows, source, symbols, wanted, force, after, c)
    {
      if c != code {
        assert next[c] == t[c];
      }
    }
  }

  /**
   * After the loop over source codes, if no error stopped it, the
   * table holds the old codes and the created ones, each record as Expected
   * says: skipped and unselected records are untouched, and no base or
   * default flag changes. Only an IntegrityError can stop it.
   */
  lemma {:induction false} ImportRunState(rows: Table, codes: seq<Code>, source: map<Code, string>,
                                          symbols: map<Code, string>, wanted: seq<string>, force: bool)
    requires forall c :: c in codes ==> c in source
    ensures var p := ImportRun(rows, codes, source, symbols, wanted, force);
      var done := Elems(codes);
      && (p.error.Some? ==> p.error.value == IntegrityError)
      && (p.error.None? ==> Imported(rows, source, symbols, wanted, force, done, p.rows))
    decreases |codes|
  {
    if codes == [] {
      var p := ImportRun(rows, codes, source, symbols, wanted, force);
      assert CreatedCodes(rows, wanted, {}) == {};
    } else {
      var init := codes[..|codes| - 1];
      var code := codes[|codes| - 1];
      assert forall c :: c in init ==> c in codes;
      ImportRunState(rows, init, source, symbols, wanted, force);
      var before := ImportRun(rows, init, source, symbols, wanted, force);
      var doneBefore := Elems(init);
      assert codes == init + [code];
      assert Elems(codes) == doneBefore + {code};
      if before.error.None? {
        ImportOneEffect(before.rows, code, source[code], symbols, wanted, force);
        ImportedStep(rows, source, symbols, wanted, force, doneBefore, before.rows, code);
      }
    }
  }

  /**
   * The whole command on the sorted source codes, when it completes: every
   * selected source code has a record; a code that had none got the
   * source's name, is_active false and the file's symbol (or none); under
   * --force an existing selected record kept its name and flags and got the
   * file's symbol; every other record is untouched.
   */
  lemma {:induction false} ImportResult(rows: Table, source: map<Code, string>, symbols: map<Code, string>,
                                        imports: seq<string>, force: bool)
    ensures var wanted := NonEmpty(imports);
      var p := ImportRun(rows, Sorted(source.Keys), source, symbols, wanted, force);
      && (p.error.Some? ==> p.error.value == IntegrityError)
      && (p.error.None? ==>
           && (forall c :: c in p.rows <==> c in rows || (c in source && Selected(wanted, c)))
           && (forall c :: c in p.rows && c !in rows ==> p.rows[c] == Created(source[c], symbols, c))
           && (forall c :: c in rows && force && c in source && Selected(wanted, c) && c in symbols ==>
                 p.rows[c] == rows[c].(symbol := symbols[c]))
           && (forall c :: c in rows && !(force && c in source && Selected(wanted, c) && c in symbols) ==>
                 p.rows[c] == rows[c]))
  {
    var codes := Sorted(source.Keys);
    ImportRunState(rows, codes, source, symbols, NonEmpty(imports), force);
    assert Elems(codes) == source.Keys;
  }

  /** One visited code, on the database table: get_or_create(), then update() of name/is_active and of the symbol. */
  method ImportCode(store: CurrencyStore, code: Code, name: string, symbols: map<Code, string>,
                    wanted: seq<string>, force: bool)
    returns (error: Option<Exception>)
    requires store.Valid()
    modifies store
    ensures store.Valid()
    ensures Progress(store.rows, error) == ImportOne(old(store.rows), code, name, symbols, wanted, force)
  {
    if !Selected(wanted, code) || (code in store.rows && !force) {
      return None;
    }
    if code !in store.rows {
      var ok := store.Save(code, NewCurrency(""));
      if !ok {
        return Some(IntegrityError);
      }
      ok := store.Update(code, store.rows[code].(name := name, isActive := false));
      if !ok {
        return Some(IntegrityError);
      }
    }
    if code in symbols {
      var ok := store.Update(code, store.rows[code].(symbol := symbols[code]));
    }
    error := None;
  }

  /** The loop body: the code at index i, continuing the run over the codes before it. */
  method ImportAt(store: CurrencyStore, ghost start: Table, codes: seq<Code>, source: map<Code, string>,
                  symbols: map<Code, string>, wanted: seq<string>, force: bool, i: nat)
    returns (error: Option<Exception>)
    requires forall c :: c in codes ==> c in source
    requires i < |codes|
    requires store.Valid()
    requires Progress(store.rows, None) == ImportRun(start, codes[..i], source, symbols, wanted, force)
    modifies store
    ensures store.Valid()
    ensures Progress(store.rows, error) == ImportRun(start, codes[..i + 1], source, symbols, wanted, force)
  {
    ImportRunNext(start, codes, source, symbols, wanted, force, i);
    var code := codes[i];
    error := ImportCode(store, code, source[code], symbols, wanted, force);
  }

  /** Command.handle(): `source` is client.currencies(), `symbols` the symbol file. */
  method ImportCurrencies(store: CurrencyStore, source: map<Code, string>, symbols: map<Code, string>,
                          imports: seq<string>, force: bool)
    returns (error: Option<Exception>)
    requires store.Valid()
    modifies store
    ensures store.Valid()
    ensures Progress(store.rows, error) ==
      ImportRun(old(store.rows), Sorted(source.Keys), source, symbols, NonEmpty(imports), force)
  {
    var wanted := NonEmpty(imports);
    var codes := Sorted(source.Keys);
    ghost var start := store.rows;
    var i := 0;
    while i < |codes|
      invariant 0 <= i <= |codes|
      invariant store.Valid()
      invariant Progress(store.rows, None) == ImportRun(start, codes[..i], source, symbols, wanted, force)
    {
      error := ImportAt(store, start, codes, source, symbols, wanted, force, i);
      if error.Some? {
        ImportRunStops(start, codes, source, symbols, wanted, force, i + 1);
        return;
      }
      i := i + 1;
    }
    assert codes[..i] == codes;
    error := None;
  }
}
