/**
 * The initcurrencies management command
 * (currencies/management/commands/initcurrencies.py): create a record for
 * every listed currency that has none, optionally only for the codes given
 * as arguments, and report how many were created.
 */
module InitCurrencies {
  import opened Wrappers
  import opened Models
  import opened Strings
  import opened ImportCurrencies

  /** Currency(code=..., name=name, factor=1.0, is_active=False) */
  function Initial(name: string): (rec: Currency)
    ensures rec.name == name && rec.symbol == "" && rec.factor == 1.0
    ensures !rec.isActive && !rec.isBase && !rec.isDefault
  {
    Currency(name, "", 1.0, false, false, false)
  }

  /** The table after the visited codes, the counter i, and the IntegrityError that stops the command. */
  datatype InitRun = InitRun(rows: Table, count: nat, error: Option<Exception>)

  /**
   * One visited code: save() a new record if it is selected and has none; a
   * duplicate name raises. The record has neither flag, so save() is a plain
   * insert (SaveInitial).
   */
  function InitOne(r: InitRun, code: Code, name: string, args: seq<string>): InitRun {
    if r.error.Some? || !Selected(args, code) || code in r.rows then r
    else if NameTaken(r.rows, code, name) then InitRun(r.rows, r.count, Some(IntegrityError))
    else InitRun(r.rows[code := Initial(name)], r.count + 1, None)
  }

  /** The loop over a prefix of the sorted codes. */
  function Init(rows: Table, codes: seq<Code>, source: map<Code, string>, args: seq<string>): InitRun
    requires forall c :: c in codes ==> c in source
  {
    if codes == [] then InitRun(rows, 0, None)
    else
      var code := codes[|codes| - 1];
      InitOne(Init(rows, codes[..|codes| - 1], source, args), code, source[code], args)
  }

  /** Init one code further: unfolds the definition at a prefix of a longer sequence. */
  lemma {:induction false} InitNext(rows: Table, codes: seq<Code>, source: map<Code, string>, args: seq<string>, k: nat)
    requires forall c :: c in codes ==> c in source
    requires k < |codes|
    ensures forall c :: c in codes[..k] ==> c in source
    ensures Init(rows, codes[..k + 1], source, args) ==
      InitOne(Init(rows, codes[..k], source, args), codes[k], source[codes[k]], args)
  {
    assert codes[..k + 1][..k] == codes[..k];
  }

  /** An error ends the run: later codes are not visited. */
  lemma {:induction false} InitStops(rows: Table, codes: seq<Code>, source: map<Code, string>, args: seq<string>, k: nat)
    requires forall c :: c in codes ==> c in source
    requires k <= |codes|
    requires forall c :: c in codes[..k] ==> c in source
    requires Init(rows, codes[..k], source, args).error.Some?
    ensures Init(rows, codes, source, args) == Init(rows, codes[..k], source, args)
    decreases |codes|
  {
    if k < |codes| {
      var init := codes[..|codes| - 1];
      assert init[..k] == codes[..k];
      InitStops(rows, init, source, args, k);
    } else {
      assert codes[..k] == codes;
    }
  }

  /** "%i new currency" for one, "%i new currencies" otherwise. */
  function Summary(count: nat): (s: string)
    ensures |NatToString(count)| < |s| && ParseNat(s[..|NatToString(count)|]) == Some(count)
    ensures s[|s| - 1] == 'y' <==> count == 1
  {
    ParseNatToString(count);
    var s := NatToString(count) + if count == 1 then " new currency" else " new currencies";
    assert s[..|NatToString(count)|] == NatToString(count);
    s
  }

  /**
   * The table once the codes `done` are visited: the old records untouched
   * and an Initial record for each selected code that had none.
   */
  predicate Initialised(rows: Table, source: map<Code, string>, args: seq<string>, done: set<Code>, r: InitRun)
    requires done <= source.Keys
  {
    && r.error.None?
    && r.rows.Keys == rows.Keys + CreatedCodes(rows, args, done)
    && (forall c :: c in r.rows ==> r.rows[c] == if c in rows then rows[c] else Initial(source[c]))
  }

  /** A save() of a record with neither flag changes no other record; it adds the record unless its name is taken. */
  lemma {:induction false} SaveInitial(rows: Table, code: Code, name: string)
    requires code !in rows
    ensures AfterSave(rows, code, Initial(name)) ==
      if NameTaken(rows, code, name) then rows else rows[code := Initial(name)]
  {
    assert Cleared(rows, Initial(name)) == rows;
  }

  /** One visited code adds itself to the created codes exactly when the visit adds its record. */
  lemma {:induction false} CreatedStep(rows: Table, args: seq<string>, done: set<Code>, t: Table, code: Code)
    requires t.Keys == rows.Keys + CreatedCodes(rows, args, done)
    ensures CreatedCodes(rows, args, done + {code}) ==
      if Selected(args, code) && code !in t then CreatedCodes(rows, args, done) + {code}
      else CreatedCodes(rows, args, done)
    ensures Selected(args, code) && code !in t ==> code !in CreatedCodes(rows, args, done)
  {
  }

  /** One visited code keeps the table as Initialised says. */
  lemma {:induction false} InitStep(rows: Table, source: map<Code, string>, args: seq<string>,
                                    done: set<Code>, r: InitRun, code: Code)
    requires done <= source.Keys && code in source
    requires Initialised(rows, source, args, done, r)
    ensures var next := InitOne(r, code, source[code], args);
      && (next.error.Some? ==> next.error.value == IntegrityError)
      && (next.error.None? ==> Initialised(rows, source, args, done + {code}, next))
  {
    CreatedStep(rows, args, done, r.rows, code);
    var next := InitOne(r, code, source[code], args);
    if Selected(args, code) && code !in r.rows && !NameTaken(r.rows, code, source[code]) {
      InitStepKeys(rows, args, done, r.rows, code);
      InitStepRecords(rows, source, r.rows, code);
    }
  }

  /** Adding the visited code to the table adds it to the created codes. */
  lemma {:induction false} InitStepKeys(rows: Table, args: seq<string>, done: set<Code>, t: Table, code: Code)
    requires code !in t && code !in rows && Selected(args, code)
    requires t.Keys == rows.Keys + CreatedCodes(rows, args, done)
    ensures CreatedCodes(rows, args, done + {code}) == CreatedCodes(rows, args, done) + {code}
    ensures t.Keys + {code} == rows.Keys + CreatedCodes(rows, args, done + {code})
  {
  }

  /** The visited code's new record is the Initial one the invariant expects. */
  lemma {:induction false} InitStepRecords(rows: Table, source: map<Code, string>, t: Table, code: Code)
    requires code !in rows && code in source
    requires forall c :: c in t ==> c in rows || c in source
    requires forall c :: c in t ==> t[c] == if c in rows then rows[c] else Initial(source[c])
    ensures var u := t[code := Initial(source[code])];
      forall c :: c in u ==> u[c] == if c in rows then rows[c] else Initial(source[c])
  {
  }

  /**
   * After the loop over source codes, when no error stopped it:
   * the old records are untouched, each selected code that had none has an
   * Initial record, and the counter is the number of those. Only a
   * duplicate name stops it.
   */
  lemma {:induction false} InitState(rows: Table, codes: seq<Code>, source: map<Code, string>, args: seq<string>)
    requires forall c :: c in codes ==> c in source
    ensures var r := Init(rows, codes, source, args);
      && (r.error.Some? ==> r.error.value == IntegrityError)
      && (r.error.None? ==> Initialised(rows, source, args, Elems(codes), r))
    decreases |codes|
  {
    if codes == [] {
      assert CreatedCodes(rows, args, {}) == {};
    } else {
      var init := codes[..|codes| - 1];
      var code := codes[|codes| - 1];
      assert forall c :: c in init ==> c in codes;
      InitState(rows, init, source, args);
      var done := Elems(init);
      assert codes == init + [code];
      assert Elems(codes) == done + {code};
      var before := Init(rows, init, source, args);
      if before.error.None? {
        InitStep(rows, source, args, done, before, code);
      }
    }
  }

  /** A set with one new element is one larger. */
  lemma CardAdd(s: set<Code>, t: set<Code>, x: Code)
    requires t == s + {x} && x !in s
    ensures |t| == |s| + 1
  {
  }

  /** The counter is the number of created records. */
  lemma {:induction false} InitCount(rows: Table, codes: seq<Code>, source: map<Code, string>, args: seq<string>)
    requires forall c :: c in codes ==> c in source
    ensures var r := Init(rows, codes, source, args);
      r.error.None? ==> r.count == |CreatedCodes(rows, args, Elems(codes))|
    decreases |codes|
  {
    if codes == [] {
      assert CreatedCodes(rows, args, {}) == {};
    } else {
      var init := codes[..|codes| - 1];
      var code := codes[|codes| - 1];
      assert forall c :: c in init ==> c in codes;
      InitCount(rows, init, source, args);
      InitState(rows, init, source, args);
      var done := Elems(init);
      assert codes == init + [code];
      assert Elems(codes) == done + {code};
      var before := Init(rows, init, source, args);
      if before.error.None? {
        CountStep(rows, args, done, before, code, source[code]);
      }
    }
  }

  /** One visited code raises the counter exactly when it adds a created code. */
  lemma {:induction false} CountStep(rows: Table, args: seq<string>, done: set<Code>, before: InitRun, code: Code, name: string)
    requires before.error.None?
    requires before.rows.Keys == rows.Keys + CreatedCodes(rows, args, done)
    requires before.count == |CreatedCodes(rows, args, done)|
    ensures var r := InitOne(before, code, name, args);
      r.error.None? ==> r.count == |CreatedCodes(rows, args, done + {code})|
  {
    var r := InitOne(before, code, name, args);
    CreatedStep(rows, args, done, before.rows, code);
    if r.error.None? && Selected(args, code) && code !in before.rows {
      CardAdd(CreatedCodes(rows, args, done), CreatedCodes(rows, args, done + {code}), code);
    }
  }

  /**
   * The whole command on the sorted source codes: when it completes, every
   * selected listed code has a record, the new ones as Initial says, the old
   * ones untouched, and the counter is exactly the number of new records.
   */
  lemma {:induction false} InitResult(rows: Table, source: map<Code, string>, args: seq<string>)
    ensures var r := Init(rows, Sorted(source.Keys), source, args);
      && (r.error.Some? ==> r.error.value == IntegrityError)
      && (r.error.None? ==>
           && (forall c :: c in r.rows <==> c in rows || (c in source && Selected(args, c)))
           && (forall c :: c in rows ==> r.rows[c] == rows[c])
           && (forall c :: c in r.rows && c !in rows ==> r.rows[c] == Initial(source[c]))
           && r.count == |r.rows.Keys - rows.Keys|)
  {
    var codes := Sorted(source.Keys);
    InitState(rows, codes, source, args);
    InitCount(rows, codes, source, args);
    var r := Init(rows, codes, source, args);
    assert Elems(codes) == source.Keys;
    if r.error.None? {
      InitialisedAll(rows, source, args, r);
    }
  }

  /** Once every source code is visited, Initialised and the counter give the command's outcome. */
  lemma {:induction false} InitialisedAll(rows: Table, source: map<Code, string>, args: seq<string>, r: InitRun)
    requires Initialised(rows, source, args, source.Keys, r)
    requires r.count == |CreatedCodes(rows, args, source.Keys)|
    ensures forall c :: c in r.rows <==> c in rows || (c in source && Selected(args, c))
    ensures forall c :: c in rows ==> r.rows[c] == rows[c]
    ensures forall c :: c in r.rows && c !in rows ==> r.rows[c] == Initial(source[c])
    ensures r.count == |r.rows.Keys - rows.Keys|
  {
    var created := CreatedCodes(rows, args, source.Keys);
    assert r.rows.Keys - rows.Keys == created;
  }

  /** One visited code, on the database table: save() a new record if the code is selected and has none. */
  method InitCode(store: CurrencyStore, code: Code, name: string, args: seq<string>, ghost count: nat)
    returns (created: bool, error: Option<Exception>)
    requires store.Valid()
    modifies store
    ensures store.Valid()
    ensures InitOne(InitRun(old(store.rows), count, None), code, name, args) ==
      InitRun(store.rows, if created then count + 1 else count, error)
  {
    created, error := false, None;
    if Selected(args, code) && code !in store.rows {
      SaveInitial(store.rows, code, name);
      var ok := store.Save(code, Initial(name));
      if ok {
        created := true;
      } else {
        error := Some(IntegrityError);
      }
    }
  }

  /** The loop body: the code at index k, continuing the run over the codes before it. */
  method InitAt(store: CurrencyStore, ghost start: Table, codes: seq<Code>, source: map<Code, string>,
                args: seq<string>, k: nat, count: nat)
    returns (next: nat, error: Option<Exception>)
    requires forall c :: c in codes ==> c in source
    requires k < |codes|
    requires store.Valid()
    requires Init(start, codes[..k], source, args) == InitRun(store.rows, count, None)
    modifies store
    ensures store.Valid()
    ensures Init(start, codes[..k + 1], source, args) == InitRun(store.rows, next, error)
  {
    InitNext(start, codes, source, args, k);
    var code := codes[k];
    var created;
    created, error := InitCode(store, code, source[code], args, count);
    next := if created then count + 1 else count;
  }

  /** Command.handle(): `source` is the downloaded currencies.json, `args` the codes on the command line. */
  method InitCurrencies(store: CurrencyStore, source: map<Code, string>, args: seq<string>)
    returns (report: Result<string, Exception>)
    requires store.Valid()
    modifies store
    ensures store.Valid()
    ensures var r := Init(old(store.rows), Sorted(source.Keys), source, args);
      && store.rows == r.rows
      && report == if r.error.Some? then Failure(r.error.value) else Success(Summary(r.count))
  {
    var codes := Sorted(source.Keys);
    ghost var start := store.rows;
    var i: nat := 0;
    var k := 0;
    while k < |codes|
      invariant 0 <= k <= |codes|
      invariant store.Valid()
      invariant Init(start, codes[..k], source, args) == InitRun(store.rows, i, None)
    {
      var error;
      i, error := InitAt(store, start, codes, source, args, k, i);
      if error.Some? {
        InitStops(start, codes, source, args, k + 1);
        return Failure(error.value);
      }
      k := k + 1;
    }
    assert codes[..k] == codes;
    report := Success(Summary(i));
  }
}
