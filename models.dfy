/**
 * The Currency table of currencies/models.py: one record per ISO code, and
 * the save() hook that keeps a single base and a single default currency and
 * forces those two active. The table is a map from code to record, so code
 * uniqueness is structural; name uniqueness is the database constraint that a
 * write may violate, which makes that write fail with IntegrityError.
 */
module Models {
  import opened Wrappers

  type Code = string

  datatype Currency = Currency(
    name: string,
    symbol: string,
    factor: real,
    isActive: bool,
    isBase: bool,
    isDefault: bool)

  type Table = map<Code, Currency>

  /** Currency(code=..., name=name) with the field defaults of the model. */
  function NewCurrency(name: string): Currency {
    Currency(name, "", 1.0, true, false, false)
  }

  /** Some other code's record already carries this name. */
  predicate NameTaken(rows: Table, code: Code, name: string) {
    exists c :: c in rows && c != code && rows[c].name == name
  }

  /** The unique constraint on the name column. */
  predicate UniqueNames(rows: Table) {
    forall a, b :: a in rows && b in rows && a != b ==> rows[a].name != rows[b].name
  }

  /** At most one record has is_base. */
  predicate SingleBase(rows: Table) {
    forall a, b :: a in rows && b in rows && rows[a].isBase && rows[b].isBase ==> a == b
  }

  /** At most one record has is_default. */
  predicate SingleDefault(rows: Table) {
    forall a, b :: a in rows && b in rows && rows[a].isDefault && rows[b].isDefault ==> a == b
  }

  /** Every base or default record is active. */
  predicate FlagsActive(rows: Table) {
    forall c :: c in rows && (rows[c].isBase || rows[c].isDefault) ==> rows[c].isActive
  }

  /** The table after save()'s two bulk updates that clear is_base / is_default. */
  function Cleared(rows: Table, rec: Currency): (r: Table)
    ensures r.Keys == rows.Keys
    ensures forall c :: c in rows ==>
      r[c] == rows[c].(isBase := rows[c].isBase && !rec.isBase,
                       isDefault := rows[c].isDefault && !rec.isDefault)
  {
    map c | c in rows :: rows[c].(isBase := rows[c].isBase && !rec.isBase,
                                  isDefault := rows[c].isDefault && !rec.isDefault)
  }

  /** The record as save() writes it: a base or default record is made active. */
  function Stored(rec: Currency): (s: Currency)
    ensures s.isActive == (rec.isActive || rec.isBase || rec.isDefault)
    ensures s.(isActive := rec.isActive) == rec
  {
    if rec.isBase || rec.isDefault then rec.(isActive := true) else rec
  }

  /**
   * The table after Currency.save() of rec under code. The bulk updates run
   * (and are committed) before the row is written; the write itself fails on
   * a duplicate name.
   */
  function AfterSave(rows: Table, code: Code, rec: Currency): (r: Table)
    // the saved code is present exactly when the write succeeded or it was there
    ensures r.Keys == if NameTaken(rows, code, rec.name) then rows.Keys else rows.Keys + {code}
    ensures !NameTaken(rows, code, rec.name) ==> r[code] == Stored(rec)
  {
    var cleared := Cleared(rows, rec);
    if NameTaken(rows, code, rec.name) then cleared else cleared[code := Stored(rec)]
  }

  /** A saved base / default record is the only one; after a failed write there is none. */
  lemma {:induction false} AfterSaveSoleFlags(rows: Table, code: Code, rec: Currency)
    ensures var r := AfterSave(rows, code, rec);
      && (rec.isBase ==> forall c :: c in r && r[c].isBase <==> c == code && !NameTaken(rows, code, rec.name))
      && (rec.isDefault ==> forall c :: c in r && r[c].isDefault <==> c == code && !NameTaken(rows, code, rec.name))
      && ((rec.isBase || rec.isDefault) && !NameTaken(rows, code, rec.name) ==> r[code].isActive)
  {
    var r := AfterSave(rows, code, rec);
    var cleared := Cleared(rows, rec);
    assert forall c :: c in r && c != code ==> r[c] == cleared[c];
  }

  /**
   * Other records lose at most their is_base / is_default flag; with neither
   * flag on the saved record, every other record is left as it was.
   */
  lemma {:induction false} AfterSaveOthers(rows: Table, code: Code, rec: Currency)
    ensures var r := AfterSave(rows, code, rec);
      forall c :: c in rows && c != code ==>
        && r[c].(isBase := rows[c].isBase, isDefault := rows[c].isDefault) == rows[c]
        && (r[c].isBase ==> rows[c].isBase) && (r[c].isDefault ==> rows[c].isDefault)
        && (!rec.isBase && !rec.isDefault ==> r[c] == rows[c])
  {
    var r := AfterSave(rows, code, rec);
    var cleared := Cleared(rows, rec);
    assert forall c :: c in rows && c != code ==> r[c] == cleared[c];
  }

  /** The table after filter(pk=code).update(...) writes rec over the row for code. */
  function AfterUpdate(rows: Table, code: Code, rec: Currency): (r: Table)
    requires code in rows
    ensures r.Keys == rows.Keys
    ensures r[code] == (if rec.name != rows[code].name && NameTaken(rows, code, rec.name) then rows[code] else rec)
    ensures forall c :: c in rows && c != code ==> r[c] == rows[c]
  {
    if rec.name != rows[code].name && NameTaken(rows, code, rec.name) then rows
    else rows[code := rec]
  }

  /** save() keeps the name constraint, whatever the outcome. */
  lemma {:induction false} AfterSaveUniqueNames(rows: Table, code: Code, rec: Currency)
    requires UniqueNames(rows)
    ensures UniqueNames(AfterSave(rows, code, rec))
  {
    var r := AfterSave(rows, code, rec);
    AfterSaveOthers(rows, code, rec);
    forall a, b | a in r && b in r && a != b ensures r[a].name != r[b].name {
      if a == code && !NameTaken(rows, code, rec.name) {
        assert rows[b].name == r[b].name;
      } else if b == code && !NameTaken(rows, code, rec.name) {
        assert rows[a].name == r[a].name;
      } else {
        assert rows[a].name == r[a].name && rows[b].name == r[b].name;
      }
    }
  }

  /** update() keeps the name constraint. */
  lemma {:induction false} AfterUpdateUniqueNames(rows: Table, code: Code, rec: Currency)
    requires code in rows && UniqueNames(rows)
    ensures UniqueNames(AfterUpdate(rows, code, rec))
  {
    var r := AfterUpdate(rows, code, rec);
    forall a, b | a in r && b in r && a != b ensures r[a].name != r[b].name {
      if a == code && r[a] == rec && rec.name != rows[code].name {
        assert !NameTaken(rows, code, rec.name);
        assert rows[b].name == r[b].name;
      } else if b == code && r[b] == rec && rec.name != rows[code].name {
        assert !NameTaken(rows, code, rec.name);
        assert rows[a].name == r[a].name;
      }
    }
  }

  /** save() keeps a consistent table consistent: flags stay single, flagged records active. */
  lemma {:induction false} AfterSaveConsistent(rows: Table, code: Code, rec: Currency)
    requires SingleBase(rows) && SingleDefault(rows) && FlagsActive(rows)
    ensures var r := AfterSave(rows, code, rec);
      SingleBase(r) && SingleDefault(r) && FlagsActive(r)
  {
    var r := AfterSave(rows, code, rec);
    var ok := !NameTaken(rows, code, rec.name);
    AfterSaveOthers(rows, code, rec);
    AfterSaveSoleFlags(rows, code, rec);
    forall a, b | a in r && b in r && r[a].isBase && r[b].isBase ensures a == b {
      if !rec.isBase {
        assert a != code || !ok ==> rows[a].isBase;
        assert b != code || !ok ==> rows[b].isBase;
      }
    }
    forall c | c in r && (r[c].isBase || r[c].isDefault) ensures r[c].isActive {
      if c != code || !ok {
        assert rows[c].isBase || rows[c].isDefault;
      }
    }
  }

  /**
   * The database table. Rows are written through Save (the model's save hook)
   * and Update (a queryset update() that bypasses it).
   */
  class CurrencyStore {
    var rows: Table

    /** The database constraint on names holds. */
    ghost predicate Valid()
      reads this
    {
      UniqueNames(rows)
    }

    constructor ()
      ensures Valid() && rows == map[]
    {
      rows := map[];
    }

    /** Currency.save(): clear the other flags, force active, write the row. */
    method Save(code: Code, rec: Currency) returns (ok: bool)
      modifies this
      ensures ok == !NameTaken(old(rows), code, rec.name)
      ensures rows == AfterSave(old(rows), code, rec)
      ensures old(Valid()) ==> Valid()
    {
      ok := !NameTaken(rows, code, rec.name);
      var current := rows;
      if rec.isBase {
        current := map c | c in current :: current[c].(isBase := false);
      }
      assert current.Keys == rows.Keys;
      assert forall c :: c in rows ==> current[c] == rows[c].(isBase := rows[c].isBase && !rec.isBase);
      ghost var afterBase := current;
      if rec.isDefault {
        current := map c | c in current :: current[c].(isDefault := false);
      }
      assert current.Keys == rows.Keys;
      assert forall c :: c in rows ==> current[c] == afterBase[c].(isDefault := afterBase[c].isDefault && !rec.isDefault);
      assert current == Cleared(rows, rec);
      if ok {
        var written := if rec.isDefault || rec.isBase then rec.(isActive := true) else rec;
        current := current[code := written];
      }
      assert current == AfterSave(rows, code, rec);
      if Valid() { AfterSaveUniqueNames(rows, code, rec); }
      rows := current;
    }

    /** filter(pk=code).update(...): write the fields, no save hook. */
    method Update(code: Code, rec: Currency) returns (ok: bool)
      requires code in rows
      modifies this
      ensures ok == (rec.name == old(rows)[code].name || !NameTaken(old(rows), code, rec.name))
      ensures rows == AfterUpdate(old(rows), code, rec)
      ensures old(Valid()) ==> Valid()
    {
      if old(Valid()) { AfterUpdateUniqueNames(rows, code, rec); }
      ok := rec.name == rows[code].name || !NameTaken(rows, code, rec.name);
      if ok {
        rows := rows[code := rec];
      }
    }
  }
}
