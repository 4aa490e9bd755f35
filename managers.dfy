/**
 * CurrencyManager of currencies/managers.py: the `active` manager's row set
 * and its default() / base() single-record lookups, plus the queryset .get()
 * they rest on.
 *
 * The manager overrides get_query_set, the hook name of Django before 1.6;
 * the model states the intended behaviour: the `active` manager sees only
 * active records.
 */
module Managers {
  import opened Wrappers
  import opened Models

  datatype Flag = IsBase | IsDefault

  predicate Has(c: Currency, f: Flag) {
    match f
    case IsBase => c.isBase
    case IsDefault => c.isDefault
  }

  /** The rows the `active` manager sees. */
  function Active(rows: Table): (r: Table)
    ensures forall c :: c in r <==> c in rows && rows[c].isActive
    ensures forall c :: c in r ==> r[c] == rows[c]
  {
    map c | c in rows && rows[c].isActive :: rows[c]
  }

  function Flagged(rows: Table, f: Flag): set<Code> {
    set c | c in rows && Has(rows[c], f)
  }

  lemma SingletonMembers(s: set<Code>)
    requires |s| == 1
    ensures forall a, b :: a in s && b in s ==> a == b
  {
    forall a, b | a in s && b in s ensures a == b {
      assert |s - {a}| == 0;
      assert b !in s - {a};
    }
  }

  lemma {:induction false} TwoMembers(s: set<Code>)
    requires |s| > 1
    ensures exists a, b :: a in s && b in s && a != b
  {
    var a :| a in s;
    assert |s - {a}| == |s| - 1;
    var b :| b in s - {a};
    assert a in s && b in s && a != b;
  }

  /** get(<flag>=True): the one row with the flag, else DoesNotExist or MultipleObjectsReturned. */
  function Get(rows: Table, f: Flag): (r: Result<Code, Exception>)
    ensures r.Success? ==>
      && r.value in rows && Has(rows[r.value], f)
      && forall c :: c in rows && Has(rows[c], f) ==> c == r.value
    ensures r == Failure(DoesNotExist) <==> forall c :: c in rows ==> !Has(rows[c], f)
    ensures r == Failure(MultipleObjectsReturned) <==>
      exists a, b :: a in rows && b in rows && a != b && Has(rows[a], f) && Has(rows[b], f)
    ensures r.Failure? ==> r.error == DoesNotExist || r.error == MultipleObjectsReturned
  {
    var ks := Flagged(rows, f);
    if |ks| == 0 then
      assert forall c :: c in rows && Has(rows[c], f) ==> c in ks;
      Failure(DoesNotExist)
    else if |ks| == 1 then
      SingletonMembers(ks);
      assert forall c :: c in rows && Has(rows[c], f) ==> c in ks;
      var c :| c in ks;
      Success(c)
    else
      TwoMembers(ks);
      Failure(MultipleObjectsReturned)
  }

  /** Currency.active.default() */
  function Default(rows: Table): (r: Result<Code, Exception>)
    ensures r.Success? ==> r.value in rows && rows[r.value].isActive && rows[r.value].isDefault
    ensures r == Failure(DoesNotExist) <==> forall c :: c in rows && rows[c].isActive ==> !rows[c].isDefault
    ensures r == Failure(MultipleObjectsReturned) <==>
      exists a, b :: a in rows && b in rows && a != b && rows[a].isActive && rows[b].isActive && rows[a].isDefault && rows[b].isDefault
    ensures r.Failure? ==> r.error == DoesNotExist || r.error == MultipleObjectsReturned
  {
    var act := Active(rows);
    var r := Get(act, IsDefault);
    assert (exists a, b :: a in act && b in act && a != b && Has(act[a], IsDefault) && Has(act[b], IsDefault)) <==>
      (exists a, b :: a in rows && b in rows && a != b && rows[a].isActive && rows[b].isActive && rows[a].isDefault && rows[b].isDefault);
    r
  }

  /** Currency.active.base() */
  function Base(rows: Table): (r: Result<Code, Exception>)
    ensures r.Success? ==> r.value in rows && rows[r.value].isActive && rows[r.value].isBase
    ensures r == Failure(DoesNotExist) <==> forall c :: c in rows && rows[c].isActive ==> !rows[c].isBase
    ensures r == Failure(MultipleObjectsReturned) <==>
      exists a, b :: a in rows && b in rows && a != b && rows[a].isActive && rows[b].isActive && rows[a].isBase && rows[b].isBase
    ensures r.Failure? ==> r.error == DoesNotExist || r.error == MultipleObjectsReturned
  {
    var act := Active(rows);
    var r := Get(act, IsBase);
    assert (exists a, b :: a in act && b in act && a != b && Has(act[a], IsBase) && Has(act[b], IsBase)) <==>
      (exists a, b :: a in rows && b in rows && a != b && rows[a].isActive && rows[b].isActive && rows[a].isBase && rows[b].isBase);
    r
  }

  /** After a successful save of a default record, default() finds exactly that record. */
  lemma {:induction false} DefaultAfterSave(rows: Table, code: Code, rec: Currency)
    requires rec.isDefault && !NameTaken(rows, code, rec.name)
    ensures Default(AfterSave(rows, code, rec)) == Success(code)
  {
    var r := AfterSave(rows, code, rec);
    AfterSaveSoleFlags(rows, code, rec);
    var act := Active(r);
    assert code in act && act[code].isDefault;
  }

  /** After a successful save of a base record, base() finds exactly that record. */
  lemma {:induction false} BaseAfterSave(rows: Table, code: Code, rec: Currency)
    requires rec.isBase && !NameTaken(rows, code, rec.name)
    ensures Base(AfterSave(rows, code, rec)) == Success(code)
  {
    var r := AfterSave(rows, code, rec);
    AfterSaveSoleFlags(rows, code, rec);
    var act := Active(r);
    assert code in act && act[code].isBase;
  }
}
