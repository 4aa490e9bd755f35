/**
 * The currency-iso.org source of the management commands
 * (currencies/management/commands/_currencyiso.py). The ISO 4217 list is a
 * Document: a root with its Pblshd attribute and its child tables, the first
 * of which holds one entry per country and currency. An entry's child
 * elements are None where the element is missing.
 */
module CurrencyIso {
  import opened Wrappers
  import opened Strings

  datatype Entry = Entry(
    tag: string,
    country: Option<string>,     // CtryNm
    name: Option<string>,        // CcyNm
    code: Option<string>,        // Ccy
    number: Option<string>,      // CcyNbr
    minorUnits: Option<string>)  // CcyMnrUnts

  datatype Table = Table(tag: string, entries: seq<Entry>)

  datatype Document = Document(tag: string, published: Option<string>, tables: seq<Table>)

  /** The truth value of an element: it has children. */
  predicate HasChildren(doc: Document) {
    |doc.tables| > 0
  }

  /** The list length below which the document is rejected. */
  const MinEntries := 270

  /**
   * _check_doc(root): the Pblshd date, or the exception of the first test
   * that fails, in the order the source makes them.
   */
  function CheckDoc(doc: Document): (r: Result<string, Exception>)
    // accepted exactly when every shape test holds; the result is the Pblshd text
    ensures r.Success? <==>
      && doc.tag == "ISO_4217" && |doc.tables| > 0 && doc.tables[0].tag == "CcyTbl"
      && |doc.tables[0].entries| >= MinEntries && doc.tables[0].entries[0].tag == "CcyNtry"
      && doc.published.Some? && doc.published.value != ""
    ensures r.Success? ==> Some(r.value) == doc.published
    // a missing table or entry is an IndexError, a missing Pblshd a KeyError, the rest TypeError
    ensures r.Failure? && doc.tag != "ISO_4217" ==> r.error == TypeError
    ensures r.Failure? ==> r.error in {TypeError, IndexError, KeyError}
    ensures r.Failure? && r.error == IndexError ==>
      |doc.tables| == 0 || |doc.tables[0].entries| == 0
    ensures r.Failure? && r.error == KeyError ==> doc.published.None?
  {
    if doc.tag != "ISO_4217" then Failure(TypeError)
    else if |doc.tables| == 0 then Failure(IndexError)
    else if doc.tables[0].tag != "CcyTbl" then Failure(TypeError)
    else if |doc.tables[0].entries| == 0 then Failure(IndexError)
    else if doc.tables[0].entries[0].tag != "CcyNtry" then Failure(TypeError)
    else if doc.published.None? then Failure(KeyError)
    else if doc.published.value == "" then Failure(TypeError)
    else if |doc.tables[0].entries| < MinEntries then Failure(TypeError)
    else Success(doc.published.value)
  }

  /** The Ccy texts of a table's entries, in document order (iter('Ccy')). */
  function CodesOf(entries: seq<Entry>): (codes: seq<string>)
    ensures forall c :: c in codes <==> exists e :: e in entries && e.code == Some(c)
    decreases |entries|
  {
    if |entries| == 0 then []
    else
      var init := entries[..|entries| - 1];
      var last := entries[|entries| - 1];
      assert entries == init + [last];
      CodesOf(init) + if last.code.Some? then [last.code.value] else []
  }

  /** The distinct values of s, each kept at its first appearance. */
  function Firsts(s: seq<string>): seq<string>
    decreases |s|
  {
    if |s| == 0 then []
    else
      var f := Firsts(s[..|s| - 1]);
      if s[|s| - 1] in f then f else f + [s[|s| - 1]]
  }

  /** Firsts keeps exactly the values of s. */
  lemma {:induction false} FirstsMembers(s: seq<string>)
    ensures forall x :: x in Firsts(s) <==> x in s
    decreases |s|
  {
    if |s| > 0 {
      var init := s[..|s| - 1];
      FirstsMembers(init);
      assert s == init + [s[|s| - 1]];
    }
  }

  /** Firsts keeps each value once. */
  lemma {:induction false} FirstsDistinct(s: seq<string>)
    ensures forall i, j :: 0 <= i < j < |Firsts(s)| ==> Firsts(s)[i] != Firsts(s)[j]
    decreases |s|
  {
    if |s| > 0 {
      FirstsDistinct(s[..|s| - 1]);
    }
  }

  /** The position of the first occurrence of x in s. */
  function IndexOf(s: seq<string>, x: string): (i: nat)
    requires x in s
    ensures i < |s| && s[i] == x && x !in s[..i]
  {
    if s[0] == x then 0
    else
      assert s == [s[0]] + s[1..];
      1 + IndexOf(s[1..], x)
  }

  /** A prefix does not change where a value first occurs. */
  lemma {:induction false} IndexOfPrefix(s: seq<string>, t: seq<string>, x: string)
    requires x in s
    ensures x in s + t && IndexOf(s + t, x) == IndexOf(s, x)
  {
    var i := IndexOf(s, x);
    assert (s + t)[i] == x;
    assert (s + t)[..i] == s[..i];
  }

  /** Firsts lists the values of s in the order of their first appearance. */
  lemma {:induction false} FirstsOrder(s: seq<string>)
    ensures forall x :: x in Firsts(s) ==> x in s
    ensures forall i, j :: 0 <= i < j < |Firsts(s)| ==> IndexOf(s, Firsts(s)[i]) < IndexOf(s, Firsts(s)[j])
    decreases |s|
  {
    FirstsMembers(s);
    if |s| > 0 {
      var init := s[..|s| - 1];
      var last := s[|s| - 1];
      var f := Firsts(init);
      FirstsOrder(init);
      FirstsMembers(init);
      assert s == init + [last];
      forall x | x in f ensures IndexOf(s, x) == IndexOf(init, x) {
        IndexOfPrefix(init, [last], x);
      }
      if last !in f {
        assert last !in init;
        assert IndexOf(s, last) == |s| - 1;
      }
    }
  }

  /** get_allcurrencycodes' loop: append each code not yet in foundcodes. */
  method DistinctCodes(codes: seq<string>) returns (found: seq<string>)
    ensures found == Firsts(codes)
  {
    found := [];
    var k := 0;
    while k < |codes|
      invariant 0 <= k <= |codes|
      invariant found == Firsts(codes[..k])
    {
      assert codes[..k + 1][..k] == codes[..k];
      if codes[k] !in found {
        found := found + [codes[k]];
      }
      k := k + 1;
    }
    assert codes[..k] == codes;
  }

  /** The entries whose Ccy is code, in document order; entries without Ccy are passed over. */
  function Matching(entries: seq<Entry>, code: string): (m: seq<Entry>)
    ensures forall e :: e in m <==> e in entries && e.code == Some(code)
    decreases |entries|
  {
    if |entries| == 0 then []
    else
      var init := entries[..|entries| - 1];
      var last := entries[|entries| - 1];
      assert entries == init + [last];
      Matching(init, code) + if last.code == Some(code) then [last] else []
  }

  /** Matching keeps document order: it distributes over concatenation. */
  lemma {:induction false} MatchingConcat(s: seq<Entry>, t: seq<Entry>, code: string)
    ensures Matching(s + t, code) == Matching(s, code) + Matching(t, code)
    decreases |t|
  {
    if |t| == 0 {
      assert s + t == s;
    } else {
      var init := t[..|t| - 1];
      assert (s + t)[..|s + t| - 1] == s + init;
      MatchingConcat(s, init, code);
    }
  }

  /** What get_info returns. */
  datatype Info = Info(countryNames: seq<string>, number: nat, exponent: nat)

  /** int(element.text) of an optional element: AttributeError when absent, ValueError when not a numeral. */
  function IntOf(text: Option<string>): (r: Result<nat, Exception>)
    ensures text.None? ==> r == Failure(AttributeError)
    ensures text.Some? && ParseNat(text.value).None? ==> r == Failure(ValueError)
    ensures r.Success? ==> text.Some? && ParseNat(text.value) == Some(r.value)
  {
    if text.None? then Failure(AttributeError)
    else if ParseNat(text.value).None? then Failure(ValueError)
    else Success(ParseNat(text.value).value)
  }

  /** The info dict built from the first match. */
  function FirstInfo(e: Entry): Result<Info, Exception> {
    if e.country.None? then Failure(AttributeError)
    else
      var number := IntOf(e.number);
      if number.Failure? then Failure(number.error)
      else
        var exponent := IntOf(e.minorUnits);
        if exponent.Failure? then Failure(exponent.error)
        else Success(Info([e.country.value], number.value, exponent.value))
  }

  /** get_info's loop over a non-empty list of matches, one entry at a time. */
  function InfoOfMatches(m: seq<Entry>): Result<Info, Exception>
    requires |m| > 0
    decreases |m|
  {
    if |m| == 1 then FirstInfo(m[0])
    else
      var info := InfoOfMatches(m[..|m| - 1]);
      var last := m[|m| - 1];
      if info.Failure? then info
      else if last.country.None? then Failure(AttributeError)
      else Success(info.value.(countryNames := info.value.countryNames + [last.country.value]))
  }

  /** get_info(code) on the entries of the table. */
  function InfoOfEntries(entries: seq<Entry>, code: string): (r: Result<Info, Exception>)
    ensures Matching(entries, code) == [] ==> r == Failure(RuntimeError)
  {
    var m := Matching(entries, code);
    if m == [] then Failure(RuntimeError) else InfoOfMatches(m)
  }

  /**
   * A successful get_info lists the country of every match in order, and takes
   * the numeric code and the exponent from the first match.
   */
  lemma {:induction false} InfoOfMatchesFields(m: seq<Entry>)
    requires |m| > 0 && InfoOfMatches(m).Success?
    ensures var info := InfoOfMatches(m).value;
      && |info.countryNames| == |m|
      && (forall i :: 0 <= i < |m| ==> m[i].country == Some(info.countryNames[i]))
      && m[0].number.Some? && ParseNat(m[0].number.value) == Some(info.number)
      && m[0].minorUnits.Some? && ParseNat(m[0].minorUnits.value) == Some(info.exponent)
    decreases |m|
  {
    if |m| > 1 {
      var init := m[..|m| - 1];
      InfoOfMatchesFields(init);
    }
  }

  /** A match without a country name makes get_info fail. */
  lemma {:induction false} InfoOfMatchesCountryMissing(m: seq<Entry>)
    requires |m| > 0
    requires exists i :: 0 <= i < |m| && m[i].country.None?
    ensures InfoOfMatches(m).Failure?
    decreases |m|
  {
    var init := m[..|m| - 1];
    if |m| > 1 && exists i :: 0 <= i < |init| && init[i].country.None? {
      InfoOfMatchesCountryMissing(init);
    }
  }

  /** One more entry of the table adds itself to the matches when its Ccy is code. */
  lemma MatchingStep(entries: seq<Entry>, k: nat, code: string)
    requires k < |entries|
    ensures entries[k].code == Some(code) ==>
      Matching(entries[..k + 1], code) == Matching(entries[..k], code) + [entries[k]]
    ensures entries[k].code != Some(code) ==>
      Matching(entries[..k + 1], code) == Matching(entries[..k], code)
  {
    assert entries[..k + 1][..k] == entries[..k];
    assert Matching(entries[..k], code) + [] == Matching(entries[..k], code);
  }

  /** A failure on the matches of a prefix of the table is get_info's outcome. */
  lemma {:induction false} InfoFailsAt(entries: seq<Entry>, k: nat, code: string)
    requires k <= |entries|
    requires Matching(entries[..k], code) != [] && InfoOfMatches(Matching(entries[..k], code)).Failure?
    ensures InfoOfEntries(entries, code) == InfoOfMatches(Matching(entries[..k], code))
  {
    assert entries[..k] + entries[k..] == entries;
    MatchingConcat(entries[..k], entries[k..], code);
    InfoPrefixFailure(Matching(entries[..k], code), Matching(entries[k..], code));
  }

  /** The matches of the next prefix, and get_info's value on them, from those of the current prefix. */
  lemma {:induction false} InfoStep(entries: seq<Entry>, k: nat, code: string)
    requires k < |entries| && entries[k].code == Some(code)
    ensures var m := Matching(entries[..k], code);
      var m' := Matching(entries[..k + 1], code);
      && m' != []
      && (m == [] ==> InfoOfMatches(m') == FirstInfo(entries[k]))
      && (m != [] && InfoOfMatches(m).Success? ==>
           InfoOfMatches(m') ==
             if entries[k].country.None? then Failure(AttributeError)
             else Success(InfoOfMatches(m).value.(countryNames :=
                    InfoOfMatches(m).value.countryNames + [entries[k].country.value])))
  {
    MatchingStep(entries, k, code);
    var m' := Matching(entries[..k + 1], code);
    assert m'[..|m'| - 1] == Matching(entries[..k], code);
  }

  /** get_info's loop: walks the whole table, starting the dict at the first match. */
  method InfoOf(entries: seq<Entry>, code: string) returns (r: Result<Info, Exception>)
    ensures r == InfoOfEntries(entries, code)
  {
    var missing := true;
    var info := Info([], 0, 0);
    var k := 0;
    while k < |entries|
      invariant 0 <= k <= |entries|
      invariant missing <==> Matching(entries[..k], code) == []
      invariant !missing ==> InfoOfMatches(Matching(entries[..k], code)) == Success(info)
    {
      var e := entries[k];
      MatchingStep(entries, k, code);
      if e.code == Some(code) {
        InfoStep(entries, k, code);
        if missing {
          var first := FirstInfo(e);
          if first.Failure? {
            InfoFailsAt(entries, k + 1, code);
            return Failure(first.error);
          }
          info := first.value;
        } else {
          if e.country.None? {
            InfoFailsAt(entries, k + 1, code);
            return Failure(AttributeError);
          }
          info := info.(countryNames := info.countryNames + [e.country.value]);
        }
        missing := false;
      }
      k := k + 1;
    }
    assert entries[..k] == entries;
    if missing {
      return Failure(RuntimeError);
    }
    r := Success(info);
  }

  /** Once a prefix of the matches fails, so does every extension of it. */
  lemma {:induction false} InfoPrefixFailure(m: seq<Entry>, rest: seq<Entry>)
    requires |m| > 0 && InfoOfMatches(m).Failure?
    ensures InfoOfMatches(m + rest) == InfoOfMatches(m)
    decreases |rest|
  {
    if |rest| > 0 {
      var init := rest[..|rest| - 1];
      assert (m + rest)[..|m + rest| - 1] == m + init;
      InfoPrefixFailure(m, init);
    } else {
      assert m + rest == m;
    }
  }

  /** get_currency(code) on the entries of the table: the matches, RuntimeError when there are none. */
  function CurrencyOf(entries: seq<Entry>, code: string): (r: Result<seq<Entry>, Exception>)
    ensures r.Success? <==> Matching(entries, code) != []
    ensures r.Success? ==> r.value == Matching(entries, code)
    ensures r.Failure? ==> r.error == RuntimeError
  {
    var m := Matching(entries, code);
    if m == [] then Failure(RuntimeError) else Success(m)
  }

  /**
   * get_currencyname(code) on the entries of the table: the CcyNm text of the
   * first match; RuntimeError when nothing matches, AttributeError when the
   * first match has no CcyNm.
   */
  function NameOf(entries: seq<Entry>, code: string): (r: Result<string, Exception>)
    ensures Matching(entries, code) == [] ==> r == Failure(RuntimeError)
    ensures Matching(entries, code) != [] && Matching(entries, code)[0].name.None? ==> r == Failure(AttributeError)
    ensures r.Success? <==> Matching(entries, code) != [] && Matching(entries, code)[0].name.Some?
    ensures r.Success? ==> Some(r.value) == Matching(entries, code)[0].name
  {
    var m := CurrencyOf(entries, code);
    if m.Failure? then Failure(m.error)
    else if m.value[0].name.None? then Failure(AttributeError)
    else Success(m.value[0].name.value)
  }

  /** What the `currencies` property leaves cached and recorded, whether it fetched, and what it gives back. */
  datatype Load = Load(cached: Option<Document>, published: Option<string>, fetched: bool, result: Result<Document, Exception>)

  /**
   * The `currencies` property from the cached document and date: while nothing
   * with children is cached, fetch (the document get_currencies would return
   * is `source`), cache it, then validate it and record its date.
   */
  function Loaded(cached: Option<Document>, published: Option<string>, source: Result<Document, Exception>): (l: Load)
    // a cached document with children is returned as it is, without a fetch or a check
    ensures cached.Some? && HasChildren(cached.value) ==>
      l == Load(cached, published, false, Success(cached.value))
    ensures !(cached.Some? && HasChildren(cached.value)) ==>
      && l.fetched
      && (source.Failure? ==> l == Load(cached, published, true, Failure(source.error)))
      // the fetched document is cached before it is checked, even when it is rejected
      && (source.Success? ==>
            && l.cached == Some(source.value)
            && l.published == (if CheckDoc(source.value).Success? then Some(CheckDoc(source.value).value) else published)
            && l.result == (if CheckDoc(source.value).Success? then Success(source.value) else Failure(CheckDoc(source.value).error)))
    // a document handed back is the cached one, and has children
    ensures l.result.Success? ==> l.cached == Some(l.result.value) && HasChildren(l.result.value)
  {
    if cached.Some? && HasChildren(cached.value) then Load(cached, published, false, Success(cached.value))
    else if source.Failure? then Load(cached, published, true, Failure(source.error))
    else
      var check := CheckDoc(source.value);
      if check.Failure? then Load(Some(source.value), published, true, Failure(check.error))
      else Load(Some(source.value), Some(check.value), true, Success(source.value))
  }

  /** The handler for currency-iso.org: the cached document and its publication date. */
  class IsoHandler {
    var currencies: Option<Document>
    var published: Option<string>
    ghost var fetches: nat

    constructor ()
      ensures currencies == None && published == None && fetches == 0
    {
      currencies, published, fetches := None, None, 0;
    }

    /** The cache and the date are as the `currencies` property leaves them, and one fetch is counted if it fetched. */
    twostate predicate Loads(source: Result<Document, Exception>)
      reads this
    {
      var l := Loaded(old(currencies), old(published), source);
      && currencies == l.cached && published == l.published
      && fetches == old(fetches) + (if l.fetched then 1 else 0)
    }

    /** The `currencies` property. */
    method Currencies(source: Result<Document, Exception>) returns (r: Result<Document, Exception>)
      modifies this
      ensures Loads(source)
      ensures r == Loaded(old(currencies), old(published), source).result
    {
      if currencies.Some? && HasChildren(currencies.value) {
        return Success(currencies.value);
      }
      fetches := fetches + 1;
      if source.Failure? {
        return Failure(source.error);
      }
      currencies := Some(source.value);
      var check := CheckDoc(source.value);
      if check.Failure? {
        return Failure(check.error);
      }
      published := Some(check.value);
      r := Success(source.value);
    }

    /**
     * get_allcurrencycodes(): each distinct Ccy of the first table, once, in
     * document order; the property's exception passes through.
     */
    method AllCurrencyCodes(source: Result<Document, Exception>) returns (r: Result<seq<string>, Exception>)
      modifies this
      ensures Loads(source)
      ensures var d := Loaded(old(currencies), old(published), source).result;
        r == if d.Failure? then Failure(d.error) else Success(Firsts(CodesOf(d.value.tables[0].entries)))
    {
      var doc := Currencies(source);
      if doc.Failure? {
        return Failure(doc.error);
      }
      var codes := DistinctCodes(CodesOf(doc.value.tables[0].entries));
      r := Success(codes);
    }

    /** get_currency(code): the matching entries, RuntimeError when there are none. */
    method GetCurrency(source: Result<Document, Exception>, code: string) returns (r: Result<seq<Entry>, Exception>)
      modifies this
      ensures Loads(source)
      ensures var d := Loaded(old(currencies), old(published), source).result;
        r == if d.Failure? then Failure(d.error) else CurrencyOf(d.value.tables[0].entries, code)
    {
      var doc := Currencies(source);
      if doc.Failure? {
        return Failure(doc.error);
      }
      var m := Matching(doc.value.tables[0].entries, code);
      if m == [] {
        return Failure(RuntimeError);
      }
      r := Success(m);
    }

    /** get_currencyname(code): the CcyNm of the first match. */
    method CurrencyName(source: Result<Document, Exception>, code: string) returns (r: Result<string, Exception>)
      modifies this
      ensures Loads(source)
      ensures var d := Loaded(old(currencies), old(published), source).result;
        r == if d.Failure? then Failure(d.error) else NameOf(d.value.tables[0].entries, code)
    {
      var matches := GetCurrency(source, code);
      if matches.Failure? {
        return Failure(matches.error);
      }
      var first := matches.value[0];
      if first.name.None? {
        return Failure(AttributeError);
      }
      r := Success(first.name.value);
    }

    /** get_info(code) */
    method GetInfo(source: Result<Document, Exception>, code: string) returns (r: Result<Info, Exception>)
      modifies this
      ensures Loads(source)
      ensures var d := Loaded(old(currencies), old(published), source).result;
        r == if d.Failure? then Failure(d.error) else InfoOfEntries(d.value.tables[0].entries, code)
    {
      var doc := Currencies(source);
      if doc.Failure? {
        return Failure(doc.error);
      }
      r := InfoOf(doc.value.tables[0].entries, code);
    }

    /** get_ratetimestamp(base, code): the recorded date; AttributeError before one is recorded. */
    method RateTimestamp() returns (r: Result<string, Exception>)
      ensures published.None? ==> r == Failure(AttributeError)
      ensures published.Some? ==> r == Success(published.value)
    {
      r := if published.None? then Failure(AttributeError) else Success(published.value);
    }
  }

  /** get_ratefactor(base, code): this source has no rates. */
  function RateFactor(base: string, code: string): (r: Result<real, Exception>)
    ensures r == Failure(NotImplemented)
  {
    Failure(NotImplemented)
  }
}
