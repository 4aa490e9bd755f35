# django-currencies in Dafny

A model of the core of django-currencies, a Django app that stores currencies
and their exchange-rate factors and converts prices between them. It covers:

- the `Currency` table and its `save()` hook. The hook keeps a single base
  and a single default currency, and makes both active. Names are unique, so
  a write that duplicates a name fails with `IntegrityError`.
- the `active` manager, with its `default()` and `base()` lookups.
- the conversion helpers `calculate`, `convert` and `get_currency_code`.
- the two rate sources of the management commands:
  - openexchangerates.org: rate validation, rebasing a rate table onto
    another currency, and the module-level caches;
  - the currency-iso.org ISO 4217 list: document checks, distinct codes,
    lookups and the info dict.
- `BaseHandler`, with its lazy symbol table and its cached base-change
  multiplier.
- the four commands `updatecurrencies`, `currencies`, `initcurrencies` and
  `updatecurrencysymbols`.

`Decimal` amounts are exact rationals (`real`), and each `quantize` is
written out:

- `Decimals.Quantize4` keeps 4 digits with ROUND_HALF_EVEN;
- `Decimals.QuantizeUp2` keeps 2 digits with ROUND_UP, which rounds away
  from zero.

The database table is `Models.CurrencyStore`, a class whose field `rows`
maps each code to its record. Each command is a method on that store that
loops over codes or records. Every such method is proved equal to a
specification function: a fold over the same sequence (`ImportRun`, `Init`,
`Fill`) or a closed-form table (`NewFactors`). The lemmas prove what each
command promises about those functions.

External data arrives as parameters:

- the client's `latest()` and `currencies()` replies;
- the downloaded name map;
- the parsed ISO document;
- the contents of `currencies.json`;
- the order in which the queryset yields records.

Modules, one per source file:

| module | source |
|---|---|
| `Models` | currencies/models.py |
| `Managers` | currencies/managers.py |
| `Utils` | currencies/utils.py |
| `OpenExchangeRates` | currencies/management/commands/_openexchangerates.py |
| `CurrencyIso` | currencies/management/commands/_currencyiso.py |
| `CurrencyHandler` | currencies/management/commands/_currencyhandler.py |
| `UpdateCurrencies` | currencies/management/commands/updatecurrencies.py |
| `ImportCurrencies` | currencies/management/commands/currencies.py |
| `InitCurrencies` | currencies/management/commands/initcurrencies.py |
| `UpdateCurrencySymbols` | currencies/management/commands/updatecurrencysymbols.py |

Supporting modules:

- `Wrappers`: Option, Result, and the Python exceptions as a datatype;
- `Decimals`: rounding;
- `Strings`: Python's string order, `sorted()` and `"%i"`.

## Model

| member | source | states |
|---|---|---|
| Strings.Sorted | currencies/management/commands/currencies.py:52 | `sorted(keys)`: exactly the keys, each once, in strictly ascending Python string order |
| Strings.SortedDistinct | currencies/management/commands/initcurrencies.py:26 | the sorted codes have no repeats, so each code is visited once |
| Strings.ParseNatToString | currencies/management/commands/initcurrencies.py:33-36 | the `%i` text of a count reads back as that count |
| Decimals.Quantize4 | currencies/management/commands/_openexchangerates.py:61 | `quantize(Decimal(".0001"))`: 4 fractional digits, within half a unit of the last digit, exact values kept, and a tie goes to the even last digit |
| Decimals.Quantize4Unique | currencies/management/commands/_openexchangerates.py:61 | a 4-digit value strictly closer than half a unit is the quantized value |
| Decimals.QuantizeUp2 | currencies/utils.py:16 | `quantize(D("0.01"), ROUND_UP)`: 2 digits, moved away from zero by less than a cent, exact values kept |
| Decimals.QuantizeUp2Magnitude | currencies/utils.py:26 | ROUND_UP keeps the sign and moves by less than a cent |
| Decimals.RequoteClose | currencies/management/commands/_currencyhandler.py:46-47 | `rate * (1/x)` quantized has 4 digits and is within half a unit of `rate / x` |
| Models.Cleared | currencies/models.py:40-44 | the two bulk updates clear is_base / is_default on every record when the saved record carries that flag, and touch nothing else |
| Models.Stored | currencies/models.py:47-48 | a base or default record is written active; nothing else changes |
| Models.AfterSave | currencies/models.py:38-50 | save() writes the record, made active when flagged, exactly when no other record has its name; otherwise only the flag clearing happens and the code stays absent if it was |
| Models.AfterSaveSoleFlags | currencies/models.py:40-48 | after a successful save of a base (default) record it is the only base (default), and it is active; after a failed one there is none |
| Models.AfterSaveOthers | currencies/models.py:40-44 | save() changes no other record except to clear a flag the saved record carries |
| Models.AfterUpdate | currencies/management/commands/currencies.py:60 | `filter(pk=).update(...)` writes the fields without the hook, unless the new name belongs to another record |
| Models.AfterSaveUniqueNames | currencies/models.py:14 | save() keeps names unique |
| Models.AfterUpdateUniqueNames | currencies/models.py:14 | update() keeps names unique |
| Models.AfterSaveConsistent | currencies/models.py:38-50 | save() keeps a single base, a single default, and both active |
| Models.CurrencyStore.constructor | currencies/models.py:9-25 | an empty table |
| Models.CurrencyStore.Save | currencies/models.py:38-50 | the table becomes AfterSave; success iff the name is free; names stay unique |
| Models.CurrencyStore.Update | currencies/management/commands/updatecurrencies.py:64 | the table becomes AfterUpdate; success iff the name is unchanged or free |
| Managers.Active | currencies/managers.py:8-10 | the active manager sees exactly the active records, unchanged |
| Managers.Get | currencies/managers.py:13 | `.get(flag=True)`: the one flagged record; DoesNotExist iff none; MultipleObjectsReturned iff two or more |
| Managers.Default | currencies/managers.py:12-13 | `default()` returns an active default record; DoesNotExist iff no active record is the default; MultipleObjectsReturned iff two or more are; no other error, so exactly one active default is found |
| Managers.Base | currencies/managers.py:15-16 | `base()` returns an active base record; DoesNotExist iff no active record is the base; MultipleObjectsReturned iff two or more are; no other error, so exactly one active base is found |
| Managers.DefaultAfterSave | currencies/managers.py:12-13 | after saving a default record, `default()` finds exactly it |
| Managers.BaseAfterSave | currencies/managers.py:15-16 | after saving a base record, `base()` finds exactly it |
| Utils.Calculate | currencies/utils.py:9-16 | DoesNotExist for a code with no active record; the default lookup's error; InvalidOperation for a bad price; success iff all lookups succeed and the default factor is non-zero |
| Utils.Convert | currencies/utils.py:19-26 | same code: the amount handed back as given, parsed or not; otherwise DoesNotExist unless both codes are active, then InvalidOperation for an amount `Decimal` rejects; success iff both are active, the amount parses and the source factor is non-zero; the division error otherwise |
| Utils.CalculateValue | currencies/utils.py:14-16 | a successful calculate is `(price / default.factor) * factor`, rounded up to cents |
| Utils.CalculateRoundsUp | currencies/utils.py:14-16 | calculate's result is the exact price rounded away from zero to cents |
| Utils.ConvertBetweenActive | currencies/utils.py:25-26 | convert between two active codes is `amount * (to / from)`, rounded up to cents |
| Utils.ConvertRoundsUp | currencies/utils.py:25-26 | convert's result is the exact amount rounded away from zero to cents |
| Utils.ConvertRoundTrip | currencies/utils.py:19-26 | converting a→b→a returns the amount to within one cent plus one cent scaled by the factor ratio |
| Utils.CalculateIsConvertFromDefault | currencies/utils.py:9-26 | calculate and convert from the default currency succeed together with the same value and fail with the same error, for parsed and unparsable prices alike, when the default is not the target and has a non-zero factor |
| Utils.CalculateDocumentedCase | currencies/utils.py:12-14 | with default factor 1.0 and USD 1.5, `calculate(10, "USD")` is 15.00 |
| Utils.CurrencyCode | currencies/utils.py:29-41 | the session's code, else the cookie's, else the code of the active default, else None when there is none; MultipleObjectsReturned escapes exactly when two or more active records are the default |
| OpenExchangeRates.CheckRates | currencies/management/commands/_openexchangerates.py:41-47 | raises iff the rate table is missing; a missing or different base, or a base with no rate, is only a warning |
| OpenExchangeRates.ChangedBase | currencies/management/commands/_openexchangerates.py:49-64 | RuntimeError when the new base has no rate, before anything changes; otherwise the same codes, the new base, the old timestamp and other keys, and a check that then passes |
| OpenExchangeRates.ChangeBaseWarnings | currencies/management/commands/_openexchangerates.py:54-58 | "changing base" is written iff the new base has a rate; the base warning iff the first check warns |
| OpenExchangeRates.ChangeBase | currencies/management/commands/_openexchangerates.py:49-64 | the in-place loop yields exactly ChangedBase's table and ChangeBaseWarnings' warnings |
| OpenExchangeRates.ChangedBaseNewBaseIsOne | currencies/management/commands/_openexchangerates.py:59-63 | after changebase the new base's rate is exactly 1 |
| OpenExchangeRates.ChangedBaseClose | currencies/management/commands/_openexchangerates.py:59-61 | every rebased rate has 4 digits and is within half a unit of `rate / rate[new_base]` |
| OpenExchangeRates.ChangedBaseIdentity | currencies/management/commands/_openexchangerates.py:59-62 | rebasing a 4-digit table onto a currency already at 1 changes no rate |
| OpenExchangeRates.Fetched | currencies/management/commands/_openexchangerates.py:72-81 | a direct reply is cached, even one that check_rates rejects with RuntimeError, and check_rates' warnings are written; a 403 falls back to the USD reply: the rebased table is cached exactly when that reply and changebase both succeed, changebase's warnings are written, and the USD error or changebase's exception escapes otherwise; any other client error escapes, nothing is cached and nothing is written |
| OpenExchangeRates.RejectedReplyStays | currencies/management/commands/_openexchangerates.py:72-75 | a reply with other keys but no "rates" raises RuntimeError yet stays cached as a non-empty dict, so later lookups do not fetch again |
| OpenExchangeRates.ForbiddenFallbackRebased | currencies/management/commands/_openexchangerates.py:78-79 | after a 403, the cached table is quoted against the requested base at exactly 1 |
| OpenExchangeRates.RateOf | currencies/management/commands/_openexchangerates.py:94-97 | the rate of the code, None when absent |
| OpenExchangeRates.RatesCache.constructor | currencies/management/commands/_openexchangerates.py:27-40 | both caches start empty |
| OpenExchangeRates.RatesCache.LatestCurrencyRates | currencies/management/commands/_openexchangerates.py:66-81 | a non-empty cache is kept, whatever base is asked for, and the client is not called; an empty one is filled as Fetched says |
| OpenExchangeRates.RatesCache.RateFactor | currencies/management/commands/_openexchangerates.py:91-97 | the cached rate of the code or None; an empty cache is first filled as Fetched says, with its warnings appended to the log and its error passed through; a non-empty cache changes nothing |
| OpenExchangeRates.RatesCache.RateTimestamp | currencies/management/commands/_openexchangerates.py:83-89 | the cached timestamp or None; an empty cache is first filled as Fetched says, with its warnings appended to the log and its error passed through; a non-empty cache changes nothing |
| OpenExchangeRates.RatesCache.AllCurrencyCodes | currencies/management/commands/_openexchangerates.py:28-32 | always calls the client, caches the names, and returns their codes |
| OpenExchangeRates.RatesCache.CurrencyName | currencies/management/commands/_openexchangerates.py:34-38 | calls the client only while no names are cached; KeyError for an unknown code |
| OpenExchangeRates.RatesCache.RemoveCache | currencies/management/commands/_openexchangerates.py:99-102 | both caches emptied, so the next lookup calls the client |
| CurrencyHandler.BaseHandler.constructor | currencies/management/commands/_currencyhandler.py:26-35 | no symbol table and no multiplier |
| CurrencyHandler.BaseHandler.CurrencySymbol | currencies/management/commands/_currencyhandler.py:27-33 | the file is read only while the table is empty; the code's symbol, or None |
| CurrencyHandler.BaseHandler.RateChangeBase | currencies/management/commands/_currencyhandler.py:36-47 | the first call warns once, checks that the current base quotes 1 (RuntimeError otherwise, multiplier left unset), and sets the multiplier to 1 / the new base's rate; later calls reuse it unchecked; the result is `ratefactor * multiplier` quantized to 4 digits |
| CurrencyIso.CheckDoc | currencies/management/commands/_currencyiso.py:54-65 | accepted iff the tag is ISO_4217, the first table is CcyTbl with a first CcyNtry, the date is non-empty and there are at least 270 entries; returns the date; TypeError for a bad tag, count or date, IndexError for a missing table or entry, KeyError for a missing date attribute |
| CurrencyIso.CodesOf | currencies/management/commands/_currencyiso.py:70 | the Ccy texts of the entries, entries without one passed over |
| CurrencyIso.FirstsMembers | currencies/management/commands/_currencyiso.py:67-75 | the distinct codes are exactly the codes of the document |
| CurrencyIso.FirstsDistinct | currencies/management/commands/_currencyiso.py:73-75 | each code is yielded once |
| CurrencyIso.FirstsOrder | currencies/management/commands/_currencyiso.py:67-75 | codes come in order of first appearance |
| CurrencyIso.DistinctCodes | currencies/management/commands/_currencyiso.py:69-75 | the `foundcodes` loop yields exactly Firsts of the codes |
| CurrencyIso.Matching | currencies/management/commands/_currencyiso.py:87-96 | exactly the entries whose Ccy is the code |
| CurrencyIso.MatchingConcat | currencies/management/commands/_currencyiso.py:88-96 | matches keep document order |
| CurrencyIso.IntOf | currencies/management/commands/_currencyiso.py:111-112 | `int(find(...).text)`: AttributeError for a missing element, ValueError for a non-numeral, else its value |
| CurrencyIso.InfoOfEntries | currencies/management/commands/_currencyiso.py:105-116 | RuntimeError when no entry matches |
| CurrencyIso.InfoOfMatchesFields | currencies/management/commands/_currencyiso.py:107-115 | a successful info lists every match's country in order, and the number and exponent of the first match |
| CurrencyIso.InfoOfMatchesCountryMissing | currencies/management/commands/_currencyiso.py:110-115 | a match without a country name makes get_info fail |
| CurrencyIso.InfoPrefixFailure | currencies/management/commands/_currencyiso.py:107-115 | once a match fails, later matches do not change the outcome |
| CurrencyIso.InfoOf | currencies/management/commands/_currencyiso.py:105-116 | the loop over the whole table equals InfoOfEntries |
| CurrencyIso.CurrencyOf | currencies/management/commands/_currencyiso.py:87-99 | get_currency on a table: exactly the matches, and RuntimeError iff there are none |
| CurrencyIso.NameOf | currencies/management/commands/_currencyiso.py:101-103 | get_currencyname on a table: RuntimeError when nothing matches, AttributeError when the first match has no CcyNm, otherwise that CcyNm |
| CurrencyIso.Loaded | currencies/management/commands/_currencyiso.py:29-34 | a cached document with children is returned without a fetch or a check; otherwise the fetch is counted, its error passes through, and a fetched document is cached before the check, with the date recorded and the document returned only when the check accepts it; a returned document has children |
| CurrencyIso.IsoHandler.constructor | currencies/management/commands/_currencyiso.py:27 | nothing cached |
| CurrencyIso.IsoHandler.Currencies | currencies/management/commands/_currencyiso.py:29-34 | the cache, the date, the fetch count and the result are exactly as Loaded gives them |
| CurrencyIso.IsoHandler.AllCurrencyCodes | currencies/management/commands/_currencyiso.py:67-75 | the property's exception passes through; otherwise the distinct codes of the first table in document order; the new state is as Loaded gives it |
| CurrencyIso.IsoHandler.GetCurrency | currencies/management/commands/_currencyiso.py:77-99 | the property's exception passes through; otherwise CurrencyOf: the matches, RuntimeError when there are none; the new state is as Loaded gives it |
| CurrencyIso.IsoHandler.CurrencyName | currencies/management/commands/_currencyiso.py:101-103 | the property's exception passes through; otherwise NameOf: RuntimeError, AttributeError, or the first match's CcyNm; the new state is as Loaded gives it |
| CurrencyIso.IsoHandler.GetInfo | currencies/management/commands/_currencyiso.py:105-116 | the property's exception passes through; otherwise InfoOfEntries over the first table, with RuntimeError when nothing matches; the new state is as Loaded gives it |
| CurrencyIso.IsoHandler.RateTimestamp | currencies/management/commands/_currencyiso.py:118-119 | the recorded date; AttributeError before one is recorded |
| CurrencyIso.RateFactor | currencies/management/commands/_currencyiso.py:121-122 | this source never has a rate |
| UpdateCurrencies.RequestedBase | currencies/management/commands/updatecurrencies.py:31-34 | the sole base record's code, USD when there is none; fails iff two records are the base |
| UpdateCurrencies.NewFactors | currencies/management/commands/updatecurrencies.py:54-64 | the same codes after the factor loop |
| UpdateCurrencies.Unrated | currencies/management/commands/updatecurrencies.py:55-57 | exactly the codes with no rate |
| UpdateCurrencies.Changed | currencies/management/commands/updatecurrencies.py:59-64 | exactly the codes whose factor differs from the quantized rate |
| UpdateCurrencies.WithBaseSoleBase | currencies/management/commands/updatecurrencies.py:42-52 | saving the reply's base record makes it the only base, and active |
| UpdateCurrencies.WithBaseKeepsColumns | currencies/management/commands/updatecurrencies.py:50-52 | saving the base keeps every name, symbol and factor |
| UpdateCurrencies.NewFactorsOnlyFactor | currencies/management/commands/updatecurrencies.py:59-64 | the loop writes only factors, exactly the quantized rate where there is one |
| UpdateCurrencies.UpdateSoleBase | currencies/management/commands/updatecurrencies.py:42-64 | when the reply's base has a record, the command leaves it the only base, and active |
| UpdateCurrencies.UpdateBaseMissing | currencies/management/commands/updatecurrencies.py:46-48 | when the reply's base has no record, no is_base flag changes |
| UpdateCurrencies.UpdateFactors | currencies/management/commands/updatecurrencies.py:54-64 | a successful run stores the quantized rate wherever there is one, keeps every other factor, and changes no name or symbol |
| UpdateCurrencies.UpdateBaseFactorOne | currencies/management/commands/updatecurrencies.py:50-64 | a reply that quotes its base at 1 leaves the base record at factor 1 |
| UpdateCurrencies.HandledStep | currencies/management/commands/updatecurrencies.py:55-64 | one iteration extends the loop invariant in each of its three cases |
| UpdateCurrencies.WriteFactor | currencies/management/commands/updatecurrencies.py:64 | `update(factor=...)` changes that one factor |
| UpdateCurrencies.StoreFactors | currencies/management/commands/updatecurrencies.py:54-64 | the loop leaves NewFactors and reports exactly the unrated and the changed codes |
| UpdateCurrencies.UpdateCurrencies | currencies/management/commands/updatecurrencies.py:31-64 | the command on the store equals Update |
| ImportCurrencies.NonEmpty | currencies/management/commands/currencies.py:41 | the `--import` values without the empty ones |
| ImportCurrencies.Created | currencies/management/commands/currencies.py:58-67 | a created record has the source name, is inactive, and has the file's symbol or none |
| ImportCurrencies.CreatedCodes | currencies/management/commands/currencies.py:53-54 | the codes that are visited, selected and missing |
| ImportCurrencies.CreateEffect | currencies/management/commands/currencies.py:58-60 | get_or_create then update: the named, inactive record, or IntegrityError that leaves the table or an empty-name record |
| ImportCurrencies.ImportOneEffect | currencies/management/commands/currencies.py:53-67 | one visited code changes only its own record, as Visited says; only IntegrityError stops it |
| ImportCurrencies.ImportedStep | currencies/management/commands/currencies.py:52-67 | visiting one more code keeps every record as Expected says |
| ImportCurrencies.ImportRunState | currencies/management/commands/currencies.py:52-67 | after any sequence of codes, the table is as Imported says, or IntegrityError stopped the run |
| ImportCurrencies.ImportResult | currencies/management/commands/currencies.py:41-67 | on success every selected source code has a record: new ones named, inactive and carrying the file's symbol; under `--force` existing selected ones get the file's symbol; all else untouched |
| ImportCurrencies.ImportCode | currencies/management/commands/currencies.py:53-67 | one visited code on the store equals ImportOne |
| ImportCurrencies.ImportCurrencies | currencies/management/commands/currencies.py:41-67 | the command on the store equals ImportRun over the sorted codes |
| InitCurrencies.Initial | currencies/management/commands/initcurrencies.py:30 | a new record has the source name, factor 1.0, and is inactive with no symbol |
| InitCurrencies.Summary | currencies/management/commands/initcurrencies.py:33-36 | the text starts with the count, read back exactly; it ends in "currency" rather than "currencies" iff the count is 1 |
| InitCurrencies.SaveInitial | currencies/management/commands/initcurrencies.py:30 | saving an Initial record inserts it, or changes nothing when the name is taken |
| InitCurrencies.InitStep | currencies/management/commands/initcurrencies.py:27-31 | one visited code keeps the table as Initialised says |
| InitCurrencies.InitState | currencies/management/commands/initcurrencies.py:26-31 | after any sequence of codes, old records are untouched and each selected missing code has an Initial record, or IntegrityError stopped the run |
| InitCurrencies.InitCount | currencies/management/commands/initcurrencies.py:28-31 | the counter is the number of created records |
| InitCurrencies.InitResult | currencies/management/commands/initcurrencies.py:18-31 | on success every selected listed code has a record, new ones Initial and old ones untouched, and the counter equals the number of new records |
| InitCurrencies.InitCode | currencies/management/commands/initcurrencies.py:27-31 | one visited code on the store equals InitOne |
| InitCurrencies.InitCurrencies | currencies/management/commands/initcurrencies.py:18-36 | the command on the store equals Init over the sorted codes; it reports the Summary of the count or the error |
| UpdateCurrencySymbols.FilledSymbol | currencies/management/commands/updatecurrencysymbols.py:18-21 | a record's own symbol stays; an empty one takes the file's non-empty symbol, otherwise stays empty |
| UpdateCurrencySymbols.Message | currencies/management/commands/updatecurrencysymbols.py:25-28 | "Updated " followed by the count, read back exactly; the text ends in "s" iff the count is not 1 |
| UpdateCurrencySymbols.KeptStep | currencies/management/commands/updatecurrencysymbols.py:18-22 | saving a filled record keeps the table as Kept says |
| UpdateCurrencySymbols.FillState | currencies/management/commands/updatecurrencysymbols.py:17-23 | after any sequence of records, the table is as Kept says, or IntegrityError stopped the run |
| UpdateCurrencySymbols.FillCount | currencies/management/commands/updatecurrencysymbols.py:16-23 | when each record is visited once, the counter is the number of filled records |
| UpdateCurrencySymbols.FillFlags | currencies/management/commands/updatecurrencysymbols.py:22 | with one base and one default, no save() changes a flag |
| UpdateCurrencySymbols.NoClash | currencies/management/commands/updatecurrencysymbols.py:22 | a table with unique names never raises, since save() keeps each name |
| UpdateCurrencySymbols.FillResult | currencies/management/commands/updatecurrencysymbols.py:16-23 | the whole command: names and factors kept; every symbol as FilledSymbol; a filled base or default record becomes active and no other activity changes; no flag gained; the counter is the number of filled records |
| UpdateCurrencySymbols.ConsistentResult | currencies/management/commands/updatecurrencysymbols.py:17-22 | on a consistent table only symbols change, each as FilledSymbol |
| UpdateCurrencySymbols.UpdateSymbols | currencies/management/commands/updatecurrencysymbols.py:16-28 | the command on the store equals Fill over the queryset's order; it reports the Message of the count or the error |

## Left out

- Network, file and process I/O are parameters, not effects. This covers:
  - the HTTP clients and `urlopen`;
  - `get_currencies` and its download-or-cached-file fallback;
  - reading `currencies.json`;
  - `os.path` handling.
- XML parsing: the ISO list is a `Document` value. Dates are their text; `strptime`, `strftime` and `fromtimestamp` are not modelled.
- stdout and stderr messages are not modelled. Only the warnings and the final count messages appear, as a warning log and strings.
- The verbosity option and `get_handle` are not modelled.
- The module-level `APP_ID` / `ImproperlyConfigured` checks are not modelled.
- Python's 28-significant-digit decimal context is not modelled: divisions are exact.
- Field length limits (`max_length`, `max_digits`) are not modelled.
- `int()` accepts only plain decimal digits in the model. Signs and surrounding whitespace are not modelled.
- `CurrencyIso.CodesOf`: every Ccy element is assumed to carry text. An entry's code is None only when its Ccy element is missing, and such entries are skipped. An empty `<Ccy/>` would make get_allcurrencycodes yield None, which the model does not capture.
- The order of `Currency.objects.all()` depends on the database collation of names, so it is a parameter (`order`). Only the fact that it lists each record once is assumed.
- Iteration over `_default_manager.all()` in updatecurrencies reads the table once, after the base save, as the model does. Database-side chunking is not modelled.
- Generator laziness in `_currencyiso.py`: `get_allcurrencycodes` and `get_currency` are modelled as whole lists. A caller that stops early is not modelled.
- `Managers.Active`: the manager overrides `get_query_set`, the hook of Django before 1.6. setup.py:56 requires `django>=1.8`, and there that override is never called, so the shipped `active` manager sees every record. The model gives the intended behaviour instead, where the `active` manager sees only active records.
- `Managers.Default`, `Managers.Base`: on the Django versions the package supports, `default()` and `base()` can return an inactive record; the rows give the intended active-only lookups.
- `Utils.Calculate`, `Utils.Convert`: on the Django versions the package supports, both accept inactive codes; the rows give the intended DoesNotExist for them.
- `Utils.CurrencyCode`: on the Django versions the package supports, the fallback can return an inactive default's code; the row gives the intended active-only fallback.
- `UpdateCurrencies.WithBaseKeepsColumns`: is_default is claimed to be kept only when the table has at most one default. Saving a base that is also the default clears every other default.
- `UpdateCurrencies.UpdateFactors`: is_default is kept under the same condition, for the same reason.
- `UpdateCurrencySymbols.FillCount`: it needs the queryset to list each record once. A repeated record would be saved and counted again.
- The web layer is not modelled: views, context processors, template tags, admin and urls.
- The `money/` package, the migrations, `setup.py` and the test modules are not part of this model.
