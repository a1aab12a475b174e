# The Coin Vault record store, in Dafny

The Coin Vault keeps a coin collection as a list of records in memory. The list
is backed by a JSON file, and each record maps the fixed field keys
(`codigo_unico`, `pais_emisor`, `ano_acunacion`, …) to values. This project
models that record store (`coin_data_manager.py`) and proves what its
operations promise.

The model covers these operations:

- the identifier generator `generar_codigo_unico`, which builds `PPP-YYYY-NNNNNN`;
- adding a coin, finding one by identifier, the case-insensitive substring
  search, updating in place and deleting by filtering;
- loading and saving the collection;
- the statistics: the record count, the total quantity, the distinct
  countries, the per-field distributions and the demonetised split.

## Modules

- `Wrappers` (`wrappers.dfy`): `Option`.
- `Text` (`text.dfy`): the parts of Python's string behaviour the store relies
  on.
  - ASCII letter filtering and upper/lower case.
  - `str()` of integers.
  - `int()` of an optional sign followed by digits.
  - Zero padding (`f"{n:06d}"`).
  - `split`, `join` and substring `in`.
  - Lemmas: the round trips `int(str(i)) == i`, `join(split(s)) == s` and
    splitting a join of separator-free parts; and substring `in` equals the
    existence of a match offset.
- `Coins` (`coins.dfy`): the 24 fields and their JSON keys. A value is
  `None`, a string, an integer or a boolean, and a record is a map from fields
  to values. It also defines Python truthiness, `str()` of a value,
  `dict.get`, and the complete record that `anadir_moneda` stores.
- `Codes` (`codes.dfy`): the identifier generator, specified by functions,
  with lemmas on the prefix, the year token, the sequence and uniqueness.
- `Search` (`search.dfy`): the search criteria and the selection they make.
- `Stats` (`stats.dfy`): quantities, per-value tallies, the sum of a tally's
  counts, and the set of countries.
- `CoinStore` (`store.dfy`): `class Store`.
  - Fields:
    - `coins` is the module-level list `mi_coleccion`.
    - `disk` is the JSON file: `None` when it does not exist, otherwise the
      collection last written.
  - Each operation is a method whose contract ties the result and the new
    state to the specification functions above. The operations that loop in
    the source loop in the model too: the identifier scan, find, search,
    update, the quantity total, the distinct countries, the distributions and
    the demonetised split. Load, save, add and the record count have no loop
    in either. Delete rebinds the collection to the filtered copy that the
    list comprehension of line 195 builds, given by the function
    `CoinStore.WithoutId`.

Where the code and its own comments or documentation disagree, the model
follows the code:

- A country that is set but has no letters gives an **empty** prefix. Only a
  falsy country gives `XXX` (line 79).
- Deleting removes **every** record carrying the identifier, not only the first
  (line 195).
- Search is a conjunction: a record must satisfy every non-blank criterion
  (lines 169-171). The search tab describes it as a disjunction.
  `Search.SearchIsNotDisjunctive` gives a record that matches one of two
  criteria and is not returned.
- `anadir_moneda` returns nothing. Its effect on the caller is that the
  caller's record receives the identifier (line 139). `Store.Add` returns that
  identifier instead.

## Model

| member | source | states |
|---|---|---|
| Coins.Complete | coin_data_manager.py:141-142 | the stored record has every one of the 24 fields; its identifier is the generated one; every other field is the caller's value, or `None` when missing |
| Coins.FieldListHasEveryField | coin_data_manager.py:43-68 | the field list names every field |
| Codes.Prefix | coin_data_manager.py:79 | `XXX` for a falsy country; otherwise the first min(3, number of letters) letters of `str(country)`, in order and upper-cased; always upper-case letters only |
| Codes.LetterlessCountryGivesEmptyPrefix | coin_data_manager.py:79 | a truthy country whose text has no letter gives the empty prefix, not `XXX` |
| Codes.YearToken | coin_data_manager.py:81-89 | always 4 characters: `str(year)` when that has length 4, `XXXX` otherwise and for a missing year |
| Codes.YearTokenShape | coin_data_manager.py:81-89 | the token is `XXXX`, four digits for a year that is not negative, or `-` followed by digits for a negative year; it contains `-` exactly in the last case |
| Codes.MaxSequenceBounds | coin_data_manager.py:93-107 | `max_secuencial` is at least every sequence claimed by an identifier with three parts and the same prefix and year; it is 0 or the claim of some record |
| Codes.MaxSequenceSnoc | coin_data_manager.py:95-107 | scanning one more record takes the maximum of the running value and that record's claim |
| Codes.SequenceTextShape | coin_data_manager.py:109-110 | the padded sequence has only digits, at least six of them, and `int()` of it gives the sequence back |
| Codes.CodeParts | coin_data_manager.py:97-112 | a generated identifier splits on `-` into exactly the prefix, the year token and the padded sequence |
| Codes.ClaimOfCode | coin_data_manager.py:97-109 | a record carrying a generated identifier claims the sequence `max_secuencial + 1` |
| Codes.CodeIsFresh | coin_data_manager.py:93-112 | for a prefix and a year token without `-`, the identifier differs from the identifier of every record in the collection |
| Codes.NewCodeIsFresh | coin_data_manager.py:74-112 | for a missing or non-negative year, the generated identifier differs from every identifier in the collection |
| Codes.NextSequenceAfterAdd | coin_data_manager.py:93-112 | appending a record carrying the generated identifier raises the next sequence for that prefix and year by exactly one |
| Codes.GeneratedCodeFormat | coin_data_manager.py:74-112 | for a missing or non-negative year the identifier has three `-` parts: the prefix (at most 3 upper-case letters or `XXX`), a 4-character year token (`XXXX` or digits) and a sequence of at least six digits |
| Codes.NegativeYearToken | coin_data_manager.py:83-89 | a year between -999 and -100 gives the 4-character token `str(year)`, which contains `-` |
| Codes.SplitDashedCodeText | coin_data_manager.py:97-98 | an identifier built with a dashed year token splits into four parts, so the scan never counts it |
| Codes.NegativeYearRepeatsCode | coin_data_manager.py:83-112 | with a year between -999 and -100, once a record carrying the generated identifier is appended, generating again gives that same identifier |
| Codes.NegativeYearExample | coin_data_manager.py:83-112 | the year -123 for `España` repeats the identifier of the record just added |
| Codes.PrefixOfEspana | coin_data_manager.py:79 | the prefix of `España` is `ESP` (non-ASCII letters are dropped) |
| Codes.YearTokenOf1975 | coin_data_manager.py:83-84 | the year 1975 gives the token `1975` |
| Codes.SequenceTextOfOne | coin_data_manager.py:110 | sequence 1 is written `000001` |
| Codes.FirstCode | coin_data_manager.py:74-112 | the first coin of `España`, 1975, in an empty collection gets `ESP-1975-000001` |
| Codes.CodeAfterFirst | coin_data_manager.py:93-112 | after one record carrying the first identifier for a prefix and year, the next identifier ends in `000002` |
| Codes.YearArg | coin_data_manager.py:130-137 | the year handed to the generator: a non-empty digit string becomes its number, an integer stays, a boolean is the integer 0 or 1 (`isinstance(True, int)`), anything else (including the `""` default of line 131 and `None`) gives no year |
| Codes.YearArgOfDigits | coin_data_manager.py:131-137 | the digits of a number are read back as that number, and the `""` default gives no year |
| Codes.ClaimedSequence | coin_data_manager.py:96-107 | the sequence an existing record claims: its `str()` identifier (`""` when missing) split on `-` into exactly three parts, the first two equal to the prefix and year token, the third parsed by `int()`; no claim otherwise, including the `ValueError` case |
| Codes.MaxSequence | coin_data_manager.py:93-107 | `max_secuencial` after the scan: the running maximum of 0 and every claim, taken in collection order |
| Codes.Code | coin_data_manager.py:109-112 | the identifier `prefix-token-NNNNNN` with `max_secuencial + 1` zero-padded to six digits |
| Codes.NewCode | coin_data_manager.py:74-112 | `generar_codigo_unico(country, year)` against the collection: the prefix and year token of the country and year, then the code |
| Search.Satisfies | coin_data_manager.py:162-171 | one criterion passes when its value is `None` or `""`, or when its lower-cased `str()` occurs in the lower-cased `str()` of the record's field, a missing field or `None` reading as `""` |
| Search.Select | coin_data_manager.py:158-175 | the records that pass every criterion, in collection order; never more than the collection |
| Stats.QuantityOf | coin_data_manager.py:213-217 | what one record adds: `int()` of its quantity (a boolean as 0 or 1, a string when it parses), and 1 when the key is missing, `None` or unparsable |
| Stats.TotalQuantity | coin_data_manager.py:211-218 | the sum of the records' quantities |
| Stats.Tally | coin_data_manager.py:230-234 | the distribution dict: for each record whose field is truthy, that value's entry raised by one from 0 |
| Stats.CountrySet | coin_data_manager.py:222-225 | the set of lower-cased non-empty string countries |
| CoinStore.WithoutId | coin_data_manager.py:195 | the records whose identifier is not the given one, in order; never longer than the collection, and none left carries the identifier |
| Text.ParseInt | coin_data_manager.py:105 | `int()` of a string: an optional sign and one or more digits give the number, anything else the `ValueError` branch (also used at line 215) |
| Text.Letters | coin_data_manager.py:79 | `"".join(filter(str.isalpha, s))`: never longer than `s`, only letters, and non-empty when `s` has a letter |
| Search.SelectMembership | coin_data_manager.py:158-175 | a record is returned exactly when it is in the collection and satisfies every criterion |
| Search.SelectIsSubsequence | coin_data_manager.py:158-175 | the results keep the collection's order (a subsequence) |
| Search.SelectStep | coin_data_manager.py:159-174 | scanning one more record appends it exactly when it matches |
| Search.SelectSpec | coin_data_manager.py:153-175 | the results are exactly the matching records of the collection, in collection order |
| Search.SelectAllBlank | coin_data_manager.py:163-164 | when every criterion is `None` or empty, every record is returned |
| Search.MatchesConcat | coin_data_manager.py:161-171 | matching a combined list of criteria is matching each part (conjunction) |
| Search.SelectConcat | coin_data_manager.py:161-171 | searching with two lists of criteria is searching with the first and then searching those results with the second |
| Search.SearchIsNotDisjunctive | coin_data_manager.py:161-171 | a record with country `España` and type `Euro` is not returned for country `esp` together with type `esp` |
| Search.EspanaContainsEsp | coin_data_manager.py:166-169 | `esp` is found in `España` once both are lower-cased |
| Search.EuroLacksEsp | coin_data_manager.py:166-169 | `esp` is not found in `Euro` |
| Stats.TotalQuantityConcat | coin_data_manager.py:211-218 | the total quantity of two collections together is the sum of their totals |
| Stats.TotalQuantityBounds | coin_data_manager.py:211-218 | with every quantity at least 1 the total is at least the number of records; with no quantity stored it is exactly the number of records |
| Stats.CountOfPositive | coin_data_manager.py:230-234 | a value's count is positive exactly when some record holds it |
| Stats.TallyCounts | coin_data_manager.py:230-234 | every key of a distribution is truthy and maps to the number of records holding it, which is positive; no truthy held value is missing |
| Stats.TallyStep | coin_data_manager.py:231-234 | one more record bumps its value's count when the value is truthy |
| Stats.TallyDomain | coin_data_manager.py:230-234 | the keys of a distribution are exactly the truthy values some record holds |
| Stats.TallySum | coin_data_manager.py:228-235 | the counts of a distribution add up to the number of records whose field is truthy |
| Stats.TallySpec | coin_data_manager.py:228-235 | the keys, the counts and the sum of a distribution together |
| Stats.MapSumBump | coin_data_manager.py:234 | `distribucion[v] = distribucion.get(v, 0) + 1` raises the sum of the counts by one |
| Stats.CountrySetMembership | coin_data_manager.py:222-225 | a name is in the country set exactly when some record has a non-empty string country that lower-cases to it |
| Stats.CountrySetBound | coin_data_manager.py:220-226 | there are never more distinct countries than records naming a country, nor more than records |
| CoinStore.FirstIndex | coin_data_manager.py:146-151 | the position of the first record carrying the identifier, or `None` exactly when none carries it |
| CoinStore.WithoutIdMembership | coin_data_manager.py:195 | a record survives deletion exactly when it is in the collection and does not carry the identifier |
| CoinStore.WithoutIdShrinks | coin_data_manager.py:194-196 | deletion shortens the collection exactly when some record carries the identifier |
| CoinStore.WithoutIdUnchanged | coin_data_manager.py:195-199 | when no record carries the identifier, deletion leaves the collection as it was |
| CoinStore.WithoutIdIsSubsequence | coin_data_manager.py:195 | the surviving records keep their order |
| CoinStore.SubsequenceKeepsDistinctIds | coin_data_manager.py:195 | removing records keeps the identifiers pairwise distinct |
| CoinStore.AppendKeepsDistinctIds | coin_data_manager.py:143 | appending a record with a fresh identifier keeps the identifiers pairwise distinct |
| CoinStore.Store.constructor | coin_data_manager.py:9 | the store starts with an empty collection and the given file |
| CoinStore.Store.Load | coin_data_manager.py:114-121 | the collection becomes the file's content, or empty when there is no file; the file is unchanged |
| CoinStore.Store.Save | coin_data_manager.py:123-126 | the file holds the collection; the collection is unchanged |
| CoinStore.SaveThenLoad | coin_data_manager.py:114-126 | saving and then loading gives back the same collection; this holds by construction of the file as a snapshot of the collection, and says nothing about JSON encoding and decoding |
| CoinStore.Store.GenerateCode | coin_data_manager.py:74-112 | the loop computes the generator's identifier; for a missing or non-negative year it differs from every identifier in the collection |
| CoinStore.Store.Add | coin_data_manager.py:128-144 | the identifier is generated from the country (default `""`) and the year normalised as on lines 134-137; exactly the complete record is appended, earlier records unchanged; the file is saved; for a missing or non-negative year the identifier is fresh and distinct identifiers stay distinct |
| CoinStore.Store.FindById | coin_data_manager.py:146-151 | the first record carrying the identifier, or `None` exactly when no record carries it |
| CoinStore.Store.Search | coin_data_manager.py:153-175 | the nested loop with its early exit returns exactly the matching records, in collection order |
| CoinStore.Store.Update | coin_data_manager.py:178-189 | returns whether a record carries the identifier; if one does, only the first such record changes, exactly the supplied fields are overwritten and the file is saved; otherwise nothing changes and nothing is saved |
| CoinStore.Store.Delete | coin_data_manager.py:191-199 | the collection becomes exactly the records not carrying the identifier, in order; it returns true and saves exactly when something was removed, otherwise nothing changes; distinct identifiers stay distinct |
| CoinStore.Store.CountUnique | coin_data_manager.py:205-207 | the number of records |
| CoinStore.Store.CountTotal | coin_data_manager.py:209-218 | the sum of the quantities, with 1 for a missing or unparsable quantity; at least the number of records when every quantity is at least 1 |
| CoinStore.Store.CountDistinctCountries | coin_data_manager.py:220-226 | fails exactly when some truthy country is not a string (`.lower()` raises); otherwise the number of distinct lower-cased countries, at most the number of records |
| CoinStore.Store.Distribution | coin_data_manager.py:228-235 | the tally of a field: keys exactly the truthy values held, each mapped to its count, the counts summing to the number of records whose field is truthy |
| CoinStore.Store.DistributionByCountry | coin_data_manager.py:228-235 | the tally of the country; its counts sum to the records that name a country |
| CoinStore.Store.DistributionByMintMark | coin_data_manager.py:237-244 | the tally of the mint mark; its counts sum to the records that have one |
| CoinStore.Store.DistributionByCondition | coin_data_manager.py:246-253 | the tally of the condition; its counts sum to the records that have one |
| CoinStore.Store.DistributionByKind | coin_data_manager.py:266-273 | the tally of the type; its counts sum to the records that have one |
| CoinStore.Store.DistributionByOrientation | coin_data_manager.py:275-282 | the tally of the orientation; its counts sum to the records that have one |
| CoinStore.Store.DemonetizedSplit | coin_data_manager.py:255-264 | exactly the keys `Sí` and `No`; `Sí` counts the records whose demonetised field is truthy; the two counts add up to the number of records |
| Text.IntToStringRoundTrip | coin_data_manager.py:84-105 | `int(str(i)) == i` for every integer |
| Text.PaddedRoundTrip | coin_data_manager.py:110 | zero padding gives only digits, at least the width, and `int()` gives the number back |
| Text.JoinSplit | coin_data_manager.py:97 | joining the parts of a split gives the string back |
| Text.SplitJoin | coin_data_manager.py:97 | splitting a join of parts without the separator gives the parts back |
| Text.ContainsAtOffset | coin_data_manager.py:169 | substring `in` holds exactly when the needle occurs at some offset |
| Text.LettersOfLetterless | coin_data_manager.py:79 | filtering a string with no letter leaves nothing |

## Left out

- A failing write. If `guardar_coleccion` raises (line 144, also 187 and
  197), the collection has already changed but the file has not. CoinStore.Store.Save
  always succeeds, so CoinStore.Store.Add, CoinStore.Store.Update and
  CoinStore.Store.Delete promise that the file equals the new collection.
- JSON serialisation and the filesystem. The file is the `disk` field, holding
  the collection last written. A malformed file, which makes `json.load` raise,
  is not modelled.
- Floating-point values. The value, weight, diameter and thickness fields, and
  a float year, cannot be represented: `Value` has no float case.
  - The float branch of line 83 (`str(int(year))` of a float) is not modelled.
  - A float quantity (`int(2.5) == 2`) is not modelled.
- Unicode. `isalpha`, `isdigit`, `lower` and `upper` act on ASCII only.
  A non-ASCII letter such as `ñ` is dropped from the prefix, and it keeps its
  case in search.
- Text.ParseInt: accepts only an optional sign followed by ASCII digits. The
  rest of the `int()` grammar (surrounding whitespace, underscores, Unicode
  digits) is not modelled.
- Python's cross-type equality. `1 == True` makes them the same key of a
  distribution dict; the model keeps `Int(1)` and `Bool(true)` as different
  keys. An identifier stored as a non-string never equals the searched string,
  in both the source and the model.
- Aliasing. `obtener_moneda_por_id` and `buscar_monedas` hand out the stored
  dicts themselves, so a caller could change the collection through them. The
  model returns values. `anadir_moneda` also writes the identifier into the
  caller's dict; the model returns it instead.
- The generator's string-year branch (line 85–86). `anadir_moneda` never
  passes a string to the generator: lines 134-137 turn it into an int or
  `None`.
- Codes.CodeIsFresh: requires that neither the prefix nor the year token
  contains `-`. The same holds for Codes.NewCodeIsFresh, Codes.GeneratedCodeFormat,
  Codes.NextSequenceAfterAdd and the freshness part of CoinStore.Store.Add,
  which require a missing or non-negative year.
  - A negative year from -999 to -100 gives a dashed token, and then the
    identifier is not unique (Codes.NegativeYearRepeatsCode).
  - The form rejects such years before they reach the store.
- The PyQt6 user interface, image copying, chart rendering and the
  `QTimer` wiring are not part of this model.
