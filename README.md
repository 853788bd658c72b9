# trade-recording-bot ledger core, in Dafny

The bot books buy fills into a Google Sheets ledger. A fill arrives as a
brokerage execution message or as an Upbit closed order. The bot then finds
the ledger's header layout in the sheet, finds or creates the row for the
trade date, and writes the price and quantity into the zone that the fill
belongs to. This project models the deterministic core of `main.py` and
proves what each part of it promises:

- **Columns** (`col_to_a1`): the bijective base-26 column lettering, as a loop
  method. It is proved against a specification function that round-trips with
  its decoder.
- **Labels** (`_norm_label`, `_is_*_label`): label normalisation and the four
  substring tests.
- **Dates** (`normalize_date_value`, as far as the ledger needs it): what a
  date cell reads as, and the fact that the "YYYY-MM-DD" text the bot writes
  reads back as its date.
- **Anchor** (`find_header_row_and_columns`, `find_total_qty_column`):
  - the date-first pass over a 3-row × 14-column label window;
  - the label-first fallback;
  - the two errors;
  - the total-quantity column search with its `loc_high_col + 4` default.

  Each is written as loop methods, proved equal to search functions. The
  search functions are characterised as "first match in scan order" lemmas.
- **Sheet** (`find_or_create_date_row`): the worksheet is a class holding a
  finite map from (row, column) to text, and a cell outside the map reads as
  empty. The method scans the snapshot for the target date. Otherwise it
  writes the date text into the first blank live cell below the header, and
  changes nothing else.
- **Zones**: the brokerage rule (price ≤ average → LOC-average zone) and the
  Upbit ratio bands (dual write, single write or skip), as pure decisions that
  return the cell writes.
- **Upbit**: the per-order filter and the amount, price and id derivation in
  `fetch_upbit_fills_for_date`.
- **Sync** (`run_upbit_sync_once`):
  - seen-set filtering;
  - processing in trade-time order;
  - the counters;
  - the stored id list, which is `sorted(ids)[-1000:]`.

  The run is a method on a class whose field is the stored id list.
- **Parsers**: `parse_kv_message`, `parse_spreadsheet_id_map`, `parse_symbol`,
  `parse_float`, and the refusal of formula text when a numeric cell is read.

Prices, quantities, amounts and ratios are exact reals.

### Where the code and its description differ

The model follows the code in each case:

- **Date-first window size.** The window next to a date label spans rows
  `r..r+2` and columns `c+1..c+14`, clipped to the sheet (main.py:525-526).
- **LOC columns may coincide.** Nothing requires the LOC-average and LOC-high
  columns to differ. A sheet with "loc평단" stacked above "loc고가" in one
  column resolves with both in that column; `Anchor.StackedLocLabelsShareColumn`
  proves it.
- **Which ids are kept.** The stored seen-set keeps the 1000
  lexicographically *largest* ids (`sorted(...)[-1000:]`), not the most
  recent ones.
- **Dual write into one column.** When the two LOC columns coincide, a
  dual-mode Upbit fill writes its price and `qty / 2` twice into the same two
  cells. The sheet then shows `qty / 2`, not `qty`. `Zones.UpbitBooksFill`
  states that the quantities of the write list add up to the fill quantity,
  which is not what the cells hold in that layout.
- **Band precedence.** With a positive budget the full-round and half-round
  bands cannot overlap (`Zones.BandsDisjoint`), so the order in which they
  are tried never matters.

## Model

| member | source | states |
|---|---|---|
| Columns.ColName | main.py:453-459 | the name of a column is all letters A–Z, and non-empty exactly for indices ≥ 1 |
| Columns.ColToA1 | main.py:453-459 | the `divmod` loop builds exactly `ColName(colIdx)`; for an index ≥ 1 that is a non-empty letter string |
| Columns.DecodeColName | main.py:453-459 | decoding a column name as bijective base 26 gives the index back |
| Columns.ColNameOfDecode | main.py:453-459 | every letter string is the name of the index it decodes to, so the lettering is onto |
| Columns.ColNameInjective | main.py:453-459 | distinct columns get distinct names |
| Text.StripIsSlice | main.py:122 | `strip()` returns a slice of the text with only whitespace cut away at both ends |
| Text.StripEmptyIff | main.py:604 | `strip()` of a text is empty exactly when every character is whitespace |
| Text.InStrip | main.py:122-124 | `strip()` keeps every character that is not whitespace, so a ':' survives it |
| Text.StripTwice | main.py:126 | `strip()` is idempotent |
| Dates.NormalizeDateValue | main.py:462-477 | a cell that reads as a date names a real calendar day |
| Dates.IsoDateTextReadsBack | main.py:462-477 | the "YYYY-MM-DD" text of a date with a four-digit year reads back as that date |
| Labels.NormLabel | main.py:480-483 | a normalised label holds no whitespace |
| Labels.NormLabelNoUpper | main.py:480-483 | a normalised label holds no upper-case ASCII letter |
| Labels.NormLabelIdempotent | main.py:480-483 | normalising twice is normalising once |
| Labels.MatchesNormalised | main.py:480-503 | every label test gives the same answer on a cell and on its normalised text |
| Labels.LocLabelsBySubstrings | main.py:491-498 | a cell is a LOC-average (LOC-high) label exactly when its normalised text holds "loc" and "평단" ("고가") |
| Labels.BlankMatchesNothing | main.py:480-503 | an all-whitespace cell is no label of any kind |
| Labels.OneCellBothZones | main.py:491-498 | "loc평단고가" is both a LOC-average and a LOC-high label |
| Labels.DateLabelSample | main.py:486-488 | "날짜" is a date label |
| Labels.LocAvgSample | main.py:491-498 | "loc평단" is a LOC-average label and not a LOC-high one |
| Labels.LocHighSample | main.py:491-498 | "loc고가" is a LOC-high label and not a LOC-average one |
| Labels.NotLocAvgWithout | main.py:491-493 | a cell whose normalised text has no '평' is never a LOC-average label |
| Labels.NotLocHighWithout | main.py:496-498 | a cell whose normalised text has no '고' is never a LOC-high label |
| Anchor.MaxCol | main.py:511 | the widest row length bounds every row |
| Anchor.LedgerLabelsBlankFree | main.py:480-503 | none of the ledger's label tests accepts an empty cell |
| Anchor.RowFirstSpec | main.py:559-560 | the row scan returns the first matching column at or after the start, and nothing only when none matches |
| Anchor.WinFirstSpec | main.py:525-533 | the window scan returns the first matching cell of the window in row-major order, and nothing only when none matches |
| Anchor.GridFirstSpec | main.py:545-553 | the whole-sheet scan returns the first matching cell in row-major order, and nothing only when none matches |
| Anchor.DateFirstSpec | main.py:515-538 | the date-first pass returns the anchor of the first date label whose window holds both LOC labels, and nothing only when no date label has such a window |
| Anchor.FirstInRowsSpec | main.py:556-563 | the near-row search returns the first listed in-range row holding a date label and its first such column; earlier listed rows hold none |
| Anchor.WindowHitShape | main.py:525-538 | a window hit keeps the date column; both LOC columns lie in `c+1..c+14` and their rows in `r..r+2`; each label is the first in its window; the header row is the largest of the three rows |
| Anchor.ResolveByDateFirst | main.py:515-538 | when the date-first pass succeeds, its anchor is the result, and it comes from the first date label in scan order with a qualifying window |
| Anchor.ResolveByFallback | main.py:540-566 | otherwise the fallback takes the first LOC-average and first LOC-high labels of the sheet and the first date label in the first near row that has one; the header row is the largest of the three rows |
| Anchor.ResolveFails | main.py:506-568 | "sheet empty" exactly for an empty sheet; "no header" exactly when no date label has a qualifying window and a LOC label is missing or no near row holds a date label |
| Anchor.StackedLocLabelsShareColumn | main.py:506-568 | a sheet with "loc평단" above "loc고가" in one column resolves with both LOC columns equal |
| Anchor.TotalQtyColumnSpec | main.py:571-581 | the total-quantity column is the first "총수량" cell in rows header, header−1, header+1 (in that order, skipping rows outside the sheet), else `loc_high_col + 4` |
| Anchor.FindHeaderRowAndColumns | main.py:506-568 | the two nested-loop passes compute exactly `ResolveAnchor` |
| Anchor.ScanDateFirst | main.py:515-538 | the date-label loop computes the date-first pass |
| Anchor.ScanWindow | main.py:520-538 | the window loop finds both LOC labels exactly when the window function does |
| Anchor.ScanFallback | main.py:540-566 | the fallback loops compute the fallback pass |
| Anchor.ScanNearRows | main.py:556-566 | the candidate-row loop finds the first date label in the six near rows |
| Anchor.FindTotalQtyColumn | main.py:571-581 | the loop computes `TotalQtyColumn` |
| Sheet.BlankIsStripEmpty | main.py:604 | a cell is blank exactly when its `strip()` is empty |
| Sheet.Worksheet.Read | main.py:603 | reading a cell gives its text, or "" when it is unset |
| Sheet.Worksheet.Update | main.py:605 | a write changes that one cell and nothing else |
| Sheet.FirstBlankRow | main.py:601-607 | the first blank row at or below the start exists, and every row before it is non-blank |
| Sheet.SnapshotDateRowSpec | main.py:593-598 | a found row is the first below the header that reads as the target; an error comes from the first malformed date before any match; nothing is found exactly when every row passes over |
| Sheet.MatchStopsScan | main.py:593-598 | a row that reads as the target stops the scan there or earlier |
| Sheet.WrittenDateIsFound | main.py:584-607 | once the row written for a date is in the snapshot, the resolver never creates a second row for that date |
| Sheet.ScanSnapshot | main.py:593-598 | the snapshot loop computes exactly the scan function: the first row reading as the target, the error of a malformed date met first, or nothing |
| Sheet.WriteFirstBlank | main.py:601-607 | the create loop stops at the first blank date cell below the header and writes the date text into that one cell only |
| Sheet.FindOrCreateDateRow | main.py:584-607 | a snapshot hit is returned with no write; otherwise exactly one cell changes, the date cell of the first blank live row below the header, and that row is returned |
| Zones.CellWrites | main.py:651-653 | each zone write puts the price in its column and the quantity in the column to its right, in issue order |
| Zones.PriceColumnRule | main.py:640-644 | the LOC-average column exactly when the price is at most the average |
| Zones.ScaledBand | main.py:685 | a ratio over a positive divisor is in band exactly when the amount is between 0.8 and 1.2 divisors |
| Zones.RatioBands | main.py:678-698 | the full band is an amount of 1.6 to 2.4 budgets, the half band 0.8 to 1.2 budgets |
| Zones.BandsDisjoint | main.py:685-698 | with a positive budget no amount is in both bands |
| Zones.ModeByAmount | main.py:676-719 | dual write, single write or skip, restated on the amount; a budget that is not positive always skips |
| Zones.BrokerageBooksFill | main.py:619-653 | a brokerage fill is booked exactly when it is a buy with a non-negative quantity; one write of its price and whole quantity goes into the zone the rule picks |
| Zones.UpbitBooksFill | main.py:665-719 | an Upbit fill is booked exactly when it is a bid in a band; every write carries its price into a LOC column; the quantities add up to the fill quantity; dual mode splits it evenly over both zones |
| Zones.SingleModeMatchesBrokerage | main.py:698-713 | a single-write Upbit bid goes where a brokerage buy at the same price would |
| Zones.BandExamples | main.py:676-719 | with a budget of 100, amounts 180, 90 and 50 are dual, single and skipped |
| Upbit.AfterLastDash | main.py:377 | the part after the last '-' is a dash-free suffix that follows a '-' |
| Upbit.ForwardedFill | main.py:355-427 | an order is forwarded exactly when it has a stamp on the target date, base asset BTC, passes the market filter, is a bid, and has positive volume and amount; the fill then has positive quantity, amount and price, the completion time when there is one, and the uuid or fallback id |
| Upbit.FillAmountAndPrice | main.py:396-413 | a market-price buy spends its price field at amount ÷ volume per unit; other orders spend the executed funds (else price × volume) at the price field (else amount ÷ volume) |
| Upbit.FillsOfSpec | main.py:355-427 | the fills of a listing are exactly those of its forwardable orders: each fill comes from one, each one yields its fill, and there are no more fills than orders |
| Upbit.FillsOfConcat | main.py:355-427 | fills keep listing order: the fills of two listings joined are the fills of each, joined |
| Upbit.CollectFills | main.py:355-427 | the row loop appends exactly the forwarded fills, in listing order |
| StringOrder.BelowIrreflexive | main.py:777 | no id sorts before itself |
| StringOrder.BelowTransitive | main.py:777 | string order is transitive |
| StringOrder.BelowTotal | main.py:777 | any two distinct ids are ordered |
| StringOrder.BelowAsymmetric | main.py:777 | two ids are never ordered both ways |
| StringOrder.InsertSorted | main.py:772 | adding an id to the sorted list adds exactly that id to its set |
| StringOrder.InsertSortedSorted | main.py:772 | adding an id keeps the list strictly increasing |
| StringOrder.SortedUniqueSpec | main.py:777 | `sorted(set(ids))` is strictly increasing and holds exactly the ids |
| StringOrder.SortedListingUnique | main.py:777 | a set has only one strictly increasing listing |
| StringOrder.DropMin | main.py:777 | the first element of a strictly increasing list is its least, and dropping it drops just that element |
| StringOrder.SortedSize | main.py:777 | a strictly increasing list has no repeats |
| Sync.InsertByTime | main.py:760 | insertion into the processing order adds exactly the one fill |
| Sync.ByTradeTime | main.py:760 | the processing order is a permutation of the new fills |
| Sync.InsertByTimeOrdered | main.py:760 | insertion keeps the order non-decreasing in trade time |
| Sync.ByTradeTimeOrdered | main.py:760 | fills are processed in non-decreasing trade time, each as often as it was fetched |
| Sync.IdsOfPermutation | main.py:760-772 | the ids recorded are the same, counted with repeats, whatever order the fills are processed in |
| Sync.IdsOfElems | main.py:772 | an id is recorded exactly when some processed fill carries it |
| Sync.CountBooked | main.py:773-774 | the written count never exceeds the processed count |
| Sync.LastBooked | main.py:773-775 | the result is a booked fill of the list, and there is none exactly when no fill was booked |
| Sync.LastBookedIsLast | main.py:773-775 | the result is the last booked fill: it is booked, and no fill after it is |
| Sync.StoredIdsSpec | main.py:777 | the stored list is strictly increasing and holds min(1000, #distinct ids) of the ids; every dropped id sorts below every kept one; with at most 1000 ids nothing is dropped |
| Sync.ProcessFills | main.py:762-775 | the per-fill loop counts exactly the booked fills, keeps the last booked one and collects every processed id in processing order |
| Sync.SyncState.RunUpbitSyncOnce | main.py:724-778 | the processed count is the number of new fills; the written count and the last result follow the booked fills in trade-time order; the stored list becomes `sorted(old ∪ processed ids)[-1000:]` |
| Sync.NoReplay | main.py:753-760 | without an explicit date, no fill with an id already seen is processed |
| Sync.NewFillsSpec | main.py:753 | without an explicit date, the new fills are exactly the fetched fills with an unseen id |
| Sync.AllIdsRecorded | main.py:752-777 | after a run, every fetched fill's id is in the seen-set, before it is cut to 1000 |
| Sync.RerunProcessesNothing | main.py:752-777 | a second run over the same fills, when the ids fit in the stored list, processes nothing |
| Parsers.Split | main.py:121 | the pieces are at least one, and none holds a separator |
| Parsers.JoinOfSplit | main.py:234 | gluing the comma-split pieces back with ',' gives the text back |
| Parsers.SplitOfJoin | main.py:234 | separator-free pieces glued and split again come back unchanged |
| Parsers.IndexOf | main.py:125 | the split point is the first ':', and no ':' comes before it |
| Parsers.CollectEntries | main.py:119-127 | the dictionary loop computes the fold in which a later key overwrites an earlier one |
| Parsers.ParseKvMessage | main.py:119-127 | `parse_kv_message` is the fold of the line entries |
| Parsers.ParseSpreadsheetIdMap | main.py:232-243 | `parse_spreadsheet_id_map` is the fold of the item entries |
| Parsers.CollectLookup | main.py:119-127 | a key is in the dictionary exactly when some item defines it, and its value comes from the last such item |
| Parsers.CollectFrom | main.py:232-243 | every key and value of the dictionary is an entry some item gives |
| Parsers.KvEntrySpec | main.py:121-126 | a line gives an entry exactly when it holds ':'; the key and value come trimmed, and the key holds no ':' |
| Parsers.IdEntrySpec | main.py:234-242 | an item that gives an entry has a non-empty, upper-case, ':'-free symbol and a non-empty trimmed id |
| Parsers.KvEntryOfItem | main.py:121-126 | a line `key:value` with trimmed parts and a ':'-free key reads back as that pair |
| Parsers.IdEntryOfItem | main.py:234-242 | an item `SYMBOL:id` of the configuration format reads back as that pair |
| Parsers.CollectPairs | main.py:119-127 | items that each read back as their pair build `dict(pairs)` |
| Parsers.KvMessageRoundTrip | main.py:119-127 | a message written as one `key:value` line per pair parses back to `dict(pairs)` |
| Parsers.SpreadsheetIdMapRoundTrip | main.py:232-243 | a configuration written as comma-separated `SYMBOL:id` items parses back to `dict(pairs)` |
| Parsers.KvMessageSpec | main.py:119-127 | every key and value of a parsed message is trimmed, and no key holds ':' |
| Parsers.SpreadsheetIdMapSpec | main.py:232-243 | every symbol of the parsed configuration is non-empty and upper-case, and every id non-empty and trimmed |
| Parsers.CloseFrom | main.py:186 | the first ')' at or after a position, with none before it |
| Parsers.BracketAtIff | main.py:186 | the pattern matches at a position exactly when a '(' there is followed by at least one character and then a ')', with no ')' in between |
| Parsers.SymbolFromSpec | main.py:185-189 | the scan finds a symbol exactly when the pattern matches, and it takes the leftmost match |
| Parsers.ParseSymbolSpec | main.py:185-189 | `parse_symbol` succeeds exactly when the pattern matches somewhere, with the leftmost match's group stripped and upper-cased; otherwise it raises "symbol not found" |
| Parsers.SymbolFromSkip | main.py:186 | positions where the pattern does not match do not change the result |
| Parsers.BracketedGroup | main.py:186 | in `p(sym)q` with a non-empty, ')'-free `sym`, the pattern matches at the '(' with `sym` as its group |
| Parsers.ParseSymbolOfBracketed | main.py:185-189 | a name with no '(' before a bracketed symbol yields that symbol stripped and upper-cased |
| Parsers.DropCommas | main.py:131 | removing commas leaves no comma |
| Parsers.DropCommasDigits | main.py:131 | removing commas neither adds nor removes a digit |
| Parsers.DropCommasTwice | main.py:131 | removing commas is idempotent |
| Parsers.NumberFromSpec | main.py:130-134 | the scan finds a number exactly when a digit follows, and the number it finds is the leftmost match |
| Parsers.ParseFloatFails | main.py:130-134 | `parse_float` raises exactly when the text holds no decimal digit |
| Parsers.ParseFloatIgnoresCommas | main.py:131 | commas in the text make no difference to the result |
| Parsers.UnsignedOfDigits | main.py:131-134 | a digit string not followed by a digit or '.' reads as its value |
| Parsers.ParseFloatOfNatural | main.py:130-134 | the decimal text of a natural number reads back as that number |
| Parsers.ParseFloatOfNegative | main.py:130-134 | a minus sign before it reads back as the negative number |
| Parsers.NumericCellSpec | main.py:137-147 | a number cell is taken as it is; text is refused exactly when, once stripped, it starts with '=' or holds no digit; formula text is refused even when it holds digits |

## Left out

- Telegram transport: fetching updates, sending replies, update offsets and the polling loop in `main`. This is network I/O.
- Google and local-file plumbing: authentication, opening spreadsheets by id or title, the Drive export and the local backup. This is foreign I/O. The worksheet appears only as a cell map that can be read and written.
- Upbit HTTP: request signing (JWT, SHA-512), paging and `max_pages`. This is network and cryptography. The orders of a listing are an input sequence.
- Time and time zones: `datetime.now`, ISO-timestamp parsing and the conversion to the configured zone. The clock and the zone database are outside the model. An order's stamps arrive as an instant and its local date, and the fill date year is an input.
- `normalize_date_value`: the model covers the `-`, `/`, `.` and date-time forms and the regex fallback, which raises when the numbers name no calendar day. It does not cover every lenient input `strptime` accepts, such as surrounding text that `strptime` would reject in other ways.
- Dates.NormalizeDateValue: `strptime`'s `%m` and `%d` also accept a space-padded number, so "2024-05- 7" reads as 7 May 2024 in the source. The model reads such text as no date.
- Sheet.SnapshotDateRow: a date cell that names no calendar day gives one error tag. Python's `date()` words its `ValueError` differently for an out-of-range day, month or year, and those messages are not modelled.
- Display formatting: `format_money`, `format_two_decimals`, the reply texts, the currency heuristics and `get_fill_result_for_row`. These build localised strings over floats.
- State persistence (`load_state`, `save_state`): JSON file I/O. The seen-set is kept in memory as the `SyncState` field.
- Orchestration in `process_fill_to_sheet`, `process_upbit_fill_to_sheet` and `parse_fill_message`. This covers the remote reads of cells R6 and B3, the sequence of update calls and the summary read-back. The model has their guards and zone decisions (`Zones`) and the resolvers they call.
- `parse_fill_date`, `parse_upbit_command_date`: these depend on the current year from the clock.
- Zones.BrokerageDecision, Zones.UpbitDecision: IEEE floating point is not modelled. Prices, quantities, amounts and ratio tests are exact reals, so a ratio that rounds across 0.8 or 1.2 in floating point may be classified differently.
- Upbit.FillId: the fallback id `market:iso-time:qty:price` takes the formatted `iso-time:qty:price` part as an input text, because float and datetime formatting are not modelled.
- Text.Upper, Text.Lower: case mapping covers ASCII letters only. Python's Unicode case mapping, such as 'ß' becoming "SS", is not modelled.
- Parsers.ParseFloat: `\d` and `float` accept ASCII digits only here. Python's regex also accepts other Unicode decimal digits.
- Parsers.Split: at line boundaries, `str.splitlines` also treats "\r\n" as one break and yields no empty final piece. The model can give extra empty pieces, and both parsers skip those, so the dictionaries agree.
- Sync.ByTradeTime: Python's sort is stable. The model proves the order non-decreasing and a permutation, but does not state how fills with equal trade times are ordered.
- Sync.SyncState.RunUpbitSyncOnce: the sheet step is a parameter `booked` that says whether a fill was booked. Its exceptions, which would end the run in Python, are not modelled.
- Sheet.FindOrCreateDateRow: the write goes to the first blank live row through A1 addressing in the source. The model addresses cells by (row, column) directly; `Columns` covers the lettering.
