# magicformulabr in Dafny

A model of the ranking core of magicformulabr. The program ranks companies
listed on the Bovespa by Joel Greenblatt's Magic Formula:

- it reads the result table of fundamentus.com.br, one row per ticker;
- it normalises the return-on-capital column from percentage text to a number;
- it drops every company whose earnings yield, return on capital or two-month
  liquidity (`Liq.2meses`) is not positive;
- it gives each company two competition ("min") ranks, ascending on earnings
  yield and descending on return on capital;
- it sorts by their sum, `Rank_Final`, and shows the best `top` rows.

The repository has two versions of this engine, and both are modelled:

- the package module `src/magicformulabr/main.py`: `MagicFormula` with its
  integer-keyed method table, the cache-aware `DataSourceHandler`, and
  `display_results`;
- the older module `src/magicformulabr.py`: the string-keyed table, the
  converter applied while the table is read, `drop_unneeded_columns`, a
  `calc_rank` without an emptiness check, `show_rank`, and the stage order
  of `main`.

The model also covers `get_attr` of `setup.py`, the line scanner that reads
the version string.

A pandas DataFrame is a `Frames.Frame`:

- an ordered list of column labels;
- a list of rows, each with its index label (the ticker) and a map from
  column to cell;
- a cell is a number or text.

An in-place step of a class is modelled as the `Outcome` it leaves: the new
table, and the exception it raised, if any. The classes hold the table in a
field that their methods reassign. Each method is proved equal to a function
of the old state, and the properties of the source are proved about those
functions as lemmas.

Modules:

| file | module | models |
|---|---|---|
| frames.dfy | `Frames` | the table, cells, exceptions, `head`, column assignment |
| percent.dfy | `PercentText` | the text rewrite of `pct_to_float` |
| filtering.dfy | `Filtering` | the converter stage and the `<= 0` filters |
| ranking.dfy | `Ranking` | `rank(method="min")`, the rank columns and the sort |
| magic_formula.dfy | `MagicFormulaMain` | the package module's `MagicFormula` |
| data_source.dfy | `DataSource` | `DataSourceHandler.is_cache_valid` and `get_data` |
| display.dfy | `Display` | `display_results` |
| legacy.dfy | `MagicFormulaLegacy` | the older module, its `main` and the `calc_rank` test table |
| setup_attr.dfy | `SetupAttr` | `get_attr` of setup.py |

The model follows the code on three points:

- Ranks are competition ranks (1, 1, 3), not dense ranks (1, 1, 2).
- `sort_values` uses pandas' default, non-stable sort. The class contracts
  therefore promise only that the output is a permutation sorted by
  `Rank_Final`, and not how ties are ordered. The model's sort happens to be
  stable, and only the test table's expected output relies on a tie order.
- The cache is invalid only when its age is strictly greater than the
  duration. A cache exactly 24 hours old is still used.

## Model

| member | source | states |
|---|---|---|
| MagicFormulaMain.MethodFields | src/magicformulabr/main.py:237-241 | the lookup succeeds exactly for methods 1, 2 and 3, with the table's two columns; any other key fails as Python's KeyError does |
| MagicFormulaMain.MethodTable | src/magicformulabr/main.py:237-241 | 1 → (P/L, ROE), 2 → (EV/EBIT, ROIC), 3 → (EV/EBITDA, ROIC); each method's columns differ from each other, from `Liq.2meses` and from the rank columns |
| MagicFormulaMain.MagicFormula.constructor | src/magicformulabr/main.py:243-256 | the object holds the given table and the two columns of the chosen method |
| PercentText.TrimStart | src/magicformulabr/main.py:265 | `lstrip("%")` removes exactly the leading run of the character, and the result does not start with it |
| PercentText.TrimEnd | src/magicformulabr/main.py:265 | `rstrip("%")` removes exactly the trailing run of the character, and the result does not end with it |
| PercentText.StripIsSlice | src/magicformulabr/main.py:265 | `strip("%")` keeps one contiguous slice, cut only from runs of '%' at both ends, that neither starts nor ends with '%' |
| PercentText.StripBounds | src/magicformulabr/main.py:265 | where the slice `strip("%")` keeps begins and ends: only the character lies before and after it |
| PercentText.StripKeepsOtherCounts | src/magicformulabr/main.py:265 | stripping '%' keeps the number of occurrences of every other character |
| PercentText.DeleteAll | src/magicformulabr/main.py:265 | `replace(".", "")` leaves no '.', and keeps the number of occurrences of every other character |
| PercentText.DeleteAllConcat | src/magicformulabr/main.py:265 | deleting works piece by piece: the characters that stay keep their order |
| PercentText.DeleteAllAbsent | src/magicformulabr/main.py:265 | a text without the character is left as it is |
| PercentText.ReplaceAll | src/magicformulabr/main.py:265 | `replace(",", ".")` keeps the length and changes exactly the commas, position by position |
| PercentText.ReplaceCount | src/magicformulabr/main.py:265 | after the replacement no comma is left, and the points number the old points plus the old commas |
| PercentText.ReplaceKeepsOthers | src/magicformulabr/main.py:265 | the replacement keeps the count of every character other than ',' and '.' |
| PercentText.PctTextCounts | src/magicformulabr/main.py:259-265 | the text passed to `float()` has no comma, as many points as the input had commas, and every other character but '%' as often as the input; the older module uses the same rule (src/magicformulabr.py:211-214) |
| PercentText.PctTextDecimal | src/magicformulabr/main.py:258-265 | a number written with a decimal comma and a trailing '%', both parts free of '.', ',' and '%', reaches `float()` as the same text with a decimal point ("12,5%" gives "12.5") |
| PercentText.PctTextThousands | src/magicformulabr/main.py:258-265 | with a thousands point as well, the point is dropped and the comma becomes the point ("1.234,5%" gives "1234.5") |
| PercentText.StripTrailingPercent | src/magicformulabr/main.py:265 | `strip("%")` of a text that neither starts nor ends with '%', followed by one '%', removes only that '%' |
| PercentText.PctTextDecimalRewrite | src/magicformulabr/main.py:265 | `replace(",", ".")` on a text with a single comma turns exactly that comma into the point |
| Filtering.FirstFailure | src/magicformulabr/main.py:274 | `apply` stops at the first row whose cell does not convert; every earlier row converts |
| Filtering.ConvertRows | src/magicformulabr/main.py:274 | the conversion succeeds exactly when every cell of the column converts, and then each row is the input row with that one cell converted |
| Filtering.ConvertNumbersFails | src/magicformulabr/main.py:265-274 | a column that already holds numbers makes the converter raise AttributeError, because a number has no `strip` |
| Filtering.ApplyConverters | src/magicformulabr/main.py:267-274 | a table without the return-on-capital column is unchanged. The conversion raises exactly when some cell of that column does not convert, with the exception of the first such row, and leaves the table as it was. Otherwise every row is the input row with that one cell replaced by its converted number, and the tickers, the columns and every other cell are unchanged |
| Filtering.ConvertedFrame | src/magicformulabr/main.py:271-274 | the converted rows still have exactly the table's columns and hold numbers in the converted column |
| MagicFormulaMain.MagicFormula.ApplyConverters | src/magicformulabr/main.py:267-274 | `_apply_converters` leaves in `pd_df` the table, and raises the exception, given by the conversion stage |
| Filtering.BadTickers | src/magicformulabr/main.py:286 | the selected index labels are exactly the tickers of rows whose value in the column is at most the threshold |
| Filtering.DropTickers | src/magicformulabr/main.py:288 | `drop(labels)` keeps exactly the rows whose ticker is not among the labels |
| Filtering.DropTickersConcat | src/magicformulabr/main.py:288 | dropping by label distributes over concatenation, so the rows that remain keep their relative order |
| Filtering.DropIgnoresForeignTicker | src/magicformulabr/main.py:288 | a label that no row carries drops nothing |
| Filtering.KeepAbove | src/magicformulabr/main.py:286-288 | reference filter: a row is kept exactly when its value is above the threshold; nothing else is added |
| Filtering.RemoveRowsIsKeepAbove | src/magicformulabr/main.py:286-288 | with unique tickers, `_remove_rows` drops exactly the rows with a value at most the threshold and keeps the others, whole and in order |
| Filtering.KeepAboveDistinct | src/magicformulabr/main.py:286-288 | filtering keeps the tickers unique |
| Filtering.RemoveRowsWellFormed | src/magicformulabr/main.py:286-288 | dropping rows leaves the columns unchanged and every remaining row with exactly those columns |
| Filtering.RemoveRowsColumns | src/magicformulabr/main.py:286 | `_remove_rows` succeeds only on a column the table has, and never changes the columns |
| MagicFormulaMain.MagicFormula.RemoveRows | src/magicformulabr/main.py:276-288 | the new `pd_df` and the raised exception are those of the specification of `_remove_rows`: KeyError for a missing column, TypeError for a text cell, the drop otherwise |
| Filtering.KeepPassing | src/magicformulabr/main.py:294-298 | reference filter: the rows with earnings yield, return on capital and `Liq.2meses` all positive |
| Filtering.KeepAboveSnoc | src/magicformulabr/main.py:286-288 | appending a row appends it to the filtered rows exactly when it passes the threshold |
| Filtering.KeepPassingSnoc | src/magicformulabr/main.py:296-298 | appending a row appends it to the passing rows exactly when it passes all three filters |
| Filtering.KeepAboveChain | src/magicformulabr/main.py:296-298 | the three filters run in sequence equal the single three-way filter |
| Filtering.FilterDataExact | src/magicformulabr/main.py:290-298 | after `_filter_data` raises nothing, every remaining row is an input row that passes all three filters; with unique tickers the remaining rows are exactly the passing ones, in their input order |
| Filtering.FilterDataWellFormed | src/magicformulabr/main.py:290-298 | the filter stage leaves the columns unchanged and the rows whole |
| MagicFormulaMain.MagicFormula.FilterData | src/magicformulabr/main.py:290-298 | the three `_remove_rows` calls run in order and stop at the first exception; the result is the filter stage's |
| Ranking.CountBetter | src/magicformulabr/main.py:313-318 | the number of rows that rank strictly before a value is at most the number of rows |
| Ranking.CountEqualPresent | src/magicformulabr/main.py:313-318 | a value that is in the column occurs at least once |
| Ranking.CountBetterMissesSelf | src/magicformulabr/main.py:313-318 | a row never ranks strictly before its own value |
| Ranking.RankInRange | src/magicformulabr/main.py:313-318 | every "min" rank of a value in the column lies in 1..n |
| Ranking.RanksLeaveGaps | src/magicformulabr/main.py:313-318 | competition ranking: a value that ranks after x gets at least x's rank plus the size of x's tie group |
| Ranking.RankOrder | src/magicformulabr/main.py:313-318 | a strictly better value gets a strictly smaller rank, and equal values get equal ranks |
| Ranking.AddRanksFacts | src/magicformulabr/main.py:313-321 | each row's earnings-yield rank is 1 + the number of rows with a strictly smaller earnings yield, and its return-on-capital rank is 1 + the number with a strictly larger return on capital; both are whole numbers in 1..n, `Rank_Final` is their sum, and the ticker and other cells are unchanged |
| Frames.AddColumn | src/magicformulabr/main.py:313-321 | assigning a column adds a new label at the end and keeps an existing label in its place |
| Ranking.Insert | src/magicformulabr/main.py:322 | inserting a row adds exactly that row to the multiset and keeps a sorted list sorted |
| Ranking.SortBy | src/magicformulabr/main.py:322 | `sort_values(by="Rank_Final")`: the output is a permutation of the input, sorted non-decreasing on the column |
| MagicFormulaMain.AddRanksWellFormed | src/magicformulabr/main.py:313-321 | after the three column assignments every row has every column, and `Rank_Final` is numeric |
| MagicFormulaMain.SortedWellFormed | src/magicformulabr/main.py:322 | sorting keeps every row whole |
| MagicFormulaMain.PassingNumeric | src/magicformulabr/main.py:296-318 | rows that passed the filters hold numbers in both ranked columns |
| MagicFormulaMain.MagicFormula.CalcRank | src/magicformulabr/main.py:300-324 | `calc_rank` converts, then filters. An exception stops it. If no row survives it returns the filtered table without rank columns. Otherwise it returns, and leaves in `pd_df`, a permutation of the ranked filtered rows sorted by `Rank_Final` |
| DataSource.Retrieve | src/magicformulabr/main.py:200-217 | a valid cache without forced update is read back unchanged; otherwise a failed or empty download exits with status 1 and leaves the cache file as it was, and a good one is returned and saved with the current time |
| DataSource.CacheExpiry | src/magicformulabr/main.py:164-175 | a missing file is invalid, a cache exactly `cache_duration` old is valid, and any older one is invalid |
| DataSource.CacheValidEarlier | src/magicformulabr/main.py:168-175 | a cache valid now was valid at every earlier moment |
| DataSource.RetrieveThenCached | src/magicformulabr/main.py:207-217 | after a successful `get_data`, a second call at the same moment returns the same table from the cache without downloading |
| DataSource.DataSourceHandler.constructor | src/magicformulabr/main.py:104-125 | the handler keeps its URL, cache file, duration and force flag, and sees the cache file as it is on disk |
| DataSource.DataSourceHandler.WithDefaults | src/magicformulabr/main.py:104-125 | with only the URL and the force flag given, the handler uses the default cache file "data_cache.json" and the default duration of 86400 seconds |
| DataSource.DataSourceHandler.GetData | src/magicformulabr/main.py:200-217 | the returned table or exit, and the new cache file, are those of `Retrieve` on the old cache file |
| DataSource.LoadForMain | src/magicformulabr/main.py:386-387 | `main` builds the handler for the fundamentus URL with the defaults, and gets the table and the cache file that `Retrieve` gives with the 24-hour duration |
| Display.FirstIndex | src/magicformulabr/main.py:366 | the position of the first occurrence of an element |
| Display.FirstIndexUnique | src/magicformulabr/main.py:366 | a position holding x, with no x before it, is x's first occurrence |
| Display.Dedup | src/magicformulabr/main.py:366 | `list(dict.fromkeys(...))` has no repetitions and the same elements as its input |
| Display.DedupOrder | src/magicformulabr/main.py:366 | the de-duplicated list keeps the order of first occurrences |
| Display.DedupDistinct | src/magicformulabr/main.py:366 | a list without repetitions is left as it is |
| Display.DedupAppendFresh | src/magicformulabr/main.py:366 | appending new, distinct elements appends them unchanged |
| Display.ShownColumns | src/magicformulabr/main.py:348-366 | the shown columns have no repetitions; verbosity 0 shows the method's two columns and the three ranks; verbosity 2 or more shows the table's columns in their order |
| Display.ShownColumnsQuiet | src/magicformulabr/main.py:348-349 | for every method, verbosity 0 shows its two columns, then the three rank columns |
| Display.ShownColumnsVerbose | src/magicformulabr/main.py:350-366 | for every method, verbosity 1 shows the seven watched columns in their order, then the three ranks, and does not repeat the method's own columns |
| Display.DedupKeepsWatched | src/magicformulabr/main.py:350-366 | de-duplicating the verbosity-1 list drops exactly the repeated method columns |
| Display.MethodColumnsWatched | src/magicformulabr/main.py:351-360 | every method's two columns are among the watched columns |
| Display.WatchedAndBaseDistinct | src/magicformulabr/main.py:342-361 | the watched columns and the rank columns have no repetitions and no column in common |
| Display.FirstMissing | src/magicformulabr/main.py:370 | the first shown column that the table lacks: none exactly when every shown column is present, otherwise a missing column with every column before it present |
| Display.DisplayResults | src/magicformulabr/main.py:327-370 | ValueError when the table already has a "Ticker" column; otherwise KeyError exactly when a shown column is missing, naming the first missing one; otherwise the header is "Ticker" plus the shown columns, and the lines are `head(top)` numbered from 1, each with its ticker and its cells in the shown columns |
| Frames.Head | src/magicformulabr/main.py:370 | `head(n)` is a prefix of min(n, rows) rows, and for a negative n all but the last -n rows |
| MagicFormulaLegacy.NaturalString | src/magicformulabr.py:230 | `str` of a natural number: digits only, one digit below 10 and at least two from 10 up |
| MagicFormulaLegacy.NaturalStringValue | src/magicformulabr.py:230 | the digits of `str(n)`, read from the left, spell n |
| MagicFormulaLegacy.NaturalStringInjective | src/magicformulabr.py:230 | different numbers are written differently |
| MagicFormulaLegacy.LegacyLookup | src/magicformulabr.py:18-22 | looking the method up by `str(args.method)` finds an entry exactly for 1, 2 and 3, with the same columns as the package module's table |
| MagicFormulaLegacy.MagicFormula.constructor | src/magicformulabr.py:122-126 | the object starts without a table and with the columns of the chosen method |
| MagicFormulaLegacy.MagicFormula.GetData | src/magicformulabr.py:128-144 | the downloaded table is stored with its return-on-capital text converted while it is read; a failing conversion raises the ValueError of the first bad cell and stores nothing |
| MagicFormulaLegacy.MagicFormula.RemoveRows | src/magicformulabr.py:156-167 | `remove_rows` leaves the table, and raises the exception, of the same drop-by-label specification |
| MagicFormulaLegacy.MagicFormula.FilterData | src/magicformulabr.py:146-154 | `filter_data` applies the three filters in order and stops at the first exception |
| MagicFormulaLegacy.KeepOnly | src/magicformulabr.py:189 | the remaining columns are exactly the existing columns that are in the keep list; when all of them are, nothing changes |
| MagicFormulaLegacy.KeepOnlyInOrder | src/magicformulabr.py:189-190 | the remaining columns keep their original relative order |
| MagicFormulaLegacy.RestrictRow | src/magicformulabr.py:190 | a row keeps its ticker and exactly its cells in the kept columns, unchanged |
| MagicFormulaLegacy.KeepColumns | src/magicformulabr.py:189-190 | dropping columns keeps the kept labels in their order and every row, each restricted to the kept columns |
| MagicFormulaLegacy.KeptAt | src/magicformulabr.py:172-187 | the keep list of levels 0 and 1 contains both method columns |
| MagicFormulaLegacy.DropUnneededFacts | src/magicformulabr.py:169-190 | at every level the rows, their tickers and the two method columns with their cells survive; level 0 keeps no other column; a level other than 0 and 1 changes nothing |
| MagicFormulaLegacy.MagicFormula.DropUnneededColumns | src/magicformulabr.py:169-190 | the table becomes the column-dropped table of that level |
| MagicFormulaLegacy.RankTable | src/magicformulabr.py:192-203 | `calc_rank` without an emptiness check raises KeyError exactly when a ranked column is missing: on the input table when the earnings-yield column is missing, and on the table with its earnings-yield rank when only the return-on-capital column is missing; otherwise its rows are a permutation of the ranked rows, sorted by `Rank_Final` |
| MagicFormulaLegacy.RankTableWellFormed | src/magicformulabr.py:192-203 | the table `calc_rank` leaves is well formed whether or not it raised |
| MagicFormulaLegacy.RankEmptyTable | src/magicformulabr.py:192-203 | an empty table is still ranked: it gets the three rank columns and no rows |
| MagicFormulaLegacy.PositiveAfterRanking | src/magicformulabr.py:194-203 | every ranked row still carries its positive earnings yield and return on capital |
| MagicFormulaLegacy.MagicFormula.CalcRank | src/magicformulabr.py:192-203 | the new table and the exception are those of `RankTable` on the old table, and the object stays valid |
| MagicFormulaLegacy.ResetIndex | src/magicformulabr.py:207-208 | `reset_index` raises ValueError naming "Papel" exactly when a "Papel" column exists; otherwise the ticker moves into a first column "Papel" and the rows are labelled 1, 2, ... in order |
| MagicFormulaLegacy.ResetIndexLabels | src/magicformulabr.py:207-208 | the renumbered table is well formed, row k is labelled with the digits of k + 1, and no two rows share a label |
| MagicFormulaLegacy.ResetKeepsRank | src/magicformulabr.py:207-208 | renumbering keeps every row's final rank and the sort order |
| MagicFormulaLegacy.HeadSorted | src/magicformulabr.py:209 | a prefix of the ranked rows is still sorted by final rank |
| MagicFormulaLegacy.ShownFacts | src/magicformulabr.py:207-209 | the shown rows number at most `top`, are labelled 1, 2, ... in order, are sorted by final rank and have positive earnings yield and return on capital |
| MagicFormulaLegacy.MagicFormula.ShowRank | src/magicformulabr.py:205-209 | `show_rank` renumbers the table in place and shows its first `top` rows, or raises the ValueError of `reset_index`; the object stays valid |
| MagicFormulaLegacy.DroppedPositive | src/magicformulabr.py:231-233 | after filtering and dropping columns, both ranked columns are present and positive in every row |
| MagicFormulaLegacy.DroppedPassing | src/magicformulabr.py:232-233 | dropping columns keeps the positive ranked cells of rows that passed the filters |
| MagicFormulaLegacy.FilteredColumns | src/magicformulabr.py:146-154 | a filter stage that raises nothing found both ranked columns in the table |
| MagicFormulaLegacy.PipelineFacts | src/magicformulabr.py:220-235 | whatever `main` shows has at most `top` rows, numbered from 1, sorted by final rank, each with positive earnings yield and return on capital |
| MagicFormulaLegacy.Run | src/magicformulabr.py:220-235 | `main` runs load, filter, drop columns, rank and show in that order, stops at the first exception, and shows the rows of the pipeline's specification |
| MagicFormulaLegacy.FixtureRankOf | tests/test_magicformula_calc_rank.py:20-25 | a row of the test table gets the earnings-yield and return-on-capital ranks the expected output shows |
| MagicFormulaLegacy.FixtureRanks | tests/test_magicformula_calc_rank.py:20-25 | the ranks (1, 4), (4, 2), (3, 3) and (2, 1) for AAAA3, BBBB3, CCCC3 and DDDD4 |
| MagicFormulaLegacy.FixtureRanking | tests/test_magicformula_calc_rank.py:13-29 | the older `calc_rank` on the test table gives the five expected columns and the rows DDDD4, AAAA3, BBBB3, CCCC3 with final ranks 3, 5, 6, 6 |
| MagicFormulaLegacy.FixtureColumns | tests/test_magicformula_calc_rank.py:21 | the ranked test table has the two input columns followed by the three rank columns |
| MagicFormulaLegacy.SortFour | tests/test_magicformula_calc_rank.py:22-25 | the rows with final ranks 5, 6, 6, 3 sort to the fourth, first, second, third |
| MagicFormulaLegacy.FixtureRejectedByConverter | tests/test_magicformula_calc_rank.py:27-29 | the package module's `calc_rank` on the test table raises AttributeError on the numeric ROIC column |
| SetupAttr.FirstBreak | setup.py:17 | the position of the first line boundary: no boundary before it |
| SetupAttr.SplitLines | setup.py:17 | `splitlines()`: no line holds a line boundary, and the empty text has no lines |
| SetupAttr.Separators | setup.py:17 | the boundaries `splitlines()` cuts away, one per line |
| SetupAttr.SplitLinesDecomposes | setup.py:17 | the lines and their boundaries, put back together, give the text. No line holds a break, every boundary but the last is "\r\n" or one break character, the last piece is not empty, and no "\r" boundary is followed by "\n" |
| SetupAttr.DecompositionUnique | setup.py:17 | any such decomposition of the text is the one `splitlines()` makes, so the split points are fixed |
| SetupAttr.WithoutBreaks | setup.py:17 | the text with its boundary characters removed holds no boundary |
| SetupAttr.SplitLinesKeepsText | setup.py:17 | the lines put back together are the text without its line boundaries |
| SetupAttr.FirstMatch | setup.py:17-18 | the first line that starts with the attribute, or none when no line does |
| SetupAttr.FirstMatchAt | setup.py:17-18 | a matching line with no match before it is the first match |
| SetupAttr.IndexOf | setup.py:20 | the first occurrence of a character, or none when it is absent |
| SetupAttr.IndexOfUnique | setup.py:20 | a position holding the character, with none before it, is its first occurrence |
| SetupAttr.SplitField | setup.py:20 | `split(delim)[1]` fails exactly when the delimiter is absent; otherwise it is the text between the first delimiter and the next one or the end of the line, and holds no delimiter |
| SetupAttr.FieldOfAssignment | setup.py:19-20 | `attr = "v"`, and `attr = 'v'` on a line without a double quote, give back v |
| SetupAttr.FieldOfUnquoted | setup.py:19-20 | a matched line without either quote raises IndexError |
| SetupAttr.GetAttr | setup.py:14-21 | the scan returns the field of the first line that starts with the attribute, and raises RuntimeError("Unable to find string.") exactly when no line does |

## Left out

- Downloading the page (`requests.get`, `raise_for_status`) and parsing its HTML table (`pd.read_html`, with its thousands and decimal separators). These are network I/O and a foreign library. The first table of the page is an input `Frame` (`Fetch` for the package module, which also models a failed request).
- The cache file's I/O (`json.dump`, `json.load`, `os.path.exists`, `os.path.getmtime`, `time.time`). The file is modelled as what it holds: nothing, or a table and the time it was written. The JSON round trip is taken to give back the same table; that the round trip loses the index name "Papel" is not modelled.
- `float()` at the end of `pct_to_float` is the parameter `parse`, which gives None where Python raises ValueError. Floating-point values, NaN and missing cells are not modelled; cells are exact reals or text.
- Command-line parsing, logging, `print` and the text layout of `to_string`. `sys.exit(1)` is the `Exit(1)` result. `display_results` and `show_rank` are modelled as the cells they would lay out.
- `read_file` and the `setuptools.setup` call in setup.py; `get_attr` takes the file's text. src/__init__.py is not part of this model.
- `Ranking.SortBy` is an insertion sort. The classes' contracts promise only a permutation sorted by `Rank_Final`, which is what pandas' default, non-stable sort guarantees. Only the test-table lemmas depend on the model's tie order, which matches the expected output there.
- MagicFormulaMain.MagicFormula.constructor: requires a method in the table, where Python raises KeyError in the constructor; `MethodFields` models that lookup failure.
- MagicFormulaLegacy.MagicFormula.constructor: requires a method key in the table, where Python raises KeyError; `main` always passes "1", "2" or "3" because argparse restricts the method to 1..3.
- MagicFormulaLegacy.MagicFormula.CalcRank: requires the ranked columns to be numeric where present. Ranking text columns with pandas is not modelled; in `main` the filters already guarantee numbers.
- MagicFormulaLegacy.MagicFormula.RemoveRows, FilterData, DropUnneededColumns, CalcRank and ShowRank require a table, where Python fails with an AttributeError on `None` if `get_data` was not called first.
- MagicFormulaLegacy.Run: requires a method in 1..3, which argparse guarantees, and it models a download that returns a table; the older module has no request-failure handling.
- MagicFormulaLegacy.MagicFormula.GetData: requires every return-on-capital cell of the page table to be text (`RawText`). `read_html` hands its converter the raw cell text (src/magicformulabr.py:137-144), so the AttributeError a number would raise cannot happen in the older module. `MagicFormulaLegacy.Run` carries the same requirement.
- MagicFormulaLegacy.ResetIndex: after `index = index + 1`, pandas holds the labels as integers. The model keeps them as the decimal text of those integers. `NaturalStringValue` proves the text reads back as the number.
- Display.DisplayResults: the `reset_index` and renumbering act on a copy, so the caller's table is not changed. The function takes the table as a value, which captures this. Its KeyError names only the first missing column, whereas pandas' `to_string(columns=...)` raises one KeyError listing every missing label.
- Rank cells are exact reals holding whole numbers. pandas stores them as floats.

## Findings

| source | as written | input that shows it | evidently intended | confidence | as-written member | corrected member |
|---|---|---|---|---|---|---|
| tests/test_magicformula_calc_rank.py:27-29 | the test builds `MagicFormula(sample_df, magic_method="2")`. The older class takes only a method. The package class keys its table by int, so "2" raises KeyError. Even with 2, the package class's converter calls `strip` on the numeric ROIC column and raises AttributeError | EV/EBIT 0.2, 8, 4, 2 and ROIC 10, 60, 40, 90 for AAAA3 to DDDD4 | the expected table is the older module's `calc_rank` on the numeric table, which ranks it as DDDD4, AAAA3, BBBB3, CCCC3 | not executed | MagicFormulaLegacy.FixtureRejectedByConverter | MagicFormulaLegacy.FixtureRanking |
