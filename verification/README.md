# daily-coin-price, modelled in Dafny

`update_daily_coin_price.py` runs once a day. It fetches the top 500
cryptocurrencies by market cap and ranks them by their 24-hour percent
change, highest first. It renders the top 20 as a Markdown table and writes
the page to `README.md` and to `archive/YYYY-MM-DD.md`. This project models
the logic between the fetch and the writes, and proves properties of it:

- `ranking.dfy` (module `Ranking`): the coin record and the ranking step.
  The ranking is `sorted(..., key=percent_change_24h, reverse=True)`, a
  stable sort, written here as an insertion sort.
- `table.dfy` (module `Table`): `format_coin_markdown`. It covers the fixed
  header, the four-bucket change indicator, the row layout, the first
  `top_n` records numbered from 1, and the newline join. It is modelled
  twice. The function `FormatTable` is the reference definition. The method
  `FormatCoinMarkdown` follows the source's loop.
- `grouping.dfy` (module `Grouping`): the `,` thousands separator of Python's
  format mini-language. It applies to the supply, market cap, volume and
  whole-dollar price.
- `decimal.dfy` (module `Decimal`): decimal digit strings. It covers `{i}`,
  the zero-padded fields of `strftime`, and reading a digit string back.
- `text.dfy` (module `Text`): `str.join` and `str.split`. They are inverse
  to each other when the list of parts is non-empty and no part holds the
  separator.
- `archive.dfy` (module `Archive`): the date and time strings, the archive
  path, the page text around the table, and the two writes of a run. The
  writes are returned as data.

Numbers are modelled as already rounded. The price is a natural number of
ten-thousandths of a dollar. Market cap, volume and supply are naturals. The
24-hour change is a `real`. It is only compared, and its two-decimal
rendering is a parameter `fixed2: real -> string`. The Korean and emoji
header and page text are copied into constants character for character. The
header line is built from its eight titles between pipes. The rule line is
built from the dash count of each column.

Three facts about the code that the model keeps:

- Prices use the `,` option, so 1234.5678 is shown as `1,234.5678`
  (`Table.PriceExample`).
- `top_n = 0` is accepted and gives just the header.
- Records with equal change keep the order the API returned them in, so the
  list is non-increasing rather than strictly descending.

## Model

| member | source | states |
|---|---|---|
| `Ranking.Rank` | update_daily_coin_price.py:27 | The ranked list is a permutation of the fetched list (same multiset). It is non-increasing in 24-hour change. |
| `Ranking.Insert` | update_daily_coin_price.py:27 | Inserting a record into a ranked list adds exactly that record, and the list stays ranked. |
| `Ranking.RankIsPermutation` | update_daily_coin_price.py:27 | Ranking keeps the length. A record is in the ranked list exactly when it was fetched: nothing added, nothing dropped. |
| `Ranking.RankIsStable` | update_daily_coin_price.py:27 | Stability: for every change value, the records with that change appear in the ranked list in the same order as in the fetched list. |
| `Ranking.InsertTies` | update_daily_coin_price.py:27 | An inserted record goes ahead of the records it ties with. |
| `Ranking.TiesDetermineOrder` | update_daily_coin_price.py:27 | Two non-increasing lists that order every group of ties the same way are equal. |
| `Ranking.OrderWitness` | update_daily_coin_price.py:27 | Two different non-increasing lists disagree on the order of some group of ties, and the lemma names that group. |
| `Ranking.RankIsUnique` | update_daily_coin_price.py:27 | Any non-increasing list that keeps ties in fetched order is the ranked list. So stable sorting fixes the result completely. |
| `Table.Classify` | update_daily_coin_price.py:47-54 | Exactly one bucket applies to each change: strong-positive iff > 10, positive iff 0 < x <= 10, neutral iff x == 0, negative iff x < 0. |
| `Table.ClassifyMonotone` | update_daily_coin_price.py:47-54 | A larger change never falls into a lower bucket. |
| `Table.ReadMarker` | update_daily_coin_price.py:47-54 | Each marker emoji stands for exactly one bucket and is read back as that bucket. |
| `Table.ChangeCellReadBack` | update_daily_coin_price.py:47-54 | A change cell reads back as its bucket and its two-decimal figure. It is bold exactly when the change is above 10. |
| `Table.PriceRoundTrip` | update_daily_coin_price.py:59 | The price figure is grouped whole dollars, a point, and exactly four digits. Reading it back gives the price. |
| `Table.PriceExample` | update_daily_coin_price.py:59 | 1234.5678 dollars is shown as `1,234.5678`. |
| `Table.PipedReadBack` | update_daily_coin_price.py:58-61 | Cells joined between pipes split back into the cells, with one empty piece at each end, when no cell holds a pipe. |
| `Table.RowReadBack` | update_daily_coin_price.py:58-61 | Splitting row k at its pipes gives back its eight cells. The first cell reads back as the rank k. |
| `Table.CellsAvoid` | update_daily_coin_price.py:58-61 | A cell holds a character that is not fixed text only if the name, the symbol or the change figure holds it. |
| `Table.RowAvoids` | update_daily_coin_price.py:58-61 | A row holds a character that is not fixed text only if the name, the symbol or the change figure holds it. |
| `Table.ColumnsAgree` | update_daily_coin_price.py:32-61 | The header line, the rule line and every row each have the same eight columns, when the name, symbol and change figure hold no pipe. |
| `Table.HeaderLines` | update_daily_coin_price.py:31-34 | The header is two newline-terminated lines, whatever follows it. |
| `Table.FormatCoinMarkdown` | update_daily_coin_price.py:30-64 | The loop builds the reference table. The output is exactly the header iff `top_n` is 0 or the list is empty. |
| `Table.TableEnds` | update_daily_coin_price.py:64 | No trailing newline: the table ends with the last row's closing pipe, or is exactly the header when no record is shown. |
| `Table.TableLines` | update_daily_coin_price.py:31-64 | The lines are the two header lines, then exactly the min(top_n, n) table rows, one line per row (`Table.RowsAt` says which record each shows). With no rows, one empty line follows the header. |
| `Table.RowsFromAt` | update_daily_coin_price.py:37 | In `enumerate(cs, k)`, position i holds number k + i and the record at position i of cs. |
| `Table.RowsFromSnoc` | update_daily_coin_price.py:37-62 | Enumerating one more record appends exactly its row, numbered after all the others. |
| `Table.RowsAt` | update_daily_coin_price.py:37-62 | For every shown position i, row i + 1 of the table shows the record at position i of the input. |
| `Table.RowsSingleLine` | update_daily_coin_price.py:58-62 | A row holds no newline when the record's name, symbol and change figure hold none. |
| `Table.RankedTableOrder` | update_daily_coin_price.py:27-37 | After ranking, the shown records are non-increasing in change, so their indicator buckets never rise down the table. |
| `Ranking.RankOfThree` | update_daily_coin_price.py:27 | Records with changes 5, -2 and 20 rank as 20, 5, -2. |
| `Table.TopTwoOfThree` | update_daily_coin_price.py:27-37 | With top_n = 2, the table of those three records shows the 20% record, then the 5% record, and leaves out the falling one. |
| `Grouping.Group` | update_daily_coin_price.py:56-60 | Every fourth character from the right is a comma and the rest are digits. So the groups after the first have 3 digits, and the first has 1 to 3. |
| `Grouping.GroupedExtend` | update_daily_coin_price.py:56-60 | Adding a comma and three digits keeps that layout. |
| `Grouping.LastGroup` | update_daily_coin_price.py:56-60 | A grouped string of four or more characters is a shorter grouped string, a comma, and three digits. |
| `Grouping.GroupRemoveCommas` | update_daily_coin_price.py:56-60 | Removing the commas gives back the plain decimal digits. |
| `Grouping.GroupRoundTrip` | update_daily_coin_price.py:56-60 | Reading a grouped figure back gives the amount. |
| `Grouping.GroupHasCommaIffLarge` | update_daily_coin_price.py:56-60 | A comma appears iff the amount is 1000 or more. |
| `Grouping.GroupNoLeadingZero` | update_daily_coin_price.py:56-60 | The figure starts with 0 iff the amount is 0. |
| `Grouping.GroupLength` | update_daily_coin_price.py:56-60 | There is one comma for each full group of three digits after the first group. |
| `Grouping.WellGroupedUnique` | update_daily_coin_price.py:56-60 | Any well-grouped string with the digits of n is the rendering of n. |
| `Grouping.GroupExample` | update_daily_coin_price.py:56 | A supply of 19000000 is shown as `19,000,000`. |
| `Decimal.Digits` | update_daily_coin_price.py:59 | `{i}` is a non-empty digit string with no leading zero. It has one digit iff i < 10, and it is "0" iff i is 0. |
| `Decimal.DigitsRoundTrip` | update_daily_coin_price.py:59 | Reading the rendering of n back gives n. |
| `Decimal.CanonicalRoundTrip` | update_daily_coin_price.py:59 | Rendering the value of a digit string with no leading zero gives the string back. |
| `Decimal.DigitsWidth` | update_daily_coin_price.py:56-60 | The rendering of n fits in w characters iff n < 10^w. |
| `Decimal.DigitsSplitThree` | update_daily_coin_price.py:56-60 | The digits of n >= 1000 are the digits of n / 1000 followed by its last three digits. |
| `Decimal.LowDigits` | update_daily_coin_price.py:69-70 | A zero-padded field has exactly its width, and all its characters are digits. |
| `Decimal.LowDigitsRoundTrip` | update_daily_coin_price.py:69-70 | A zero-padded field reads back as the number iff the number fits in its width. |
| `Decimal.FixedWidthRoundTrip` | update_daily_coin_price.py:69-70 | Every digit string is the zero-padded rendering of its own value at its own width. |
| `Text.SplitJoin` | update_daily_coin_price.py:64 | Splitting `"\n".join(xs)` at newlines gives back xs when no part holds a newline. |
| `Text.JoinSplit` | update_daily_coin_price.py:64 | Joining the pieces of a split gives back the string. |
| `Text.SplitFirst` | update_daily_coin_price.py:64 | A first part without the separator splits off unchanged. |
| `Archive.DateRoundTrip` | update_daily_coin_price.py:70 | Reading `%Y-%m-%d` back gives the date. |
| `Archive.DateStringRoundTrip` | update_daily_coin_price.py:70 | Every string that reads back as a date is that date's rendering. |
| `Archive.ParseDate` | update_daily_coin_price.py:70 | A string read back as a date gives a valid calendar date. |
| `Archive.TimestampString` | update_daily_coin_price.py:69-70 | The update time is 19 characters long. Its first ten are the date string of the archive name, because both come from one clock reading. |
| `Archive.ArchivePathShape` | update_daily_coin_price.py:96 | The archive path is `archive/`, the 10-character date, then `.md`. The date reads back from it. |
| `Archive.ArchivePathInjective` | update_daily_coin_price.py:96 | Two dates share an archive path iff they are the same date. The archive path is never `README.md`. |
| `Archive.ArchivePathExample` | update_daily_coin_price.py:96 | The run of 2024-03-01 archives to `archive/2024-03-01.md`. |
| `Archive.UpdateReadmeAndArchive` | update_daily_coin_price.py:66-99 | A run writes twice: first `README.md`, then the archive file of the day. Both get the same content. |
| `Archive.PageHoldsTable` | update_daily_coin_price.py:72-85 | Both files hold the update time and the top-20 table of the ranked records, at fixed offsets in the page text. |
| `Archive.PageSlices` | update_daily_coin_price.py:74-85 | The page text holds the update time and the table, each at a fixed offset. |
| `Archive.SameDaySameArchive` | update_daily_coin_price.py:93-98 | Two runs write the same archive file iff they run on the same date, whatever the time of day. |

## Left out

- The HTTP request, the JSON decoding and the `["data"]` lookup (lines 12-25) are network I/O. The model starts from the fetched list.
- Reading the API key from the environment (line 9) is environment I/O.
- `datetime.utcnow()` (line 68) is a clock read. The model takes the reading as an `Instant` input, to the second.
- The file writes, `os.makedirs` and the `print` confirmations (lines 88-99) are filesystem and console I/O. `UpdateReadmeAndArchive` returns the two writes, in order, as data. It does not model a write that fails.
- Float formatting is not modelled: `:.2f` of the change is the parameter `fixed2`. Rounding the price to four decimals, and the market cap, volume and supply to whole units (`:,.4f`, `:,.0f`), happens before the model.
- Negative market caps, volumes, supplies or prices are not modelled; those amounts are naturals.
- `None` or NaN changes are not modelled. A `None` makes line 27 raise an error.
- A `None` price, market cap, volume or supply is not modelled. The `:,.4f` and `:,.0f` formats raise `TypeError` on it at lines 56, 59 and 60. The natural-number fields of `Ranking.Coin` cannot hold it.
- `os.path.join` at line 96 is modelled as the POSIX join `"archive" + "/" + name`. On Windows the path would be `archive\2024-03-01.md`.
- `Table.ColumnsAgree`: states the column count only when the name, symbol and change figure hold no pipe. A pipe in one of them adds columns to its row.
- Negative `top_n` is not modelled (`top_n` is a `nat`). Python slicing would then drop records from the end. The only caller passes 20.
- `Archive.DateString`: `%Y` is rendered as four zero-padded digits for years 1 to 9999, as Python documents it. The C library on Linux does not pad years below 1000.
- `Table.TableLines`: states the line structure only when the shown names, symbols and change figures hold no newline. With a newline in a name, the rendered table has extra lines.
- `Table.RowReadBack`: states the cell read-back only when the name, symbol and change figure hold no pipe. With a pipe in a name, the row has extra columns.
