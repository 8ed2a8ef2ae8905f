# Label sheet processor: a Dafny model of `process_excel`

`process_excel` in `app.py` reads the `Dados` sheet of an order spreadsheet. It turns the rows into label sheets in five steps:

1. It derives new columns. `PRODUTO` and `DESCRICAO` come from splitting the description. `PROD_DESC` is the 9-character model code. `IMAGEM_MODELO_NEW` is the image path. The price is reformatted as Brazilian Real (`R$ 1.234,50`). A missing width becomes blank.
2. It keeps only the 14 output columns.
3. It repeats every row `QTD` times, once per label to print.
4. It groups the repeated rows by `OF_NUMERO` (the production-order number).
5. For each group it writes one file named `<OF_NUMERO>.xls`, holding a sheet named `Dados`. Row 0 holds the column names. Every cell below it is a string, and a missing value or any spelling of `nan` is written as an empty cell.

The model treats each step as a pure function over immutable data:

- A cell is an `Option<string>`. `None` stands for pandas' missing value; `Some(s)` is a present value whose `str()` form is `s`.
- The price is an exact number of cents.
- A table is a `seq` of records.
- A sheet is a grid of strings.

Modules, one per step:

- `Wrappers`: `Option` and `Result`.
- `Text`: decimal digits, ASCII lower-casing, and Python's `str.split(' ')` and `' '.join`.
- `Price`: the price formatting, written exactly as the source computes it: Python's `,.2f` English format, then the three chained `replace` calls. It also holds a reader that parses a price string back into cents.
- `Labels`: the input `Row`, the projected `Label`, the per-column derivations and the projection.
- `Expansion`: repetition by `QTD`, as a recursive definition and as a loop.
- `Grouping`: `groupby('OF_NUMERO')`. Keys come out ascending, and rows without a key are left out.
- `Sheets`: cell normalisation and the layout of one sheet.
- `Pipeline`: the column check, then the whole run, which yields a `Result` holding the files and the expanded table.

Two points of the code and how the model reads them:

- **Group order.** `groupby('OF_NUMERO')` uses pandas' defaults, which sort the keys. The model visits keys in ascending code-point order of their string form. That is pandas' order for text keys only; numeric keys differ (see `Grouping.Keys` under "## Left out").
- **Splitting.** `str.split(' ')` splits at single spaces. So `DESCRICAO` is exactly the text after the first space, runs of spaces included.

## Model

| member | source | states |
|---|---|---|
| Text.JoinSplit | app.py:35 | Joining the pieces of `split(sep)` with `sep` gives back the original string |
| Text.SplitJoin | app.py:34-35 | Splitting a join of separator-free pieces gives back the pieces: split and join are inverses |
| Labels.SplitDescription | app.py:34-35 | A missing description gives `("", "")`. With a space, `PRODUTO + " " + DESCRICAO` is the description and `PRODUTO` has no space. Without one, `PRODUTO` is the whole description and `DESCRICAO` is `""` |
| Labels.ModelCode | app.py:36 | `PROD_DESC` is missing exactly when the description is. Otherwise it is a prefix of the description, at most 9 characters long, and the whole description when shorter than 9 |
| Labels.ImagePath | app.py:37-39 | Empty exactly when the model code is missing. Otherwise it is the server folder, then the code, then `.jpg`, with lengths adding up |
| Price.FormatPrice | app.py:42-44 | The English `,.2f` format with its separators exchanged equals the Brazilian notation: `R$ `, a sign, `.`-grouped integer part, `,`, two decimals |
| Price.BrazilianForm | app.py:43 | Exchanging `,` and `.` through the placeholder `X` turns the English format into the Brazilian notation |
| Price.PriceShape | app.py:43 | Every price string starts with `R$ `, has a `-` exactly for negative amounts, contains exactly one `,` (three characters from the end) and ends with two digits |
| Price.GroupedDigits | app.py:43 | Removing the `.` separators from the integer part leaves exactly the decimal digits of the number, so the groups are those digits cut in threes |
| Price.AmountDigits | app.py:43 | The digits of the amount, read left to right, are the decimal digits of the cent amount, or `0` and two digits below one Real |
| Price.PriceRoundTrip | app.py:43 | Parsing the price string back yields exactly the cent amount it was formatted from |
| Price.PriceCell | app.py:42-44 | A missing price gives `""`. A present price gives a non-empty string that parses back to that price |
| Price.PriceExampleThousands | app.py:43 | 123450 cents format as `R$ 1.234,50` |
| Price.PriceExampleZero | app.py:43 | 0 cents format as `R$ 0,00` |
| Price.PriceExampleNegative | app.py:43 | -5 cents format as `R$ -0,05`: the sign follows the currency marker |
| Labels.WidthText | app.py:47 | A missing width becomes the empty string. Any other width is kept as its string form |
| Labels.Derive | app.py:34-47 | The derived row copies the pass-through columns and the quantity unchanged. It joins `PRODUTO`/`DESCRICAO` back to the description when that has a space. `PROD_DESC` is a prefix of the description. `IMAGEM_MODELO_NEW` is blank exactly when the description is missing. The price is blank exactly when missing and otherwise parses back to it |
| Labels.DeriveColumns | app.py:34-47 | Each derived column equals its own derivation in every case: `PRODUTO`/`DESCRICAO` are the split of the description (with a space, without one, or missing), `PROD_DESC` is the model code of at most 9 characters, `IMAGEM_MODELO_NEW` is the image path of that code, the price is the price cell, and `LARGURA` is `""` when missing and otherwise the width's string form |
| Labels.Projection | app.py:50-55 | The 14 column names are distinct. The c-th cell of a projected row is the column named by the c-th name. Every other name is dropped |
| Expansion.Expand | app.py:59 | The expanded table has exactly `sum(QTD)` rows |
| Expansion.ExpandPositions | app.py:59 | Input row i fills the `QTD_i` consecutive positions that start after the labels of rows 0..i-1, so input order is kept |
| Expansion.ExpandCount | app.py:59 | Each row occurs `QTD` times as often in the expansion as in the input, so a row with `QTD = 0` disappears |
| Expansion.ExpandMembers | app.py:59 | A row is in the expansion exactly when it is in the input with positive `QTD` |
| Expansion.ExpandRows | app.py:59 | The loop that appends every row `QTD` times builds the expanded table and has `sum(QTD)` rows |
| Grouping.Keys | app.py:68 | The group keys are strictly ascending, hence distinct, and are exactly the `OF_NUMERO` values present in the rows |
| Grouping.MembersInOrder | app.py:68 | A group is a subsequence of the rows: relative order within a group is preserved |
| Grouping.MembersCount | app.py:68 | A group holds every row with its key, as often as the table does, and no other row |
| Grouping.GroupsPartition | app.py:68-77 | The groups concatenated are a permutation of the rows that have an `OF_NUMERO`. Rows without one are dropped |
| Grouping.GroupOfRow | app.py:68-77 | A row with a key lies in the group of its key and in no group with another key |
| Grouping.GroupsWellFormed | app.py:68-77 | No group is empty and no two groups share a key |
| Text.NanSpellings | app.py:86 | A string lower-cases to `nan` exactly when it is one of the eight spellings of n/N, a/A, n/N |
| Sheets.Normalize | app.py:86 | No normalised cell reads as `nan` in any case. A cell is empty exactly when it was missing, empty or a NaN spelling. Otherwise it is the value's string form |
| Sheets.NormalizeIdempotent | app.py:86 | Normalising a normalised cell changes nothing |
| Sheets.WriteGuardNormalized | app.py:102 | The guard applied at write time leaves every normalised cell unchanged |
| Sheets.LayoutHasNoNan | app.py:95-103 | Every line of a sheet, the header included, has 14 cells, and no cell reads as `nan` in any case |
| Sheets.LayoutKeepsValues | app.py:99-103 | A present value that is not a NaN spelling is written exactly as its string form |
| Sheets.WriteSheet | app.py:91-103 | Writing cell by cell gives row 0 = the column names. Cell (k+1, c) is the normalised c-th field of the k-th row of the group, and there are no other rows |
| Pipeline.CheckColumns | app.py:34-55 | The check passes exactly when every column the run reads is present. A failure names only missing required columns |
| Pipeline.Run | app.py:57-103 | Once the columns are present, the expanded table has one row per label the input rows ask for (the sum of their `QTD`), and every file starts with the 14 headers and has at least one data line |
| Pipeline.Process | app.py:26-112 | The run fails exactly when a column it reads is missing, and names only missing columns. On success it is the run on the rows, whose expanded table has one row per label the derived rows ask for (the sum of their `QTD`), and every file starts with the 14 headers and has at least one data line |
| Pipeline.FileNameInjective | app.py:89 | Different keys give different file names `<key>.xls` |
| Pipeline.GroupOfExpansion | app.py:59-68 | Grouping the expansion is expanding the group: each row of the group, repeated `QTD` times, in input order |
| Pipeline.FileHasRow | app.py:59-89 | A file named `k.xls` is written only when some input row has `OF_NUMERO = k` and positive `QTD` |
| Pipeline.RowHasFile | app.py:59-89 | Every `OF_NUMERO` of an input row with positive `QTD` gets a file named after it |
| Pipeline.FilesPerKey | app.py:68-89 | There is a file `k.xls` exactly when some input row has `OF_NUMERO = k` and positive `QTD`, and file names are pairwise distinct |
| Pipeline.FileSizes | app.py:77-103 | The file of key k has one data line per label its input rows ask for. Data lines over all files add up to the expanded rows that have an `OF_NUMERO` |
| Pipeline.TwoOrders | app.py:26-112 | Input `A` with `QTD` 2 and `B` with `QTD` 1 gives 3 expanded rows and two files, `A.xls` with 2 data lines and `B.xls` with 1, and a table holding every column succeeds with exactly that output |

## Left out

- Streamlit page, uploader, buttons, progress bar, messages, metrics and preview (app.py:1-22, 72-81, 108-110, 121-177): presentation only.
- Reading the workbook with `pd.read_excel` (app.py:29): the model starts from the sheet's header and typed rows.
- Creating `output_files` (app.py:64-66), the `xlwt` encoding and `workbook.save` (app.py:91, 105), and the zip archive (app.py:156-159): file I/O and foreign formats. A sheet is modelled as a grid of strings, a file as a name and a grid.
- Float prices: the price is modelled as exact integer cents. Python's `float()` conversion and its rounding of amounts with more than two decimals are not modelled.
- `str()` of arbitrary cell values: a present cell is identified with its string form. So `OF_NUMERO` values that print alike (the number 1 and the text "1") form one group here. pandas would write two groups to the same file name. The quantity column is printed as a decimal integer.
- `str.lower()`: modelled as ASCII lower-casing. Only its comparison with `"nan"` matters, and no other code point lower-cases to `n` or `a`.
- Grouping.Keys: pandas sorts keys by their native values. The model sorts the string forms by code point, which gives the same order for text keys but not for numeric ones (9 sorts before 10 in pandas but after it here).
- Negative or non-integer `QTD`: `QTD` is a `nat` here, because `repeat` rejects those inputs in a library-defined way.
- Errors other than a missing column: I/O failures and a non-numeric price. A price is an integer number of cents, so the second case cannot arise. The reported error carries only the names of the missing columns, not pandas' message or the traceback (app.py:114-118).
- Pipeline.Process: "fails exactly when a column it reads is missing" holds only outside three cases, and on each of them the model succeeds where the source fails:
  - a `PROD_DESCRICAO` column with no text value at all (all missing, or all numbers) is read by pandas as a non-text column, so `.str.slice` (app.py:36) raises and the run returns `(None, None)`;
  - a group of more than 65,535 data lines;
  - a cell longer than 32,767 characters.
  The last two exceed the `.xls` limits, and xlwt refuses to write them (app.py:103). A cell is a string here, and the model has no notion of column dtypes or of the file format's limits.
- Labels.ModelCode: in the source, a number among text descriptions gets a missing `PROD_DESC`, because `.str.slice` (app.py:36) gives NaN for non-text values, and therefore a blank `IMAGEM_MODELO_NEW` (app.py:37-39). The model identifies every present cell with its string form, so it cuts the number's string form and builds a full path (this affects Labels.Derive in the same way).
