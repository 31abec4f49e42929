# Cleaning an "Ingresos/Egresos" spreadsheet — a Dafny model

`streamlit_app.py` is a small web tool. The user uploads a spreadsheet of shipment
records and downloads a cleaned copy. Between reading the upload and writing the
download, the script runs a fixed row pipeline. This project models that pipeline
and proves what it guarantees:

1. **Column projection**: the seven columns `Guia/PLAN`, `Origen`, `Destino`, `Empresa`,
   `Identificador`, `Nombre/Descripcion`, `Proyecto` are kept, in that order. A missing
   column fails the run (`Frame.Project`, `Frame.MissingColumns`).
2. **Identifier coercion**: a helper value `Identificador_num` holds the number each
   row's `Identificador` reads as, or "not a number" (`Numeric.ParseInt`,
   `Pipeline.AddNumericKey`).
3. **Sort**: rows are ordered by that value, greatest first, with non-numbers last
   (`Sorting.SortByKeyDescending`, an in-place selection sort over an array of rows
   paired with their helper values). This is followed by the **drop** of the helper
   (`Sorting.DropKey`).
4. **Download name**: `INGRESOS-EGRESOS DD-MM-YYYY.xlsx` for the date of the run
   (`ExportName.OutputFileName`).

`Pipeline.Process` runs the four stages in that order on a table and a date. On
failure it returns exactly the missing column names and no table. On success it
returns a table with exactly the seven columns whose rows are a permutation of the
projected rows, ordered as described.

A table is a list of column names plus a list of rows. A row is a map from column
name to cell text (`Frame.Table`, `Frame.Row`). `Frame.WellFormed` says each row has
exactly the table's columns; this holds for every DataFrame.

Files: `wrappers.dfy` (Option and Result), `frame.dfy`, `numeric.dfy`, `sorting.dfy`,
`export_name.dfy`, `pipeline.dfy`.

## Model

| member | source | states |
|---|---|---|
| `Frame.MissingColumns` | streamlit_app.py:27 | the names returned are exactly the requested names that are not columns of the table |
| `Frame.Project` | streamlit_app.py:17-27 | if a requested column is absent: failure listing exactly the absent names; otherwise columns are exactly the requested list in order, with the same number of rows and every kept cell unchanged |
| `Frame.ProjectIdempotent` | streamlit_app.py:27 | selecting the same columns again changes nothing |
| `Frame.WellFormedPermutation` | streamlit_app.py:33 | reordering rows keeps each row's cells under exactly the table's columns |
| `Numeric.ParseDigits` | streamlit_app.py:30 | defined exactly on non-empty all-digit text; the value is below 10 to the number of digits |
| `Numeric.ParseInt` | streamlit_app.py:30 | a number exactly when the text is an optional sign followed by digits; a leading `-` gives a value of at most 0, otherwise at least 0 |
| `Numeric.ParseFormatInt` | streamlit_app.py:30 | every integer is read back from its canonical decimal text |
| `Numeric.ParseDigitsLeadingZero` | streamlit_app.py:30 | leading zeros do not change the value read ("007" reads as 7) |
| `Numeric.Padded` | streamlit_app.py:45 | `%d`/`%m`/`%Y` zero padding: exactly `width` digits |
| `Numeric.ParsePadded` | streamlit_app.py:45 | a zero-padded number reads back as the number |
| `Numeric.ParseSignedPadded` | streamlit_app.py:30 | the value of every integer text, zero-led or signed: `n` written with any number of leading zeros reads as `n`, after `+` as `n`, after `-` as `-n` |
| `Numeric.PaddedParse` | streamlit_app.py:45 | re-padding a digit string read as a number to its own width gives the same string |
| `Pipeline.AddNumericKey` | streamlit_app.py:30 | the helper is added beside each row; the rows, including `Identificador`, are unchanged; the helper is that row's numeric reading |
| `Sorting.IndexOfLeading` | streamlit_app.py:33 | returns a row from position `i` onward whose key may precede every key from `i` onward |
| `Sorting.Swap` | streamlit_app.py:33 | swaps two rows and leaves the rest alone; the rows form the same multiset |
| `Sorting.SortByKeyDescending` | streamlit_app.py:32-33 | the array is a permutation of its old contents; numeric keys come before non-numeric ones and never increase |
| `Sorting.DropKey` | streamlit_app.py:36 | same length; row `i` of the result is row `i` of the input without its helper value |
| `Sorting.DropKeyPermutation` | streamlit_app.py:33-36 | if the keyed rows are a permutation, so are the rows after the helper is dropped |
| `Pipeline.KeysMatchPermutation` | streamlit_app.py:30-33 | sorting keeps each helper value next to the row it was computed from |
| `Pipeline.DropKeyOrdered` | streamlit_app.py:32-36 | after the drop, every row with a numeric `Identificador` comes before every row without one, and the numeric values do not increase |
| `Pipeline.Process` | streamlit_app.py:22-46 | fails exactly when a kept column is absent and then reports exactly the absent names; otherwise the output has exactly the seven columns, its rows are a permutation of the projected rows, ordered numbers-first and descending, and its name is the date's download name |
| `ExportName.DateText` | streamlit_app.py:45 | `DD-MM-YYYY`: ten characters, digits around two `-` separators |
| `ExportName.OutputFileName` | streamlit_app.py:46 | the name starts with `INGRESOS-EGRESOS `, ends with `.xlsx`, and holds ten date characters in between |
| `ExportName.FileNameRoundTrip` | streamlit_app.py:45-46 | the date can be read back from its download name |
| `ExportName.FileNameParseRoundTrip` | streamlit_app.py:45-46 | any text read as a download name is exactly the name of the date read from it |
| `ExportName.FileNameInjective` | streamlit_app.py:45-46 | different dates give different names |
| `ExportName.FileNameExample` | streamlit_app.py:45-46 | 5 March 2024 gives `INGRESOS-EGRESOS 05-03-2024.xlsx` |

## Left out

- Numeric.ParseInt: reads only an optional `+`/`-` followed by decimal digits, as an unbounded integer. `pd.to_numeric` also accepts surrounding whitespace, decimals, exponents and other float forms, and produces float64. Float parsing is out of scope, so the model also does not capture precision loss above 2^53 and the ordering effects it may have.
- Cells that Excel stores as numbers reach `to_numeric` as numbers, not text. Here every cell is the text of its value, and empty cells are empty text (read as "not a number", like `NaN`).
- Sorting.SortByKeyDescending: promises no order among rows with equal keys or among non-numeric rows. pandas' default sort is not stable, so the source promises none either.
- Duplicate column names: `read_excel` renames a repeated header (a second `Empresa` becomes `Empresa.1`), so the column selection keeps only the first occurrence. A row here is a map from distinct names, which gives the same result; the renaming itself is part of the workbook reading that is not modelled.
- The Streamlit page (title, uploader, success message, download button; lines 7-14 and 49-55) is framework calls with no logic.
- Reading and writing the workbook through pandas/xlsxwriter and the in-memory buffer (lines 24 and 39-42) is library I/O.
- `datetime.now()` (line 45) is a clock read. The date is a `Date` parameter that `datetime` guarantees is valid.
- ExportName.DateText: pads the year to four digits. `%Y` on years below 1000 depends on the platform's `strftime`.
- The incoming/outgoing classification, identifier denylist and country/company summaries are not in this script, so they are not modelled.
