# Maya calendar lookups, modelled in Dafny

The Maya calendar system loads a set of reference tables (spreadsheets and
CSV files, each named after its file) and answers two queries against them:

- **KIN lookup** (`kin_lookup`): given a KIN number, find the first table whose
  name contains `矩陣` or whose lower-cased name contains `matrix`, coerce a copy
  of its `KIN` column to numbers, and return the first row whose KIN equals the
  request. It raises `FileNotFoundError` when there is no such table and
  `ValueError` when no row matches.
- **Maya birthday** (`date_to_maya_birthday`): given a date, find the first table
  whose name contains `瑪雅生日` or whose lower-cased name contains `maya`, build
  the key `M/D` from the date (month and day without leading zeros, year
  ignored), convert a copy of the table's `國曆月日` column to text, and return
  the `瑪雅生日` cell of the first row whose `國曆月日` equals the key. It never
  raises for these cases. Instead it returns the text `找不到瑪雅生日對照表` when
  there is no such table and `無對應瑪雅生日` when no row matches.

The project has four modules:

- `Wrappers` (`wrappers.dfy`): `Option` and `Result`.
- `Strings` (`strings.dfy`): the parts of Python's `str` the lookups use. These
  are `sub in s`, `lower()`, `lstrip` and `replace`, plus decimal rendering
  and parsing of integers, with the parse/render round trip proved. It also
  has `split`, which the lookups do not call: the round-trip lemma for the
  month/day key uses it to state its property.
- `Frames` (`frames.dfy`): cells (`Str`, `Num`, `NaN`), rows (maps from column
  name to cell) and tables as values. A `Frame` class stands for a pandas
  DataFrame, copied with `Copy` and updated in place with `SetColumn`. The module
  also holds the first-match scan `FirstIndex`, the boolean-mask selection
  `Filter` and the table-selection loop `SelectFrame`.
- `Utils` (`utils.dfy`): `app/utils.py` itself. `KinLookup` and
  `DateToMayaBirthday` are methods that follow the source step by step. Each
  selects the frame, then hands it to `KinInFrame` or `BirthdayInFrame`, which
  copy it, overwrite a column, filter, and take the first row. Each lookup is
  proved equal to a specification function (`KinSpec`, `BirthdaySpec`) on a
  snapshot of the tables, and proved to leave every caller frame unchanged.
  The lemmas state what the specification functions mean.

The loaded tables are a sequence of (name, frame) pairs, because a Python dict
is iterated in insertion order. Which table is "first" therefore follows the
order the loader inserted them in.

Three details of the code shape the model:

- Tables are selected by substring of their names (`矩陣` / `matrix`, and
  `瑪雅生日` / `maya`). The first hit wins, and later qualifying tables are
  ignored.
- The month/day key never has leading zeros (`3/5`, `10/5`, `12/10`), in the
  month or in the day.
- The birthday lookup returns one cell, that of the first matching row, or
  a sentinel text. Later matching rows are ignored.

## Model

| member | source | states |
|---|---|---|
| `Frames.FirstIndex` | app/utils.py:40-43 | The result is the index of the first element that passes the test, and no earlier element passes it. It is None exactly when no element passes. |
| `Frames.SelectFrame` | app/utils.py:39-43 | The `for key in data … break` loop returns the frame of the first entry whose name qualifies, or None when none does. It returns the caller's own frame, not a copy. |
| `Frames.FirstIndexAlike` | app/utils.py:50 | Scans that judge each position alike stop at the same index. This ties a match on the coerced table to a match on the loaded one. |
| `Frames.Filter` | app/utils.py:50 | A boolean-mask selection keeps exactly the rows that pass the mask. Every kept row comes from the table and passes, every passing row is kept, and no more rows are kept than exist. |
| `Frames.FilterAppend` | app/utils.py:50 | The selection keeps the table's order. Selecting from two parts of a table gives the selection from the first part followed by the selection from the second. |
| `Frames.FilterHead` | app/utils.py:50-53 | The selection is empty exactly when no row passes. Otherwise its first row is the first row of the table that passes. |
| `Frames.Frame.Copy` | app/utils.py:47 | `df.copy()` gives a fresh frame with the same columns and rows. |
| `Frames.Frame.SetColumn` | app/utils.py:49 | `df['KIN'] = …` overwrites that column of this frame in place. Every other column and the row order stay the same, and the frame stays rectangular. |
| `Frames.WithColumn` | app/utils.py:49 | Overwriting a column keeps the table rectangular and keeps its row count. The column set becomes the old set plus that column. Row i's cell in that column becomes the i-th new value, and every other cell of row i is unchanged. |
| `Frames.ToNumeric` | app/utils.py:49 | Numeric coercion yields a number or NaN, never text. A text cell becomes a number exactly when it parses as an integer, and then it becomes that integer. |
| `Strings.ContainsAt` | app/utils.py:41 | `sub in s` holds exactly when `sub` occurs in `s` at some position. |
| `Strings.ParseShowInt` | app/utils.py:49 | Parsing the decimal text of any integer gives that integer back. |
| `Utils.CoerceKin` | app/utils.py:47-49 | The coerced copy has the same columns and rows. Each row's KIN cell is replaced by its numeric coercion. |
| `Utils.KinLookup` | app/utils.py:32-53 | The method returns exactly `KinSpec` of the tables as they were when called. No caller frame is changed, because the coercion is done on a copy. |
| `Utils.KinInFrame` | app/utils.py:47-53 | Working on a copy of the selected frame, the method returns the first row of the coerced table whose KIN equals the request, or KinNotFound when there is none. It modifies no existing frame. |
| `Utils.KinSpecFirstMatch` | app/utils.py:47-53 | This applies once a matrix table is selected. If no row's KIN text coerces to the request, the lookup fails with KinNotFound. Otherwise it returns the first row that does, with its KIN cell set to the number. |
| `Utils.KinSpecNoTable` | app/utils.py:39-45 | The lookup fails with TableNotFound exactly when no table name contains `矩陣` and no lower-cased name contains `matrix`. |
| `Utils.KinRowKeepsColumns` | app/utils.py:49-53 | A returned row comes from some row k of the selected table. Row k's KIN coerces to the request, and no earlier row's KIN does. The returned row has the same columns, holds the number in KIN, and has every other cell unchanged. |
| `Utils.NonNumericKinsNeverMatch` | app/utils.py:49-52 | If every KIN cell is NaN or text that does not parse as an integer, every request fails with KinNotFound. |
| `Utils.OneRowCatalogFacts` | app/utils.py:41-49 | In a catalog holding one table named `矩陣表`, that table is selected and its KIN text "260" coerces to 260. |
| `Utils.KinFoundExample` | app/utils.py:49-53 | For the one-row table {KIN: "260", Name: "X"}, KIN 260 returns {KIN: 260, Name: "X"}. |
| `Utils.KinMissingExample` | app/utils.py:50-52 | For the same table, KIN 259 fails with KinNotFound. |
| `Utils.Pad2Show` | app/utils.py:72 | A zero-padded `%m`/`%d` field is the plain decimal with one '0' added in front for one-digit values, and with nothing added for two-digit ones. |
| `Utils.ReplaceSkips` | app/utils.py:72 | `replace('/0', '/')` leaves alone a prefix that contains no '/'. |
| `Utils.ReplaceDay` | app/utils.py:72 | `replace('/0', '/')` turns '/' plus a zero-padded day into '/' plus the plain decimal day. |
| `Utils.StripMonth` | app/utils.py:72 | `lstrip('0')` on a zero-padded month leaves its plain decimal form, whatever follows it. |
| `Utils.DateKeyShape` | app/utils.py:72 | The key is the month in plain decimal, then '/', then the day in plain decimal. |
| `Utils.DateKeyRoundTrip` | app/utils.py:72 | Splitting the key on '/' gives exactly two non-empty parts. Neither part starts with '0', and parsing them gives back the month and the day. |
| `Utils.DateKeyInjective` | app/utils.py:72-73 | Different (month, day) pairs have different keys. |
| `Utils.DateKeyMarchFifth` | app/utils.py:72 | 03/05 gives the key `3/5`. |
| `Utils.DateKeyOctoberFifth` | app/utils.py:72 | 10/05 gives the key `10/5`. |
| `Utils.DateKeyDecemberTenth` | app/utils.py:72 | 12/10 gives the key `12/10`. |
| `Utils.DatesAsText` | app/utils.py:69-71 | The converted copy has the same columns and rows. Each row's `國曆月日` cell is replaced by its text form. |
| `Utils.MatchedRowHasLabel` | app/utils.py:73-74 | Some row matches the key only if the table has a `瑪雅生日` column. Then the first row the key selects has a `瑪雅生日` cell, so reading it cannot fail. |
| `Utils.DateToMayaBirthday` | app/utils.py:56-74 | The method returns exactly `BirthdaySpec` of the date and the tables as they were when called. No caller frame is changed. |
| `Utils.BirthdayInFrame` | app/utils.py:69-74 | Working on a copy of the selected frame, the method returns the `瑪雅生日` cell of the first row whose `國曆月日` text equals the key, or `無對應瑪雅生日` when there is none. It modifies no existing frame. |
| `Utils.BirthdayFirstMatch` | app/utils.py:69-74 | This applies once a birthday table is selected. The result is the `瑪雅生日` cell of the first row whose `國曆月日`, read as text, equals the date's key. It is `無對應瑪雅生日` when no row matches. |
| `Utils.BirthdayNoTable` | app/utils.py:61-67 | With no table name containing `瑪雅生日` or lower-cased `maya`, the result is the text `找不到瑪雅生日對照表`, not an error. |
| `Utils.TableSentinelAlsoALabel` | app/utils.py:66-74 | If the first matching row's `瑪雅生日` cell is the text `找不到瑪雅生日對照表`, the result is that same text. So the returned string alone does not show whether a birthday table was found. |
| `Utils.BirthdayIgnoresYear` | app/utils.py:72-74 | Dates with the same month and day get the same result, whatever the year. |

## Left out

- `load_all` (app/utils.py:7-29) is not modelled. It lists a directory, parses CSV and Excel files, and prints a warning for each file it cannot read. That is I/O, so the lookups take the loaded tables as a parameter.
- app/streamlit_app.py is not modelled. It is the page, the menu, the widgets and the rendering. The only limit on the KIN number (1 to 260, app/streamlit_app.py:53) is imposed there, so `KinLookup` accepts any integer, as the source does.
- `ToNumeric` covers only an optional sign followed by ASCII digits. The pandas parser also accepts, for example, surrounding spaces, decimals such as "42.0" (which equals 42), exponents and "inf"; the model gives NaN for all of these.
- `ToNumeric` parses to exact unbounded integers. pandas stores the coerced column as int64 or uint64, or as float64 once the column holds a NaN or any text that parses only as a float (a decimal such as "42.5", an exponent, "inf"). In a float64 column, texts above 2^53 are rounded: with a NaN or a text such as "1.5" elsewhere in the column, "9007199254740993" becomes 9007199254740992 and matches a request for 9007199254740992. Text beyond the uint64 range becomes a float even without either. The model matches only the exact integer.
- `KinLookup` returns its KIN cell as an integer. pandas gives a float (260.0) when the coerced column holds a NaN or any text that parses only as a float (a decimal such as "42.5", an exponent, "inf"), and an integer otherwise.
- `Row` is an unordered map and `Table.columns` a set, so column order is not modelled. `row.iloc[0].to_dict()` (app/utils.py:53) returns the cells in the frame's column order, and the page builds its display in that order.
- `Lower` changes only 'A'..'Z'. Python's `lower()` also maps other letters, for instance the Kelvin sign to 'k'. Names whose only upper-case letters are ASCII are judged exactly as the source judges them.
- A missing `KIN` or `國曆月日` column makes pandas raise `KeyError`. The model makes the presence of these columns in the selected table a precondition (`SelectedHas`). A missing `瑪雅生日` column raises only when some row matches the key, because line 74 reads the column only then. So the model requires that column only in that case (`BirthdayReadable`, `LabelledWhereMatched`). Tables are also required to be rectangular (every row has every column).
- `datetime.strftime` is modelled only through its zero-padded `MM/DD` output. `ValidDate` bounds month to 1..12 and day to 1..31. It does not check the day against the length of the month, which the real `datetime` type does.
- The exception messages are not modelled. Only their kind is kept (`TableNotFound` for `FileNotFoundError`, `KinNotFound` for `ValueError`).
- The formula that derives a KIN from year, month and day is not part of this model. It appears in neither `app/utils.py` nor `app/streamlit_app.py`.
