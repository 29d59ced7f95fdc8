# ub-sf-etl report script, modelled in Dafny

`script.py` fetches a Udemy organisation's user-course-activity records and writes
them into rows of a spreadsheet template. It saves the result as
`populated_template.xlsx` and uploads it over SFTP. This project models the logic
of that script:

- **`format_date`** (module `Dates`, file `dates.dfy`). It takes the text before the
  first `T` and reads it the way `datetime.strptime(_, '%Y-%m-%d')` does. That means
  four-digit years, months `1[0-2]|0[1-9]|[1-9]`, and days
  `3[01]|[12]\d|0[1-9]|[1-9]| [1-9]`, with the alternatives tried in that order.
  The whole text must be consumed, and the fields must then form a Gregorian date
  `datetime` can hold (years 1 to 9999, leap years included). The date is re-emitted
  as `MM/DD/YYYY`. A falsy value, a non-text value or any failure gives `""`.
- **`minutes_to_hours`** (module `Hours`). A falsy value gives `0`. Otherwise the
  result is the number of hours rounded to two places, kept exactly as whole
  hundredths of an hour.
- **The loop of `populate_excel`** (module `Report`). The sheet is a map from cell
  coordinates to values. Record `i` fills columns B, C, E, F, G, H, I, J and L of row
  `6 + i`. The declarative description `Placed` says what the filled sheet is; both
  the loop (`PopulateExcel`) and its recursive form (`Populate`) are proved to meet
  it, and no other sheet does.
- **Output name, remote path and endpoint URL** (modules `Paths` and `Api`). These
  are `"populated_" + os.path.basename(excel_file)`,
  `os.path.join(remote_path, basename(local_file))` and the analytics endpoint
  address. `os.path` is taken to be `posixpath`, as on Linux and macOS.
- **`main`** (module `Orchestrator`). One run is a trace of fetch, save and upload
  effects plus how the run ends. The environment, the HTTP answer, the template,
  today's date and the upload's fate are inputs.

Small helper modules: `Options` (an option type), `Records` (the fetched record) and
`Texts` (`text.split(sep)[0]`).

## Model

| member | source | states |
|---|---|---|
| Texts.UpTo | script.py:46 | the result is a prefix of the input without the separator, and it ends where the input ends or where the first separator stands |
| Texts.UpToOf | script.py:46 | a separator-free text followed by nothing or by the separator splits back to that text |
| Dates.DaysInMonth | script.py:46 | every month has 28 to 31 days, and February has 29 exactly in leap years |
| Dates.Pad2 | script.py:47 | two decimal digits whose value is the number |
| Dates.Pad4 | script.py:47 | four decimal digits whose value is the number |
| Dates.Pad2OfValue | script.py:47 | two digits read as a number and padded again come back unchanged |
| Dates.Pad4OfValue | script.py:47 | four digits read as a number and padded again come back unchanged |
| Dates.MatchMonth | script.py:46 | reads the `%m` field and the `-` after it; a match is a month 1 to 12, and what is left is the text after that `-`, one or two characters further on |
| Dates.MatchDay | script.py:46 | reads the `%d` field, which must end the text; a match is a day 1 to 31 spelled in one or two characters, the last a digit whose value is the day's last digit |
| Dates.ParseFields | script.py:46 | matches `%Y-%m-%d` against the whole text; a match is a year 0 to 9999, a month 1 to 12 and a day 1 to 31, read from a text of 8 to 10 characters with `-` at index 4 |
| Dates.ParseIso | script.py:46 | `strptime(_, '%Y-%m-%d')`: the matched fields when they form a date `datetime` can hold, nothing otherwise; ParseIsoSound and ParseIsoComplete state what it accepts |
| Dates.MatchMonthSound | script.py:46 | a matched month field is 1 to 12 and is one of that month's accepted spellings, followed by `-` |
| Dates.MatchMonthComplete | script.py:46 | every accepted spelling of a month, followed by `-`, is matched as that month |
| Dates.MatchDaySound | script.py:46 | a matched day field is 1 to 31, is one of that day's accepted spellings, and ends the text |
| Dates.MatchDayComplete | script.py:46 | every accepted spelling of a day is matched as that day |
| Dates.ParseFieldsSound | script.py:46 | every text the `%Y-%m-%d` pattern matches spells the year, month and day it yields |
| Dates.ParseFieldsComplete | script.py:46 | every spelling of a year, month and day is matched and yields exactly those fields |
| Dates.ParseIsoSound | script.py:46 | every accepted text spells the date it is parsed to |
| Dates.ParseIsoComplete | script.py:45-49 | a spelled date is accepted exactly when it exists in the calendar (no month 13, no 30 February, no year 0), and then yields that date |
| Dates.SpellingsDisjoint | script.py:46 | no text spells two different dates |
| Dates.UsText | script.py:47 | `strftime('%m/%d/%Y')`: the rendering has the `MM/DD/YYYY` shape and reads back as the same year, month and day |
| Dates.DatePart | script.py:46 | `split('T')[0]`: a prefix of the text without `T` that ends at the end of the text or at its first `T` |
| Dates.FormatDate | script.py:41-49 | every result is `""` or a ten-character `MM/DD/YYYY`, and a non-empty result comes from non-empty text |
| Dates.FormatDateFalsy | script.py:43-44 | `None`, the empty string and a value without `split` all give `""` |
| Dates.FormatDateUsesOnlyDatePart | script.py:46 | two inputs with the same text before the first `T` give the same result |
| Dates.SpellingHasNoT | script.py:46 | no accepted date text contains a `T`, so the `split` keeps all of it |
| Dates.FormatDateOfSpelling | script.py:45-49 | a date spelling, with or without a time after a `T`, gives that date as `MM/DD/YYYY` when the date exists and `""` when it does not |
| Dates.FormatDateSound | script.py:45-49 | a non-empty result is the rendering of a real date whose spelling is the input's date part |
| Dates.DateTimeExample | script.py:41-49 | `2024-01-15T00:00:00Z` gives `01/15/2024` |
| Dates.LeapDayExample | script.py:41-49 | `2024-02-29` gives `02/29/2024` |
| Dates.NotLeapDayExample | script.py:41-49 | `2023-02-29` gives `""` |
| Dates.OneDigitExample | script.py:41-49 | `2024-1-5` is accepted and gives `01/05/2024` |
| Dates.BadMonthExample | script.py:41-49 | `2024-13-01` gives `""` |
| Hours.RoundedHundredths | script.py:55 | the result lies within a fifth of a minute (a third of a hundredth of an hour) of the exact number of minutes |
| Hours.MinutesToHours | script.py:51-55 | `None` and `0` give `0`, and any other whole number of minutes gives hours rounded to the nearest hundredth |
| Hours.DistanceDeterminesHundredths | script.py:55 | at most one number of hundredths lies that close, so the rounding is unique and no tie arises |
| Hours.RoundedIsNearest | script.py:55 | no number of hundredths is nearer to the exact hours than the result |
| Hours.WorkedExamples | script.py:51-55 | 90 minutes are 1.5 hours, 125 are 2.08, 150 are 2.5, and `None` is 0 |
| Paths.Basename | script.py:98 | the base name holds no `/`, is a suffix of the path, and is preceded by a `/` unless it is the whole path |
| Paths.BasenameOfPlainName | script.py:98 | a name without `/` is its own base name |
| Paths.BasenameIdempotent | script.py:98 | taking the base name twice is taking it once |
| Paths.OutputName | script.py:98 | the saved file's name starts with `populated_` and holds no `/`, so it lands in the working directory |
| Paths.OutputNameKeepsTemplateName | script.py:98 | after the prefix comes exactly the template's base name |
| Paths.Join | script.py:111 | `os.path.join` of two parts: an absolute second part replaces the first; otherwise the result starts with the first part and ends with the second, with one `/` between them exactly when the first part is not empty and does not already end with `/` |
| Paths.RemotePath | script.py:111 | the remote directory joined with the local file's base name; RemotePathKeepsName states what the result keeps |
| Paths.BasenameAfterSlash | script.py:111 | a plain name appended to a directory ending in `/` is the base name of the result |
| Paths.RemotePathKeepsName | script.py:111 | the remote path starts with the remote directory and has the local file's base name |
| Api.ApiUrl | script.py:129 | the endpoint address of an account; for a dot-free account name the address parses back into that name and id |
| Api.ParseFramedSound | script.py:129 | a text the frame parser accepts is the scheme, the name, the middle, the id and the end, in that order |
| Api.ParseFramedOf | script.py:129 | an address built from a dot-free name and any id is parsed back into them |
| Api.ParseApiUrlSound | script.py:129 | every address the parser accepts is the endpoint address of the account it returns |
| Api.ApiUrlInjective | script.py:129 | different dot-free accounts are sent to different addresses |
| Report.BuildRow | script.py:68-93 | the nine values of one record's row: email, category and title as they are, today's date and the two record dates through `format_date`, the fixed status and the hours; RowTextCells, RowDateCells and RowHoursCell state where each lands |
| Report.WriteRow | script.py:68-93 | the nine assignments of one turn lay exactly the row's nine cells over the sheet |
| Report.WriteRowFrame | script.py:68-93 | writing a row adds or overwrites only the nine data cells of that row; every other cell keeps its value |
| Report.BuildRows | script.py:67 | one output row per record |
| Report.BuildRowsAt | script.py:67-93 | output row `i` is built from record `i` |
| Report.BuildRowsSnoc | script.py:67 | one more record appends exactly one row at the end |
| Report.PlacedExtend | script.py:64-95 | writing one more row just below the block extends the placement by that row |
| Report.PopulateNext | script.py:67-95 | one turn of the loop writes record `i` at row `6 + i` and extends the placement from the first `i` records to the first `i + 1` |
| Report.Populate | script.py:64-95 | the rows written one after another from row 6 are placed in the template |
| Report.PopulateExcel | script.py:57-101 | the loop, starting at row 6 with the counter growing by one per record, leaves every record placed in its row, and the file name is the derived output name |
| Report.PlacedIsUnique | script.py:64-95 | the template and the records determine the filled sheet completely |
| Report.CellInBlock | script.py:64-95 | the cell of a data column in row `6 + i` holds entry `i`'s value for that column |
| Report.RowComplete | script.py:68-93 | every written row has all nine data cells |
| Report.RowTextCells | script.py:68-90 | row `6 + i` holds record `i`'s email in B, its category in both E and F, its title in G and `Online_Complete` in J |
| Report.RowDateCells | script.py:71-87 | row `6 + i` holds today's date as `MM/DD/YYYY` in C and record `i`'s two dates through `format_date` in H and I |
| Report.RowHoursCell | script.py:92-93 | row `6 + i` holds record `i`'s video minutes in hours in L |
| Report.OutsideBlockUnchanged | script.py:64-95 | header rows 1 to 5, rows after the last record, and columns outside the nine keep exactly their template cells, and no cell appears there |
| Report.ConstantAndDuplicatedColumns | script.py:74-90 | in every written row J is the fixed label and E equals F |
| Report.EmailsInInputOrder | script.py:64-95 | column B from row 6 down lists the records' emails in input order, with no gap |
| Report.SingleRecordExample | script.py:57-95 | a single record enrolled on `2024-01-15T00:00:00Z` with 90 minutes fills row 6 with its email, today's date as `MM/DD/YYYY`, `Tech` twice, its title, `01/15/2024`, an empty completion date, `Online_Complete` and 1.5 hours |
| Orchestrator.HasCredentials | script.py:124 | the guard of `main`: all four of client key, client secret, account name and account id are set and non-empty |
| Orchestrator.IsTruthy | script.py:133 | Python truthiness of the fetch result: not `None` and not the empty object |
| Orchestrator.RunReport | script.py:121-146 | without all four credentials nothing happens; a save only ever follows a truthy fetch result and always writes `populated_template.xlsx` |
| Orchestrator.FetchFirstAndOnce | script.py:124-132 | with credentials, the run starts with one request to the account's endpoint, authenticated with the client key and secret, and makes no other request |
| Orchestrator.RunShape | script.py:121-146 | every run is a prefix of fetch, save, upload; the upload sends the saved file; only a finished run reaches the upload |
| Orchestrator.ShapeIsWellOrdered | script.py:121-146 | a fetch, save, upload prefix keeps every save after a fetch and every upload after the save of its file |
| Orchestrator.RunIsWellOrdered | script.py:121-146 | every run keeps that order, and a finished run has saved its file |
| Orchestrator.NoRecordsNoSave | script.py:67-140 | with credentials, a response without walkable records saves nothing: a falsy one ends the run quietly, a truthy one crashes after the fetch |
| Orchestrator.OutputFileName | script.py:137-140 | the template `template.xlsx` is saved as `populated_template.xlsx` |
| Orchestrator.HappyPath | script.py:121-146 | with credentials, a response whose `results` holds records, a template and a valid port, the run fetches, saves the template with the records placed from row 6, and uploads |
| Orchestrator.UploadsSavedFile | script.py:140-146 | the upload sends the saved file to the remote directory joined with its base name, with `/` as the default directory |

## Left out

- The HTTP request of `fetch_api_data` (script.py:28-39) is not modelled. Its result
  (`None`, or the decoded body) is an input of the run. A body that is a JSON array
  or scalar rather than an object is not modelled.
- The SFTP session of `upload_to_sftp` (script.py:103-119) is not modelled. Only
  the remote path it computes is modelled, and whether the upload succeeds is an
  input. The function catches every exception, so the run ends the same way either
  way.
- Loading the environment and `.env` file (script.py:9-26) is not modelled. The
  settings are an input. Whether `int()` accepts `SFTP_PORT` is a flag, because
  `int()` is a library call on environment text.
- The openpyxl load and save (script.py:60-61, 99) are not modelled. The active
  sheet is a map of cells, and a missing template is `None` and crashes the run.
- `datetime.now()` (script.py:72) is a parameter. The script calls it once per
  row, so a run crossing midnight could date its rows differently. The model uses
  one date for all rows.
- A `results` value the loop cannot walk (`null`, a number, items that are not
  objects, an item missing one of the six keys) raises before the save. The model
  gives all of these as one `Unusable` entry and does not tell the exceptions
  apart. A truthy response without `results` is modelled too, and it crashes.
- Report.WriteRow: openpyxl checks text on cell assignment. It raises
  `IllegalCharacterError` for control characters, which ends the run before
  `wb.save`, and it cuts text longer than 32,767 characters. The model stores every
  value as given and saves the sheet. openpyxl also raises on two assignments the
  model accepts: a row number past the sheet's last row, 1,048,576 (`ValueError`),
  which more than 1,048,571 records reach, and a data cell that the template covers
  with a merged range other than at its top-left cell (`AttributeError` on the
  read-only merged cell). The model writes those cells and saves. openpyxl is not
  part of this model.
- Paths.Join: `os.path` is fixed to POSIX (`posixpath`). On Windows it is `ntpath`,
  where `basename` also splits at `\` and `join` puts `\` between the parts, so the
  remote path would differ. Paths.Basename follows the same choice.
- Report.BuildRow: B, E, F and G are modelled as text. The script copies whatever
  JSON value the record holds, and a non-text value there is not modelled.
- Dates.FormatDate: `\d` in Python's regular expressions also matches non-ASCII
  decimal digits, and the model accepts ASCII digits only.
- Dates.UsText: for years below 1000, `strftime('%Y')` depends on the platform's C
  library. The model always writes four zero-padded digits.
- Hours.MinutesToHours: only whole numbers of minutes are modelled, and the
  rounding is exact arithmetic rather than binary floating point. For whole minutes
  the exact quotient is never halfway between two hundredths, so Python's `round`
  gives this result as long as the float division is exact enough (magnitudes
  below about 10^14 minutes). Fractional, string and boolean minutes are not
  modelled.
- Api.ApiUrl: the round trip is stated for account names without a `.`.
  The address of a dotted name cannot be told apart from a shorter name with a
  longer id: `x.udemy.com/api-2.0/organizations/y` with id `1` gives the same
  address as `x` with id `y.udemy.com/api-2.0/organizations/1`.
- The script's printed messages (script.py:38, 100, 114, 119, 125) are not modelled.
