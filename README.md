# HotspotMaster credential generator, modelled in Dafny

HotspotMaster is a small Flask application that produces MikroTik RouterOS
`/ip hotspot user` credentials in batches. This project models three parts of it:

- **The `generator` view** (`Generator`, `GeneratorProofs`). A POST carries a base name,
  a base IP, a comment, an inclusive range `[start_number, end_number]`, a password
  length and a set of character classes. The view converts the three numbers with
  `int()` and rejects bad requests in a fixed order: no class, start after end, range
  outside 1..254. It then builds the password alphabet in the fixed order uppercase,
  lowercase, digits, `!@#$%^&*`. For each index it makes one user record (name,
  random password, address, comment) and one command line. It also fills one
  ActivityLog row and the export metadata, and joins the commands under the header
  line `/ip hotspot user`.
- **The `export_users_excel` view** (`Export`). It refuses an empty session. It lays
  out the sheet: a 'Name' column and a 'Password' column, each with a header cell. It
  sizes each column to its longest cell plus two, capped at 50. It builds the file
  name from cleaned metadata fields and the export date and time.
- **The browser-side checks of `static/js/app.js`** (`Client`): the live user count and
  its colour band, the partial-IP check, the number-range check, the password checks,
  the e-mail pattern, `validateField` and `validateForm`. `validatePasswordMatch` is the
  predicate `Client.PasswordsMatch`, plain string equality. `Agreement` relates these
  checks to the server's.

Supporting modules:

- `Text`: decimal printing as Python's `str` and JavaScript's `String` do it, plus
  `str.split` and `str.join`.
- `PyInt`: Python's `int()` on a string. It strips the ASCII whitespace `\t`, `\n`,
  `\v`, `\f`, `\r` and space, and the Unicode whitespace characters. It does not strip
  the separators U+001C..U+001F, although `str.isspace` accepts them.
- `Wrappers`: `Option`.

The statements of the views and of the validators are modelled as methods, each proved
equal to a function: `Generate`, `GenerateValid`, `GenerateUsers`, `GenerateUser`,
`CollectTypes`, `BuildCharset`, `AdjustedWidth`, `AutoSize`, `ExportUsersExcel`,
`ValidateIpAddress` and `ValidateForm`. The source's loops are loops in `GenerateUsers`
(the per-index loop), `AdjustedWidth` and `AutoSize` (the column-width loops),
`ValidateIpAddress` (the octet loop) and `ValidateForm` (the loop over required fields);
the other methods are straight-line code, as their source is. The properties are proved
about the functions.

Nondeterminism and the environment become parameters:

- `random.choices(charset, k)` (routes.py:109) becomes a function `draw(i, j)`. The
  j-th character of user i's password is `charset[draw(i, j) % |charset|]`, so every
  outcome of the random source is one choice of `draw`.
- `datetime.now()` becomes a parameter: an ISO string for the metadata, and a
  `DateTime` for the file name.
- The logged-in user becomes a `Caller` value.

Cases the view does not check but the model follows:

- `password_length` is never checked. A length of zero or less gives empty passwords,
  because `random.choices` with `k <= 0` returns an empty list.
- A four-part base address whose last part `int()` cannot read makes it raise
  `ValueError` (`OctetUnreadable`). This happens after the three checks and before
  anything is generated or logged.
- A `password_length` outside the range of a 64-bit `Py_ssize_t` makes
  `random.choices` raise `OverflowError` on the loop's first pass (`PasswordOverflow`).
  This happens before any record is made, so nothing is logged or stored. The model
  assumes a 64-bit CPython build.
- Each cell keeps at most 32767 characters of a name or password written at
  routes.py:330-331 (`Export.MAX_CELL_LENGTH`). A longer value is cut to its first
  32767 characters.
- CPython (3.11 and later, and the 3.7.14, 3.8.14, 3.9.14 and 3.10.7 releases) limits
  decimal conversions to 4300 digits (`PyInt.MAX_STR_DIGITS`). `int()` raises on text
  with more digits, whether in the three posted numbers or in the fourth address part.
  `str()` raises on a number with more digits, so a fourth part of 4300 nines reads
  fine, but the f-string at routes.py:115 raises on the second record
  (`OctetUnprintable`). Either way nothing is logged or stored.
- A base address with neither three nor four parts is given unchanged to every user.

## Model

| member | source | states |
|---|---|---|
| Generator.ReadPosted | routes.py:53-58 | the posted form reads back as the request exactly when each of the three numbers has at most 4300 digits; otherwise `int()` raises; the three text fields pass through unchanged |
| Generator.CollectTypes | routes.py:61-69 | the `char_types` list holds the ticked classes, each once, in the order uppercase, lowercase, numbers, special |
| Generator.SelectedOrdered | routes.py:61-69 | the list of selected classes is strictly increasing in the fixed class order, so it has no duplicates |
| Generator.SelectedMembership | routes.py:61-69 | a class is in the list exactly when it was ticked |
| Generator.BuildCharset | routes.py:86-94 | the charset the loop of `if`s builds is the alphabet of the selected classes |
| Generator.AlphabetLength | routes.py:86-94 | the alphabet's length is 26, 26, 10 and 8 summed over the selected classes |
| Generator.AlphabetNonEmpty | routes.py:72-94 | the alphabet is empty exactly when no class is selected, so `random.choices` is never called on an empty charset |
| Generator.AlphabetMembership | routes.py:86-94 | a character is in the alphabet exactly when it lies in the pool of some selected class |
| Generator.AlphabetDistinct | routes.py:86-94 | no character occurs twice in the alphabet |
| Generator.AlphabetPrintable | routes.py:86-94 | every alphabet character is a printable ASCII character between '!' and 'z' |
| Generator.Generate | routes.py:50-162 | the view's statements compute the outcome: the first failing check, the `ValueError` of `int(ip_parts[3])`, the `OverflowError` of `random.choices`, the `ValueError` of `str()` inside the loop, or the generated batch |
| Generator.GenerateValid | routes.py:86-160 | after the three checks, the charset, the base octet, the loop and the logged values give the outcome `Generation` defines |
| Generator.GenerateUsers | routes.py:107-131 | the loop stops with `OverflowError` exactly when the password length does not fit a `Py_ssize_t`; otherwise it stops with `ValueError` exactly when some record's last address part is unprintable; when it runs to the end it yields one record per index from start to end, in order, and one command line per record |
| Generator.GenerateUser | routes.py:109-131 | one loop pass makes the record for index i and its command line; it stops with `OverflowError` exactly when the password length does not fit a `Py_ssize_t`, and otherwise with `ValueError` exactly when `str()` of a four-part address's last part raises |
| GeneratorProofs.RejectionOrder | routes.py:72-83 | a request is turned away exactly when it is invalid; the reason given is the first check that fails (this unfolds `Generation`; what a valid request yields is stated by GeneratorProofs.BatchShape) |
| GeneratorProofs.OctetFailure | routes.py:102-104 | `int(ip_parts[3])` raises exactly for a valid request whose four-part base ends in text `int()` cannot read, a non-integer or more than 4300 digits; a last part printed by `str` never raises |
| GeneratorProofs.OctetsPrintableLast | routes.py:114-115 | the last parts run from the base octet upwards, so `str()` prints all of them exactly when it prints the last one |
| GeneratorProofs.PasswordOverflowFailure | routes.py:109 | `random.choices` raises `OverflowError` exactly for a valid request whose base octet reads and whose password length is below -2^63 or at least 2^63 |
| GeneratorProofs.OctetPrintFailure | routes.py:114-115 | the loop raises `ValueError` exactly for a valid four-part request whose octet reads and whose password length fits a `Py_ssize_t`, but whose last record's octet, base + end - start, has more than 4300 digits |
| GeneratorProofs.RealOctetsPrintable | routes.py:114-115 | with a base octet of a real address (0..255), `str()` never raises in the loop |
| GeneratorProofs.BatchShape | routes.py:97-157 | generation succeeds exactly for valid requests whose base octet reads, whose password length fits a `Py_ssize_t` and whose records' last parts print; the batch size, the names, the comments, the command lines, the log fields and the metadata are as stated |
| GeneratorProofs.UsernamesDistinct | routes.py:119 | two users of one batch never share a name |
| GeneratorProofs.PasswordsFromAlphabet | routes.py:109 | every password has max(0, password_length) characters, all from the alphabet |
| GeneratorProofs.PasswordCharSelected | routes.py:109 | every password character belongs to the pool of a ticked class |
| GeneratorProofs.GeneratedUser | routes.py:107-131 | record k of a batch is the record of index start + k |
| GeneratorProofs.AddressesThreePart | routes.py:112-113 | with a three-part base, user k's address splits into the base's parts followed by str(start + k) |
| GeneratorProofs.AddressesFourPart | routes.py:114-115 | with a four-part base, user k's address keeps the first three parts, and its last part is str(base octet + k) |
| GeneratorProofs.FirstAddressIsBase | routes.py:114-115 | with a four-part base whose last part is in canonical decimal, the first user gets the base address itself |
| GeneratorProofs.AddressesOtherShape | routes.py:116-117 | with any other number of parts, every user gets the base address unchanged |
| GeneratorProofs.RecordWithoutNewline | routes.py:130 | a command line holds no newline when the name, the address and the comment hold none |
| GeneratorProofs.CommandTextLines | routes.py:160 | split at newlines, the command text is the header line followed by the command lines, in order |
| GeneratorProofs.ClassNamesMembership | routes.py:142 | a class's name appears in the logged list exactly when the class was ticked |
| GeneratorProofs.ClassNamesRoundTrip | routes.py:142 | splitting the logged `character_types` at commas gives back the list of class names |
| GeneratorProofs.LoggedCharacterTypes | routes.py:134-144 | the logged `character_types` lists exactly the ticked classes, in the fixed order |
| PyInt.ParseIntToString | routes.py:104 | `int(str(n)) == n` whenever n has at most 4300 digits, and `int` raises on the decimal text of any longer n |
| PyInt.SeparatorNotStripped | routes.py:104 | `int()` raises on "\x1c5": the separator U+001C is not stripped |
| PyInt.StrRoundTrip | routes.py:115 | what `str()` prints without raising, `int()` reads back |
| PyInt.ParseWithinLimit | routes.py:104 | every number `int()` returns can be printed by `str()` again, since it has no more digits than its text |
| PyInt.WithinLimitBetween | routes.py:115 | a number lying between two printable numbers is printable |
| Text.IntToStringInjective | routes.py:119 | different indices print differently, so the names base_name + str(i) differ |
| Export.SanitizeMembership | routes.py:356-358 | the cleaner keeps a character exactly when it occurs in the input and is an ASCII letter, a digit, '-' or '_' |
| Export.SanitizeCounts | routes.py:356-358 | each kept character occurs in the output as often as in the input; each other character never occurs |
| Export.SanitizeConcat | routes.py:356-358 | the cleaner works character by character: cleaning a + b is cleaning a, then b |
| Export.SanitizeIdempotent | routes.py:356-358 | cleaning a cleaned string changes nothing |
| Export.Pad2 | routes.py:348-349 | `%d`, `%m`, `%H`, `%M` and `%S` print two decimal digits whose value is the field |
| Export.StampClean | routes.py:348-349 | the date and time stamps hold only digits and '-' |
| Export.FileNameSafe | routes.py:360 | the file name ends in ".xlsx", and everything before that is letters, digits, '-' and '_' |
| Export.ExportFileNameSafe | routes.py:347-360 | the same holds with or without metadata, using the defaults 'users', 'export', the user count and the current user |
| Export.MaxLengthIsMaximum | routes.py:335-342 | the longest-cell length bounds every cell, and some cell attains it |
| Export.ColumnWidthBounds | routes.py:343 | a width lies between 2 and 50; below the cap every cell fits with two characters to spare, and the longest fits exactly |
| Export.AdjustedWidth | routes.py:335-344 | the inner loop computes min(longest cell + 2, 50) |
| Export.AutoSize | routes.py:334-344 | the outer loop gives each column its adjusted width, in column order |
| Export.ExportUsersExcel | routes.py:301-360 | the view body computes the export: nothing for an empty session, else the sheet, its widths and its file name |
| Export.CellValue | routes.py:330-331 | a cell keeps a prefix of the assigned string of length min(its length, 32767), so a string of at most 32767 characters is kept whole |
| Export.SheetLayout | routes.py:321-332 | the sheet has a 'Name' column and a 'Password' column, and row r + 1 holds user r's name and password, cut to 32767 characters when longer |
| Export.PasswordColumn | routes.py:331 | when every password has length n, row k + 1 of the password column is password k cut to 32767 characters, and exactly password k when n <= 32767 |
| Export.ExportShape | routes.py:303-360 | a workbook is written exactly when the session holds users; both widths lie in [2, 50]; the name is the safe file name |
| Export.ExportAfterGenerate | routes.py:150-157 | when the session still holds the batch the generator stored, exporting it gives one row per user plus the header, and a file name built from the request and the generating user |
| Export.ExportedPasswords | routes.py:331 | exporting a freshly generated batch writes each password cut to 32767 characters, and each password whole when the requested length is at most 32767 |
| Client.ParseIntJsIntToString | static/js/app.js:63-64 | `parseInt(String(n)) == n` for every integer n |
| Client.UserCountRange | static/js/app.js:63-66 | the shown count is never negative; it is end - start + 1 when start <= end, else 0 (this unfolds `UserCount`; its partner is Agreement.UserCountAgrees) |
| Client.FalsyCountsAsOne | static/js/app.js:63-64 | `parseInt(v) \|\| 1`: a start or end that reads as NaN or 0 is counted as if it held "1" |
| Client.BandThresholds | static/js/app.js:69-75 | the badge is a warning above 100, info above 50, else primary, and a larger count never gets a lower band |
| Client.ValidateIpAddress | static/js/app.js:180-205 | the check skips an empty value, rejects a bad format, then rejects an octet outside 0..255 |
| Client.PartialIpPatternSplit | static/js/app.js:187-188 | the pattern holds exactly when splitting at '.' gives three groups of one to three digits |
| Client.IpAccepted | static/js/app.js:182-204 | a value is accepted exactly when its trimmed form has three digit groups, each at most 255 |
| Client.FourPartsRejected | static/js/app.js:187-191 | a value with four dot-separated parts always fails the format check |
| Client.AcceptedSplitsInThree | static/js/app.js:180-205 | an accepted value also has three parts before trimming |
| Client.RangeCheckFails | static/js/app.js:213-219 | the range check fails exactly for two non-zero numbers in the wrong order; NaN or 0 on either side skips it (this unfolds `RangeCheck`; its partner is Agreement.RangeChecksAgree) |
| Client.PasswordStrengthBounds | static/js/app.js:249-260 | a password of 6 or more characters is always strong, one of fewer than 3 never is, and for Basic Multilingual Plane text it is strong exactly when it has at least 6 characters |
| Client.Utf16LengthBmp | static/js/app.js:253 | for text of Basic Multilingual Plane characters, the JavaScript length is the character count |
| Client.PasswordsMatchExact | static/js/app.js:262-270 | the confirmation passes `validatePasswordMatch` exactly when it has the password's length and the same character at every position |
| Client.EmailPatternShape | static/js/app.js:325-328 | an address matches exactly when it has no whitespace, a single '@' that is not first, and a later '.' with characters on both sides |
| Client.FieldValidCases | static/js/app.js:146-178 | a required blank field fails; a filled e-mail field fails unless it matches the pattern; a NaN value or no bounds never fails a number field |
| Client.FailingFieldsExact | static/js/app.js:279-284 | a required field gets an error message exactly when `validateField` rejects it |
| Client.FailingFieldsOrdered | static/js/app.js:279-284 | the rejected fields are visited in document order, each once |
| Client.ValidateForm | static/js/app.js:272-297 | the loop checks every field without stopping early; the result is true exactly when all fields, the class check and the range check pass |
| Client.FormValidFlagged | static/js/app.js:272-297 | the form passes exactly when no field is flagged, some class is ticked and the range check returns true (a missing input counts as a failure) |
| Agreement.CharacterTypesAgree | static/js/app.js:226-247 | the browser's class check fails exactly when the server rejects the request for having no class |
| Agreement.RangeChecksAgree | static/js/app.js:207-224 | for decimal inputs, the browser rejects a range exactly when both ends are non-zero and start > end, and the server then rejects it too |
| Agreement.ZeroSkipsRangeCheck | static/js/app.js:216 | an end number of 0 passes the browser's range check, yet the server rejects start 5 before end 0 |
| Agreement.UserCountAgrees | static/js/app.js:63-66 | for a request the server accepts, the count shown in the browser is the number of users generated |
| Agreement.AcceptedAddressGenerates | routes.py:102-104 | a base address the browser accepts has three parts, so the server uses octet 0 and never raises on it; a valid request with it is generated exactly when the password length fits a `Py_ssize_t` |
| Agreement.FourPartAddressFailsIpCheck | static/js/app.js:187-191 | a four-part base with a real last octet fails `validateIPAddress`'s format test, though the server generates the batch exactly when the password length fits a `Py_ssize_t` |
| Agreement.FormIgnoresTextValue | static/js/app.js:272-297 | `validateForm` only asks a required text input to be filled in, so any other filled-in base IP gives the same verdict: an address the IP check flags is still submitted |
| Agreement.BoundRead | static/js/app.js:160-173 | a required number field bounded by 1 and 254 passes exactly when its number lies in 1..254 |
| Agreement.ClientGuardsServer | static/js/app.js:272-297 | with the start and end inputs bounded by 1 and 254, a form that passes `validateForm` passes all three server checks |

## Left out

- Flask routing, `login_required`, sessions and the database: the session's contents
  and the logged-in user are parameters, and the ActivityLog row is a value that is
  not persisted. The login, logout, admin and activity-log views are not part of this
  model; neither are `app.py` and `models.py`.
- A missing form key (`request.form[...]` raising `KeyError`): the model assumes the six
  text fields are always posted, as the page's form posts them.
- `int()` with non-ASCII Unicode digits: `PyInt.Parse` accepts ASCII digits only.
- Export.Sanitize: `str.isalnum` is modelled for ASCII letters and digits only. Python
  also keeps non-ASCII letters and digits.
- Export.ExportDate: `%Y` is printed as `str(year)`, which matches glibc for years
  1..9999; platforms that zero-pad years below 1000 are not modelled.
- The workbook encoder: fonts, fills, alignment, column letters, `wb.save`, and the
  HTTP response headers. openpyxl's cell setter raises `IllegalCharacterError` for a
  value holding a control character, such as a base name with U+0001 written at
  routes.py:330; `Export.ExportUsersExcel` returns a workbook there instead. The sheet
  is reduced to its cell values, cut to 32767 characters as the cell setter cuts them,
  its widths and the file name. The `try`/`except` around `len(str(cell.value))` is left out, because
  every cell holds a string.
- GeneratorProofs.BatchShape: a password length that fits a `Py_ssize_t` but is far too
  large to allocate makes `random.choices` raise `MemoryError`. The model generates the
  batch there, because available memory is not modelled. The same holds for
  `Generator.Generate` and `GeneratorProofs.PasswordsFromAlphabet`.
- A 32-bit CPython build, where `Py_ssize_t` ends at 2^31; `PyInt.FitsSsize` uses the
  64-bit range.
- Flashed messages and rendered templates are left out; `Generator.Message` keeps the
  three rejection texts.
- JavaScript numbers are unbounded integers. Double-precision rounding of very long
  digit strings, and `parseInt` results such as `Infinity`, are not modelled.
- DOM effects: error messages and classes on fields, the alert banner, copying to the
  clipboard and the event-listener wiring. Only the values the functions return and
  the fields they flag are modelled.
- `validateCharacterTypes` on a page without checkboxes, where `checkboxes[0]` is
  undefined and the call throws: the model assumes the four boxes are on the page.
- Client.PasswordStrengthBounds: `password.length` counts UTF-16 code units. The model
  counts a code point above U+FFFF as two units; lone surrogates cannot occur in a
  Dafny string.
