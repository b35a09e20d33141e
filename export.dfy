/**
 * The `export_users_excel` view of routes.py, without the workbook encoder: which
 * session data it refuses, the two columns it writes, the width it gives each column,
 * and the name of the file it sends.
 */
module Export {
  import opened Wrappers
  import opened Text
  import opened Generator
  import GeneratorProofs

  /**
   * The characters the filename cleaner keeps: `c.isalnum()` for ASCII letters and
   * digits, and the two characters '-' and '_'.
   */
  predicate IsFilenameChar(c: char)
  {
    'a' <= c <= 'z' || 'A' <= c <= 'Z' || '0' <= c <= '9' || c == '-' || c == '_'
  }

  /** Every character of s is one the cleaner keeps. */
  predicate Clean(s: string)
  {
    forall k :: 0 <= k < |s| ==> IsFilenameChar(s[k])
  }

  lemma CleanConcat(a: string, b: string)
    requires Clean(a) && Clean(b)
    ensures Clean(a + b)
  {
    assert forall k :: |a| <= k < |a + b| ==> (a + b)[k] == b[k - |a|];
  }

  /** `''.join(c for c in s if c.isalnum() or c in ('-', '_'))`. */
  function Sanitize(s: string): (t: string)
    ensures |t| <= |s|
    ensures Clean(t)
  {
    if s == [] then "" else (if IsFilenameChar(s[0]) then [s[0]] else "") + Sanitize(s[1..])
  }

  /** Cleaning works character by character: the cleaned halves, side by side. */
  lemma {:induction false} SanitizeConcat(a: string, b: string)
    ensures Sanitize(a + b) == Sanitize(a) + Sanitize(b)
  {
    if a == [] {
      assert a + b == b;
    } else {
      var head := if IsFilenameChar(a[0]) then [a[0]] else "";
      assert (a + b)[0] == a[0] && (a + b)[1..] == a[1..] + b;
      assert Sanitize(a + b) == head + Sanitize(a[1..] + b);
      SanitizeConcat(a[1..], b);
      assert Sanitize(a) == head + Sanitize(a[1..]);
      assert head + (Sanitize(a[1..]) + Sanitize(b)) == (head + Sanitize(a[1..])) + Sanitize(b);
    }
  }

  /** A string made only of kept characters is left as it is. */
  lemma {:induction false} SanitizeKeepsClean(s: string)
    requires Clean(s)
    ensures Sanitize(s) == s
  {
    if s != [] {
      SanitizeKeepsClean(s[1..]);
      assert [s[0]] + s[1..] == s;
    }
  }

  /** Cleaning twice is cleaning once. */
  lemma SanitizeIdempotent(s: string)
    ensures Sanitize(Sanitize(s)) == Sanitize(s)
  {
    SanitizeKeepsClean(Sanitize(s));
  }

  /** A character survives exactly when it is a kept character that occurs in the input. */
  lemma {:induction false} SanitizeMembership(s: string, c: char)
    ensures c in Sanitize(s) <==> c in s && IsFilenameChar(c)
  {
    if s != [] {
      SanitizeMembership(s[1..], c);
      assert c in s <==> c == s[0] || c in s[1..];
    }
  }

  /** Each kept character occurs as often as in the input; every other character is dropped. */
  lemma {:induction false} SanitizeCounts(s: string, c: char)
    ensures Occurrences(Sanitize(s), c) == if IsFilenameChar(c) then Occurrences(s, c) else 0
  {
    if s != [] {
      SanitizeCounts(s[1..], c);
      OccurrencesConcat(if IsFilenameChar(s[0]) then [s[0]] else "", Sanitize(s[1..]), c);
    }
  }

  /** The moment `datetime.now()` returns, field by field. */
  datatype DateTime = DateTime(year: int, month: int, day: int, hour: int, minute: int, second: int)

  predicate ValidDateTime(t: DateTime)
  {
    1 <= t.year <= 9999 && 1 <= t.month <= 12 && 1 <= t.day <= 31
    && 0 <= t.hour <= 23 && 0 <= t.minute <= 59 && 0 <= t.second <= 59
  }

  /** A number below 100 as `strftime` prints `%d`, `%m`, `%H`, `%M` and `%S`: two digits, zero-padded. */
  function Pad2(n: nat): (s: string)
    requires n < 100
    ensures |s| == 2 && AllDigits(s) && DigitsValue(s) == n
  {
    var s := [DigitChar(n / 10), DigitChar(n % 10)];
    assert s[..1] == [DigitChar(n / 10)] && s[..1][..0] == [];
    assert DigitsValue(s[..1]) == n / 10;
    s
  }

  /** `strftime("%d-%m-%Y")`: the year as `str` prints it. */
  function ExportDate(t: DateTime): string
    requires ValidDateTime(t)
  {
    Pad2(t.day) + "-" + Pad2(t.month) + "-" + IntToString(t.year)
  }

  /** `strftime("%H-%M-%S")`. */
  function ExportTime(t: DateTime): string
    requires ValidDateTime(t)
  {
    Pad2(t.hour) + "-" + Pad2(t.minute) + "-" + Pad2(t.second)
  }

  /** `str(n)` holds only digits and perhaps a leading '-'. */
  lemma IntToStringClean(n: int)
    ensures Clean(IntToString(n))
  {
    var digits := NatToString(if n < 0 then -n else n);
    assert Clean(digits);
    if n < 0 {
      CleanConcat("-", digits);
    }
  }

  /** The date and time parts of the file name hold only digits and '-'. */
  lemma StampClean(t: DateTime)
    requires ValidDateTime(t)
    ensures Clean(ExportDate(t)) && Clean(ExportTime(t))
  {
    IntToStringClean(t.year);
    CleanConcat(Pad2(t.day), "-");
    CleanConcat(Pad2(t.day) + "-", Pad2(t.month));
    CleanConcat(Pad2(t.day) + "-" + Pad2(t.month), "-");
    CleanConcat(Pad2(t.day) + "-" + Pad2(t.month) + "-", IntToString(t.year));
    CleanConcat(Pad2(t.hour), "-");
    CleanConcat(Pad2(t.hour) + "-", Pad2(t.minute));
    CleanConcat(Pad2(t.hour) + "-" + Pad2(t.minute), "-");
    CleanConcat(Pad2(t.hour) + "-" + Pad2(t.minute) + "-", Pad2(t.second));
  }

  /** The file name of routes.py:356-360: the part before ".xlsx". */
  function FileStem(base: string, comment: string, count: int, generatedBy: string, t: DateTime): string
    requires ValidDateTime(t)
  {
    Sanitize(base) + "_" + Sanitize(comment) + "_" + IntToString(count) + "users_" + Sanitize(generatedBy)
      + "_" + ExportDate(t) + "_" + ExportTime(t)
  }

  /** The file name of routes.py:360. */
  function FileName(base: string, comment: string, count: int, generatedBy: string, t: DateTime): string
    requires ValidDateTime(t)
  {
    FileStem(base, comment, count, generatedBy, t) + ".xlsx"
  }

  /**
   * The file name for the session's export metadata, with the defaults of routes.py:350-353:
   * base name 'users', comment 'export', the number of users, and the logged-in user.
   */
  function ExportFileName(metadata: Option<ExportMetadata>, userCount: nat, currentUser: string, t: DateTime): string
    requires ValidDateTime(t)
  {
    match metadata
    case None => FileName("users", "export", userCount, currentUser, t)
    case Some(m) => FileName(m.baseName, m.comment, m.usersCount, m.generatedBy, t)
  }

  /** The name before ".xlsx" holds only kept characters, so no '/', '.', space or quote reaches the header. */
  lemma FileNameSafe(base: string, comment: string, count: int, generatedBy: string, t: DateTime)
    requires ValidDateTime(t)
    ensures var name := FileName(base, comment, count, generatedBy, t);
      && |name| >= 5 && name[|name| - 5..] == ".xlsx"
      && forall k :: 0 <= k < |name| - 5 ==> IsFilenameChar(name[k])
  {
    var b, c, g := Sanitize(base), Sanitize(comment), Sanitize(generatedBy);
    var n := IntToString(count);
    var date, time := ExportDate(t), ExportTime(t);
    StampClean(t);
    IntToStringClean(count);
    CleanConcat(b, "_");
    CleanConcat(b + "_", c);
    CleanConcat(b + "_" + c, "_");
    CleanConcat(b + "_" + c + "_", n);
    CleanConcat(b + "_" + c + "_" + n, "users_");
    CleanConcat(b + "_" + c + "_" + n + "users_", g);
    CleanConcat(b + "_" + c + "_" + n + "users_" + g, "_");
    CleanConcat(b + "_" + c + "_" + n + "users_" + g + "_", date);
    CleanConcat(b + "_" + c + "_" + n + "users_" + g + "_" + date, "_");
    CleanConcat(b + "_" + c + "_" + n + "users_" + g + "_" + date + "_", time);
    var stem := FileStem(base, comment, count, generatedBy, t);
    assert Clean(stem);
    var name := stem + ".xlsx";
    assert name[|name| - 5..] == ".xlsx";
    assert forall k :: 0 <= k < |name| - 5 ==> name[k] == stem[k];
  }

  /** The longest string in a column, 0 for an empty column. */
  function MaxLength(column: seq<string>): nat
  {
    if column == [] then 0
    else
      var rest := MaxLength(column[..|column| - 1]);
      if |column[|column| - 1]| > rest then |column[|column| - 1]| else rest
  }

  /** `MaxLength` bounds every cell, and an empty column or some cell attains it. */
  lemma {:induction false} MaxLengthIsMaximum(column: seq<string>)
    ensures forall k :: 0 <= k < |column| ==> |column[k]| <= MaxLength(column)
    ensures column == [] || exists k :: 0 <= k < |column| && |column[k]| == MaxLength(column)
  {
    if column != [] {
      var init := column[..|column| - 1];
      MaxLengthIsMaximum(init);
      assert forall k :: 0 <= k < |init| ==> column[k] == init[k];
      var last := |column| - 1;
      if |column[last]| > MaxLength(init) || init == [] {
        assert |column[last]| == MaxLength(column);
      } else {
        var k :| 0 <= k < |init| && |init[k]| == MaxLength(init);
        assert |column[k]| == MaxLength(column);
      }
    }
  }

  /** `adjusted_width`: two more than the longest cell, capped at 50. */
  function ColumnWidth(column: seq<string>): int
  {
    if MaxLength(column) + 2 < 50 then MaxLength(column) + 2 else 50
  }

  /**
   * The width always lies in [2, 50]; below the cap every cell fits with two characters to
   * spare, and the width is exactly that for the longest cell.
   */
  lemma ColumnWidthBounds(column: seq<string>)
    ensures 2 <= ColumnWidth(column) <= 50
    ensures forall k :: 0 <= k < |column| ==> |column[k]| + 2 <= ColumnWidth(column) || ColumnWidth(column) == 50
    ensures ColumnWidth(column) < 50 ==>
              (column == [] && ColumnWidth(column) == 2)
              || exists k :: 0 <= k < |column| && |column[k]| + 2 == ColumnWidth(column)
  {
    MaxLengthIsMaximum(column);
  }

  /** The inner loop of routes.py:335-344 over one column's cells. */
  method AdjustedWidth(column: seq<string>) returns (width: int)
    ensures width == ColumnWidth(column)
  {
    var maxLength := 0;
    for i := 0 to |column|
      invariant maxLength == MaxLength(column[..i])
    {
      assert column[..i + 1][..i] == column[..i];
      if |column[i]| > maxLength {
        maxLength := |column[i]|;
      }
    }
    assert column[..|column|] == column;
    width := if maxLength + 2 < 50 then maxLength + 2 else 50;
  }

  /** The outer loop of routes.py:334-344: one width per column, in column order. */
  method AutoSize(columns: seq<seq<string>>) returns (widths: seq<int>)
    ensures |widths| == |columns|
    ensures forall k :: 0 <= k < |columns| ==> widths[k] == ColumnWidth(columns[k])
  {
    widths := [];
    for c := 0 to |columns|
      invariant |widths| == c
      invariant forall k :: 0 <= k < c ==> widths[k] == ColumnWidth(columns[k])
    {
      var width := AdjustedWidth(columns[c]);
      widths := widths + [width];
    }
  }

  /** The header row of routes.py:321. */
  const HEADERS: seq<string> := ["Name", "Password"]

  /** What the view answers: a redirect when there is nothing to export, else the sheet and its file name. */
  datatype ExportResult =
    | NoUsers
    | Workbook(title: string, columns: seq<seq<string>>, widths: seq<int>, fileName: string)

  /** The longest string a cell holds: assigning a string value keeps at most this many characters. */
  const MAX_CELL_LENGTH := 32767

  function Min(a: int, b: int): int
  {
    if a <= b then a else b
  }

  /** The value a cell keeps of an assigned string: the string itself, or its first `MAX_CELL_LENGTH` characters. */
  function CellValue(s: string): (v: string)
    ensures |v| == Min(|s|, MAX_CELL_LENGTH) && v <= s
    ensures |s| <= MAX_CELL_LENGTH ==> v == s
  {
    if |s| <= MAX_CELL_LENGTH then s else s[..MAX_CELL_LENGTH]
  }

  function Names(users: seq<User>): (names: seq<string>)
    ensures |names| == |users| && forall k :: 0 <= k < |users| ==> names[k] == CellValue(users[k].name)
  {
    seq(|users|, k requires 0 <= k < |users| => CellValue(users[k].name))
  }

  function Passwords(users: seq<User>): (passwords: seq<string>)
    ensures |passwords| == |users| && forall k :: 0 <= k < |users| ==> passwords[k] == CellValue(users[k].password)
  {
    seq(|users|, k requires 0 <= k < |users| => CellValue(users[k].password))
  }

  /** The two sheet columns, each the header cell above one cell value per user in session order. */
  function SheetColumns(users: seq<User>): seq<seq<string>>
  {
    [[HEADERS[0]] + Names(users), [HEADERS[1]] + Passwords(users)]
  }

  /**
   * The export for the session's `generated_users` (None when the key is absent) and
   * `export_metadata` (None when absent), for the logged-in user at time t.
   */
  function Exporting(users: Option<seq<User>>, metadata: Option<ExportMetadata>, currentUser: string, t: DateTime): ExportResult
    requires ValidDateTime(t)
  {
    if users.None? || users.value == [] then NoUsers
    else
      var columns := SheetColumns(users.value);
      Workbook("Generated Users", columns, [ColumnWidth(columns[0]), ColumnWidth(columns[1])],
               ExportFileName(metadata, |users.value|, currentUser, t))
  }

  /** The body of `export_users_excel`, with the workbook reduced to its cell values and widths. */
  method ExportUsersExcel(users: Option<seq<User>>, metadata: Option<ExportMetadata>, currentUser: string, t: DateTime)
    returns (result: ExportResult)
    requires ValidDateTime(t)
    ensures result == Exporting(users, metadata, currentUser, t)
  {
    if users.None? || users.value == [] {
      return NoUsers;
    }
    var generated := users.value;
    var columns := SheetColumns(generated);
    var widths := AutoSize(columns);
    assert widths == [ColumnWidth(columns[0]), ColumnWidth(columns[1])];
    result := Workbook("Generated Users", columns, widths, ExportFileName(metadata, |generated|, currentUser, t));
  }

  /**
   * The sheet has a 'Name' and a 'Password' column, and row r + 1 holds user r: its name
   * and password as they are, or cut to their first `MAX_CELL_LENGTH` characters when longer.
   */
  lemma SheetLayout(users: seq<User>)
    ensures var columns := SheetColumns(users);
      && |columns| == 2
      && columns[0][0] == "Name" && columns[1][0] == "Password"
      && |columns[0]| == |columns[1]| == |users| + 1
      && (forall r :: 0 <= r < |users| ==>
            && columns[0][r + 1] == CellValue(users[r].name) && columns[1][r + 1] == CellValue(users[r].password)
            && (|users[r].name| <= MAX_CELL_LENGTH ==> columns[0][r + 1] == users[r].name)
            && (|users[r].password| <= MAX_CELL_LENGTH ==> columns[1][r + 1] == users[r].password))
  {
    var columns := SheetColumns(users);
    forall r | 0 <= r < |users|
      ensures columns[0][r + 1] == CellValue(users[r].name) && columns[1][r + 1] == CellValue(users[r].password)
    {
      assert columns[0][r + 1] == Names(users)[r];
      assert columns[1][r + 1] == Passwords(users)[r];
    }
  }

  /** The name of the exported file, with or without metadata, is safe and ends in ".xlsx". */
  lemma ExportFileNameSafe(metadata: Option<ExportMetadata>, userCount: nat, currentUser: string, t: DateTime)
    requires ValidDateTime(t)
    ensures var name := ExportFileName(metadata, userCount, currentUser, t);
      && |name| >= 5 && name[|name| - 5..] == ".xlsx"
      && forall k :: 0 <= k < |name| - 5 ==> IsFilenameChar(name[k])
  {
    match metadata
    case None => FileNameSafe("users", "export", userCount, currentUser, t);
    case Some(m) => FileNameSafe(m.baseName, m.comment, m.usersCount, m.generatedBy, t);
  }

  /**
   * A sheet is written exactly when the session holds users; it then holds their
   * columns, both widths lie in [2, 50], and the file name is safe and ends in ".xlsx".
   */
  lemma ExportShape(users: Option<seq<User>>, metadata: Option<ExportMetadata>, currentUser: string, t: DateTime)
    requires ValidDateTime(t)
    ensures Exporting(users, metadata, currentUser, t).Workbook? <==> users.Some? && users.value != []
    ensures Exporting(users, metadata, currentUser, t).Workbook? ==>
      var e := Exporting(users, metadata, currentUser, t);
      && e.columns == SheetColumns(users.value)
      && |e.widths| == 2 && 2 <= e.widths[0] <= 50 && 2 <= e.widths[1] <= 50
      && e.fileName == ExportFileName(metadata, |users.value|, currentUser, t)
  {
    if users.Some? && users.value != [] {
      var columns := SheetColumns(users.value);
      ColumnWidthBounds(columns[0]);
      ColumnWidthBounds(columns[1]);
    }
  }

  /**
   * Exporting a batch straight after generating it: one row per generated user, and a
   * file name that carries the cleaned base name and comment, the count and the generating user.
   */
  lemma ExportAfterGenerate(req: Request, caller: Caller, now: string, draw: (int, nat) -> nat, currentUser: string, t: DateTime)
    requires ValidDateTime(t)
    requires Generation(req, caller, now, draw).Generated?
    ensures var out := Generation(req, caller, now, draw);
      var e := Exporting(Some(out.users), Some(out.metadata), currentUser, t);
      && e.Workbook?
      && |e.columns[0]| == req.endNumber - req.startNumber + 2
      && e.fileName == FileName(req.baseName, req.comment, req.endNumber - req.startNumber + 1, caller.username, t)
  {
    var out := Generation(req, caller, now, draw);
    GenerationAccepted(req, caller, now, draw, BaseOctet(Split(req.baseIp, '.')).value);
  }

  /**
   * The password column of a batch exported straight after generating it: each cell is the
   * generated password, cut to `MAX_CELL_LENGTH` characters, and uncut when the requested
   * password length is at most that.
   */
  lemma ExportedPasswords(req: Request, caller: Caller, now: string, draw: (int, nat) -> nat, currentUser: string, t: DateTime)
    requires ValidDateTime(t)
    requires Generation(req, caller, now, draw).Generated?
    ensures var out := Generation(req, caller, now, draw);
      var e := Exporting(Some(out.users), Some(out.metadata), currentUser, t);
      && e.Workbook? && |e.columns| == 2 && |e.columns[1]| == |out.users| + 1
      && (forall k :: 0 <= k < |out.users| ==> e.columns[1][k + 1] == CellValue(out.users[k].password))
      && (req.passwordLength <= MAX_CELL_LENGTH ==>
            forall k :: 0 <= k < |out.users| ==> e.columns[1][k + 1] == out.users[k].password)
  {
    var users := Generation(req, caller, now, draw).users;
    ExportShape(Some(users), Some(Generation(req, caller, now, draw).metadata), currentUser, t);
    GeneratorProofs.PasswordsFromAlphabet(req, caller, now, draw);
    PasswordColumn(users, DrawCount(req.passwordLength));
  }

  /** The password column holds each user's password cut to `MAX_CELL_LENGTH`, uncut when all are short enough. */
  lemma PasswordColumn(users: seq<User>, n: nat)
    requires forall k :: 0 <= k < |users| ==> |users[k].password| == n
    ensures |SheetColumns(users)| == 2 && |SheetColumns(users)[1]| == |users| + 1
    ensures forall k :: 0 <= k < |users| ==> SheetColumns(users)[1][k + 1] == CellValue(users[k].password)
    ensures n <= MAX_CELL_LENGTH ==> forall k :: 0 <= k < |users| ==> SheetColumns(users)[1][k + 1] == users[k].password
  {
    SheetLayout(users);
  }
}
