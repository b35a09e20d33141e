/**
 * The hotspot credential-batch generator behind the `generator` view of routes.py.
 *
 * A POST names a base user name, a base IP address, a comment, an inclusive range
 * [start_number, end_number], a password length and a set of character classes.
 * The view rejects bad parameters in a fixed order, builds the password alphabet,
 * produces one user record and one RouterOS `/ip hotspot user` command line per
 * index, and writes one ActivityLog row. Flask plumbing, the database session and
 * the session store are left out; `random.choices` is replaced by a caller-supplied
 * `draw` function, so every possible random outcome is one choice of `draw`.
 */
module Generator {
  import opened Wrappers
  import opened Text
  import PyInt

  datatype CharClass = Uppercase | Lowercase | Numbers | Special

  /** The position of a class in the fixed order uppercase, lowercase, numbers, special. */
  function Rank(c: CharClass): nat
  {
    match c
    case Uppercase => 0
    case Lowercase => 1
    case Numbers => 2
    case Special => 3
  }

  /** The `n` consecutive characters starting at `first`. */
  function CharRange(first: char, n: nat): (s: string)
    requires first as int + n <= 0xD800
    ensures |s| == n && forall i :: 0 <= i < n ==> s[i] as int == first as int + i
  {
    seq(n, i requires 0 <= i < n => (first as int + i) as char)
  }

  /** Python's `string.ascii_uppercase`, "A" to "Z". */
  function AsciiUppercase(): string { CharRange('A', 26) }

  /** Python's `string.ascii_lowercase`, "a" to "z". */
  function AsciiLowercase(): string { CharRange('a', 26) }

  /** Python's `string.digits`, "0" to "9". */
  function Digits(): string { CharRange('0', 10) }

  const SPECIAL: string := "!@#$%^&*"

  /** The number of characters in a class's pool. */
  function PoolSize(c: CharClass): nat
  {
    match c
    case Uppercase => 26
    case Lowercase => 26
    case Numbers => 10
    case Special => 8
  }

  /** The characters one class contributes to the alphabet. */
  function Pool(c: CharClass): (p: string)
    ensures |p| == PoolSize(c)
  {
    match c
    case Uppercase => AsciiUppercase()
    case Lowercase => AsciiLowercase()
    case Numbers => Digits()
    case Special => SPECIAL
  }

  /** The name a class has in the form and in the logged `character_types`. */
  function ClassName(c: CharClass): string
  {
    match c
    case Uppercase => "uppercase"
    case Lowercase => "lowercase"
    case Numbers => "numbers"
    case Special => "special"
  }

  /** The class a pool character comes from; used to show that the pools are disjoint. */
  function ClassOf(c: char): CharClass
  {
    if 'A' <= c <= 'Z' then Uppercase
    else if 'a' <= c <= 'z' then Lowercase
    else if '0' <= c <= '9' then Numbers
    else Special
  }

  /** The one-element list `[c]` when c is selected, else the empty list. */
  function Choice(selected: set<CharClass>, c: CharClass): seq<CharClass>
  {
    if c in selected then [c] else []
  }

  /** The pool of c when c is selected, else the empty string. */
  function Contribution(selected: set<CharClass>, c: CharClass): string
  {
    if c in selected then Pool(c) else ""
  }

  /** The `char_types` list: exactly the selected classes, each once, in the fixed order. */
  function SelectedTypes(selected: set<CharClass>): seq<CharClass>
  {
    Choice(selected, Uppercase) + (Choice(selected, Lowercase) + (Choice(selected, Numbers) + Choice(selected, Special)))
  }

  /** A class is listed exactly when it is selected. */
  lemma SelectedMembership(selected: set<CharClass>, c: CharClass)
    ensures c in SelectedTypes(selected) <==> c in selected
  {
    var u, l, n, s := Choice(selected, Uppercase), Choice(selected, Lowercase), Choice(selected, Numbers), Choice(selected, Special);
    assert c in SelectedTypes(selected) <==> c in u || c in l || c in n || c in s;
  }

  /** The listed classes follow the fixed order, so none is listed twice. */
  lemma SelectedOrdered(selected: set<CharClass>)
    ensures forall i, j :: 0 <= i < j < |SelectedTypes(selected)| ==> Rank(SelectedTypes(selected)[i]) < Rank(SelectedTypes(selected)[j])
  {
    var u, l, n, s := Choice(selected, Uppercase), Choice(selected, Lowercase), Choice(selected, Numbers), Choice(selected, Special);
    assert SelectedTypes(selected) == u + (l + (n + s));
  }

  /** A selection is empty exactly when none of the four classes is in it. */
  lemma EmptySelection(selected: set<CharClass>)
    ensures selected == {} <==> SelectedTypes(selected) == []
  {
    if selected != {} {
      var c :| c in selected;
      SelectedMembership(selected, c);
    }
  }

  function ClassNames(types: seq<CharClass>): (names: seq<string>)
  {
    seq(|types|, k requires 0 <= k < |types| => ClassName(types[k]))
  }

  /** The pools of the given classes, concatenated in the given order. */
  function AlphabetOf(types: seq<CharClass>): string
  {
    if types == [] then "" else Pool(types[0]) + AlphabetOf(types[1..])
  }

  /** The `charset` of routes.py:86-94: the pools of the selected classes, in the fixed order. */
  function Alphabet(selected: set<CharClass>): string
  {
    AlphabetOf(SelectedTypes(selected))
  }

  /** The alphabet's size is the sum of the selected pools' sizes: 26, 26, 10 and 8. */
  lemma AlphabetLength(selected: set<CharClass>)
    ensures |Alphabet(selected)| == (if Uppercase in selected then 26 else 0) + (if Lowercase in selected then 26 else 0)
                                  + (if Numbers in selected then 10 else 0) + (if Special in selected then 8 else 0)
  {
    AlphabetExpanded(selected);
  }

  /** The alphabet is empty exactly when no class is selected. */
  lemma AlphabetNonEmpty(selected: set<CharClass>)
    ensures |Alphabet(selected)| > 0 <==> selected != {}
  {
    AlphabetLength(selected);
    if selected != {} {
      var c :| c in selected;
      assert c.Uppercase? || c.Lowercase? || c.Numbers? || c.Special?;
    }
  }

  /** The alphabet, one class at a time, as the `charset +=` steps append it. */
  lemma AlphabetExpanded(selected: set<CharClass>)
    ensures AlphabetOf(SelectedTypes(selected))
         == Contribution(selected, Uppercase) + (Contribution(selected, Lowercase)
          + (Contribution(selected, Numbers) + Contribution(selected, Special)))
  {
    var u, l, n, s := Choice(selected, Uppercase), Choice(selected, Lowercase), Choice(selected, Numbers), Choice(selected, Special);
    AlphabetOfConcat(u, l + (n + s));
    AlphabetOfConcat(l, n + s);
    AlphabetOfConcat(n, s);
    AlphabetOfChoice(selected, Uppercase);
    AlphabetOfChoice(selected, Lowercase);
    AlphabetOfChoice(selected, Numbers);
    AlphabetOfChoice(selected, Special);
  }

  lemma AlphabetOfChoice(selected: set<CharClass>, c: CharClass)
    ensures AlphabetOf(Choice(selected, c)) == Contribution(selected, c)
  {
    if c in selected {
      assert [c][1..] == [];
    }
  }

  lemma {:induction false} AlphabetOfConcat(a: seq<CharClass>, b: seq<CharClass>)
    ensures AlphabetOf(a + b) == AlphabetOf(a) + AlphabetOf(b)
  {
    if a != [] {
      assert (a + b)[1..] == a[1..] + b;
      AlphabetOfConcat(a[1..], b);
    } else {
      assert a + b == b;
    }
  }

  /** Every character of a pool is recognised as belonging to that pool's class. */
  lemma PoolClass(c: CharClass, k: nat)
    requires k < |Pool(c)|
    ensures ClassOf(Pool(c)[k]) == c
  {
    if c == Special {
      assert SPECIAL[k] in "!@#$%^&*";
    }
  }

  /** A character is in the alphabet of some classes exactly when it is in the pool of one of them. */
  lemma {:induction false} AlphabetOfMembership(types: seq<CharClass>, ch: char)
    ensures ch in AlphabetOf(types) <==> exists k :: 0 <= k < |types| && ch in Pool(types[k])
  {
    if types != [] {
      AlphabetOfMembership(types[1..], ch);
      assert forall k :: 1 <= k < |types| ==> types[k] == types[1..][k - 1];
      if ch in Pool(types[0]) {
        assert 0 < |types| && ch in Pool(types[0]);
      } else if exists k :: 0 <= k < |types[1..]| && ch in Pool(types[1..][k]) {
        var k :| 0 <= k < |types[1..]| && ch in Pool(types[1..][k]);
        assert ch in Pool(types[k + 1]);
      }
    }
  }

  /** The alphabet holds exactly the characters of the selected classes' pools. */
  lemma AlphabetMembership(selected: set<CharClass>, ch: char)
    ensures ch in Alphabet(selected) <==> exists c :: c in selected && ch in Pool(c)
  {
    var types := SelectedTypes(selected);
    AlphabetOfMembership(types, ch);
    if exists c :: c in selected && ch in Pool(c) {
      var c :| c in selected && ch in Pool(c);
      SelectedMembership(selected, c);
      var k :| 0 <= k < |types| && types[k] == c;
    }
    if exists k :: 0 <= k < |types| && ch in Pool(types[k]) {
      var k :| 0 <= k < |types| && ch in Pool(types[k]);
      SelectedMembership(selected, types[k]);
    }
  }

  /** Pool characters are visible ASCII, from '!' to 'z': no space, no newline. */
  lemma PoolPrintable(c: CharClass, k: nat)
    requires k < |Pool(c)|
    ensures '!' <= Pool(c)[k] <= 'z'
  {
    if c == Special {
      assert SPECIAL[k] in "!@#$%^&*";
    }
  }

  /** Every alphabet character is visible ASCII. */
  lemma AlphabetPrintable(selected: set<CharClass>, ch: char)
    requires ch in Alphabet(selected)
    ensures '!' <= ch <= 'z'
  {
    AlphabetMembership(selected, ch);
    var c :| c in selected && ch in Pool(c);
    var k :| 0 <= k < |Pool(c)| && Pool(c)[k] == ch;
    PoolPrintable(c, k);
  }

  lemma PoolDistinct(c: CharClass)
    ensures forall i, j :: 0 <= i < j < |Pool(c)| ==> Pool(c)[i] != Pool(c)[j]
  {
  }

  /** Over classes listed in the fixed order, the alphabet repeats no character. */
  lemma {:induction false} AlphabetOfDistinct(types: seq<CharClass>)
    requires forall i, j :: 0 <= i < j < |types| ==> Rank(types[i]) < Rank(types[j])
    ensures forall i, j :: 0 <= i < j < |AlphabetOf(types)| ==> AlphabetOf(types)[i] != AlphabetOf(types)[j]
  {
    if types != [] {
      var head, rest := Pool(types[0]), AlphabetOf(types[1..]);
      var a := AlphabetOf(types);
      AlphabetOfDistinct(types[1..]);
      PoolDistinct(types[0]);
      assert a == head + rest;
      forall i, j | 0 <= i < |head| <= j < |a|
        ensures a[i] != a[j]
      {
        PoolClass(types[0], i);
        AlphabetOfMembership(types[1..], a[j]);
        assert a[j] == rest[j - |head|] && a[j] in rest;
        var k :| 0 <= k < |types[1..]| && a[j] in Pool(types[1..][k]);
        var m :| 0 <= m < |Pool(types[1..][k])| && Pool(types[1..][k])[m] == a[j];
        PoolClass(types[1..][k], m);
        assert Rank(types[0]) < Rank(types[k + 1]);
      }
    }
  }

  /** The alphabet has no duplicate characters. */
  lemma AlphabetDistinct(selected: set<CharClass>)
    ensures forall i, j :: 0 <= i < j < |Alphabet(selected)| ==> Alphabet(selected)[i] != Alphabet(selected)[j]
  {
    SelectedOrdered(selected);
    AlphabetOfDistinct(SelectedTypes(selected));
  }

  /** The form fields of one POST to the generator, after `int()` of the three numbers. */
  datatype Request = Request(
    baseName: string,
    baseIp: string,
    comment: string,
    startNumber: int,
    endNumber: int,
    passwordLength: int,
    charTypes: set<CharClass>)

  /**
   * The raw form of one POST, as strings: `request.form` for the six text fields, and
   * the ticked character-type boxes (a box is in the form exactly when it is ticked).
   */
  datatype Submission = Submission(
    baseName: string,
    baseIp: string,
    comment: string,
    startNumber: string,
    endNumber: string,
    passwordLength: string,
    checked: set<CharClass>)

  /**
   * routes.py:52-57: the three numbers go through `int()`; `None` when one of them raises
   * `ValueError`, before any check runs. Selecting the boxes in a fixed order only fixes
   * the order of `char_types`, which `SelectedTypes` recomputes.
   */
  function ReadRequest(form: Submission): Option<Request>
  {
    var start, end, length := PyInt.Parse(form.startNumber), PyInt.Parse(form.endNumber), PyInt.Parse(form.passwordLength);
    if start.Some? && end.Some? && length.Some? then
      Some(Request(form.baseName, form.baseIp, form.comment, start.value, end.value, length.value, form.checked))
    else None
  }

  /** The form a browser posts for a request: each number printed in decimal. */
  function Posted(req: Request): Submission
  {
    Submission(req.baseName, req.baseIp, req.comment,
               IntToString(req.startNumber), IntToString(req.endNumber), IntToString(req.passwordLength),
               req.charTypes)
  }

  /**
   * Reading the posted form of a request gives the request back, exactly when each of
   * its three numbers has at most `MAX_STR_DIGITS` digits; otherwise `int()` raises.
   */
  lemma ReadPosted(req: Request)
    ensures ReadRequest(Posted(req)).Some?
        <==> PyInt.WithinDigitLimit(req.startNumber) && PyInt.WithinDigitLimit(req.endNumber)
             && PyInt.WithinDigitLimit(req.passwordLength)
    ensures ReadRequest(Posted(req)).Some? ==> ReadRequest(Posted(req)) == Some(req)
  {
    PyInt.ParseIntToString(req.startNumber);
    PyInt.ParseIntToString(req.endNumber);
    PyInt.ParseIntToString(req.passwordLength);
  }

  /** The logged-in user who submits the request. */
  datatype Caller = Caller(id: int, username: string)

  /** One generated hotspot user, as stored for the spreadsheet export. */
  datatype User = User(name: string, password: string, ip: string, comment: string)

  /** The field values of the ActivityLog row written for a batch (the timestamp is set by the database). */
  datatype Activity = Activity(
    userId: int,
    baseName: string,
    baseIp: string,
    comment: string,
    startNumber: int,
    endNumber: int,
    passwordLength: int,
    characterTypes: string,
    usersGenerated: int)

  /** The `export_metadata` values kept for a later spreadsheet export. */
  datatype ExportMetadata = ExportMetadata(
    baseName: string,
    comment: string,
    usersCount: int,
    generatedBy: string,
    exportDate: string)

  datatype Rejection = NoCharacterType | StartAfterEnd | RangeOutOfBounds

  /** The flashed error message of each rejection. */
  function Message(r: Rejection): string
  {
    match r
    case NoCharacterType => "Please select at least one character type."
    case StartAfterEnd => "Start number cannot be greater than end number."
    case RangeOutOfBounds => "IP range must be between 1 and 254."
  }

  /**
   * What one POST produces: a rejection (nothing generated, nothing logged); the
   * `ValueError` of `int(ip_parts[3])` when the fourth part of a four-part base IP is not
   * integer text within the digit limit; the `OverflowError` of `random.choices` on the
   * first pass of the loop when the password length does not fit a `Py_ssize_t`; the
   * `ValueError` of the f-string of routes.py:115 when a record's last address part has
   * too many digits for `str`; or the generated batch with its commands, log row and
   * export metadata. The three errors end the request with nothing logged and nothing stored.
   */
  datatype Outcome =
    | Rejected(reason: Rejection)
    | OctetUnreadable
    | PasswordOverflow
    | OctetUnprintable
    | Generated(users: seq<User>, commands: seq<string>, text: string, log: Activity, metadata: ExportMetadata)

  /** The number of draws `random.choices(charset, k=length)` makes: none when k <= 0. */
  function DrawCount(length: int): nat
  {
    if length > 0 then length else 0
  }

  /**
   * The password of user i: `random.choices(charset, k=length)` joined, where the
   * j-th choice is the character at `draw(i, j)`, taken modulo the alphabet size.
   */
  function Password(charset: string, length: int, draw: (int, nat) -> nat, i: int): string
    requires |charset| > 0
  {
    seq(DrawCount(length), j requires 0 <= j < DrawCount(length) => charset[draw(i, j) % |charset|])
  }

  /**
   * The address of user i. `parts` is the base IP split at '.', and `baseOctet` is
   * `int(parts[3])` when there are four parts.
   */
  function UserIp(baseIp: string, parts: seq<string>, baseOctet: int, start: int, i: int): string
  {
    if |parts| == 3 then baseIp + "." + IntToString(i)
    else if |parts| == 4 then parts[0] + "." + parts[1] + "." + parts[2] + "." + IntToString(baseOctet + i - start)
    else baseIp
  }

  /** The k-th record of a batch, for index i = start_number + k. */
  function UserAt(req: Request, charset: string, parts: seq<string>, baseOctet: int, draw: (int, nat) -> nat, k: nat): User
    requires |charset| > 0
  {
    var i := req.startNumber + k;
    User(req.baseName + IntToString(i), Password(charset, req.passwordLength, draw, i),
         UserIp(req.baseIp, parts, baseOctet, req.startNumber, i), req.comment)
  }

  /** The first n records of a batch, in ascending index order. */
  function Batch(req: Request, charset: string, parts: seq<string>, baseOctet: int, draw: (int, nat) -> nat, n: nat): seq<User>
    requires |charset| > 0
  {
    seq(n, k requires 0 <= k < n => UserAt(req, charset, parts, baseOctet, draw, k))
  }

  /** The command line for one user, fields inserted verbatim. */
  function CommandLine(u: User): string
  {
    " add comment=" + u.comment + " address=" + u.ip + " name=" + u.name + " password=" + u.password
  }

  /** One command line per user, in the same order. */
  function Commands(users: seq<User>): seq<string>
  {
    seq(|users|, k requires 0 <= k < |users| => CommandLine(users[k]))
  }

  const HEADER: string := "/ip hotspot user"

  /** `commands_text`: the header line, then the command lines joined by newlines. */
  function CommandsText(commands: seq<string>): string
  {
    HEADER + "\n" + Join(commands, "\n")
  }

  /** `base_ip_int` of routes.py:104: `int(parts[3])` for a four-part address, else 0; `None` when `int` raises. */
  function BaseOctet(parts: seq<string>): Option<int>
  {
    if |parts| == 4 then PyInt.Parse(parts[3]) else Some(0)
  }

  /**
   * `str()` can print the last address part of each of the `count` records. For a
   * four-part base, record k's last part is base octet + k (routes.py:115).
   */
  predicate OctetsPrintable(parts: seq<string>, baseOctet: int, count: int)
  {
    |parts| != 4 || forall n :: baseOctet <= n < baseOctet + count ==> PyInt.WithinDigitLimit(n)
  }

  /** One more printable last part extends the printable prefix of the records. */
  lemma OctetsPrintableStep(parts: seq<string>, baseOctet: int, m: nat)
    requires OctetsPrintable(parts, baseOctet, m)
    requires |parts| == 4 ==> PyInt.WithinDigitLimit(baseOctet + m)
    ensures OctetsPrintable(parts, baseOctet, m + 1)
  {
  }

  /** A last part that cannot be printed, before record `count`, makes the whole batch unprintable. */
  lemma OctetsPrintableStop(parts: seq<string>, baseOctet: int, m: nat, count: int)
    requires |parts| == 4 && m < count && !PyInt.WithinDigitLimit(baseOctet + m)
    ensures !OctetsPrintable(parts, baseOctet, count)
  {
  }

  /** The result of one POST to the generator, as the view computes it. */
  function Generation(req: Request, caller: Caller, now: string, draw: (int, nat) -> nat): Outcome
  {
    if req.charTypes == {} then Rejected(NoCharacterType)
    else if req.startNumber > req.endNumber then Rejected(StartAfterEnd)
    else if req.startNumber < 1 || req.endNumber > 254 then Rejected(RangeOutOfBounds)
    else
      var parts := Split(req.baseIp, '.');
      var octet := BaseOctet(parts);
      var count := req.endNumber - req.startNumber + 1;
      if octet.None? then OctetUnreadable
      else if !PyInt.FitsSsize(req.passwordLength) then PasswordOverflow
      else if !OctetsPrintable(parts, octet.value, count) then OctetUnprintable
      else
        AlphabetNonEmpty(req.charTypes);
        var charset := Alphabet(req.charTypes);
        var users := Batch(req, charset, parts, octet.value, draw, count);
        var commands := Commands(users);
        Generated(users, commands, CommandsText(commands),
                  Activity(caller.id, req.baseName, req.baseIp, req.comment, req.startNumber, req.endNumber,
                           req.passwordLength, Join(ClassNames(SelectedTypes(req.charTypes)), ","), count),
                  ExportMetadata(req.baseName, req.comment, count, caller.username, now))
  }

  /** What an accepted request generates, once the base octet is known. */
  lemma GenerationAccepted(req: Request, caller: Caller, now: string, draw: (int, nat) -> nat, baseOctet: int)
    requires req.charTypes != {} && 1 <= req.startNumber <= req.endNumber <= 254
    requires BaseOctet(Split(req.baseIp, '.')) == Some(baseOctet)
    requires PyInt.FitsSsize(req.passwordLength)
    requires OctetsPrintable(Split(req.baseIp, '.'), baseOctet, req.endNumber - req.startNumber + 1)
    ensures |Alphabet(req.charTypes)| > 0
    ensures
      var charset := Alphabet(req.charTypes);
      var count := req.endNumber - req.startNumber + 1;
      var users := Batch(req, charset, Split(req.baseIp, '.'), baseOctet, draw, count);
      Generation(req, caller, now, draw)
      == Generated(users, Commands(users), CommandsText(Commands(users)),
                   Activity(caller.id, req.baseName, req.baseIp, req.comment, req.startNumber, req.endNumber,
                            req.passwordLength, Join(ClassNames(SelectedTypes(req.charTypes)), ","), count),
                   ExportMetadata(req.baseName, req.comment, count, caller.username, now))
  {
    AlphabetNonEmpty(req.charTypes);
  }

  /** The `char_types` list of routes.py:61-69, one `append` per ticked box. */
  method CollectTypes(selected: set<CharClass>) returns (charTypes: seq<CharClass>)
    ensures charTypes == SelectedTypes(selected)
  {
    var u, l, n, s := Choice(selected, Uppercase), Choice(selected, Lowercase), Choice(selected, Numbers), Choice(selected, Special);
    charTypes := [];
    if Uppercase in selected { charTypes := charTypes + [Uppercase]; }
    assert charTypes == u;
    if Lowercase in selected { charTypes := charTypes + [Lowercase]; }
    assert charTypes == u + l;
    if Numbers in selected { charTypes := charTypes + [Numbers]; }
    assert charTypes == (u + l) + n;
    if Special in selected { charTypes := charTypes + [Special]; }
    assert charTypes == ((u + l) + n) + s;
    Associative(u, l, n, s);
  }

  /** The `charset +=` steps of routes.py:86-94, one pool per listed class. */
  method BuildCharset(ghost selected: set<CharClass>, charTypes: seq<CharClass>) returns (charset: string)
    requires charTypes == SelectedTypes(selected)
    ensures charset == Alphabet(selected)
  {
    var u, l, n, s := Contribution(selected, Uppercase), Contribution(selected, Lowercase),
                      Contribution(selected, Numbers), Contribution(selected, Special);
    SelectedMembership(selected, Uppercase);
    SelectedMembership(selected, Lowercase);
    SelectedMembership(selected, Numbers);
    SelectedMembership(selected, Special);
    charset := "";
    if Uppercase in charTypes { charset := charset + AsciiUppercase(); }
    assert charset == u;
    if Lowercase in charTypes { charset := charset + AsciiLowercase(); }
    assert charset == u + l;
    if Numbers in charTypes { charset := charset + Digits(); }
    assert charset == (u + l) + n;
    if Special in charTypes { charset := charset + SPECIAL; }
    assert charset == ((u + l) + n) + s;
    Associative(u, l, n, s);
    AlphabetExpanded(selected);
  }

  /**
   * The body of the `generator` view for a POST: validation, the alphabet, the
   * per-index loop, and the activity row and text built from its results.
   */
  method Generate(req: Request, caller: Caller, now: string, draw: (int, nat) -> nat) returns (r: Outcome)
    ensures r == Generation(req, caller, now, draw)
  {
    var charTypes := CollectTypes(req.charTypes);
    EmptySelection(req.charTypes);

    if charTypes == [] {
      return Rejected(NoCharacterType);
    }
    if req.startNumber > req.endNumber {
      return Rejected(StartAfterEnd);
    }
    if req.startNumber < 1 || req.endNumber > 254 {
      return Rejected(RangeOutOfBounds);
    }
    r := GenerateValid(req, caller, now, draw, charTypes);
  }

  /**
   * The rest of the view once the three checks have passed (routes.py:86-160): the charset,
   * the base octet, the loop, the activity row and the text.
   */
  method GenerateValid(req: Request, caller: Caller, now: string, draw: (int, nat) -> nat, charTypes: seq<CharClass>)
    returns (r: Outcome)
    requires charTypes == SelectedTypes(req.charTypes)
    requires req.charTypes != {} && 1 <= req.startNumber <= req.endNumber <= 254
    ensures r == Generation(req, caller, now, draw)
  {
    var charset := BuildCharset(req.charTypes, charTypes);
    AlphabetNonEmpty(req.charTypes);

    var usersCount := req.endNumber - req.startNumber + 1;
    var ipParts := Split(req.baseIp, '.');
    var baseIpInt := 0;
    if |ipParts| == 4 {
      var parsed := PyInt.Parse(ipParts[3]);
      if parsed.None? {
        return OctetUnreadable;
      }
      baseIpInt := parsed.value;
    }

    var users, commands, failure := GenerateUsers(req, charset, ipParts, baseIpInt, draw);
    if failure.Some? {
      return failure.value;
    }

    var activity := Activity(caller.id, req.baseName, req.baseIp, req.comment, req.startNumber, req.endNumber,
                             req.passwordLength, Join(ClassNames(charTypes), ","), usersCount);
    var metadata := ExportMetadata(req.baseName, req.comment, usersCount, caller.username, now);
    var commandsText := "/ip hotspot user\n" + Join(commands, "\n");
    assert "/ip hotspot user\n" == HEADER + "\n";
    r := Generated(users, commands, commandsText, activity, metadata);
    GenerationAccepted(req, caller, now, draw, baseIpInt);
  }

  /**
   * The loop of routes.py:107-131, reached once the three checks have passed: one user and
   * one command line per index, in ascending order. `failure` is the error that stops the
   * loop: the `OverflowError` of the first pass's `random.choices`, or a `ValueError` from `str()`.
   */
  method GenerateUsers(req: Request, charset: string, ipParts: seq<string>, baseIpInt: int, draw: (int, nat) -> nat)
    returns (users: seq<User>, commands: seq<string>, failure: Option<Outcome>)
    requires |charset| > 0
    requires 1 <= req.startNumber <= req.endNumber <= 254
    ensures failure == Some(PasswordOverflow) <==> !PyInt.FitsSsize(req.passwordLength)
    ensures failure == Some(OctetUnprintable)
        <==> PyInt.FitsSsize(req.passwordLength) && !OctetsPrintable(ipParts, baseIpInt, req.endNumber - req.startNumber + 1)
    ensures failure.None?
        <==> PyInt.FitsSsize(req.passwordLength) && OctetsPrintable(ipParts, baseIpInt, req.endNumber - req.startNumber + 1)
    ensures failure.None? ==> users == Batch(req, charset, ipParts, baseIpInt, draw, req.endNumber - req.startNumber + 1)
    ensures failure.None? ==> commands == Commands(users)
  {
    users, commands := [], [];
    for i := req.startNumber to req.endNumber + 1
      invariant |users| == |commands| == i - req.startNumber
      invariant forall k :: 0 <= k < |users| ==> users[k] == UserAt(req, charset, ipParts, baseIpInt, draw, k)
      invariant forall k :: 0 <= k < |users| ==> commands[k] == CommandLine(users[k])
      invariant |users| > 0 ==> PyInt.FitsSsize(req.passwordLength)
      invariant OctetsPrintable(ipParts, baseIpInt, |users|)
    {
      var stop, user, command := GenerateUser(req, charset, ipParts, baseIpInt, draw, i);
      if stop.Some? {
        if stop == Some(OctetUnprintable) {
          OctetsPrintableStop(ipParts, baseIpInt, |users|, req.endNumber - req.startNumber + 1);
        }
        return users, commands, stop;
      }
      OctetsPrintableStep(ipParts, baseIpInt, |users|);
      users := users + [user];
      commands := commands + [command];
    }
    failure := None;
  }

  /**
   * One pass of the loop body, routes.py:109-131: the password, address and name of index i,
   * and its command line. `stop` is the error that ends the pass: `random.choices` raises
   * `OverflowError` when `k` does not fit a `Py_ssize_t`, and `str()` of a four-part address's
   * last part raises `ValueError` past the digit limit. The index is at most 254, so `str(i)`
   * itself never raises.
   */
  method GenerateUser(req: Request, charset: string, ipParts: seq<string>, baseIpInt: int, draw: (int, nat) -> nat, i: int)
    returns (stop: Option<Outcome>, user: User, command: string)
    requires |charset| > 0
    requires req.startNumber <= i <= 254
    ensures stop == Some(PasswordOverflow) <==> !PyInt.FitsSsize(req.passwordLength)
    ensures stop == Some(OctetUnprintable)
        <==> PyInt.FitsSsize(req.passwordLength) && |ipParts| == 4 && !PyInt.WithinDigitLimit(baseIpInt + (i - req.startNumber))
    ensures stop.None?
        <==> PyInt.FitsSsize(req.passwordLength) && (|ipParts| != 4 || PyInt.WithinDigitLimit(baseIpInt + (i - req.startNumber)))
    ensures stop.None? ==> user == UserAt(req, charset, ipParts, baseIpInt, draw, i - req.startNumber)
    ensures stop.None? ==> command == CommandLine(user)
  {
    user, command := User("", "", "", ""), "";
    if !PyInt.FitsSsize(req.passwordLength) {
      return Some(PasswordOverflow), user, command;
    }
    var password := Password(charset, req.passwordLength, draw, i);
    var userIp;
    if |ipParts| == 3 {
      userIp := req.baseIp + "." + IntToString(i);
    } else if |ipParts| == 4 {
      var last := PyInt.Str(baseIpInt + i - req.startNumber);
      if last.None? {
        return Some(OctetUnprintable), user, command;
      }
      userIp := ipParts[0] + "." + ipParts[1] + "." + ipParts[2] + "." + last.value;
    } else {
      userIp := req.baseIp;
    }
    var username := req.baseName + IntToString(i);
    stop, user := None, User(username, password, userIp, req.comment);
    command := " add comment=" + req.comment + " address=" + userIp + " name=" + username + " password=" + password;
  }

  lemma Associative<T>(a: seq<T>, b: seq<T>, c: seq<T>, d: seq<T>)
    ensures ((a + b) + c) + d == a + (b + (c + d))
  {
  }
}
