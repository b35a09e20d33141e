/**
 * What the `generator` view promises about one POST, stated over the model's
 * `Generation` function: the order of the checks, the number and names of the
 * generated users, the shape of their addresses and passwords, the text handed
 * to the router, and the logged character types.
 */
module GeneratorProofs {
  import opened Wrappers
  import opened Text
  import PyInt
  import opened Generator

  /** The three checks of the view pass: a class is ticked and 1 <= start <= end <= 254. */
  predicate Valid(req: Request)
  {
    req.charTypes != {} && 1 <= req.startNumber <= req.endNumber <= 254
  }

  /** A request is turned away exactly when a check fails, and the reason named is the first check that fails. */
  lemma RejectionOrder(req: Request, caller: Caller, now: string, draw: (int, nat) -> nat)
    ensures Generation(req, caller, now, draw).Rejected? <==> !Valid(req)
    ensures Generation(req, caller, now, draw) == Rejected(NoCharacterType) <==> req.charTypes == {}
    ensures Generation(req, caller, now, draw) == Rejected(StartAfterEnd)
        <==> req.charTypes != {} && req.startNumber > req.endNumber
    ensures Generation(req, caller, now, draw) == Rejected(RangeOutOfBounds)
        <==> req.charTypes != {} && req.startNumber <= req.endNumber && (req.startNumber < 1 || req.endNumber > 254)
  {
  }

  /**
   * `int(ip_parts[3])` raises exactly for a valid request whose base address has four
   * parts and a fourth part that `int` does not read: not an integer, or more than
   * `MAX_STR_DIGITS` digits. A fourth part printed by `str` never raises.
   */
  lemma OctetFailure(req: Request, caller: Caller, now: string, draw: (int, nat) -> nat)
    ensures Generation(req, caller, now, draw) == OctetUnreadable
        <==> Valid(req) && |Split(req.baseIp, '.')| == 4 && PyInt.Parse(Split(req.baseIp, '.')[3]) == None
    ensures |Split(req.baseIp, '.')| == 4 && (exists o :: Split(req.baseIp, '.')[3] == IntToString(o) && PyInt.WithinDigitLimit(o))
        ==> Generation(req, caller, now, draw) != OctetUnreadable
  {
    var parts := Split(req.baseIp, '.');
    OctetUnreadableExactly(req, caller, now, draw);
    if |parts| == 4 && exists o :: parts[3] == IntToString(o) && PyInt.WithinDigitLimit(o) {
      var o :| parts[3] == IntToString(o) && PyInt.WithinDigitLimit(o);
      PyInt.ParseIntToString(o);
    }
  }

  lemma OctetUnreadableExactly(req: Request, caller: Caller, now: string, draw: (int, nat) -> nat)
    ensures Generation(req, caller, now, draw) == OctetUnreadable
        <==> Valid(req) && BaseOctet(Split(req.baseIp, '.')) == None
  {
    var parts := Split(req.baseIp, '.');
    var out := Generation(req, caller, now, draw);
    if Valid(req) {
      var count := req.endNumber - req.startNumber + 1;
      if BaseOctet(parts).None? {
        assert out == OctetUnreadable;
      } else if !PyInt.FitsSsize(req.passwordLength) {
        assert out == PasswordOverflow;
      } else if !OctetsPrintable(parts, BaseOctet(parts).value, count) {
        assert out == OctetUnprintable;
      } else {
        assert out.Generated?;
      }
    }
  }

  /**
   * `random.choices(charset, k=password_length)` raises `OverflowError` on the loop's first
   * pass exactly for a valid request whose base octet reads and whose password length lies
   * outside the 64-bit `Py_ssize_t` range; a negative length that fits gives empty passwords.
   */
  lemma PasswordOverflowFailure(req: Request, caller: Caller, now: string, draw: (int, nat) -> nat)
    ensures Generation(req, caller, now, draw) == PasswordOverflow
        <==> Valid(req) && BaseOctet(Split(req.baseIp, '.')).Some? && !PyInt.FitsSsize(req.passwordLength)
    ensures Generation(req, caller, now, draw) == PasswordOverflow
        ==> req.passwordLength >= 0x8000_0000_0000_0000 || req.passwordLength < -0x8000_0000_0000_0000
  {
    var parts := Split(req.baseIp, '.');
    var out := Generation(req, caller, now, draw);
    if Valid(req) && BaseOctet(parts).Some? && PyInt.FitsSsize(req.passwordLength) {
      if !OctetsPrintable(parts, BaseOctet(parts).value, req.endNumber - req.startNumber + 1) {
        assert out == OctetUnprintable;
      } else {
        assert out.Generated?;
      }
    }
  }

  /**
   * The records' last parts run from the base octet o to o + count - 1, so `str()` prints
   * all of them exactly when it prints the last one.
   */
  lemma OctetsPrintableLast(parts: seq<string>, o: int, count: int)
    requires |parts| == 4 && count >= 1 && PyInt.WithinDigitLimit(o)
    ensures OctetsPrintable(parts, o, count) <==> PyInt.WithinDigitLimit(o + (count - 1))
  {
    if PyInt.WithinDigitLimit(o + (count - 1)) {
      forall n | o <= n < o + count
        ensures PyInt.WithinDigitLimit(n)
      {
        PyInt.WithinLimitBetween(o, n, o + (count - 1));
      }
    }
  }

  /**
   * The f-string of routes.py:115 raises exactly for a valid request whose four-part base
   * octet o reads and whose password length passes `random.choices`, but whose last record's
   * part o + end - start has more than `MAX_STR_DIGITS` digits.
   */
  lemma OctetPrintFailure(req: Request, caller: Caller, now: string, draw: (int, nat) -> nat)
    ensures Generation(req, caller, now, draw) == OctetUnprintable
        <==> && Valid(req) && |Split(req.baseIp, '.')| == 4 && PyInt.Parse(Split(req.baseIp, '.')[3]).Some?
             && PyInt.FitsSsize(req.passwordLength)
             && !PyInt.WithinDigitLimit(PyInt.Parse(Split(req.baseIp, '.')[3]).value + (req.endNumber - req.startNumber))
  {
    var parts := Split(req.baseIp, '.');
    if Valid(req) && |parts| == 4 && PyInt.Parse(parts[3]).Some? {
      PyInt.ParseWithinLimit(parts[3]);
      OctetsPrintableLast(parts, PyInt.Parse(parts[3]).value, req.endNumber - req.startNumber + 1);
    }
  }

  /** A base octet of a real address, at most three digits, never makes `str()` raise. */
  lemma RealOctetsPrintable(parts: seq<string>, o: int, count: int)
    requires 0 <= o <= 255 && count <= 254
    ensures OctetsPrintable(parts, o, count)
  {
    forall n | o <= n < o + count
      ensures PyInt.WithinDigitLimit(n)
    {
      PyInt.SmallWithinLimit(n);
    }
  }

  /** The users of a generated batch, which every lemma below is about. */
  function GeneratedUsers(req: Request, caller: Caller, now: string, draw: (int, nat) -> nat): seq<User>
    requires Generation(req, caller, now, draw).Generated?
  {
    Generation(req, caller, now, draw).users
  }

  /** The base octet of a generated batch: `int(parts[3])` for a four-part base address, else 0. */
  function Octet(req: Request, caller: Caller, now: string, draw: (int, nat) -> nat): int
    requires Generation(req, caller, now, draw).Generated?
  {
    BaseOctet(Split(req.baseIp, '.')).value
  }

  /**
   * A generated batch has one user per index of the range, at most 254 and at least one;
   * user k is named base name + str(start + k), carries the comment, and has one command line;
   * the log row and the export metadata record the same count and the submitting user.
   */
  lemma BatchShape(req: Request, caller: Caller, now: string, draw: (int, nat) -> nat)
    ensures Generation(req, caller, now, draw).Generated? <==>
      && Valid(req) && BaseOctet(Split(req.baseIp, '.')).Some? && PyInt.FitsSsize(req.passwordLength)
      && OctetsPrintable(Split(req.baseIp, '.'), BaseOctet(Split(req.baseIp, '.')).value, req.endNumber - req.startNumber + 1)
    ensures Generation(req, caller, now, draw).Generated? ==>
      var out := Generation(req, caller, now, draw);
      && |out.users| == req.endNumber - req.startNumber + 1 == out.log.usersGenerated == out.metadata.usersCount
      && 1 <= |out.users| <= 254
      && |out.commands| == |out.users|
      && (forall k :: 0 <= k < |out.users| ==>
            && out.users[k].name == req.baseName + IntToString(req.startNumber + k)
            && out.users[k].comment == req.comment
            && out.commands[k] == CommandLine(out.users[k]))
      && out.log.userId == caller.id && out.metadata.generatedBy == caller.username
      && out.log.startNumber == req.startNumber && out.log.endNumber == req.endNumber
      && out.metadata.exportDate == now
  {
    if Generation(req, caller, now, draw).Generated? {
      GenerationAccepted(req, caller, now, draw, BaseOctet(Split(req.baseIp, '.')).value);
    }
  }

  lemma PrefixCancel(a: string, x: string, y: string)
    requires a + x == a + y
    ensures x == y
  {
    assert x == (a + x)[|a|..];
    assert y == (a + y)[|a|..];
  }

  /** No two users of a batch share a name. */
  lemma UsernamesDistinct(req: Request, caller: Caller, now: string, draw: (int, nat) -> nat)
    requires Generation(req, caller, now, draw).Generated?
    ensures var users := GeneratedUsers(req, caller, now, draw);
      forall j, k :: 0 <= j < k < |users| ==> users[j].name != users[k].name
  {
    var users := GeneratedUsers(req, caller, now, draw);
    BatchShape(req, caller, now, draw);
    forall j, k | 0 <= j < k < |users|
      ensures users[j].name != users[k].name
    {
      var x, y := IntToString(req.startNumber + j), IntToString(req.startNumber + k);
      if users[j].name == users[k].name {
        PrefixCancel(req.baseName, x, y);
        IntToStringInjective(req.startNumber + j, req.startNumber + k);
      }
    }
  }

  /**
   * Every password has `password_length` characters (none when it is not positive), and
   * each character comes from the pool of a selected class.
   */
  lemma PasswordsFromAlphabet(req: Request, caller: Caller, now: string, draw: (int, nat) -> nat)
    requires Generation(req, caller, now, draw).Generated?
    ensures var users := GeneratedUsers(req, caller, now, draw);
      forall k :: 0 <= k < |users| ==>
        && |users[k].password| == DrawCount(req.passwordLength)
        && forall j :: 0 <= j < |users[k].password| ==> users[k].password[j] in Alphabet(req.charTypes)
  {
    GenerationAccepted(req, caller, now, draw, Octet(req, caller, now, draw));
  }

  /** A password character belongs to the pool of one of the selected classes. */
  lemma PasswordCharSelected(req: Request, caller: Caller, now: string, draw: (int, nat) -> nat, k: nat, j: nat)
    requires Generation(req, caller, now, draw).Generated?
    requires k < |GeneratedUsers(req, caller, now, draw)| && j < |GeneratedUsers(req, caller, now, draw)[k].password|
    ensures exists c :: c in req.charTypes && GeneratedUsers(req, caller, now, draw)[k].password[j] in Pool(c)
  {
    PasswordsFromAlphabet(req, caller, now, draw);
    AlphabetMembership(req.charTypes, GeneratedUsers(req, caller, now, draw)[k].password[j]);
  }

  /** User k of a generated batch is the k-th record of the batch, over the selected alphabet. */
  lemma GeneratedUser(req: Request, caller: Caller, now: string, draw: (int, nat) -> nat, k: nat)
    requires Generation(req, caller, now, draw).Generated?
    requires k < |GeneratedUsers(req, caller, now, draw)|
    ensures |Alphabet(req.charTypes)| > 0
    ensures GeneratedUsers(req, caller, now, draw)[k]
         == UserAt(req, Alphabet(req.charTypes), Split(req.baseIp, '.'), Octet(req, caller, now, draw), draw, k)
  {
    GenerationAccepted(req, caller, now, draw, Octet(req, caller, now, draw));
  }

  /** The address of record k for a three-part base "a.b.c" is "a.b.c.str(start + k)". */
  lemma RecordAddressThreePart(req: Request, charset: string, o: int, draw: (int, nat) -> nat, k: nat)
    requires |charset| > 0 && |Split(req.baseIp, '.')| == 3
    ensures Split(UserAt(req, charset, Split(req.baseIp, '.'), o, draw, k).ip, '.')
         == Split(req.baseIp, '.') + [IntToString(req.startNumber + k)]
  {
    var d := IntToString(req.startNumber + k);
    assert UserAt(req, charset, Split(req.baseIp, '.'), o, draw, k).ip == req.baseIp + ['.'] + d;
    IntToStringChars(req.startNumber + k, '.');
    SplitAt(req.baseIp, d, '.');
    SplitWithoutSeparator(d, '.');
  }

  /** With a three-part base "a.b.c", user k gets the address "a.b.c.str(start + k)". */
  lemma AddressesThreePart(req: Request, caller: Caller, now: string, draw: (int, nat) -> nat)
    requires Generation(req, caller, now, draw).Generated?
    requires |Split(req.baseIp, '.')| == 3
    ensures var users := GeneratedUsers(req, caller, now, draw);
      forall k :: 0 <= k < |users| ==>
        Split(users[k].ip, '.') == Split(req.baseIp, '.') + [IntToString(req.startNumber + k)]
  {
    var users := GeneratedUsers(req, caller, now, draw);
    forall k | 0 <= k < |users|
      ensures Split(users[k].ip, '.') == Split(req.baseIp, '.') + [IntToString(req.startNumber + k)]
    {
      GeneratedUser(req, caller, now, draw, k);
      RecordAddressThreePart(req, Alphabet(req.charTypes), Octet(req, caller, now, draw), draw, k);
    }
  }

  /** Splitting "a.b.c.d" where no piece holds a dot gives the four pieces. */
  lemma SplitFour(a: string, b: string, c: string, d: string)
    requires '.' !in a && '.' !in b && '.' !in c && '.' !in d
    ensures Split(a + "." + b + "." + c + "." + d, '.') == [a, b, c, d]
  {
    assert a + "." + b + "." + c + "." + d == a + ['.'] + (b + ['.'] + (c + ['.'] + d));
    SplitAt(a, b + ['.'] + (c + ['.'] + d), '.');
    SplitAt(b, c + ['.'] + d, '.');
    SplitAt(c, d, '.');
    SplitWithoutSeparator(a, '.');
    SplitWithoutSeparator(b, '.');
    SplitWithoutSeparator(c, '.');
    SplitWithoutSeparator(d, '.');
  }

  /** The address of record k for a four-part base "a.b.c.o" is "a.b.c.str(o + k)". */
  lemma RecordAddressFourPart(req: Request, charset: string, o: int, draw: (int, nat) -> nat, k: nat)
    requires |charset| > 0 && |Split(req.baseIp, '.')| == 4
    ensures Split(UserAt(req, charset, Split(req.baseIp, '.'), o, draw, k).ip, '.')
         == Split(req.baseIp, '.')[..3] + [IntToString(o + k)]
  {
    var parts := Split(req.baseIp, '.');
    var d := IntToString(o + k);
    assert UserAt(req, charset, parts, o, draw, k).ip == parts[0] + "." + parts[1] + "." + parts[2] + "." + d;
    IntToStringChars(o + k, '.');
    SplitFour(parts[0], parts[1], parts[2], d);
    assert [parts[0], parts[1], parts[2], d] == parts[..3] + [d];
  }

  /**
   * With a four-part base "a.b.c.o", user k gets "a.b.c.str(o + k)": the last part counts
   * up from the base's own last part, so the first user gets it unchanged.
   */
  lemma AddressesFourPart(req: Request, caller: Caller, now: string, draw: (int, nat) -> nat)
    requires Generation(req, caller, now, draw).Generated?
    requires |Split(req.baseIp, '.')| == 4
    ensures var users := GeneratedUsers(req, caller, now, draw);
      var parts := Split(req.baseIp, '.');
      && PyInt.Parse(parts[3]) == Some(Octet(req, caller, now, draw))
      && forall k :: 0 <= k < |users| ==>
           Split(users[k].ip, '.') == parts[..3] + [IntToString(Octet(req, caller, now, draw) + k)]
  {
    var users := GeneratedUsers(req, caller, now, draw);
    forall k | 0 <= k < |users|
      ensures Split(users[k].ip, '.') == Split(req.baseIp, '.')[..3] + [IntToString(Octet(req, caller, now, draw) + k)]
    {
      GeneratedUser(req, caller, now, draw, k);
      RecordAddressFourPart(req, Alphabet(req.charTypes), Octet(req, caller, now, draw), draw, k);
    }
  }

  /** When the base's last part is written as `str` writes it, the first user's address is the base itself. */
  lemma FirstAddressIsBase(req: Request, caller: Caller, now: string, draw: (int, nat) -> nat, o: int)
    requires Generation(req, caller, now, draw).Generated?
    requires |Split(req.baseIp, '.')| == 4 && Split(req.baseIp, '.')[3] == IntToString(o)
    ensures GeneratedUsers(req, caller, now, draw)[0].ip == req.baseIp
  {
    PyInt.ParseIntToString(o);
    assert PyInt.WithinDigitLimit(o);
    assert Octet(req, caller, now, draw) == o;
    BatchShape(req, caller, now, draw);
    GeneratedUser(req, caller, now, draw, 0);
    RecordZeroIsBase(req, Alphabet(req.charTypes), o, draw);
  }

  /** Record 0 of a four-part base "a.b.c.str(o)" counted from octet o has the base address. */
  lemma RecordZeroIsBase(req: Request, charset: string, o: int, draw: (int, nat) -> nat)
    requires |charset| > 0
    requires |Split(req.baseIp, '.')| == 4 && Split(req.baseIp, '.')[3] == IntToString(o)
    ensures UserAt(req, charset, Split(req.baseIp, '.'), o, draw, 0).ip == req.baseIp
  {
    var parts := Split(req.baseIp, '.');
    var ip := UserAt(req, charset, parts, o, draw, 0).ip;
    RecordAddressFourPart(req, charset, o, draw, 0);
    assert Split(ip, '.') == parts[..3] + [IntToString(o + 0)];
    assert parts[..3] + [parts[3]] == parts;
    JoinSplit(req.baseIp, '.');
    JoinSplit(ip, '.');
  }

  /** With any other number of parts the base address is given to every user unchanged. */
  lemma AddressesOtherShape(req: Request, caller: Caller, now: string, draw: (int, nat) -> nat)
    requires Generation(req, caller, now, draw).Generated?
    requires |Split(req.baseIp, '.')| != 3 && |Split(req.baseIp, '.')| != 4
    ensures var users := GeneratedUsers(req, caller, now, draw);
      forall k :: 0 <= k < |users| ==> users[k].ip == req.baseIp
  {
    var users := GeneratedUsers(req, caller, now, draw);
    forall k | 0 <= k < |users|
      ensures users[k].ip == req.baseIp
    {
      GeneratedUser(req, caller, now, draw, k);
    }
  }

  /** A record's command line holds no newline when the alphabet and the submitted name, address and comment hold none. */
  lemma RecordWithoutNewline(req: Request, charset: string, o: int, draw: (int, nat) -> nat, k: nat)
    requires |charset| > 0 && '\n' !in charset
    requires '\n' !in req.baseName && '\n' !in req.baseIp && '\n' !in req.comment
    ensures '\n' !in CommandLine(UserAt(req, charset, Split(req.baseIp, '.'), o, draw, k))
  {
    var i := req.startNumber + k;
    var u := UserAt(req, charset, Split(req.baseIp, '.'), o, draw, k);
    IntToStringChars(i, '\n');
    assert '\n' !in u.name;
    PasswordWithoutNewline(charset, req.passwordLength, draw, i);
    AddressWithoutNewline(req.baseIp, o, req.startNumber, i);
    CommandLineWithoutNewline(u);
  }

  lemma CommandLineWithoutNewline(u: User)
    requires '\n' !in u.comment && '\n' !in u.ip && '\n' !in u.name && '\n' !in u.password
    ensures '\n' !in CommandLine(u)
  {
  }

  lemma PasswordWithoutNewline(charset: string, length: int, draw: (int, nat) -> nat, i: int)
    requires |charset| > 0 && '\n' !in charset
    ensures '\n' !in Password(charset, length, draw, i)
  {
    var p := Password(charset, length, draw, i);
    forall m | 0 <= m < |p| ensures p[m] != '\n' {
      assert p[m] in charset;
    }
  }

  lemma AddressWithoutNewline(baseIp: string, o: int, start: int, i: int)
    requires '\n' !in baseIp
    ensures '\n' !in UserIp(baseIp, Split(baseIp, '.'), o, start, i)
  {
    var parts := Split(baseIp, '.');
    IntToStringChars(i, '\n');
    IntToStringChars(o + i - start, '\n');
    if |parts| == 4 {
      forall m | 0 <= m < 3
        ensures '\n' !in parts[m]
      {
        if '\n' in parts[m] {
          SplitChars(baseIp, '.', m, '\n');
        }
      }
    }
  }

  /** The selected alphabet holds no newline. */
  lemma AlphabetWithoutNewline(selected: set<CharClass>)
    ensures '\n' !in Alphabet(selected)
  {
    if '\n' in Alphabet(selected) {
      AlphabetPrintable(selected, '\n');
    }
  }

  /**
   * The text for the router is the header line followed by one line per command,
   * as long as the submitted name, address and comment hold no newline.
   */
  lemma CommandTextLines(req: Request, caller: Caller, now: string, draw: (int, nat) -> nat)
    requires Generation(req, caller, now, draw).Generated?
    requires '\n' !in req.baseName && '\n' !in req.baseIp && '\n' !in req.comment
    ensures var out := Generation(req, caller, now, draw);
      Split(out.text, '\n') == [HEADER] + out.commands
  {
    var out := Generation(req, caller, now, draw);
    BatchShape(req, caller, now, draw);
    AlphabetWithoutNewline(req.charTypes);
    forall k | 0 <= k < |out.commands|
      ensures '\n' !in out.commands[k]
    {
      GeneratedUser(req, caller, now, draw, k);
      RecordWithoutNewline(req, Alphabet(req.charTypes), Octet(req, caller, now, draw), draw, k);
    }
    SplitJoin(out.commands, '\n');
    SplitWithoutSeparator(HEADER, '\n');
    SplitAt(HEADER, Join(out.commands, "\n"), '\n');
  }

  /** A class's name is listed exactly when the class is selected. */
  lemma ClassNamesMembership(selected: set<CharClass>, c: CharClass)
    ensures ClassName(c) in ClassNames(SelectedTypes(selected)) <==> c in selected
  {
    var types := SelectedTypes(selected);
    var names := ClassNames(types);
    SelectedMembership(selected, c);
    if ClassName(c) in names {
      var k :| 0 <= k < |names| && names[k] == ClassName(c);
      ClassNameInjective(types[k], c);
    }
    if c in types {
      var k :| 0 <= k < |types| && types[k] == c;
      assert names[k] == ClassName(c);
    }
  }

  /** Two classes share a name only when they are the same class: the names start with different letters. */
  lemma ClassNameInjective(a: CharClass, b: CharClass)
    requires ClassName(a) == ClassName(b)
    ensures a == b
  {
    assert ClassName(a)[0] == ClassName(b)[0];
  }

  lemma ClassNameWithoutComma(c: CharClass)
    ensures ',' !in ClassName(c)
  {
    match c
    case Uppercase => assert ClassName(c) == "uppercase";
    case Lowercase => assert ClassName(c) == "lowercase";
    case Numbers => assert ClassName(c) == "numbers";
    case Special => assert ClassName(c) == "special";
  }

  /** Joining the names of a non-empty selection with commas and splitting again gives the names back. */
  lemma ClassNamesRoundTrip(selected: set<CharClass>)
    requires selected != {}
    ensures Split(Join(ClassNames(SelectedTypes(selected)), ","), ',') == ClassNames(SelectedTypes(selected))
  {
    var types := SelectedTypes(selected);
    var names := ClassNames(types);
    EmptySelection(selected);
    forall k | 0 <= k < |names|
      ensures ',' !in names[k]
    {
      ClassNameWithoutComma(types[k]);
    }
    SplitJoin(names, ',');
  }

  /** The logged `character_types` lists the selected class names, in the fixed order, comma-separated. */
  lemma LoggedCharacterTypes(req: Request, caller: Caller, now: string, draw: (int, nat) -> nat)
    requires Generation(req, caller, now, draw).Generated?
    ensures var names := Split(Generation(req, caller, now, draw).log.characterTypes, ',');
      && names == ClassNames(SelectedTypes(req.charTypes))
      && forall c :: ClassName(c) in names <==> c in req.charTypes
  {
    GenerationAccepted(req, caller, now, draw, Octet(req, caller, now, draw));
    ClassNamesRoundTrip(req.charTypes);
    forall c
      ensures ClassName(c) in ClassNames(SelectedTypes(req.charTypes)) <==> c in req.charTypes
    {
      ClassNamesMembership(req.charTypes, c);
    }
  }
}
