/**
 * How the browser-side checks of static/js/app.js relate to the server-side checks of
 * the `generator` view in routes.py, for a form whose number fields hold the decimal
 * text the browser posts.
 */
module Agreement {
  import opened Wrappers
  import opened Text
  import opened Generator
  import opened Client
  import GeneratorProofs
  import PyInt

  /** Decimal text has no surrounding whitespace, so `trim()` leaves it alone. */
  lemma TrimIntToString(n: int)
    ensures Trim(IntToString(n)) == IntToString(n)
  {
    var s := IntToString(n);
    var digits := NatToString(if n < 0 then -n else n);
    assert s[0] == '-' || IsDigit(s[0]);
    assert IsDigit(s[|s| - 1]);
  }

  /** The client and the server agree on the character-type check. */
  lemma CharacterTypesAgree(req: Request, caller: Caller, now: string, draw: (int, nat) -> nat)
    ensures CharacterTypesValid(req.charTypes) <==> Generation(req, caller, now, draw) != Rejected(NoCharacterType)
  {
  }

  /**
   * For decimal text, the client's range check fails exactly when both numbers are
   * non-zero and in the wrong order; the server then rejects the request with the
   * same complaint, provided a character type is ticked.
   */
  lemma RangeChecksAgree(req: Request, caller: Caller, now: string, draw: (int, nat) -> nat)
    ensures var form := Posted(req);
      RangeCheck(Some(form.startNumber), Some(form.endNumber)) == RangeFails
      <==> req.startNumber != 0 && req.endNumber != 0 && req.startNumber > req.endNumber
    ensures var form := Posted(req);
      RangeCheck(Some(form.startNumber), Some(form.endNumber)) == RangeFails && req.charTypes != {}
      ==> Generation(req, caller, now, draw) == Rejected(StartAfterEnd)
  {
    ParseIntJsIntToString(req.startNumber);
    ParseIntJsIntToString(req.endNumber);
  }

  /** A zero end number skips the client's range check, while the server refuses the range. */
  lemma ZeroSkipsRangeCheck(caller: Caller, now: string, draw: (int, nat) -> nat)
    ensures var req := Request("user", "10.0.0", "", 5, 0, 8, {Lowercase});
      && RangeCheck(Some(Posted(req).startNumber), Some(Posted(req).endNumber)) == RangePasses
      && Generation(req, caller, now, draw) == Rejected(StartAfterEnd)
  {
    var req := Request("user", "10.0.0", "", 5, 0, 8, {Lowercase});
    ParseIntJsIntToString(5);
    ParseIntJsIntToString(0);
  }

  /** For a valid request, the count the page shows is the number of users the server generates. */
  lemma UserCountAgrees(req: Request, caller: Caller, now: string, draw: (int, nat) -> nat)
    requires Generation(req, caller, now, draw).Generated?
    ensures UserCount(Posted(req).startNumber, Posted(req).endNumber) == |Generation(req, caller, now, draw).users|
  {
    GeneratorProofs.BatchShape(req, caller, now, draw);
    ParseIntJsIntToString(req.startNumber);
    ParseIntJsIntToString(req.endNumber);
  }

  /**
   * A base address the client accepts has three parts, so the server takes octet 0
   * for it and never fails on `int(ip_parts[3])`: a valid request with it is generated
   * exactly when its password length passes `random.choices`.
   */
  lemma AcceptedAddressGenerates(req: Request, caller: Caller, now: string, draw: (int, nat) -> nat)
    requires IpCheck(req.baseIp) == Accepted
    requires GeneratorProofs.Valid(req)
    ensures BaseOctet(Split(req.baseIp, '.')) == Some(0)
    ensures Generation(req, caller, now, draw).Generated? <==> PyInt.FitsSsize(req.passwordLength)
  {
    AcceptedSplitsInThree(req.baseIp);
    GeneratorProofs.BatchShape(req, caller, now, draw);
  }

  /**
   * A four-part base address whose last part is a real octet, which the server accepts,
   * fails the format test of `validateIPAddress`, though the server generates the batch
   * whenever the password length passes `random.choices`.
   */
  lemma FourPartAddressFailsIpCheck(req: Request, caller: Caller, now: string, draw: (int, nat) -> nat, o: int)
    requires GeneratorProofs.Valid(req)
    requires Trim(req.baseIp) == req.baseIp
    requires var parts := Split(req.baseIp, '.'); |parts| == 4 && parts[3] == IntToString(o)
    requires 0 <= o <= 255
    ensures IpCheck(req.baseIp) == BadFormat
    ensures Generation(req, caller, now, draw).Generated? <==> PyInt.FitsSsize(req.passwordLength)
  {
    FourPartsRejected(req.baseIp);
    PyInt.SmallWithinLimit(o);
    PyInt.ParseIntToString(o);
    GeneratorProofs.RealOctetsPrintable(Split(req.baseIp, '.'), o, req.endNumber - req.startNumber + 1);
    GeneratorProofs.BatchShape(req, caller, now, draw);
  }

  /**
   * `validateForm` never runs `validateIPAddress`: a required text input, such as the base
   * IP, only has to be filled in, so putting any other filled-in text in it leaves the
   * verdict unchanged. An address the IP check flags is still submitted.
   */
  lemma FormIgnoresTextValue(form: Form, i: nat, v: string)
    requires i < |form.requiredFields| && form.requiredFields[i].kind == OtherField
    requires Trim(v) != [] && Trim(form.requiredFields[i].value) != []
    ensures var changed := form.(requiredFields := form.requiredFields[i := form.requiredFields[i].(value := v)]);
      FormValid(Some(changed)) == FormValid(Some(form))
  {
    var fields := form.requiredFields;
    var changed := form.(requiredFields := fields[i := fields[i].(value := v)]);
    FieldValidCases(fields[i]);
    FieldValidCases(changed.requiredFields[i]);
    assert forall k :: 0 <= k < |fields| ==> (FieldValid(changed.requiredFields[k]) <==> FieldValid(fields[k]));
  }

  /** A number input that is required and bounded by `min` = 1 and `max` = 254, holding decimal text. */
  predicate BoundedNumberField(f: Field, n: int)
  {
    f == Field(NumberField, true, IntToString(n), Some("1"), Some("254"))
  }

  /**
   * When the start and end inputs are required number fields bounded by 1 and 254, a form
   * that `validateForm` passes describes a request that the server's three checks accept.
   */
  lemma ClientGuardsServer(form: Form, req: Request, i: nat, j: nat)
    requires i < |form.requiredFields| && j < |form.requiredFields|
    requires BoundedNumberField(form.requiredFields[i], req.startNumber)
    requires BoundedNumberField(form.requiredFields[j], req.endNumber)
    requires form.checked == req.charTypes
    requires form.startValue == Some(IntToString(req.startNumber))
    requires form.endValue == Some(IntToString(req.endNumber))
    requires FormValid(Some(form))
    ensures GeneratorProofs.Valid(req)
  {
    BoundRead(form.requiredFields[i], req.startNumber);
    BoundRead(form.requiredFields[j], req.endNumber);
    ParseIntJsIntToString(req.startNumber);
    ParseIntJsIntToString(req.endNumber);
  }

  /** A bounded number field passes `validateField` exactly when its number lies in 1..254. */
  lemma BoundRead(f: Field, n: int)
    requires BoundedNumberField(f, n)
    ensures FieldValid(f) <==> 1 <= n <= 254
  {
    TrimIntToString(n);
    ParseIntJsIntToString(n);
    NumberFieldValid(f);
    BoundLiterals();
  }

  /** The two bounds as `parseInt` reads them. */
  lemma BoundLiterals()
    ensures ParseIntJs("1") == Some(1) && ParseIntJs("254") == Some(254)
  {
    ParseIntJsDigits("1", false);
    assert DigitsValue("1") == 1;
    ParseIntJsDigits("254", false);
    assert DigitsValue("254") == 254 by {
      assert "254"[..2] == "25" && "25"[..1] == "2";
    }
  }

  /** A filled number field passes `validateField` exactly when its value is not below `min` nor above `max`. */
  lemma NumberFieldValid(f: Field)
    requires f.kind == NumberField && Trim(f.value) != []
    ensures FieldValid(f) <==>
      !Less(ParseIntJs(Trim(f.value)), AttributeNumber(f.minAttr)) && !Less(AttributeNumber(f.maxAttr), ParseIntJs(Trim(f.value)))
  {
  }
}
