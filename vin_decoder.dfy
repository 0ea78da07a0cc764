/**
  The VIN form: what the "Decode VIN" button does with the text typed into
  the VIN field (streamlit_vin_decoder.py, `main` and `get_vin`).

  The third-party lookup service is the parameter `service`; a `Run`
  records, besides the outcome shown to the user, every VIN the service was
  asked about, so that "the service is only asked about accepted VINs" is a
  statement about the run itself.
 */
module VinDecoder {
  import opened Wrappers
  import opened PyStr

  const VinLength := 17

  /** What the lookup service does with a VIN: raise, or return (year, make, model). */
  datatype Lookup =
    | Raised(msg: string)
    | Returned(year: Option<string>, make: Option<string>, model: Option<string>)

  /** What the page shows after a press of the button (or without one). */
  datatype Outcome =
    | Idle                           // the button was not pressed
    | EmptyVin                       // "Please enter a VIN ..."
    | LengthError                    // "VIN must be exactly 17 characters long."
    | AlphabetError                  // "VIN must be alpha-numeric and cannot include letters I, O, Q."
    | ServiceError(msg: string)      // "An error occurred while decoding the VIN: <msg>"
    | Incomplete                     // "Incomplete vehicle data returned. ..."
    | Decoded(make: string, model: string, year: string)

  /** The outcome, and the VINs handed to the lookup service, in order. */
  datatype Run = Run(outcome: Outcome, lookups: seq<string>)

  /** Membership in the regular-expression character class `[A-HJ-NPR-Z0-9]`. */
  predicate IsVinChar(c: char) {
    || ('A' <= c <= 'H') || ('J' <= c <= 'N') || c == 'P' || ('R' <= c <= 'Z')
    || ('0' <= c <= '9')
  }

  /** A well-formed VIN: 17 characters, each in the VIN alphabet. */
  ghost predicate IsVin(s: string) {
    |s| == VinLength && forall i :: 0 <= i < |s| ==> IsVinChar(s[i])
  }

  /** Scans `s` left to right for a character outside the class. */
  function AllVinChars(s: string): (r: bool)
    ensures r <==> forall i :: 0 <= i < |s| ==> IsVinChar(s[i])
  {
    s == [] || (IsVinChar(s[0]) && AllVinChars(s[1..]))
  }

  /**
    `re.match(r'^[A-HJ-NPR-Z0-9]{17}$', s)`: seventeen class characters from
    the start, then `$`, which matches at the end or before one final newline.
   */
  function MatchesVinPattern(s: string): (m: bool)
    ensures m <==> IsVin(s) || (|s| == VinLength + 1 && IsVin(s[..VinLength]) && s[VinLength] == '\n')
  {
    assert |s| == VinLength ==> s[..VinLength] == s;
    |s| >= VinLength && AllVinChars(s[..VinLength]) && (s[VinLength..] == [] || s[VinLength..] == "\n")
  }

  /** Python truthiness of a returned field: `None` and `""` are falsy. */
  predicate Truthy(f: Option<string>) {
    f.Some? && f.value != ""
  }

  /** The lookup returned all three fields, each present and non-empty. */
  ghost predicate Complete(l: Lookup) {
    && l.Returned?
    && l.year.Some? && l.make.Some? && l.model.Some?
    && |l.year.value| > 0 && |l.make.value| > 0 && |l.model.value| > 0
  }

  /**
    The `try` block once the VIN is accepted: a raised exception becomes the
    service error with its message; a missing or empty field makes the data
    incomplete and shows no field; otherwise make, model and year are shown
    exactly as returned.
   */
  function ClassifyLookup(l: Lookup): (o: Outcome)
    ensures o.ServiceError? <==> l.Raised?
    ensures l.Raised? ==> o == ServiceError(l.msg)
    ensures o == Incomplete <==> l.Returned? && !Complete(l)
    ensures o.Decoded? <==> Complete(l)
    ensures Complete(l) ==> o == Decoded(l.make.value, l.model.value, l.year.value)
  {
    match l
    case Raised(msg) => ServiceError(msg)
    case Returned(year, make, model) =>
      if !(Truthy(year) && Truthy(make) && Truthy(model)) || (year.None? || make.None? || model.None?) then
        Incomplete
      else
        Decoded(make.value, model.value, year.value)
  }

  /**
    The incompleteness test as written: "not all fields truthy, or some
    field is None". It holds exactly when the returned data is not
    complete, so its `is None` half adds nothing.
   */
  lemma IncompleteTest(year: Option<string>, make: Option<string>, model: Option<string>)
    ensures (!(Truthy(year) && Truthy(make) && Truthy(model)) || year.None? || make.None? || model.None?)
            <==> !Complete(Returned(year, make, model))
  {
  }

  /**
    `get_vin(vin, username)`: the length check first, then the alphabet
    check, and only a VIN that passes both is handed to the service, once.
   */
  function GetVin(vin: string, service: string -> Lookup): (run: Run)
    ensures |vin| != VinLength ==> run == Run(LengthError, [])
    ensures |vin| == VinLength && (exists i :: 0 <= i < |vin| && !IsVinChar(vin[i])) ==> run == Run(AlphabetError, [])
    ensures run.lookups != [] <==> IsVin(vin)
    ensures run.lookups == [] || run.lookups == [vin]
    ensures run.outcome.LengthError? || run.outcome.AlphabetError? <==> !IsVin(vin)
    ensures IsVin(vin) && service(vin).Raised? ==> run.outcome == ServiceError(service(vin).msg)
    ensures IsVin(vin) && service(vin).Returned? && !Complete(service(vin)) ==> run.outcome == Incomplete
    ensures IsVin(vin) && Complete(service(vin)) ==>
              run.outcome == Decoded(service(vin).make.value, service(vin).model.value, service(vin).year.value)
  {
    if |vin| != VinLength then
      Run(LengthError, [])
    else if !MatchesVinPattern(vin) then
      assert vin[..VinLength] == vin;
      Run(AlphabetError, [])
    else
      assert vin[..VinLength] == vin;
      Run(ClassifyLookup(service(vin)), [vin])
  }

  /** `text.strip().upper()`, applied to the VIN field. */
  function Normalise(raw: string): (vin: string)
    ensures |vin| <= |raw|
    ensures Trimmed(vin)
    ensures forall i :: 0 <= i < |vin| ==> !('a' <= vin[i] <= 'z')
    ensures vin == [] <==> AllSpace(raw)
  {
    StripEmptyIff(raw);
    UpperTrimmed(Strip(raw));
    Upper(Strip(raw))
  }

  /**
    The "Decode VIN" button handler in `main`: nothing happens without a
    press; an input that normalises to the empty string is refused without
    calling `get_vin`; anything else goes to `get_vin` normalised.
   */
  function Submit(raw: string, pressed: bool, service: string -> Lookup): (run: Run)
    ensures !pressed ==> run == Run(Idle, [])
    ensures pressed && AllSpace(raw) ==> run == Run(EmptyVin, [])
    ensures pressed && !AllSpace(raw) ==> run == GetVin(Normalise(raw), service)
    ensures run.lookups != [] <==> pressed && IsVin(Normalise(raw))
    ensures run.lookups == [] || run.lookups == [Normalise(raw)]
  {
    var vin := Normalise(raw);
    if !pressed then
      Run(Idle, [])
    else if vin != [] then
      GetVin(vin, service)
    else
      Run(EmptyVin, [])
  }

  /** The alphabet is the upper-case ASCII letters and digits without I, O and Q. */
  lemma VinAlphabet(c: char)
    ensures IsVinChar(c) <==> (('A' <= c <= 'Z') || ('0' <= c <= '9')) && c != 'I' && c != 'O' && c != 'Q'
  {
  }

  /**
    A 17-character VIN holding I, O or Q, or any character that is not an
    upper-case ASCII letter or digit (a lower-case letter, whitespace,
    punctuation, a non-ASCII character), gets the alphabet error.
   */
  lemma ForbiddenCharacterRejected(vin: string, i: nat, service: string -> Lookup)
    requires |vin| == VinLength && i < |vin|
    requires vin[i] in "IOQ" || !(('A' <= vin[i] <= 'Z') || ('0' <= vin[i] <= '9'))
    ensures GetVin(vin, service) == Run(AlphabetError, [])
  {
  }

  /** At length 17 the pattern match is exactly the alphabet test. */
  lemma PatternAtVinLength(s: string)
    requires |s| == VinLength
    ensures MatchesVinPattern(s) <==> IsVin(s)
  {
    assert s[..VinLength] == s;
  }

  /**
    The pattern alone would also accept a VIN followed by a newline; the
    length check, made first, is what rejects it.
   */
  lemma TrailingNewlineCaughtByLength(vin: string, service: string -> Lookup)
    requires IsVin(vin)
    ensures MatchesVinPattern(vin + "\n")
    ensures GetVin(vin + "\n", service) == Run(LengthError, [])
  {
    assert (vin + "\n")[..VinLength] == vin;
    assert (vin + "\n")[VinLength..] == "\n";
  }

  /** Normalising twice is normalising once. */
  lemma NormaliseIdempotent(raw: string)
    ensures Normalise(Normalise(raw)) == Normalise(raw)
  {
    var u := Normalise(raw);
    UpperTrimmed(Strip(raw));
    assert u == [] + u + [];
    StripOfPadded([], u, []);
    UpperIdempotent(Strip(raw));
  }

  /** Typing the already-normalised text gives the very same run. */
  lemma SubmitNormalised(raw: string, pressed: bool, service: string -> Lookup)
    ensures Submit(Normalise(raw), pressed, service) == Submit(raw, pressed, service)
  {
    NormaliseIdempotent(raw);
    StripEmptyIff(raw);
    StripEmptyIff(Normalise(raw));
  }

  /** A character the VIN field accepts in either case: an alphabet character, or a lower-case letter other than i, o and q. */
  ghost predicate IsVinCharAnyCase(c: char) {
    IsVinChar(c) || ('a' <= c <= 'z' && c != 'i' && c != 'o' && c != 'q')
  }

  /** Upper-casing lands in the VIN alphabet exactly for the characters accepted in either case. */
  lemma UpperVinChar(c: char)
    ensures IsVinChar(UpperChar(c)) <==> IsVinCharAnyCase(c)
  {
  }

  /**
    Acceptance of raw input: the stripped text has 17 characters and each of
    them is in the VIN alphabet or is a lower-case letter other than i, o, q.
   */
  lemma AcceptedRawInput(raw: string, service: string -> Lookup)
    ensures Submit(raw, true, service).lookups != [] <==>
              |Strip(raw)| == VinLength && forall i :: 0 <= i < |Strip(raw)| ==> IsVinCharAnyCase(Strip(raw)[i])
  {
    var t := Strip(raw);
    forall i | 0 <= i < |t| ensures IsVinChar(Upper(t)[i]) <==> IsVinCharAnyCase(t[i]) {
      UpperVinChar(t[i]);
    }
  }

  /** The worked examples: one valid VIN, one a character short, one containing Q. */
  lemma Examples(service: string -> Lookup)
    ensures GetVin("1HGCM82633A004352", service).lookups == ["1HGCM82633A004352"]
    ensures GetVin("1HGCM82633A00435", service) == Run(LengthError, [])
    ensures GetVin("1HGCM82633A0Q4352", service) == Run(AlphabetError, [])
  {
    var vin := "1HGCM82633A004352";
    assert forall i :: 0 <= i < |vin| ==> IsVinChar(vin[i]);
    assert "1HGCM82633A0Q4352"[12] == 'Q';
  }

  /**
    A VIN typed in any mix of letter cases, with whitespace before and after
    it, is looked up as the upper-case VIN.
   */
  lemma TypedInAnyCase(front: string, typed: string, back: string, vin: string, service: string -> Lookup)
    requires IsVin(vin) && AllSpace(front) && AllSpace(back)
    requires |typed| == |vin| && forall i :: 0 <= i < |typed| ==> UpperChar(typed[i]) == vin[i]
    ensures Submit(front + typed + back, true, service).lookups == [vin]
  {
    var raw := front + typed + back;
    assert Trimmed(typed) by {
      assert UpperChar(typed[0]) == vin[0] && UpperChar(typed[|typed| - 1]) == vin[|vin| - 1];
    }
    StripOfPadded(front, typed, back);
    assert Normalise(raw) == vin by {
      assert Upper(typed) == vin;
    }
    var run := Submit(raw, true, service);
    assert run.lookups != [];
  }
}
