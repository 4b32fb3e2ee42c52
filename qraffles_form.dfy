/** The second raffle form: the `{d}d {h}h {m}m {s}s` countdown display, the
    amount check through `parseFloat`, the submit guard and the handling of
    the entry route's reply, the countdown tick and the admin login. */
module QRafflesForm {
  import opened Wrappers
  import opened Text
  import RaffleForm
  import RaffleEntry
  import JsValues

  const SecondsPerDay: nat := 86400
  const MinAmount: real := 1000.0
  const AdminLiteral: string := "YOUR_ADMIN_PASSWORD"
  const CorrectErrorsMessage: string := "Please correct the errors before submitting."
  const SubmittedMessage: string := "Entry submitted successfully!"
  const FailedMessage: string := "Failed to submit entry."
  const NetworkErrorMessage: string := "An error occurred. Please try again."

  // ---------------------------------------------------------------------
  // The countdown display

  /** `formatCountdown`: days, hours, minutes and seconds, unpadded, each
      followed by its unit and separated by single spaces. */
  function FormatDhms(seconds: nat): string
  {
    var d := seconds / SecondsPerDay;
    var h := (seconds % SecondsPerDay) / 3600;
    var m := (seconds % 3600) / 60;
    var s := seconds % 60;
    Join([NatToString(d) + "d", NatToString(h) + "h", NatToString(m) + "m", NatToString(s) + "s"], ' ')
  }

  /** The four displayed fields add back up to the seconds, with hours below
      24 and minutes and seconds below 60. */
  lemma DhmsFields(seconds: nat)
    ensures var d, h, m, s := seconds / 86400, (seconds % 86400) / 3600, (seconds % 3600) / 60, seconds % 60;
      && d * 86400 + h * 3600 + m * 60 + s == seconds
      && h < 24 && m < 60 && s < 60
  {
    var d := seconds / 86400;
    var r := seconds % 86400;
    var h := r / 3600;
    var r2 := r % 3600;
    assert seconds == 86400 * d + r;
    assert r == 3600 * h + r2;
    HourRemainder(seconds, 24 * d + h, r2);
    var m := r2 / 60;
    var r3 := r2 % 60;
    assert r2 == 60 * m + r3;
    MinuteRemainder(seconds, 60 * (24 * d + h) + m, r3);
  }

  lemma HourRemainder(a: nat, q: nat, r: nat)
    requires a == 3600 * q + r && r < 3600
    ensures a % 3600 == r
  {
  }

  lemma MinuteRemainder(a: nat, q: nat, r: nat)
    requires a == 60 * q + r && r < 60
    ensures a % 60 == r
  {
  }

  /** One field of the display: digits followed by the unit letter. */
  function FieldValue(part: string, unit: char): Option<nat>
  {
    if |part| >= 2 && part[|part| - 1] == unit && AllDigits(part[..|part| - 1])
    then Some(DigitsValue(part[..|part| - 1])) else None
  }

  /** The seconds a displayed countdown stands for. */
  function ParseDhms(text: string): Option<nat>
  {
    var parts := Split(text, ' ');
    if |parts| != 4 then None
    else
      var d, h, m, s := FieldValue(parts[0], 'd'), FieldValue(parts[1], 'h'),
                        FieldValue(parts[2], 'm'), FieldValue(parts[3], 's');
      if d.Some? && h.Some? && m.Some? && s.Some?
      then Some(d.value * 86400 + h.value * 3600 + m.value * 60 + s.value)
      else None
  }

  lemma UnitField(n: nat, unit: char)
    requires !IsDigit(unit) && unit != ' '
    ensures FieldValue(NatToString(n) + [unit], unit) == Some(n)
    ensures ' ' !in NatToString(n) + [unit]
  {
    var p := NatToString(n) + [unit];
    assert p[..|p| - 1] == NatToString(n);
    NatToStringRoundTrip(n);
    forall j | 0 <= j < |p| ensures p[j] != ' ' {
      if j < |p| - 1 { assert IsDigit(p[j]); }
    }
  }

  /** Reading the display back gives the seconds. */
  lemma DhmsRoundTrip(seconds: nat)
    ensures ParseDhms(FormatDhms(seconds)) == Some(seconds)
  {
    var d, h, m, s := seconds / 86400, (seconds % 86400) / 3600, (seconds % 3600) / 60, seconds % 60;
    DhmsFields(seconds);
    UnitField(d, 'd');
    UnitField(h, 'h');
    UnitField(m, 'm');
    UnitField(s, 's');
    var parts := [NatToString(d) + "d", NatToString(h) + "h", NatToString(m) + "m", NatToString(s) + "s"];
    SplitJoin(parts, ' ');
  }

  // ---------------------------------------------------------------------
  // `parseFloat`

  /** A JavaScript number as `parseFloat` can produce it. Values are exact
      rationals here; double rounding is not modelled. */
  datatype JsNumber = NaN | Finite(value: real) | Infinity(negative: bool)

  /** The length of the run of decimal digits the string starts with. */
  function DigitRun(s: string): (n: nat)
    ensures n <= |s| && AllDigits(s[..n])
    ensures n < |s| ==> !IsDigit(s[n])
  {
    if s != [] && IsDigit(s[0]) then
      assert s[..1 + DigitRun(s[1..])] == [s[0]] + s[1..][..DigitRun(s[1..])];
      1 + DigitRun(s[1..])
    else 0
  }

  /** An exponent part `e`/`E`, an optional sign and at least one digit;
      None when the text does not start with one. */
  function Exponent(s: string): Option<int>
  {
    if |s| >= 2 && (s[0] == 'e' || s[0] == 'E') then
      var neg := s[1] == '-';
      var digits := if s[1] == '+' || s[1] == '-' then s[2..] else s[1..];
      var k := DigitRun(digits);
      if k == 0 then None
      else
        var e: int := DigitsValue(digits[..k]);
        Some(if neg then -e else e)
    else None
  }

  function HasPrefix(s: string, p: string): bool
  {
    |p| <= |s| && s[..|p|] == p
  }

  /** The value of the unsigned decimal literal at the start of `body`:
      integer digits, an optional fraction and an optional exponent, the
      longest such prefix; NaN without any digit. */
  function UnsignedDecimal(body: string): JsNumber
  {
    var i := DigitRun(body);
    var rest := body[i..];
    var dot := |rest| > 0 && rest[0] == '.';
    var f := if dot then DigitRun(rest[1..]) else 0;
    var fraction := if dot then rest[1..][..f] else "";
    var afterFraction := if dot then rest[1 + f..] else rest;
    if i == 0 && f == 0 then NaN
    else
      var magnitude := (DigitsValue(body[..i]) as real) + (DigitsValue(fraction) as real) / (JsValues.Pow10(f) as real);
      match Exponent(afterFraction)
      case None => Finite(magnitude)
      case Some(e) =>
        Finite(if e >= 0 then magnitude * (JsValues.Pow10(e) as real) else magnitude / (JsValues.Pow10(-e) as real))
  }

  /** `parseFloat(s)`: leading white space skipped, an optional sign, then
      `Infinity` or the longest decimal literal. */
  function ParseFloat(s: string): JsNumber
  {
    var t := TrimStart(s);
    var signed := |t| > 0 && (t[0] == '+' || t[0] == '-');
    var neg := signed && t[0] == '-';
    var body := if signed then t[1..] else t;
    if HasPrefix(body, "Infinity") then Infinity(neg)
    else match UnsignedDecimal(body)
      case Finite(v) => Finite(if neg then -v else v)
      case other => other
  }

  /** `parseFloat(amount) >= 1000`; a NaN compares false. */
  function AmountValid(amount: string): (ok: bool)
    ensures ParseFloat(amount).NaN? ==> !ok
    ensures ParseFloat(amount).Finite? ==> (ok <==> ParseFloat(amount).value >= MinAmount)
  {
    match ParseFloat(amount)
    case NaN => false
    case Finite(v) => v >= MinAmount
    case Infinity(negative) => !negative
  }

  lemma {:induction false} DigitRunAll(s: string)
    requires AllDigits(s)
    ensures DigitRun(s) == |s|
  {
    if s != [] {
      DigitRunAll(s[1..]);
    }
  }

  /** A digit run alone is a literal without fraction or exponent. */
  lemma DigitsDecimal(s: string)
    requires s != [] && AllDigits(s)
    ensures UnsignedDecimal(s) == Finite(DigitsValue(s) as real)
  {
    DigitRunAll(s);
    assert s[|s|..] == [] && s[..|s|] == s;
    assert Exponent([]) == None;
  }

  /** A run of digits is a whole number. */
  lemma DigitsParse(s: string)
    requires s != [] && AllDigits(s)
    ensures ParseFloat(s) == Finite(DigitsValue(s) as real)
  {
    assert !IsJsWhitespace(s[0]) && s[0] != '+' && s[0] != '-';
    assert TrimStart(s) == s;
    assert !HasPrefix(s, "Infinity") by {
      if |s| >= 8 { assert s[..8][0] == s[0]; }
    }
    DigitsDecimal(s);
  }

  /** The decimal rendering of a whole number parses back to it, so the
      form accepts such an amount exactly from 1000 on. */
  lemma WholeAmount(n: nat)
    ensures ParseFloat(NatToString(n)) == Finite(n as real)
    ensures AmountValid(NatToString(n)) <==> n >= 1000
  {
    NatToStringRoundTrip(n);
    DigitsParse(NatToString(n));
  }

  /** An empty or blank amount is refused. */
  lemma BlankAmount(s: string)
    requires AllWhitespace(s)
    ensures ParseFloat(s) == NaN && !AmountValid(s)
  {
    TrimEmptyIff(s);
  }

  /** The form checks only the lower bound, while the entry route also wants
      a multiple of 1000: whole amounts such as 1500 pass the form and are
      then refused. */
  lemma FormLooserThanEntryRoute(n: nat)
    requires n >= 1000 && n % 1000 != 0
    ensures AmountValid(NatToString(n))
    ensures !RaffleEntry.ValidAmount(Some(n))
  {
    WholeAmount(n);
  }

  // ---------------------------------------------------------------------
  // The form state

  /** What the form posts to the entry route. */
  datatype EntryRequest = EntryRequest(walletId: string, txId: string, amount: JsNumber)

  /** The entry route's reply as the form sees it: ok, not ok with the
      reply's `message` field if any, or a failed fetch. */
  datatype SubmitResponse = Accepted | Refused(message: Option<string>) | NetworkError

  class QRaffleForm {
    var walletId: string
    var walletIdTouched: bool
    var txId: string
    var txIdTouched: bool
    var amount: string
    var entries: int
    var countdown: int
    var message: string
    var isSuccess: bool
    var showAdminModal: bool
    var adminPassword: string
    var isAdmin: bool

    constructor ()
      ensures walletId == "" && txId == "" && amount == "" && message == ""
      ensures !walletIdTouched && !txIdTouched && !isSuccess && !showAdminModal && !isAdmin
      ensures adminPassword == "" && entries == 0 && countdown == RaffleForm.InitialCountdown
    {
      walletId := "";
      walletIdTouched := false;
      txId := "";
      txIdTouched := false;
      amount := "";
      entries := 0;
      countdown := 3600;
      message := "";
      isSuccess := false;
      showAdminModal := false;
      adminPassword := "";
      isAdmin := false;
    }

    /** The three checks `handleSubmit` applies. */
    predicate InputsValid()
      reads this
    {
      IsWalletId(walletId) && IsTxId(txId) && AmountValid(amount)
    }

    /** `handleSubmit` up to the request: an invalid field sends nothing and
        shows the correction message; otherwise the request carries the two
        ids and the parsed amount. */
    method HandleSubmit() returns (request: Option<EntryRequest>)
      modifies this`message, this`isSuccess
      ensures !old(InputsValid()) ==>
        request == None && message == CorrectErrorsMessage && !isSuccess
      ensures old(InputsValid()) ==>
        && request == Some(EntryRequest(walletId, txId, ParseFloat(amount)))
        && message == old(message) && isSuccess == old(isSuccess)
    {
      if !IsWalletId(walletId) || !IsTxId(txId) || !AmountValid(amount) {
        message := CorrectErrorsMessage;
        isSuccess := false;
        return None;
      }
      return Some(EntryRequest(walletId, txId, ParseFloat(amount)));
    }

    /** `handleSubmit` after the request: success clears the fields; a
        refusal shows the route's message, or a fallback when it is missing
        or empty; a failed fetch shows the error message. */
    method HandleResponse(response: SubmitResponse)
      modifies this`message, this`isSuccess, this`walletId, this`txId, this`amount,
               this`walletIdTouched, this`txIdTouched
      ensures response == Accepted ==>
        && message == SubmittedMessage && isSuccess
        && walletId == "" && txId == "" && amount == "" && !walletIdTouched && !txIdTouched
      ensures response.Refused? ==>
        && !isSuccess
        && message == (if response.message.Some? && response.message.value != "" then response.message.value else FailedMessage)
      ensures response == NetworkError ==> message == NetworkErrorMessage && !isSuccess
      ensures response != Accepted ==>
        && walletId == old(walletId) && txId == old(txId) && amount == old(amount)
        && walletIdTouched == old(walletIdTouched) && txIdTouched == old(txIdTouched)
    {
      match response
      case Accepted =>
        message := SubmittedMessage;
        isSuccess := true;
        walletId := "";
        txId := "";
        amount := "";
        walletIdTouched := false;
        txIdTouched := false;
      case Refused(m) =>
        message := if m.Some? && m.value != "" then m.value else FailedMessage;
        isSuccess := false;
      case NetworkError =>
        message := NetworkErrorMessage;
        isSuccess := false;
    }

    /** `fetchStatus` on an ok reply. */
    method ApplyStatus(newEntries: int, newCountdown: int)
      modifies this`entries, this`countdown
      ensures entries == newEntries && countdown == newCountdown
    {
      entries := newEntries;
      countdown := newCountdown;
    }

    /** The one-second interval, clamped at zero. */
    method Tick()
      modifies this`countdown
      ensures countdown == RaffleForm.CountdownTick(old(countdown))
    {
      countdown := RaffleForm.CountdownTick(countdown);
    }

    /** `handleAdminLogin`: admin mode only for the literal password. */
    method HandleAdminLogin()
      modifies this`isAdmin, this`showAdminModal
      ensures isAdmin <==> old(isAdmin) || adminPassword == AdminLiteral
      ensures adminPassword == AdminLiteral ==> !showAdminModal
      ensures adminPassword != AdminLiteral ==> showAdminModal == old(showAdminModal)
    {
      if adminPassword == AdminLiteral {
        isAdmin := true;
        showAdminModal := false;
      }
    }
  }

  /** What a valid form posts passes the entry route's transaction id and
      wallet checks. */
  lemma ValidInputsPassIdChecks(walletId: string, txId: string)
    requires IsWalletId(walletId) && IsTxId(txId)
    ensures RaffleEntry.ValidTxId(Some(txId)) && RaffleEntry.ValidWallet(Some(walletId))
  {
  }
}
