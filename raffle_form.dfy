/** The raffle entry form: the `HH:MM:SS` countdown display, the wallet and
    transaction id patterns, the one-second countdown tick with its restore
    at zero, and the guard on the submit button. */
module RaffleForm {
  import opened Wrappers
  import opened Text
  import RaffleEntry

  const InitialCountdown: int := 3600

  // ---------------------------------------------------------------------
  // The clock display

  /** `formatCountdown`: hours, minutes and seconds, each taken with
      `Math.floor` of a non-negative quotient and padded to two digits,
      joined by `:`. */
  function FormatClock(secs: nat): string
  {
    ClockText(secs / 3600, (secs % 3600) / 60, secs % 60)
  }

  function ClockText(h: nat, m: nat, s: nat): string
  {
    Join([Pad2(h), Pad2(m), Pad2(s)], ':')
  }

  /** The three displayed fields add back up to the seconds, and minutes and
      seconds stay below 60. */
  lemma ClockFields(secs: nat)
    ensures var h, m, s := secs / 3600, (secs % 3600) / 60, secs % 60;
      h * 3600 + m * 60 + s == secs && m < 60 && s < 60
  {
  }

  /** The number of seconds a displayed clock stands for; None when the text
      is not three colon-separated digit fields. */
  function ParseClock(text: string): Option<nat>
  {
    FieldsValue(Split(text, ':'))
  }

  /** The seconds three digit fields stand for. */
  function FieldsValue(parts: seq<string>): Option<nat>
  {
    if |parts| == 3 && AllDigits(parts[0]) && AllDigits(parts[1]) && AllDigits(parts[2])
    then Some(DigitsValue(parts[0]) * 3600 + DigitsValue(parts[1]) * 60 + DigitsValue(parts[2]))
    else None
  }

  /** A padded field holds only digits and reads back as its number, and is
      exactly two characters below 100. */
  lemma Pad2Value(n: nat)
    ensures AllDigits(Pad2(n)) && DigitsValue(Pad2(n)) == n
    ensures n < 100 ==> |Pad2(n)| == 2
  {
    if n < 100 {
      Pad2RoundTrip(n);
    } else {
      assert NatToString(n) == NatToString(n / 10) + [DigitChar(n % 10)];
      assert Pad2(n) == NatToString(n);
      NatToStringRoundTrip(n);
    }
  }

  /** Reading the display back gives the number of seconds: no two
      countdown values look alike. */
  lemma ClockRoundTrip(secs: nat)
    ensures ParseClock(FormatClock(secs)) == Some(secs)
  {
    ClockFields(secs);
    FieldsReadBack(secs, secs / 3600, (secs % 3600) / 60, secs % 60);
  }

  /** Three padded fields joined by colons read back as their total. */
  lemma FieldsReadBack(total: nat, h: nat, m: nat, s: nat)
    requires h * 3600 + m * 60 + s == total
    ensures ParseClock(ClockText(h, m, s)) == Some(total)
  {
    var a, b, c := Pad2(h), Pad2(m), Pad2(s);
    Pad2Value(h);
    Pad2Value(m);
    Pad2Value(s);
    ReadBackParts(total, h, m, s, a, b, c);
  }

  lemma ReadBackParts(total: nat, h: nat, m: nat, s: nat, a: string, b: string, c: string)
    requires h * 3600 + m * 60 + s == total
    requires AllDigits(a) && AllDigits(b) && AllDigits(c)
    requires DigitsValue(a) == h && DigitsValue(b) == m && DigitsValue(c) == s
    ensures ParseClock(Join([a, b, c], ':')) == Some(total)
  {
    ParseFields(a, b, c);
  }

  lemma JoinThree(a: string, b: string, c: string)
    ensures Join([a, b, c], ':') == a + ":" + b + ":" + c
  {
    var parts := [a, b, c];
    assert Join(parts[1..], ':') == b + ":" + c by {
      assert parts[1..][1..] == [c];
    }
  }

  /** Three digit fields joined by colons read back field by field. */
  lemma ParseFields(a: string, b: string, c: string)
    requires AllDigits(a) && AllDigits(b) && AllDigits(c)
    ensures ParseClock(Join([a, b, c], ':')) == Some(DigitsValue(a) * 3600 + DigitsValue(b) * 60 + DigitsValue(c))
  {
    var parts := [a, b, c];
    assert Split(Join(parts, ':'), ':') == parts by {
      NoColon(a);
      NoColon(b);
      NoColon(c);
      assert forall i :: 0 <= i < |parts| ==> ':' !in parts[i];
      SplitJoin(parts, ':');
    }
    ParseParts(Join(parts, ':'), parts);
    ThreeFields(a, b, c);
  }

  lemma ParseParts(text: string, parts: seq<string>)
    requires Split(text, ':') == parts
    ensures ParseClock(text) == FieldsValue(parts)
  {
  }

  lemma ThreeFields(a: string, b: string, c: string)
    requires AllDigits(a) && AllDigits(b) && AllDigits(c)
    ensures FieldsValue([a, b, c]) == Some(DigitsValue(a) * 3600 + DigitsValue(b) * 60 + DigitsValue(c))
  {
    var parts := [a, b, c];
    assert parts[0] == a && parts[1] == b && parts[2] == c;
  }

  lemma NoColon(a: string)
    requires AllDigits(a)
    ensures ':' !in a
  {
    forall j | 0 <= j < |a| ensures a[j] != ':' {
      assert IsDigit(a[j]);
    }
  }

  /** The display is always `HH:MM:SS` below 100 hours. */
  lemma ClockWidth(secs: nat)
    requires secs < 360000
    ensures |FormatClock(secs)| == 8
    ensures FormatClock(secs)[2] == ':' && FormatClock(secs)[5] == ':'
  {
    var h, m, s := secs / 3600, (secs % 3600) / 60, secs % 60;
    Pad2Value(h);
    Pad2Value(m);
    Pad2Value(s);
    JoinThree(Pad2(h), Pad2(m), Pad2(s));
    TwoDigitFields(Pad2(h), Pad2(m), Pad2(s));
  }

  lemma TwoDigitFields(a: string, b: string, c: string)
    requires |a| == 2 && |b| == 2 && |c| == 2
    ensures var f := a + ":" + b + ":" + c; |f| == 8 && f[2] == ':' && f[5] == ':'
  {
  }

  // ---------------------------------------------------------------------
  // The countdown

  /** The interval's update: one second less, never below zero. */
  function CountdownTick(c: int): (r: nat)
    ensures c > 0 ==> r == c - 1
    ensures c <= 0 ==> r == 0
  {
    if c > 0 then c - 1 else 0
  }

  /** The countdown after n ticks. */
  function Ticks(c: int, n: nat): int
  {
    if n == 0 then c else CountdownTick(Ticks(c, n - 1))
  }

  /** n ticks take n seconds off, down to zero and no further. */
  lemma {:induction false} TicksClamp(c: nat, n: nat)
    ensures Ticks(c, n) == Max(0, c - n)
  {
    if n > 0 {
      TicksClamp(c, n - 1);
    }
  }

  /** The countdown state of the form. The effect that watches the
      countdown runs after each change. */
  class Countdown {
    var countdown: int

    ghost predicate Valid()
      reads this
    {
      0 <= countdown <= InitialCountdown
    }

    constructor ()
      ensures Valid() && countdown == InitialCountdown
    {
      countdown := InitialCountdown;
    }

    /** The one-second interval. */
    method Tick()
      requires Valid()
      modifies this
      ensures Valid()
      ensures countdown == CountdownTick(old(countdown))
    {
      countdown := if countdown > 0 then countdown - 1 else 0;
    }

    /** The effect: a countdown of 0 is set back to 3600. */
    method RestoreIfZero()
      requires Valid()
      modifies this
      ensures Valid() && countdown > 0
      ensures old(countdown) == 0 ==> countdown == InitialCountdown
      ensures old(countdown) != 0 ==> countdown == old(countdown)
    {
      if countdown == 0 {
        countdown := InitialCountdown;
      }
    }

    /** A tick followed by its effect: the countdown cycles 3600, 3599, ...,
        1 and back to 3600, so it reads 0 only between the two. */
    method Second()
      requires Valid() && countdown > 0
      modifies this
      ensures Valid() && countdown > 0
      ensures old(countdown) > 1 ==> countdown == old(countdown) - 1
      ensures old(countdown) == 1 ==> countdown == InitialCountdown
    {
      Tick();
      RestoreIfZero();
    }
  }

  // ---------------------------------------------------------------------
  // The submit guard

  /** The button's `disabled` flag. */
  predicate SubmitDisabled(submitting: bool, countdown: int, txId: string, walletId: string)
  {
    submitting || countdown == 0 || !IsTxId(txId) || !IsWalletId(walletId)
  }

  /** An enabled button means both ids match their patterns, so the entry
      route's transaction id and wallet checks pass on what the form
      posts. */
  lemma EnabledSubmitPassesEntryChecks(submitting: bool, countdown: int, txId: string, walletId: string)
    requires !SubmitDisabled(submitting, countdown, txId, walletId)
    ensures RaffleEntry.ValidTxId(Some(txId)) && RaffleEntry.ValidWallet(Some(walletId))
    ensures !submitting && countdown != 0
  {
  }

  /** The button is enabled for some ids and disabled while submitting, at
      zero, or when either id is off pattern. */
  lemma SubmitGuardCases(txId: string, walletId: string)
    requires IsTxId(txId) && IsWalletId(walletId)
    ensures !SubmitDisabled(false, 1, txId, walletId)
    ensures SubmitDisabled(true, 1, txId, walletId)
    ensures SubmitDisabled(false, 0, txId, walletId)
    ensures SubmitDisabled(false, 1, walletId, walletId)
    ensures SubmitDisabled(false, 1, txId, txId)
  {
    assert !IsLowerLetter(walletId[0]);
    assert !IsUpperLetter(txId[0]);
  }
}
