/** The admin reset route, which starts a new round. The reset handler that
    the draw module exports has the same code and is modelled by this one. */
module RaffleReset {
  import opened Wrappers
  import opened JsValues
  import opened RaffleStore

  /** `Number(durationSeconds)` of the body field, None for NaN (which a
      missing field gives) and for an infinity. */
  function DurationNumber(durationSeconds: Option<Json>): (r: Option<real>)
    ensures durationSeconds.None? ==> r.None?
    ensures durationSeconds.Some? && ToNumber(durationSeconds.value).Some? ==>
      r == Some(RealValue(ToNumber(durationSeconds.value).value))
  {
    if durationSeconds.Some? && ToNumber(durationSeconds.value).Some? then
      Some(RealValue(ToNumber(durationSeconds.value).value))
    else None
  }

  /** `Number(durationSeconds) || 3600`: NaN and zero, the falsy numbers,
      become one hour; anything else, fractions and negatives included, is
      kept. */
  function RoundSeconds(number: Option<real>): (d: real)
    ensures d != 0.0
    ensures number.Some? && number.value != 0.0 ==> d == number.value
    ensures number.None? || number.value == 0.0 ==> d == DefaultRoundSeconds as real
  {
    if number.Some? && number.value != 0.0 then number.value else DefaultRoundSeconds as real
  }

  /** A fractional duration survives the conversion: 90.5 seconds posted
      as a number is kept, while a missing field falls back to one hour. */
  lemma FractionalDurationKept()
    ensures RoundSeconds(DurationNumber(Some(JNumber(Decimal(905, -1))))) == 90.5
    ensures RoundSeconds(DurationNumber(None)) == 3600.0
  {
    TenthsValue(905);
  }

  datatype ResetReply = ResetDone | ResetRefused(status: int)

  method Reset(file: RaffleFile, isPost: bool, password: string, adminPassword: string,
               durationSeconds: Option<Json>, now: int)
    returns (reply: ResetReply)
    modifies file
    ensures !isPost ==> reply == ResetRefused(405) && file.stored == old(file.stored)
    ensures isPost && password != adminPassword ==> reply == ResetRefused(403) && file.stored == old(file.stored)
    ensures isPost && password == adminPassword ==>
      && reply == ResetDone
      && file.stored == Some(FreshRound(now, RoundSeconds(DurationNumber(durationSeconds))))
  {
    if !isPost {
      return ResetRefused(405);
    }
    if password != adminPassword {
      return ResetRefused(403);
    }
    var seconds := RoundSeconds(DurationNumber(durationSeconds));
    file.ResetRaffle(Some(seconds), now);
    return ResetDone;
  }
}
