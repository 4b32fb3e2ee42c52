/** The public status route: entry count, whole seconds left, and winner. */
module RaffleStatus {
  import opened Wrappers
  import opened RaffleStore
  import RaffleDraw

  /** `Math.max(0, Math.floor((roundEndsAt - now) / 1000))`. */
  function Countdown(roundEndsAt: real, now: int): (c: nat)
    ensures now as real >= roundEndsAt ==> c == 0
    ensures now as real < roundEndsAt ==>
      (c * MillisPerSecond) as real <= roundEndsAt - now as real < ((c + 1) * MillisPerSecond) as real
  {
    Max(0, ((roundEndsAt - now as real) / MillisPerSecond as real).Floor)
  }

  /** The countdown never goes up as time passes. */
  lemma CountdownMonotone(roundEndsAt: real, t1: int, t2: int)
    requires t1 <= t2
    ensures Countdown(roundEndsAt, t2) <= Countdown(roundEndsAt, t1)
  {
  }

  /** The countdown reads 0 during the round's last second, while a draw is
      still refused as not finished. */
  lemma CountdownZeroBeforeEnd()
    ensures Countdown(1000.0, 1) == 0 && 1 as real < 1000.0
  {
  }

  /** Whenever a draw is possible the countdown reads 0. */
  lemma DrawableShowsZero(s: RaffleState, now: int)
    requires RaffleDraw.CanDraw(s, now)
    ensures Countdown(s.roundEndsAt, now) == 0
  {
  }

  datatype StatusReply = StatusReply(entries: nat, countdown: nat, winner: Option<string>)

  /** The status handler. It only reads the file, and reads the clock twice:
      once inside the load, for the default end time of a missing file, and
      once for the countdown. */
  method Status(file: RaffleFile, loadTime: int, now: int) returns (r: StatusReply)
    ensures var s := Loaded(file.stored, loadTime);
      && r.entries == |s.entryPool| && r.winner == s.winner
      && r.countdown == Countdown(s.roundEndsAt, now)
    ensures file.stored.None? ==> r.entries == 0 && r.winner == None
    ensures file.stored.None? && loadTime == now ==> r.countdown == DefaultRoundSeconds
  {
    var state := file.LoadState(loadTime);
    r := StatusReply(|state.entryPool|, Countdown(state.roundEndsAt, now), state.winner);
  }

  /** A missing file read one millisecond after the load shows 3599 seconds,
      not 3600. */
  lemma MissingFileLateClock()
    ensures Countdown(Loaded(None, 0).roundEndsAt, 1) == 3599
  {
  }
}
