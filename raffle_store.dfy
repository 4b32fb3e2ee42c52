/** The raffle round: the entry pool, the winner and the end time, kept in
    one JSON file that every raffle route reads and writes. The file is a
    cell holding a state, or nothing when it is missing or unreadable. Times
    are milliseconds since the epoch; `now` is a parameter. The end time is
    a real, since a round may last a fractional number of seconds. */
module RaffleStore {
  import opened Wrappers

  const DefaultRoundSeconds: int := 3600
  const MillisPerSecond: int := 1000

  datatype RaffleState = RaffleState(entryPool: seq<string>, winner: Option<string>, roundEndsAt: real)

  /** A round that has just started and lasts the given number of seconds. */
  function FreshRound(now: int, seconds: real): RaffleState
  {
    RaffleState([], None, now as real + seconds * MillisPerSecond as real)
  }

  /** What a load sees: the stored state, or a fresh one-hour round. */
  function Loaded(stored: Option<RaffleState>, now: int): RaffleState
  {
    if stored.Some? then stored.value else FreshRound(now, DefaultRoundSeconds as real)
  }

  /** The round duration `resetRaffle` uses: its argument, or one hour when
      the argument is omitted. */
  function DurationOrDefault(durationSeconds: Option<real>): (d: real)
    ensures durationSeconds.Some? ==> d == durationSeconds.value
    ensures durationSeconds.None? ==> d == DefaultRoundSeconds as real
  {
    if durationSeconds.Some? then durationSeconds.value else DefaultRoundSeconds as real
  }

  /** No transaction id occurs twice in the pool. */
  predicate NoDuplicates(pool: seq<string>)
  {
    forall i, j :: 0 <= i < j < |pool| ==> pool[i] != pool[j]
  }

  /** Appending an id that is not in the pool keeps the pool duplicate-free. */
  lemma AppendFreshKeepsNoDuplicates(pool: seq<string>, id: string)
    requires NoDuplicates(pool) && id !in pool
    ensures NoDuplicates(pool + [id])
  {
  }

  /** The raffle data file. */
  class RaffleFile {
    var stored: Option<RaffleState>

    constructor (initial: Option<RaffleState>)
      ensures stored == initial
    {
      stored := initial;
    }

    /** `loadState`: the parsed file, or when reading or parsing fails, an
        empty pool, no winner, and an end time one hour from now (nothing
        is written). */
    method LoadState(now: int) returns (s: RaffleState)
      ensures stored.Some? ==> s == stored.value
      ensures stored.None? ==> s.entryPool == [] && s.winner == None
                               && s.roundEndsAt == (now + DefaultRoundSeconds * MillisPerSecond) as real
      ensures s == Loaded(stored, now)
    {
      if stored.Some? {
        s := stored.value;
      } else {
        s := FreshRound(now, DefaultRoundSeconds as real);
      }
    }

    /** `saveState`: overwrites the file. */
    method SaveState(s: RaffleState)
      modifies this
      ensures stored == Some(s)
    {
      stored := Some(s);
    }

    /** `resetRaffle`: saves an empty pool, no winner, and an end time the
        given number of seconds from now (one hour when omitted). */
    method ResetRaffle(durationSeconds: Option<real>, now: int)
      modifies this
      ensures stored.Some? && stored.value.entryPool == [] && stored.value.winner == None
      ensures stored.value.roundEndsAt == now as real + DurationOrDefault(durationSeconds) * 1000.0
      ensures stored == Some(FreshRound(now, DurationOrDefault(durationSeconds)))
    {
      var seconds := if durationSeconds.Some? then durationSeconds.value else DefaultRoundSeconds as real;
      SaveState(FreshRound(now, seconds));
    }

    /** A save followed by a load gives back the saved state, whatever the
        file held before and whatever the clock says. */
    method SaveThenLoad(s: RaffleState, now: int) returns (t: RaffleState)
      modifies this
      ensures t == s && stored == Some(s)
    {
      SaveState(s);
      t := LoadState(now);
    }
  }
}
