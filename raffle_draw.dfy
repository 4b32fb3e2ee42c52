/** The admin draw route: after the password check it refuses when a winner
    exists, when the pool is empty, or while the round is running; otherwise
    it picks an entry uniformly (here: any entry) and saves it as winner. */
module RaffleDraw {
  import opened Wrappers
  import opened RaffleStore

  const FallbackAdminPassword: string := "changeme"

  /** `process.env.RAFFLE_ADMIN_PASSWORD || 'changeme'`: an unset or empty
      variable falls back to the built-in password. */
  function AdminPassword(env: Option<string>): (p: string)
    ensures env.Some? && env.value != "" ==> p == env.value
    ensures env.None? || env.value == "" ==> p == FallbackAdminPassword
    ensures p != ""
  {
    if env.Some? && env.value != "" then env.value else FallbackAdminPassword
  }

  /** `if (state.winner)`: a winner counts when it is a non-empty string. */
  predicate HasWinner(s: RaffleState)
  {
    s.winner.Some? && s.winner.value != ""
  }

  /** Everything the draw needs besides the password. */
  predicate CanDraw(s: RaffleState, now: int)
  {
    !HasWinner(s) && |s.entryPool| > 0 && now as real >= s.roundEndsAt
  }

  /** Why a draw was refused, in the order the checks are made. */
  datatype Refusal =
    | MethodNotAllowed
    | Forbidden
    | WinnerAlreadyPicked(winner: string)
    | NoEntries
    | RoundNotFinished

  function StatusOf(r: Refusal): int
  {
    match r
    case MethodNotAllowed => 405
    case Forbidden => 403
    case _ => 400
  }

  datatype DrawReply = Drawn(winner: string) | Refused(status: int, reason: Refusal)

  /** The draw handler. */
  method Draw(file: RaffleFile, isPost: bool, password: string, adminPassword: string, now: int)
    returns (reply: DrawReply)
    modifies file
    ensures !isPost ==> reply == Refused(405, MethodNotAllowed) && file.stored == old(file.stored)
    ensures isPost && password != adminPassword ==>
      reply == Refused(403, Forbidden) && file.stored == old(file.stored)
    ensures isPost && password == adminPassword ==>
      var s := Loaded(old(file.stored), now);
      && (HasWinner(s) ==> reply == Refused(400, WinnerAlreadyPicked(s.winner.value)))
      && (!HasWinner(s) && s.entryPool == [] ==> reply == Refused(400, NoEntries))
      && (!HasWinner(s) && s.entryPool != [] && now as real < s.roundEndsAt ==> reply == Refused(400, RoundNotFinished))
      && (reply.Drawn? <==> CanDraw(s, now))
      && (!reply.Drawn? ==> file.stored == old(file.stored))
      && (reply.Drawn? ==> reply.winner in s.entryPool
                           && file.stored == Some(s.(winner := Some(reply.winner))))
    ensures reply.Refused? ==> reply.status == StatusOf(reply.reason)
  {
    if !isPost {
      return Refused(405, MethodNotAllowed);
    }
    if password != adminPassword {
      return Refused(403, Forbidden);
    }
    var state := file.LoadState(now);
    if state.winner.Some? && state.winner.value != "" {
      return Refused(400, WinnerAlreadyPicked(state.winner.value));
    }
    if |state.entryPool| == 0 {
      return Refused(400, NoEntries);
    }
    if now as real < state.roundEndsAt {
      return Refused(400, RoundNotFinished);
    }
    // Math.floor(Math.random() * length) is some index of the pool
    var k :| 0 <= k < |state.entryPool|;
    var picked := state.entryPool[k];
    state := state.(winner := Some(picked));
    file.SaveState(state);
    return Drawn(picked);
  }

  /** Once a non-empty entry has been drawn, the round cannot be drawn again
      until it is reset. */
  lemma NoSecondDraw(s: RaffleState, w: string, now: int)
    requires w != ""
    ensures !CanDraw(s.(winner := Some(w)), now)
  {
  }

  /** Once a draw is possible it stays possible until one is made: later,
      and after more entries (the entry route does not look at the end
      time). */
  lemma DrawableStaysDrawable(s: RaffleState, now: int, later: int, txId: string)
    requires CanDraw(s, now) && now <= later
    ensures CanDraw(s, later)
    ensures CanDraw(s.(entryPool := s.entryPool + [txId]), later)
  {
  }
}
