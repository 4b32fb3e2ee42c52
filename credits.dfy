/** The credits and score rules of the game backend: one record per wallet,
    an append-only payment log and a per-wallet, per-day best-score table,
    with the request handlers that read and update them.

    Amounts, scores and totals are stored as text by the original; here they
    are integers. `lastplayed` keeps only its calendar day (None when it is
    empty or does not parse), because the day is all that is ever read from
    it. `leaderboard_access` is a flag: every reader compares the text with
    "1". Today's date is a parameter of the handlers that read the clock. */
module Credits {
  import opened Wrappers

  /** A calendar day, by its ordinal. */
  datatype Date = Date(ordinal: int)

  const FreeGamesPerDay: int := 3
  const LeaderboardPrice: int := 100
  const GamePrice: int := 500
  const DefaultGamesToBuy: int := 1
  const DefaultPricePerGame: int := 500000
  const TopListSize: nat := 100
  const DailyPrize: int := 1000000
  const LeaderboardTag: string := "leaderboard_payment"
  const GamePurchaseTag: string := "game_purchase"

  /** A row of the users table (the wallet is its key in the store). */
  datatype User = User(
    amount: int,          // leaderboard score
    gameleft: int,        // games left
    lastplayed: Option<Date>,
    paid: int,            // cumulative payments
    highest: int,         // personal best
    col1: string, col2: string, col3: string,
    access: bool)         // leaderboard_access == "1"

  /** The row `create_user` inserts. */
  const NewUser: User := User(0, 0, None, 0, 0, "", "", "", false)

  /** A row of the transactions table. */
  datatype TxRecord = TxRecord(wallet: string, hash: string, paid: int, col1: string, col2: string)

  /** A numeric request field: missing, present but not a number, or a number. */
  datatype NumField = Absent | NotNumeric | Number(value: int)

  // ---------------------------------------------------------------------
  // Daily free-game reset

  /** A reset is due when `lastplayed` is empty, unparsable or another day. */
  predicate NeedsReset(lastplayed: Option<Date>, today: Date)
  {
    lastplayed.None? || lastplayed.value != today
  }

  /** `check_and_reset_daily_games`, on the record. */
  function DailyReset(u: User, today: Date): (r: User)
    ensures NeedsReset(u.lastplayed, today) ==> r.gameleft == FreeGamesPerDay
    ensures !NeedsReset(u.lastplayed, today) ==> r == u
    ensures r.(gameleft := u.gameleft) == u
  {
    if NeedsReset(u.lastplayed, today) then u.(gameleft := FreeGamesPerDay) else u
  }

  /** Applying the reset twice on one day is the same as applying it once. */
  lemma DailyResetIdempotent(u: User, today: Date)
    ensures DailyReset(DailyReset(u, today), today) == DailyReset(u, today)
  {
  }

  // ---------------------------------------------------------------------
  // The allow-listed update of `update_user`

  /** The columns `update_user` may write, in the order it lists them. */
  datatype Field = Amount | GameLeft | LastPlayed | Paid | Highest | Col1 | Col2 | Col3 | LeaderboardAccess

  const AllowedFields: seq<Field> :=
    [Amount, GameLeft, LastPlayed, Paid, Highest, Col1, Col2, Col3, LeaderboardAccess]

  /** The request key that names a column. */
  function FieldName(f: Field): string
  {
    match f
    case Amount => "amount"
    case GameLeft => "gameleft"
    case LastPlayed => "lastplayed"
    case Paid => "paid"
    case Highest => "highest"
    case Col1 => "col1"
    case Col2 => "col2"
    case Col3 => "col3"
    case LeaderboardAccess => "leaderboard_access"
  }

  /** A value in a request body, already read as the kind of its column. */
  datatype FieldValue = Num(n: int) | Day(d: Option<Date>) | Text(t: string) | Flag(b: bool)

  predicate Fits(f: Field, v: FieldValue)
  {
    match f
    case Amount | GameLeft | Paid | Highest => v.Num?
    case LastPlayed => v.Day?
    case Col1 | Col2 | Col3 => v.Text?
    case LeaderboardAccess => v.Flag?
  }

  /** Every allow-listed key of the request carries a value of its column's kind. */
  predicate WellKinded(data: map<string, FieldValue>)
  {
    forall f: Field :: FieldName(f) in data ==> Fits(f, data[FieldName(f)])
  }

  /** The value of one column of a record. */
  function FieldOf(u: User, f: Field): FieldValue
  {
    match f
    case Amount => Num(u.amount)
    case GameLeft => Num(u.gameleft)
    case LastPlayed => Day(u.lastplayed)
    case Paid => Num(u.paid)
    case Highest => Num(u.highest)
    case Col1 => Text(u.col1)
    case Col2 => Text(u.col2)
    case Col3 => Text(u.col3)
    case LeaderboardAccess => Flag(u.access)
  }

  /** Writes one column. */
  function SetField(u: User, f: Field, v: FieldValue): (r: User)
    requires Fits(f, v)
    ensures FieldOf(r, f) == v
    ensures forall g: Field :: g != f ==> FieldOf(r, g) == FieldOf(u, g)
  {
    match f
    case Amount => u.(amount := v.n)
    case GameLeft => u.(gameleft := v.n)
    case LastPlayed => u.(lastplayed := v.d)
    case Paid => u.(paid := v.n)
    case Highest => u.(highest := v.n)
    case Col1 => u.(col1 := v.t)
    case Col2 => u.(col2 := v.t)
    case Col3 => u.(col3 := v.t)
    case LeaderboardAccess => u.(access := v.b)
  }

  /** Two records that agree on every column are the same record. */
  lemma FieldsDetermineUser(u: User, w: User)
    requires forall f: Field :: FieldOf(u, f) == FieldOf(w, f)
    ensures u == w
  {
    assert FieldOf(u, Amount) == FieldOf(w, Amount);
    assert FieldOf(u, GameLeft) == FieldOf(w, GameLeft);
    assert FieldOf(u, LastPlayed) == FieldOf(w, LastPlayed);
    assert FieldOf(u, Paid) == FieldOf(w, Paid);
    assert FieldOf(u, Highest) == FieldOf(w, Highest);
    assert FieldOf(u, Col1) == FieldOf(w, Col1);
    assert FieldOf(u, Col2) == FieldOf(w, Col2);
    assert FieldOf(u, Col3) == FieldOf(w, Col3);
    assert FieldOf(u, LeaderboardAccess) == FieldOf(w, LeaderboardAccess);
  }

  /** The `SET` list `update_user` builds: the listed columns the request
      names, in list order, with their values. */
  function Assignments(data: map<string, FieldValue>, fields: seq<Field>): seq<(Field, FieldValue)>
  {
    if fields == [] then []
    else
      var f := fields[|fields| - 1];
      Assignments(data, fields[..|fields| - 1])
      + (if FieldName(f) in data then [(f, data[FieldName(f)])] else [])
  }

  /** Performs a `SET` list on a record, left to right. */
  function ApplyAll(u: User, sets: seq<(Field, FieldValue)>): User
    requires forall i :: 0 <= i < |sets| ==> Fits(sets[i].0, sets[i].1)
    decreases |sets|
  {
    if sets == [] then u
    else ApplyAll(SetField(u, sets[0].0, sets[0].1), sets[1..])
  }

  /** Every entry of the `SET` list is a listed column the request names,
      with the request's value. */
  lemma {:induction false} AssignmentsEntries(data: map<string, FieldValue>, fields: seq<Field>)
    ensures forall i :: 0 <= i < |Assignments(data, fields)| ==>
      Assignments(data, fields)[i].0 in fields && FieldName(Assignments(data, fields)[i].0) in data
      && Assignments(data, fields)[i].1 == data[FieldName(Assignments(data, fields)[i].0)]
  {
    if fields != [] {
      var init := fields[..|fields| - 1];
      AssignmentsEntries(data, init);
      assert forall g :: g in init ==> g in fields;
    }
  }

  /** The entries of a well-kinded request fit their columns. */
  lemma AssignmentsFit(data: map<string, FieldValue>, fields: seq<Field>)
    requires WellKinded(data)
    ensures forall i :: 0 <= i < |Assignments(data, fields)| ==>
      Fits(Assignments(data, fields)[i].0, Assignments(data, fields)[i].1)
  {
    AssignmentsEntries(data, fields);
  }

  /** Every listed column the request names has an entry. */
  lemma {:induction false} AssignmentsCover(data: map<string, FieldValue>, fields: seq<Field>, g: Field)
    requires g in fields && FieldName(g) in data
    ensures exists i :: 0 <= i < |Assignments(data, fields)| && Assignments(data, fields)[i].0 == g
  {
    var init := fields[..|fields| - 1];
    var f := fields[|fields| - 1];
    var a := Assignments(data, init);
    if g == f {
      assert Assignments(data, fields)[|a|].0 == g;
    } else {
      assert fields == init + [f];
      assert g in init;
      AssignmentsCover(data, init, g);
      var i :| 0 <= i < |a| && a[i].0 == g;
      assert Assignments(data, fields)[i] == a[i];
    }
  }

  /** The `SET` list is empty exactly when the request names no listed column. */
  lemma AssignmentsEmpty(data: map<string, FieldValue>, fields: seq<Field>)
    ensures (Assignments(data, fields) == []) <==> (forall f :: f in fields ==> FieldName(f) !in data)
  {
    AssignmentsEntries(data, fields);
    forall g | g in fields && FieldName(g) in data ensures Assignments(data, fields) != [] {
      AssignmentsCover(data, fields, g);
    }
  }

  /** What `ApplyAll` does to one column: the last assignment to it wins,
      and a column with no assignment keeps its value. */
  lemma {:induction false} ApplyAllField(u: User, sets: seq<(Field, FieldValue)>, g: Field)
    requires forall i :: 0 <= i < |sets| ==> Fits(sets[i].0, sets[i].1)
    ensures (forall i :: 0 <= i < |sets| ==> sets[i].0 != g) ==> FieldOf(ApplyAll(u, sets), g) == FieldOf(u, g)
    ensures forall i :: (0 <= i < |sets| && sets[i].0 == g && (forall j :: i < j < |sets| ==> sets[j].0 != g))
                        ==> FieldOf(ApplyAll(u, sets), g) == sets[i].1
    decreases |sets|
  {
    if sets != [] {
      var u' := SetField(u, sets[0].0, sets[0].1);
      ApplyAllField(u', sets[1..], g);
      forall i | 0 <= i < |sets| && sets[i].0 == g && (forall j :: i < j < |sets| ==> sets[j].0 != g)
        ensures FieldOf(ApplyAll(u, sets), g) == sets[i].1
      {
        if i > 0 {
          assert sets[1..][i - 1] == sets[i];
          assert forall j :: i - 1 < j < |sets| - 1 ==> sets[1..][j].0 != g by {
            forall j | i - 1 < j < |sets| - 1 ensures sets[1..][j].0 != g {
              assert sets[1..][j] == sets[j + 1];
            }
          }
        } else {
          assert forall j :: 0 <= j < |sets| - 1 ==> sets[1..][j].0 != g by {
            forall j | 0 <= j < |sets| - 1 ensures sets[1..][j].0 != g {
              assert sets[1..][j] == sets[j + 1];
            }
          }
        }
      }
    }
  }

  lemma AllowedFieldsDistinct()
    ensures forall i, j :: 0 <= i < j < |AllowedFields| ==> AllowedFields[i] != AllowedFields[j]
    ensures forall f: Field :: f in AllowedFields
  {
    forall f: Field ensures f in AllowedFields {
      match f
      case Amount => assert AllowedFields[0] == f;
      case GameLeft => assert AllowedFields[1] == f;
      case LastPlayed => assert AllowedFields[2] == f;
      case Paid => assert AllowedFields[3] == f;
      case Highest => assert AllowedFields[4] == f;
      case Col1 => assert AllowedFields[5] == f;
      case Col2 => assert AllowedFields[6] == f;
      case Col3 => assert AllowedFields[7] == f;
      case LeaderboardAccess => assert AllowedFields[8] == f;
    }
  }

  lemma {:induction false} AssignmentsDistinct(data: map<string, FieldValue>, fields: seq<Field>)
    requires forall i, j :: 0 <= i < j < |fields| ==> fields[i] != fields[j]
    ensures forall i, j :: 0 <= i < j < |Assignments(data, fields)| ==>
      Assignments(data, fields)[i].0 != Assignments(data, fields)[j].0
    ensures forall i :: 0 <= i < |Assignments(data, fields)| ==> Assignments(data, fields)[i].0 in fields
  {
    if fields != [] {
      var init := fields[..|fields| - 1];
      var f := fields[|fields| - 1];
      AssignmentsDistinct(data, init);
      assert f !in init;
    }
  }

  /** The record `update_user` writes, given the request body. */
  function ApplyPatch(u: User, data: map<string, FieldValue>): User
    requires WellKinded(data)
  {
    AssignmentsFit(data, AllowedFields);
    ApplyAll(u, Assignments(data, AllowedFields))
  }

  /** The update changes exactly the allow-listed columns the request names,
      each to the requested value, and leaves every other column as it was. */
  lemma PatchField(u: User, data: map<string, FieldValue>, f: Field)
    requires WellKinded(data)
    ensures FieldOf(ApplyPatch(u, data), f) ==
      if FieldName(f) in data then data[FieldName(f)] else FieldOf(u, f)
  {
    AllowedFieldsDistinct();
    AssignmentsFit(data, AllowedFields);
    AssignedField(u, data, AllowedFields, f);
  }

  /** The same, for any list of distinct columns that holds f. */
  lemma AssignedField(u: User, data: map<string, FieldValue>, fields: seq<Field>, f: Field)
    requires WellKinded(data) && f in fields
    requires forall i, j :: 0 <= i < j < |fields| ==> fields[i] != fields[j]
    requires forall i :: 0 <= i < |Assignments(data, fields)| ==>
      Fits(Assignments(data, fields)[i].0, Assignments(data, fields)[i].1)
    ensures FieldOf(ApplyAll(u, Assignments(data, fields)), f) ==
      if FieldName(f) in data then data[FieldName(f)] else FieldOf(u, f)
  {
    var sets := Assignments(data, fields);
    AssignmentsEntries(data, fields);
    if FieldName(f) in data {
      AssignmentsCover(data, fields, f);
      var i :| 0 <= i < |sets| && sets[i].0 == f;
      assert forall j :: i < j < |sets| ==> sets[j].0 != f by {
        AssignmentsDistinct(data, fields);
      }
      assert sets[i].1 == data[FieldName(f)];
      ApplyAllField(u, sets, f);
    } else {
      assert forall i :: 0 <= i < |sets| ==> sets[i].0 != f;
      ApplyAllField(u, sets, f);
    }
  }

  /** A request that names no allow-listed column leaves the record as it is. */
  lemma PatchWithoutAllowedField(u: User, data: map<string, FieldValue>)
    requires WellKinded(data)
    requires forall f: Field :: FieldName(f) !in data
    ensures ApplyPatch(u, data) == u
  {
    AssignmentsEmpty(data, AllowedFields);
  }

  /** The update `check_and_reset_daily_games` hands to `update_user`. */
  function ResetUpdates(): map<string, FieldValue>
  {
    map["gameleft" := Num(FreeGamesPerDay)]
  }

  lemma ResetUpdatesEffect(u: User, today: Date)
    requires NeedsReset(u.lastplayed, today)
    ensures WellKinded(ResetUpdates())
    ensures ApplyPatch(u, ResetUpdates()) == DailyReset(u, today)
  {
    var data := ResetUpdates();
    assert WellKinded(data);
    forall f: Field ensures FieldOf(ApplyPatch(u, data), f) == FieldOf(DailyReset(u, today), f) {
      PatchField(u, data, f);
    }
    FieldsDetermineUser(ApplyPatch(u, data), DailyReset(u, today));
  }

  // ---------------------------------------------------------------------
  // Payment classification

  /** How `/transaction` reads a payment. */
  datatype PaymentKind = GrantAccess | BuyGames(games: int) | PaidOnly

  function Classify(tag: string, amount: int): (k: PaymentKind)
    ensures k.GrantAccess? <==> tag == LeaderboardTag && amount >= LeaderboardPrice
    ensures k.BuyGames? <==> tag == GamePurchaseTag && amount >= GamePrice
    ensures k.BuyGames? ==> k.games >= 1 && k.games * GamePrice <= amount < (k.games + 1) * GamePrice
  {
    if tag == LeaderboardTag && amount >= LeaderboardPrice then GrantAccess
    else if tag == GamePurchaseTag && amount >= GamePrice then BuyGames(amount / GamePrice)
    else PaidOnly
  }

  /** The user update of `/transaction`: every payment adds its amount to
      `paid`; a qualifying leaderboard payment also grants access, a
      qualifying game purchase also adds whole games; nothing else changes,
      and access is never taken away. */
  function ApplyPayment(u: User, tag: string, amount: int): (r: User)
    ensures r.paid == u.paid + amount
    ensures r.access == (u.access || Classify(tag, amount).GrantAccess?)
    ensures u.access ==> r.access
    ensures r.gameleft == u.gameleft + (if Classify(tag, amount).BuyGames? then amount / GamePrice else 0)
    ensures r.(paid := u.paid, access := u.access, gameleft := u.gameleft) == u
  {
    match Classify(tag, amount)
    case GrantAccess => u.(access := true, paid := u.paid + amount)
    case BuyGames(g) => u.(gameleft := u.gameleft + g, paid := u.paid + amount)
    case PaidOnly => u.(paid := u.paid + amount)
  }

  /** The update `/transaction` hands to `update_user`. */
  function PaymentUpdates(u: User, tag: string, amount: int): map<string, FieldValue>
  {
    match Classify(tag, amount)
    case GrantAccess => map["leaderboard_access" := Flag(true), "paid" := Num(u.paid + amount)]
    case BuyGames(g) => map["gameleft" := Num(u.gameleft + g), "paid" := Num(u.paid + amount)]
    case PaidOnly => map["paid" := Num(u.paid + amount)]
  }

  lemma PaymentUpdatesEffect(u: User, tag: string, amount: int)
    ensures WellKinded(PaymentUpdates(u, tag, amount))
    ensures ApplyPatch(u, PaymentUpdates(u, tag, amount)) == ApplyPayment(u, tag, amount)
  {
    var data := PaymentUpdates(u, tag, amount);
    assert WellKinded(data);
    forall f: Field ensures FieldOf(ApplyPatch(u, data), f) == FieldOf(ApplyPayment(u, tag, amount), f) {
      PatchField(u, data, f);
    }
    FieldsDetermineUser(ApplyPatch(u, data), ApplyPayment(u, tag, amount));
  }

  /** The thresholds at their edges. */
  lemma PaymentExamples(u: User)
    ensures !ApplyPayment(u.(access := false), LeaderboardTag, 99).access
    ensures ApplyPayment(u, LeaderboardTag, 100).access
    ensures ApplyPayment(u, LeaderboardTag, 100).paid == u.paid + 100
    ensures ApplyPayment(u, GamePurchaseTag, 1200).gameleft == u.gameleft + 2
    ensures ApplyPayment(u, GamePurchaseTag, 499).gameleft == u.gameleft
  {
  }

  // ---------------------------------------------------------------------
  // Score submission

  /** The games-left test of `/update_game_score`: Python truthiness, so any
      non-zero count, negative ones too, lets the score count. */
  predicate Counts(u: User)
  {
    u.access && u.gameleft != 0
  }

  /** The record after a score submission on `today`. */
  function SubmitScore(u: User, score: int, today: Date): (r: User)
    ensures r.highest == Max(u.highest, score)
    ensures Counts(u) ==> r.amount == Max(u.amount, score) && r.gameleft == u.gameleft - 1
                          && r.lastplayed == Some(today)
    ensures !Counts(u) ==> r == u.(highest := Max(u.highest, score))
    ensures r.(highest := u.highest, amount := u.amount, gameleft := u.gameleft, lastplayed := u.lastplayed) == u
  {
    var h := u.(highest := Max(u.highest, score));
    if Counts(u) then h.(lastplayed := Some(today), amount := Max(u.amount, score), gameleft := u.gameleft - 1)
    else h
  }

  /** The update `/update_game_score` hands to `update_user`. */
  function ScoreUpdates(u: User, score: int, today: Date): map<string, FieldValue>
  {
    var base := map["highest" := Num(Max(u.highest, score))];
    if Counts(u) then
      base["lastplayed" := Day(Some(today))]["amount" := Num(Max(u.amount, score))]["gameleft" := Num(u.gameleft - 1)]
    else base
  }

  lemma ScoreUpdatesEffect(u: User, score: int, today: Date)
    ensures WellKinded(ScoreUpdates(u, score, today))
    ensures ApplyPatch(u, ScoreUpdates(u, score, today)) == SubmitScore(u, score, today)
  {
    var data := ScoreUpdates(u, score, today);
    assert WellKinded(data);
    forall f: Field ensures FieldOf(ApplyPatch(u, data), f) == FieldOf(SubmitScore(u, score, today), f) {
      PatchField(u, data, f);
    }
    FieldsDetermineUser(ApplyPatch(u, data), SubmitScore(u, score, today));
  }

  /** The record after `/buy_games` adds n games costing total. */
  function AddGames(u: User, n: int, total: int): (r: User)
    ensures r.gameleft == u.gameleft + n && r.paid == u.paid + total
    ensures r.(gameleft := u.gameleft, paid := u.paid) == u
  {
    u.(gameleft := u.gameleft + n, paid := u.paid + total)
  }

  /** The price of n games at p each. */
  function TotalPaid(p: int, n: int): int
  {
    p * n
  }

  /** The update `/buy_games` hands to `update_user`. */
  function BuyUpdates(u: User, n: int, total: int): map<string, FieldValue>
  {
    map["gameleft" := Num(u.gameleft + n), "paid" := Num(u.paid + total)]
  }

  lemma BuyUpdatesEffect(u: User, n: int, total: int)
    ensures WellKinded(BuyUpdates(u, n, total))
    ensures ApplyPatch(u, BuyUpdates(u, n, total)) == AddGames(u, n, total)
  {
    var data := BuyUpdates(u, n, total);
    assert WellKinded(data);
    forall f: Field ensures FieldOf(ApplyPatch(u, data), f) == FieldOf(AddGames(u, n, total), f) {
      PatchField(u, data, f);
    }
    FieldsDetermineUser(ApplyPatch(u, data), AddGames(u, n, total));
  }

  /** Insert-or-keep-the-larger on the (wallet, day) table. */
  function UpsertMax(daily: map<(string, Date), int>, key: (string, Date), score: int): (r: map<(string, Date), int>)
    ensures r.Keys == daily.Keys + {key}
    ensures r[key] == if key in daily then Max(daily[key], score) else score
    ensures forall k :: k in daily && k != key ==> r[k] == daily[k]
  {
    daily[key := if key in daily then Max(daily[key], score) else score]
  }

  /** The record after a run of submissions on one day. */
  function SubmitAll(u: User, scores: seq<int>, today: Date): User
    decreases |scores|
  {
    if scores == [] then u else SubmitAll(SubmitScore(u, scores[0], today), scores[1..], today)
  }

  /** Over any run of submissions, `highest` never decreases and ends at
      least as large as every submitted score; `amount` never decreases and
      access is never lost. */
  lemma {:induction false} SubmissionsMonotone(u: User, scores: seq<int>, today: Date)
    ensures SubmitAll(u, scores, today).highest >= u.highest
    ensures forall i :: 0 <= i < |scores| ==> SubmitAll(u, scores, today).highest >= scores[i]
    ensures SubmitAll(u, scores, today).amount >= u.amount
    ensures SubmitAll(u, scores, today).access == u.access
    decreases |scores|
  {
    if scores != [] {
      var u' := SubmitScore(u, scores[0], today);
      SubmissionsMonotone(u', scores[1..], today);
      forall i | 0 <= i < |scores| ensures SubmitAll(u, scores, today).highest >= scores[i] {
        if i > 0 { assert scores[1..][i - 1] == scores[i]; }
      }
    }
  }

  /** Two scores from one wallet on one day leave the larger in the table. */
  lemma DailyKeepsLarger(daily: map<(string, Date), int>, w: string, d: Date, a: int, b: int)
    requires (w, d) !in daily
    ensures UpsertMax(UpsertMax(daily, (w, d), a), (w, d), b)[(w, d)] == Max(a, b)
  {
  }

  // ---------------------------------------------------------------------
  // Leaderboard

  /** Wallets with leaderboard access. */
  function Holders(users: map<string, User>): set<string>
  {
    set w | w in users && users[w].access
  }

  function AmountOf(users: map<string, User>, w: string): int
  {
    if w in users then users[w].amount else 0
  }

  /** What the leaderboard query returns as `top_users`: at most 100 distinct
      access holders, by amount from the largest down, and none left out
      that has a larger amount than one taken. */
  ghost predicate IsTopList(users: map<string, User>, top: seq<string>)
  {
    && |top| == Min(TopListSize, |Holders(users)|)
    && (forall i :: 0 <= i < |top| ==> top[i] in Holders(users))
    && (forall i, j :: 0 <= i < j < |top| ==> top[i] != top[j])
    && (forall i, j :: 0 <= i < j < |top| ==> users[top[i]].amount >= users[top[j]].amount)
    && (forall w, i :: w in Holders(users) && w !in top && 0 <= i < |top| ==>
          users[w].amount <= users[top[i]].amount)
  }

  /** `ORDER BY amount DESC LIMIT 100` over the access holders; the order
      among equal amounts is the store's, so it is left open here. */
  method TopAccessHolders(users: map<string, User>) returns (top: seq<string>)
    ensures IsTopList(users, top)
  {
    var holders := Holders(users);
    var rest := holders;
    top := [];
    while |top| < TopListSize && rest != {}
      invariant rest <= holders && |top| <= TopListSize
      invariant forall i :: 0 <= i < |top| ==> top[i] in holders && top[i] !in rest
      invariant forall i, j :: 0 <= i < j < |top| ==> top[i] != top[j]
      invariant forall i, j :: 0 <= i < j < |top| ==> users[top[i]].amount >= users[top[j]].amount
      invariant forall w, i :: w in rest && 0 <= i < |top| ==> users[w].amount <= users[top[i]].amount
      invariant forall w :: w in holders ==> w in rest || w in top
      invariant |top| + |rest| == |holders|
      decreases |rest|
    {
      MaxExists(rest, w => AmountOf(users, w));
      var w :| IsMaxBy(rest, x => AmountOf(users, x), w);
      top := top + [w];
      rest := rest - {w};
    }
    assert |top| == Min(TopListSize, |holders|);
  }

  /** One plus the number of access holders with a strictly larger amount. */
  function Rank(users: map<string, User>, w: string): nat
    requires w in users
  {
    1 + |set v | v in users && users[v].access && users[v].amount > users[w].amount|
  }

  /** An access holder's rank lies between 1 and the number of holders, and
      is 1 exactly when nobody has a larger amount. */
  lemma RankBounds(users: map<string, User>, w: string)
    requires w in Holders(users)
    ensures 1 <= Rank(users, w) <= |Holders(users)|
    ensures Rank(users, w) == 1 <==> forall v :: v in Holders(users) ==> users[v].amount <= users[w].amount
  {
    var above := set v | v in users && users[v].access && users[v].amount > users[w].amount;
    SubsetCardinality(above, Holders(users) - {w});
    if Rank(users, w) == 1 {
      assert above == {};
    } else {
      var v :| v in above;
    }
  }

  /** Wallets with equal amounts get equal ranks. */
  lemma RankTies(users: map<string, User>, v: string, w: string)
    requires v in users && w in users && users[v].amount == users[w].amount
    ensures Rank(users, v) == Rank(users, w)
  {
    var a := set x | x in users && users[x].access && users[x].amount > users[v].amount;
    var b := set x | x in users && users[x].access && users[x].amount > users[w].amount;
    assert a == b;
  }

  /** A wallet at position j of the top list ranks j + 1 or better. */
  lemma RankWithinTopList(users: map<string, User>, top: seq<string>, j: nat)
    requires IsTopList(users, top) && j < |top|
    ensures Rank(users, top[j]) <= j + 1
  {
    var w := top[j];
    var above := set v | v in users && users[v].access && users[v].amount > users[w].amount;
    forall v | v in above ensures v in (set i | 0 <= i < j :: top[i]) {
      // a holder left out of the list has no larger amount than a listed one
      assert v in top;
      var k :| 0 <= k < |top| && top[k] == v;
      assert k < j;
    }
    SubsetCardinality(above, set i | 0 <= i < j :: top[i]);
    CardOfImage(top, j);
  }

  lemma {:induction false} CardOfImage(s: seq<string>, j: nat)
    requires j <= |s|
    ensures |set i | 0 <= i < j :: s[i]| <= j
  {
    if j > 0 {
      CardOfImage(s, j - 1);
      assert (set i | 0 <= i < j :: s[i]) == (set i | 0 <= i < j - 1 :: s[i]) + {s[j - 1]};
    }
  }

  /** Holders with amounts 50, 50 and 30: the 30 ranks third. */
  lemma RankExample()
    ensures var users := map["a" := NewUser.(amount := 50, access := true),
                             "b" := NewUser.(amount := 50, access := true),
                             "c" := NewUser.(amount := 30, access := true)];
            Rank(users, "c") == 3 && Rank(users, "a") == 1
  {
    var users := map["a" := NewUser.(amount := 50, access := true),
                     "b" := NewUser.(amount := 50, access := true),
                     "c" := NewUser.(amount := 30, access := true)];
    assert (set v | v in users && users[v].access && users[v].amount > users["c"].amount) == {"a", "b"};
    assert (set v | v in users && users[v].access && users[v].amount > users["a"].amount) == {};
  }

  // ---------------------------------------------------------------------
  // Daily winner

  /** The wallets with a row for day d. */
  function PlayersOn(daily: map<(string, Date), int>, d: Date): set<string>
  {
    set k | k in daily && k.1 == d :: k.0
  }

  /** `/daily_winner`'s query. It sums each wallet's rows for the day, but the
      table has one row per (wallet, day), so the sum is that row's score and
      the winner is a wallet with the day's largest score (ties: the store's
      choice); no rows give no winner. */
  method PickDailyWinner(daily: map<(string, Date), int>, d: Date) returns (w: Option<(string, int)>)
    ensures w.None? <==> PlayersOn(daily, d) == {}
    ensures w.Some? ==> (w.value.0, d) in daily && w.value.1 == daily[(w.value.0, d)]
    ensures w.Some? ==> forall v :: v in PlayersOn(daily, d) ==> daily[(v, d)] <= w.value.1
  {
    var players := PlayersOn(daily, d);
    if players == {} {
      w := None;
    } else {
      var score := (v: string) => if (v, d) in daily then daily[(v, d)] else 0;
      MaxExists(players, score);
      var best :| IsMaxBy(players, score, best);
      assert (best, d) in daily;
      w := Some((best, daily[(best, d)]));
    }
  }

  // ---------------------------------------------------------------------
  // Replies

  datatype UserReply = UserReply(user: User, created: bool)
  datatype StartReply = StartReply(canPlay: bool, user: User)
  datatype PaymentReply = PaymentReply(accessGranted: bool, paidTotal: int)
  datatype ScoreReply = ScoreReply(user: User, leaderboardUpdated: bool)
  datatype BuyReply = BuyReply(gamesAdded: int, totalPaid: int, gamesRemaining: int, user: User)
  datatype LeaderboardReply = LeaderboardReply(top: seq<(string, User)>, total: nat, rank: Option<(nat, User)>)
  datatype WinnerReply = WinnerReply(winner: Option<(string, int, Option<User>)>, date: Date, prize: int)

  /** The three tables. A wallet missing from a request is the empty string. */
  class Store {
    var users: map<string, User>
    var transactions: seq<TxRecord>
    var dailyScores: map<(string, Date), int>

    constructor ()
      ensures users == map[] && transactions == [] && dailyScores == map[]
    {
      users, transactions, dailyScores := map[], [], map[];
    }

    /** `get_user`. */
    function GetUser(wallet: string): (r: Option<User>)
      reads this
      ensures r.Some? <==> wallet in users
      ensures r.Some? ==> r.value == users[wallet]
    {
      if wallet in users then Some(users[wallet]) else None
    }

    /** `create_user`: inserts the default row (only called for a wallet
        that has none). */
    method CreateUser(wallet: string) returns (u: User)
      requires wallet !in users
      modifies this
      ensures users == old(users)[wallet := NewUser] && u == NewUser
      ensures transactions == old(transactions) && dailyScores == old(dailyScores)
    {
      users := users[wallet := NewUser];
      u := NewUser;
    }

    /** The lookup-or-insert used by several handlers, without the reset. */
    method GetOrCreateRow(wallet: string) returns (u: User)
      modifies this
      ensures users == old(users)[wallet := u]
      ensures u == if wallet in old(users) then old(users)[wallet] else NewUser
      ensures transactions == old(transactions) && dailyScores == old(dailyScores)
    {
      var found := GetUser(wallet);
      if found.Some? {
        u := found.value;
      } else {
        u := CreateUser(wallet);
      }
    }

    /** `update_user`: collects the allow-listed columns the request names and
        writes them in one statement; with none it writes nothing. An unknown
        wallet matches no row, and the re-read returns None. */
    method UpdateUser(wallet: string, data: map<string, FieldValue>) returns (r: Option<User>)
      requires WellKinded(data)
      modifies this
      ensures users == if wallet in old(users) then old(users)[wallet := ApplyPatch(old(users)[wallet], data)]
                       else old(users)
      ensures r == GetUser(wallet)
      ensures transactions == old(transactions) && dailyScores == old(dailyScores)
    {
      AssignmentsFit(data, AllowedFields);
      var sets := BuildAssignments(data, AllowedFields);
      if sets == [] {
        AllowedFieldsDistinct();
        AssignmentsEmpty(data, AllowedFields);
        if wallet in users {
          PatchWithoutAllowedField(users[wallet], data);
        }
        r := GetUser(wallet);
        return;
      }
      if wallet in users {
        users := users[wallet := ApplyAll(users[wallet], sets)];
      }
      r := GetUser(wallet);
    }

    /** The loop over the allow-listed columns that collects the `SET`
        list, in column order. */
    static method BuildAssignments(data: map<string, FieldValue>, fields: seq<Field>)
      returns (sets: seq<(Field, FieldValue)>)
      ensures sets == Assignments(data, fields)
    {
      sets := [];
      for k := 0 to |fields|
        invariant sets == Assignments(data, fields[..k])
      {
        var f := fields[k];
        assert fields[..k + 1][..k] == fields[..k];
        if FieldName(f) in data {
          sets := sets + [(f, data[FieldName(f)])];
        }
      }
      assert fields[..|fields|] == fields;
    }

    /** `check_and_reset_daily_games` for a wallet that has a row. */
    method CheckAndResetDailyGames(wallet: string, today: Date) returns (u: User)
      requires wallet in users
      modifies this
      ensures users == old(users)[wallet := DailyReset(old(users)[wallet], today)]
      ensures u == users[wallet]
      ensures transactions == old(transactions) && dailyScores == old(dailyScores)
    {
      var old_u := users[wallet];
      if NeedsReset(old_u.lastplayed, today) {
        ResetUpdatesEffect(old_u, today);
        var r := UpdateUser(wallet, ResetUpdates());
        u := r.value;
      } else {
        u := old_u;
      }
    }

    /** `/get_user`: a new wallet gets the default row and `created`, with no
        reset on that call; a known wallet gets the daily reset. */
    method GetUserEndpoint(wallet: string, today: Date) returns (reply: Reply<UserReply>)
      modifies this
      ensures wallet == "" ==> reply == Fail(400) && users == old(users)
      ensures wallet != "" && wallet !in old(users) ==>
        users == old(users)[wallet := NewUser] && reply == Ok(UserReply(NewUser, true))
      ensures wallet != "" && wallet in old(users) ==>
        users == old(users)[wallet := DailyReset(old(users)[wallet], today)]
        && reply == Ok(UserReply(users[wallet], false))
      ensures transactions == old(transactions) && dailyScores == old(dailyScores)
    {
      if wallet == "" {
        return Fail(400);
      }
      var found := GetUser(wallet);
      if found.None? {
        var u := CreateUser(wallet);
        return Ok(UserReply(u, true));
      }
      var u := CheckAndResetDailyGames(wallet, today);
      return Ok(UserReply(u, false));
    }

    /** `/update_user`: the body without its `walletid` key goes to
        `update_user`; an unknown wallet is 404. */
    method UpdateUserEndpoint(wallet: string, body: map<string, FieldValue>) returns (reply: Reply<User>)
      requires WellKinded(body)
      modifies this
      ensures wallet == "" ==> reply == Fail(400) && users == old(users)
      ensures wallet != "" && wallet !in old(users) ==> reply == Fail(404) && users == old(users)
      ensures wallet != "" && wallet in old(users) ==>
        users == old(users)[wallet := ApplyPatch(old(users)[wallet], body - {"walletid"})]
        && reply == Ok(users[wallet])
      ensures transactions == old(transactions) && dailyScores == old(dailyScores)
    {
      if wallet == "" {
        return Fail(400);
      }
      var data := body - {"walletid"};
      assert WellKinded(data) by {
        forall f: Field | FieldName(f) in data ensures Fits(f, data[FieldName(f)]) {
          assert FieldName(f) in body;
        }
      }
      var r := UpdateUser(wallet, data);
      if r.None? {
        return Fail(404);
      }
      return Ok(r.value);
    }

    /** `/start_game`: free play is always allowed; the row is created if
        missing and no reset is applied. */
    method StartGame(wallet: string) returns (reply: Reply<StartReply>)
      modifies this
      ensures wallet == "" ==> reply == Fail(400) && users == old(users)
      ensures wallet != "" ==>
        && reply.Ok? && reply.value.canPlay
        && users == old(users)[wallet := reply.value.user]
        && reply.value.user == (if wallet in old(users) then old(users)[wallet] else NewUser)
      ensures transactions == old(transactions) && dailyScores == old(dailyScores)
    {
      if wallet == "" {
        return Fail(400);
      }
      var u := GetOrCreateRow(wallet);
      return Ok(StartReply(true, u));
    }

    /** `/transaction`: validates, appends exactly one log row, then applies
        the payment to the (possibly new) user row. */
    method Transaction(wallet: string, hash: string, paid: NumField, col1: string, col2: string)
      returns (reply: Reply<PaymentReply>)
      modifies this
      ensures wallet == "" || hash == "" || paid.Absent? ==>
        reply == Fail(400) && users == old(users) && transactions == old(transactions)
      ensures wallet != "" && hash != "" && paid.NotNumeric? ==>
        reply == Fail(500) && users == old(users) && transactions == old(transactions)
      ensures wallet != "" && hash != "" && paid.Number? ==>
        var before := if wallet in old(users) then old(users)[wallet] else NewUser;
        && transactions == old(transactions) + [TxRecord(wallet, hash, paid.value, col1, col2)]
        && users == old(users)[wallet := ApplyPayment(before, col1, paid.value)]
        && reply == Ok(PaymentReply(Classify(col1, paid.value).GrantAccess?, users[wallet].paid))
      ensures dailyScores == old(dailyScores)
    {
      if wallet == "" || hash == "" || paid.Absent? {
        return Fail(400);
      }
      if paid.NotNumeric? {
        return Fail(500);
      }
      var amount := paid.value;
      transactions := transactions + [TxRecord(wallet, hash, amount, col1, col2)];
      var u := GetOrCreateRow(wallet);
      PaymentUpdatesEffect(u, col1, amount);
      var updated := UpdateUser(wallet, PaymentUpdates(u, col1, amount));
      return Ok(PaymentReply(Classify(col1, amount).GrantAccess?, u.paid + amount));
    }

    /** `/update_game_score`: the row is looked up or created first; the score
        always raises `highest`; when the user has access and a non-zero
        games-left count the score also counts for the leaderboard and the
        day's table. The reply's flag is the access flag either way. */
    method UpdateGameScore(wallet: string, score: NumField, today: Date) returns (reply: Reply<ScoreReply>)
      modifies this
      ensures wallet == "" || score.Absent? ==>
        reply == Fail(400) && users == old(users) && dailyScores == old(dailyScores)
      ensures wallet != "" && score.NotNumeric? ==>
        reply == Fail(500) && dailyScores == old(dailyScores)
        && users == old(users)[wallet := if wallet in old(users) then old(users)[wallet] else NewUser]
      ensures wallet != "" && score.Number? ==>
        var before := if wallet in old(users) then old(users)[wallet] else NewUser;
        && users == old(users)[wallet := SubmitScore(before, score.value, today)]
        && dailyScores == (if Counts(before) then UpsertMax(old(dailyScores), (wallet, today), score.value)
                           else old(dailyScores))
        && reply == Ok(ScoreReply(users[wallet], before.access))
      ensures transactions == old(transactions)
    {
      if wallet == "" || score.Absent? {
        return Fail(400);
      }
      var u := GetOrCreateRow(wallet);
      var hasAccess := u.access;
      if score.NotNumeric? {
        return Fail(500);
      }
      var s := score.value;
      if hasAccess && u.gameleft != 0 {
        dailyScores := UpsertMax(dailyScores, (wallet, today), s);
      }
      ScoreUpdatesEffect(u, s, today);
      var updated := UpdateUser(wallet, ScoreUpdates(u, s, today));
      return Ok(ScoreReply(updated.value, hasAccess));
    }

    /** `/buy_games`: adds the games and their price to the row, with
        defaults of one game at 500000; writes no log row. */
    method BuyGames(wallet: string, games: NumField, price: NumField) returns (reply: Reply<BuyReply>)
      modifies this
      ensures wallet == "" || games.NotNumeric? || price.NotNumeric? ==> users == old(users)
      ensures wallet == "" ==> reply == Fail(400)
      ensures wallet != "" && (games.NotNumeric? || price.NotNumeric?) ==> reply == Fail(500)
      ensures wallet != "" && !games.NotNumeric? && !price.NotNumeric? ==>
        var n := if games.Number? then games.value else DefaultGamesToBuy;
        var p := if price.Number? then price.value else DefaultPricePerGame;
        var before := if wallet in old(users) then old(users)[wallet] else NewUser;
        && users == old(users)[wallet := AddGames(before, n, TotalPaid(p, n))]
        && reply == Ok(BuyReply(n, TotalPaid(p, n), before.gameleft + n, users[wallet]))
      ensures transactions == old(transactions) && dailyScores == old(dailyScores)
    {
      if wallet == "" {
        return Fail(400);
      }
      if games.NotNumeric? || price.NotNumeric? {
        return Fail(500);
      }
      var n := if games.Number? then games.value else DefaultGamesToBuy;
      var p := if price.Number? then price.value else DefaultPricePerGame;
      reply := Purchase(wallet, n, TotalPaid(p, n));
    }

    /** The purchase itself, once the request has been read. */
    method Purchase(wallet: string, n: int, total: int) returns (reply: Reply<BuyReply>)
      modifies this
      ensures var before := if wallet in old(users) then old(users)[wallet] else NewUser;
        && users == old(users)[wallet := AddGames(before, n, total)]
        && reply == Ok(BuyReply(n, total, before.gameleft + n, users[wallet]))
      ensures transactions == old(transactions) && dailyScores == old(dailyScores)
    {
      var u := GetOrCreateRow(wallet);
      BuyUpdatesEffect(u, n, total);
      var updated := UpdateUser(wallet, BuyUpdates(u, n, total));
      reply := Ok(BuyReply(n, total, u.gameleft + n, updated.value));
    }

    /** `/leaderboard`: the top list, the number of access holders, and the
        caller's rank when the caller is a known access holder. */
    method Leaderboard(wallet: string) returns (reply: LeaderboardReply)
      ensures |reply.top| == Min(TopListSize, |Holders(users)|)
      ensures exists top :: (IsTopList(users, top) && |top| == |reply.top|
                             && forall i :: 0 <= i < |top| ==> reply.top[i] == (top[i], users[top[i]]))
      ensures reply.total == |Holders(users)|
      ensures reply.rank.Some? <==> wallet != "" && wallet in Holders(users)
      ensures reply.rank.Some? ==> reply.rank.value == (Rank(users, wallet), users[wallet])
    {
      var us := users;
      var top := TopAccessHolders(us);
      var rows := seq(|top|, i requires 0 <= i < |top| => (top[i], us[top[i]]));
      var rank: Option<(nat, User)> := None;
      if wallet != "" && wallet in users && users[wallet].access {
        rank := Some((Rank(users, wallet), users[wallet]));
      }
      reply := LeaderboardReply(rows, |Holders(users)|, rank);
    }

    /** `/daily_winner` for a day (the caller passes today when no date is
        given); the prize is always 1000000. */
    method DailyWinner(d: Date) returns (reply: WinnerReply)
      ensures reply.prize == DailyPrize && reply.date == d
      ensures reply.winner.None? <==> PlayersOn(dailyScores, d) == {}
      ensures reply.winner.Some? ==>
        var (w, s, u) := reply.winner.value;
        && (w, d) in dailyScores && s == dailyScores[(w, d)] && u == GetUser(w)
        && forall v :: v in PlayersOn(dailyScores, d) ==> dailyScores[(v, d)] <= s
    {
      var best := PickDailyWinner(dailyScores, d);
      if best.None? {
        reply := WinnerReply(None, d, DailyPrize);
      } else {
        var (w, s) := best.value;
        reply := WinnerReply(Some((w, s, GetUser(w))), d, DailyPrize);
      }
    }

    /** `/admin/reset-balances`: every row's amount becomes 0, nothing else
        changes, and the reply is the number of rows. */
    method ResetAllBalances() returns (affected: nat)
      modifies this
      ensures users.Keys == old(users).Keys
      ensures forall w :: w in users ==> users[w] == old(users)[w].(amount := 0)
      ensures affected == |old(users)|
      ensures transactions == old(transactions) && dailyScores == old(dailyScores)
    {
      affected := |users|;
      users := map w | w in users :: users[w].(amount := 0);
    }
  }

  /** A first-time wallet sees 0 games left on its first `/get_user` and 3 on
      its second the same day: the created row has an empty `lastplayed`,
      which the second call reads as a new day. */
  lemma SecondLookupOfNewWalletResets(today: Date)
    ensures NewUser.gameleft == 0
    ensures DailyReset(NewUser, today).gameleft == FreeGamesPerDay
  {
  }
}
