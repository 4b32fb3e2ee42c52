/** The raffle entry route of the Express server, and its explorer-based
    transaction check. The request fields arrive as JSON: a field that is
    not a string is None where a string is expected, and the amount is
    `Number(amount)` read as a whole number, None when that conversion gives
    NaN, an infinity or a fraction (none of which passes the
    multiple-of-1000 test). */
module RaffleEntry {
  import opened Wrappers
  import opened Text
  import opened JsValues
  import opened RaffleStore

  const RaffleAddress: string := "QXMRTGRTCNFTPFQQKLEZGUQSQVLBBCWACWJVSNAHDCEADGKGGCCXGDSDBDSG"
  const MinEntryAmount: int := 1000

  /** A transaction id: a string of exactly sixty lower-case letters. */
  predicate ValidTxId(txId: Option<string>)
  {
    txId.Some? && IsTxId(txId.value)
  }

  /** An amount of at least 1000 that is a multiple of 1000 (a positive
      amount, so the truncating `%` of JavaScript agrees with Dafny's). */
  predicate ValidAmount(amount: Option<int>)
  {
    amount.Some? && amount.value >= MinEntryAmount && amount.value % MinEntryAmount == 0
  }

  /** A non-empty string. */
  predicate ValidWallet(wallet: Option<string>)
  {
    wallet.Some? && wallet.value != ""
  }

  datatype EntryRefusal = BadTxId | BadAmount | BadWallet | TxAlreadyUsed

  datatype EntryReply = Entered | EntryRejected(status: int, reason: EntryRefusal)

  /** `POST /api/raffle/entry`: the three field checks in order, then the
      duplicate check against the stored pool, then the append and save. The
      sheet logging after the save cannot change the reply. */
  method Enter(file: RaffleFile, txId: Option<string>, amount: Option<int>, wallet: Option<string>, now: int)
    returns (reply: EntryReply)
    modifies file
    ensures !ValidTxId(txId) ==> reply == EntryRejected(400, BadTxId)
    ensures ValidTxId(txId) && !ValidAmount(amount) ==> reply == EntryRejected(400, BadAmount)
    ensures ValidTxId(txId) && ValidAmount(amount) && !ValidWallet(wallet) ==> reply == EntryRejected(400, BadWallet)
    ensures ValidTxId(txId) && ValidAmount(amount) && ValidWallet(wallet) ==>
      var s := Loaded(old(file.stored), now);
      && (txId.value in s.entryPool ==> reply == EntryRejected(400, TxAlreadyUsed))
      && (txId.value !in s.entryPool ==>
            reply == Entered && file.stored == Some(s.(entryPool := s.entryPool + [txId.value])))
    ensures reply != Entered ==> file.stored == old(file.stored)
    ensures NoDuplicates(Loaded(old(file.stored), now).entryPool) ==> NoDuplicates(Loaded(file.stored, now).entryPool)
  {
    if txId.None? || !IsTxId(txId.value) {
      return EntryRejected(400, BadTxId);
    }
    if amount.None? || amount.value < MinEntryAmount || amount.value % MinEntryAmount != 0 {
      return EntryRejected(400, BadAmount);
    }
    if wallet.None? || wallet.value == "" {
      return EntryRejected(400, BadWallet);
    }
    var state := file.LoadState(now);
    if txId.value in state.entryPool {
      return EntryRejected(400, TxAlreadyUsed);
    }
    if NoDuplicates(state.entryPool) {
      AppendFreshKeepsNoDuplicates(state.entryPool, txId.value);
    }
    state := state.(entryPool := state.entryPool + [txId.value]);
    file.SaveState(state);
    return Entered;
  }

  // ---------------------------------------------------------------------
  // The request body

  /** The key the route reads the wallet from. */
  const RouteWalletKey: string := "wallet"

  /** The key both entry forms post the wallet under. */
  const FormWalletKey: string := "walletId"

  /** A body field when it is a string. */
  function StringField(body: map<string, Json>, key: string): (r: Option<string>)
    ensures r.Some? <==> key in body && body[key].JString?
    ensures r.Some? ==> r.value == body[key].s
  {
    if key in body && body[key].JString? then Some(body[key].s) else None
  }

  /** `Number(body[key])` when it is a whole number; None when the field is
      missing or converts to NaN, an infinity or a fraction. */
  function NumberField(body: map<string, Json>, key: string): (r: Option<int>)
    ensures r.Some? <==> key in body && ToNumber(body[key]).Some? && IntegerOf(ToNumber(body[key]).value).Some?
    ensures r.Some? ==> r.value as real == RealValue(ToNumber(body[key]).value)
  {
    if key in body && ToNumber(body[key]).Some? then IntegerOf(ToNumber(body[key]).value) else None
  }

  /** The route refuses an amount v when `v < 1000 || v % 1000 !== 0`, with
      JavaScript's `%` on reals (for v >= 0, v minus 1000 times the floor of
      v / 1000). It passes exactly the decimals whose whole-number reading
      is valid. A falsy amount (0, "", null, false, NaN) fails both ways. */
  lemma AmountCheckOnReals(d: Decimal)
    ensures var v := RealValue(d);
      ValidAmount(IntegerOf(d)) <==> v >= 1000.0 && v - 1000.0 * ((v / 1000.0).Floor as real) == 0.0
  {
    var v := RealValue(d);
    var q := (v / 1000.0).Floor;
    if ValidAmount(IntegerOf(d)) {
      var n := IntegerOf(d).value;
      assert n == 1000 * (n / 1000);
      assert v / 1000.0 == (n / 1000) as real;
    }
    if v >= 1000.0 && v - 1000.0 * (q as real) == 0.0 {
      assert v == (1000 * q) as real;
      assert v.Floor == 1000 * q;
    }
  }

  /** The amount field reads as the whole number its conversion gives; so
      each string spelling of an amount in JsValues reads as its value. */
  lemma AmountReadsConversion(v: Json, d: Decimal)
    requires ToNumber(v) == Some(d)
    ensures NumberField(map["amount" := v], "amount") == IntegerOf(d)
  {
  }

  /** Array and boolean amounts: `[1000]` reads as 1000, a two-element array
      as no number, and `true` as 1, which the amount check refuses. */
  lemma NonStringAmounts()
    ensures NumberField(map["amount" := JArray([JNumber(Decimal(1000, 0))])], "amount") == Some(1000)
    ensures NumberField(map["amount" := JArray([JNumber(Decimal(1000, 0)), JNumber(Decimal(1000, 0))])], "amount") == None
    ensures NumberField(map["amount" := JBool(true)], "amount") == Some(1) && !ValidAmount(Some(1))
  {
  }

  /** The transaction id, amount and wallet the route takes from the body,
      with the wallet read under walletKey. */
  function RequestFields(body: map<string, Json>, walletKey: string): (Option<string>, Option<int>, Option<string>)
  {
    (StringField(body, "txId"), NumberField(body, "amount"), StringField(body, walletKey))
  }

  /** The body the entry forms post. */
  function FormBody(walletId: string, txId: string, amount: Json): map<string, Json>
  {
    map[FormWalletKey := JString(walletId), "txId" := JString(txId), "amount" := amount]
  }

  /** As written, the route reads the wallet under `wallet`, which a form
      post does not have: the wallet check refuses every form post, however
      well-formed. */
  lemma FormPostLacksRouteWallet(walletId: string, txId: string, amount: Json)
    ensures RequestFields(FormBody(walletId, txId, amount), RouteWalletKey).2 == None
    ensures !ValidWallet(RequestFields(FormBody(walletId, txId, amount), RouteWalletKey).2)
  {
    assert RouteWalletKey !in FormBody(walletId, txId, amount);
  }

  /** Read under `walletId`, a form post gives back the three values it
      carries, so ids and an amount that pass the form's checks and are a
      multiple of 1000 pass all three field checks. */
  lemma FormPostReadsBack(walletId: string, txId: string, amount: Json)
    ensures RequestFields(FormBody(walletId, txId, amount), FormWalletKey) ==
      (Some(txId), NumberField(FormBody(walletId, txId, amount), "amount"), Some(walletId))
    ensures IsWalletId(walletId) && IsTxId(txId) && amount.JNumber? && ValidAmount(IntegerOf(amount.n)) ==>
      var (t, a, w) := RequestFields(FormBody(walletId, txId, amount), FormWalletKey);
      ValidTxId(t) && ValidAmount(a) && ValidWallet(w)
  {
    var body := FormBody(walletId, txId, amount);
    assert body["txId"] == JString(txId) && body[FormWalletKey] == JString(walletId);
    assert body["amount"] == amount;
  }

  /** The entry route over a request body, with the wallet read under the
      key the forms post it under. */
  method EnterRequest(file: RaffleFile, body: map<string, Json>, now: int) returns (reply: EntryReply)
    modifies file
    ensures var (t, a, w) := RequestFields(body, FormWalletKey);
      var s := Loaded(old(file.stored), now);
      && (reply == Entered <==> ValidTxId(t) && ValidAmount(a) && ValidWallet(w) && t.value !in s.entryPool)
      && (reply == Entered ==> file.stored == Some(s.(entryPool := s.entryPool + [t.value])))
      && (reply != Entered ==> file.stored == old(file.stored))
  {
    var (t, a, w) := RequestFields(body, FormWalletKey);
    reply := Enter(file, t, a, w, now);
  }

  /** One transaction of the explorer's list for a wallet, with its amount
      field as the explorer's JSON gives it (None when the field is absent). */
  datatype ExplorerTx = ExplorerTx(recipient: string, amount: Option<Json>)

  /** `Number(tx.amount)`: None for NaN (an absent field gives NaN) and for
      an infinity. */
  function AmountOf(tx: ExplorerTx): (r: Option<real>)
    ensures r.Some? <==> tx.amount.Some? && ToNumber(tx.amount.value).Some?
    ensures r.Some? ==> r.value == RealValue(ToNumber(tx.amount.value).value)
  {
    if tx.amount.Some? && ToNumber(tx.amount.value).Some? then Some(RealValue(ToNumber(tx.amount.value).value))
    else None
  }

  /** The filter of `verifyTransaction`: sent to the raffle address, and for
      at least the minimum entry amount; fractions count at their value. */
  predicate Counts(tx: ExplorerTx)
  {
    tx.recipient == RaffleAddress && AmountOf(tx).Some? && AmountOf(tx).value >= MinEntryAmount as real
  }

  /** What one transaction adds to the total. */
  function Credit(tx: ExplorerTx): (c: real)
    ensures Counts(tx) ==> c == AmountOf(tx).value && c >= MinEntryAmount as real
    ensures !Counts(tx) ==> c == 0.0
  {
    if Counts(tx) then AmountOf(tx).value else 0.0
  }

  /** The sum of the amounts of the transactions that pass the filter. */
  function CountedTotal(txs: seq<ExplorerTx>): real
  {
    if txs == [] then 0.0 else CountedTotal(txs[..|txs| - 1]) + Credit(txs[|txs| - 1])
  }

  /** The counted total is at least each counted amount, and is at least the
      minimum exactly when some transaction counts. */
  lemma {:induction false} CountedTotalBounds(txs: seq<ExplorerTx>)
    ensures CountedTotal(txs) >= 0.0
    ensures forall i :: 0 <= i < |txs| && Counts(txs[i]) ==> CountedTotal(txs) >= AmountOf(txs[i]).value
    ensures CountedTotal(txs) >= MinEntryAmount as real <==> exists i :: 0 <= i < |txs| && Counts(txs[i])
  {
    if txs != [] {
      var init := txs[..|txs| - 1];
      CountedTotalBounds(init);
      forall i | 0 <= i < |txs| && Counts(txs[i]) ensures CountedTotal(txs) >= AmountOf(txs[i]).value {
        if i < |init| {
          assert init[i] == txs[i];
        }
      }
      if CountedTotal(txs) >= MinEntryAmount as real && !Counts(txs[|txs| - 1]) {
        var i :| 0 <= i < |init| && Counts(init[i]);
        assert txs[i] == init[i];
      }
      if exists i :: 0 <= i < |txs| && Counts(txs[i]) {
        var i :| 0 <= i < |txs| && Counts(txs[i]);
        assert CountedTotal(txs) >= AmountOf(txs[i]).value;
      }
    }
  }

  /** Fractional amounts are summed at their value: 1500.5 and 1499.5 sent
      to the raffle make 3000, while 999.5 is filtered out. */
  lemma FractionalAmountsSum()
    ensures CountedTotal([ExplorerTx(RaffleAddress, Some(JNumber(Decimal(15005, -1)))),
                          ExplorerTx(RaffleAddress, Some(JNumber(Decimal(14995, -1)))),
                          ExplorerTx(RaffleAddress, Some(JNumber(Decimal(9995, -1))))]) == 3000.0
  {
    TenthsValue(15005);
    TenthsValue(14995);
    TenthsValue(9995);
    var a := ExplorerTx(RaffleAddress, Some(JNumber(Decimal(15005, -1))));
    var b := ExplorerTx(RaffleAddress, Some(JNumber(Decimal(14995, -1))));
    var c := ExplorerTx(RaffleAddress, Some(JNumber(Decimal(9995, -1))));
    assert AmountOf(a) == Some(1500.5) && AmountOf(b) == Some(1499.5) && AmountOf(c) == Some(999.5);
    assert Counts(a) && Counts(b) && !Counts(c);
    assert [a, b, c][..2] == [a, b] && [a, b][..1] == [a] && [a][..0] == [];
    assert CountedTotal([a]) == 1500.5;
    assert CountedTotal([a, b]) == 3000.0;
  }

  datatype Verification = Verification(valid: bool, entries: nat)

  /** `verifyTransaction`: the explorer reply is None when the fetch fails or
      throws (the URL built from the wallet is not modelled); a missing list
      is the empty list. */
  method VerifyTransaction(fetched: Option<seq<ExplorerTx>>) returns (v: Verification)
    ensures fetched.None? ==> v == Verification(false, 0)
    ensures fetched.Some? ==>
      && (v.valid <==> exists i :: 0 <= i < |fetched.value| && Counts(fetched.value[i]))
      && (v.valid ==> (v.entries * MinEntryAmount) as real <= CountedTotal(fetched.value) < ((v.entries + 1) * MinEntryAmount) as real)
      && (!v.valid ==> v.entries == 0)
  {
    if fetched.None? {
      return Verification(false, 0);
    }
    var txs := fetched.value;
    var total := 0.0;
    for i := 0 to |txs|
      invariant total == CountedTotal(txs[..i])
    {
      assert txs[..i + 1][..i] == txs[..i];
      var amount := AmountOf(txs[i]);
      if txs[i].recipient == RaffleAddress && amount.Some? && amount.value >= MinEntryAmount as real {
        total := total + amount.value;
      }
    }
    assert txs[..|txs|] == txs;
    CountedTotalBounds(txs);
    if total < MinEntryAmount as real {
      return Verification(false, 0);
    }
    var entries := (total / MinEntryAmount as real).Floor;
    return Verification(true, entries);
  }
}
