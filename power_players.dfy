/** The power-players routes: the verified list read from a sheet, with its
    wallet normalisation and filter, and the submit route's validation.
    The sheet itself is outside the model: what it returns, and whether a
    call on it fails, are parameters. */
module PowerPlayers {
  import opened Wrappers
  import opened Text

  const ConfigMessage: string := "POWER_PLAYERS_SHEET_ID is not configured"
  const InvalidWalletMessage: string := "Invalid wallet ID format. Must be 60 uppercase letters."
  const DefaultVerifiedTab: string := "Verified"
  const DefaultSubmissionsTab: string := "Submissions"

  /** A sheet cell as the route sees it: a string, or any other value. */
  datatype Cell = Str(text: string) | Other

  type Row = seq<Cell>

  /** One entry of the list. */
  datatype Item = Item(walletId: string, verifiedAt: Option<string>)

  datatype Body = Items(items: seq<Item>) | Success | Error(message: string)

  datatype Response = Response(status: int, body: Body)

  /** `row?.[i]` when it is a string. */
  function StringCell(row: Row, i: nat): (r: Option<string>)
    ensures r.Some? <==> i < |row| && row[i].Str?
    ensures r.Some? ==> r.value == row[i].text
  {
    if i < |row| && row[i].Str? then Some(row[i].text) else None
  }

  /** Trimmed and upper-cased when a string, the empty string otherwise. */
  function Normalize(v: Option<string>): string
  {
    match v
    case Some(s) => ToUpper(Trim(s))
    case None => ""
  }

  /** An environment value as JavaScript tests it: missing and empty are
      both false. */
  predicate Configured(env: Option<string>)
  {
    env.Some? && env.value != ""
  }

  /** `${env || fallback}!A:B`. */
  function SheetRange(tab: Option<string>, fallback: string): (range: string)
    ensures Configured(tab) ==> range == tab.value + "!A:B"
    ensures !Configured(tab) ==> range == fallback + "!A:B"
  {
    (if Configured(tab) then tab.value else fallback) + "!A:B"
  }

  // ---------------------------------------------------------------------
  // The list

  /** The mapping step: the first cell normalised, the second kept when it
      is a string. */
  function ToItem(row: Row): (item: Item)
    ensures !(|row| > 0 && row[0].Str?) ==> item.walletId == ""
    ensures item.verifiedAt == StringCell(row, 1)
  {
    Item(Normalize(StringCell(row, 0)), StringCell(row, 1))
  }

  /** The map-then-filter chain over the sheet rows. */
  function Listed(values: seq<Row>): (items: seq<Item>)
    ensures |items| <= |values|
    ensures forall k :: 0 <= k < |items| ==> IsWalletId(items[k].walletId)
  {
    if values == [] then []
    else
      var item := ToItem(values[0]);
      if IsWalletId(item.walletId) then [item] + Listed(values[1..]) else Listed(values[1..])
  }

  /** The list is the rows' items that pass, in the rows' order. */
  lemma {:induction false} ListedAppend(a: seq<Row>, b: seq<Row>)
    ensures Listed(a + b) == Listed(a) + Listed(b)
    decreases |a|
  {
    if a == [] {
      assert a + b == b;
    } else {
      assert (a + b)[0] == a[0];
      assert (a + b)[1..] == a[1..] + b;
      ListedAppend(a[1..], b);
      var x := ToItem(a[0]);
      if IsWalletId(x.walletId) {
        assert Listed(a + b) == [x] + Listed(a[1..] + b);
        ConcatAssoc([x], Listed(a[1..]), Listed(b));
      } else {
        assert Listed(a + b) == Listed(a[1..] + b);
      }
    }
  }

  lemma ConcatAssoc<T>(x: seq<T>, y: seq<T>, z: seq<T>)
    ensures x + (y + z) == (x + y) + z
  {
  }

  /** An item is listed exactly when some row maps to it and its wallet id
      is sixty letters A to Z. */
  lemma {:induction false} ListedMember(values: seq<Row>, item: Item)
    ensures item in Listed(values) <==>
      IsWalletId(item.walletId) && exists r :: r in values && ToItem(r) == item
    decreases |values|
  {
    if values != [] {
      ListedMember(values[1..], item);
      if item in Listed(values) && ToItem(values[0]) != item {
        var r :| r in values[1..] && ToItem(r) == item;
        assert r in values;
      }
      if IsWalletId(item.walletId) && ToItem(values[0]) != item {
        if r :| r in values && ToItem(r) == item {
          assert r in values[1..];
        }
      }
    }
  }

  /** A row whose first cell is missing or not a string is dropped. */
  lemma NonStringDropped(row: Row)
    requires !(|row| > 0 && row[0].Str?)
    ensures Listed([row]) == []
  {
    assert |[row][1..]| == 0;
  }

  /** A wallet id written with white space around it is listed as itself,
      with the second cell as its verification time. */
  lemma PaddedWalletListed(before: string, w: string, after: string, verifiedAt: string)
    requires AllWhitespace(before) && AllWhitespace(after) && IsWalletId(w)
    ensures Listed([[Str(before + w + after), Str(verifiedAt)]]) == [Item(w, Some(verifiedAt))]
  {
    TrimPadded(before, w, after);
    ToUpperOfLetters(w);
    var row := [Str(before + w + after), Str(verifiedAt)];
    assert ToItem(row) == Item(w, Some(verifiedAt));
    assert |[row][1..]| == 0;
  }

  /** The characters whose upper case is made of the letters A to Z only. */
  predicate UppersToLetters(c: char)
  {
    IsUpperLetter(c) || IsLowerLetter(c) || c == '\U{0131}' || c == '\U{017F}' || c == '\U{00DF}'
    || ('\U{FB00}' <= c <= '\U{FB06}')
  }

  predicate AllUpperLetters(s: string)
  {
    forall i :: 0 <= i < |s| ==> IsUpperLetter(s[i])
  }

  /** Upper-casing yields only letters A to Z exactly when every character
      is a Latin letter or one of the few that upper-case to them. */
  lemma {:induction false} UpperLettersIff(t: string)
    ensures AllUpperLetters(ToUpper(t)) <==> forall i :: 0 <= i < |t| ==> UppersToLetters(t[i])
    decreases |t|
  {
    if t != [] {
      UpperLettersIff(t[1..]);
      var u, rest := UpperChar(t[0]), ToUpper(t[1..]);
      assert ToUpper(t) == u + rest;
      UpperCharLetters(t[0]);
      AllUpperConcat(u, rest);
      assert (forall i :: 0 <= i < |t| ==> UppersToLetters(t[i])) <==>
        UppersToLetters(t[0]) && forall i :: 0 <= i < |t[1..]| ==> UppersToLetters(t[1..][i]) by {
        if UppersToLetters(t[0]) && forall i :: 0 <= i < |t[1..]| ==> UppersToLetters(t[1..][i]) {
          forall i | 0 <= i < |t| ensures UppersToLetters(t[i]) {
            if i > 0 { assert t[i] == t[1..][i - 1]; }
          }
        }
      }
    }
  }

  lemma UpperCharLetters(c: char)
    ensures AllUpperLetters(UpperChar(c)) <==> UppersToLetters(c)
  {
    if 'a' <= c <= 'z' {
      assert UpperChar(c)[0] as int == c as int - 32;
    } else if !UppersToLetters(c) {
      assert UpperChar(c) == [c] && UpperChar(c)[0] == c;
    }
  }

  lemma AllUpperConcat(u: string, rest: string)
    ensures AllUpperLetters(u + rest) <==> AllUpperLetters(u) && AllUpperLetters(rest)
  {
    if AllUpperLetters(u + rest) {
      forall i | 0 <= i < |u| ensures IsUpperLetter(u[i]) {
        assert u[i] == (u + rest)[i];
      }
      forall i | 0 <= i < |rest| ensures IsUpperLetter(rest[i]) {
        assert rest[i] == (u + rest)[|u| + i];
      }
    }
  }

  /** A string cell is kept exactly when its trimmed text upper-cases to
      sixty letters A to Z, which needs every trimmed character to be one
      that upper-cases to letters. So lower-case ids are listed in upper
      case, and thirty sharp s (`ß`) are listed as sixty `S`. */
  lemma KeptIff(text: string)
    ensures IsWalletId(Normalize(Some(text))) <==>
      |ToUpper(Trim(text))| == 60 && forall i :: 0 <= i < |Trim(text)| ==> UppersToLetters(Trim(text)[i])
  {
    UpperLettersIff(Trim(text));
  }

  /** A first cell of n sharp s (`ß`) is kept exactly when n is thirty:
      it is listed as sixty `S`. */
  lemma SharpSListed(n: nat)
    ensures IsWalletId(Normalize(Some(Repeat('\U{00DF}', n)))) <==> n == 30
  {
    UpperSharpS(n);
    SharpSTrimmed(n);
  }

  lemma SharpSTrimmed(n: nat)
    ensures Trim(Repeat('\U{00DF}', n)) == Repeat('\U{00DF}', n)
  {
    var t := Repeat('\U{00DF}', n);
    if n > 0 {
      assert !IsJsWhitespace(t[0]) && !IsJsWhitespace(t[n - 1]);
      TrimPadded([], t, []);
      assert [] + t + [] == t;
    } else {
      assert t == [];
    }
  }

  function Repeat(c: char, n: nat): (s: string)
    ensures |s| == n && forall i :: 0 <= i < n ==> s[i] == c
  {
    if n == 0 then [] else [c] + Repeat(c, n - 1)
  }

  lemma {:induction false} UpperSharpS(n: nat)
    ensures |ToUpper(Repeat('\U{00DF}', n))| == 2 * n
    ensures AllUpperLetters(ToUpper(Repeat('\U{00DF}', n)))
  {
    if n > 0 {
      UpperSharpS(n - 1);
      var t := Repeat('\U{00DF}', n);
      assert t[1..] == Repeat('\U{00DF}', n - 1);
      var rest := ToUpper(t[1..]);
      assert ToUpper(t) == "SS" + rest;
      forall i | 0 <= i < 2 * n ensures IsUpperLetter(ToUpper(t)[i]) {
        if i >= 2 { assert ToUpper(t)[i] == rest[i - 2]; }
      }
    }
  }

  /** `GET /api/power-players`. `fetched` is what the sheet returned for the
      verified tab (None for a missing `values` field), `failure` the
      message of an exception from the sheet client. */
  function List(sheetId: Option<string>, fetched: Option<seq<Row>>, failure: Option<string>): (r: Response)
    ensures !Configured(sheetId) ==> r == Response(500, Error(ConfigMessage))
    ensures Configured(sheetId) && failure.Some? ==> r == Response(500, Error(failure.value))
    ensures Configured(sheetId) && failure.None? && fetched.None? ==> r == Response(200, Items([]))
    ensures Configured(sheetId) && failure.None? && fetched.Some? ==> r == Response(200, Items(Listed(fetched.value)))
    ensures r.status == 200 <==> Configured(sheetId) && failure.None?
  {
    if !Configured(sheetId) then Response(500, Error(ConfigMessage))
    else if failure.Some? then Response(500, Error(failure.value))
    else Response(200, Items(Listed(if fetched.Some? then fetched.value else [])))
  }

  // ---------------------------------------------------------------------
  // The submit route

  /** The submit route's answer and the row it asks the sheet to append,
      if it gets that far. */
  datatype SubmitOutcome = SubmitOutcome(response: Response, appended: Option<seq<string>>)

  /** `POST /api/power-players/submit`. `walletId` is the body's field when
      it is a string, `now` the ISO time stamp, `failure` the message of an
      exception from the sheet client. */
  function Submit(walletId: Option<string>, sheetId: Option<string>, now: string, failure: Option<string>): (r: SubmitOutcome)
    ensures r.response.status == 400 <==> !IsWalletId(Normalize(walletId))
    ensures r.response.status == 400 ==> r.response.body == Error(InvalidWalletMessage) && r.appended == None
    ensures IsWalletId(Normalize(walletId)) && !Configured(sheetId) ==>
      r == SubmitOutcome(Response(500, Error(ConfigMessage)), None)
    ensures r.appended.Some? <==> IsWalletId(Normalize(walletId)) && Configured(sheetId)
    ensures r.appended.Some? ==> r.appended.value == [now, Normalize(walletId)]
    ensures r.response.status == 200 <==> r.appended.Some? && failure.None?
    ensures r.response.status == 200 ==> r.response.body == Success
    ensures r.appended.Some? && failure.Some? ==> r.response == Response(500, Error(failure.value))
  {
    var normalized := Normalize(walletId);
    if !IsWalletId(normalized) then SubmitOutcome(Response(400, Error(InvalidWalletMessage)), None)
    else if !Configured(sheetId) then SubmitOutcome(Response(500, Error(ConfigMessage)), None)
    else
      var row := [now, normalized];
      if failure.Some? then SubmitOutcome(Response(500, Error(failure.value)), Some(row))
      else SubmitOutcome(Response(200, Success), Some(row))
  }

  /** A submitted id that the route accepts is one the list would show: a
      verified row holding the normalised id and a time stamp is listed as
      itself. (The submit route appends time stamp first, to another tab; a
      row reaches the verified tab outside this code.) */
  lemma SubmittedIsListed(walletId: Option<string>, sheetId: Option<string>, now: string)
    requires Submit(walletId, sheetId, now, None).response.status == 200
    ensures var w := Normalize(walletId);
      Listed([[Str(w), Str(now)]]) == [Item(w, Some(now))]
  {
    var w := Normalize(walletId);
    assert IsWalletId(w);
    WalletListed(w, now);
  }

  lemma WalletListed(w: string, verifiedAt: string)
    requires IsWalletId(w)
    ensures Listed([[Str(w), Str(verifiedAt)]]) == [Item(w, Some(verifiedAt))]
  {
    var row := [Str(w), Str(verifiedAt)];
    assert StringCell(row, 0) == Some(w) && StringCell(row, 1) == Some(verifiedAt);
    NormalizeWallet(w);
    assert ToItem(row) == Item(w, Some(verifiedAt));
    assert |[row][1..]| == 0;
  }

  /** A wallet id is its own normal form. */
  lemma NormalizeWallet(w: string)
    requires IsWalletId(w)
    ensures Normalize(Some(w)) == w
  {
    assert Trim(w) == w by {
      TrimPadded([], w, []);
      assert [] + w + [] == w;
    }
    ToUpperOfLetters(w);
  }


  /** The two routes check the wallet id the same way: an id the submit
      route refuses is never listed, white space and case aside. */
  lemma SubmitAgreesWithList(text: string, sheetId: Option<string>, now: string, verifiedAt: Option<string>)
    ensures Submit(Some(text), sheetId, now, None).response.status == 400 <==>
      Listed([[Str(text)] + (if verifiedAt.Some? then [Str(verifiedAt.value)] else [])]) == []
  {
    var row: Row := [Str(text)] + (if verifiedAt.Some? then [Str(verifiedAt.value)] else []);
    assert row[0] == Str(text);
    assert |[row][1..]| == 0;
  }
}
