/** The entry-count route: the rows of the published CSV sheet, without the
    header row. */
module RaffleCount {
  import opened Wrappers
  import opened Text

  /** `rows.filter(row => row.trim() !== '')`. */
  function NonBlank(rows: seq<string>): (kept: seq<string>)
    ensures |kept| <= |rows|
    ensures forall r {:trigger r in kept} :: r in kept <==> r in rows && Trim(r) != ""
  {
    if rows == [] then []
    else (if Trim(rows[0]) != "" then [rows[0]] else []) + NonBlank(rows[1..])
  }

  /** Filtering a concatenation filters each part and keeps their order. */
  lemma {:induction false} NonBlankAppend(a: seq<string>, b: seq<string>)
    ensures NonBlank(a + b) == NonBlank(a) + NonBlank(b)
    decreases |a|
  {
    if a != [] {
      var head := if Trim(a[0]) != "" then [a[0]] else [];
      assert (a + b)[0] == a[0] && (a + b)[1..] == a[1..] + b;
      NonBlankAppend(a[1..], b);
      var rest, restA, restB := NonBlank(a[1..] + b), NonBlank(a[1..]), NonBlank(b);
      assert rest == restA + restB;
      assert NonBlank(a + b) == head + rest;
      assert NonBlank(a) == head + restA;
      assert head + (restA + restB) == (head + restA) + restB;
    } else {
      assert a + b == b;
    }
  }

  /** One row is kept exactly when it does not trim to empty. With
      NonBlankAppend this fixes the filtered sequence, order and
      repetitions included. */
  lemma NonBlankSingle(r: string)
    ensures NonBlank([r]) == (if Trim(r) != "" then [r] else [])
  {
    assert [r][1..] == [];
  }

  /** The data lines of a CSV text. */
  function Rows(csv: string): seq<string>
  {
    NonBlank(Split(csv, '\n'))
  }

  /** The number of entries: the row count less the header, never negative. */
  function EntryCount(csv: string): (n: nat)
    ensures |Rows(csv)| >= 1 ==> n == |Rows(csv)| - 1
    ensures |Rows(csv)| == 0 ==> n == 0
  {
    Max(0, |Rows(csv)| - 1)
  }

  /** A row is counted exactly when it is not all white space. */
  lemma RowKeptIff(csv: string, r: string)
    ensures r in Rows(csv) <==> r in Split(csv, '\n') && !AllWhitespace(r)
  {
    TrimEmptyIff(r);
  }

  /** A text without a line break is at most one row. */
  lemma SingleLine(line: string)
    requires '\n' !in line
    ensures EntryCount(line) == 0
  {
    SplitJoin([line], '\n');
  }

  /** A header line followed by its line break counts 0. */
  lemma HeaderLine(header: string)
    requires '\n' !in header
    ensures EntryCount(header + "\n") == 0
  {
    var parts := [header, ""];
    SplitJoin(parts, '\n');
    assert Join(parts, '\n') == header + "\n" by {
      assert Join(parts[1..], '\n') == "";
    }
    assert NonBlank(parts[1..]) == [] by {
      assert Trim("") == "";
    }
  }

  /** A header line alone, with or without its line break, counts 0; so does
      an empty text. */
  lemma HeaderOnly(header: string)
    requires '\n' !in header
    ensures EntryCount(header) == 0
    ensures EntryCount(header + "\n") == 0
    ensures EntryCount("") == 0
  {
    SingleLine(header);
    SingleLine("");
    HeaderLine(header);
  }

  /** A header followed by n non-blank lines counts n. */
  lemma {:induction false} CountsDataLines(header: string, lines: seq<string>)
    requires '\n' !in header && Trim(header) != ""
    requires forall i :: 0 <= i < |lines| ==> '\n' !in lines[i] && Trim(lines[i]) != ""
    ensures EntryCount(Join([header] + lines, '\n')) == |lines|
  {
    var parts := [header] + lines;
    assert forall i :: 0 <= i < |parts| ==> '\n' !in parts[i] by {
      forall i | 0 <= i < |parts| ensures '\n' !in parts[i] {
        if i > 0 { assert parts[i] == lines[i - 1]; }
      }
    }
    SplitJoin(parts, '\n');
    AllKept(parts);
  }

  lemma {:induction false} AllKept(rows: seq<string>)
    requires forall i :: 0 <= i < |rows| ==> Trim(rows[i]) != ""
    ensures NonBlank(rows) == rows
  {
    if rows != [] {
      AllKept(rows[1..]);
    }
  }

  datatype CountReply = CountOk(entries: nat) | CountFailed(status: int)

  /** The handler: the fetched sheet is None when the fetch is not ok or
      throws. */
  function CountHandler(fetched: Option<string>): (r: CountReply)
    ensures fetched.None? <==> r == CountFailed(500)
    ensures fetched.Some? ==> r == CountOk(EntryCount(fetched.value))
  {
    if fetched.None? then CountFailed(500) else CountOk(EntryCount(fetched.value))
  }
}
