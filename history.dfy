/** The transaction history view (main.py:263-294): the timestamp of each
    row is parsed in one of two fixed formats, rows are kept when their date
    matches every selected year, month and day, and the kept rows are shown
    newest first. */
module History {
  import opened Wrappers
  import opened Text
  import opened Ledger

  datatype Date = Date(year: int, month: int, day: int)

  /** The three dropdowns; None is a dropdown with nothing selected. */
  datatype Filter = Filter(year: Option<int>, month: Option<int>, day: Option<int>)

  function NoFilter(): Filter {
    Filter(None, None, None)
  }

  predicate Leap(year: int) {
    year % 4 == 0 && (year % 100 != 0 || year % 400 == 0)
  }

  function DaysInMonth(year: int, month: int): int
    requires 1 <= month <= 12
  {
    if month == 2 then (if Leap(year) then 29 else 28)
    else if month == 4 || month == 6 || month == 9 || month == 11 then 30
    else 31
  }

  /** The calendar dates datetime accepts. */
  predicate ValidDate(d: Date) {
    1 <= d.year <= 9999 && 1 <= d.month <= 12 && 1 <= d.day <= DaysInMonth(d.year, d.month)
  }

  /** s split at the first occurrence of each separator in turn. */
  function Fields(s: string, seps: seq<char>): (r: Option<seq<string>>)
    ensures r.Some? ==> |r.value| == |seps| + 1
    decreases |seps|
  {
    if seps == [] then Some([s])
    else
      match Cut(s, seps[0])
      case None => None
      case Some((a, b)) =>
        match Fields(b, seps[1..])
        case None => None
        case Some(rest) => Some([a] + rest)
  }

  /** A numeric directive: between lo and hi decimal digits. */
  function Number(s: string, lo: nat, hi: nat): (r: Option<int>)
    ensures r.Some? ==> r.value >= 0
  {
    if lo <= |s| <= hi && AllDigits(s) then Some(DigitsValue(s)) else None
  }

  /** A parsed date, provided the clock fields were in range. */
  function DateOf(year: Option<int>, month: Option<int>, day: Option<int>, clockOk: bool): (r: Option<Date>)
    ensures r.Some? ==> ValidDate(r.value)
  {
    if year.Some? && month.Some? && day.Some? && clockOk then
      var d := Date(year.value, month.value, day.value);
      if ValidDate(d) then Some(d) else None
    else None
  }

  predicate InRange(n: Option<int>, hi: int) {
    n.Some? && n.value <= hi
  }

  /** strptime(s, "%d/%m/%Y %H:%M") */
  function ParseLegacy(s: string): (r: Option<Date>)
    ensures r.Some? ==> ValidDate(r.value)
  {
    match Fields(s, "// :")
    case None => None
    case Some(fs) =>
      DateOf(Number(fs[2], 4, 4), Number(fs[1], 1, 2), Number(fs[0], 1, 2),
             InRange(Number(fs[3], 1, 2), 23) && InRange(Number(fs[4], 1, 2), 59))
  }

  /** strptime(s, "%Y-%m-%d %H:%M:%S") */
  function ParseIso(s: string): (r: Option<Date>)
    ensures r.Some? ==> ValidDate(r.value)
  {
    match Fields(s, "-- ::")
    case None => None
    case Some(fs) =>
      DateOf(Number(fs[0], 4, 4), Number(fs[1], 1, 2), Number(fs[2], 1, 2),
             InRange(Number(fs[3], 1, 2), 23) && InRange(Number(fs[4], 1, 2), 59) && InRange(Number(fs[5], 1, 2), 59))
  }

  /** The first format, and the second when the first raises ValueError. */
  function ParseTimestamp(s: string): (r: Option<Date>)
    ensures r.Some? ==> ValidDate(r.value)
    ensures ParseLegacy(s).Some? ==> r == ParseLegacy(s)
    ensures ParseLegacy(s).None? ==> r == ParseIso(s)
  {
    match ParseLegacy(s)
    case Some(d) => Some(d)
    case None => ParseIso(s)
  }

  /** A wall-clock reading, as time.strftime sees it. */
  datatype Clock = Clock(year: int, month: int, day: int, hour: int, minute: int, second: int)

  predicate ValidClock(c: Clock) {
    ValidDate(Date(c.year, c.month, c.day)) && 0 <= c.hour <= 23 && 0 <= c.minute <= 59 && 0 <= c.second <= 59
  }

  function Pad2(n: nat): (r: string)
    requires n < 100
    ensures |r| == 2 && AllDigits(r)
  {
    [Digit(n / 10), Digit(n % 10)]
  }

  function Pad4(n: nat): (r: string)
    requires n < 10000
    ensures |r| == 4 && AllDigits(r)
  {
    Pad2(n / 100) + Pad2(n % 100)
  }

  function IsoParts(c: Clock): (parts: seq<string>)
    requires ValidClock(c)
    ensures |parts| == 6 && forall i :: 0 <= i < 6 ==> AllDigits(parts[i])
  {
    [Pad4(c.year), Pad2(c.month), Pad2(c.day), Pad2(c.hour), Pad2(c.minute), Pad2(c.second)]
  }

  /** time.strftime("%Y-%m-%d %H:%M:%S"), the timestamp record_transaction
      writes: the six fields zero-padded and joined by "-", "-", " ", ":", ":". */
  function IsoStamp(c: Clock): string
    requires ValidClock(c)
  {
    Join(IsoParts(c), "-- ::")
  }

  /** The "%Y-%m-%d" part of a checkout timestamp. */
  function IsoDate(c: Clock): (r: string)
    requires ValidClock(c)
    ensures |r| == 10 && forall i :: 0 <= i < |r| ==> !IsSpace(r[i])
  {
    var r := Pad4(c.year) + "-" + Pad2(c.month) + "-" + Pad2(c.day);
    assert forall i :: 0 <= i < |r| ==> IsDigit(r[i]) || r[i] == '-';
    r
  }

  /** The first word of a checkout timestamp, which calculate_daily_sales
      uses as the day of the sale, is its date part. */
  lemma IsoStampDate(c: Clock)
    requires ValidClock(c)
    ensures FirstWord(IsoStamp(c)) == Some(IsoDate(c))
  {
    var rest := IsoStampSplit(c);
    FirstWordOf(IsoDate(c), [' '] + rest);
  }

  /** A checkout timestamp is its date part, a space and the time. */
  lemma IsoStampSplit(c: Clock) returns (rest: string)
    requires ValidClock(c)
    ensures IsoStamp(c) == IsoDate(c) + ([' '] + rest)
  {
    var p := IsoParts(c);
    rest := Join(p[3..], "::");
    JoinDateTime(p);
    ConcatFive(p[0], p[1], p[2], [' '] + rest);
  }

  lemma ConcatFive(a: string, b: string, c: string, x: string)
    ensures a + ['-'] + (b + ['-'] + (c + x)) == a + "-" + b + "-" + c + x
  {
  }

  /** The first three fields joined by "-", "-" come before the space. */
  lemma JoinDateTime(p: seq<string>)
    requires |p| == 6
    ensures Join(p, "-- ::") == p[0] + ['-'] + (p[1] + ['-'] + (p[2] + [' '] + Join(p[3..], "::")))
  {
    assert "-- ::"[1..] == "- ::" && "- ::"[1..] == " ::" && " ::"[1..] == "::";
    assert p[1..][1..] == p[2..] && p[2..][1..] == p[3..];
    var rest := Join(p[3..], "::");
    assert Join(p[2..], " ::") == p[2] + [' '] + rest;
    assert Join(p[1..], "- ::") == p[1] + ['-'] + (p[2] + [' '] + rest);
  }

  /** parts[0] seps[0] parts[1] seps[1] ... */
  function Join(parts: seq<string>, seps: seq<char>): string
    requires |parts| == |seps| + 1
    decreases |seps|
  {
    if seps == [] then parts[0] else parts[0] + [seps[0]] + Join(parts[1..], seps[1..])
  }

  /** Digits joined by separators that are not digits split back into the same digits. */
  lemma {:induction false} FieldsOfJoin(parts: seq<string>, seps: seq<char>)
    requires |parts| == |seps| + 1
    requires forall i :: 0 <= i < |parts| ==> AllDigits(parts[i])
    requires forall i :: 0 <= i < |seps| ==> !IsDigit(seps[i])
    ensures Fields(Join(parts, seps), seps) == Some(parts)
    decreases |seps|
  {
    if seps != [] {
      assert seps[0] !in parts[0] by {
        forall i | 0 <= i < |parts[0]| ensures parts[0][i] != seps[0] {
          assert IsDigit(parts[0][i]);
        }
      }
      CutAtFirst(parts[0], seps[0], Join(parts[1..], seps[1..]));
      FieldsOfJoin(parts[1..], seps[1..]);
      assert [parts[0]] + parts[1..] == parts;
    } else {
      assert parts == [parts[0]];
    }
  }

  /** Every character of a join is a digit or one of the separators. */
  lemma {:induction false} JoinChars(parts: seq<string>, seps: seq<char>)
    requires |parts| == |seps| + 1
    requires forall i :: 0 <= i < |parts| ==> AllDigits(parts[i])
    ensures forall ch :: ch in Join(parts, seps) ==> IsDigit(ch) || ch in seps
    decreases |seps|
  {
    if seps != [] {
      JoinChars(parts[1..], seps[1..]);
      assert forall ch :: ch in parts[0] ==> IsDigit(ch);
    } else {
      assert forall ch :: ch in parts[0] ==> IsDigit(ch);
    }
  }

  lemma Pad2Value(n: nat)
    requires n < 100
    ensures DigitsValue(Pad2(n)) == n
  {
    TwoDigitsValue(n);
  }

  lemma Pad4Value(n: nat)
    requires n < 10000
    ensures DigitsValue(Pad4(n)) == n
  {
    var hi, lo := Pad2(n / 100), Pad2(n % 100);
    var s := hi + lo;
    assert s[..3] == hi + [lo[0]] && s[..3][..2] == hi;
    Pad2Value(n / 100);
    assert DigitsValue(s[..3]) == 10 * (n / 100) + (lo[0] as int - '0' as int);
    assert lo[0] as int - '0' as int == n % 100 / 10;
  }

  /** The timestamp record_transaction writes is never in the first format. */
  lemma IsoStampNotLegacy(c: Clock)
    requires ValidClock(c)
    ensures ParseLegacy(IsoStamp(c)) == None
  {
    JoinChars(IsoParts(c), "-- ::");
    assert '/' !in IsoStamp(c);
  }

  /** The history filter reads back the date of every timestamp that
      record_transaction writes, through the fallback to the second format. */
  lemma ParseIsoStamp(c: Clock)
    requires ValidClock(c)
    ensures ParseTimestamp(IsoStamp(c)) == Some(Date(c.year, c.month, c.day))
  {
    FieldsOfJoin(IsoParts(c), "-- ::");
    Pad4Value(c.year);
    Pad2Value(c.month);
    Pad2Value(c.day);
    Pad2Value(c.hour);
    Pad2Value(c.minute);
    Pad2Value(c.second);
    IsoStampNotLegacy(c);
  }

  /** A dropdown with nothing selected matches every value. */
  predicate Selected(choice: Option<int>, value: int) {
    choice.None? || choice.value == value
  }

  /** year_match and month_match and day_match (main.py:284-288) */
  predicate Matches(d: Date, f: Filter): (b: bool)
    ensures f == NoFilter() ==> b
    ensures f == Filter(Some(d.year), Some(d.month), Some(d.day)) ==> b
    ensures f.year.Some? && f.year.value != d.year ==> !b
    ensures f.month.Some? && f.month.value != d.month ==> !b
    ensures f.day.Some? && f.day.value != d.day ==> !b
    ensures
      (f.year.None? || f.year == Some(d.year)) && (f.month.None? || f.month == Some(d.month)) &&
      (f.day.None? || f.day == Some(d.day))
      ==> b
  {
    Selected(f.year, d.year) && Selected(f.month, d.month) && Selected(f.day, d.day)
  }

  /** A row stays in the list when its timestamp parses and its date matches. */
  predicate Keep(row: Row, f: Filter): (b: bool)
    requires |row| >= 7
    ensures b ==> ParseTimestamp(row[6]).Some?
    ensures f == NoFilter() ==> (b <==> ParseTimestamp(row[6]).Some?)
  {
    match ParseTimestamp(row[6])
    case None => false
    case Some(d) => Matches(d, f)
  }

  predicate Wide(rows: seq<Row>) {
    forall i :: 0 <= i < |rows| ==> |rows[i]| >= 7
  }

  /** The keep test of the filter as a value, for the sieve below. */
  function Keeps(f: Filter): Row -> bool {
    row => |row| >= 7 && Keep(row, f)
  }

  /** The rows that pass the test, in their order. */
  function Sift(rows: seq<Row>, keep: Row -> bool): seq<Row> {
    if rows == [] then []
    else
      var last := rows[|rows| - 1];
      Sift(rows[..|rows| - 1], keep) + (if keep(last) then [last] else [])
  }

  /** The positions of the rows that pass the test. */
  function SiftPositions(rows: seq<Row>, keep: Row -> bool): seq<int> {
    if rows == [] then []
    else
      SiftPositions(rows[..|rows| - 1], keep) + (if keep(rows[|rows| - 1]) then [|rows| - 1] else [])
  }

  /** The filtered list: the rows kept, in file order. */
  function Kept(rows: seq<Row>, f: Filter): seq<Row> {
    Sift(rows, Keeps(f))
  }

  /** The filtering loop (main.py:274-291): each row is tested in turn, and
      the rows that pass are appended to the filtered list. */
  method SiftRows(rows: seq<Row>, keep: Row -> bool) returns (kept: seq<Row>)
    ensures kept == Sift(rows, keep)
  {
    kept := [];
    for k := 0 to |rows|
      invariant kept == Sift(rows[..k], keep)
    {
      assert rows[..k + 1][..k] == rows[..k];
      if keep(rows[k]) {
        kept := kept + [rows[k]];
      }
    }
    assert rows[..|rows|] == rows;
  }

  /** The filter applied to the ledger's rows. */
  method FilterRows(rows: seq<Row>, f: Filter) returns (kept: seq<Row>)
    ensures kept == Kept(rows, f)
  {
    kept := SiftRows(rows, Keeps(f));
  }

  lemma {:induction false} SiftLength(rows: seq<Row>, keep: Row -> bool)
    ensures |SiftPositions(rows, keep)| == |Sift(rows, keep)|
    ensures forall j :: 0 <= j < |SiftPositions(rows, keep)| ==> 0 <= SiftPositions(rows, keep)[j] < |rows|
  {
    if rows != [] {
      SiftLength(rows[..|rows| - 1], keep);
    }
  }

  lemma {:induction false} SiftAt(rows: seq<Row>, keep: Row -> bool)
    ensures |SiftPositions(rows, keep)| == |Sift(rows, keep)|
    ensures forall j :: 0 <= j < |Sift(rows, keep)| ==>
      0 <= SiftPositions(rows, keep)[j] < |rows| && rows[SiftPositions(rows, keep)[j]] == Sift(rows, keep)[j] && keep(Sift(rows, keep)[j])
  {
    SiftLength(rows, keep);
    if rows != [] {
      var init := rows[..|rows| - 1];
      SiftAt(init, keep);
      SiftLength(init, keep);
      var ps, ks := SiftPositions(rows, keep), Sift(rows, keep);
      var ps0, ks0 := SiftPositions(init, keep), Sift(init, keep);
      forall j | 0 <= j < |ks|
        ensures rows[ps[j]] == ks[j] && keep(ks[j])
      {
        if j < |ks0| {
          assert ps[j] == ps0[j] && ks[j] == ks0[j];
          assert rows[ps0[j]] == init[ps0[j]];
        }
      }
    }
  }

  lemma {:induction false} SiftRise(rows: seq<Row>, keep: Row -> bool)
    ensures forall i, j :: 0 <= i < j < |SiftPositions(rows, keep)| ==> SiftPositions(rows, keep)[i] < SiftPositions(rows, keep)[j]
  {
    if rows != [] {
      SiftRise(rows[..|rows| - 1], keep);
      SiftLength(rows[..|rows| - 1], keep);
    }
  }

  lemma {:induction false} SiftComplete(rows: seq<Row>, keep: Row -> bool)
    ensures forall p :: 0 <= p < |rows| && keep(rows[p]) ==> p in SiftPositions(rows, keep)
  {
    if rows != [] {
      var init := rows[..|rows| - 1];
      SiftComplete(init, keep);
      forall p | 0 <= p < |init| && keep(rows[p]) ensures p in SiftPositions(rows, keep) {
        assert rows[p] == init[p];
      }
    }
  }

  lemma {:induction false} SiftAll(rows: seq<Row>, keep: Row -> bool)
    requires forall i :: 0 <= i < |rows| ==> keep(rows[i])
    ensures Sift(rows, keep) == rows
  {
    if rows != [] {
      SiftAll(rows[..|rows| - 1], keep);
      assert rows[..|rows| - 1] + [rows[|rows| - 1]] == rows;
    }
  }

  /** The filtered list is exactly the rows whose timestamp parses and whose
      date matches, in file order: their positions rise, each holds the row
      shown, and every position whose row is kept is among them. */
  lemma KeptMeaning(rows: seq<Row>, f: Filter)
    requires Wide(rows)
    ensures var ks, ps := Kept(rows, f), SiftPositions(rows, Keeps(f));
      && |ps| == |ks|
      && (forall j :: 0 <= j < |ps| ==> 0 <= ps[j] < |rows| && rows[ps[j]] == ks[j] && Keep(ks[j], f))
      && (forall i, j :: 0 <= i < j < |ps| ==> ps[i] < ps[j])
      && (forall p :: 0 <= p < |rows| && Keep(rows[p], f) ==> p in ps)
  {
    SiftAt(rows, Keeps(f));
    SiftRise(rows, Keeps(f));
    SiftComplete(rows, Keeps(f));
  }

  /** A dropdown left empty matches everything: with nothing selected, every
      row whose timestamp parses is kept. */
  lemma NoFilterKeepsParsed(rows: seq<Row>)
    requires Wide(rows)
    requires forall i :: 0 <= i < |rows| ==> ParseTimestamp(rows[i][6]).Some?
    ensures Kept(rows, NoFilter()) == rows
  {
    SiftAll(rows, Keeps(NoFilter()));
  }

  /** What the history list shows, top to bottom: the kept rows newest first,
      each with the position in the filtered list that its delete button
      passes to delete_transaction (main.py:294-296). */
  function View<T>(kept: seq<T>): (v: seq<(int, T)>)
    ensures |v| == |kept|
    ensures forall j :: 0 <= j < |v| ==> v[j] == (|kept| - 1 - j, kept[|kept| - 1 - j])
  {
    if kept == [] then [] else [(|kept| - 1, kept[|kept| - 1])] + View(kept[..|kept| - 1])
  }

  /** The view with each entry carrying its row's position in the file. */
  function SiftView(rows: seq<Row>, keep: Row -> bool): (v: seq<(int, Row)>)
    ensures |v| == |Sift(rows, keep)|
  {
    SiftLength(rows, keep);
    var ps, ks := SiftPositions(rows, keep), Sift(rows, keep);
    seq(|ks|, j requires 0 <= j < |ks| => (ps[|ks| - 1 - j], ks[|ks| - 1 - j]))
  }

  lemma SiftViewAt(rows: seq<Row>, keep: Row -> bool, j: nat)
    requires j < |Sift(rows, keep)|
    ensures SiftView(rows, keep)[j].1 == View(Sift(rows, keep))[j].1
    ensures var (pos, row) := SiftView(rows, keep)[j]; 0 <= pos < |rows| && rows[pos] == row
  {
    SiftAt(rows, keep);
    var ks := Sift(rows, keep);
    var k := |ks| - 1 - j;
    assert SiftView(rows, keep)[j] == (SiftPositions(rows, keep)[k], ks[k]);
  }

  /** The history list with each delete button passing the row's position in
      the file, as evidently intended. */
  function CorrectedView(rows: seq<Row>, f: Filter): (v: seq<(int, Row)>)
    ensures |v| == |Kept(rows, f)|
  {
    SiftView(rows, Keeps(f))
  }

  /** The corrected view lists the same rows as the view as written, and each
      button deletes exactly the row it is shown beside. */
  lemma CorrectedViewDeletesShownRow(rows: seq<Row>, f: Filter, j: nat)
    requires j < |Kept(rows, f)|
    ensures CorrectedView(rows, f)[j].1 == View(Kept(rows, f))[j].1
    ensures var (pos, row) := CorrectedView(rows, f)[j];
      0 <= pos < |rows| && rows[pos] == row
      && AfterDelete(rows, pos) == Some([Header()] + Renumbered(Without(rows, pos)))
  {
    SiftViewAt(rows, Keeps(f), j);
  }

  /** As written, a history delete button passes the row's position in the
      filtered list, and delete_transaction uses it as a position in the
      file: when an earlier row is filtered out (here, one whose timestamp
      parses in neither format), the button shown beside the later row
      deletes the earlier one, and the row shown stays. */
  lemma HistoryDeleteMisses()
    ensures var a := ["1", "Ann", "Apple", "1.00", "1", "1.00", "x"];
      var b := ["2", "Bob", "Milk", "2.50", "1", "2.50", IsoStamp(Clock(2025, 1, 2, 10, 30, 0))];
      var rows := [a, b];
      && Kept(rows, NoFilter()) == [b]
      && View(Kept(rows, NoFilter())) == [(0, b)]
      && AfterDelete(rows, 0) == Some([Header()] + Renumbered([b]))
  {
    var a := ["1", "Ann", "Apple", "1.00", "1", "1.00", "x"];
    var c := Clock(2025, 1, 2, 10, 30, 0);
    var b := ["2", "Bob", "Milk", "2.50", "1", "2.50", IsoStamp(c)];
    assert ParseLegacy("x").None? && ParseIso("x").None? by {
      assert '/' !in "x" && '-' !in "x";
    }
    DropsUnparsed(a, NoFilter());
    KeepsStamped(b, c);
    SiftSecondOnly(a, b, Keeps(NoFilter()));
    assert View([b]) == [(0, b)];
    assert Without([a, b], 0) == [b];
  }

  lemma DropsUnparsed(row: Row, f: Filter)
    requires |row| >= 7 && ParseLegacy(row[6]).None? && ParseIso(row[6]).None?
    ensures !Keeps(f)(row)
  {
  }

  lemma KeepsStamped(row: Row, c: Clock)
    requires |row| >= 7 && ValidClock(c) && row[6] == IsoStamp(c)
    ensures Keeps(NoFilter())(row)
  {
    ParseIsoStamp(c);
  }

  lemma SiftSecondOnly(a: Row, b: Row, keep: Row -> bool)
    requires !keep(a) && keep(b)
    ensures Sift([a, b], keep) == [b]
  {
    assert [a, b][..1] == [a] && [a][..0] == [];
    assert Sift([a], keep) == [];
    assert Sift([a, b], keep) == Sift([a], keep) + [b];
  }
}
