/** The label side of `tag_generator`: the values a pass draws, the row it
    appends, the duplicate check `_is_in_data`, and the whole counted loop as
    a function of the rows it starts from and the draws it is given. */
module Generation {
  import opened PyText
  import opened LabelFile

  /** A colour as the loop draws it: a tuple of three channels. */
  datatype Rgb = Rgb(r: int, g: int, b: int)

  /** The four `random.choice` results of one pass. */
  datatype Draw = Draw(height: int, fontSize: int, color: Rgb, bgColor: Rgb)

  predicate ValidChannel(c: int) {
    0 <= c < 256
  }

  /** What `random.choice` can return: a height from range(100, 500, 5), a font
      size from range(13, 30) and channels from range(0, 256). */
  predicate ValidDraw(d: Draw) {
    && 100 <= d.height < 500 && (d.height - 100) % 5 == 0
    && 13 <= d.fontSize < 30
    && ValidChannel(d.color.r) && ValidChannel(d.color.g) && ValidChannel(d.color.b)
    && ValidChannel(d.bgColor.r) && ValidChannel(d.bgColor.g) && ValidChannel(d.bgColor.b)
  }

  /** f"{n}px" */
  function Px(n: int): string {
    IntToStr(n) + "px"
  }

  /** f"rgb{c}" for a tuple of ints: "rgb(r, g, b)". */
  function RgbText(c: Rgb): string {
    "rgb(" + Join([IntToStr(c.r), IntToStr(c.g), IntToStr(c.b)], ", ") + ")"
  }

  /** f"image_{ms}.png" where ms is int(time.time()*1000). */
  function ImageName(ms: int): string {
    "image_" + IntToStr(ms) + ".png"
  }

  /** The four formatted style fields of a draw, in column order. */
  function StyleFields(d: Draw): Row {
    [Px(d.height), Px(d.fontSize), RgbText(d.color), RgbText(d.bgColor)]
  }

  /** The row a pass appends when its draw is accepted. */
  function NewRow(ms: int, d: Draw): (row: Row)
    ensures |row| == 5 && row[0] == ImageName(ms) && row[1..] == StyleFields(d)
  {
    [ImageName(ms)] + StyleFields(d)
  }

  /** The Python values `_is_in_data` compares: str fields of a stored row,
      and whatever the caller passes as the candidate. */
  datatype PyValue = PyStr(s: string) | PyInt(i: int) | PyTuple(items: seq<int>)

  /** The four arguments of `_is_in_data(height, font_size, color, bg_color)`. */
  type Candidate = c: seq<PyValue> | |c| == 4 witness [PyInt(0), PyInt(0), PyInt(0), PyInt(0)]

  function AsTuple(c: Rgb): PyValue {
    PyTuple([c.r, c.g, c.b])
  }

  /** Which candidate the loop passes: the raw int and tuple draws, as the
      source does, or the strings it would store, as evidently intended. */
  datatype DupCheck = AsWritten | Formatted

  function CandidateOf(d: Draw, check: DupCheck): Candidate {
    match check
    case AsWritten => [PyInt(d.height), PyInt(d.fontSize), AsTuple(d.color), AsTuple(d.bgColor)]
    case Formatted => [PyStr(Px(d.height)), PyStr(Px(d.fontSize)), PyStr(RgbText(d.color)), PyStr(RgbText(d.bgColor))]
  }

  /** `h == height and f_s == font_size and c == color and bg_c == bg_color`
      for an unpacked row `(_, h, f_s, c, bg_c)`. */
  predicate SameStyle(row: Row, cand: Candidate)
    requires |row| == 5
  {
    PyStr(row[1]) == cand[0] && PyStr(row[2]) == cand[1]
    && PyStr(row[3]) == cand[2] && PyStr(row[4]) == cand[3]
  }

  /** `_is_in_data` either answers, or raises ValueError when the unpacking
      `(_, h, f_s, c, bg_c) = data` meets a row without exactly five fields. */
  datatype Lookup = Ok(found: bool) | UnpackError

  /** Every row unpacks and none has the candidate's style. */
  predicate NoneMatch(rows: seq<Row>, cand: Candidate) {
    forall j :: 0 <= j < |rows| ==> |rows[j]| == 5 && !SameStyle(rows[j], cand)
  }

  /** `_is_in_data`: scan the rows in order, stopping at the first match or at
      the first row that does not unpack. */
  function IsInData(rows: seq<Row>, cand: Candidate): Lookup {
    if rows == [] then Ok(false)
    else if |rows[0]| != 5 then UnpackError
    else if SameStyle(rows[0], cand) then Ok(true)
    else IsInData(rows[1..], cand)
  }

  /** What the scan answers: "not found" exactly when every row unpacks and
      none matches; "found" exactly when a matching row comes before any row
      that does not unpack; ValueError exactly when such a row comes first. */
  lemma {:induction false} IsInDataSpec(rows: seq<Row>, cand: Candidate)
    ensures var r := IsInData(rows, cand);
      && (r == Ok(false) <==> NoneMatch(rows, cand))
      && (r == Ok(true) <==> exists i :: 0 <= i < |rows| && NoneMatch(rows[..i], cand)
                                         && |rows[i]| == 5 && SameStyle(rows[i], cand))
      && (r == UnpackError <==> exists i :: 0 <= i < |rows| && NoneMatch(rows[..i], cand)
                                             && |rows[i]| != 5)
    decreases |rows|
  {
    if rows != [] {
      assert NoneMatch(rows[..0], cand);
      if |rows[0]| == 5 && !SameStyle(rows[0], cand) {
        IsInDataSpec(rows[1..], cand);
        IsInDataStep(rows, cand);
        var r := IsInData(rows, cand);
        if r == Ok(true) {
          var i :| 0 <= i < |rows[1..]| && NoneMatch(rows[1..][..i], cand)
                   && |rows[1..][i]| == 5 && SameStyle(rows[1..][i], cand);
          assert rows[i + 1] == rows[1..][i];
        }
        if r == UnpackError {
          var i :| 0 <= i < |rows[1..]| && NoneMatch(rows[1..][..i], cand) && |rows[1..][i]| != 5;
          assert rows[i + 1] == rows[1..][i];
        }
        if exists i :: 0 <= i < |rows| && NoneMatch(rows[..i], cand) && |rows[i]| == 5 && SameStyle(rows[i], cand) {
          var i :| 0 <= i < |rows| && NoneMatch(rows[..i], cand) && |rows[i]| == 5 && SameStyle(rows[i], cand);
          assert i != 0;
          assert rows[1..][i - 1] == rows[i];
        }
        if exists i :: 0 <= i < |rows| && NoneMatch(rows[..i], cand) && |rows[i]| != 5 {
          var i :| 0 <= i < |rows| && NoneMatch(rows[..i], cand) && |rows[i]| != 5;
          assert i != 0;
          assert rows[1..][i - 1] == rows[i];
        }
      }
    }
  }

  /** How the scan of `rows` relates to the scan of its tail when the first
      row unpacks and does not match. */
  lemma IsInDataStep(rows: seq<Row>, cand: Candidate)
    requires rows != [] && |rows[0]| == 5 && !SameStyle(rows[0], cand)
    ensures NoneMatch(rows, cand) <==> NoneMatch(rows[1..], cand)
    ensures forall i :: 0 < i <= |rows| ==>
              (NoneMatch(rows[..i], cand) <==> NoneMatch(rows[1..][..i - 1], cand))
  {
    assert rows == [rows[0]] + rows[1..];
    NoneMatchCons(rows[0], rows[1..], cand);
    forall i | 0 < i <= |rows|
      ensures NoneMatch(rows[..i], cand) <==> NoneMatch(rows[1..][..i - 1], cand)
    {
      assert rows[..i] == [rows[0]] + rows[1..][..i - 1];
      NoneMatchCons(rows[0], rows[1..][..i - 1], cand);
    }
  }

  lemma NoneMatchCons(row: Row, rest: seq<Row>, cand: Candidate)
    requires |row| == 5 && !SameStyle(row, cand)
    ensures NoneMatch([row] + rest, cand) <==> NoneMatch(rest, cand)
  {
    if NoneMatch([row] + rest, cand) {
      forall j | 0 <= j < |rest| ensures |rest[j]| == 5 && !SameStyle(rest[j], cand) {
        assert rest[j] == ([row] + rest)[j + 1];
      }
    }
  }

  /** The check never looks at field 0: renaming the image of any row does
      not change its answer. */
  lemma {:induction false} IsInDataIgnoresName(rows: seq<Row>, k: nat, name: string, cand: Candidate)
    requires k < |rows| && |rows[k]| >= 1
    ensures IsInData(rows[k := rows[k][0 := name]], cand) == IsInData(rows, cand)
    decreases |rows|
  {
    var renamed := rows[k := rows[k][0 := name]];
    if k == 0 {
      assert renamed[1..] == rows[1..];
    } else {
      assert renamed[1..] == rows[1..][k - 1 := rows[1..][k - 1][0 := name]];
      IsInDataIgnoresName(rows[1..], k - 1, name, cand);
    }
  }

  /** As written the check can never answer "found": a str is never equal to
      an int or a tuple. */
  lemma {:induction false} AsWrittenNeverFinds(rows: seq<Row>, d: Draw)
    ensures IsInData(rows, CandidateOf(d, AsWritten)) != Ok(true)
    decreases |rows|
  {
    if rows != [] {
      AsWrittenNeverFinds(rows[1..], d);
    }
  }

  /** With the intended candidate, a row matches exactly when its four style
      fields are the draw's formatted fields. */
  lemma FormattedMatch(row: Row, d: Draw)
    requires |row| == 5
    ensures SameStyle(row, CandidateOf(d, Formatted)) <==> row[1..] == StyleFields(d)
  {
    if row[1..] == StyleFields(d) {
      assert row[1] == row[1..][0] && row[2] == row[1..][1];
      assert row[3] == row[1..][2] && row[4] == row[1..][3];
    }
  }

  /** What the loop leaves behind: the rows, and whether it ran all its passes
      (false when `_is_in_data` raised). */
  datatype Outcome = Outcome(rows: seq<Row>, completed: bool)

  lemma PrefixOfSnoc<T>(s: seq<T>, a: seq<T>, x: T)
    requires |a| + 1 <= |s| && s[..|a| + 1] == a + [x]
    ensures s[..|a|] == a
  {
    assert s[..|a|] == s[..|a| + 1][..|a|];
  }

  /** `tag_generator` as a function: one pass per draw, the timestamps in
      `stamps` naming the accepted rows in turn. */
  function Generate(rows: seq<Row>, draws: seq<Draw>, stamps: seq<int>, check: DupCheck): (o: Outcome)
    requires |draws| <= |stamps|
    ensures |rows| <= |o.rows| <= |rows| + |draws|
    ensures o.rows[..|rows|] == rows
    decreases |draws|
  {
    if draws == [] then Outcome(rows, true)
    else
      match IsInData(rows, CandidateOf(draws[0], check))
      case UnpackError => Outcome(rows, false)
      case Ok(true) => Generate(rows, draws[1..], stamps, check)
      case Ok(false) =>
        var o := Generate(rows + [NewRow(stamps[0], draws[0])], draws[1..], stamps[1..], check);
        PrefixOfSnoc(o.rows, rows, NewRow(stamps[0], draws[0]));
        o
  }

  /** `row` is the row a pass appends for one of `draws` at time `ms`. */
  predicate FromSomeDraw(row: Row, ms: int, draws: seq<Draw>) {
    exists t :: 0 <= t < |draws| && row == NewRow(ms, draws[t])
  }

  /** One pass whose draw is found leaves the rows as they are. */
  lemma GenerateSkip(rows: seq<Row>, draws: seq<Draw>, stamps: seq<int>, check: DupCheck)
    requires draws != [] && |draws| <= |stamps|
    requires IsInData(rows, CandidateOf(draws[0], check)) == Ok(true)
    ensures Generate(rows, draws, stamps, check) == Generate(rows, draws[1..], stamps, check)
  {
  }

  /** One pass whose draw is not found appends its row and uses up a timestamp. */
  lemma GenerateAppend(rows: seq<Row>, draws: seq<Draw>, stamps: seq<int>, check: DupCheck)
    requires draws != [] && |draws| <= |stamps|
    requires IsInData(rows, CandidateOf(draws[0], check)) == Ok(false)
    ensures Generate(rows, draws, stamps, check)
         == Generate(rows + [NewRow(stamps[0], draws[0])], draws[1..], stamps[1..], check)
  {
  }

  /** A pass whose check raises ends the loop where it is. */
  lemma GenerateStops(rows: seq<Row>, draws: seq<Draw>, stamps: seq<int>, check: DupCheck)
    requires draws != [] && |draws| <= |stamps|
    requires IsInData(rows, CandidateOf(draws[0], check)) == UnpackError
    ensures Generate(rows, draws, stamps, check) == Outcome(rows, false)
  {
  }

  /** Every row of `rows` from index `from` on is a `NewRow` of one of the
      draws, named by the timestamps in the order they were taken. */
  predicate FromDraws(rows: seq<Row>, from: nat, stamps: seq<int>, draws: seq<Draw>) {
    && from <= |rows| <= from + |stamps|
    && forall j :: from <= j < |rows| ==> FromSomeDraw(rows[j], stamps[j - from], draws)
  }

  lemma FromDrawsTail(rows: seq<Row>, from: nat, stamps: seq<int>, draws: seq<Draw>)
    requires draws != [] && FromDraws(rows, from, stamps, draws[1..])
    ensures FromDraws(rows, from, stamps, draws)
  {
    forall j | from <= j < |rows|
      ensures FromSomeDraw(rows[j], stamps[j - from], draws)
    {
      var t :| 0 <= t < |draws[1..]| && rows[j] == NewRow(stamps[j - from], draws[1..][t]);
      assert rows[j] == NewRow(stamps[j - from], draws[t + 1]);
    }
  }

  lemma FromDrawsGrow(rows: seq<Row>, from: nat, stamps: seq<int>, draws: seq<Draw>)
    requires draws != [] && stamps != [] && from < |rows|
    requires rows[from] == NewRow(stamps[0], draws[0])
    requires FromDraws(rows, from + 1, stamps[1..], draws[1..])
    ensures FromDraws(rows, from, stamps, draws)
  {
    forall j | from <= j < |rows|
      ensures FromSomeDraw(rows[j], stamps[j - from], draws)
    {
      if j == from {
        assert rows[j] == NewRow(stamps[j - from], draws[0]);
      } else {
        assert FromSomeDraw(rows[j], stamps[1..][j - (from + 1)], draws[1..]);
        var t :| 0 <= t < |draws[1..]| && rows[j] == NewRow(stamps[1..][j - (from + 1)], draws[1..][t]);
        assert stamps[1..][j - (from + 1)] == stamps[j - from];
        assert rows[j] == NewRow(stamps[j - from], draws[t + 1]);
      }
    }
  }

  /** Every appended row is a `NewRow` of one of the draws, named by the
      timestamps in the order they were taken. */
  lemma {:induction false} AppendedRows(rows: seq<Row>, draws: seq<Draw>, stamps: seq<int>, check: DupCheck)
    requires |draws| <= |stamps|
    ensures FromDraws(Generate(rows, draws, stamps, check).rows, |rows|, stamps, draws)
    decreases |draws|
  {
    if draws != [] {
      var o := Generate(rows, draws, stamps, check);
      match IsInData(rows, CandidateOf(draws[0], check))
      case UnpackError =>
      case Ok(true) =>
        assert o == Generate(rows, draws[1..], stamps, check);
        AppendedRows(rows, draws[1..], stamps, check);
        FromDrawsTail(o.rows, |rows|, stamps, draws);
      case Ok(false) =>
        var grown := rows + [NewRow(stamps[0], draws[0])];
        assert o == Generate(grown, draws[1..], stamps[1..], check);
        AppendedRows(grown, draws[1..], stamps[1..], check);
        assert o.rows[|rows|] == o.rows[..|grown|][|rows|] == grown[|rows|];
        FromDrawsGrow(o.rows, |rows|, stamps, draws);
    }
  }

  /** Appended rows carry values `random.choice` can produce. */
  lemma AppendedRowsValid(rows: seq<Row>, draws: seq<Draw>, stamps: seq<int>, check: DupCheck)
    requires |draws| <= |stamps|
    requires forall t :: 0 <= t < |draws| ==> ValidDraw(draws[t])
    ensures var o := Generate(rows, draws, stamps, check);
      forall j :: |rows| <= j < |o.rows| ==>
        exists d :: ValidDraw(d) && o.rows[j] == NewRow(stamps[j - |rows|], d)
  {
    var o := Generate(rows, draws, stamps, check);
    AppendedRows(rows, draws, stamps, check);
    forall j | |rows| <= j < |o.rows|
      ensures exists d :: ValidDraw(d) && o.rows[j] == NewRow(stamps[j - |rows|], d)
    {
      assert FromSomeDraw(o.rows[j], stamps[j - |rows|], draws);
      var t :| 0 <= t < |draws| && o.rows[j] == NewRow(stamps[j - |rows|], draws[t]);
      assert ValidDraw(draws[t]);
    }
  }

  /** The rows the loop appends when it accepts every draw. */
  function NewRows(stamps: seq<int>, draws: seq<Draw>): (rows: seq<Row>)
    requires |draws| <= |stamps|
    ensures |rows| == |draws|
  {
    seq(|draws|, k requires 0 <= k < |draws| => NewRow(stamps[k], draws[k]))
  }

  lemma NewRowsCons(stamps: seq<int>, draws: seq<Draw>)
    requires draws != [] && |draws| <= |stamps|
    ensures NewRows(stamps, draws) == [NewRow(stamps[0], draws[0])] + NewRows(stamps[1..], draws[1..])
  {
    var tail := NewRows(stamps[1..], draws[1..]);
    forall k | 0 < k < |draws| ensures NewRows(stamps, draws)[k] == tail[k - 1] {
      assert stamps[1..][k - 1] == stamps[k] && draws[1..][k - 1] == draws[k];
    }
  }

  /** As written, when every stored row unpacks, the loop appends one row for
      every pass: nothing is ever rejected as a duplicate. */
  lemma {:induction false} AsWrittenAppendsEveryDraw(rows: seq<Row>, draws: seq<Draw>, stamps: seq<int>)
    requires |draws| <= |stamps|
    requires forall k :: 0 <= k < |rows| ==> |rows[k]| == 5
    ensures Generate(rows, draws, stamps, AsWritten) == Outcome(rows + NewRows(stamps, draws), true)
    decreases |draws|
  {
    if draws == [] {
      assert rows + NewRows(stamps, draws) == rows;
    } else {
      var row := NewRow(stamps[0], draws[0]);
      AsWrittenNotFound(rows, draws[0]);
      GenerateAppend(rows, draws, stamps, AsWritten);
      FiveSnoc(rows, row);
      AsWrittenAppendsEveryDraw(rows + [row], draws[1..], stamps[1..]);
      NewRowsCons(stamps, draws);
      SnocThenAppend(rows, row, NewRows(stamps[1..], draws[1..]));
    }
  }

  /** As written, when every stored row unpacks, the check answers "not found". */
  lemma {:induction false} AsWrittenNotFound(rows: seq<Row>, d: Draw)
    requires forall k :: 0 <= k < |rows| ==> |rows[k]| == 5
    ensures IsInData(rows, CandidateOf(d, AsWritten)) == Ok(false)
    decreases |rows|
  {
    if rows != [] {
      assert |rows[0]| == 5;
      AsWrittenNotFound(rows[1..], d);
    }
  }

  lemma SnocThenAppend<T>(a: seq<T>, x: T, b: seq<T>)
    ensures (a + [x]) + b == a + ([x] + b)
  {
  }

  lemma FiveSnoc(rows: seq<Row>, row: Row)
    requires forall k :: 0 <= k < |rows| ==> |rows[k]| == 5
    requires |row| == 5
    ensures forall k :: 0 <= k < |rows + [row]| ==> |(rows + [row])[k]| == 5
  {
  }

  /** As written, a stored row that does not unpack stops the first pass with
      ValueError, before anything is appended. */
  lemma AsWrittenFailsOnShortRow(rows: seq<Row>, draws: seq<Draw>, stamps: seq<int>, k: nat)
    requires |draws| <= |stamps| && draws != []
    requires k < |rows| && |rows[k]| != 5
    ensures Generate(rows, draws, stamps, AsWritten) == Outcome(rows, false)
  {
    IsInDataSpec(rows, CandidateOf(draws[0], AsWritten));
    assert |rows[k]| != 5;
    AsWrittenNeverFinds(rows, draws[0]);
  }

  /** As written, the same draw twice gives two rows with the same style. */
  lemma AsWrittenKeepsDuplicates()
    ensures var d := Draw(100, 13, Rgb(0, 0, 0), Rgb(255, 255, 255));
      var o := Generate([], [d, d], [1, 2], AsWritten);
      |o.rows| == 2 && o.rows[0][1..] == o.rows[1][1..]
  {
    var d := Draw(100, 13, Rgb(0, 0, 0), Rgb(255, 255, 255));
    AsWrittenAppendsEveryDraw([], [d, d], [1, 2]);
  }

  /** Row `j` unpacks, and so does every row before it, none with its style. */
  predicate NewStyleAt(rows: seq<Row>, j: nat)
    requires j < |rows|
  {
    |rows[j]| == 5 && forall i :: 0 <= i < j ==> |rows[i]| == 5 && rows[i][1..] != rows[j][1..]
  }

  /** The intended answer "not found" means every stored row unpacks and
      none has the draw's formatted style. */
  lemma FormattedNotFound(rows: seq<Row>, d: Draw)
    requires IsInData(rows, CandidateOf(d, Formatted)) == Ok(false)
    ensures forall i :: 0 <= i < |rows| ==> |rows[i]| == 5 && rows[i][1..] != StyleFields(d)
  {
    IsInDataSpec(rows, CandidateOf(d, Formatted));
    forall i | 0 <= i < |rows| ensures |rows[i]| == 5 && rows[i][1..] != StyleFields(d) {
      FormattedMatch(rows[i], d);
    }
  }

  lemma NewStyleFirst(all: seq<Row>, rows: seq<Row>, d: Draw, ms: int)
    requires |rows| < |all| && all[..|rows|] == rows && all[|rows|] == NewRow(ms, d)
    requires forall i :: 0 <= i < |rows| ==> |rows[i]| == 5 && rows[i][1..] != StyleFields(d)
    ensures NewStyleAt(all, |rows|)
  {
    forall i | 0 <= i < |rows| ensures all[i] == rows[i] {
      assert all[i] == all[..|rows|][i];
    }
  }

  /** With the intended comparison, every appended row unpacks against all
      rows before it and has a style none of them has: no stored style is
      added again and no two appended rows share a style. */
  lemma {:induction false} FormattedKeepsStylesDistinct(rows: seq<Row>, draws: seq<Draw>, stamps: seq<int>)
    requires |draws| <= |stamps|
    ensures var o := Generate(rows, draws, stamps, Formatted);
      forall j :: |rows| <= j < |o.rows| ==> NewStyleAt(o.rows, j)
    decreases |draws|
  {
    if draws != [] {
      var o := Generate(rows, draws, stamps, Formatted);
      match IsInData(rows, CandidateOf(draws[0], Formatted))
      case UnpackError =>
      case Ok(true) =>
        assert o == Generate(rows, draws[1..], stamps, Formatted);
        FormattedKeepsStylesDistinct(rows, draws[1..], stamps);
      case Ok(false) =>
        var row := NewRow(stamps[0], draws[0]);
        var grown := rows + [row];
        assert o == Generate(grown, draws[1..], stamps[1..], Formatted);
        FormattedKeepsStylesDistinct(grown, draws[1..], stamps[1..]);
        FormattedNotFound(rows, draws[0]);
        assert o.rows[|rows|] == o.rows[..|grown|][|rows|] == row;
        NewStyleFirst(o.rows, rows, draws[0], stamps[0]);
        forall j | |rows| <= j < |o.rows| ensures NewStyleAt(o.rows, j) {
          if j != |rows| {
            assert |grown| <= j;
          }
        }
    }
  }

  /** With the intended comparison, one pass appends exactly when the drawn
      style is not stored yet (all rows unpacking). */
  lemma FormattedAppendsIffNew(rows: seq<Row>, d: Draw, ms: int)
    requires forall k :: 0 <= k < |rows| ==> |rows[k]| == 5
    ensures Generate(rows, [d], [ms], Formatted).rows
         == if exists k :: 0 <= k < |rows| && rows[k][1..] == StyleFields(d)
            then rows else rows + [NewRow(ms, d)]
  {
    assert [d][1..] == [];
    var cand := CandidateOf(d, Formatted);
    IsInDataSpec(rows, cand);
    if exists k :: 0 <= k < |rows| && rows[k][1..] == StyleFields(d) {
      var k :| 0 <= k < |rows| && rows[k][1..] == StyleFields(d);
      FormattedMatch(rows[k], d);
      assert !NoneMatch(rows, cand);
    } else {
      forall k | 0 <= k < |rows| ensures !SameStyle(rows[k], cand) {
        FormattedMatch(rows[k], d);
      }
      assert NoneMatch(rows, cand);
    }
  }

  /** No character that could break a line or run into a "||" separator. */
  predicate Plain(f: string) {
    '|' !in f && '\n' !in f && '\r' !in f
  }

  lemma NumberIsPlain(n: int)
    ensures Plain(IntToStr(n))
  {
    IntToStrChars(n);
    var s := IntToStr(n);
    forall i | 0 <= i < |s| ensures s[i] != '|' && s[i] != '\n' && s[i] != '\r' {
    }
  }

  lemma PlainConcat(a: string, b: string)
    requires Plain(a) && Plain(b)
    ensures Plain(a + b)
  {
  }

  lemma PxPlain(n: int)
    ensures Plain(Px(n))
  {
    NumberIsPlain(n);
    PlainConcat(IntToStr(n), "px");
  }

  lemma RgbPlain(c: Rgb)
    ensures Plain(RgbText(c))
  {
    NumberIsPlain(c.r);
    NumberIsPlain(c.g);
    NumberIsPlain(c.b);
    var parts := [IntToStr(c.r), IntToStr(c.g), IntToStr(c.b)];
    NotInJoin(parts, ", ", '|');
    NotInJoin(parts, ", ", '\n');
    NotInJoin(parts, ", ", '\r');
    PlainConcat("rgb(", Join(parts, ", "));
    PlainConcat("rgb(" + Join(parts, ", "), ")");
  }

  lemma NamePlain(ms: int)
    ensures Plain(ImageName(ms)) && ImageName(ms)[0] == 'i'
  {
    NumberIsPlain(ms);
    PlainConcat("image_", IntToStr(ms));
    PlainConcat("image_" + IntToStr(ms), ".png");
  }

  /** A row of plain fields whose first field starts with a visible character
      survives the label file. */
  lemma PlainRowStorable(row: Row)
    requires forall k :: 0 <= k < |row| ==> Plain(row[k])
    requires |row| >= 1 && |row[0]| >= 1 && !IsSpace(row[0][0])
    ensures Storable(row)
  {
    forall k | 0 <= k < |row| ensures SafeField(row[k]) {
      BarFree(row[k]);
    }
    if |row| > 1 {
      assert Line(row) == row[0] + "||" + Line(row[1..]);
    }
    assert Line(row)[0] == row[0][0];
  }

  /** Every row the loop appends survives the label file. */
  lemma NewRowStorable(ms: int, d: Draw)
    ensures Storable(NewRow(ms, d))
  {
    var row := NewRow(ms, d);
    NamePlain(ms);
    PxPlain(d.height);
    PxPlain(d.fontSize);
    RgbPlain(d.color);
    RgbPlain(d.bgColor);
    assert row == [ImageName(ms), Px(d.height), Px(d.fontSize), RgbText(d.color), RgbText(d.bgColor)];
    PlainRowStorable(row);
  }

  /** What a run saves, a later start reads back: starting from storable rows,
      the loop's rows survive `_save_total_data` followed by `_get_total_data`. */
  lemma GeneratedRowsRoundTrip(rows: seq<Row>, draws: seq<Draw>, stamps: seq<int>, check: DupCheck)
    requires |draws| <= |stamps|
    requires forall k :: 0 <= k < |rows| ==> Storable(rows[k])
    ensures var o := Generate(rows, draws, stamps, check);
      Load(Serialize([Header] + o.rows)) == o.rows
  {
    var o := Generate(rows, draws, stamps, check);
    AppendedRows(rows, draws, stamps, check);
    forall j | 0 <= j < |o.rows| ensures Storable(o.rows[j]) {
      if j < |rows| {
        assert o.rows[j] == o.rows[..|rows|][j];
      } else {
        assert FromSomeDraw(o.rows[j], stamps[j - |rows|], draws);
        var t :| 0 <= t < |draws| && o.rows[j] == NewRow(stamps[j - |rows|], draws[t]);
        NewRowStorable(stamps[j - |rows|], draws[t]);
      }
    }
    RoundTrip(o.rows);
  }
}
