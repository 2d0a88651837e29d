/** The label file data/total_data.txt: one header line naming the columns,
    then one line per image, fields separated by "||". */
module LabelFile {
  import opened PyText

  /** One label record: image name, height, font size, colour, background colour. */
  type Row = seq<string>

  /** The column names (dynamic_css_props), written as the first line. */
  const Header: Row := ["image_name", "height", "font-size", "color", "background-color"]

  /** The text of one written line, without its "\n". */
  function Line(row: Row): string {
    Join(row, "||")
  }

  function Lines(rows: seq<Row>): (ls: seq<string>)
    ensures |ls| == |rows|
  {
    seq(|rows|, k requires 0 <= k < |rows| => Line(rows[k]))
  }

  /** What the save loop writes for `rows` (each row's fields joined by "||",
      each line ended by "\n"), in order. */
  function Serialize(rows: seq<Row>): string {
    if rows == [] then [] else Line(rows[0]) + "\n" + Serialize(rows[1..])
  }

  /** Writing one more row appends exactly its line. */
  lemma {:induction false} SerializeSnoc(rows: seq<Row>, row: Row)
    ensures Serialize(rows + [row]) == Serialize(rows) + Line(row) + "\n"
    decreases |rows|
  {
    if rows == [] {
      assert [] + [row] == [row];
    } else {
      assert (rows + [row])[1..] == rows[1..] + [row];
      SerializeSnoc(rows[1..], row);
    }
  }

  /** The lines that survive `if data.strip() != ""`, in their order. */
  function NonBlank(lines: seq<string>): (r: seq<string>)
    ensures |r| <= |lines|
    ensures forall k :: 0 <= k < |r| ==> !IsBlank(r[k])
    ensures forall l :: l in lines && !IsBlank(l) ==> l in r
    ensures forall l :: l in r ==> l in lines
  {
    if lines == [] then []
    else if IsBlank(lines[0]) then NonBlank(lines[1..])
    else [lines[0]] + NonBlank(lines[1..])
  }

  /** The non-blank lines of the file as `_get_total_data` reads them. */
  function TextLines(text: string): seq<string> {
    NonBlank(Split(UniversalNewlines(text), "\n"))
  }

  /** `_get_total_data`: drop the first non-blank line and split the others on "||". */
  function Load(text: string): (rows: seq<Row>)
    ensures |rows| == if TextLines(text) == [] then 0 else |TextLines(text)| - 1
    ensures forall k :: 0 <= k < |rows| ==> |rows[k]| >= 1
  {
    var lines := TextLines(text);
    var body := if lines == [] then [] else lines[1..];
    seq(|body|, k requires 0 <= k < |body| => Split(body[k], "||"))
  }

  /** Loading loses nothing but the header line: every row, joined back with
      "||", is the corresponding non-blank line after the first. */
  lemma LoadKeepsLines(text: string, k: nat)
    requires k < |Load(text)|
    ensures Line(Load(text)[k]) == TextLines(text)[k + 1]
  {
    JoinSplit(TextLines(text)[k + 1], "||");
  }

  /** A field that survives the file: no '\n' or '\r', and no '|' that could
      run into the "||" separator. */
  predicate SafeField(f: string) {
    '\n' !in f && '\r' !in f && NoBarRun(f)
  }

  /** A row that survives the file: safe fields, and not written as a blank line. */
  predicate Storable(row: Row) {
    (forall k :: 0 <= k < |row| ==> SafeField(row[k])) && !IsBlank(Line(row))
  }

  lemma BarFree(f: string)
    requires '|' !in f
    ensures NoBarRun(f)
  {
    forall i | 0 <= i < |f| ensures f[i] != '|' {
      assert f[i] in f;
    }
  }

  lemma HeaderStorable()
    ensures Storable(Header)
  {
    forall k | 0 <= k < |Header| ensures SafeField(Header[k]) {
      BarFree(Header[k]);
    }
    assert Line(Header) == Header[0] + "||" + Line(Header[1..]);
    assert Line(Header)[0] == 'i';
  }

  lemma {:induction false} SerializeNoCR(rows: seq<Row>)
    requires forall k :: 0 <= k < |rows| ==> Storable(rows[k])
    ensures '\r' !in Serialize(rows)
    decreases |rows|
  {
    if rows != [] {
      NotInJoin(rows[0], "||", '\r');
      SerializeNoCR(rows[1..]);
    }
  }

  /** Splitting the saved text on "\n" gives the lines and one empty tail. */
  lemma {:induction false} SplitSerialized(rows: seq<Row>)
    requires forall k :: 0 <= k < |rows| ==> Storable(rows[k])
    ensures Split(Serialize(rows), "\n") == Lines(rows) + [""]
    decreases |rows|
  {
    if rows != [] {
      NotInJoin(rows[0], "||", '\n');
      SeparableByChar(Line(rows[0]), '\n');
      SplitFromCut(Line(rows[0]), "\n", Serialize(rows[1..]), []);
      assert [] + Line(rows[0]) == Line(rows[0]);
      SplitSerialized(rows[1..]);
      assert Lines(rows) == [Line(rows[0])] + Lines(rows[1..]);
    }
  }

  lemma {:induction false} NonBlankLines(ls: seq<string>)
    requires forall k :: 0 <= k < |ls| ==> !IsBlank(ls[k])
    ensures NonBlank(ls + [""]) == ls
    decreases |ls|
  {
    if ls != [] {
      assert (ls + [""])[1..] == ls[1..] + [""];
      NonBlankLines(ls[1..]);
      assert ls == [ls[0]] + ls[1..];
    }
  }

  /** The non-blank lines read back from saved text are the saved lines. */
  lemma SavedLines(rows: seq<Row>)
    requires forall k :: 0 <= k < |rows| ==> Storable(rows[k])
    ensures TextLines(Serialize(rows)) == Lines(rows)
  {
    var text := Serialize(rows);
    SerializeNoCR(rows);
    UniversalNewlinesKeeps(text);
    SplitSerialized(rows);
    assert Split(UniversalNewlines(text), "\n") == Lines(rows) + [""];
    forall k | 0 <= k < |rows| ensures !IsBlank(Lines(rows)[k]) {
      assert Storable(rows[k]);
    }
    NonBlankLines(Lines(rows));
  }

  /** A storable row's line splits back into the row. */
  lemma ReadRow(row: Row)
    requires Storable(row)
    ensures Split(Line(row), "||") == row
  {
    assert Line([]) == [];
    assert row != [];
    forall j | 0 <= j < |row| ensures Separable(row[j], "||") {
      SeparableByBars(row[j]);
    }
    SplitJoin(row, "||");
  }

  lemma ConsStorable(head: Row, rows: seq<Row>)
    requires Storable(head)
    requires forall k :: 0 <= k < |rows| ==> Storable(rows[k])
    ensures forall k :: 0 <= k < |[head] + rows| ==> Storable(([head] + rows)[k])
  {
    forall k | 0 <= k < |[head] + rows| ensures Storable(([head] + rows)[k]) {
      if k > 0 { assert ([head] + rows)[k] == rows[k - 1]; }
    }
  }

  /** Saving with any storable first line in front reads back the rows after it. */
  lemma {:induction false} SaveLoad(head: Row, rows: seq<Row>)
    requires Storable(head)
    requires forall k :: 0 <= k < |rows| ==> Storable(rows[k])
    ensures Load(Serialize([head] + rows)) == rows
  {
    var all := [head] + rows;
    ConsStorable(head, rows);
    SavedLines(all);
    var loaded := Load(Serialize(all));
    forall k | 0 <= k < |rows|
      ensures loaded[k] == rows[k]
    {
      assert Lines(all)[k + 1] == Line(rows[k]);
      ReadRow(rows[k]);
    }
  }

  /** Round trip: what `_save_total_data` writes for `rows` (the header put in
      front), `_get_total_data` reads back as exactly `rows`. */
  lemma RoundTrip(rows: seq<Row>)
    requires forall k :: 0 <= k < |rows| ==> Storable(rows[k])
    ensures Load(Serialize([Header] + rows)) == rows
  {
    HeaderStorable();
    SaveLoad(Header, rows);
  }

  lemma LinesCons(head: Row, rows: seq<Row>)
    ensures Lines([head] + rows) == [Line(head)] + Lines(rows)
  {
    forall k | 0 < k <= |rows| ensures Lines([head] + rows)[k] == Lines(rows)[k - 1] {
      assert ([head] + rows)[k] == rows[k - 1];
    }
  }

  /** The header line, joined one column at a time. */
  lemma HeaderParts()
    ensures Line(Header)
         == ("image_name" + "||") + (("height" + "||") + (("font-size" + "||") + (("color" + "||") + "background-color")))
  {
    assert Header == ["image_name"] + ["height", "font-size", "color", "background-color"];
    JoinCons("image_name", ["height", "font-size", "color", "background-color"], "||");
    assert ["height", "font-size", "color", "background-color"] == ["height"] + ["font-size", "color", "background-color"];
    JoinCons("height", ["font-size", "color", "background-color"], "||");
    assert ["font-size", "color", "background-color"] == ["font-size"] + ["color", "background-color"];
    JoinCons("font-size", ["color", "background-color"], "||");
    assert ["color", "background-color"] == ["color"] + ["background-color"];
    JoinCons("color", ["background-color"], "||");
  }

  /** The header line built from the right, one concatenation of literals per
      lemma, which keeps each proof small. */
  lemma LastTwoColumns()
    ensures ("color" + "||") + "background-color" == "color||background-color"
  {
  }

  lemma LastThreeColumns()
    ensures ("font-size" + "||") + "color||background-color" == "font-size||color||background-color"
  {
  }

  lemma LastFourColumns()
    ensures ("height" + "||") + "font-size||color||background-color" == "height||font-size||color||background-color"
  {
  }

  lemma FirstColumn()
    ensures "image_name" + "||" == "image_name||"
  {
  }

  lemma AllColumns()
    ensures "image_name||" + "height||font-size||color||background-color"
         == "image_name||height||font-size||color||background-color"
  {
  }

  /** The first line a save writes, literally. */
  lemma HeaderText()
    ensures Line(Header) == "image_name||height||font-size||color||background-color"
  {
    HeaderParts();
    LastTwoColumns();
    LastThreeColumns();
    LastFourColumns();
    FirstColumn();
    AllColumns();
  }

  /** The saved text is the header line, then one line per row, each ended by
      "\n"; the header line splits back into the five column names. */
  lemma SavedLayout(rows: seq<Row>)
    requires forall k :: 0 <= k < |rows| ==> Storable(rows[k])
    ensures Split(Serialize([Header] + rows), "\n") == [Line(Header)] + Lines(rows) + [""]
    ensures Split(Line(Header), "||") == Header
    ensures Line(Header) == "image_name||height||font-size||color||background-color"
  {
    HeaderText();
    HeaderStorable();
    ConsStorable(Header, rows);
    SplitSerialized([Header] + rows);
    LinesCons(Header, rows);
    ReadRow(Header);
  }

  /** Saving twice (the header is inserted into the rows on each save) and
      reloading yields the header as a data row. */
  lemma SecondSaveKeepsHeaderAsRow(rows: seq<Row>)
    requires forall k :: 0 <= k < |rows| ==> Storable(rows[k])
    ensures Load(Serialize([Header] + ([Header] + rows))) == [Header] + rows
  {
    HeaderStorable();
    ConsStorable(Header, rows);
    SaveLoad(Header, [Header] + rows);
  }

  /** The condition on fields is sufficient, not necessary: a '|' ending the
      last field of a row is read back as written. */
  lemma TrailingBarOnLastFieldSurvives()
    ensures Split(Join(["x", "a|"], "||"), "||") == ["x", "a|"]
  {
    var s := Join(["x", "a|"], "||");
    assert ["x", "a|"][1..] == ["a|"];
    assert s == "x" + "||" + "a|";
    assert s == "x||a|";
    assert s[0] == 'x';
    assert !("||" <= s);
    assert s[1..] == "||a|";
    assert "||" <= s[1..];
    assert s[1..][2..] == "a|";
    var t: string := "a|";
    assert !("||" <= t) && t[1..] == "|" && [] + [t[0]] == "a";
    assert !("||" <= t[1..]) && t[1..][1..] == [] && "a" + [t[1..][0]] == "a|";
    assert SplitFrom(t, "||", []) == ["a|"];
    assert [] + [s[0]] == "x";
    assert Split(s, "||") == SplitFrom(s[1..], "||", "x");
  }

  /** Why a field may not end in '|': "a|" followed by "||" is read as "a"
      followed by a field that starts with '|'. */
  lemma TrailingBarMisreads()
    ensures Split(Join(["a|", "b"], "||"), "||") == ["a", "|b"]
  {
    var s := Join(["a|", "b"], "||");
    assert ["a|", "b"][1..] == ["b"];
    assert s == "a|" + "||" + "b";
    assert s == "a|||b";
    assert s[0] == 'a';
    assert !("||" <= s);
    assert s[1..] == "|||b";
    assert "||" <= s[1..];
    assert s[1..][2..] == "|b";
    SeparableByBars("|b");
    SplitFromWhole("|b", "||", []);
    assert [] + "|b" == "|b";
    assert [] + [s[0]] == "a";
    assert SplitFrom(s[1..], "||", "a") == ["a"] + SplitFrom("|b", "||", []);
    assert Split(s, "||") == SplitFrom(s[1..], "||", "a");
  }
}
