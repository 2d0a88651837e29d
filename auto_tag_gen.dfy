/** The AutoTagGen object as far as the label data goes: the rows it holds in
    `total_data`, the text of data/total_data.txt, and the methods that read,
    extend and write them. */
module AutoTagGenerator {
  import opened PyText
  import opened LabelFile
  import opened Generation

  datatype Option<T> = None | Some(value: T)

  /** An empty label file holds no rows. */
  lemma LoadEmpty()
    ensures Load("") == []
  {
    assert UniversalNewlines("") == "";
    assert Split("", "\n") == [""];
    assert IsBlank("");
    assert NonBlank([""]) == [];
  }

  class AutoTagGen {
    /** `self.total_data`: the label rows, without the header until a save. */
    var totalData: seq<Row>
    /** The contents of data/total_data.txt. */
    var fileText: string

    /** `__init__`: with no label file yet, create an empty one and start with
        no rows; otherwise start with the rows the file holds. Either way the
        rows are what the file loads to. */
    constructor(existing: Option<string>)
      ensures existing.None? ==> fileText == "" && totalData == []
      ensures existing.Some? ==> fileText == existing.value && totalData == Load(existing.value)
      ensures totalData == Load(fileText)
    {
      LoadEmpty();
      match existing
      case None =>
        fileText := "";
        totalData := [];
      case Some(text) =>
        fileText := text;
        totalData := Load(text);
    }

    /** `_save_total_data`: put the header in front of the rows, kept in the
        rows afterwards, then write every row as one line. Loading the file
        again gives back the rows there were before the save. */
    method SaveTotalData()
      modifies this
      ensures totalData == [Header] + old(totalData)
      ensures fileText == Serialize(totalData)
      ensures (forall k :: 0 <= k < |old(totalData)| ==> Storable(old(totalData)[k])) ==>
                Load(fileText) == old(totalData)
    {
      ghost var before := totalData;
      totalData := [Header] + totalData;
      fileText := WriteLines(totalData);
      if forall k :: 0 <= k < |before| ==> Storable(before[k]) {
        RoundTrip(before);
      }
    }

    /** The writing loop of `_save_total_data`: each row's fields joined by
        "||", then "\n", in order. */
    static method WriteLines(rows: seq<Row>) returns (out: string)
      ensures out == Serialize(rows)
    {
      out := "";
      for i := 0 to |rows|
        invariant out == Serialize(rows[..i])
      {
        SerializeSnoc(rows[..i], rows[i]);
        assert rows[..i + 1] == rows[..i] + [rows[i]];
        out := out + Line(rows[i]) + "\n";
      }
      assert rows[..|rows|] == rows;
    }

    /** `_is_in_data`: walk the rows in order, unpacking each, and stop at the
        first whose style fields equal the candidate. */
    method LookUp(cand: Candidate) returns (r: Lookup)
      ensures r == IsInData(totalData, cand)
    {
      var j := 0;
      while j < |totalData|
        invariant 0 <= j <= |totalData|
        invariant IsInData(totalData, cand) == IsInData(totalData[j..], cand)
      {
        var row := totalData[j];
        assert totalData[j..][0] == row && totalData[j..][1..] == totalData[j + 1..];
        if |row| != 5 {
          return UnpackError;
        }
        if SameStyle(row, cand) {
          return Ok(true);
        }
        j := j + 1;
      }
      assert totalData[j..] == [];
      return Ok(false);
    }

    /** `tag_generator`: `genCount` passes, each taking the next draw and, when
        the check does not find it, appending its row named by the next
        timestamp. Ends early, with `completed` false, when the check raises. */
    method TagGenerator(genCount: int, draws: seq<Draw>, stamps: seq<int>, check: DupCheck)
      returns (completed: bool)
      requires 0 <= genCount <= |draws| && genCount <= |stamps|
      modifies this
      ensures Outcome(totalData, completed) == Generate(old(totalData), draws[..genCount], stamps, check)
      ensures fileText == old(fileText)
    {
      var count := genCount;
      var i, k := 0, 0;
      while count != 0
        invariant 0 <= k <= i <= genCount && count == genCount - i
        invariant Generate(old(totalData), draws[..genCount], stamps, check)
               == Generate(totalData, draws[i..genCount], stamps[k..], check)
        invariant fileText == old(fileText)
        decreases count
      {
        var d := draws[i];
        ghost var pending := draws[i..genCount];
        assert pending[0] == d && pending[1..] == draws[i + 1..genCount];
        var found := LookUp(CandidateOf(d, check));
        match found {
          case UnpackError =>
            GenerateStops(totalData, pending, stamps[k..], check);
            return false;
          case Ok(true) =>
            GenerateSkip(totalData, pending, stamps[k..], check);
          case Ok(false) =>
            GenerateAppend(totalData, pending, stamps[k..], check);
            assert stamps[k..][0] == stamps[k] && stamps[k..][1..] == stamps[k + 1..];
            totalData := totalData + [NewRow(stamps[k], d)];
            k := k + 1;
        }
        i := i + 1;
        count := count - 1;
      }
      assert draws[i..genCount] == [];
      return true;
    }

    /** `run`: five passes, then a save; the save is not reached when a pass
        raises. */
    method Run(draws: seq<Draw>, stamps: seq<int>, check: DupCheck) returns (completed: bool)
      requires 5 <= |draws| && 5 <= |stamps|
      modifies this
      ensures var o := Generate(old(totalData), draws[..5], stamps, check);
        && completed == o.completed
        && (completed ==> totalData == [Header] + o.rows && fileText == Serialize(totalData))
        && (!completed ==> totalData == o.rows && fileText == old(fileText))
    {
      completed := TagGenerator(5, draws, stamps, check);
      if completed {
        SaveTotalData();
      }
    }
  }
}
