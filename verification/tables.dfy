/** The two lookup tables read at start-up, each built by a loop over the
    lines of a tab-separated text file. A line is modelled as the list of its
    tab-separated fields (`line.split('\t')`); number parsing (`float`) is a
    parameter, since it is Python's floating-point conversion.
 */
module Tables {
  import opened Outcomes
  import opened PyStr

  /** Where a location's labels go, relative to its point, in map units. */
  datatype Offset = Offset(dx: real, dy: real)

  /** Row `i` is well formed for `entry`, and no later well-formed row has its key. */
  predicate LastEntryFor<V>(rows: seq<seq<string>>, entry: seq<string> -> Result<(string, V)>, i: int) {
    && 0 <= i < |rows|
    && entry(rows[i]).Ok?
    && forall j :: i < j < |rows| && entry(rows[j]).Ok? ==> entry(rows[j]).value.0 != entry(rows[i]).value.0
  }

  /** The loop `for line in file: d[key] = value`: rows are applied in order,
      and the first row that raises ends the loop with that exception. */
  function Load<V>(rows: seq<seq<string>>, entry: seq<string> -> Result<(string, V)>): (r: Result<map<string, V>>)
    ensures r.Ok? <==> forall i :: 0 <= i < |rows| ==> entry(rows[i]).Ok?
    decreases |rows|
  {
    if |rows| == 0 then Ok(map[])
    else
      var n := |rows| - 1;
      assert forall i :: 0 <= i < n ==> rows[..n][i] == rows[i];
      match Load(rows[..n], entry)
      case Err(e) => Err(e)
      case Ok(m) =>
        match entry(rows[n])
        case Err(e) => Err(e)
        case Ok(kv) => Ok(m[kv.0 := kv.1])
  }

  /** A failed load reports the exception of the first row that raises. */
  lemma {:induction false} LoadFirstError<V>(rows: seq<seq<string>>, entry: seq<string> -> Result<(string, V)>)
    requires Load(rows, entry).Err?
    ensures exists i :: 0 <= i < |rows| && entry(rows[i]) == Err(Load(rows, entry).error) &&
                        forall j :: 0 <= j < i ==> entry(rows[j]).Ok?
    decreases |rows|
  {
    var n := |rows| - 1;
    var prefix := rows[..n];
    assert forall i :: 0 <= i < n ==> prefix[i] == rows[i];
    if Load(prefix, entry).Err? {
      LoadFirstError(prefix, entry);
      var i :| 0 <= i < n && entry(prefix[i]) == Err(Load(prefix, entry).error) &&
               forall j :: 0 <= j < i ==> entry(prefix[j]).Ok?;
      assert entry(rows[i]) == Err(Load(rows, entry).error);
    } else {
      assert entry(rows[n]) == Err(Load(rows, entry).error);
    }
  }

  /** A loaded table has exactly the keys of the rows. */
  lemma {:induction false} LoadKeys<V>(rows: seq<seq<string>>, entry: seq<string> -> Result<(string, V)>)
    requires Load(rows, entry).Ok?
    ensures forall k :: k in Load(rows, entry).value <==>
                        exists i :: 0 <= i < |rows| && entry(rows[i]).Ok? && entry(rows[i]).value.0 == k
    decreases |rows|
  {
    if |rows| > 0 {
      var n := |rows| - 1;
      var prefix := rows[..n];
      assert forall i :: 0 <= i < n ==> prefix[i] == rows[i];
      LoadKeys(prefix, entry);
      forall k | k in Load(rows, entry).value
        ensures exists i :: 0 <= i < |rows| && entry(rows[i]).Ok? && entry(rows[i]).value.0 == k
      {
        if k != entry(rows[n]).value.0 {
          var i :| 0 <= i < n && entry(prefix[i]).Ok? && entry(prefix[i]).value.0 == k;
          assert entry(rows[i]).value.0 == k;
        }
      }
    }
  }

  /** In a loaded table, a key maps to the value of the last row with that key. */
  lemma {:induction false} LoadLastWins<V>(rows: seq<seq<string>>, entry: seq<string> -> Result<(string, V)>, i: int)
    requires Load(rows, entry).Ok?
    requires LastEntryFor(rows, entry, i)
    ensures entry(rows[i]).value.0 in Load(rows, entry).value
    ensures Load(rows, entry).value[entry(rows[i]).value.0] == entry(rows[i]).value.1
    decreases |rows|
  {
    var n := |rows| - 1;
    var prefix := rows[..n];
    assert forall j :: 0 <= j < n ==> prefix[j] == rows[j];
    if i < n {
      assert LastEntryFor(prefix, entry, i);
      LoadLastWins(prefix, entry, i);
    }
  }

  /** `codeDict[Columns[0]] = Columns[1]`: key and raw second field, which
      keeps the line terminator when the line has exactly two fields. */
  function CodeEntry(cols: seq<string>): (r: Result<(string, string)>)
    ensures r.Ok? <==> |cols| >= 2
    ensures r.Err? ==> r.error == IndexError
    ensures r.Ok? ==> r.value.0 == cols[0] && r.value.1 == cols[1]
  {
    if |cols| < 2 then Err(IndexError) else Ok((cols[0], cols[1]))
  }

  /** Row `i` has a first field, and no later row has the same first field. */
  predicate LastRowWithKey(rows: seq<seq<string>>, i: int) {
    && 0 <= i < |rows|
    && |rows[i]| >= 1
    && forall j :: i < j < |rows| && |rows[j]| >= 1 ==> rows[j][0] != rows[i][0]
  }

  /** The code table: code -> label, each label as read (terminator included). */
  function CodeTable(rows: seq<seq<string>>): (r: Result<map<string, string>>)
    ensures r.Ok? <==> forall i :: 0 <= i < |rows| ==> |rows[i]| >= 2
    ensures r.Err? ==> r.error == IndexError
    ensures r.Ok? ==>
              forall k :: k in r.value <==> exists i :: 0 <= i < |rows| && |rows[i]| >= 2 && rows[i][0] == k
    ensures r.Ok? ==>
              forall i :: LastRowWithKey(rows, i) && |rows[i]| >= 2 ==>
                          rows[i][0] in r.value && r.value[rows[i][0]] == rows[i][1]
  {
    var r := Load(rows, CodeEntry);
    if r.Err? then
      LoadFirstError(rows, CodeEntry);
      r
    else
      LoadKeys(rows, CodeEntry);
      forall i | LastRowWithKey(rows, i) && |rows[i]| >= 2
        ensures rows[i][0] in r.value && r.value[rows[i][0]] == rows[i][1]
      {
        assert LastEntryFor(rows, CodeEntry, i);
        LoadLastWins(rows, CodeEntry, i);
      }
      r
  }

  /** `labelDict[Columns[0]] = [float(Columns[1]), float(Columns[2][:-1])]`,
      evaluated in Python's order: the list's items first, left to right. */
  function LabelEntry(cols: seq<string>, parse: string -> Option<real>): (r: Result<(string, Offset)>)
    ensures r.Ok? <==> |cols| >= 3 && parse(cols[1]).Some? && parse(DropLast(cols[2])).Some?
    ensures r.Ok? ==> r.value == (cols[0], Offset(parse(cols[1]).value, parse(DropLast(cols[2])).value))
    ensures |cols| < 2 ==> r == Err(IndexError)
    ensures |cols| >= 2 && parse(cols[1]).None? ==> r == Err(ValueError(cols[1]))
    ensures |cols| == 2 && parse(cols[1]).Some? ==> r == Err(IndexError)
    ensures |cols| >= 3 && parse(cols[1]).Some? && parse(DropLast(cols[2])).None? ==>
              r == Err(ValueError(DropLast(cols[2])))
  {
    if |cols| < 2 then Err(IndexError)
    else match parse(cols[1])
      case None => Err(ValueError(cols[1]))
      case Some(dx) =>
        if |cols| < 3 then Err(IndexError)
        else
          var text := DropLast(cols[2]);
          match parse(text)
          case None => Err(ValueError(text))
          case Some(dy) => Ok((cols[0], Offset(dx, dy)))
  }

  /** The label table: location -> label offset. */
  function LabelTable(rows: seq<seq<string>>, parse: string -> Option<real>): (r: Result<map<string, Offset>>)
    ensures r.Ok? <==> forall i :: 0 <= i < |rows| ==> LabelEntry(rows[i], parse).Ok?
    ensures r.Ok? ==> forall i :: 0 <= i < |rows| ==> |rows[i]| >= 3
    ensures r.Ok? ==>
              forall k :: k in r.value <==> exists i :: 0 <= i < |rows| && |rows[i]| >= 3 && rows[i][0] == k
    ensures r.Ok? ==>
              forall i :: LastRowWithKey(rows, i) && LabelEntry(rows[i], parse).Ok? ==>
                          rows[i][0] in r.value &&
                          r.value[rows[i][0]] == Offset(parse(rows[i][1]).value, parse(DropLast(rows[i][2])).value)
    ensures r.Err? ==> exists i :: 0 <= i < |rows| && LabelEntry(rows[i], parse) == Err(r.error) &&
                                   forall j :: 0 <= j < i ==> LabelEntry(rows[j], parse).Ok?
  {
    var entry := cols => LabelEntry(cols, parse);
    var r := Load(rows, entry);
    assert forall i :: 0 <= i < |rows| ==> entry(rows[i]) == LabelEntry(rows[i], parse);
    if r.Err? then
      LoadFirstError(rows, entry);
      r
    else
      LoadKeys(rows, entry);
      forall i | LastRowWithKey(rows, i) && LabelEntry(rows[i], parse).Ok?
        ensures rows[i][0] in r.value &&
                r.value[rows[i][0]] == Offset(parse(rows[i][1]).value, parse(DropLast(rows[i][2])).value)
      {
        assert LastEntryFor(rows, entry, i);
        LoadLastWins(rows, entry, i);
      }
      r
  }

  /** A code-table line `code<TAB>label<LF>` with no tab in either field
      reads back as the code and the label with its terminator. */
  lemma CodeLineRoundTrip(code: string, title: string)
    requires '\t' !in code && '\t' !in title
    ensures CodeEntry(Split(code + "\t" + title + "\n", '\t')) == Ok((code, title + "\n"))
  {
    JoinTwo(code, title + "\n", '\t');
    assert code + "\t" + title + "\n" == code + ['\t'] + (title + "\n");
    SplitJoin([code, title + "\n"], '\t');
  }

  /** A label-table line `name<TAB>dx<TAB>dy<LF>` reads back as the name and
      the two parsed numbers: the `[:-1]` strips exactly the terminator. */
  lemma LabelLineRoundTrip(name: string, dx: string, dy: string, parse: string -> Option<real>)
    requires '\t' !in name && '\t' !in dx && '\t' !in dy
    requires parse(dx).Some? && parse(dy).Some?
    ensures LabelEntry(Split(name + "\t" + dx + "\t" + dy + "\n", '\t'), parse)
            == Ok((name, Offset(parse(dx).value, parse(dy).value)))
  {
    var cols := [name, dx, dy + "\n"];
    SplitLabelLine(name, dx, dy);
    assert DropLast(cols[2]) == dy;
    assert |cols| == 3 && cols[0] == name && cols[1] == dx;
  }

  /** A label line splits into its name, its `dx` text, and its `dy` text with the terminator. */
  lemma SplitLabelLine(name: string, dx: string, dy: string)
    requires '\t' !in name && '\t' !in dx && '\t' !in dy
    ensures Split(name + "\t" + dx + "\t" + dy + "\n", '\t') == [name, dx, dy + "\n"]
  {
    var last := dy + "\n";
    assert '\t' !in last;
    JoinThree(name, dx, last, '\t');
    assert name + "\t" + dx + "\t" + dy + "\n" == name + ['\t'] + dx + ['\t'] + last;
    SplitJoin([name, dx, last], '\t');
  }

  /** The split lines of a code table written as `code<TAB>label<LF>` lines. */
  function CodeLines(pairs: seq<(string, string)>): (rows: seq<seq<string>>)
    ensures |rows| == |pairs|
  {
    seq(|pairs|, i requires 0 <= i < |pairs| => Split(pairs[i].0 + "\t" + pairs[i].1 + "\n", '\t'))
  }

  /** Writing a code table and reading it back loses nothing: every written
      code is a key, nothing else is, and each code maps to the label of its
      last line, terminator included. */
  lemma CodeTableRoundTrip(pairs: seq<(string, string)>)
    requires forall i :: 0 <= i < |pairs| ==> '\t' !in pairs[i].0 && '\t' !in pairs[i].1
    ensures CodeTable(CodeLines(pairs)).Ok?
    ensures forall k :: k in CodeTable(CodeLines(pairs)).value <==> exists i :: 0 <= i < |pairs| && pairs[i].0 == k
    ensures forall i :: 0 <= i < |pairs| && (forall j :: i < j < |pairs| ==> pairs[j].0 != pairs[i].0) ==>
              CodeTable(CodeLines(pairs)).value[pairs[i].0] == pairs[i].1 + "\n"
  {
    var rows := CodeLines(pairs);
    forall i | 0 <= i < |pairs|
      ensures rows[i] == [pairs[i].0, pairs[i].1 + "\n"]
    {
      var code, text := pairs[i].0, pairs[i].1 + "\n";
      JoinTwo(code, text, '\t');
      assert pairs[i].0 + "\t" + pairs[i].1 + "\n" == code + ['\t'] + text;
      SplitJoin([code, text], '\t');
    }
    forall i | 0 <= i < |pairs| && (forall j :: i < j < |pairs| ==> pairs[j].0 != pairs[i].0)
      ensures LastRowWithKey(rows, i)
    {
    }
  }

  /** The split lines of a label table written as `name<TAB>dx<TAB>dy<LF>` lines. */
  function LabelLines(triples: seq<(string, string, string)>): (rows: seq<seq<string>>)
    ensures |rows| == |triples|
  {
    seq(|triples|, i requires 0 <= i < |triples| =>
      Split(triples[i].0 + "\t" + triples[i].1 + "\t" + triples[i].2 + "\n", '\t'))
  }

  /** Writing a label table and reading it back loses nothing: every written
      name is a key, nothing else is, and each name maps to the two numbers
      of its last line. */
  lemma LabelTableRoundTrip(triples: seq<(string, string, string)>, parse: string -> Option<real>)
    requires forall i :: 0 <= i < |triples| ==>
               '\t' !in triples[i].0 && '\t' !in triples[i].1 && '\t' !in triples[i].2
    requires forall i :: 0 <= i < |triples| ==> parse(triples[i].1).Some? && parse(triples[i].2).Some?
    ensures LabelTable(LabelLines(triples), parse).Ok?
    ensures forall k :: k in LabelTable(LabelLines(triples), parse).value <==>
                        exists i :: 0 <= i < |triples| && triples[i].0 == k
    ensures forall i :: 0 <= i < |triples| && (forall j :: i < j < |triples| ==> triples[j].0 != triples[i].0) ==>
              LabelTable(LabelLines(triples), parse).value[triples[i].0]
              == Offset(parse(triples[i].1).value, parse(triples[i].2).value)
  {
    var rows := LabelLines(triples);
    forall i | 0 <= i < |triples|
      ensures rows[i] == [triples[i].0, triples[i].1, triples[i].2 + "\n"]
      ensures DropLast(rows[i][2]) == triples[i].2
      ensures LabelEntry(rows[i], parse).Ok?
    {
      SplitLabelLine(triples[i].0, triples[i].1, triples[i].2);
      assert DropLast(triples[i].2 + "\n") == triples[i].2;
    }
    forall i | 0 <= i < |triples| && (forall j :: i < j < |triples| ==> triples[j].0 != triples[i].0)
      ensures LastRowWithKey(rows, i)
    {
    }
  }
}
