/** One run of the script: load the two tables, then for each shapefile derive
    its parameter, build and sort its records, plan the marks, make the title
    and name the output image. Reading shapefiles, enumerating the input
    folder and drawing are outside the model; the reader's output is a
    parameter, and so is the file list.
 */
module Figure {
  import opened Outcomes
  import opened PyStr
  import opened Paths
  import opened Tables
  import opened Records
  import opened Annotate

  /** What the script produces for one input file. */
  datatype Rendered = Rendered(parameter: string, marks: seq<Mark>, title: string, image: string)

  /** The title `<Category> Quotient Values for <label> in the <aquifer> Aquifer.`,
      where the label is looked up by the parameter's code key and loses its
      last character (the line terminator kept by the code table). */
  function Title(c: Category, parameter: string, codes: map<string, string>): (r: Result<string>)
    ensures r.Ok? <==> CodeKey(parameter) in codes
    ensures r.Err? ==> r.error == KeyError(CodeKey(parameter))
  {
    var key := CodeKey(parameter);
    if key !in codes then Err(KeyError(key))
    else Ok(CategoryName(c) + " Quotient Values for " + DropLast(codes[key])
            + " in the " + AquiferName(parameter) + " Aquifer.")
  }

  /** For a parameter `<aquifer>- <code>` whose code-table line was
      `<code><TAB><label><LF>`, the title names the label and the aquifer. */
  lemma TitleOfParameter(c: Category, aquifer: string, code: string, label': string, codes: map<string, string>)
    requires '-' !in aquifer
    requires code in codes && codes[code] == label' + "\n"
    ensures Title(c, aquifer + "- " + code, codes)
            == Ok(CategoryName(c) + " Quotient Values for " + label' + " in the " + aquifer + " Aquifer.")
  {
    assert aquifer + "- " + code == aquifer + ['-', ' '] + code;
    ParameterParts(aquifer, ' ', code);
    assert DropLast(label' + "\n") == label';
  }

  /** The image written for a parameter: `<root>/Basemap Mapper/Mapping/<Category>/<parameter>.png`. */
  function ImagePath(root: string, sep: char, c: Category, parameter: string): (image: string)
    ensures |image| >= |root| + |parameter| + 5
    ensures image[..|root| + 1] == root + [sep]
    ensures image[|image| - |parameter| - 5..] == [sep] + parameter + ".png"
  {
    root + [sep] + "Basemap Mapper" + [sep] + "Mapping" + [sep] + CategoryName(c) + [sep] + parameter + ".png"
  }

  /** The image is named after the parameter: reading the parameter back out
      of the image path, the way it is read from a shapefile path, gives it back. */
  lemma ImagePathNamesParameter(root: string, sep: char, c: Category, parameter: string)
    requires sep !in parameter && sep !in ".png"
    ensures ParameterOf(ImagePath(root, sep, c, parameter), sep) == parameter
  {
    var dir := root + [sep] + "Basemap Mapper" + [sep] + "Mapping" + [sep] + CategoryName(c);
    assert ImagePath(root, sep, c, parameter) == dir + [sep] + parameter + ".png";
    ParameterOfFile(dir, parameter, ".png", sep);
  }

  /** The records of one file, sorted and turned into marks: the file's
      part of the loop body before the title. */
  function FileMarks(infos: seq<ShapeInfo>, points: seq<Point>, c: Category,
                     offsets: map<string, Offset>): (r: Result<seq<Mark>>)
    ensures r.Ok? ==> |r.value| == Min(|infos|, |points|)
    ensures r.Ok? ==>
              BuildRecords(infos, points, QuotientField(c)).Ok? &&
              var sorted := SortByAnomaly(BuildRecords(infos, points, QuotientField(c)).value);
              forall i :: 0 <= i < |sorted| ==> MarkFor(sorted[i], offsets) == Ok(r.value[i])
    ensures BuildRecords(infos, points, QuotientField(c)).Err? ==>
              r == Err(BuildRecords(infos, points, QuotientField(c)).error)
    ensures BuildRecords(infos, points, QuotientField(c)).Ok? && r.Err? ==>
              FirstMissing(SortByAnomaly(BuildRecords(infos, points, QuotientField(c)).value), offsets, r.error)
  {
    var records :- BuildRecords(infos, points, QuotientField(c));
    Plan(SortByAnomaly(records), offsets)
  }

  /** Two lists holding the same records agree on whether all their locations have offsets. */
  lemma PermutedLocations(records: seq<Record>, sorted: seq<Record>, offsets: map<string, Offset>)
    requires multiset(records) == multiset(sorted)
    ensures (forall i :: 0 <= i < |sorted| ==> sorted[i].location in offsets) <==>
            (forall i :: 0 <= i < |records| ==> records[i].location in offsets)
  {
    if forall i :: 0 <= i < |sorted| ==> sorted[i].location in offsets {
      forall i | 0 <= i < |records|
        ensures records[i].location in offsets
      {
        assert records[i] in multiset(sorted);
      }
    }
    if forall i :: 0 <= i < |records| ==> records[i].location in offsets {
      forall i | 0 <= i < |sorted|
        ensures sorted[i].location in offsets
      {
        assert sorted[i] in multiset(records);
      }
    }
  }

  /** A file's marks exist exactly when every zipped record has its two
      attributes and its location has a label offset. */
  lemma FileMarksOk(infos: seq<ShapeInfo>, points: seq<Point>, c: Category, offsets: map<string, Offset>)
    ensures FileMarks(infos, points, c, offsets).Ok? <==>
              forall i :: 0 <= i < Min(|infos|, |points|) ==>
                infos[i].location.Some? && QuotientField(c) in infos[i].numbers &&
                infos[i].location.value in offsets
  {
    var field := QuotientField(c);
    var built := BuildRecords(infos, points, field);
    if built.Err? {
      var i :| 0 <= i < Min(|infos|, |points|) && MakeRecord(infos[i], points[i], field) == Err(built.error);
      assert !(infos[i].location.Some? && field in infos[i].numbers);
    } else {
      BuiltMarksOk(infos, points, c, offsets);
      BuiltLocations(infos, points, field, built.value);
    }
  }

  /** Once the records are built, the marks exist exactly when every record's
      location has a label offset; the order of the records does not matter. */
  lemma BuiltMarksOk(infos: seq<ShapeInfo>, points: seq<Point>, c: Category, offsets: map<string, Offset>)
    requires BuildRecords(infos, points, QuotientField(c)).Ok?
    ensures var records := BuildRecords(infos, points, QuotientField(c)).value;
            FileMarks(infos, points, c, offsets).Ok? <==>
            forall i :: 0 <= i < |records| ==> records[i].location in offsets
  {
    var records := BuildRecords(infos, points, QuotientField(c)).value;
    var sorted := SortByAnomaly(records);
    PermutedLocations(records, sorted, offsets);
    assert FileMarks(infos, points, c, offsets) == Plan(sorted, offsets);
  }

  /** A successful build has read both attributes of every zipped record and
      took each record's location from its attribute record. */
  lemma BuiltLocations(infos: seq<ShapeInfo>, points: seq<Point>, field: string, records: seq<Record>)
    requires BuildRecords(infos, points, field) == Ok(records)
    ensures |records| == Min(|infos|, |points|)
    ensures forall i :: 0 <= i < |records| ==>
              infos[i].location.Some? && field in infos[i].numbers && records[i].location == infos[i].location.value
  {
    forall i | 0 <= i < |records|
      ensures infos[i].location.Some? && field in infos[i].numbers
      ensures records[i].location == infos[i].location.value
    {
      assert MakeRecord(infos[i], points[i], field) == Ok(records[i]);
    }
  }

  /** The name labels of a file's marks show the zipped records' locations,
      each as often as it occurs: the sort only reorders them. */
  lemma FileMarksNames(infos: seq<ShapeInfo>, points: seq<Point>, c: Category, offsets: map<string, Offset>)
    requires FileMarks(infos, points, c, offsets).Ok?
    ensures BuildRecords(infos, points, QuotientField(c)).Ok?
    ensures multiset(LabelNames(FileMarks(infos, points, c, offsets).value))
            == multiset(Locations(BuildRecords(infos, points, QuotientField(c)).value))
  {
    var records := BuildRecords(infos, points, QuotientField(c)).value;
    var sorted := SortByAnomaly(records);
    var marks := FileMarks(infos, points, c, offsets).value;
    assert LabelNames(marks) == Locations(sorted) by {
      LocationsAt(sorted);
      forall i | 0 <= i < |sorted|
        ensures LabelNames(marks)[i] == sorted[i].location
      {
        assert MarkFor(sorted[i], offsets) == Ok(marks[i]);
      }
    }
    LocationsPermute(sorted, records);
  }

  /** Marks come out largest first: the sort orders records by distance from
      1, and the marker size grows with that distance. */
  lemma FileMarksShrink(infos: seq<ShapeInfo>, points: seq<Point>, c: Category, offsets: map<string, Offset>)
    requires FileMarks(infos, points, c, offsets).Ok?
    ensures var marks := FileMarks(infos, points, c, offsets).value;
            forall i, j :: 0 <= i < j < |marks| ==> marks[j].size <= marks[i].size
  {
    var sorted := SortByAnomaly(BuildRecords(infos, points, QuotientField(c)).value);
    var marks := FileMarks(infos, points, c, offsets).value;
    assert Plan(sorted, offsets) == Ok(marks);
    forall i, j | 0 <= i < j < |marks|
      ensures marks[j].size <= marks[i].size
    {
      assert Key(sorted[j]) <= Key(sorted[i]);
      MarkerSizeMonotone(sorted[j].q, sorted[i].q);
    }
  }

  /** Each mark is red exactly when the quotient it labels exceeds 1. */
  lemma FileMarksColours(infos: seq<ShapeInfo>, points: seq<Point>, c: Category, offsets: map<string, Offset>)
    requires FileMarks(infos, points, c, offsets).Ok?
    ensures var marks := FileMarks(infos, points, c, offsets).value;
            forall i :: 0 <= i < |marks| ==>
              marks[i].value.text.QuotientText? &&
              (marks[i].colour == Red <==> marks[i].value.text.q > 1.0)
  {
    var sorted := SortByAnomaly(BuildRecords(infos, points, QuotientField(c)).value);
    assert Plan(sorted, offsets) == Ok(FileMarks(infos, points, c, offsets).value);
  }

  /** One pass of the per-file loop, in the script's order: parameter,
      records, sort, marks, title. The first exception ends the pass. */
  function RenderFile(root: string, file: string, sep: char, c: Category,
                      infos: seq<ShapeInfo>, points: seq<Point>,
                      offsets: map<string, Offset>, codes: map<string, string>): (r: Result<Rendered>)
    ensures r.Ok? <==> FileMarks(infos, points, c, offsets).Ok? && CodeKey(ParameterOf(file, sep)) in codes
    ensures r.Ok? ==> r.value.parameter == ParameterOf(file, sep) && sep !in r.value.parameter
    ensures r.Ok? ==> r.value.marks == FileMarks(infos, points, c, offsets).value
    ensures r.Ok? ==> r.value.image == ImagePath(root, sep, c, r.value.parameter)
    ensures r.Ok? ==> Title(c, r.value.parameter, codes) == Ok(r.value.title)
    ensures FileMarks(infos, points, c, offsets).Err? ==> r == Err(FileMarks(infos, points, c, offsets).error)
    ensures FileMarks(infos, points, c, offsets).Ok? && CodeKey(ParameterOf(file, sep)) !in codes ==>
              r == Err(KeyError(CodeKey(ParameterOf(file, sep))))
  {
    var parameter := ParameterOf(file, sep);
    var marks :- FileMarks(infos, points, c, offsets);
    var title :- Title(c, parameter, codes);
    Ok(Rendered(parameter, marks, title, ImagePath(root, sep, c, parameter)))
  }

  /** The loop over the input files: every file must render, since the first
      exception ends the run. */
  function RenderAll(root: string, files: seq<string>, sep: char, c: Category,
                     read: string -> (seq<ShapeInfo>, seq<Point>),
                     offsets: map<string, Offset>, codes: map<string, string>): (r: Result<seq<Rendered>>)
    ensures r.Ok? <==> forall i :: 0 <= i < |files| ==> RenderOne(root, files[i], sep, c, read, offsets, codes).Ok?
    ensures r.Ok? ==> |r.value| == |files|
    ensures r.Ok? ==> forall i :: 0 <= i < |files| ==> RenderOne(root, files[i], sep, c, read, offsets, codes) == Ok(r.value[i])
    ensures r.Err? ==>
              exists i :: 0 <= i < |files| && RenderOne(root, files[i], sep, c, read, offsets, codes) == Err(r.error) &&
                          forall j :: 0 <= j < i ==> RenderOne(root, files[j], sep, c, read, offsets, codes).Ok?
  {
    MapAll(files, file => RenderOne(root, file, sep, c, read, offsets, codes))
  }

  /** The figures whose images `savefig` has written when the loop over
      files stops: one per file, in order, up to the first file whose pass
      raises. When that happens the run ends with that file's error. */
  function SavedFigures(root: string, files: seq<string>, sep: char, c: Category,
                        read: string -> (seq<ShapeInfo>, seq<Point>),
                        offsets: map<string, Offset>, codes: map<string, string>): (saved: seq<Rendered>)
    ensures |saved| <= |files|
    ensures forall i :: 0 <= i < |saved| ==> RenderOne(root, files[i], sep, c, read, offsets, codes) == Ok(saved[i])
    ensures |saved| == |files| <==> RenderAll(root, files, sep, c, read, offsets, codes).Ok?
    ensures |saved| == |files| ==> RenderAll(root, files, sep, c, read, offsets, codes) == Ok(saved)
    ensures |saved| < |files| ==>
              RenderAll(root, files, sep, c, read, offsets, codes).Err? &&
              RenderOne(root, files[|saved|], sep, c, read, offsets, codes)
              == Err(RenderAll(root, files, sep, c, read, offsets, codes).error)
  {
    var render := file => RenderOne(root, file, sep, c, read, offsets, codes);
    CompletedOfMapAll(files, render);
    Completed(files, render)
  }

  /** Render one file from what the shapefile reader returns for it. */
  function RenderOne(root: string, file: string, sep: char, c: Category,
                     read: string -> (seq<ShapeInfo>, seq<Point>),
                     offsets: map<string, Offset>, codes: map<string, string>): (r: Result<Rendered>)
    ensures r.Ok? <==> FileMarks(read(file).0, read(file).1, c, offsets).Ok? && CodeKey(ParameterOf(file, sep)) in codes
    ensures r.Ok? ==> r.value.parameter == ParameterOf(file, sep) &&
                      r.value.marks == FileMarks(read(file).0, read(file).1, c, offsets).value &&
                      Title(c, r.value.parameter, codes) == Ok(r.value.title) &&
                      r.value.image == ImagePath(root, sep, c, r.value.parameter)
    ensures FileMarks(read(file).0, read(file).1, c, offsets).Err? ==>
              r == Err(FileMarks(read(file).0, read(file).1, c, offsets).error)
    ensures FileMarks(read(file).0, read(file).1, c, offsets).Ok? && CodeKey(ParameterOf(file, sep)) !in codes ==>
              r == Err(KeyError(CodeKey(ParameterOf(file, sep))))
  {
    RenderFile(root, file, sep, c, read(file).0, read(file).1, offsets, codes)
  }

  /** Every image of a run is named after its input file's parameter. */
  lemma RenderAllImages(root: string, files: seq<string>, sep: char, c: Category,
                        read: string -> (seq<ShapeInfo>, seq<Point>),
                        offsets: map<string, Offset>, codes: map<string, string>)
    requires RenderAll(root, files, sep, c, read, offsets, codes).Ok?
    ensures var figs := RenderAll(root, files, sep, c, read, offsets, codes).value;
            forall i :: 0 <= i < |files| ==>
              figs[i].parameter == ParameterOf(files[i], sep) &&
              figs[i].image == ImagePath(root, sep, c, ParameterOf(files[i], sep))
  {
  }

  /** The whole script: find the project root two folders above the script's
      directory, load both tables (a malformed line ends the run), then render
      every file. */
  function Run(scriptDir: string, sep: char, c: Category,
               codeRows: seq<seq<string>>, labelRows: seq<seq<string>>, parse: string -> Option<real>,
               files: seq<string>, read: string -> (seq<ShapeInfo>, seq<Point>)): (r: Result<seq<Rendered>>)
    ensures r.Ok? ==> |r.value| == |files|
    ensures CodeTable(codeRows).Err? ==> r == Err(IndexError)
    ensures CodeTable(codeRows).Ok? && LabelTable(labelRows, parse).Err? ==> r == Err(LabelTable(labelRows, parse).error)
    ensures r.Ok? ==> CodeTable(codeRows).Ok? && LabelTable(labelRows, parse).Ok?
    ensures CodeTable(codeRows).Ok? && LabelTable(labelRows, parse).Ok? ==>
              var codes, offsets := CodeTable(codeRows).value, LabelTable(labelRows, parse).value;
              var root := ScriptRoot(scriptDir, sep);
              (r.Ok? <==> forall i :: 0 <= i < |files| ==> RenderOne(root, files[i], sep, c, read, offsets, codes).Ok?) &&
              (r.Ok? ==> forall i :: 0 <= i < |files| ==> RenderOne(root, files[i], sep, c, read, offsets, codes) == Ok(r.value[i])) &&
              (r.Err? ==> exists i :: 0 <= i < |files| && RenderOne(root, files[i], sep, c, read, offsets, codes) == Err(r.error) &&
                                      forall j :: 0 <= j < i ==> RenderOne(root, files[j], sep, c, read, offsets, codes).Ok?)
    ensures r.Ok? ==>
              forall i :: 0 <= i < |files| ==>
                r.value[i].image == ImagePath(ScriptRoot(scriptDir, sep), sep, c, ParameterOf(files[i], sep))
  {
    var codes :- CodeTable(codeRows);
    var offsets :- LabelTable(labelRows, parse);
    var root := ScriptRoot(scriptDir, sep);
    var r := RenderAll(root, files, sep, c, read, offsets, codes);
    if r.Ok? then
      RenderAllImages(root, files, sep, c, read, offsets, codes);
      r
    else r
  }

  /** An example: quotients 0.5, 1.0 and 2.0 at locations A, B and C
      are drawn in the order C, A, B. */
  lemma ThreeLocationOrder(p: Point)
    ensures SortByAnomaly([Record("A", p, 0.5), Record("B", p, 1.0), Record("C", p, 2.0)])
            == [Record("C", p, 2.0), Record("A", p, 0.5), Record("B", p, 1.0)]
  {
    var a, b, c := Record("A", p, 0.5), Record("B", p, 1.0), Record("C", p, 2.0);
    assert Key(a) == 0.5 && Key(b) == 0.0 && Key(c) == 1.0;
    assert [c][1..] == [];
    assert SortByAnomaly([c]) == [c];
    assert [b, c][1..] == [c];
    assert SortByAnomaly([b, c]) == Insert(b, [c]) == [c, b];
    assert [a, b, c][1..] == [b, c];
    assert [c, b][1..] == [b];
    assert Insert(a, [c, b]) == [c] + Insert(a, [b]) == [c, a, b];
  }

  /** In that example C is red and A and B lime, with sizes 13, 9 and 5. */
  lemma ThreeLocationMarkers()
    ensures MarkerColour(2.0) == Red && MarkerColour(0.5) == Lime && MarkerColour(1.0) == Lime
    ensures MarkerSize(2.0) == 13.0 && MarkerSize(0.5) == 9.0 && MarkerSize(1.0) == 5.0
  {
    assert Anomaly(2.0) == 1.0 && Anomaly(0.5) == 0.5 && Anomaly(1.0) == 0.0;
  }
}
