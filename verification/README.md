# Map-Generator quotient maps, modelled in Dafny

`MapGenerator.py` is a batch script. It draws one groundwater-monitoring map
per shapefile. Each monitoring location is a dot whose colour and size show its
*quotient*: a measured concentration divided by its threshold, so a quotient
above 1 is an exceedance. Each dot has two labels: the location's name and its
quotient.

Most of the script calls Basemap and matplotlib. This project models the
sequential logic between those calls, as pure Dafny functions:

- **Python string semantics** (`PyStr`): `str.find` with a start index,
  slicing with negative and out-of-range bounds, `str.split`/`join` on one
  character, and the script's own `find_last` loop, proved equal to a
  reference "last occurrence" definition.
- **Path and name derivations** (`Paths`):
  - the project root, which is the script's folder trimmed up two folders;
  - the parameter identifier, which is the shapefile's name without `.shp`;
  - the aquifer name (text before the first `-`) and the code-table key
    (text two characters after it).
- **Lookup tables** (`Tables`): the code table (`CodeDict.txt`: code → label)
  and the label-offset table (`labelDict.txt`: location → `(dx, dy)`). Each
  is built by a loop over tab-split lines. A later line overwrites an earlier
  one with the same key.
- **Records** (`Records`):
  - `zip` of attribute records with points, which stops at the shorter list;
  - a stable sort by `|1 − Q|`, largest first.
- **Visual encoding and labels** (`Annotate`):
  - colour is red iff `Q > 1`;
  - size is `|1 − Q|·8 + 5`;
  - both labels sit at the location's offset;
  - exactly one label has an arrow, chosen by the sign of the vertical offset.
- **The run** (`Figure`): the title text, the marks of each file, the output
  image path, the loop over files, and the whole script from its inputs to
  its list of figures.

Every Python exception the modelled code can raise is an `Err` value
(`Outcomes.Error`: `KeyError`, `IndexError`, `ValueError`). The script does no
error handling, so the first exception ends the whole run. Python floats are
modelled as `real`. These are also parameters rather than modelled code:
`os.sep`, the script's own folder `os.path.abspath(os.path.dirname(__file__))`
(MapGenerator.py:152, `scriptDir` of `Figure.Run`), the hard-coded
`Category = 'Maximum'` (:159, the category `c` of `Figure.Run`, so both
categories are covered), the file list from `glob`, the output of
`readshapefile` (as a function from a file name to parallel attribute and
point lists), and `float` (as a function from text to an optional number).

Four behaviours of the script shape the model:

- A location missing from the label table raises `KeyError` at
  MapGenerator.py:256 and ends the run. No record or label is skipped. A
  missing quotient attribute (:241) and a missing code-table key (:310) end
  the run in the same way.
- The arrow rule: a vertical offset `> 0` puts an arrow on the value label
  only. Any other offset, including exactly 0, puts an arrow on the name
  label only.
- The sort at :244 is descending, so the most anomalous locations are drawn
  *first*. Smaller dots drawn later are painted over them.
- The code table keeps each label's line terminator (:167). The title
  removes it with `[:-1]` (:310).

## Model

| member | source | states |
|---|---|---|
| PyStr.FindStart | MapGenerator.py:34 | `find`'s start argument: a non-negative start is kept (even past the end), a negative one counts back from the end, and one further back than the length becomes 0 |
| PyStr.Find | MapGenerator.py:34 | `s.find(t, start)` returns the least index at or after the normalised start where `t` occurs, and -1 exactly when there is none |
| PyStr.LastIndex | MapGenerator.py:31-37 | reference definition of the last occurrence: -1 iff `t` occurs nowhere, otherwise an occurrence with no occurrence after it |
| PyStr.FindLast | MapGenerator.py:31-37 | the `find_last` loop returns -1 iff `t` does not occur in `s`; otherwise `t` occurs at the result and at no larger index; it equals the reference `LastIndex` |
| PyStr.SliceIndex | MapGenerator.py:154 | a slice bound inside `[0, len]` is kept, one past the end becomes `len`, a negative one counts back from the end, and one further back than the length becomes 0 |
| PyStr.Slice | MapGenerator.py:154 | `s[lo:hi]` has length `hi' - lo'` of the normalised bounds (0 when `lo' > hi'`) and its character `k` is `s[lo' + k]` |
| PyStr.SliceInRange | MapGenerator.py:154 | bounds already inside the string slice exactly as written |
| PyStr.SliceFromEnd | MapGenerator.py:231 | negative bounds inside the string name the same positions as `len(s)` plus the bound |
| PyStr.DropLast | MapGenerator.py:175 | `s[:-1]` is `s` without its last character, and empty for the empty string |
| PyStr.Split | MapGenerator.py:166 | `line.split('\t')` yields at least one field, no field contains a tab, and joining the fields with tabs gives the line back |
| PyStr.SplitJoin | MapGenerator.py:174 | splitting a tab-join of tab-free fields gives exactly those fields back |
| Paths.TrimLast | MapGenerator.py:154 | `path[:find_last(path, sep)]` is the prefix ending just before the last separator, which is followed by no other separator; with no separator it drops the last character |
| Paths.ScriptRoot | MapGenerator.py:152-156 | the project root is a prefix of the script's folder; when the folder has two separators it ends just before the second-to-last one, with exactly one separator after it |
| Paths.TwoSeparators | MapGenerator.py:154-156 | with two separators in a path, the first trim stops at the last separator and the second at the one before it, with no separator in between |
| Paths.TrimLastOfJoin | MapGenerator.py:154 | trimming a path of separator-free components drops exactly the last component |
| Paths.ScriptRootOfJoin | MapGenerator.py:152-156 | the two trims of the script's folder drop exactly its last two components |
| Paths.ParameterOf | MapGenerator.py:231 | the parameter contains no separator; when non-empty it ends four characters before the end, starts at the beginning or just after a separator, and no separator follows its start, so it lies after the last separator; it is non-empty whenever no separator falls among the last five characters |
| Paths.ParameterOfFile | MapGenerator.py:231 | the parameter of `dir/name.shp`, for any separator-free name, is exactly `name` |
| Paths.AquiferName | MapGenerator.py:310 | with a dash present, the aquifer name is the dash-free prefix before the first dash; without one, the slice by -1 drops the last character |
| Paths.CodeKey | MapGenerator.py:310 | with a dash present, the key is what follows two characters after the first dash; without one, it is everything but the first character |
| Paths.ParameterParts | MapGenerator.py:310 | a parameter `<aquifer>-<c><code>` with a dash-free aquifer name yields that aquifer name and that code key |
| Tables.Load | MapGenerator.py:165-167 | the table-building loop succeeds iff every line's entry succeeds |
| Tables.LoadFirstError | MapGenerator.py:165-167 | a failed load reports the exception of the first line that raises, and every earlier line succeeded |
| Tables.LoadKeys | MapGenerator.py:165-167 | the keys of a loaded table are exactly the keys of its lines |
| Tables.LoadLastWins | MapGenerator.py:165-167 | each key maps to the value of the last line carrying it |
| Tables.CodeEntry | MapGenerator.py:166-167 | a code line gives its first two fields as code and label iff it has at least two fields, else `IndexError` |
| Tables.CodeTable | MapGenerator.py:164-167 | the code table loads iff every line has two fields, else `IndexError`; its keys are the first fields; each maps to the raw second field of its last line |
| Tables.LabelEntry | MapGenerator.py:175 | a label line succeeds iff it has three fields and both numbers parse, the third with its last character dropped; in Python's evaluation order it raises `IndexError` with fewer than two fields, else `ValueError` on field 1, else `IndexError` with only two fields, else `ValueError` on field 2 without its last character |
| Tables.LabelTable | MapGenerator.py:172-175 | the label table loads iff every line succeeds; its keys are the first fields; each maps to the offset parsed from its last line; a failed table carries the exception (`IndexError` or `ValueError`) of the first failing line, every earlier line having succeeded |
| Tables.CodeLineRoundTrip | MapGenerator.py:165-167 | a written `code<TAB>label<LF>` line reads back as the code and the label with its terminator |
| Tables.LabelLineRoundTrip | MapGenerator.py:173-175 | a written `name<TAB>dx<TAB>dy<LF>` line reads back as the name and both parsed numbers; `[:-1]` removes exactly the terminator |
| Tables.CodeTableRoundTrip | MapGenerator.py:163-168 | a code table written as lines and read back loads, has exactly the written codes as keys, and maps each to its last label plus terminator |
| Tables.LabelTableRoundTrip | MapGenerator.py:171-176 | a label table written as `name<TAB>dx<TAB>dy<LF>` lines with parsable numbers loads, has exactly the written names as keys, and maps each name to the two numbers of its last line |
| Records.QuotientField | MapGenerator.py:181-186 | the quotient attribute is `'Q' + Q`: four characters starting with `Q`, `Qmax` exactly for the maximum category and `Qave` exactly for the average one |
| Records.Anomaly | MapGenerator.py:244 | `abs(1-Q)` is non-negative, zero iff `Q == 1`, and `Q` lies that far from 1 |
| Records.MakeRecord | MapGenerator.py:241 | a record is built iff the attribute record has `Location` and the quotient attribute; `Location` is looked up first, so its `KeyError` wins |
| Records.Zip | MapGenerator.py:239 | `zip` pairs entry `i` of each list, for as many entries as the shorter list has |
| Records.BuildRecords | MapGenerator.py:239-241 | zipping stops at the shorter list; record `i` comes from attribute record `i` and point `i`; the build fails iff some zipped record fails, with the error of the first one that fails |
| Records.LocationsPermute | MapGenerator.py:244 | two lists holding the same records in any order hold the same location names, each as often |
| Records.Insert | MapGenerator.py:244 | inserting a record adds exactly that record to the list's multiset |
| Records.InsertOrdered | MapGenerator.py:244 | inserting into a list ordered by decreasing key keeps it ordered |
| Records.InsertWithKey | MapGenerator.py:244 | the inserted record goes before the other records that have its key |
| Records.SortByAnomaly | MapGenerator.py:244 | the sorted list is a permutation of the input, ordered by non-increasing `abs(1-Q)`, and for every key the records carrying it keep their input order (stability) |
| Records.SortSorted | MapGenerator.py:244 | a list already in that order is returned unchanged |
| Records.SortIdempotent | MapGenerator.py:244 | sorting twice gives the same list as sorting once |
| Annotate.MarkerColour | MapGenerator.py:248-251 | the colour is red iff `Q > 1` and lime iff `Q <= 1`, so `Q == 1` is lime |
| Annotate.MarkerSize | MapGenerator.py:253 | the marker size is at least 5, exactly 5 iff `Q == 1`, and above 5 otherwise |
| Annotate.MarkerSizeMonotone | MapGenerator.py:253 | one marker is no larger than another iff its quotient lies no farther from 1 |
| Annotate.MarkerSizeDecodes | MapGenerator.py:253 | the distance from 1 is recovered from the size as `(size-5)/8` |
| Annotate.MarkFor | MapGenerator.py:247-290 | a mark exists iff the location has an offset, else `KeyError(location)`; both labels sit at point + offset and point back at the point; the value label has the arrow iff `dy > 0`, and the name label has it otherwise |
| Annotate.Plan | MapGenerator.py:247-290 | the drawing loop gives one mark per record in order iff every location has an offset; otherwise it reports the first location without one |
| Annotate.LegendMatchesMarkers | MapGenerator.py:96-98 | the legend entries "Quotient <= 1" (lime) and "Quotient > 1" (red) agree with the marker colour of every quotient |
| Figure.Title | MapGenerator.py:310 | the title exists iff the parameter's code key is in the code table, else `KeyError` on that key |
| Figure.TitleOfParameter | MapGenerator.py:310 | for a parameter `<aquifer>- <code>` whose label was read with a terminator, the title is `<Category> Quotient Values for <label> in the <aquifer> Aquifer.` |
| Figure.ImagePath | MapGenerator.py:325 | the image path starts with the project root and a separator and ends with a separator, the parameter and `.png` |
| Figure.ImagePathNamesParameter | MapGenerator.py:325 | the image file is named after the parameter: reading a parameter out of its path gives the parameter back |
| Figure.FileMarks | MapGenerator.py:237-290 | a file yields one mark per zipped record, and mark `i` is the mark of the `i`-th record in sorted order; a failing zip reports its own error; otherwise a failure is `KeyError` on the first location, in sorted order, that has no label offset |
| Figure.FileMarksOk | MapGenerator.py:237-290 | a file's marks exist iff every zipped record has its location and quotient attribute and every location has a label offset |
| Figure.BuiltMarksOk | MapGenerator.py:244-256 | once the records are built, the marks exist iff every record's location has a label offset, whatever the sort order |
| Figure.BuiltLocations | MapGenerator.py:239-241 | a successful build read both attributes of every zipped record and took each record's location from it |
| Figure.FileMarksNames | MapGenerator.py:237-290 | the name labels of a file's marks show the zipped records' locations, each as often as it occurs |
| Figure.FileMarksShrink | MapGenerator.py:244-253 | the marks come out with non-increasing marker size |
| Figure.FileMarksColours | MapGenerator.py:247-253 | each mark is red iff the quotient it labels exceeds 1 |
| Figure.RenderFile | MapGenerator.py:196-325 | a file renders iff its marks exist and its code key is in the code table; the figure carries the separator-free parameter, those marks, the title of that parameter, and the image path named after the parameter; a failure is the marks' error, or `KeyError` on the code key |
| Figure.RenderOne | MapGenerator.py:196-325 | the pass over one file, on what the shapefile reader returns for it (:234), renders iff its marks exist and its code key is in the code table, and carries its parameter, marks, title and image path; otherwise it fails with the marks' error or with `KeyError` on the code key |
| Outcomes.MapAll | MapGenerator.py:196-329 | a Python loop whose body may raise succeeds iff every step succeeds, giving the step results in order; otherwise it raises the first failing step's error, all earlier steps having succeeded |
| Figure.RenderAll | MapGenerator.py:196-329 | the run renders iff every file renders, giving one figure per file in order; otherwise it reports the error of the first file that raises |
| Outcomes.CompletedOfMapAll | MapGenerator.py:196-329 | the steps completed before the loop stops are all of them iff it succeeds; otherwise they are those before the step that raised, whose error ends the loop |
| Figure.SavedFigures | MapGenerator.py:321-325 | the figures saved when the loop over files stops are those of the files before the first one that raises, in order; they are all the figures iff the run renders, and otherwise the next file's error is the run's error |
| Figure.RenderAllImages | MapGenerator.py:325 | in a successful run, figure `i` is named after file `i`'s parameter |
| Figure.Run | MapGenerator.py:150-329 | a malformed code-table line ends the run with `IndexError`; a failing label table ends it with that table's error; with both tables loaded, the run succeeds iff every file renders under the project root two folders up, figure `i` is file `i`'s rendering and names its image after file `i`'s parameter, and a failed run carries the error of the first file that raises |
| Figure.ThreeLocationOrder | MapGenerator.py:244 | quotients 0.5, 1.0 and 2.0 at A, B and C are drawn in the order C, A, B |
| Figure.ThreeLocationMarkers | MapGenerator.py:248-253 | in that example C is red and A and B lime, with sizes 13, 9 and 5 |

## Left out

- Drawing: the helpers `drawRect`, `Basemap2.drawscale`, `drawLegend` (apart
  from its two dot entries) and `northArrow` (MapGenerator.py:39-145); the
  figure and map set-up with its fixed bounds (:198-210); the `map.plot`,
  `plt.annotate` and `plt.title` calls (:247-310); and the scale bar, legend
  and north arrow drawn on each map (:297-307). Only the data those calls receive
  is modelled: positions, colours, sizes, label texts and arrows. Font sizes,
  weights and alignments are not modelled.
- The scale bar's geodesic distance (`pyproj.Geod.inv`) and its mile
  conversions and rounding (MapGenerator.py:57-88). This is floating-point
  geodesy in a foreign library.
- The satellite-imagery request `arcgisimage` (MapGenerator.py:213), a network call.
- `readshapefile` (MapGenerator.py:228, 234), a foreign file reader. Its output
  is a parameter. The boundary outline it draws is not modelled.
- File and folder I/O: `open`/`close` of the two tables, `glob.glob`,
  `os.path.exists`/`os.makedirs` and `savefig` (MapGenerator.py:163-188,
  321-325). The table contents come in as split lines and the file list as a
  sequence. Each written image is modelled as its path string, and the images
  already written when a later file raises are the figures of `Figure.SavedFigures`.
- The choice of input folder per category (MapGenerator.py:181-188). It only
  feeds `glob`, which is a parameter here.
- `float(...)` text-to-number parsing (MapGenerator.py:175). It is a
  parameter `parse: string -> Option<real>`, where `None` stands for the
  `ValueError` it raises.
- `round(Q, 2)` and the `%d`/`%g` number formatting. The value label carries
  the quotient itself.
- Records.Anomaly: Python floats are modelled as exact `real`s, so rounding
  in `abs(1-Q)` and in the size `|1-Q|*8+5` is not modelled, and neither is NaN.
  So near-ties can sort differently from Python at MapGenerator.py:244: as
  doubles `abs(1-0.9)` and `abs(1-1.1)` differ, so Python always puts 1.1
  first, while as reals they tie and the model keeps their input order.
- Records.MakeRecord: the attribute values are typed: `Location` is text and
  quotients are numbers. A shapefile whose `Location` field holds a number
  (a later `KeyError` or type error in Python) is not modelled.
- The two other variants of the script (different folders, bounds and
  labelling) are not part of this model.
