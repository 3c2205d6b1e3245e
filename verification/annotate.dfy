/** What the drawing loop hands to the plotting library for each sorted
    record: a marker whose colour and size encode the quotient, and two text
    labels (location name and quotient value) placed at the location's offset,
    exactly one of which carries an arrow back to the point.
 */
module Annotate {
  import opened Outcomes
  import opened Records
  import opened Tables

  /** The two marker colours: matplotlib's `'r'` and `'lime'`. */
  datatype Colour = Red | Lime

  /** Red exactly when the quotient exceeds 1; a quotient of exactly 1 is lime. */
  function MarkerColour(q: real): (c: Colour)
    ensures c == Red <==> q > 1.0
    ensures c == Lime <==> q <= 1.0
  {
    if q > 1.0 then Red else Lime
  }

  /** `abs(1 - Q) * 8 + 5`. */
  function MarkerSize(q: real): (size: real)
    ensures size >= 5.0
    ensures size == 5.0 <==> q == 1.0
    ensures q != 1.0 ==> size > 5.0
  {
    Anomaly(q) * 8.0 + 5.0
  }

  /** The size grows with the distance of the quotient from 1. */
  lemma MarkerSizeMonotone(q1: real, q2: real)
    ensures Anomaly(q1) <= Anomaly(q2) <==> MarkerSize(q1) <= MarkerSize(q2)
  {
  }

  /** The size determines the distance from 1: marker size is a faithful encoding. */
  lemma MarkerSizeDecodes(q: real)
    ensures Anomaly(q) == (MarkerSize(q) - 5.0) / 8.0
  {
  }

  /** The text of a label: the location's name, or its quotient (printed
      rounded to two places, which is not modelled). */
  datatype Text = LocationText(name: string) | QuotientText(q: real)

  /** One `plt.annotate` call: text placed at `at`, pointing back at `anchor`,
      with an arrow between them or not. */
  datatype Annotation = Annotation(text: Text, anchor: Point, at: Point, arrow: bool)

  /** Everything drawn for one record. */
  datatype Mark = Mark(at: Point, colour: Colour, size: real, name: Annotation, value: Annotation)

  /** The labels of a location sit at its point moved by its offset. When the
      offset points up (`dy > 0`) only the value label has an arrow; otherwise
      only the name label has one. A location with no offset raises `KeyError`. */
  function MarkFor(rec: Record, offsets: map<string, Offset>): (r: Result<Mark>)
    ensures r.Ok? <==> rec.location in offsets
    ensures r.Err? ==> r.error == KeyError(rec.location)
    ensures r.Ok? ==> r.value.at == rec.at && r.value.colour == MarkerColour(rec.q) && r.value.size == MarkerSize(rec.q)
    ensures r.Ok? ==> r.value.name.text == LocationText(rec.location) && r.value.value.text == QuotientText(rec.q)
    ensures r.Ok? ==> r.value.name.anchor == rec.at && r.value.value.anchor == rec.at
    ensures r.Ok? ==>
              var o := offsets[rec.location];
              r.value.name.at == r.value.value.at == Point(rec.at.x + o.dx, rec.at.y + o.dy)
    ensures r.Ok? ==> (r.value.value.arrow <==> offsets[rec.location].dy > 0.0)
    ensures r.Ok? ==> r.value.name.arrow != r.value.value.arrow
  {
    if rec.location !in offsets then Err(KeyError(rec.location))
    else
      var o := offsets[rec.location];
      var textAt := Point(rec.at.x + o.dx, rec.at.y + o.dy);
      var above := o.dy > 0.0;
      Ok(Mark(rec.at, MarkerColour(rec.q), MarkerSize(rec.q),
              Annotation(LocationText(rec.location), rec.at, textAt, !above),
              Annotation(QuotientText(rec.q), rec.at, textAt, above)))
  }

  /** `e` is the `KeyError` raised for the first record whose location has no offset. */
  predicate FirstMissing(records: seq<Record>, offsets: map<string, Offset>, e: Error) {
    exists i :: 0 <= i < |records| && records[i].location !in offsets &&
                e == KeyError(records[i].location) &&
                forall j :: 0 <= j < i ==> records[j].location in offsets
  }

  /** The drawing loop over the sorted records: one mark per record, in order;
      the first record whose location has no offset raises `KeyError`. */
  function Plan(records: seq<Record>, offsets: map<string, Offset>): (r: Result<seq<Mark>>)
    ensures r.Ok? <==> forall i :: 0 <= i < |records| ==> records[i].location in offsets
    ensures r.Ok? ==> |r.value| == |records|
    ensures r.Ok? ==> forall i :: 0 <= i < |records| ==> MarkFor(records[i], offsets) == Ok(r.value[i])
    ensures r.Err? ==> FirstMissing(records, offsets, r.error)
  {
    MapAll(records, rec => MarkFor(rec, offsets))
  }

  /** The location names shown by the name labels of some marks, in order. */
  function LabelNames(marks: seq<Mark>): (r: seq<string>)
    ensures |r| == |marks|
    ensures forall i :: 0 <= i < |marks| && marks[i].name.text.LocationText? ==> r[i] == marks[i].name.text.name
  {
    if |marks| == 0 then []
    else
      var text := marks[0].name.text;
      [if text.LocationText? then text.name else ""] + LabelNames(marks[1..])
  }

  /** The legend's two dot entries: label text and dot colour. */
  const LegendDots: seq<(string, Colour)> := [("Quotient <= 1", Lime), ("Quotient > 1", Red)]

  /** The legend describes the markers truthfully: a quotient's marker colour
      is the colour of the legend entry whose text its value satisfies. */
  lemma LegendMatchesMarkers(q: real)
    ensures q <= 1.0 ==> MarkerColour(q) == LegendDots[0].1
    ensures q > 1.0 ==> MarkerColour(q) == LegendDots[1].1
  {
  }
}
