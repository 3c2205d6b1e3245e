/** The per-file location records: built by zipping the shapefile's attribute
    records with its points, then sorted by how far each quotient lies from 1,
    largest first, with ties kept in input order (Python's `sorted` with
    `reverse=True` is stable). Python floats are modelled as `real`.
 */
module Records {
  import opened Outcomes

  /** A shapefile point, in map-projection units. */
  datatype Point = Point(x: real, y: real)

  /** One attribute record of the shapefile: its `Location` attribute, when
      present, and its numeric attributes by name (`Qmax`, `Qave`, ...). */
  datatype ShapeInfo = ShapeInfo(location: Option<string>, numbers: map<string, real>)

  /** Which statistic the quotients come from. */
  datatype Category = Maximum | Average

  /** The category's name, as it appears in the title and output folder. */
  function CategoryName(c: Category): string {
    match c
    case Maximum => "Maximum"
    case Average => "Average"
  }

  /** The attribute holding the quotient: `'Q' + Q` with `Q` = `max` or `ave`. */
  function QuotientField(c: Category): (f: string)
    ensures |f| == 4 && f[0] == 'Q'
    ensures f == "Qmax" <==> c == Maximum
    ensures f == "Qave" <==> c == Average
  {
    match c
    case Maximum => "Qmax"
    case Average => "Qave"
  }

  /** One entry of `locationList`. */
  datatype Record = Record(location: string, at: Point, q: real)

  /** `abs(1 - q)`: how far a quotient lies from 1. */
  function Anomaly(q: real): (a: real)
    ensures a >= 0.0
    ensures a == 0.0 <==> q == 1.0
    ensures q == 1.0 + a || q == 1.0 - a
  {
    if 1.0 - q < 0.0 then q - 1.0 else 1.0 - q
  }

  /** The sort key of a record. */
  function Key(r: Record): real {
    Anomaly(r.q)
  }

  /** The dictionary literal of the loop body; `Location` is looked up before
      the quotient attribute, so a record missing both raises on `Location`. */
  function MakeRecord(info: ShapeInfo, p: Point, field: string): (r: Result<Record>)
    ensures r.Ok? <==> info.location.Some? && field in info.numbers
    ensures r.Ok? ==> r.value == Record(info.location.value, p, info.numbers[field])
    ensures info.location.None? ==> r == Err(KeyError("Location"))
    ensures info.location.Some? && field !in info.numbers ==> r == Err(KeyError(field))
  {
    if info.location.None? then Err(KeyError("Location"))
    else if field !in info.numbers then Err(KeyError(field))
    else Ok(Record(info.location.value, p, info.numbers[field]))
  }

  function Min(a: int, b: int): int {
    if a <= b then a else b
  }

  /** The loop over `zip(map.Param_info, map.Param)`: one record per pair,
      stopping at the shorter sequence; the first failing lookup raises. */
  function BuildRecords(infos: seq<ShapeInfo>, points: seq<Point>, field: string): (r: Result<seq<Record>>)
    ensures r.Ok? <==> forall i :: 0 <= i < Min(|infos|, |points|) ==> MakeRecord(infos[i], points[i], field).Ok?
    ensures r.Ok? ==> |r.value| == Min(|infos|, |points|)
    ensures r.Ok? ==> forall i :: 0 <= i < |r.value| ==> MakeRecord(infos[i], points[i], field) == Ok(r.value[i])
    ensures r.Err? ==>
              exists i :: 0 <= i < Min(|infos|, |points|) && MakeRecord(infos[i], points[i], field) == Err(r.error) &&
                          forall j :: 0 <= j < i ==> MakeRecord(infos[j], points[j], field).Ok?
  {
    var pairs := Zip(infos, points);
    MapAll(pairs, (pair: (ShapeInfo, Point)) => MakeRecord(pair.0, pair.1, field))
  }

  /** Python's `zip`: pairs up the two lists, stopping at the shorter one. */
  function Zip<A, B>(xs: seq<A>, ys: seq<B>): (pairs: seq<(A, B)>)
    ensures |pairs| == Min(|xs|, |ys|)
    ensures forall i :: 0 <= i < |pairs| ==> pairs[i] == (xs[i], ys[i])
    decreases |xs|
  {
    if |xs| == 0 || |ys| == 0 then []
    else [(xs[0], ys[0])] + Zip(xs[1..], ys[1..])
  }

  /** The location names of a list of records, in order. */
  function Locations(s: seq<Record>): seq<string> {
    if |s| == 0 then [] else [s[0].location] + Locations(s[1..])
  }

  /** Entry `i` of the locations is the location of record `i`. */
  lemma {:induction false} LocationsAt(s: seq<Record>)
    ensures |Locations(s)| == |s|
    ensures forall i :: 0 <= i < |s| ==> Locations(s)[i] == s[i].location
  {
    if |s| > 0 {
      LocationsAt(s[1..]);
    }
  }

  /** Two lists holding the same records, in any order, hold the same
      location names as often. */
  lemma {:induction false} LocationsPermute(s: seq<Record>, t: seq<Record>)
    requires multiset(s) == multiset(t)
    ensures multiset(Locations(s)) == multiset(Locations(t))
    decreases |s|
  {
    if |s| == 0 {
      assert |t| == |multiset(t)| == 0;
    } else {
      var a := s[0];
      assert a in multiset(t);
      var k :| 0 <= k < |t| && t[k] == a;
      var rest := t[..k] + t[k + 1..];
      assert multiset(s[1..]) == multiset(rest) by {
        assert s == [a] + s[1..];
        RemoveFirst(a, s[1..], s);
        RemoveAt(t, k);
      }
      LocationsPermute(s[1..], rest);
      assert multiset(Locations(s)) == multiset{a.location} + multiset(Locations(s[1..])) by {
        assert s == [a] + s[1..];
        LocationsAppend([a], s[1..]);
      }
      LocationsAround(t, k);
    }
  }

  /** Taking one record out of a list takes its location out of the list's locations. */
  lemma LocationsAround(t: seq<Record>, k: nat)
    requires k < |t|
    ensures multiset(Locations(t)) == multiset{t[k].location} + multiset(Locations(t[..k] + t[k + 1..]))
  {
    var a, front, back := t[k], t[..k], t[k + 1..];
    assert multiset(Locations(t)) == multiset(Locations(front)) + multiset(Locations([a] + back)) by {
      assert t[k..] == [a] + back;
      assert t == front + t[k..];
      LocationsAppend(front, t[k..]);
    }
    assert multiset(Locations([a] + back)) == multiset{a.location} + multiset(Locations(back)) by {
      LocationsAppend([a], back);
    }
    assert multiset(Locations(front + back)) == multiset(Locations(front)) + multiset(Locations(back)) by {
      LocationsAppend(front, back);
    }
  }

  /** The locations of a concatenation are the concatenated locations. */
  lemma {:induction false} LocationsAppend(x: seq<Record>, y: seq<Record>)
    ensures Locations(x + y) == Locations(x) + Locations(y)
  {
    if |x| > 0 {
      assert (x + y)[1..] == x[1..] + y;
      LocationsAppend(x[1..], y);
    } else {
      assert x + y == y;
    }
  }

  /** Removing the element at `k` removes one copy of it from the multiset. */
  lemma RemoveAt(t: seq<Record>, k: nat)
    requires k < |t|
    ensures multiset(t[..k] + t[k + 1..]) == multiset(t) - multiset{t[k]}
  {
    assert t == t[..k] + [t[k]] + t[k + 1..];
  }

  /** Dropping the head removes one copy of it from the multiset. */
  lemma RemoveFirst(a: Record, rest: seq<Record>, s: seq<Record>)
    requires s == [a] + rest
    ensures multiset(rest) == multiset(s) - multiset{a}
  {
    assert multiset(s) == multiset{a} + multiset(rest);
  }

  /** Largest key first. */
  ghost predicate NonIncreasing(s: seq<Record>) {
    forall i, j :: 0 <= i < j < |s| ==> Key(s[j]) <= Key(s[i])
  }

  /** The records whose key is `k`, in the order they appear in `s`. */
  function WithKey(s: seq<Record>, k: real): seq<Record> {
    if |s| == 0 then []
    else (if Key(s[0]) == k then [s[0]] else []) + WithKey(s[1..], k)
  }

  /** Place `x` after every record with a larger key and before the rest. */
  function Insert(x: Record, s: seq<Record>): (r: seq<Record>)
    ensures multiset(r) == multiset(s) + multiset{x}
    ensures |r| == |s| + 1
  {
    if |s| == 0 || Key(s[0]) <= Key(x) then [x] + s
    else
      assert s == [s[0]] + s[1..];
      [s[0]] + Insert(x, s[1..])
  }

  /** Inserting into an ordered list keeps it ordered. */
  lemma {:induction false} InsertOrdered(x: Record, s: seq<Record>)
    requires NonIncreasing(s)
    ensures NonIncreasing(Insert(x, s))
    decreases |s|
  {
    if |s| > 0 && Key(x) < Key(s[0]) {
      var tail := Insert(x, s[1..]);
      InsertOrdered(x, s[1..]);
      forall i | 0 <= i < |tail|
        ensures Key(tail[i]) <= Key(s[0])
      {
        InsertMember(x, s[1..], i);
        if tail[i] != x {
          var j :| 0 <= j < |s| - 1 && s[1..][j] == tail[i];
          assert s[j + 1] == tail[i];
        }
      }
      assert Insert(x, s) == [s[0]] + tail;
    }
  }

  /** Every entry after an insertion is the inserted record or an old one. */
  lemma InsertMember(x: Record, s: seq<Record>, i: int)
    requires 0 <= i < |Insert(x, s)|
    ensures Insert(x, s)[i] == x || exists j :: 0 <= j < |s| && s[j] == Insert(x, s)[i]
  {
    var r := Insert(x, s);
    assert r[i] in multiset(r);
    assert r[i] in multiset(s) || r[i] == x;
  }

  /** Inserting `x` adds it in front of the records that share its key. */
  lemma {:induction false} InsertWithKey(x: Record, s: seq<Record>, k: real)
    ensures WithKey(Insert(x, s), k) == (if Key(x) == k then [x] else []) + WithKey(s, k)
    decreases |s|
  {
    var r := Insert(x, s);
    var own := if Key(x) == k then [x] else [];
    if |s| == 0 || Key(s[0]) <= Key(x) {
      assert r == [x] + s;
      assert r[1..] == s;
    } else {
      var head := if Key(s[0]) == k then [s[0]] else [];
      var tail := Insert(x, s[1..]);
      assert WithKey(r, k) == head + WithKey(tail, k) by {
        assert r == [s[0]] + tail;
        assert r[1..] == tail;
      }
      assert WithKey(tail, k) == own + WithKey(s[1..], k) by {
        InsertWithKey(x, s[1..], k);
      }
      assert WithKey(s, k) == head + WithKey(s[1..], k);
      assert head == [] || own == [];
    }
  }

  /** `sorted(locationList, key=lambda i: abs(1-i['Q']), reverse=True)`,
      as an insertion sort: a permutation, largest key first, and for every
      key the records carrying it keep their input order. */
  function SortByAnomaly(s: seq<Record>): (r: seq<Record>)
    ensures multiset(r) == multiset(s)
    ensures |r| == |s|
    ensures NonIncreasing(r)
    ensures forall k :: WithKey(r, k) == WithKey(s, k)
    decreases |s|
  {
    if |s| == 0 then []
    else
      var rest := SortByAnomaly(s[1..]);
      assert s == [s[0]] + s[1..];
      InsertOrdered(s[0], rest);
      forall k
        ensures WithKey(Insert(s[0], rest), k) == WithKey(s, k)
      {
        InsertWithKey(s[0], rest, k);
      }
      Insert(s[0], rest)
  }

  /** A list already in order is left unchanged by the sort. */
  lemma {:induction false} SortSorted(s: seq<Record>)
    requires NonIncreasing(s)
    ensures SortByAnomaly(s) == s
    decreases |s|
  {
    if |s| > 0 {
      assert NonIncreasing(s[1..]);
      SortSorted(s[1..]);
      assert s == [s[0]] + s[1..];
    }
  }

  /** Sorting twice is sorting once. */
  lemma SortIdempotent(s: seq<Record>)
    ensures SortByAnomaly(SortByAnomaly(s)) == SortByAnomaly(s)
  {
    SortSorted(SortByAnomaly(s));
  }
}
