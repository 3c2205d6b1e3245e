/** Python string semantics the script relies on: `str.find`, slicing with
    negative and out-of-range bounds, `str.split` on one character, and the
    script's own `find_last`.
 */
module PyStr {

  /** `t` occurs in `s` starting at index `i`. */
  predicate OccursAt(s: string, t: string, i: int) {
    0 <= i && i + |t| <= |s| && s[i..i + |t|] == t
  }

  /** The index `str.find` starts searching from: a negative start counts from
      the end and is clamped at 0; a start past the end is kept, so nothing is found. */
  function FindStart(start: int, n: nat): (r: nat)
    ensures 0 <= start ==> r == start
    ensures start < 0 <= start + n ==> r == start + n
    ensures start + n < 0 ==> r == 0
  {
    if start >= 0 then start
    else if start + n >= 0 then start + n
    else 0
  }

  /** The least occurrence of `t` in `s` at index `i` or later, or -1. */
  function FindFrom(s: string, t: string, i: nat): (r: int)
    ensures r == -1 <==> forall j :: i <= j ==> !OccursAt(s, t, j)
    ensures r != -1 ==> i <= r && OccursAt(s, t, r)
    ensures forall j :: i <= j < r ==> !OccursAt(s, t, j)
    decreases |s| + 1 - i
  {
    if i + |t| > |s| then -1
    else if s[i..i + |t|] == t then assert OccursAt(s, t, i); i
    else FindFrom(s, t, i + 1)
  }

  /** Python's `s.find(t, start)`. */
  function Find(s: string, t: string, start: int): (r: int)
    ensures r == -1 <==> forall j :: FindStart(start, |s|) <= j ==> !OccursAt(s, t, j)
    ensures r != -1 ==> FindStart(start, |s|) <= r && OccursAt(s, t, r)
    ensures forall j :: FindStart(start, |s|) <= j < r ==> !OccursAt(s, t, j)
  {
    FindFrom(s, t, FindStart(start, |s|))
  }

  /** Reference definition of the last occurrence: scan downwards from `i`. */
  function LastIndexFrom(s: string, t: string, i: int): (r: int)
    ensures r == -1 <==> forall j :: j <= i ==> !OccursAt(s, t, j)
    ensures r != -1 ==> r <= i && OccursAt(s, t, r)
    ensures forall j :: r < j <= i ==> !OccursAt(s, t, j)
    decreases i + 1
  {
    if i < 0 then -1
    else if OccursAt(s, t, i) then i
    else LastIndexFrom(s, t, i - 1)
  }

  /** The greatest index at which `t` occurs in `s`, or -1 when it does not occur. */
  function LastIndex(s: string, t: string): (r: int)
    ensures r == -1 <==> forall j :: !OccursAt(s, t, j)
    ensures r != -1 ==> OccursAt(s, t, r)
    ensures forall j :: r < j ==> !OccursAt(s, t, j)
  {
    LastIndexFrom(s, t, |s| - |t|)
  }

  /** The script's `find_last`: call `find` from just past the previous hit
      until it reports -1, and return the last hit. */
  method FindLast(s: string, t: string) returns (lastPos: int)
    ensures lastPos == -1 <==> forall j :: !OccursAt(s, t, j)
    ensures lastPos != -1 ==> OccursAt(s, t, lastPos)
    ensures forall j :: lastPos < j ==> !OccursAt(s, t, j)
    ensures lastPos == LastIndex(s, t)
  {
    lastPos := -1;
    while true
      invariant -1 <= lastPos <= |s|
      invariant lastPos != -1 ==> OccursAt(s, t, lastPos)
      decreases |s| - lastPos
    {
      var pos := Find(s, t, lastPos + 1);
      if pos == -1 {
        return;
      }
      lastPos := pos;
    }
  }

  /** A Python slice bound: negative counts from the end, then clamp to [0, n]. */
  function SliceIndex(i: int, n: nat): (r: nat)
    ensures r <= n
    ensures 0 <= i <= n ==> r == i
    ensures n < i ==> r == n
    ensures i < 0 <= i + n ==> r == i + n
    ensures i + n < 0 ==> r == 0
  {
    if i < 0 then (if i + n < 0 then 0 else i + n)
    else if i > n then n
    else i
  }

  /** Python's `s[lo:hi]`; an omitted lower bound is 0 and an omitted upper bound is `len(s)`. */
  function Slice(s: string, lo: int, hi: int): (r: string)
    ensures |r| == if SliceIndex(lo, |s|) <= SliceIndex(hi, |s|)
                   then SliceIndex(hi, |s|) - SliceIndex(lo, |s|) else 0
    ensures forall k :: 0 <= k < |r| ==> r[k] == s[SliceIndex(lo, |s|) + k]
  {
    var a := SliceIndex(lo, |s|);
    var b := SliceIndex(hi, |s|);
    if a <= b then s[a..b] else []
  }

  /** Bounds already inside the string slice as they read. */
  lemma SliceInRange(s: string, lo: int, hi: int)
    requires 0 <= lo <= hi <= |s|
    ensures Slice(s, lo, hi) == s[lo..hi]
  {
  }

  /** A negative bound that stays inside the string names the same position
      as its non-negative counterpart `len(s) + i`. */
  lemma SliceFromEnd(s: string, lo: int, hi: int)
    requires 0 <= |s| + lo && lo < 0 && 0 <= |s| + hi && hi < 0
    ensures Slice(s, lo, hi) == Slice(s, |s| + lo, |s| + hi)
  {
  }

  /** `s[:-1]`: everything but the last character; the empty string stays empty. */
  function DropLast(s: string): (r: string)
    ensures |s| > 0 ==> s == r + [s[|s| - 1]]
    ensures |s| == 0 ==> r == []
  {
    Slice(s, 0, -1)
  }

  /** `sep.join(parts)` for a one-character separator. */
  function Join(parts: seq<string>, sep: char): string
    decreases |parts|
  {
    if |parts| == 0 then []
    else if |parts| == 1 then parts[0]
    else parts[0] + [sep] + Join(parts[1..], sep)
  }

  /** Python's `s.split(sep)` for a one-character separator: cut at every occurrence. */
  function Split(s: string, sep: char): (r: seq<string>)
    ensures |r| >= 1
    ensures forall i :: 0 <= i < |r| ==> sep !in r[i]
    ensures Join(r, sep) == s
    decreases |s|
  {
    var i := Find(s, [sep], 0);
    if i == -1 then
      NoOccurrenceNotIn(s, sep, 0);
      [s]
    else
      assert forall j :: 0 <= j ==> !OccursAt(s[..i], [sep], j) by {
        forall j | 0 <= j < i
          ensures !OccursAt(s[..i], [sep], j)
        {
          assert !OccursAt(s, [sep], j);
          assert s[..i][j..j + 1] == s[j..j + 1];
        }
      }
      NoOccurrenceNotIn(s[..i], sep, 0);
      assert s[i..i + 1] == [sep];
      assert s == s[..i] + [sep] + s[i + 1..];
      [s[..i]] + Split(s[i + 1..], sep)
  }

  /** A one-character needle occurs exactly where that character stands. */
  lemma OccursAtChar(s: string, c: char)
    ensures forall j :: OccursAt(s, [c], j) <==> 0 <= j < |s| && s[j] == c
  {
    forall j | 0 <= j < |s|
      ensures OccursAt(s, [c], j) <==> s[j] == c
    {
      assert s[j..j + 1] == [s[j]];
    }
  }

  /** A one-character needle that occurs nowhere from `k` on is absent from `s[k..]`. */
  lemma NoOccurrenceNotIn(s: string, c: char, k: nat)
    requires k <= |s|
    requires forall j :: k <= j ==> !OccursAt(s, [c], j)
    ensures c !in s[k..]
  {
    forall j | k <= j < |s|
      ensures s[j] != c
    {
      assert !OccursAt(s, [c], j);
      assert s[j..j + 1] == [s[j]];
    }
  }

  /** Joining one more part appends a separator and that part. */
  lemma {:induction false} JoinSnoc(parts: seq<string>, sep: char, last: string)
    requires |parts| >= 1
    ensures Join(parts + [last], sep) == Join(parts, sep) + [sep] + last
    decreases |parts|
  {
    if |parts| == 1 {
      assert parts + [last] == [parts[0], last];
      assert [parts[0], last][1..] == [last];
    } else {
      assert (parts + [last])[1..] == parts[1..] + [last];
      JoinSnoc(parts[1..], sep, last);
    }
  }

  /** A character absent from `s` occurs nowhere in it. */
  lemma AbsentNowhere(s: string, c: char)
    requires c !in s
    ensures forall j :: !OccursAt(s, [c], j)
  {
    forall j | 0 <= j < |s|
      ensures !OccursAt(s, [c], j)
    {
      assert s[j..j + 1] == [s[j]];
    }
  }

  /** The first separator of `p + [c] + rest` is the one after `p` when `p` has none. */
  lemma FirstSeparator(p: string, c: char, rest: string)
    requires c !in p
    ensures Find(p + [c] + rest, [c], 0) == |p|
  {
    var s := p + [c] + rest;
    assert s[|p|..|p| + 1] == [c];
    assert OccursAt(s, [c], |p|);
    forall j | 0 <= j < |p|
      ensures !OccursAt(s, [c], j)
    {
      assert s[j..j + 1] == [p[j]];
    }
  }

  /** Joining two parts puts one separator between them. */
  lemma JoinTwo(a: string, b: string, sep: char)
    ensures Join([a, b], sep) == a + [sep] + b
  {
    assert [a, b][1..] == [b];
  }

  /** Joining three parts puts one separator between each neighbouring pair. */
  lemma JoinThree(a: string, b: string, c: string, sep: char)
    ensures Join([a, b, c], sep) == a + [sep] + b + [sep] + c
  {
    assert [a, b, c][1..] == [b, c];
    JoinTwo(b, c, sep);
  }

  /** Splitting a join of separator-free parts gives the parts back. */
  lemma {:induction false} SplitJoin(parts: seq<string>, sep: char)
    requires |parts| >= 1
    requires forall i :: 0 <= i < |parts| ==> sep !in parts[i]
    ensures Split(Join(parts, sep), sep) == parts
    decreases |parts|
  {
    var s := Join(parts, sep);
    if |parts| == 1 {
      AbsentNowhere(s, sep);
    } else {
      var p, tail := parts[0], Join(parts[1..], sep);
      assert s == p + [sep] + tail;
      FirstSeparator(p, sep, tail);
      assert s[..|p|] == p;
      assert s[|p| + 1..] == tail;
      SplitJoin(parts[1..], sep);
      assert parts == [p] + parts[1..];
    }
  }
}
