/** The geometry half of a MIF record (io.cpp): the style keyword test, the
    coordinate reader, the LineString and Polygon readers, ReadSingleGeo
    and WriteElementGeo.  Streams are values (module Streams); the GEOS
    geometries the reader builds are values of Foreign.Geometry, and a null
    GeometryPtr is None. */
module IoGeo {
  import opened Wrappers
  import opened Utils
  import opened Foreign
  import opened Streams
  import IoAttr

  // ---------------------------------------------------------------------
  // Keywords

  /** IsStyleKeyWord (io.cpp:200-213): the (lower-cased) word begins with
      pen, brush, symbol, font or center; `compare(0, n, kw) == 0` holds
      exactly when the first n characters are kw. */
  predicate IsStyleKeyWord(lowerWord: string) {
    || IoAttr.StartsWith(lowerWord, "pen")
    || IoAttr.StartsWith(lowerWord, "brush")
    || IoAttr.StartsWith(lowerWord, "symbol")
    || IoAttr.StartsWith(lowerWord, "font")
    || IoAttr.StartsWith(lowerWord, "center")
  }

  /** The keywords ReadSingleGeo knows, lower-cased. */
  predicate IsGeoKeyword(w: string) {
    w in ["none", "point", "line", "pline", "region", "rect"]
  }

  /** A word that extends a style keyword is one too: "pen" and
      "pen(1,2,0)" are both skipped. */
  lemma StyleKeywordExtends(w: string, suffix: string)
    requires IsStyleKeyWord(w)
    ensures IsStyleKeyWord(w + suffix)
  {
    var x := w + suffix;
    assert x[..|w|] == w;
    if IoAttr.StartsWith(w, "pen") { assert x[..3] == w[..3]; }
    else if IoAttr.StartsWith(w, "brush") { assert x[..5] == w[..5]; }
    else if IoAttr.StartsWith(w, "symbol") { assert x[..6] == w[..6]; }
    else if IoAttr.StartsWith(w, "font") { assert x[..4] == w[..4]; }
    else { assert x[..6] == w[..6]; }
  }

  /** The five style keywords are style keywords; the empty word and cut
      keywords are not. */
  lemma StyleKeywordExamples()
    ensures IsStyleKeyWord("pen") && IsStyleKeyWord("brush") && IsStyleKeyWord("symbol")
    ensures IsStyleKeyWord("font") && IsStyleKeyWord("center")
    ensures !IsStyleKeyWord("") && !IsStyleKeyWord("pe") && !IsStyleKeyWord("fon")
  {
    IoAttr.DiffersAt("fon", "pen", 0);
  }

  /** No geometry keyword is a style keyword, so the order of the tests in
      ReadSingleGeo does not matter. */
  lemma GeoKeywordNotStyle(w: string)
    requires IsGeoKeyword(w)
    ensures !IsStyleKeyWord(w)
  {
    // "point" and "pline" part from "pen" at their second letter
    IoAttr.DiffersAt(w, "pen", if w[0] == 'p' then 1 else 0);
    IoAttr.DiffersAt(w, "brush", 0);
    IoAttr.DiffersAt(w, "symbol", 0);
    IoAttr.DiffersAt(w, "font", 0);
    IoAttr.DiffersAt(w, "center", 0);
  }

  // ---------------------------------------------------------------------
  // Coordinates (io.cpp:215-229)

  /** One turn of ReadCoordSeq's loop, `mif_ifs >> x >> y`: each variable
      keeps its previous value when there is nothing left to read. */
  function ReadPair(st: Stream, prev: Coord, env: Env): (r: (Coord, Stream))
    ensures r.1.Good() ==> st.Good() && |r.1.rest| < |st.rest|
    ensures st.fail ==> r == (prev, st.(fail := true))
  {
    var (x, s1) := ExtractDouble(st, prev.x, env);
    var (y, s2) := ExtractDouble(s1, prev.y, env);
    (Coord(x, y), s2)
  }

  /** The turns of ReadCoordSeq's loop still to come: n pairs appended to
      the coordinates set so far, `prev` holding the values of x and y. */
  function ReadPoints(st: Stream, n: nat, prev: Coord, acc: seq<Coord>, env: Env): (r: (seq<Coord>, Stream))
    ensures |r.0| == |acc| + n
    decreases n
  {
    if n == 0 then (acc, st)
    else
      var (c, st') := ReadPair(st, prev, env);
      ReadPoints(st', n - 1, c, acc + [c], env)
  }

  /** ReadCoordSeq: a negative count is replaced by the one `>>` extracts
      (which keeps the negative value when nothing is left to read); a
      count still negative gives nullptr, otherwise the coordinates are
      read, x and y starting at 0. */
  function CoordSeq(st: Stream, numPts: int, env: Env): (r: (Option<seq<Coord>>, Stream))
    ensures numPts >= 0 ==> r.0.Some? && |r.0.value| == numPts
    decreases if numPts < 0 then 1 else 0
  {
    if numPts < 0 then
      var (n, st1) := ExtractInt(st, numPts);
      if n < 0 then (None, st1) else CoordSeq(st1, n, env)
    else
      var (pts, st2) := ReadPoints(st, numPts, Coord(0.0, 0.0), [], env);
      (Some(pts), st2)
  }

  /** The count ReadCoordSeq works with: the one given, or, when that is
      negative, the one `>>` extracts. */
  function PointCount(st: Stream, numPts: int): (int, Stream) {
    if numPts < 0 then ExtractInt(st, numPts) else (numPts, st)
  }

  /** ReadCoordSeq gives nullptr exactly when its count is negative, and
      otherwise exactly that many coordinates. */
  lemma CoordSeqCount(st: Stream, numPts: int, env: Env)
    ensures var r := CoordSeq(st, numPts, env);
      && (r.0.None? <==> PointCount(st, numPts).0 < 0)
      && (r.0.Some? ==> |r.0.value| == PointCount(st, numPts).0)
  {
  }

  /** ReadCoordSeq: the count, then the coordinates. */
  method ReadCoordSeq(st: Stream, numPts: int, env: Env) returns (coords: Option<seq<Coord>>, st': Stream)
    ensures (coords, st') == CoordSeq(st, numPts, env)
  {
    var n := numPts;
    st' := st;
    if n < 0 {
      var count := ExtractInt(st, n);
      n, st' := count.0, count.1;
    }
    if n < 0 {
      return None, st';
    }
    var pts;
    pts, st' := FillCoords(st', n, env);
    coords := Some(pts);
  }

  /** The loop of ReadCoordSeq.  The CoordinateArraySequence of num_pts
      coordinates is filled by setAt in index order, so it is the sequence
      of the coordinates set so far, one longer after every turn. */
  method FillCoords(st: Stream, n: nat, env: Env) returns (pts: seq<Coord>, st': Stream)
    ensures (pts, st') == ReadPoints(st, n, Coord(0.0, 0.0), [], env)
  {
    ghost var whole := ReadPoints(st, n, Coord(0.0, 0.0), [], env);
    var prev := Coord(0.0, 0.0);
    pts := [];
    st' := st;
    var i := 0;
    while i < n
      invariant 0 <= i <= n && |pts| == i
      invariant ReadPoints(st', n - i, prev, pts, env) == whole
    {
      ReadPointsStep(st', n - i, prev, pts, env);
      var next := ReadPair(st', prev, env);
      prev, st' := next.0, next.1;
      pts := pts + [prev];
      i := i + 1;
    }
  }

  /** Helper: one turn of the coordinate loop. */
  lemma ReadPointsStep(st: Stream, n: nat, prev: Coord, acc: seq<Coord>, env: Env)
    requires n > 0
    ensures var (c, st') := ReadPair(st, prev, env);
      ReadPoints(st, n, prev, acc, env) == ReadPoints(st', n - 1, c, acc + [c], env)
  {
  }

  // ---------------------------------------------------------------------
  // LineStrings and Polygons (io.cpp:232-270)

  /** ReadLineString: nullptr when the coordinate reader gives nullptr or
      fewer than two coordinates, otherwise a LineString of exactly the
      coordinates read. */
  function LineStringOf(st: Stream, numPts: int, env: Env): (r: (Option<seq<Coord>>, Stream))
    ensures r.0.Some? ==> |r.0.value| >= 2
    ensures numPts >= 2 ==> r.0.Some? && |r.0.value| == numPts
    ensures 0 <= numPts < 2 ==> r.0.None?
  {
    var (c, st') := CoordSeq(st, numPts, env);
    if c.None? || |c.value| < 2 then (None, st') else (c, st')
  }

  method ReadLineString(st: Stream, numPts: int, env: Env) returns (line: Option<seq<Coord>>, st': Stream)
    ensures (line, st') == LineStringOf(st, numPts, env)
  {
    var coords;
    coords, st' := ReadCoordSeq(st, numPts, env);
    if coords == None {
      return None, st';
    }
    if |coords.value| < 2 {
      return None, st';
    }
    line := coords;
  }

  /** A closed ring: at least three coordinates, the last equal to the
      first. */
  predicate IsClosedRing(s: seq<Coord>) {
    |s| >= 3 && s[0] == s[|s| - 1]
  }

  /** The ring repair of ReadPolygon: the first coordinate appended when it
      differs from the last. */
  function CloseRing(c: seq<Coord>): (r: seq<Coord>)
    requires |c| >= 1
    ensures |r| == (if c[0] == c[|c| - 1] then |c| else |c| + 1)
    ensures r[0] == r[|r| - 1]
  {
    if c[0] != c[|c| - 1] then c + [c[0]] else c
  }

  /** Closing a ring keeps its coordinates in front. */
  lemma CloseRingKeeps(c: seq<Coord>)
    requires |c| >= 1
    ensures CloseRing(c)[..|c|] == c
  {
  }

  /** The shell ReadPolygon builds from at least three coordinates: the
      ring closed, then reversed when it is counter-clockwise. */
  function Shell(c: seq<Coord>, env: Env): (r: seq<Coord>)
    requires |c| >= 3
    ensures IsClosedRing(r)
  {
    var ring := CloseRing(c);
    ReverseKeepsRing(ring);
    if env.isCCW(ring) then Reverse(ring) else ring
  }

  /** ReadPolygon: nullptr when the coordinate reader gives nullptr or
      fewer than three coordinates; otherwise the shell, closed and
      oriented. */
  function PolygonOf(st: Stream, numPts: int, env: Env): (r: (Option<seq<Coord>>, Stream))
    ensures r.0.Some? ==> IsClosedRing(r.0.value)
  {
    var (c, st') := CoordSeq(st, numPts, env);
    if c.None? || |c.value| < 3 then (None, st') else (Some(Shell(c.value, env)), st')
  }

  /** Helper: reversing a closed ring gives a closed ring. */
  lemma ReverseKeepsRing(s: seq<Coord>)
    requires IsClosedRing(s)
    ensures IsClosedRing(Reverse(s))
  {
    ReverseAt(s);
  }

  /** What ReadPolygon keeps of the coordinates read: the shell exists
      exactly when at least three were read; it is those coordinates, in
      order or reversed, with the first repeated at the end when it was
      not there already. */
  lemma PolygonShell(st: Stream, numPts: int, env: Env)
    ensures var c := CoordSeq(st, numPts, env).0;
      var p := PolygonOf(st, numPts, env).0;
      && (p.Some? <==> c.Some? && |c.value| >= 3)
      && (p.Some? ==>
            var ring := if env.isCCW(CloseRing(c.value)) then Reverse(p.value) else p.value;
            && ring[..|c.value|] == c.value
            && |ring| == (if c.value[0] == c.value[|c.value| - 1] then |c.value| else |c.value| + 1))
  {
    var c := CoordSeq(st, numPts, env).0;
    if c.Some? && |c.value| >= 3 {
      CloseRingKeeps(c.value);
      ReverseReverse(CloseRing(c.value));
    }
  }

  method ReadPolygon(st: Stream, numPts: int, env: Env) returns (shell: Option<seq<Coord>>, st': Stream)
    ensures (shell, st') == PolygonOf(st, numPts, env)
  {
    var coords;
    coords, st' := ReadCoordSeq(st, numPts, env);
    if coords == None {
      return None, st';
    }
    var ring := coords.value;
    if |ring| < 3 {
      return None, st';
    }
    if ring[0] != ring[|ring| - 1] {
      ring := ring + [ring[0]];
    }
    if env.isCCW(ring) {
      ring := Reverse(ring);
    }
    shell := Some(ring);
  }

  // ---------------------------------------------------------------------
  // PLINE MULTIPLE and REGION loops (io.cpp:318-329, 339-349)

  /** Every part has at least two coordinates. */
  predicate AllLines(ls: seq<seq<Coord>>) {
    |ls| == 0 || (AllLines(ls[..|ls| - 1]) && |ls[|ls| - 1]| >= 2)
  }

  /** Every part is a closed ring. */
  predicate AllRings(ss: seq<seq<Coord>>) {
    |ss| == 0 || (AllRings(ss[..|ss| - 1]) && IsClosedRing(ss[|ss| - 1]))
  }

  /** Helper: a part with two or more coordinates extends AllLines. */
  lemma AllLinesSnoc(ls: seq<seq<Coord>>, l: seq<Coord>)
    requires AllLines(ls) && |l| >= 2
    ensures AllLines(ls + [l])
  {
    assert (ls + [l])[..|ls|] == ls;
  }

  /** Helper: a closed ring extends AllRings. */
  lemma AllRingsSnoc(ss: seq<seq<Coord>>, s: seq<Coord>)
    requires AllRings(ss) && IsClosedRing(s)
    ensures AllRings(ss + [s])
  {
    assert (ss + [s])[..|ss|] == ss;
  }

  /** The turns of the PLINE MULTIPLE loop still to come: k LineStrings,
      each with its count read from the stream, appended to those read so
      far; the first nullptr abandons the record. */
  function LineStringsOf(st: Stream, k: nat, acc: seq<seq<Coord>>, env: Env): (r: (Option<seq<seq<Coord>>>, Stream))
    ensures r.0.Some? ==> |r.0.value| == |acc| + k
    decreases k
  {
    if k == 0 then (Some(acc), st)
    else
      var (l, st') := LineStringOf(st, -1, env);
      if l.None? then (None, st')
      else LineStringsOf(st', k - 1, acc + [l.value], env)
  }

  /** The turns of the REGION loop still to come: k Polygons appended to
      those read so far; the first nullptr abandons the record. */
  function PolygonsOf(st: Stream, k: nat, acc: seq<seq<Coord>>, env: Env): (r: (Option<seq<seq<Coord>>>, Stream))
    ensures r.0.Some? ==> |r.0.value| == |acc| + k
    decreases k
  {
    if k == 0 then (Some(acc), st)
    else
      var (p, st') := PolygonOf(st, -1, env);
      if p.None? then (None, st')
      else PolygonsOf(st', k - 1, acc + [p.value], env)
  }

  /** The PLINE MULTIPLE loop: the vector of k slots is filled in index
      order, so it is the sequence of the LineStrings read so far. */
  method ReadLineStrings(st: Stream, k: nat, env: Env) returns (lines: Option<seq<seq<Coord>>>, st': Stream)
    ensures (lines, st') == LineStringsOf(st, k, [], env)
  {
    hide *;
    var acc: seq<seq<Coord>> := [];
    st' := st;
    var i := 0;
    ghost var whole := LineStringsOf(st', k - i, acc, env);
    while i < k
      invariant 0 <= i <= k && |acc| == i
      invariant LineStringsOf(st', k - i, acc, env) == whole
    {
      ghost var before := st';
      var l;
      l, st' := ReadLineString(st', -1, env);
      LineStringsStep(before, k - i, acc, env, l, st');
      if l == None {
        return None, st';
      }
      acc := acc + [l.value];
      i := i + 1;
    }
    LineStringsStep(st', 0, acc, env, None, st');
    lines := Some(acc);
  }

  /** The REGION loop, filled in index order like ReadLineStrings. */
  method ReadPolygons(st: Stream, k: nat, env: Env) returns (shells: Option<seq<seq<Coord>>>, st': Stream)
    ensures (shells, st') == PolygonsOf(st, k, [], env)
  {
    hide *;
    var acc: seq<seq<Coord>> := [];
    st' := st;
    var i := 0;
    ghost var whole := PolygonsOf(st', k - i, acc, env);
    while i < k
      invariant 0 <= i <= k && |acc| == i
      invariant PolygonsOf(st', k - i, acc, env) == whole
    {
      ghost var before := st';
      var p;
      p, st' := ReadPolygon(st', -1, env);
      PolygonsStep(before, k - i, acc, env, p, st');
      if p == None {
        return None, st';
      }
      acc := acc + [p.value];
      i := i + 1;
    }
    PolygonsStep(st', 0, acc, env, None, st');
    shells := Some(acc);
  }

  /** Helper: one turn of the loop of LineStringsOf. */
  lemma LineStringsStep(st: Stream, k: nat, acc: seq<seq<Coord>>, env: Env, x: Option<seq<Coord>>, st': Stream)
    requires k > 0 ==> (x, st') == LineStringOf(st, -1, env)
    ensures k == 0 ==> LineStringsOf(st, k, acc, env) == (Some(acc), st)
    ensures k > 0 &&  x.None? ==> LineStringsOf(st, k, acc, env) == (None, st')
    ensures k > 0 && x.Some? ==> LineStringsOf(st, k, acc, env) == LineStringsOf(st', k - 1, acc + [x.value], env)
  {
  }

  /** Helper: one turn of the loop of PolygonsOf. */
  lemma PolygonsStep(st: Stream, k: nat, acc: seq<seq<Coord>>, env: Env, x: Option<seq<Coord>>, st': Stream)
    requires k > 0 ==> (x, st') == PolygonOf(st, -1, env)
    ensures k == 0 ==> PolygonsOf(st, k, acc, env) == (Some(acc), st)
    ensures k > 0 &&  x.None? ==> PolygonsOf(st, k, acc, env) == (None, st')
    ensures k > 0 && x.Some? ==> PolygonsOf(st, k, acc, env) == PolygonsOf(st', k - 1, acc + [x.value], env)
  {
  }

  /** Every part the PLINE MULTIPLE loop adds has two or more coordinates. */
  lemma {:induction false} LineStringsParts(st: Stream, k: nat, acc: seq<seq<Coord>>, env: Env)
    requires AllLines(acc)
    ensures var r := LineStringsOf(st, k, acc, env).0; r.Some? ==> AllLines(r.value)
    decreases k
  {
    hide *;
    if k == 0 {
      LineStringsStep(st, k, acc, env, None, st);
    } else {
      var next := LineStringOf(st, -1, env);
      var x, st' := next.0, next.1;
      LineStringsStep(st, k, acc, env, x, st');
      if x.Some? {
        AllLinesSnoc(acc, x.value);
        LineStringsParts(st', k - 1, acc + [x.value], env);
      }
    }
  }

  /** Every part the REGION loop adds is a closed ring. */
  lemma {:induction false} PolygonsParts(st: Stream, k: nat, acc: seq<seq<Coord>>, env: Env)
    requires AllRings(acc)
    ensures var r := PolygonsOf(st, k, acc, env).0; r.Some? ==> AllRings(r.value)
    decreases k
  {
    hide *;
    if k == 0 {
      PolygonsStep(st, k, acc, env, None, st);
    } else {
      var next := PolygonOf(st, -1, env);
      var x, st' := next.0, next.1;
      PolygonsStep(st, k, acc, env, x, st');
      if x.Some? {
        AllRingsSnoc(acc, x.value);
        PolygonsParts(st', k - 1, acc + [x.value], env);
      }
    }
  }
}
