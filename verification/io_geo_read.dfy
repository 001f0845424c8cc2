/** ReadSingleGeo (io.cpp:279-375): the loop that reads MIF lines until one
    starts a geometry record, skipping blank lines and style lines, and the
    record readers for NONE, POINT, LINE, PLINE (single, with a count, and
    MULTIPLE), REGION and RECT.  The GeometryPtr passed by reference is
    `res`; what the function leaves in it is the `geo` of a GeoRead. */
module IoGeoRead {
  import opened Wrappers
  import opened Utils
  import opened Foreign
  import opened Streams
  import opened IoGeo

  /** What ReadSingleGeo hands back: its result, the geometry `res` holds
      afterwards, and the stream. */
  datatype GeoRead = GeoRead(status: Status, geo: Option<Geometry>, st: Stream)

  /** The what() of the std::length_error the std::vector constructor
      throws when asked for a negative, so huge, number of slots. */
  const VectorTooLong: string := "cannot create std::vector larger than max_size()"

  /** utils::to_double: strtod of the C string. */
  function ToDouble(s: string, env: Env): real {
    env.strtod(CStr(s))
  }

  /** The geometries the reader builds: LineStrings of two or more
      coordinates, closed rings, MultiPolygons of two or more parts, and no
      type the reader does not know. */
  predicate WellFormed(g: Option<Geometry>) {
    match g
    case None => true
    case Some(Point(_)) => true
    case Some(LineString(pts)) => |pts| >= 2
    case Some(Polygon(shell)) => IsClosedRing(shell)
    case Some(MultiLineString(ls)) => AllLines(ls)
    case Some(MultiPolygon(ss)) => |ss| >= 2 && AllRings(ss)
    case Some(Other(_)) => false
  }

  /** What a finished ReadSingleGeo promises about its result: 0 with a
      well-formed geometry; -1 with `res` untouched or set to null; 1 (end
      of file, the stream no longer good) or the length_error with `res`
      untouched. */
  predicate Settled(r: GeoRead, res: Option<Geometry>) {
    match r.status
    case Returned(code) =>
      && (code == 0 || code == -1 || code == 1)
      && (code == 0 ==> WellFormed(r.geo))
      && (code == -1 ==> r.geo == res || r.geo == None)
      && (code == 1 ==> r.geo == res && !r.st.Good())
    case Raised(what) => what == VectorTooLong && r.geo == res
  }

  // ---------------------------------------------------------------------
  // The records

  /** NONE: a null geometry, whatever follows the keyword. */
  function NoneRecord(st: Stream): (r: GeoRead)
    ensures r.status == Success && r.geo == None
  {
    GeoRead(Success, None, st)
  }

  /** POINT x y: exactly three items, the numbers read by to_double. */
  function PointRecord(items: seq<string>, st: Stream, res: Option<Geometry>, env: Env): (r: GeoRead)
    ensures r.status == Success <==> |items| == 3
    ensures r.status != Success ==> r.status == Failure && r.geo == res
    ensures r.status == Success ==> r.geo.Some? && r.geo.value.Point?
  {
    if |items| != 3 then GeoRead(Failure, res, st)
    else GeoRead(Success, Some(Point(Coord(ToDouble(items[1], env), ToDouble(items[2], env)))), st)
  }

  /** LINE x1 y1 x2 y2: exactly five items, a LineString of two
      coordinates. */
  function LineRecord(items: seq<string>, st: Stream, res: Option<Geometry>, env: Env): (r: GeoRead)
    ensures r.status == Success <==> |items| == 5
    ensures r.status != Success ==> r.status == Failure && r.geo == res
    ensures r.status == Success ==> r.geo.Some? && r.geo.value.LineString? && |r.geo.value.pts| == 2
  {
    if |items| != 5 then GeoRead(Failure, res, st)
    else
      var a := Coord(ToDouble(items[1], env), ToDouble(items[2], env));
      var b := Coord(ToDouble(items[3], env), ToDouble(items[4], env));
      GeoRead(Success, Some(LineString([a, b])), st)
  }

  /** The result of `res = ReadLineString(...)` or `res = ReadPolygon(...)`:
      the result is assigned either way, and the record fails when it is
      null. */
  function Assigned(x: Option<seq<Coord>>, st: Stream, polygon: bool): (r: GeoRead)
    ensures r.status == Success <==> x.Some?
    ensures r.status != Success ==> r.status == Failure && r.geo == None
  {
    if x.None? then GeoRead(Failure, None, st)
    else if polygon then GeoRead(Success, Some(Polygon(x.value)), st)
    else GeoRead(Success, Some(LineString(x.value)), st)
  }

  /** PLINE: one item reads a LineString whose count is on the stream; two
      items take the count from the second (to_int, narrowed to int); three
      items (PLINE MULTIPLE n) read n LineStrings into a MultiLineString,
      a negative n making the vector constructor throw; any other number
      of items fails. */
  function PlineRecord(items: seq<string>, st: Stream, res: Option<Geometry>, env: Env): (r: GeoRead)
    requires |items| >= 1
  {
    if |items| == 1 || |items| == 2 then
      var n := if |items| == 1 then -1 else Atoi(items[1]);
      var (l, st') := LineStringOf(st, n, env);
      Assigned(l, st', false)
    else if |items| == 3 then
      var n := Atoi(items[2]);
      if n < 0 then GeoRead(Raised(VectorTooLong), res, st)
      else
        var (ls, st') := LineStringsOf(st, n, [], env);
        if ls.None? then GeoRead(Failure, res, st')
        else GeoRead(Success, Some(MultiLineString(ls.value)), st')
    else GeoRead(Failure, res, st)
  }

  /** REGION n: exactly two items; n == 1 reads one Polygon, n > 1 reads n
      Polygons into a MultiPolygon, any other n fails. */
  function RegionRecord(items: seq<string>, st: Stream, res: Option<Geometry>, env: Env): (r: GeoRead)
  {
    if |items| != 2 then GeoRead(Failure, res, st)
    else
      var n := Atoi(items[1]);
      if n == 1 then
        var (p, st') := PolygonOf(st, -1, env);
        Assigned(p, st', true)
      else if n > 1 then
        var (ps, st') := PolygonsOf(st, n, [], env);
        if ps.None? then GeoRead(Failure, res, st')
        else GeoRead(Success, Some(MultiPolygon(ps.value)), st')
      else GeoRead(Failure, res, st)
  }

  /** The ring RECT x1 y1 x2 y2 stands for: the four corners, counted from
      (x1, y1) through (x2, y1), and (x1, y1) again. */
  function RectRing(x1: real, y1: real, x2: real, y2: real): (ring: seq<Coord>)
    ensures IsClosedRing(ring) && |ring| == 5
  {
    [Coord(x1, y1), Coord(x2, y1), Coord(x2, y2), Coord(x1, y2), Coord(x1, y1)]
  }

  /** RECT x1 y1 x2 y2: exactly five items, a Polygon on RectRing. */
  function RectRecord(items: seq<string>, st: Stream, res: Option<Geometry>, env: Env): (r: GeoRead)
    ensures r.status == Success <==> |items| == 5
    ensures r.status != Success ==> r.status == Failure && r.geo == res
  {
    if |items| != 5 then GeoRead(Failure, res, st)
    else
      var ring := RectRing(ToDouble(items[1], env), ToDouble(items[2], env), ToDouble(items[3], env), ToDouble(items[4], env));
      GeoRead(Success, Some(Polygon(ring)), st)
  }

  /** The keyword tests of the loop, on the lower-cased first item: a
      record for the geometry keywords, nothing (skip the line) for a style
      keyword, -1 for anything else. */
  function Dispatch(kw: string, items: seq<string>, st: Stream, res: Option<Geometry>, env: Env): (r: Option<GeoRead>)
    requires |items| >= 1
  {
    if kw == "none" then Some(NoneRecord(st))
    else if kw == "point" then Some(PointRecord(items, st, res, env))
    else if kw == "line" then Some(LineRecord(items, st, res, env))
    else if kw == "pline" then Some(PlineRecord(items, st, res, env))
    else if kw == "region" then Some(RegionRecord(items, st, res, env))
    else if kw == "rect" then Some(RectRecord(items, st, res, env))
    else if IsStyleKeyWord(kw) then None
    else Some(GeoRead(Failure, res, st))
  }

  /** ReadSingleGeo as a function of the stream: while the stream is good,
      read a line and trim it; skip it when it is blank or its first word
      (split at single blanks, lower-cased) is a style keyword; otherwise
      the line's record decides.  Falling out of the loop answers 1. */
  function GeoRecord(st: Stream, res: Option<Geometry>, env: Env): (r: GeoRead)
    decreases |st.rest|, if st.Good() then 1 else 0
  {
    if !st.Good() then GeoRead(EndOfFile, res, st)
    else
      var (l, st') := GetLine(st, "");
      var line := StrTrimSpace(l);
      if line == "" then GeoRecord(st', res, env)
      else
        var items := Split(line, " ");
        match Dispatch(Lower(items[0]), items, st', res, env)
        case None => GeoRecord(st', res, env)
        case Some(r) => r
  }

  // ---------------------------------------------------------------------
  // What a record read promises

  /** Dispatch skips a line exactly when its keyword is a style keyword;
      the geometry keywords are never skipped. */
  lemma DispatchSkipsStyle(kw: string, items: seq<string>, st: Stream, res: Option<Geometry>, env: Env)
    requires |items| >= 1
    ensures Dispatch(kw, items, st, res, env).None? <==> IsStyleKeyWord(kw)
  {
    if IsGeoKeyword(kw) {
      GeoKeywordNotStyle(kw);
    }
  }

  /** Every record a keyword starts settles as Settled says. */
  lemma DispatchSettled(kw: string, items: seq<string>, st: Stream, res: Option<Geometry>, env: Env)
    requires |items| >= 1
    ensures var r := Dispatch(kw, items, st, res, env); r.Some? ==> Settled(r.value, res)
  {
    if kw == "pline" {
      PlineSettled(items, st, res, env);
    } else if kw == "region" {
      RegionSettled(items, st, res, env);
    }
  }

  /** Helper: the PLINE record settles. */
  lemma PlineSettled(items: seq<string>, st: Stream, res: Option<Geometry>, env: Env)
    requires |items| >= 1
    ensures Settled(PlineRecord(items, st, res, env), res)
  {
    if |items| == 3 && Atoi(items[2]) >= 0 {
      LineStringsParts(st, Atoi(items[2]), [], env);
    }
  }

  /** Helper: the REGION record settles. */
  lemma RegionSettled(items: seq<string>, st: Stream, res: Option<Geometry>, env: Env)
    ensures Settled(RegionRecord(items, st, res, env), res)
  {
    if |items| == 2 && Atoi(items[1]) > 1 {
      PolygonsParts(st, Atoi(items[1]), [], env);
    }
  }

  /** ReadSingleGeo ends in one of the ways Settled lists; in particular a
      0 comes with a well-formed geometry. */
  lemma {:induction false} GeoRecordSettled(st: Stream, res: Option<Geometry>, env: Env)
    ensures Settled(GeoRecord(st, res, env), res)
    decreases |st.rest|, if st.Good() then 1 else 0
  {
    if st.Good() {
      var (l, st') := GetLine(st, "");
      var line := StrTrimSpace(l);
      if line == "" {
        GeoRecordSettled(st', res, env);
      } else {
        var items := Split(line, " ");
        DispatchSettled(Lower(items[0]), items, st', res, env);
        if Dispatch(Lower(items[0]), items, st', res, env).None? {
          GeoRecordSettled(st', res, env);
        }
      }
    }
  }

  /** A blank line in front of the next record changes nothing. */
  lemma BlankLineSkipped(blank: string, rest: string, res: Option<Geometry>, env: Env)
    requires '\n' !in blank && StrTrimSpace(blank) == ""
    ensures GeoRecord(Open(blank + "\n" + rest), res, env) == GeoRecord(Open(rest), res, env)
  {
    GetLineOfLine(blank, rest, "");
  }

  /** A style line (PEN, BRUSH, SYMBOL, FONT, CENTER, in any case) in front
      of the next record changes nothing. */
  lemma StyleLineSkipped(line: string, rest: string, res: Option<Geometry>, env: Env)
    requires '\n' !in line && StrTrimSpace(line) == line && line != ""
    requires IsStyleKeyWord(Lower(Split(line, " ")[0]))
    ensures GeoRecord(Open(line + "\n" + rest), res, env) == GeoRecord(Open(rest), res, env)
  {
    GetLineOfLine(line, rest, "");
    var items := Split(line, " ");
    DispatchSkipsStyle(Lower(items[0]), items, Open(rest), res, env);
  }

  // ---------------------------------------------------------------------
  // The loop and the record readers as methods

  /** ReadSingleGeo. */
  method ReadSingleGeo(st: Stream, res: Option<Geometry>, env: Env) returns (status: Status, res': Option<Geometry>, st': Stream)
    ensures GeoRead(status, res', st') == GeoRecord(st, res, env)
  {
    var line := "";
    st' := st;
    while st'.Good()
      invariant GeoRecord(st', res, env) == GeoRecord(st, res, env)
      decreases |st'.rest|, if st'.Good() then 1 else 0
    {
      var got := GetLine(st', line);
      line, st' := StrTrimSpace(got.0), got.1;
      if line == "" {
        continue;
      }
      var items := StrSplit(line, " ");
      var kw := StrLower(items[0]);
      var handled;
      handled, status, res', st' := ReadRecord(kw, items, st', res, env);
      if handled {
        return;
      }
    }
    return EndOfFile, res, st';
  }

  /** The keyword tests of the loop body: `handled` is false for a style
      line, which the loop skips. */
  method ReadRecord(kw: string, items: seq<string>, st: Stream, res: Option<Geometry>, env: Env)
    returns (handled: bool, status: Status, res': Option<Geometry>, st': Stream)
    requires |items| >= 1
    ensures handled <==> Dispatch(kw, items, st, res, env).Some?
    ensures handled ==> GeoRead(status, res', st') == Dispatch(kw, items, st, res, env).value
    ensures !handled ==> st' == st
  {
    handled, status, res', st' := true, Failure, res, st;
    if kw == "none" {
      status, res' := Success, None;
    } else if kw == "point" {
      status, res' := ReadPoint(items, res, env);
    } else if kw == "line" {
      status, res' := ReadLine(items, res, env);
    } else if kw == "pline" {
      status, res', st' := ReadPline(items, st, res, env);
    } else if kw == "region" {
      status, res', st' := ReadRegion(items, st, res, env);
    } else if kw == "rect" {
      status, res' := ReadRect(items, res, env);
    } else if IsStyleKeyWord(kw) {
      handled := false;
    }
  }

  method ReadPoint(items: seq<string>, res: Option<Geometry>, env: Env) returns (status: Status, res': Option<Geometry>)
    ensures forall st :: GeoRead(status, res', st) == PointRecord(items, st, res, env)
  {
    if |items| != 3 {
      return Failure, res;
    }
    var p := Coord(ToDouble(items[1], env), ToDouble(items[2], env));
    status, res' := Success, Some(Point(p));
  }

  method ReadLine(items: seq<string>, res: Option<Geometry>, env: Env) returns (status: Status, res': Option<Geometry>)
    ensures forall st :: GeoRead(status, res', st) == LineRecord(items, st, res, env)
  {
    if |items| != 5 {
      return Failure, res;
    }
    var coords := [Coord(ToDouble(items[1], env), ToDouble(items[2], env)), Coord(ToDouble(items[3], env), ToDouble(items[4], env))];
    status, res' := Success, Some(LineString(coords));
  }

  method ReadRect(items: seq<string>, res: Option<Geometry>, env: Env) returns (status: Status, res': Option<Geometry>)
    ensures forall st :: GeoRead(status, res', st) == RectRecord(items, st, res, env)
  {
    if |items| != 5 {
      return Failure, res;
    }
    var x1, y1 := ToDouble(items[1], env), ToDouble(items[2], env);
    var x2, y2 := ToDouble(items[3], env), ToDouble(items[4], env);
    var coords := [Coord(x1, y1), Coord(x2, y1), Coord(x2, y2), Coord(x1, y2), Coord(x1, y1)];
    status, res' := Success, Some(Polygon(coords));
  }

  /** The PLINE branch. */
  method ReadPline(items: seq<string>, st: Stream, res: Option<Geometry>, env: Env) returns (status: Status, res': Option<Geometry>, st': Stream)
    requires |items| >= 1
    ensures GeoRead(status, res', st') == PlineRecord(items, st, res, env)
  {
    hide LineStringOf, LineStringsOf;
    if |items| == 1 || |items| == 2 {
      var n := if |items| == 1 then -1 else Atoi(items[1]);
      var l;
      l, st' := ReadLineString(st, n, env);
      if l == None {
        return Failure, None, st';
      }
      return Success, Some(LineString(l.value)), st';
    } else if |items| == 3 {
      var n := Atoi(items[2]);
      if n < 0 {
        return Raised(VectorTooLong), res, st;
      }
      var lines;
      lines, st' := ReadLineStrings(st, n, env);
      if lines == None {
        return Failure, res, st';
      }
      return Success, Some(MultiLineString(lines.value)), st';
    }
    return Failure, res, st;
  }

  /** The REGION branch. */
  method ReadRegion(items: seq<string>, st: Stream, res: Option<Geometry>, env: Env) returns (status: Status, res': Option<Geometry>, st': Stream)
    ensures GeoRead(status, res', st') == RegionRecord(items, st, res, env)
  {
    hide PolygonOf, PolygonsOf;
    if |items| != 2 {
      return Failure, res, st;
    }
    var n := Atoi(items[1]);
    if n == 1 {
      var p;
      p, st' := ReadPolygon(st, -1, env);
      if p == None {
        return Failure, None, st';
      }
      return Success, Some(Polygon(p.value)), st';
    } else if n > 1 {
      var shells;
      shells, st' := ReadPolygons(st, n, env);
      if shells == None {
        return Failure, res, st';
      }
      return Success, Some(MultiPolygon(shells.value)), st';
    }
    return Failure, res, st;
  }
}
