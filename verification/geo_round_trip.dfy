/** What WriteElementGeo writes, ReadSingleGeo reads back (io.cpp:279-375
    against io.cpp:463-525).  The numbers travel as text: a coordinate comes
    back as the value the reading conversion gives for the text the writer
    made of it (strtod for POINT and LINE, `>> double` for the coordinate
    lines), and a ring comes back in the orientation the reader imposes.
    When those conversions give the written values back and the rings are
    clockwise, the geometry comes back unchanged. */
module GeoRoundTrip {
  import opened Wrappers
  import opened Utils
  import opened Foreign
  import opened Streams
  import opened IoGeo
  import opened IoGeoRead
  import opened IoGeoWrite
  import HeaderRoundTrip

  // ---------------------------------------------------------------------
  // What can be written and read back

  /** Nothing but white space. */
  predicate AllSpace(w: string) {
    forall k :: 0 <= k < |w| ==> IsSpace(w[k])
  }

  /** A non-empty run of characters none of which is white space: one
      token for `>>`, one item for the split at blanks. */
  predicate Token(t: string) {
    |t| > 0 && forall k :: 0 <= k < |t| ==> !IsSpace(t[k])
  }

  /** A value whose written text is one token. */
  predicate Written(v: real, env: Env) {
    Token(Num(v, env))
  }

  /** A value whose written text is one token that `>> double` accepts. */
  predicate Scannable(v: real, env: Env) {
    Written(v, env) && env.scanDouble(Num(v, env)).Some?
  }

  /** A coordinate sequence written as a count and coordinate lines: the
      count fits an int, and every value is scannable. */
  predicate Countable(pts: seq<Coord>, env: Env) {
    && |pts| <= Int32Max
    && forall i :: 0 <= i < |pts| ==> Scannable(pts[i].x, env) && Scannable(pts[i].y, env)
  }

  /** A geometry the writer writes and the reader can take back: the shapes
      the reader builds (LineStrings of two or more coordinates, closed
      rings, MultiPolygons of two or more parts), counts that fit an int,
      and values whose texts are tokens the reader accepts. */
  predicate Printable(g: Option<Geometry>, env: Env) {
    match g
    case None => true
    case Some(Point(c)) => Written(c.x, env) && Written(c.y, env)
    case Some(LineString(pts)) =>
      if |pts| == 2 then
        Written(pts[0].x, env) && Written(pts[0].y, env) && Written(pts[1].x, env) && Written(pts[1].y, env)
      else |pts| > 2 && Countable(pts, env)
    case Some(Polygon(shell)) => IsClosedRing(shell) && Countable(shell, env)
    case Some(MultiLineString(ls)) =>
      && |ls| <= Int32Max
      && forall i :: 0 <= i < |ls| ==> |ls[i]| >= 2 && Countable(ls[i], env)
    case Some(MultiPolygon(ss)) =>
      && 2 <= |ss| <= Int32Max
      && forall i :: 0 <= i < |ss| ==> IsClosedRing(ss[i]) && Countable(ss[i], env)
    case Some(Other(_)) => false
  }

  // ---------------------------------------------------------------------
  // What comes back

  /** A value written and read back with `>> double`. */
  function Scan(v: real, env: Env): real {
    match env.scanDouble(Num(v, env))
    case Some(d) => d
    case None => 0.0
  }

  /** A coordinate written and read back with `>> double`. */
  function Scanned(c: Coord, env: Env): Coord {
    Coord(Scan(c.x, env), Scan(c.y, env))
  }

  /** A coordinate sequence written and read back with `>> double`. */
  function ScannedAll(pts: seq<Coord>, env: Env): (r: seq<Coord>)
    ensures |r| == |pts|
  {
    seq(|pts|, i requires 0 <= i < |pts| => Scanned(pts[i], env))
  }

  /** A coordinate written and read back with to_double. */
  function Converted(c: Coord, env: Env): Coord {
    Coord(ToDouble(Num(c.x, env), env), ToDouble(Num(c.y, env), env))
  }

  /** A ring in the orientation ReadPolygon gives it. */
  function Oriented(ring: seq<Coord>, env: Env): seq<Coord> {
    if env.isCCW(ring) then Reverse(ring) else ring
  }

  /** The parts of a MultiLineString, written and read back. */
  function ScannedParts(ls: seq<seq<Coord>>, env: Env): (r: seq<seq<Coord>>)
    ensures |r| == |ls|
  {
    if |ls| == 0 then [] else [ScannedAll(ls[0], env)] + ScannedParts(ls[1..], env)
  }

  /** The shells of a MultiPolygon, written and read back. */
  function OrientedParts(ss: seq<seq<Coord>>, env: Env): (r: seq<seq<Coord>>)
    ensures |r| == |ss|
  {
    if |ss| == 0 then [] else [Oriented(ScannedAll(ss[0], env), env)] + OrientedParts(ss[1..], env)
  }

  /** The geometry the reader builds from what the writer wrote. */
  function ReadBack(g: Option<Geometry>, env: Env): Option<Geometry> {
    match g
    case None => None
    case Some(Point(c)) => Some(Point(Converted(c, env)))
    case Some(LineString(pts)) =>
      if |pts| == 2 then Some(LineString([Converted(pts[0], env), Converted(pts[1], env)]))
      else Some(LineString(ScannedAll(pts, env)))
    case Some(Polygon(shell)) => Some(Polygon(Oriented(ScannedAll(shell, env), env)))
    case Some(MultiLineString(ls)) =>
      Some(MultiLineString(ScannedParts(ls, env)))
    case Some(MultiPolygon(ss)) =>
      Some(MultiPolygon(OrientedParts(ss, env)))
    case Some(Other(_)) => g
  }

  // ---------------------------------------------------------------------
  // Reading the coordinate lines

  /** Helper: one coordinate line behind white space, read by one turn
      of the coordinate loop. */
  lemma PairRead(w: string, c: Coord, tail: string, prev: Coord, env: Env)
    requires AllSpace(w) && Scannable(c.x, env) && Scannable(c.y, env)
    ensures ReadPair(Open(w + CoordLine(c, env) + tail), prev, env) == (Scanned(c, env), Open("\n" + tail))
  {
    var a, b := Num(c.x, env), Num(c.y, env);
    assert w + CoordLine(c, env) + tail == w + a + (" " + b + "\n" + tail);
    ExtractDoubleOf(w, a, " " + b + "\n" + tail, prev.x, env);
    assert " " + b + "\n" + tail == " " + b + ("\n" + tail);
    ExtractDoubleOf(" ", b, "\n" + tail, prev.y, env);
  }

  /** Helper: the first coordinate line, then the others. */
  lemma CoordLinesCons(w: string, pts: seq<Coord>, rest: string, env: Env)
    requires |pts| >= 1
    ensures w + CoordLines(pts, env) + rest == w + CoordLine(pts[0], env) + (CoordLines(pts[1..], env) + rest)
    ensures ScannedAll(pts, env) == [Scanned(pts[0], env)] + ScannedAll(pts[1..], env)
    ensures |pts| == 1 ==> CoordLines(pts[1..], env) == ""
  {
    assert ScannedAll(pts, env) == [Scanned(pts[0], env)] + ScannedAll(pts[1..], env);
  }

  /** Helper: the coordinate loop with no turn left. */
  lemma NoPointsLeft(st: Stream, prev: Coord, acc: seq<Coord>, env: Env)
    ensures ReadPoints(st, 0, prev, acc, env) == (acc, st)
  {
  }

  /** Helper: the coordinate lines of `pts`, behind white space, read by
      the loop of ReadCoordSeq; the stream stops at the line break after
      the last coordinate. */
  lemma {:induction false} PointsRead(w: string, pts: seq<Coord>, rest: string, prev: Coord, acc: seq<Coord>, env: Env)
    requires AllSpace(w)
    requires |pts| >= 1 && Countable(pts, env)
    ensures ReadPoints(Open(w + CoordLines(pts, env) + rest), |pts|, prev, acc, env)
      == (acc + ScannedAll(pts, env), Open("\n" + rest))
    decreases |pts|
  {
    hide ReadPoints, ReadPair, CoordLines, CoordLine, ScannedAll;
    var c := pts[0];
    var tail := CoordLines(pts[1..], env) + rest;
    var st := Open(w + CoordLines(pts, env) + rest);
    CoordLinesCons(w, pts, rest, env);
    PairRead(w, c, tail, prev, env);
    ReadPointsStep(st, |pts|, prev, acc, env);
    var c' := Scanned(c, env);
    if |pts| == 1 {
      NoPointsLeft(Open("\n" + tail), c', acc + [c'], env);
      assert tail == rest;
      assert ScannedAll(pts, env) == [c'];
      assert ScannedAll(pts[1..], env) == [];
    } else {
      assert "\n" + tail == "\n" + CoordLines(pts[1..], env) + rest;
      PointsRead("\n", pts[1..], rest, c', acc + [c'], env);
      assert acc + [c'] + ScannedAll(pts[1..], env) == acc + ScannedAll(pts, env);
    }
  }

  /** Helper: a part behind white space (its count, then its coordinate
      lines) read by ReadCoordSeq with the count taken from the stream. */
  lemma PartRead(w: string, p: seq<Coord>, rest: string, env: Env)
    requires AllSpace(w)
    requires |p| >= 1 && Countable(p, env)
    ensures CoordSeq(Open(w + PartText(p, env) + rest), -1, env) == (Some(ScannedAll(p, env)), Open("\n" + rest))
  {
    hide ReadPoints, CoordLines, ScannedAll, ExtractInt;
    var n := NatToString(|p|);
    var body := "\n" + CoordLines(p, env) + rest;
    assert w + PartText(p, env) + rest == (w + "  ") + n + body;
    ExtractIntOf(w + "  ", |p|, body, -1);
    assert body == "\n" + CoordLines(p, env) + rest;
    PointsRead("\n", p, rest, Coord(0.0, 0.0), [], env);
    assert [] + ScannedAll(p, env) == ScannedAll(p, env);
    assert ExtractInt(Open(w + PartText(p, env) + rest), -1) == (|p|, Open(body));
  }

  /** Helper: the coordinate lines of a PLINE whose count is on its
      keyword line. */
  lemma CountedRead(pts: seq<Coord>, rest: string, env: Env)
    requires |pts| >= 1 && Countable(pts, env)
    ensures CoordSeq(Open(CoordLines(pts, env) + rest), |pts|, env) == (Some(ScannedAll(pts, env)), Open("\n" + rest))
  {
    hide ReadPoints, CoordLines, ScannedAll;
    assert CoordLines(pts, env) + rest == "" + CoordLines(pts, env) + rest;
    PointsRead("", pts, rest, Coord(0.0, 0.0), [], env);
    assert [] + ScannedAll(pts, env) == ScannedAll(pts, env);
  }

  /** Helper: a closed ring read back is still closed, so ReadPolygon only
      orients it. */
  lemma ShellOfClosed(p: seq<Coord>, env: Env)
    requires IsClosedRing(p)
    ensures Shell(ScannedAll(p, env), env) == Oriented(ScannedAll(p, env), env)
  {
    var r := ScannedAll(p, env);
    assert r[0] == Scanned(p[0], env) && r[|r| - 1] == Scanned(p[|p| - 1], env);
  }

  /** Helper: one part of a PLINE MULTIPLE record. */
  lemma LineRead(w: string, p: seq<Coord>, rest: string, env: Env)
    requires AllSpace(w)
    requires |p| >= 2 && Countable(p, env)
    ensures LineStringOf(Open(w + PartText(p, env) + rest), -1, env) == (Some(ScannedAll(p, env)), Open("\n" + rest))
  {
    hide CoordSeq, PartText, ScannedAll;
    PartRead(w, p, rest, env);
  }

  /** Helper: one part of a REGION record. */
  lemma RingRead(w: string, p: seq<Coord>, rest: string, env: Env)
    requires AllSpace(w)
    requires IsClosedRing(p) && Countable(p, env)
    ensures PolygonOf(Open(w + PartText(p, env) + rest), -1, env) == (Some(Oriented(ScannedAll(p, env), env)), Open("\n" + rest))
  {
    hide CoordSeq, PartText, ScannedAll, Oriented, Shell;
    PartRead(w, p, rest, env);
    ShellOfClosed(p, env);
  }

  /** Helper: the first part, then the others. */
  lemma PartsTextCons(w: string, ps: seq<seq<Coord>>, rest: string, env: Env)
    requires |ps| >= 1
    ensures w + PartsText(ps, env) + rest == w + PartText(ps[0], env) + (PartsText(ps[1..], env) + rest)
    ensures |ps| == 1 ==> PartsText(ps[1..], env) == ""
    ensures ScannedParts(ps, env) == [ScannedAll(ps[0], env)] + ScannedParts(ps[1..], env)
    ensures OrientedParts(ps, env) == [Oriented(ScannedAll(ps[0], env), env)] + OrientedParts(ps[1..], env)
  {
  }

  /** Helper: the parts of a PLINE MULTIPLE record, behind white space,
      read by its loop. */
  lemma {:induction false} LinesRead(w: string, ls: seq<seq<Coord>>, rest: string, acc: seq<seq<Coord>>, env: Env)
    requires AllSpace(w) && |ls| >= 1
    requires forall i :: 0 <= i < |ls| ==> |ls[i]| >= 2 && Countable(ls[i], env)
    ensures LineStringsOf(Open(w + PartsText(ls, env) + rest), |ls|, acc, env)
      == (Some(acc + ScannedParts(ls, env)), Open("\n" + rest))
    decreases |ls|
  {
    hide LineStringsOf, LineStringOf, PartsText, PartText, ScannedParts, ScannedAll;
    var tail := PartsText(ls[1..], env) + rest;
    var st := Open(w + PartsText(ls, env) + rest);
    var x := ScannedAll(ls[0], env);
    PartsTextCons(w, ls, rest, env);
    LineRead(w, ls[0], tail, env);
    LineStringsStep(st, |ls|, acc, env, Some(x), Open("\n" + tail));
    if |ls| == 1 {
      LineStringsStep(Open("\n" + tail), 0, acc + [x], env, None, Open("\n" + tail));
      assert tail == rest;
      assert ScannedParts(ls, env) == [x];
    } else {
      assert "\n" + tail == "\n" + PartsText(ls[1..], env) + rest;
      LinesRead("\n", ls[1..], rest, acc + [x], env);
      assert acc + [x] + ScannedParts(ls[1..], env) == acc + ScannedParts(ls, env);
    }
  }

  /** Helper: the parts of a REGION record, behind white space, read by its
      loop. */
  lemma {:induction false} RingsRead(w: string, ss: seq<seq<Coord>>, rest: string, acc: seq<seq<Coord>>, env: Env)
    requires AllSpace(w) && |ss| >= 1
    requires forall i :: 0 <= i < |ss| ==> IsClosedRing(ss[i]) && Countable(ss[i], env)
    ensures PolygonsOf(Open(w + PartsText(ss, env) + rest), |ss|, acc, env)
      == (Some(acc + OrientedParts(ss, env)), Open("\n" + rest))
    decreases |ss|
  {
    hide PolygonsOf, PolygonOf, PartsText, PartText, OrientedParts, ScannedAll, Oriented;
    var tail := PartsText(ss[1..], env) + rest;
    var st := Open(w + PartsText(ss, env) + rest);
    var x := Oriented(ScannedAll(ss[0], env), env);
    PartsTextCons(w, ss, rest, env);
    RingRead(w, ss[0], tail, env);
    PolygonsStep(st, |ss|, acc, env, Some(x), Open("\n" + tail));
    if |ss| == 1 {
      PolygonsStep(Open("\n" + tail), 0, acc + [x], env, None, Open("\n" + tail));
      assert tail == rest;
      assert OrientedParts(ss, env) == [x];
    } else {
      assert "\n" + tail == "\n" + PartsText(ss[1..], env) + rest;
      RingsRead("\n", ss[1..], rest, acc + [x], env);
      assert acc + [x] + OrientedParts(ss[1..], env) == acc + OrientedParts(ss, env);
    }
  }

  // ---------------------------------------------------------------------
  // The keyword line

  /** Helper: a token holds neither a blank nor a line break. */
  lemma TokenFree(t: string)
    requires Token(t)
    ensures ' ' !in t && '\n' !in t
  {
  }

  /** Helper: the words the writer puts on keyword lines are tokens. */
  lemma WordTokens(n: nat)
    ensures Token("NONE") && Token("POINT") && Token("LINE") && Token("PLINE")
    ensures Token("MULTIPLE") && Token("REGION") && Token(NatToString(n))
  {
  }

  /** Helper: the keywords as the writer spells them, lower-cased. */
  lemma KeywordsLower()
    ensures Lower("NONE") == "none" && Lower("POINT") == "point" && Lower("LINE") == "line"
    ensures Lower("PLINE") == "pline" && Lower("REGION") == "region"
  {
    assert Lower("NONE") == "none";
    assert Lower("POINT") == "point";
    assert Lower("LINE") == "line";
    assert Lower("PLINE") == "pline";
    assert Lower("REGION") == "region";
  }

  /** Helper: a keyword line whose items are tokens joined by single
      blanks is read, trimmed and split back into those items, and its
      record reads what follows. */
  lemma RecordOf(kw: string, items: seq<string>, body: string, res: Option<Geometry>, env: Env)
    requires |items| >= 1 && forall i :: 0 <= i < |items| ==> Token(items[i])
    requires kw == Lower(items[0]) && Dispatch(kw, items, Open(body), res, env).Some?
    ensures GeoRecord(Open(Join(items, " ") + "\n" + body), res, env)
      == Dispatch(kw, items, Open(body), res, env).value
  {
    hide Dispatch;
    var line := Join(items, " ");
    forall i | 0 <= i < |items| ensures ' ' !in items[i] && '\n' !in items[i] {
      TokenFree(items[i]);
    }
    JoinChars(items, " ", '\n');
    JoinEnds(items, " ");
    SplitOfJoin(items, ' ');
    GetLineOfLine(line, body, "");
    IsSpaceWhite(line[0]);
    IsSpaceWhite(line[|line| - 1]);
    TrimNothing(line, SpaceWhite);
  }

  /** Helper: the record each keyword the writer uses starts. */
  lemma DispatchOf(kw: string, items: seq<string>, st: Stream, res: Option<Geometry>, env: Env)
    requires |items| >= 1
    ensures kw == "none" ==> Dispatch(kw, items, st, res, env) == Some(NoneRecord(st))
    ensures kw == "point" ==> Dispatch(kw, items, st, res, env) == Some(PointRecord(items, st, res, env))
    ensures kw == "line" ==> Dispatch(kw, items, st, res, env) == Some(LineRecord(items, st, res, env))
    ensures kw == "pline" ==> Dispatch(kw, items, st, res, env) == Some(PlineRecord(items, st, res, env))
    ensures kw == "region" ==> Dispatch(kw, items, st, res, env) == Some(RegionRecord(items, st, res, env))
  {
  }

  // ---------------------------------------------------------------------
  // One record per geometry type

  /** Helper: NONE reads back as the null geometry. */
  lemma NoneBack(rest: string, res: Option<Geometry>, env: Env)
    ensures GeoRecord(Open("NONE\n" + rest), res, env) == GeoRead(Success, None, Open(rest))
  {
    hide GeoRecord, Dispatch, PointRecord, LineRecord, PlineRecord, RegionRecord, RectRecord;
    KeywordsLower();
    WordTokens(0);
    DispatchOf("none", ["NONE"], Open(rest), res, env);
    assert Join(["NONE"], " ") + "\n" + rest == "NONE\n" + rest;
    RecordOf("none", ["NONE"], rest, res, env);
  }

  /** Helper: POINT x y reads back through to_double. */
  lemma PointBack(c: Coord, rest: string, res: Option<Geometry>, env: Env)
    requires Written(c.x, env) && Written(c.y, env)
    ensures GeoRecord(Open("POINT " + Num(c.x, env) + " " + Num(c.y, env) + "\n" + rest), res, env)
      == GeoRead(Success, Some(Point(Converted(c, env))), Open(rest))
  {
    hide GeoRecord, Dispatch, NoneRecord, LineRecord, PlineRecord, RegionRecord, RectRecord;
    var a, b := Num(c.x, env), Num(c.y, env);
    var items := ["POINT", a, b];
    assert Join([a, b], " ") == a + " " + b;
    assert Join(items, " ") == "POINT" + " " + Join([a, b], " ");
    assert "POINT " + a + " " + b + "\n" + rest == Join(items, " ") + "\n" + rest;
    KeywordsLower();
    WordTokens(0);
    DispatchOf("point", items, Open(rest), res, env);
    RecordOf("point", items, rest, res, env);
  }

  /** Helper: LINE x1 y1 x2 y2 reads back through to_double. */
  lemma LineBack(p: Coord, q: Coord, rest: string, res: Option<Geometry>, env: Env)
    requires Written(p.x, env) && Written(p.y, env) && Written(q.x, env) && Written(q.y, env)
    ensures GeoRecord(Open("LINE " + Num(p.x, env) + " " + Num(p.y, env) + " "
        + Num(q.x, env) + " " + Num(q.y, env) + "\n" + rest), res, env)
      == GeoRead(Success, Some(LineString([Converted(p, env), Converted(q, env)])), Open(rest))
  {
    hide GeoRecord, Dispatch, NoneRecord, PointRecord, PlineRecord, RegionRecord, RectRecord;
    var a, b, c, d := Num(p.x, env), Num(p.y, env), Num(q.x, env), Num(q.y, env);
    var items := ["LINE", a, b, c, d];
    assert Join([c, d], " ") == c + " " + d;
    assert Join([b, c, d], " ") == b + " " + Join([c, d], " ");
    assert Join([a, b, c, d], " ") == a + " " + Join([b, c, d], " ");
    assert Join(items, " ") == "LINE" + " " + Join([a, b, c, d], " ");
    assert "LINE " + a + " " + b + " " + c + " " + d + "\n" + rest == Join(items, " ") + "\n" + rest;
    KeywordsLower();
    WordTokens(0);
    DispatchOf("line", items, Open(rest), res, env);
    RecordOf("line", items, rest, res, env);
  }

  /** Helper: PLINE n with its coordinate lines reads back through
      `>> double`. */
  lemma PlineBack(pts: seq<Coord>, rest: string, res: Option<Geometry>, env: Env)
    requires |pts| > 2 && Countable(pts, env)
    ensures GeoRecord(Open("PLINE " + NatToString(|pts|) + "\n" + CoordLines(pts, env) + rest), res, env)
      == GeoRead(Success, Some(LineString(ScannedAll(pts, env))), Open("\n" + rest))
  {
    hide CoordSeq, CoordLines, ScannedAll, GeoRecord, Dispatch, NoneRecord, PointRecord, LineRecord, RegionRecord, RectRecord;
    var n := NatToString(|pts|);
    var items := ["PLINE", n];
    var body := CoordLines(pts, env) + rest;
    assert Join(items, " ") == "PLINE" + " " + n;
    assert "PLINE " + n + "\n" + CoordLines(pts, env) + rest == Join(items, " ") + "\n" + body;
    HeaderRoundTrip.AtoiOfNat(|pts|);
    CountedRead(pts, rest, env);
    KeywordsLower();
    WordTokens(|pts|);
    DispatchOf("pline", items, Open(body), res, env);
    RecordOf("pline", items, body, res, env);
  }

  /** Helper: PLINE MULTIPLE n with its parts reads back through
      `>> double`. */
  lemma MultiLineBack(ls: seq<seq<Coord>>, rest: string, res: Option<Geometry>, env: Env)
    requires |ls| <= Int32Max
    requires forall i :: 0 <= i < |ls| ==> |ls[i]| >= 2 && Countable(ls[i], env)
    ensures GeoRecord(Open("PLINE MULTIPLE " + NatToString(|ls|) + "\n" + PartsText(ls, env) + rest), res, env)
      == GeoRead(Success, Some(MultiLineString(ScannedParts(ls, env))), Open(if |ls| == 0 then rest else "\n" + rest))
  {
    hide LineStringsOf, PartsText, ScannedParts, GeoRecord, Dispatch, NoneRecord, PointRecord, LineRecord, RegionRecord, RectRecord;
    var n := NatToString(|ls|);
    var items := ["PLINE", "MULTIPLE", n];
    var body := PartsText(ls, env) + rest;
    assert Join(items[1..], " ") == "MULTIPLE" + " " + n;
    assert Join(items, " ") == "PLINE" + " " + ("MULTIPLE" + " " + n);
    assert "PLINE MULTIPLE " + n + "\n" + PartsText(ls, env) + rest == Join(items, " ") + "\n" + body;
    HeaderRoundTrip.AtoiOfNat(|ls|);
    if |ls| == 0 {
      LineStringsStep(Open(body), 0, [], env, None, Open(body));
      assert body == rest && ScannedParts(ls, env) == [] by {
        PartsTextStep(ls, 0, env);
        assert ls[0..] == ls;
      }
    } else {
      assert body == "" + PartsText(ls, env) + rest;
      LinesRead("", ls, rest, [], env);
      assert [] + ScannedParts(ls, env) == ScannedParts(ls, env);
    }
    KeywordsLower();
    WordTokens(|ls|);
    DispatchOf("pline", items, Open(body), res, env);
    RecordOf("pline", items, body, res, env);
  }

  /** Helper: REGION 1 with its shell reads back oriented. */
  lemma PolygonBack(shell: seq<Coord>, rest: string, res: Option<Geometry>, env: Env)
    requires IsClosedRing(shell) && Countable(shell, env)
    ensures GeoRecord(Open("REGION 1\n" + PartText(shell, env) + rest), res, env)
      == GeoRead(Success, Some(Polygon(Oriented(ScannedAll(shell, env), env))), Open("\n" + rest))
  {
    hide PolygonOf, PartText, ScannedAll, Oriented, GeoRecord, Dispatch, NoneRecord, PointRecord, LineRecord, PlineRecord, RectRecord;
    var items := ["REGION", "1"];
    var body := PartText(shell, env) + rest;
    assert Join(items, " ") == "REGION" + " " + "1";
    assert "REGION 1\n" + PartText(shell, env) + rest == Join(items, " ") + "\n" + body;
    assert NatToString(1) == "1";
    HeaderRoundTrip.AtoiOfNat(1);
    assert body == "" + PartText(shell, env) + rest;
    RingRead("", shell, rest, env);
    KeywordsLower();
    WordTokens(1);
    DispatchOf("region", items, Open(body), res, env);
    RecordOf("region", items, body, res, env);
  }

  /** Helper: REGION n with n > 1 and its shells reads back, each shell
      oriented. */
  lemma MultiPolygonBack(ss: seq<seq<Coord>>, rest: string, res: Option<Geometry>, env: Env)
    requires 2 <= |ss| <= Int32Max
    requires forall i :: 0 <= i < |ss| ==> IsClosedRing(ss[i]) && Countable(ss[i], env)
    ensures GeoRecord(Open("REGION " + NatToString(|ss|) + "\n" + PartsText(ss, env) + rest), res, env)
      == GeoRead(Success, Some(MultiPolygon(OrientedParts(ss, env))), Open("\n" + rest))
  {
    hide PolygonsOf, PartsText, OrientedParts, GeoRecord, Dispatch, NoneRecord, PointRecord, LineRecord, PlineRecord, RectRecord;
    var n := NatToString(|ss|);
    var items := ["REGION", n];
    var body := PartsText(ss, env) + rest;
    assert Join(items, " ") == "REGION" + " " + n;
    assert "REGION " + n + "\n" + PartsText(ss, env) + rest == Join(items, " ") + "\n" + body;
    HeaderRoundTrip.AtoiOfNat(|ss|);
    assert body == "" + PartsText(ss, env) + rest;
    RingsRead("", ss, rest, [], env);
    assert [] + OrientedParts(ss, env) == OrientedParts(ss, env);
    KeywordsLower();
    WordTokens(|ss|);
    DispatchOf("region", items, Open(body), res, env);
    RecordOf("region", items, body, res, env);
  }

  // ---------------------------------------------------------------------
  // The round trip

  /** Where the reader stops in what follows the record: right after the
      keyword line when the record is that line alone, otherwise at the
      line break that ends the last coordinate line. */
  function Remaining(g: Option<Geometry>, rest: string): string {
    match g
    case Some(LineString(pts)) => if |pts| == 2 then rest else "\n" + rest
    case Some(Polygon(_)) => "\n" + rest
    case Some(MultiLineString(ls)) => if |ls| == 0 then rest else "\n" + rest
    case Some(MultiPolygon(_)) => "\n" + rest
    case _ => rest
  }

  /** What WriteElementGeo writes for a printable geometry, followed by
      anything at all, ReadSingleGeo reads back: result 0, the geometry
      ReadBack describes, and the stream just past the record. */
  lemma GeoRoundTrip(g: Option<Geometry>, res: Option<Geometry>, rest: string, env: Env)
    requires Printable(g, env)
    ensures GeoText(g, env).Some?
    ensures GeoRecord(Open(GeoText(g, env).value + rest), res, env)
      == GeoRead(Success, ReadBack(g, env), Open(Remaining(g, rest)))
  {
    hide GeoRecord;
    match g
    case None => NoneBack(rest, res, env);
    case Some(Point(c)) => PointBack(c, rest, res, env);
    case Some(LineString(pts)) =>
      if |pts| == 2 {
        LineBack(pts[0], pts[1], rest, res, env);
      } else {
        PlineBack(pts, rest, res, env);
      }
    case Some(MultiLineString(ls)) => MultiLineBack(ls, rest, res, env);
    case Some(Polygon(shell)) => PolygonBack(shell, rest, res, env);
    case Some(MultiPolygon(ss)) => MultiPolygonBack(ss, rest, res, env);
  }

  // ---------------------------------------------------------------------
  // When the numbers survive the trip

  /** A value that the writer's text gives back exactly, through to_double
      and through `>> double`. */
  predicate Exact(v: real, env: Env) {
    ToDouble(Num(v, env), env) == v && env.scanDouble(Num(v, env)) == Some(v)
  }

  /** Every value of a coordinate sequence survives the trip. */
  predicate ExactAll(pts: seq<Coord>, env: Env) {
    forall i :: 0 <= i < |pts| ==> Exact(pts[i].x, env) && Exact(pts[i].y, env)
  }

  /** Every value of the geometry survives the trip, and every ring is in
      the orientation the reader gives it (not counter-clockwise); the
      writer refuses the other geometry types. */
  predicate Stable(g: Option<Geometry>, env: Env) {
    match g
    case None => true
    case Some(Point(c)) => Exact(c.x, env) && Exact(c.y, env)
    case Some(LineString(pts)) => ExactAll(pts, env)
    case Some(Polygon(shell)) => ExactAll(shell, env) && !env.isCCW(shell)
    case Some(MultiLineString(ls)) => forall i :: 0 <= i < |ls| ==> ExactAll(ls[i], env)
    case Some(MultiPolygon(ss)) => forall i :: 0 <= i < |ss| ==> ExactAll(ss[i], env) && !env.isCCW(ss[i])
    case Some(Other(_)) => false
  }

  /** Helper: a coordinate sequence whose values survive comes back as it
      was. */
  lemma ScannedExact(pts: seq<Coord>, env: Env)
    requires ExactAll(pts, env)
    ensures ScannedAll(pts, env) == pts
  {
    assert forall i :: 0 <= i < |pts| ==> ScannedAll(pts, env)[i] == pts[i];
  }

  /** Helper: the parts of a MultiLineString come back as they were. */
  lemma {:induction false} ScannedPartsExact(ls: seq<seq<Coord>>, env: Env)
    requires forall i :: 0 <= i < |ls| ==> ExactAll(ls[i], env)
    ensures ScannedParts(ls, env) == ls
    decreases |ls|
  {
    if |ls| > 0 {
      ScannedExact(ls[0], env);
      ScannedPartsExact(ls[1..], env);
      assert ls == [ls[0]] + ls[1..];
    }
  }

  /** Helper: the clockwise shells of a MultiPolygon come back as they
      were. */
  lemma {:induction false} OrientedPartsExact(ss: seq<seq<Coord>>, env: Env)
    requires forall i :: 0 <= i < |ss| ==> ExactAll(ss[i], env) && !env.isCCW(ss[i])
    ensures OrientedParts(ss, env) == ss
    decreases |ss|
  {
    if |ss| > 0 {
      ScannedExact(ss[0], env);
      OrientedPartsExact(ss[1..], env);
      assert ss == [ss[0]] + ss[1..];
    }
  }

  /** When every value survives the conversions and every ring is
      clockwise, the reader gives back the geometry the writer wrote. */
  lemma ReadBackExact(g: Option<Geometry>, env: Env)
    requires Stable(g, env)
    ensures ReadBack(g, env) == g
  {
    match g
    case None =>
    case Some(Point(c)) =>
    case Some(LineString(pts)) =>
      ScannedExact(pts, env);
      if |pts| == 2 {
        assert [pts[0], pts[1]] == pts;
      }
    case Some(Polygon(shell)) => ScannedExact(shell, env);
    case Some(MultiLineString(ls)) => ScannedPartsExact(ls, env);
    case Some(MultiPolygon(ss)) => OrientedPartsExact(ss, env);
    case Some(Other(_)) =>
  }
}
