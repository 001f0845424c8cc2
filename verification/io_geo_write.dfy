/** WriteElementGeo (io.cpp:463-525): the MIF text of one geometry.  The
    output stream is a string the writer appends to; the numbers it writes
    are those of a stream set to std::fixed with GMIF_COORD_PRECISION
    decimals, as the library's Dump prepares it (mif.cpp:70), so each is
    env.fixed(v, CoordPrecision).  Sizes are written in decimal. */
module IoGeoWrite {
  import opened Wrappers
  import opened Utils
  import opened Foreign

  /** A coordinate value as the MIF stream writes it. */
  function Num(v: real, env: Env): string {
    env.fixed(v, CoordPrecision)
  }

  /** One coordinate on a line of its own: x, a blank, y. */
  function CoordLine(c: Coord, env: Env): string {
    Num(c.x, env) + " " + Num(c.y, env) + "\n"
  }

  /** The lines of a coordinate sequence, in order. */
  function CoordLines(pts: seq<Coord>, env: Env): string
    decreases |pts|
  {
    if |pts| == 0 then "" else CoordLine(pts[0], env) + CoordLines(pts[1..], env)
  }

  /** A part of a MultiLineString or MultiPolygon: its size on a line
      indented by two blanks, then its coordinate lines. */
  function PartText(p: seq<Coord>, env: Env): string {
    "  " + NatToString(|p|) + "\n" + CoordLines(p, env)
  }

  /** The parts, in order. */
  function PartsText(ps: seq<seq<Coord>>, env: Env): string
    decreases |ps|
  {
    if |ps| == 0 then "" else PartText(ps[0], env) + PartsText(ps[1..], env)
  }

  /** What WriteElementGeo writes: NONE for a null geometry; POINT x y;
      LINE x1 y1 x2 y2 for a LineString of two coordinates and PLINE n with
      n coordinate lines for a longer one; PLINE MULTIPLE n and REGION n
      with their parts; a Polygon as REGION 1 with its shell.  None (write
      nothing, answer false) for a LineString of fewer than two
      coordinates and for every other geometry type. */
  function GeoText(g: Option<Geometry>, env: Env): (t: Option<string>)
    ensures t.None? <==> g.Some? && (g.value.Other? || (g.value.LineString? && |g.value.pts| < 2))
  {
    match g
    case None => Some("NONE\n")
    case Some(Point(c)) => Some("POINT " + Num(c.x, env) + " " + Num(c.y, env) + "\n")
    case Some(LineString(pts)) =>
      if |pts| == 2 then
        Some("LINE " + Num(pts[0].x, env) + " " + Num(pts[0].y, env) + " "
          + Num(pts[1].x, env) + " " + Num(pts[1].y, env) + "\n")
      else if |pts| > 2 then Some("PLINE " + NatToString(|pts|) + "\n" + CoordLines(pts, env))
      else None
    case Some(MultiLineString(ls)) => Some("PLINE MULTIPLE " + NatToString(|ls|) + "\n" + PartsText(ls, env))
    case Some(Polygon(shell)) => Some("REGION 1\n" + PartText(shell, env))
    case Some(MultiPolygon(ss)) => Some("REGION " + NatToString(|ss|) + "\n" + PartsText(ss, env))
    case Some(Other(_)) => None
  }

  // ---------------------------------------------------------------------
  // The writer as a method

  /** WriteElementGeo: `text` is what it appends to the stream. */
  method WriteElementGeo(geo: Option<Geometry>, env: Env) returns (ok: bool, text: string)
    ensures ok <==> GeoText(geo, env).Some?
    ensures ok ==> text == GeoText(geo, env).value
    ensures !ok ==> text == ""
  {
    if geo == None {
      return true, "NONE\n";
    }
    ok, text := true, "";
    match geo.value
    case Point(c) =>
      text := "POINT " + Num(c.x, env) + " " + Num(c.y, env) + "\n";
    case LineString(pts) =>
      var size := |pts|;
      if size == 2 {
        text := "LINE ";
        text := text + Num(pts[0].x, env) + " " + Num(pts[0].y, env) + " ";
        text := text + Num(pts[1].x, env) + " " + Num(pts[1].y, env) + "\n";
      } else if size > 2 {
        text := "PLINE " + NatToString(size) + "\n";
        text := WriteCoords(text, pts, env);
      } else {
        ok := false;
      }
    case MultiLineString(ls) =>
      text := "PLINE MULTIPLE " + NatToString(|ls|) + "\n";
      text := WriteParts(text, ls, env);
    case Polygon(shell) =>
      text := "REGION 1\n";
      text := text + "  " + NatToString(|shell|) + "\n";
      text := WriteCoords(text, shell, env);
    case MultiPolygon(ss) =>
      text := "REGION " + NatToString(|ss|) + "\n";
      text := WriteParts(text, ss, env);
    case Other(_) =>
      ok := false;
  }

  /** The loop that writes a coordinate sequence, one line per
      coordinate. */
  method WriteCoords(text: string, pts: seq<Coord>, env: Env) returns (text': string)
    ensures text' == text + CoordLines(pts, env)
  {
    text' := text;
    var i := 0;
    while i < |pts|
      invariant 0 <= i <= |pts|
      invariant text' + CoordLines(pts[i..], env) == text + CoordLines(pts, env)
    {
      assert pts[i..][1..] == pts[i + 1..];
      text' := text' + Num(pts[i].x, env) + " " + Num(pts[i].y, env) + "\n";
      i := i + 1;
    }
  }

  /** The loop over the parts of a MultiLineString or MultiPolygon. */
  method WriteParts(text: string, ps: seq<seq<Coord>>, env: Env) returns (text': string)
    ensures text' == text + PartsText(ps, env)
  {
    hide *;
    text' := text;
    var i := 0;
    assert ps[0..] == ps;
    while i < |ps|
      invariant 0 <= i <= |ps|
      invariant text' + PartsText(ps[i..], env) == text + PartsText(ps, env)
    {
      PartsTextStep(ps, i, env);
      text' := text' + "  " + NatToString(|ps[i]|) + "\n";
      text' := WriteCoords(text', ps[i], env);
      i := i + 1;
    }
    PartsTextStep(ps, i, env);
  }

  /** Helper: the parts from i on are part i, then the parts after it;
      none are left at the end. */
  lemma PartsTextStep(ps: seq<seq<Coord>>, i: nat, env: Env)
    requires i <= |ps|
    ensures i == |ps| ==> PartsText(ps[i..], env) == ""
    ensures i < |ps| ==> PartsText(ps[i..], env) == "  " + NatToString(|ps[i]|) + "\n" + CoordLines(ps[i], env) + PartsText(ps[i + 1..], env)
  {
    if i < |ps| {
      assert ps[i..][1..] == ps[i + 1..];
    }
  }
}
