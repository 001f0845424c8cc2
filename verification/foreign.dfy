/** The collaborators the library calls but does not define: the C and C++
    numeric conversions whose digits depend on floating point, GEOS's
    orientation test, and the GEOS geometry values the reader builds and the
    writer inspects.  Each conversion is a parameter of the model; nothing
    is assumed about it beyond its type. */
module Foreign {
  import opened Wrappers

  /** geos::geom::Coordinate, two-dimensional. */
  datatype Coord = Coord(x: real, y: real)

  /** The GEOS geometries the library reads and writes.  A polygon is its
      shell ring (the reader never builds holes).  `Other` stands for every
      GEOS type the writer does not support (MultiPoint, LinearRing,
      GeometryCollection), named by its GEOS type name.  A null GeometryPtr
      is `None` of an `Option<Geometry>`. */
  datatype Geometry =
    | Point(p: Coord)
    | LineString(pts: seq<Coord>)
    | Polygon(shell: seq<Coord>)
    | MultiLineString(lines: seq<seq<Coord>>)
    | MultiPolygon(shells: seq<seq<Coord>>)
    | Other(typeName: string)

  /** The foreign conversions:
      - `strtod`: the value strtod(s, nullptr) gives for the C string s;
      - `fixed`: the text `ostream << std::fixed << setprecision(n) << d` writes;
      - `scanDouble`: the value `istream >> double` reads when it takes one
        whole blank-delimited token, None when it does not.  The read is
        modelled as consuming the whole token: a token with a numeric
        prefix and trailing garbage (`1.5abc`), or one out of range
        (`1e400`), is a failed read storing 0.0, whereas the real stream
        stops inside the token (storing 1.5) or stores +-HUGE_VAL;
      - `isCCW`: geos::algorithm::Orientation::isCCW of a closed ring. */
  datatype Env = Env(
    strtod: string -> real,
    fixed: (real, nat) -> string,
    scanDouble: string -> Option<real>,
    isCCW: seq<Coord> -> bool)

  /** GMIF_DOUBLE_PRECISION: decimals of AttrValue's number-to-text cache. */
  const DoublePrecision: nat := 8
  /** GMIF_COORD_PRECISION: decimals of the coordinates the writer emits. */
  const CoordPrecision: nat := 6
  /** The default precision of an output stream: the decimals of the
      numbers the MID writer emits under std::fixed. */
  const StreamPrecision: nat := 6

  /** CoordinateSequence::reverse. */
  function Reverse<T>(s: seq<T>): (r: seq<T>)
    ensures |r| == |s|
  {
    if |s| == 0 then [] else Reverse(s[1..]) + [s[0]]
  }

  /** Reverse puts the i-th element from the end at position i. */
  lemma {:induction false} ReverseAt<T>(s: seq<T>)
    ensures forall i :: 0 <= i < |s| ==> Reverse(s)[i] == s[|s| - 1 - i]
    decreases |s|
  {
    if |s| > 0 {
      ReverseAt(s[1..]);
    }
  }

  lemma ReverseReverse<T>(s: seq<T>)
    ensures Reverse(Reverse(s)) == s
  {
    var r := Reverse(s);
    ReverseAt(s);
    ReverseAt(r);
    assert forall i :: 0 <= i < |s| ==> Reverse(r)[i] == r[|r| - 1 - i] == s[i];
  }
}
