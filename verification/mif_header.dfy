/** MifHeader: the header of a MIF file (version, character set, delimiter,
    coordinate system, transform, the Unique and Index lists) and its
    column table.  The column table keeps the names and the types in two
    parallel lists and a map from each lower-cased name to its position. */
module MifHeaders {
  import opened Wrappers
  import opened Utils

  const DefaultVersion: Uint32 := 300
  const CharSetNeutral: string := "Neutral"
  const CharSetChinese: string := "WindowsSimChinese"
  const CoordSysLL: string := "CoordSys Earth Projection 1, 0"
  const CoordSysMC: string :=
    "CoordSys NonEarth Units \"m\" Bounds (-40075452.7386, -19928981.8896) (40075452.7386, 19928981.8896)"

  /** A snapshot of a MifHeader's fields. */
  datatype HeaderState = HeaderState(
    version: Uint32,
    charset: string,
    delimiter: char,
    coordsys: string,
    transform: string,
    unique: seq<SizeT>,
    index: seq<SizeT>,
    names: seq<string>,
    types: seq<string>,
    colIndex: map<string, int>)

  /** What MifHeader() sets up: version 300, the simplified-Chinese Windows
      character set, a tab delimiter, longitude/latitude coordinates and no
      columns. */
  function DefaultHeader(): (h: HeaderState)
    ensures IndexConsistent(h)
  {
    HeaderState(DefaultVersion, CharSetChinese, '\t', CoordSysLL, "", [], [], [], [], map[])
  }

  /** The column table agrees with itself: as many types as names, every map
      entry points at a column whose lower-cased name is its key, and every
      column's lower-cased name points back at it. */
  predicate IndexConsistent(h: HeaderState) {
    && |h.names| == |h.types|
    && (forall k :: k in h.colIndex ==> 0 <= h.colIndex[k] < |h.names| && Lower(h.names[h.colIndex[k]]) == k)
    && (forall i :: 0 <= i < |h.names| ==> Lower(h.names[i]) in h.colIndex && h.colIndex[Lower(h.names[i])] == i)
  }

  // ---------------------------------------------------------------------
  // Queries (mif_header.cpp:17-30, 74-76)

  /** hasColumn: the lower-cased name is a key of the index map. */
  predicate HasColumn(h: HeaderState, lowerName: string) {
    lowerName in h.colIndex
  }

  /** getColumnIndex: the mapped position, or -1 for an unknown name. */
  function ColumnIndex(h: HeaderState, lowerName: string): (r: int)
    ensures r == -1 <==> !HasColumn(h, lowerName) || h.colIndex[lowerName] == -1
    ensures IndexConsistent(h) && HasColumn(h, lowerName) ==>
      0 <= r < |h.names| && Lower(h.names[r]) == lowerName
  {
    if lowerName in h.colIndex then h.colIndex[lowerName] else -1
  }

  /** getColumnName: vector::at, which throws out_of_range past the end. */
  function ColumnName(h: HeaderState, i: int): (r: Option<string>)
    ensures r.Some? <==> 0 <= i < |h.names|
    ensures r.Some? ==> r.value == h.names[i]
  {
    if 0 <= i < |h.names| then Some(h.names[i]) else None
  }

  /** getColumnType: vector::at on the type list. */
  function ColumnType(h: HeaderState, i: int): (r: Option<string>)
    ensures r.Some? <==> 0 <= i < |h.types|
    ensures r.Some? ==> r.value == h.types[i]
  {
    if 0 <= i < |h.types| then Some(h.types[i]) else None
  }

  // ---------------------------------------------------------------------
  // Column-table updates as functions: the answer and the new state.

  /** addColumn (mif_header.cpp:32-44): refused when the lower-cased name is
      already known; otherwise the name (as given) and the type are appended
      and the lower-cased name is mapped to the new last position. */
  function AddColumnSpec(h: HeaderState, name: string, colType: string): (r: (bool, HeaderState))
    ensures r.0 <==> !HasColumn(h, Lower(name))
    ensures !r.0 ==> r.1 == h
    ensures r.0 ==> r.1 == h.(names := h.names + [name], types := h.types + [colType],
                              colIndex := h.colIndex[Lower(name) := |h.names|])
  {
    var key := Lower(name);
    if key in h.colIndex then (false, h)
    else (true, h.(names := h.names + [name], types := h.types + [colType],
                   colIndex := h.colIndex[key := |h.names|]))
  }

  /** Erase position i of a list (vector::erase(begin() + i)). */
  function EraseAt<T>(s: seq<T>, i: nat): (r: seq<T>)
    requires i < |s|
    ensures |r| == |s| - 1
    ensures forall j :: 0 <= j < i ==> r[j] == s[j]
    ensures forall j :: i <= j < |r| ==> r[j] == s[j + 1]
  {
    s[..i] + s[i + 1..]
  }

  /** deleteColumnByIndex (mif_header.cpp:61-72): refused past the end;
      otherwise the column leaves both lists and its lower-cased name
      leaves the map.  The positions of later columns are not renumbered. */
  function DeleteColumnByIndexSpec(h: HeaderState, i: int): (r: (bool, HeaderState))
    requires |h.names| == |h.types|
    ensures r.0 <==> 0 <= i < |h.names|
    ensures !r.0 ==> r.1 == h
    ensures r.0 ==> r.1 == h.(names := EraseAt(h.names, i), types := EraseAt(h.types, i),
                              colIndex := h.colIndex - {Lower(h.names[i])})
  {
    if i < 0 || i >= |h.names| then (false, h)
    else (true, h.(names := EraseAt(h.names, i), types := EraseAt(h.types, i),
                   colIndex := h.colIndex - {Lower(h.names[i])}))
  }

  /** Where deleteColumnByName can erase without undefined behaviour: the
      position mapped to the name, if any, lies inside the lists. */
  predicate DeletableByName(h: HeaderState, name: string) {
    |h.names| == |h.types| &&
    (Lower(name) in h.colIndex ==> 0 <= h.colIndex[Lower(name)] < |h.names|)
  }

  /** deleteColumnByName (mif_header.cpp:46-59): refused for an unknown name;
      otherwise the mapped position leaves both lists and the name leaves
      the map.  Later positions are not renumbered. */
  function DeleteColumnByNameSpec(h: HeaderState, name: string): (r: (bool, HeaderState))
    requires DeletableByName(h, name)
    ensures r.0 <==> HasColumn(h, Lower(name))
    ensures !r.0 ==> r.1 == h
    ensures r.0 ==> var i := h.colIndex[Lower(name)];
      r.1 == h.(names := EraseAt(h.names, i), types := EraseAt(h.types, i),
                colIndex := h.colIndex - {Lower(name)})
  {
    var key := Lower(name);
    if key !in h.colIndex then (false, h)
    else
      var i := h.colIndex[key];
      (true, h.(names := EraseAt(h.names, i), types := EraseAt(h.types, i),
                colIndex := h.colIndex - {key}))
  }

  // ---------------------------------------------------------------------
  // What the updates do to the column table

  /** addColumn keeps the table consistent, finds the new column under its
      lower-cased name at the last position, and changes nothing when the
      name (in any letter case) is already there. */
  lemma AddColumnKeepsIndex(h: HeaderState, name: string, colType: string)
    requires IndexConsistent(h)
    ensures var (ok, h') := AddColumnSpec(h, name, colType);
      && IndexConsistent(h')
      && HasColumn(h', Lower(name))
      && (ok ==> ColumnIndex(h', Lower(name)) == |h.names| && ColumnName(h', |h.names|) == Some(name)
                 && ColumnType(h', |h.names|) == Some(colType))
      && (forall k :: HasColumn(h, k) ==> ColumnIndex(h', k) == ColumnIndex(h, k))
  {
    var (ok, h') := AddColumnSpec(h, name, colType);
    if ok {
      var key := Lower(name);
      forall k | k in h'.colIndex
        ensures 0 <= h'.colIndex[k] < |h'.names| && Lower(h'.names[h'.colIndex[k]]) == k
      {
        if k != key {
          assert h'.names[h'.colIndex[k]] == h.names[h.colIndex[k]];
        }
      }
      forall i | 0 <= i < |h'.names|
        ensures Lower(h'.names[i]) in h'.colIndex && h'.colIndex[Lower(h'.names[i])] == i
      {
        if i < |h.names| {
          assert h'.names[i] == h.names[i];
          assert Lower(h.names[i]) != key;
        }
      }
    }
  }

  /** Deleting by position keeps the table consistent exactly when the last
      column is deleted: otherwise the map still sends the names after it
      to their old positions. */
  lemma DeleteByIndexConsistentIffLast(h: HeaderState, i: int)
    requires IndexConsistent(h) && 0 <= i < |h.names|
    ensures IndexConsistent(DeleteColumnByIndexSpec(h, i).1) <==> i == |h.names| - 1
  {
    var h' := DeleteColumnByIndexSpec(h, i).1;
    var gone := Lower(h.names[i]);
    if i == |h.names| - 1 {
      forall k | k in h'.colIndex
        ensures 0 <= h'.colIndex[k] < |h'.names| && Lower(h'.names[h'.colIndex[k]]) == k
      {
        assert h.colIndex[k] != i;
      }
      forall j | 0 <= j < |h'.names|
        ensures Lower(h'.names[j]) in h'.colIndex && h'.colIndex[Lower(h'.names[j])] == j
      {
        assert h'.names[j] == h.names[j];
        assert Lower(h.names[j]) != gone;
      }
    } else {
      var moved := Lower(h.names[i + 1]);
      assert h'.names[i] == h.names[i + 1];
      assert moved != gone;
      assert h'.colIndex[moved] == i + 1;
    }
  }

  /** With a consistent table, deleting by name is deleting at the position
      the name maps to. */
  lemma DeleteByNameIsDeleteAtIndex(h: HeaderState, name: string)
    requires IndexConsistent(h) && HasColumn(h, Lower(name))
    ensures DeletableByName(h, name)
    ensures DeleteColumnByNameSpec(h, name) == DeleteColumnByIndexSpec(h, ColumnIndex(h, Lower(name)))
  {
    var i := h.colIndex[Lower(name)];
    assert Lower(h.names[i]) == Lower(name);
  }

  // ---------------------------------------------------------------------

  class MifHeader {
    var version: Uint32
    var charset: string
    var delimiter: char
    var coordsys: string
    var transform: string
    var unique: seq<SizeT>
    var index: seq<SizeT>
    var names: seq<string>
    var types: seq<string>
    var colIndex: map<string, int>

    function State(): HeaderState
      reads this
    {
      HeaderState(version, charset, delimiter, coordsys, transform, unique, index, names, types, colIndex)
    }

    constructor ()
      ensures State() == DefaultHeader()
    {
      version, charset, delimiter, coordsys, transform := DefaultVersion, CharSetChinese, '\t', CoordSysLL, "";
      unique, index, names, types, colIndex := [], [], [], [], map[];
    }

    method SetVersion(v: Uint32)
      modifies this
      ensures State() == old(State()).(version := v)
    {
      version := v;
    }

    method SetCharset(v: string)
      modifies this
      ensures State() == old(State()).(charset := v)
    {
      charset := v;
    }

    method SetDelimiter(v: char)
      modifies this
      ensures State() == old(State()).(delimiter := v)
    {
      delimiter := v;
    }

    method SetCoordsys(v: string)
      modifies this
      ensures State() == old(State()).(coordsys := v)
    {
      coordsys := v;
    }

    method SetTransform(v: string)
      modifies this
      ensures State() == old(State()).(transform := v)
    {
      transform := v;
    }

    method SetUniqueVec(v: seq<SizeT>)
      modifies this
      ensures State() == old(State()).(unique := v)
    {
      unique := v;
    }

    method SetIndexVec(v: seq<SizeT>)
      modifies this
      ensures State() == old(State()).(index := v)
    {
      index := v;
    }

    method AddColumn(name: string, colType: string) returns (ok: bool)
      modifies this
      ensures (ok, State()) == AddColumnSpec(old(State()), name, colType)
    {
      var lowerName := StrLower(name);
      if lowerName in colIndex {
        return false;
      }
      names := names + [name];
      types := types + [colType];
      colIndex := colIndex[lowerName := |names| - 1];
      return true;
    }

    method DeleteColumnByName(name: string) returns (ok: bool)
      requires DeletableByName(State(), name)
      modifies this
      ensures (ok, State()) == DeleteColumnByNameSpec(old(State()), name)
    {
      var lowerName := StrLower(name);
      if lowerName !in colIndex {
        return false;
      }
      var i := colIndex[lowerName];
      names := EraseAt(names, i);
      types := EraseAt(types, i);
      colIndex := colIndex - {lowerName};
      return true;
    }

    method DeleteColumnByIndex(i: SizeT) returns (ok: bool)
      requires |names| == |types|
      modifies this
      ensures (ok, State()) == DeleteColumnByIndexSpec(old(State()), i)
    {
      if i >= |names| {
        return false;
      }
      var lowerName := StrLower(names[i]);
      names := EraseAt(names, i);
      types := EraseAt(types, i);
      colIndex := colIndex - {lowerName};
      return true;
    }
  }
}
