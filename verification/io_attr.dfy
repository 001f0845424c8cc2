/** Reading and writing the attribute part of a feature: one MID record,
    the fields of one line separated by the header's delimiter (io.cpp). */
module IoAttr {
  import opened Wrappers
  import opened Utils
  import opened Foreign
  import opened Streams
  import opened AttrValues
  import opened MifHeaders
  import opened MifElements

  /** How a column's values are read and written. */
  datatype ColType = StrCol | DoubleCol | IntCol

  /** `s.compare(0, |p|, p) == 0`: s starts with p. */
  predicate StartsWith(s: string, p: string) {
    |p| <= |s| && s[..|p|] == p
  }

  /** GetColType (io.cpp:31-40): integer and smallint columns hold integers,
      decimal and float columns hold numbers, every other column text.  The
      match is on a prefix of the (already lower-cased) type, so "decimal(10,2)"
      is a number column. */
  function GetColType(lowerType: string): (c: ColType)
    ensures c == IntCol <==> StartsWith(lowerType, "integer") || StartsWith(lowerType, "smallint")
    ensures c == DoubleCol <==> c != IntCol && (StartsWith(lowerType, "decimal") || StartsWith(lowerType, "float"))
  {
    if StartsWith(lowerType, "integer") || StartsWith(lowerType, "smallint") then IntCol
    else if StartsWith(lowerType, "decimal") || StartsWith(lowerType, "float") then DoubleCol
    else StrCol
  }

  /** The MapInfo column types, as the header reader lower-cases them.  The
      match is case-sensitive, and "int" alone is not an integer type. */
  lemma ColTypeExamples()
    ensures GetColType("integer") == IntCol && GetColType("smallint") == IntCol
    ensures GetColType("decimal(12,3)") == DoubleCol && GetColType("float") == DoubleCol
    ensures GetColType("char(20)") == StrCol && GetColType("date") == StrCol
    ensures GetColType("Integer") == StrCol && GetColType("int") == StrCol
  {
    assert "integer"[..7] == "integer";
    assert "smallint"[..8] == "smallint";
    assert "decimal(12,3)"[..7] == "decimal";
    assert "float"[..5] == "float";
    DiffersAt("smallint", "integer", 0);
    DiffersAt("decimal(12,3)", "integer", 0);
    DiffersAt("decimal(12,3)", "smallint", 0);
    DiffersAt("float", "integer", 0);
    DiffersAt("float", "smallint", 0);
    DiffersAt("float", "decimal", 0);
    DiffersAt("char(20)", "integer", 0);
    DiffersAt("char(20)", "smallint", 0);
    DiffersAt("char(20)", "decimal", 0);
    DiffersAt("char(20)", "float", 0);
    DiffersAt("Integer", "integer", 0);
    DiffersAt("Integer", "decimal", 0);
    DiffersAt("Integer", "float", 0);
  }

  /** Helper: a text that differs from p at position k does not start
      with p. */
  lemma DiffersAt(s: string, p: string, k: nat)
    requires k < |s| && k < |p| && s[k] != p[k]
    ensures !StartsWith(s, p)
  {
    if |p| <= |s| {
      assert s[..|p|][k] != p[k];
    }
  }

  // ---------------------------------------------------------------------
  // Reading (io.cpp:165-198)

  /** The value a field becomes: the field loses its surrounding quotes; an
      integer column holds atoi of it and a number column strtod of it, an
      empty field giving 0; any other column holds the text. */
  function FieldValue(c: ColType, item: string, env: Env): AttrState
  {
    var v := StrTrim(item, "\"");
    match c
    case IntCol => AttrState("", (if v == "" then 0 else Atoi(CStr(v))) as real, false, true)
    case DoubleCol => AttrState("", if v == "" then 0.0 else env.strtod(CStr(v)), false, true)
    case StrCol => AttrState(v, 0.0, true, false)
  }

  /** No column before i has the name of column i. */
  predicate FirstOf(names: seq<string>, i: nat)
    requires i < |names|
  {
    forall j :: 0 <= j < i ==> names[j] != names[i]
  }

  /** The values of the fields of a record, column by column. */
  function FieldValues(types: seq<string>, items: seq<string>, env: Env): (vs: seq<AttrState>)
    requires |types| == |items|
    ensures |vs| == |items|
    ensures forall i :: 0 <= i < |items| ==> vs[i] == FieldValue(GetColType(types[i]), items[i], env)
  {
    if |items| == 0 then []
    else [FieldValue(GetColType(types[0]), items[0], env)] + FieldValues(types[1..], items[1..], env)
  }

  /** The map after inserting the first n (name, value) pairs in order. */
  function InsertAll(names: seq<string>, vs: seq<AttrState>, n: nat): map<string, AttrState>
    requires n <= |names| && |names| == |vs|
  {
    if n == 0 then map[]
    else
      var m := InsertAll(names, vs, n - 1);
      if names[n - 1] in m then m else m[names[n - 1] := vs[n - 1]]
  }

  /** Every one of the first n names is a key of the map. */
  lemma {:induction false} InsertAllHas(names: seq<string>, vs: seq<AttrState>, n: nat)
    requires n <= |names| && |names| == |vs|
    ensures forall i :: 0 <= i < n ==> names[i] in InsertAll(names, vs, n)
  {
    if n > 0 {
      InsertAllHas(names, vs, n - 1);
    }
  }

  /** Every key of the map is one of the first n names. */
  lemma {:induction false} InsertAllOnly(names: seq<string>, vs: seq<AttrState>, n: nat)
    requires n <= |names| && |names| == |vs|
    ensures forall k :: k in InsertAll(names, vs, n) ==> exists i :: 0 <= i < n && names[i] == k
  {
    if n > 0 {
      InsertAllOnly(names, vs, n - 1);
      var m := InsertAll(names, vs, n - 1);
      forall k | k in InsertAll(names, vs, n)
        ensures exists i :: 0 <= i < n && names[i] == k
      {
        if k in m {
          var i :| 0 <= i < n - 1 && names[i] == k;
        } else {
          assert names[n - 1] == k;
        }
      }
    }
  }

  /** A name holds the value paired with its first occurrence: `insert`
      keeps the value a name already has. */
  lemma {:induction false} InsertAllFirst(names: seq<string>, vs: seq<AttrState>, n: nat)
    requires n <= |names| && |names| == |vs|
    ensures forall i :: 0 <= i < n && FirstOf(names, i) ==>
      names[i] in InsertAll(names, vs, n) && InsertAll(names, vs, n)[names[i]] == vs[i]
  {
    if n > 0 {
      InsertAllFirst(names, vs, n - 1);
      InsertAllHas(names, vs, n - 1);
      InsertAllHas(names, vs, n);
      var m := InsertAll(names, vs, n - 1);
      if names[n - 1] in m {
        InsertAllOnly(names, vs, n - 1);
        assert !FirstOf(names, n - 1) by {
          var j :| 0 <= j < n - 1 && names[j] == names[n - 1];
        }
      }
    }
  }

  /** The loop that skips blank lines: while the line is empty and the
      stream good, read a line and trim white space off both ends. */
  function SkipBlankLines(st: Stream, line: string): (r: (string, Stream))
    ensures r.0 == line || r.0 == [] || r.0[0] !in SpaceWhite
    ensures r.0 != "" || !r.1.Good()
    decreases |st.rest|, if st.Good() then 1 else 0
  {
    if line == "" && st.Good() then
      var (l, st') := GetLine(st, line);
      SkipBlankLines(st', StrTrimSpace(l))
    else (line, st)
  }

  /** What ReadSingleAttr hands back: its result, the map and the stream. */
  datatype AttrRead = AttrRead(status: Status, attrs: map<string, AttrState>, st: Stream)

  /** ReadSingleAttr as a function of the stream, the header's column table
      and delimiter, and the map passed in.  Running out of lines answers 1,
      a field count other than the column count -1, and both leave the map
      as it was; otherwise the map is cleared and filled column by column. */
  function ReadSingleAttrSpec(st: Stream, h: HeaderState, res: map<string, AttrState>, env: Env): (r: AttrRead)
    requires |h.names| == |h.types|
    ensures r.status in {Success, Failure, EndOfFile}
    ensures r.status != Success ==> r.attrs == res
    ensures r.status == EndOfFile <==> SkipBlankLines(st, "").0 == "" && SkipBlankLines(st, "").1.eof
    ensures r.status == Success ==>
      |SplitKeepQuot(SkipBlankLines(st, "").0, h.delimiter)| == |h.names|
  {
    var (line, st') := SkipBlankLines(st, "");
    if line == "" && st'.eof then AttrRead(EndOfFile, res, st')
    else
      var items := SplitKeepQuot(line, h.delimiter);
      if |h.names| != |items| then AttrRead(Failure, res, st')
      else AttrRead(Success, InsertAll(h.names, FieldValues(h.types, items, env), |items|), st')
  }

  /** A record read: every column's name is a key, every key a column's
      name, and a name holds the value of the first column that has it. */
  lemma ReadAttrFields(st: Stream, h: HeaderState, res: map<string, AttrState>, env: Env)
    requires |h.names| == |h.types|
    ensures var r := ReadSingleAttrSpec(st, h, res, env);
      var items := SplitKeepQuot(SkipBlankLines(st, "").0, h.delimiter);
      r.status == Success ==>
      && (forall i :: 0 <= i < |h.names| ==> h.names[i] in r.attrs)
      && (forall k :: k in r.attrs ==> exists i :: 0 <= i < |h.names| && h.names[i] == k)
      && (forall i :: 0 <= i < |h.names| && FirstOf(h.names, i) ==>
            r.attrs[h.names[i]] == FieldValue(GetColType(h.types[i]), items[i], env))
  {
    var items := SplitKeepQuot(SkipBlankLines(st, "").0, h.delimiter);
    if |items| == |h.names| {
      var vs := FieldValues(h.types, items, env);
      InsertAllHas(h.names, vs, |items|);
      InsertAllOnly(h.names, vs, |items|);
      InsertAllFirst(h.names, vs, |items|);
    }
  }

  /** ReadSingleAttr: `res` is replaced by a map of new AttrValues when a
      record is read. */
  method ReadSingleAttr(st: Stream, h: HeaderState, res: map<string, AttrValue>, env: Env)
    returns (status: Status, res': map<string, AttrValue>, st': Stream)
    requires |h.names| == |h.types|
    ensures var r := ReadSingleAttrSpec(st, h, Views(res), env);
      status == r.status && st' == r.st && Views(res') == r.attrs
    ensures status != Success ==> res' == res
    ensures status == Success ==> Unshared(res')
  {
    var line;
    line, st' := ReadNonBlankLine(st);
    if line == "" && st'.eof {
      return EndOfFile, res, st';
    }
    var items := StrSplitKeepQuot(line, h.delimiter);
    if |h.names| != |items| {
      return Failure, res, st';
    }
    res' := BuildRecord(h, items, env);
    HoldsViews(res', InsertAll(h.names, FieldValues(h.types, items, env), |items|));
    status := Success;
  }

  /** The blank-line loop at the head of ReadSingleAttr. */
  method ReadNonBlankLine(st: Stream) returns (line: string, st': Stream)
    ensures (line, st') == SkipBlankLines(st, "")
  {
    line := "";
    st' := st;
    while line == "" && st'.Good()
      invariant SkipBlankLines(st', line) == SkipBlankLines(st, "")
      decreases |st'.rest|, if st'.Good() then 1 else 0
    {
      var got := GetLine(st', line);
      line, st' := StrTrimSpace(got.0), got.1;
    }
  }

  /** The loop of ReadSingleAttr that fills the cleared map. */
  method BuildRecord(h: HeaderState, items: seq<string>, env: Env) returns (m: map<string, AttrValue>)
    requires |h.names| == |h.types| && |h.types| == |items|
    ensures Holds(m, InsertAll(h.names, FieldValues(h.types, items, env), |items|))
  {
    ghost var vs := FieldValues(h.types, items, env);
    m := map[];
    var i := 0;
    while i < |items|
      invariant 0 <= i <= |items|
      invariant Holds(m, InsertAll(h.names, vs, i))
    {
      m := InsertColumn(m, h, items, i, env);
      i := i + 1;
    }
  }

  /** One turn of BuildRecord's loop: column i's field goes in under the
      column's name. */
  method InsertColumn(m: map<string, AttrValue>, h: HeaderState, items: seq<string>, i: nat, env: Env)
    returns (m': map<string, AttrValue>)
    requires |h.names| == |h.types| && |h.types| == |items| && i < |items|
    requires Holds(m, InsertAll(h.names, FieldValues(h.types, items, env), i))
    ensures Holds(m', InsertAll(h.names, FieldValues(h.types, items, env), i + 1))
  {
    ghost var g := InsertAll(h.names, FieldValues(h.types, items, env), i);
    ghost var g';
    m', g' := InsertField(m, g, h.names[i], GetColType(h.types[i]), items[i], env);
  }

  /** The AttrValues of m hold the states g gives, and no two keys share
      an object. */
  predicate Holds(m: map<string, AttrValue>, g: map<string, AttrState>)
    reads m.Values
  {
    Unshared(m) && m.Keys == g.Keys && forall k :: k in m ==> m[k].View() == g[k]
  }

  /** Helper: the states m holds are its views. */
  lemma HoldsViews(m: map<string, AttrValue>, g: map<string, AttrState>)
    requires Holds(m, g)
    ensures Views(m) == g && Unshared(m)
  {
  }

  /** The body of the loop: make the field's value and insert it under
      the column's name; std::map::insert keeps the value a key already
      has. */
  method InsertField(m: map<string, AttrValue>, ghost g: map<string, AttrState>, name: string,
                     c: ColType, item: string, env: Env)
    returns (m': map<string, AttrValue>, ghost g': map<string, AttrState>)
    requires Holds(m, g)
    ensures Holds(m', g')
    ensures g' == if name in g then g else g[name := FieldValue(c, item, env)]
    ensures name in m ==> m' == m
    ensures name !in m ==> m'.Keys == m.Keys + {name} && forall k :: k in m ==> m'[k] == m[k]
  {
    var val := NewFieldValue(c, item, env);
    if name in m {
      m', g' := m, g;
    } else {
      m', g' := m[name := val], g[name := val.View()];
    }
  }

  /** The value a field becomes, as a new AttrValue. */
  method NewFieldValue(c: ColType, item: string, env: Env) returns (val: AttrValue)
    ensures fresh(val) && val.View() == FieldValue(c, item, env)
  {
    var v := StrTrim(item, "\"");
    if c == IntCol {
      val := new AttrValue.FromNumber((if v == "" then 0 else Atoi(CStr(v))) as real);
    } else if c == DoubleCol {
      val := new AttrValue.FromNumber(if v == "" then 0.0 else env.strtod(CStr(v)));
    } else {
      val := new AttrValue.FromText(v);
    }
  }

  /** Nothing but white space (line breaks included). */
  predicate Blank(s: string) {
    forall k :: 0 <= k < |s| ==> s[k] in SpaceWhite
  }

  /** Helper: trimming white space leaves nothing exactly when there is
      nothing but white space. */
  lemma TrimSpaceEmpty(l: string)
    ensures StrTrimSpace(l) == "" <==> Blank(l)
  {
    var x := StrTrimLeft(l, SpaceWhite);
    if x != [] {
      assert StrTrimRight(x, SpaceWhite) != [] by {
        assert x[0] !in SpaceWhite;
      }
    }
  }

  /** Helper: what skipping blank lines on a good stream finds. */
  lemma {:induction false} SkipBlankLinesAtEnd(st: Stream)
    requires st.Good()
    ensures var r := SkipBlankLines(st, ""); (r.0 == "" && r.1.eof) <==> Blank(st.rest)
    decreases |st.rest|
  {
    var (l, s1) := GetLine(st, "");
    TrimSpaceEmpty(l);
    if !s1.Good() {
      assert l == st.rest && s1.eof;
    } else if StrTrimSpace(l) == "" {
      SkipBlankLinesAtEnd(s1);
      BlankLines(l, s1.rest);
    } else {
      BlankLines(l, s1.rest);
    }
  }

  /** Helper: a text of a first line, a line break and the rest is blank
      when both parts are. */
  lemma BlankLines(l: string, rest: string)
    ensures Blank(l + "\n" + rest) <==> Blank(l) && Blank(rest)
  {
    var t := l + "\n" + rest;
    if Blank(t) {
      forall k | 0 <= k < |l| ensures l[k] in SpaceWhite {
        assert l[k] == t[k];
      }
      forall k | 0 <= k < |rest| ensures rest[k] in SpaceWhite {
        assert rest[k] == t[|l| + 1 + k];
      }
    }
  }

  /** On a good stream ReadSingleAttr answers 1 (end of file) exactly when
      nothing but white space and empty lines is left. */
  lemma ReadAttrAtEnd(st: Stream, h: HeaderState, res: map<string, AttrState>, env: Env)
    requires |h.names| == |h.types| && st.Good()
    ensures ReadSingleAttrSpec(st, h, res, env).status == EndOfFile <==> Blank(st.rest)
  {
    SkipBlankLinesAtEnd(st);
  }

  // ---------------------------------------------------------------------
  // Writing (io.cpp:439-461)

  /** The stored value of a name, if the element has one. */
  function Lookup(vals: map<string, AttrState>, name: string): (a: Option<AttrState>)
    ensures a.Some? <==> name in vals
  {
    if name in vals then Some(vals[name]) else None
  }

  /** What the writer prints for an integer column: the copy's getInt, or 0
      without a value. */
  function IntOf(a: Option<AttrState>, env: Env): int {
    if a.Some? then Trunc(GetDoubleSpec(a.value, env).0) else 0
  }

  /** For a number column: the copy's getDouble, or 0.0. */
  function DoubleOf(a: Option<AttrState>, env: Env): real {
    if a.Some? then GetDoubleSpec(a.value, env).0 else 0.0
  }

  /** For a text column: the copy's getStr, or the empty text. */
  function TextOf(a: Option<AttrState>, env: Env): string {
    if a.Some? then GetStrSpec(a.value, env).0 else ""
  }

  /** The text of one field: an integer in decimal, a number in fixed
      notation with the stream's default six decimals, a text in quotes. */
  function FieldText(c: ColType, a: Option<AttrState>, env: Env): string {
    match c
    case IntCol => IntToString(IntOf(a, env))
    case DoubleCol => env.fixed(DoubleOf(a, env), StreamPrecision)
    case StrCol => "\"" + TextOf(a, env) + "\""
  }

  /** The fields of the record of an element, one per header column. */
  function RecordFields(names: seq<string>, types: seq<string>, vals: map<string, AttrState>, env: Env): (fs: seq<string>)
    requires |names| == |types|
    ensures |fs| == |names|
    ensures forall i :: 0 <= i < |names| ==> fs[i] == FieldText(GetColType(types[i]), Lookup(vals, names[i]), env)
  {
    if |names| == 0 then []
    else [FieldText(GetColType(types[0]), Lookup(vals, names[0]), env)] + RecordFields(names[1..], types[1..], vals, env)
  }

  /** The line WriteElementAttr writes. */
  function RecordText(h: HeaderState, vals: map<string, AttrState>, env: Env): string
    requires |h.names| == |h.types|
  {
    Join(RecordFields(h.names, h.types, vals, env), [h.delimiter]) + "\n"
  }

  /** WriteElementAttr: reads each value through a copy, so the element
      keeps its caches as they were; it always answers true. */
  method WriteElementAttr(h: HeaderState, elem: MifElement, env: Env) returns (ok: bool, text: string)
    requires |h.names| == |h.types|
    ensures ok && text == RecordText(h, elem.Values(), env)
  {
    ghost var fs := RecordFields(h.names, h.types, elem.Values(), env);
    text := "";
    var i := 0;
    while i < |h.names|
      invariant 0 <= i <= |h.names|
      invariant text == Join(fs[..i], [h.delimiter])
    {
      text := AppendField(h, elem, env, i, text);
      i := i + 1;
    }
    assert fs[..|h.names|] == fs;
    text := text + "\n";
    ok := true;
  }

  /** One turn of WriteElementAttr's loop: a delimiter unless this is the
      first column, then the column's field. */
  method AppendField(h: HeaderState, elem: MifElement, env: Env, i: nat, text: string) returns (text': string)
    requires |h.names| == |h.types| && i < |h.names|
    requires text == Join(RecordFields(h.names, h.types, elem.Values(), env)[..i], [h.delimiter])
    ensures text' == Join(RecordFields(h.names, h.types, elem.Values(), env)[..i + 1], [h.delimiter])
  {
    ghost var fs := RecordFields(h.names, h.types, elem.Values(), env);
    text' := text;
    if i != 0 {
      text' := text' + [h.delimiter];
    }
    ghost var vals := elem.Values();
    var field := WriteField(GetColType(h.types[i]), elem, h.names[i], env);
    assert elem.Values() == vals;
    assert field == fs[i];
    JoinPrefix(fs, i, [h.delimiter]);
    text' := text' + field;
  }

  /** The body of WriteElementAttr's loop: copy the value out of the
      element (getAttr) and write it by the column's type. */
  method WriteField(c: ColType, elem: MifElement, name: string, env: Env) returns (field: string)
    ensures field == FieldText(c, Lookup(elem.Values(), name), env)
  {
    var val := new AttrValue();
    var hasCol := elem.GetAttrInto(name, val);
    ghost var a := Lookup(elem.Values(), name);
    assert hasCol ==> a == Some(val.View());
    if c == IntCol {
      var n := 0;
      if hasCol {
        n := val.GetInt(env);
      }
      field := IntToString(n);
    } else if c == DoubleCol {
      var d := 0.0;
      if hasCol {
        d := val.GetDouble(env);
      }
      field := env.fixed(d, StreamPrecision);
    } else {
      var s := "";
      if hasCol {
        s := val.GetStr(env);
      }
      field := "\"" + s + "\"";
    }
  }

  // ---------------------------------------------------------------------
  // Writing a record and reading it back

  /** What reading back a written field gives: an integer column keeps the
      truncated integer, a text column the text; a number column holds
      strtod of the six-decimal text of the number. */
  function ReadBack(c: ColType, a: Option<AttrState>, env: Env): AttrState {
    match c
    case IntCol => AttrState("", IntOf(a, env) as real, false, true)
    case DoubleCol => AttrState("", env.strtod(env.fixed(DoubleOf(a, env), StreamPrecision)), false, true)
    case StrCol => AttrState(TextOf(a, env), 0.0, true, false)
  }

  /** A character that needs no escaping in a field. */
  predicate Ordinary(ch: char) {
    ch != Quot && ch != Esc && ch != Nul && ch != '\n'
  }

  /** A field that reads back: an integer within int32 that the delimiter
      cannot cut; a number whose text is not empty, has no quote, backslash,
      NUL, line break or delimiter and does not begin or end with white
      space; a text without quotes, backslashes, NULs or line breaks (the
      quotes around it protect the delimiter and white space). */
  predicate FieldWritable(c: ColType, a: Option<AttrState>, sep: char, env: Env) {
    match c
    case IntCol => Int32Min <= IntOf(a, env) <= Int32Max && !IsDigit(sep) && sep != '-'
    case DoubleCol =>
      var f := env.fixed(DoubleOf(a, env), StreamPrecision);
      && |f| > 0 && f[0] !in SpaceWhite && f[|f| - 1] !in SpaceWhite
      && forall k :: 0 <= k < |f| ==> Ordinary(f[k]) && f[k] != sep
    case StrCol =>
      var s := TextOf(a, env);
      forall k :: 0 <= k < |s| ==> Ordinary(s[k])
  }

  /** A record that reads back: a consistent column table with at least one
      column, a delimiter that is not a quote, NUL or line break, and
      fields that read back. */
  predicate RecordWritable(h: HeaderState, vals: map<string, AttrState>, env: Env) {
    && IndexConsistent(h) && |h.names| >= 1
    && h.delimiter != Quot && h.delimiter != Nul && h.delimiter != '\n'
    && forall i :: 0 <= i < |h.names| ==> FieldWritable(GetColType(h.types[i]), Lookup(vals, h.names[i]), h.delimiter, env)
  }

  /** A field the reader cuts out whole and that keeps the line intact: no
      NUL, no line break, no white space at either end. */
  predicate CleanField(f: string, sep: char) {
    && (QuotedField(f) || PlainField(f, sep))
    && Nul !in f && '\n' !in f
    && |f| > 0 && f[0] !in SpaceWhite && f[|f| - 1] !in SpaceWhite
  }

  /** Each written field is read back whole, as ReadBack says. */
  lemma FieldRoundTrip(c: ColType, a: Option<AttrState>, sep: char, env: Env)
    requires FieldWritable(c, a, sep, env)
    ensures CleanField(FieldText(c, a, env), sep)
    ensures FieldValue(c, FieldText(c, a, env), env) == ReadBack(c, a, env)
  {
    match c
    case IntCol =>
      IntFieldClean(IntOf(a, env), sep);
      IntFieldRead(IntOf(a, env), env);
    case DoubleCol =>
      NumberFieldClean(env.fixed(DoubleOf(a, env), StreamPrecision), sep);
      NumberFieldRead(env.fixed(DoubleOf(a, env), StreamPrecision), env);
    case StrCol =>
      TextFieldClean(TextOf(a, env), sep);
      TextFieldRead(TextOf(a, env), env);
  }

  /** Helper: the characters of a written integer. */
  lemma IntToStringChars(n: int)
    ensures var t := IntToString(n);
      && |t| > 0 && IsDigit(t[|t| - 1])
      && forall k :: 0 <= k < |t| ==> IsDigit(t[k]) || (k == 0 && t[k] == '-')
  {
  }

  /** Helper: an integer field is clean when the delimiter is neither a
      digit nor a minus sign. */
  lemma IntFieldClean(n: int, sep: char)
    requires !IsDigit(sep) && sep != '-'
    ensures CleanField(IntToString(n), sep)
  {
    var t := IntToString(n);
    IntToStringChars(n);
    assert forall k :: 0 <= k < |t| ==> Ordinary(t[k]) && t[k] != sep;
    assert t[0] !in SpaceWhite && t[|t| - 1] !in SpaceWhite;
    EscapedPlain(t, sep);
  }

  /** Helper: an integer field reads back as its int32 value. */
  lemma IntFieldRead(n: int, env: Env)
    requires Int32Min <= n <= Int32Max
    ensures FieldValue(IntCol, IntToString(n), env) == AttrState("", n as real, false, true)
  {
    var t := IntToString(n);
    IntToStringChars(n);
    assert t[0] != Quot && t[|t| - 1] != Quot;
    assert Nul !in t by {
      assert forall k :: 0 <= k < |t| ==> t[k] != Nul;
    }
    TrimNothing(t, "\"");
    CStrOfNulFree(t);
    ToIntOfIntToString(n, "");
    assert t + "" == t;
  }

  /** Helper: a number field FieldWritable vouches for is clean. */
  lemma NumberFieldClean(f: string, sep: char)
    requires |f| > 0 && f[0] !in SpaceWhite && f[|f| - 1] !in SpaceWhite
    requires forall k :: 0 <= k < |f| ==> Ordinary(f[k]) && f[k] != sep
    ensures CleanField(f, sep)
  {
    EscapedPlain(f, sep);
  }

  /** Helper: a number field reads back as strtod of its text. */
  lemma NumberFieldRead(f: string, env: Env)
    requires |f| > 0 && forall k :: 0 <= k < |f| ==> Ordinary(f[k])
    ensures FieldValue(DoubleCol, f, env) == AttrState("", env.strtod(f), false, true)
  {
    assert f[0] != Quot && f[|f| - 1] != Quot;
    TrimNothing(f, "\"");
    CStrOfNulFree(f);
  }

  /** Helper: a quoted text field is clean whatever the delimiter. */
  lemma TextFieldClean(s: string, sep: char)
    requires forall k :: 0 <= k < |s| ==> Ordinary(s[k])
    ensures CleanField("\"" + s + "\"", sep)
  {
    var f := "\"" + s + "\"";
    assert forall k :: 0 < k < |f| - 1 ==> f[k] == s[k - 1];
    assert f[1..|f| - 1] == s;
    EscapedPlain(s, Quot);
    assert QuotedField(f);
  }

  /** Helper: a quoted text field loses exactly its quotes. */
  lemma TextFieldRead(s: string, env: Env)
    requires forall k :: 0 <= k < |s| ==> s[k] != Quot
    ensures FieldValue(StrCol, "\"" + s + "\"", env) == AttrState(s, 0.0, true, false)
  {
    var f := "\"" + s + "\"";
    if s == "" {
      assert StrTrimLeft(f, "\"") == [];
    } else {
      TrimLeftUnique(f, "\"", s + "\"");
      TrimRightUnique(s + "\"", "\"", s);
    }
  }

  /** The names of a consistent column table are distinct. */
  lemma NamesDistinct(h: HeaderState)
    requires IndexConsistent(h)
    ensures forall i :: 0 <= i < |h.names| ==> FirstOf(h.names, i)
  {
    forall i, j | 0 <= j < i < |h.names| ensures h.names[j] != h.names[i] {
      assert h.colIndex[Lower(h.names[i])] == i && h.colIndex[Lower(h.names[j])] == j;
    }
  }

  /** Helper: every field of a writable record is clean and reads back as
      ReadBack says. */
  lemma FieldsRoundTrip(h: HeaderState, vals: map<string, AttrState>, env: Env)
    requires RecordWritable(h, vals, env)
    ensures var fs := RecordFields(h.names, h.types, vals, env);
      forall i :: 0 <= i < |fs| ==> (CleanField(fs[i], h.delimiter) &&
        FieldValue(GetColType(h.types[i]), fs[i], env) == ReadBack(GetColType(h.types[i]), Lookup(vals, h.names[i]), env))
  {
    var fs := RecordFields(h.names, h.types, vals, env);
    forall i | 0 <= i < |fs|
      ensures CleanField(fs[i], h.delimiter)
      ensures FieldValue(GetColType(h.types[i]), fs[i], env) == ReadBack(GetColType(h.types[i]), Lookup(vals, h.names[i]), env)
    {
      FieldRoundTrip(GetColType(h.types[i]), Lookup(vals, h.names[i]), h.delimiter, env);
    }
  }

  /** Helper: clean fields joined by a delimiter that is not a quote, NUL
      or line break make a line with no line break and nothing to trim. */
  lemma LineOfFields(fs: seq<string>, d: char)
    requires d != Quot && d != Nul && d != '\n' && |fs| >= 1
    requires forall i :: 0 <= i < |fs| ==> CleanField(fs[i], d)
    ensures var line := Join(fs, [d]);
      line != "" && '\n' !in line && StrTrimSpace(line) == line
  {
    var line := Join(fs, [d]);
    JoinChars(fs, [d], '\n');
    JoinEnds(fs, [d]);
    TrimNothing(line, SpaceWhite);
  }

  /** Helper: the line splits back into its clean fields. */
  lemma SplitOfFields(fs: seq<string>, d: char)
    requires d != Quot && d != Nul && |fs| >= 1
    requires forall i :: 0 <= i < |fs| ==> CleanField(fs[i], d)
    ensures SplitKeepQuot(Join(fs, [d]), d) == fs
  {
    SplitKeepQuotOfJoin(fs, d);
  }

  /** Helper: skipping blank lines on a stream that starts with a trimmed,
      non-empty line stops after that line. */
  lemma SkipToLine(line: string, rest: string)
    requires line != "" && '\n' !in line && StrTrimSpace(line) == line
    ensures SkipBlankLines(Open(line + "\n" + rest), "") == (line, Open(rest))
  {
    GetLineOfLine(line, rest, "");
    assert SkipBlankLines(Open(rest), line) == (line, Open(rest));
  }

  /** Helper: reading a stream that starts with a non-blank, trimmed line. */
  lemma ReadLine(h: HeaderState, line: string, rest: string, res: map<string, AttrState>, env: Env)
    requires |h.names| == |h.types|
    requires line != "" && '\n' !in line && StrTrimSpace(line) == line
    requires |SplitKeepQuot(line, h.delimiter)| == |h.names|
    ensures ReadSingleAttrSpec(Open(line + "\n" + rest), h, res, env) ==
      AttrRead(Success, InsertAll(h.names, FieldValues(h.types, SplitKeepQuot(line, h.delimiter), env), |h.names|), Open(rest))
  {
    SkipToLine(line, rest);
  }

  /** Helper: the map read from the fields of a consistent column table
      has exactly the column names as keys, each with its field's value. */
  lemma MapOfRecord(h: HeaderState, fs: seq<string>, vals: map<string, AttrState>, env: Env)
    requires IndexConsistent(h) && |fs| == |h.names|
    requires forall i :: 0 <= i < |fs| ==>
      FieldValue(GetColType(h.types[i]), fs[i], env) == ReadBack(GetColType(h.types[i]), Lookup(vals, h.names[i]), env)
    ensures var m := InsertAll(h.names, FieldValues(h.types, fs, env), |fs|);
      && (forall k :: k in m <==> k in h.names)
      && forall i :: 0 <= i < |h.names| ==>
           h.names[i] in m && m[h.names[i]] == ReadBack(GetColType(h.types[i]), Lookup(vals, h.names[i]), env)
  {
    var vs := FieldValues(h.types, fs, env);
    var m := InsertAll(h.names, vs, |fs|);
    InsertAllHas(h.names, vs, |fs|);
    InsertAllOnly(h.names, vs, |fs|);
    InsertAllFirst(h.names, vs, |fs|);
    NamesDistinct(h);
    forall k | k in m ensures k in h.names {
      var i :| 0 <= i < |fs| && h.names[i] == k;
    }
  }

  /** Writing a record and reading it back: the reader answers 0, stops
      after the line, and finds every column under its name with the value
      ReadBack gives (the text of a text column, the integer of an integer
      column, strtod of the six-decimal text of a number). */
  lemma AttrRoundTrip(h: HeaderState, vals: map<string, AttrState>, res: map<string, AttrState>, env: Env, rest: string)
    requires RecordWritable(h, vals, env)
    ensures var r := ReadSingleAttrSpec(Open(RecordText(h, vals, env) + rest), h, res, env);
      && r.status == Success && r.st == Open(rest)
      && (forall k :: k in r.attrs <==> k in h.names)
      && forall i :: 0 <= i < |h.names| ==>
           h.names[i] in r.attrs && r.attrs[h.names[i]] == ReadBack(GetColType(h.types[i]), Lookup(vals, h.names[i]), env)
  {
    var fs := RecordFields(h.names, h.types, vals, env);
    var line := Join(fs, [h.delimiter]);
    FieldsRoundTrip(h, vals, env);
    LineOfFields(fs, h.delimiter);
    SplitOfFields(fs, h.delimiter);
    assert RecordText(h, vals, env) + rest == line + "\n" + rest;
    ReadLine(h, line, rest, res, env);
    MapOfRecord(h, fs, vals, env);
  }
}
