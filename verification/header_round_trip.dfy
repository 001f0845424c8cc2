/** What WriteHeader writes, ReadHeader reads back: for every header whose
    fields the text format can carry, reading the written text from the
    default header gives the same header, status 0, and leaves the stream
    just after the Data line. */
module HeaderRoundTrip {
  import opened Utils
  import opened Streams
  import opened MifHeaders
  import opened IoHeader

  /** A line the reader takes as it is: not empty, without a line break and
      without trailing white space. */
  predicate CleanLine(l: string) {
    l != [] && '\n' !in l && StrTrimRightSpace(l) == l
  }

  /** A CoordSys or Transform line: the reader recognises it by its first
      blank-separated word and keeps it whole. */
  predicate KeywordTextLine(l: string, key: string) {
    CleanLine(l) && Lower(Split(l, " ")[0]) == key
  }

  /** A column name or type as the column lines carry it: one word, in
      lower case (the reader lower-cases column lines). */
  predicate ColumnWord(w: string) {
    w != [] && (forall k :: 0 <= k < |w| ==> w[k] !in SpaceWhite) && Lower(w) == w
  }

  /** The headers whose fields survive the text format. */
  predicate Writable(h: HeaderState) {
    && IndexConsistent(h)
    && ' ' !in h.charset && '\n' !in h.charset
    && (h.charset != [] ==> h.charset[0] != '"' && h.charset[|h.charset| - 1] != '"')
    && h.delimiter != ' ' && h.delimiter != '\n'
    && (forall k :: 0 <= k < |h.unique| ==> h.unique[k] <= Int32Max)
    && (forall k :: 0 <= k < |h.index| ==> h.index[k] <= Int32Max)
    && KeywordTextLine(h.coordsys, "coordsys")
    && (h.transform == [] || KeywordTextLine(h.transform, "transform"))
    && |h.names| <= Int32Max
    && (forall i :: 0 <= i < |h.names| ==> ColumnWord(h.names[i]) && ColumnWord(h.types[i]))
  }


  /** The write-read round trip of the header. */
  lemma HeaderRoundTrip(h: HeaderState, rest: string)
    requires Writable(h)
    ensures ReadHeaderSpec(Corrected, Open(HeaderText(h) + rest), DefaultHeader(), -1) == (Success, h, Open(rest))
  {
    var R := Unlines(ColumnLines(h, 0)) + ("Data\n" + rest);
    HeaderTextShape(h, rest);
    KeywordSectionReads(h, R);
    ColumnsAndData(h, rest);
  }

  /** Helper: the column lines and the Data line, read after the keyword
      lines. */
  lemma ColumnsAndData(h: HeaderState, rest: string)
    requires Writable(h)
    ensures ReadHeaderSpec(Corrected, Open(Unlines(ColumnLines(h, 0)) + ("Data\n" + rest)),
      h.(names := [], types := [], colIndex := map[]), |h.names|) == (Success, h, Open(rest))
  {
    ColumnSectionReads(h, 0, "Data\n" + rest);
    ColumnsUpToEnds(h);
    ReadDataLine(h, rest);
  }

  /** Helper: the header text is its keyword lines, its column lines and
      the Data line. */
  lemma HeaderTextShape(h: HeaderState, rest: string)
    requires |h.names| == |h.types|
    ensures HeaderText(h) + rest == Unlines(KeywordLines(h)) + (Unlines(ColumnLines(h, 0)) + ("Data\n" + rest))
  {
    UnlinesAppend(KeywordLines(h) + ColumnLines(h, 0), ["Data"]);
    UnlinesAppend(KeywordLines(h), ColumnLines(h, 0));
    assert Unlines(["Data"]) == "Data\n";
  }

  /** Helper: no columns at the start, all of them at the end. */
  lemma ColumnsUpToEnds(h: HeaderState)
    requires Writable(h)
    ensures ColumnsUpTo(h, 0) == h.(names := [], types := [], colIndex := map[])
    ensures ColumnsUpTo(h, |h.names|) == h
  {
    assert h.names[..0] == [] && h.types[..0] == [];
    assert IndexUpTo(h, 0) == map[];
    assert h.names[..|h.names|] == h.names && h.types[..|h.types|] == h.types;
    assert IndexUpTo(h, |h.names|) == h.colIndex;
  }

  // ---------------------------------------------------------------------
  // Reading clean lines one after the other

  /** One clean line read from the front of the stream. */
  lemma ReadOneLine(rd: Reading, l: string, rest: string, h: HeaderState, c: int)
    requires CleanLine(l)
    ensures ReadHeaderSpec(rd, Open(l + "\n" + rest), h, c) ==
      match LineStep(rd, h, c, l)
      case Next(h', c') => ReadHeaderSpec(rd, Open(rest), h', c')
      case Stop(s, h') => (s, h', Open(rest))
  {
    GetLineOfLine(l, rest, "");
  }

  /** Helper: a clean line that carries the reader on. */
  lemma StepRead(l: string, rest: string, h: HeaderState, c: int, h': HeaderState, c': int)
    requires CleanLine(l) && LineStep(Corrected, h, c, l) == Next(h', c')
    ensures ReadHeaderSpec(Corrected, Open(l + "\n" + rest), h, c) == ReadHeaderSpec(Corrected, Open(rest), h', c')
  {
    ReadOneLine(Corrected, l, rest, h, c);
  }

  /** The Data line ends the header with status 0. */
  lemma ReadDataLine(h: HeaderState, rest: string)
    ensures ReadHeaderSpec(Corrected, Open("Data\n" + rest), h, 0) == (Success, h, Open(rest))
  {
    assert "Data\n" + rest == "Data" + "\n" + rest;
    GetLineOfLine("Data", rest, "");
    EndsClean("Data");
    LowerOf("Data", "data");
    assert LineStep(Corrected, h, 0, "Data") == Stop(Success, h);
  }

  // ---------------------------------------------------------------------
  // Text facts

  /** Helper: a string with the given lower-case form. */
  lemma LowerOf(s: string, t: string)
    requires |s| == |t| && forall i :: 0 <= i < |s| ==> ToLowerChar(s[i]) == t[i]
    ensures Lower(s) == t
  {
  }

  /** Helper: a string without upper-case letters is its own lower case. */
  lemma LowerFixed(s: string)
    requires forall i :: 0 <= i < |s| ==> !IsUpperAscii(s[i])
    ensures Lower(s) == s
  {
  }

  /** Helper: a line ending in a non-blank is right-trimmed. */
  lemma EndsClean(l: string)
    requires l != [] && l[|l| - 1] !in SpaceWhite
    ensures StrTrimRightSpace(l) == l
  {
    TrimRightUnique(l, SpaceWhite, l);
  }

  /** Helper: two words joined by one blank split back into the two. */
  lemma SplitTwoWords(a: string, b: string)
    requires ' ' !in a && ' ' !in b
    ensures Split(a + " " + b, " ") == [a, b]
  {
    assert Join([a, b], " ") == a + " " + b by {
      assert [a, b][1..] == [b];
    }
    SplitOfJoin([a, b], ' ');
  }

  /** Helper: atoi reads back a written value of the int range. */
  lemma AtoiOfNat(n: nat)
    requires n <= Int32Max
    ensures Atoi(NatToString(n)) == n
  {
    ToIntOfIntToString(n, "");
    assert NatToString(n) + "" == NatToString(n);
  }

  /** Helper: atoi followed by the conversion to uint32_t reads back every
      uint32_t value, the large ones through wrap-around. */
  lemma AtoiOfUint32(v: Uint32)
    ensures ToUint32(Atoi(NatToString(v))) == v
  {
    ToIntOfIntToString(v, "");
    assert NatToString(v) + "" == NatToString(v);
    Uint32ThroughInt32(v);
  }

  /** Helper: a uint32_t value converted to int and back is unchanged. */
  lemma Uint32ThroughInt32(v: Uint32)
    ensures ToUint32(ToInt32(v)) == v
  {
    if v > Int32Max {
      assert ToInt32(v) == v - 0x1_0000_0000;
    }
  }

  // ---------------------------------------------------------------------
  // The keyword lines

  /** The text of an optional Unique or Index line; the key ends in a
      blank. */
  function ListText(key: string, ids: seq<SizeT>): string {
    if |ids| > 0 then key + JoinIds(ids) + "\n" else ""
  }

  /** The text of an optional Transform line. */
  function TransformText(t: string): string {
    if |t| > 0 then t + "\n" else ""
  }

  /** Helper: the keyword lines as text, line by line. */
  lemma KeywordTextShape(h: HeaderState, R: string)
    ensures Unlines(KeywordLines(h)) + R ==
      "Version " + NatToString(h.version) + "\n" + (
      "Charset \"" + h.charset + "\"" + "\n" + (
      "Delimiter \"" + [h.delimiter] + "\"" + "\n" + (
      ListText("Unique ", h.unique) + (
      ListText("Index ", h.index) + (
      h.coordsys + "\n" + (
      TransformText(h.transform) + (
      "Columns " + NatToString(|h.names|) + "\n" + R)))))))
  {
    var v, c, d := "Version " + NatToString(h.version), "Charset \"" + h.charset + "\"", "Delimiter \"" + [h.delimiter] + "\"";
    var u := if |h.unique| > 0 then ["Unique " + JoinIds(h.unique)] else [];
    var x := if |h.index| > 0 then ["Index " + JoinIds(h.index)] else [];
    var t := if |h.transform| > 0 then [h.transform] else [];
    var cl := "Columns " + NatToString(|h.names|);
    KeywordLinesShape(h);
    PeelKeywordText(v, c, d, u, x, h.coordsys, t, cl, R);
    UnlinesList("Unique ", h.unique);
    UnlinesList("Index ", h.index);
    UnlinesTransform(h.transform);
  }

  /** Helper: the keyword lines, nested to the right. */
  lemma KeywordLinesShape(h: HeaderState)
    ensures KeywordLines(h) ==
      ["Version " + NatToString(h.version)] + (
      ["Charset \"" + h.charset + "\""] + (
      ["Delimiter \"" + [h.delimiter] + "\""] + (
      (if |h.unique| > 0 then ["Unique " + JoinIds(h.unique)] else []) + (
      (if |h.index| > 0 then ["Index " + JoinIds(h.index)] else []) + (
      [h.coordsys] + (
      (if |h.transform| > 0 then [h.transform] else []) +
      ["Columns " + NatToString(|h.names|)]))))))
  {
  }

  /** Helper: the text of seven groups of lines, one group after the other. */
  lemma PeelKeywordText(v: string, c: string, d: string, u: seq<string>, x: seq<string>,
                        co: string, t: seq<string>, cl: string, R: string)
    ensures Unlines([v] + ([c] + ([d] + (u + (x + ([co] + (t + [cl]))))))) + R ==
      v + "\n" + (c + "\n" + (d + "\n" + (Unlines(u) + (Unlines(x) + (co + "\n" + (Unlines(t) + (cl + "\n" + R)))))))
  {
    var L5 := t + [cl];
    var L4 := [co] + L5;
    var L3 := x + L4;
    var L2 := u + L3;
    var L1 := [d] + L2;
    var L0 := [c] + L1;
    UnlinesPrefix([v], L0, R);
    UnlinesPrefix([c], L1, R);
    UnlinesPrefix([d], L2, R);
    UnlinesPrefix(u, L3, R);
    UnlinesPrefix(x, L4, R);
    UnlinesPrefix([co], L5, R);
    UnlinesPrefix(t, [cl], R);
    UnlinesOne(v);
    UnlinesOne(c);
    UnlinesOne(d);
    UnlinesOne(co);
    UnlinesOne(cl);
  }

  /** Helper: the lines of a + b, followed by R. */
  lemma UnlinesPrefix(a: seq<string>, b: seq<string>, R: string)
    ensures Unlines(a + b) + R == Unlines(a) + (Unlines(b) + R)
  {
    UnlinesAppend(a, b);
  }

  /** Helper: the text of an optional Unique or Index line. */
  lemma UnlinesList(key: string, ids: seq<SizeT>)
    ensures Unlines(if |ids| > 0 then [key + JoinIds(ids)] else []) == ListText(key, ids)
  {
    if |ids| > 0 {
      UnlinesOne(key + JoinIds(ids));
    }
  }

  /** Helper: the text of an optional Transform line. */
  lemma UnlinesTransform(t: string)
    ensures Unlines(if |t| > 0 then [t] else []) == TransformText(t)
  {
    if |t| > 0 {
      UnlinesOne(t);
    }
  }

  /** Helper: one line and its break. */
  lemma UnlinesOne(l: string)
    ensures Unlines([l]) == l + "\n"
  {
    assert [l][1..] == [];
  }

  /** The keyword lines take the default header to the given one without
      its columns, and set the column counter. */
  lemma KeywordSectionReads(h: HeaderState, R: string)
    requires Writable(h)
    ensures ReadHeaderSpec(Corrected, Open(Unlines(KeywordLines(h)) + R), DefaultHeader(), -1) ==
      ReadHeaderSpec(Corrected, Open(R), h.(names := [], types := [], colIndex := map[]), |h.names|)
  {
    var R3 := ListText("Unique ", h.unique) + (
      ListText("Index ", h.index) + (
      h.coordsys + "\n" + (
      TransformText(h.transform) + (
      "Columns " + NatToString(|h.names|) + "\n" + R))));
    KeywordTextShape(h, R);
    ReadFirstKeywords(h, R3);
    ReadLastKeywords(h, R);
  }

  /** Helper: the Version, Charset and Delimiter lines. */
  lemma ReadFirstKeywords(h: HeaderState, R3: string)
    requires Writable(h)
    ensures ReadHeaderSpec(Corrected, Open(
      "Version " + NatToString(h.version) + "\n" + (
      "Charset \"" + h.charset + "\"" + "\n" + (
      "Delimiter \"" + [h.delimiter] + "\"" + "\n" + R3))), DefaultHeader(), -1) ==
      ReadHeaderSpec(Corrected, Open(R3), DefaultHeader().(version := h.version, charset := h.charset, delimiter := h.delimiter), -1)
  {
    var h0 := DefaultHeader();
    var h1 := h0.(version := h.version);
    var h2 := h1.(charset := h.charset);
    var R2 := "Delimiter \"" + [h.delimiter] + "\"" + "\n" + R3;
    var R1 := "Charset \"" + h.charset + "\"" + "\n" + R2;
    ReadVersion(h0, h.version, R1);
    ReadCharset(h1, h.charset, R2);
    ReadDelimiter(h2, h.delimiter, R3);
  }

  /** Helper: the optional Unique and Index lines, CoordSys, the optional
      Transform line and Columns. */
  lemma ReadLastKeywords(h: HeaderState, R: string)
    requires Writable(h)
    ensures ReadHeaderSpec(Corrected, Open(
      ListText("Unique ", h.unique) + (
      ListText("Index ", h.index) + (
      h.coordsys + "\n" + (
      TransformText(h.transform) + (
      "Columns " + NatToString(|h.names|) + "\n" + R))))),
      DefaultHeader().(version := h.version, charset := h.charset, delimiter := h.delimiter), -1) ==
      ReadHeaderSpec(Corrected, Open(R), h.(names := [], types := [], colIndex := map[]), |h.names|)
  {
    var h3 := DefaultHeader().(version := h.version, charset := h.charset, delimiter := h.delimiter);
    var h4 := h3.(unique := h.unique);
    var h5 := h4.(index := h.index);
    var h6 := h5.(coordsys := h.coordsys);
    var h7 := h6.(transform := h.transform);
    var R7 := "Columns " + NatToString(|h.names|) + "\n" + R;
    var R6 := TransformText(h.transform) + R7;
    var R5 := h.coordsys + "\n" + R6;
    var R4 := ListText("Index ", h.index) + R5;
    ReadUnique(h3, h.unique, R4);
    ReadIndex(h4, h.index, R5);
    ReadCoordSys(h5, h.coordsys, R6);
    ReadTransform(h6, h.transform, R7);
    ReadColumns(h7, |h.names|, R);
    assert h7 == h.(names := [], types := [], colIndex := map[]);
  }

  /** The Version line sets the version, every uint32_t value reading
      back. */
  lemma ReadVersion(g: HeaderState, v: Uint32, R: string)
    ensures ReadHeaderSpec(Corrected, Open("Version " + NatToString(v) + "\n" + R), g, -1) ==
      ReadHeaderSpec(Corrected, Open(R), g.(version := v), -1)
  {
    NumberWord(v);
    AtoiOfUint32(v);
    VersionWords(g, NatToString(v), R);
  }

  /** The Charset line sets the character set, without its quotes. */
  lemma ReadCharset(g: HeaderState, cs: string, R: string)
    requires ' ' !in cs && '\n' !in cs
    requires cs != [] ==> cs[0] != '"' && cs[|cs| - 1] != '"'
    ensures ReadHeaderSpec(Corrected, Open("Charset \"" + cs + "\"" + "\n" + R), g, -1) ==
      ReadHeaderSpec(Corrected, Open(R), g.(charset := cs), -1)
  {
    var q := "\"" + cs + "\"";
    var l := "Charset \"" + cs + "\"";
    assert CleanLine(l) && Split(l, " ") == ["Charset", q] by {
      assert l == "Charset" + " " + q;
      SplitTwoWords("Charset", q);
      EndsClean(l);
    }
    QuotedTrims(cs);
    CharsetWords(g, l, q, R);
  }

  /** The Delimiter line sets the delimiter, the character between the
      quotes. */
  lemma ReadDelimiter(g: HeaderState, d: char, R: string)
    requires d != ' ' && d != '\n'
    ensures ReadHeaderSpec(Corrected, Open("Delimiter \"" + [d] + "\"" + "\n" + R), g, -1) ==
      ReadHeaderSpec(Corrected, Open(R), g.(delimiter := d), -1)
  {
    var q := "\"" + [d] + "\"";
    var l := "Delimiter \"" + [d] + "\"";
    assert CleanLine(l) && Split(l, " ") == ["Delimiter", q] by {
      assert l == "Delimiter" + " " + q;
      SplitTwoWords("Delimiter", q);
      EndsClean(l);
    }
    assert |q| == 3 && q[1] == d;
    DelimiterWords(g, l, q, R);
  }

  /** A written Unique line gives the list back (with the corrected
      reading of the list). */
  lemma ReadUnique(g: HeaderState, ids: seq<SizeT>, R: string)
    requires g.unique == []
    requires forall k :: 0 <= k < |ids| ==> ids[k] <= Int32Max
    ensures ReadHeaderSpec(Corrected, Open(ListText("Unique ", ids) + R), g, -1) ==
      ReadHeaderSpec(Corrected, Open(R), g.(unique := ids), -1)
  {
    if |ids| > 0 {
      var j := JoinIds(ids);
      var l := "Unique" + " " + j;
      assert ListText("Unique ", ids) + R == l + "\n" + R;
      assert CleanLine(l) && Split(l, " ") == ["Unique", j] && g.unique + IdList([j]) == ids by {
        ListLineFacts("Unique", ids);
      }
      UniqueWords(g, l, j, R);
    } else {
      assert ListText("Unique ", ids) + R == R;
      assert g.(unique := ids) == g;
    }
  }

  /** A written Index line gives the list back (with the corrected reading
      of the list). */
  lemma ReadIndex(g: HeaderState, ids: seq<SizeT>, R: string)
    requires g.index == []
    requires forall k :: 0 <= k < |ids| ==> ids[k] <= Int32Max
    ensures ReadHeaderSpec(Corrected, Open(ListText("Index ", ids) + R), g, -1) ==
      ReadHeaderSpec(Corrected, Open(R), g.(index := ids), -1)
  {
    if |ids| > 0 {
      var j := JoinIds(ids);
      var l := "Index" + " " + j;
      assert ListText("Index ", ids) + R == l + "\n" + R;
      assert CleanLine(l) && Split(l, " ") == ["Index", j] && g.index + IdList([j]) == ids by {
        ListLineFacts("Index", ids);
      }
      IndexWords(g, l, j, R);
    } else {
      assert ListText("Index ", ids) + R == R;
      assert g.(index := ids) == g;
    }
  }

  /** Helper: a written Unique or Index line is clean, has two words, and
      its list reads back. */
  lemma ListLineFacts(key: string, ids: seq<SizeT>)
    requires key != [] && ' ' !in key && '\n' !in key
    requires |ids| > 0
    requires forall k :: 0 <= k < |ids| ==> ids[k] <= Int32Max
    ensures var j := JoinIds(ids);
      CleanLine(key + " " + j) && Split(key + " " + j, " ") == [key, j] && IdList([j]) == ids
  {
    var j := JoinIds(ids);
    IdLineWords(ids);
    SplitTwoWords(key, j);
    EndsClean(key + " " + j);
    IdListReadsBack(ids);
  }

  /** The CoordSys line is kept whole. */
  lemma ReadCoordSys(g: HeaderState, l: string, R: string)
    requires KeywordTextLine(l, "coordsys")
    ensures ReadHeaderSpec(Corrected, Open(l + "\n" + R), g, -1) == ReadHeaderSpec(Corrected, Open(R), g.(coordsys := l), -1)
  {
    CoordSysItems(g, l);
    StepRead(l, R, g, -1, g.(coordsys := l), -1);
  }

  /** Helper: the step a CoordSys line makes. */
  lemma CoordSysItems(g: HeaderState, l: string)
    requires KeywordTextLine(l, "coordsys")
    ensures LineStep(Corrected, g, -1, l) == Next(g.(coordsys := l), -1)
  {
  }

  /** The Transform line, when there is one, is kept whole. */
  lemma ReadTransform(g: HeaderState, t: string, R: string)
    requires t == [] || KeywordTextLine(t, "transform")
    requires g.transform == []
    ensures ReadHeaderSpec(Corrected, Open(TransformText(t) + R), g, -1) == ReadHeaderSpec(Corrected, Open(R), g.(transform := t), -1)
  {
    if |t| > 0 {
      assert TransformText(t) + R == t + "\n" + R;
      TransformItems(g, t);
      StepRead(t, R, g, -1, g.(transform := t), -1);
    } else {
      assert TransformText(t) + R == R;
      assert g.(transform := t) == g;
    }
  }

  /** Helper: the step a Transform line makes. */
  lemma TransformItems(g: HeaderState, l: string)
    requires KeywordTextLine(l, "transform")
    ensures LineStep(Corrected, g, -1, l) == Next(g.(transform := l), -1)
  {
  }

  /** The Columns line sets the column counter. */
  lemma ReadColumns(g: HeaderState, n: nat, R: string)
    requires n <= Int32Max
    ensures ReadHeaderSpec(Corrected, Open("Columns " + NatToString(n) + "\n" + R), g, -1) == ReadHeaderSpec(Corrected, Open(R), g, n)
  {
    NumberWord(n);
    AtoiOfNat(n);
    ColumnsWords(g, NatToString(n), R);
  }

  /** Helper: a written number is one word that ends a line cleanly. */
  lemma NumberWord(n: nat)
    ensures var w := NatToString(n);
      w != [] && ' ' !in w && '\n' !in w && w[|w| - 1] !in SpaceWhite
  {
  }

  /** Helper: the quotes around a value that does not start or end with
      one are trimmed away. */
  lemma QuotedTrims(cs: string)
    requires cs != [] ==> cs[0] != '"' && cs[|cs| - 1] != '"'
    ensures StrTrim("\"" + cs + "\"", "\"") == cs
  {
    var q := "\"" + cs + "\"";
    if cs == [] {
      TrimLeftUnique(q, "\"", []);
      TrimRightUnique([], "\"", []);
    } else {
      assert q[1..] == cs + "\"";
      TrimLeftUnique(q, "\"", cs + "\"");
      assert (cs + "\"")[..|cs|] == cs;
      TrimRightUnique(cs + "\"", "\"", cs);
    }
  }

  /** Helper: a Version line whose two words are known. */
  lemma VersionWords(g: HeaderState, w: string, R: string)
    requires w != [] && ' ' !in w && '\n' !in w && w[|w| - 1] !in SpaceWhite
    ensures ReadHeaderSpec(Corrected, Open("Version " + w + "\n" + R), g, -1) == ReadHeaderSpec(Corrected, Open(R), g.(version := ToUint32(Atoi(w))), -1)
  {
    var l := "Version " + w;
    assert CleanLine(l) && Split(l, " ") == ["Version", w] by {
      assert l == "Version" + " " + w;
      SplitTwoWords("Version", w);
      EndsClean(l);
    }
    VersionLine(g, l, w, R);
  }

  /** Helper: a Version line read from the front of the stream. */
  lemma VersionLine(g: HeaderState, l: string, w: string, R: string)
    requires CleanLine(l) && Split(l, " ") == ["Version", w]
    ensures ReadHeaderSpec(Corrected, Open(l + "\n" + R), g, -1) == ReadHeaderSpec(Corrected, Open(R), g.(version := ToUint32(Atoi(w))), -1)
  {
    VersionItems(g, l, w);
    StepRead(l, R, g, -1, g.(version := ToUint32(Atoi(w))), -1);
  }

  /** Helper: the step a Version line makes. */
  lemma VersionItems(g: HeaderState, l: string, w: string)
    requires Split(l, " ") == ["Version", w]
    ensures LineStep(Corrected, g, -1, l) == Next(g.(version := ToUint32(Atoi(w))), -1)
  {
    LowerOf("Version", "version");
  }

  /** Helper: a Charset line whose two words are known. */
  lemma CharsetWords(g: HeaderState, l: string, w: string, R: string)
    requires CleanLine(l) && Split(l, " ") == ["Charset", w]
    ensures ReadHeaderSpec(Corrected, Open(l + "\n" + R), g, -1) == ReadHeaderSpec(Corrected, Open(R), g.(charset := StrTrim(w, "\"")), -1)
  {
    CharsetItems(g, l, w);
    StepRead(l, R, g, -1, g.(charset := StrTrim(w, "\"")), -1);
  }

  /** Helper: the step a Charset line makes. */
  lemma CharsetItems(g: HeaderState, l: string, w: string)
    requires Split(l, " ") == ["Charset", w]
    ensures LineStep(Corrected, g, -1, l) == Next(g.(charset := StrTrim(w, "\"")), -1)
  {
    LowerOf("Charset", "charset");
  }

  /** Helper: a Delimiter line whose two words are known. */
  lemma DelimiterWords(g: HeaderState, l: string, w: string, R: string)
    requires CleanLine(l) && Split(l, " ") == ["Delimiter", w] && |w| == 3
    ensures ReadHeaderSpec(Corrected, Open(l + "\n" + R), g, -1) == ReadHeaderSpec(Corrected, Open(R), g.(delimiter := w[1]), -1)
  {
    DelimiterItems(g, l, w);
    StepRead(l, R, g, -1, g.(delimiter := w[1]), -1);
  }

  /** Helper: the step a Delimiter line makes. */
  lemma DelimiterItems(g: HeaderState, l: string, w: string)
    requires Split(l, " ") == ["Delimiter", w] && |w| == 3
    ensures LineStep(Corrected, g, -1, l) == Next(g.(delimiter := w[1]), -1)
  {
    LowerOf("Delimiter", "delimiter");
  }

  /** Helper: a Unique line whose two words are known. */
  lemma UniqueWords(g: HeaderState, l: string, w: string, R: string)
    requires CleanLine(l) && Split(l, " ") == ["Unique", w]
    ensures ReadHeaderSpec(Corrected, Open(l + "\n" + R), g, -1) == ReadHeaderSpec(Corrected, Open(R), g.(unique := g.unique + IdList([w])), -1)
  {
    UniqueItems(g, l, w);
    StepRead(l, R, g, -1, g.(unique := g.unique + IdList([w])), -1);
  }

  /** Helper: the step a Unique line makes. */
  lemma UniqueItems(g: HeaderState, l: string, w: string)
    requires Split(l, " ") == ["Unique", w]
    ensures LineStep(Corrected, g, -1, l) == Next(g.(unique := g.unique + IdList([w])), -1)
  {
    LowerOf("Unique", "unique");
    assert ["Unique", w][1..] == [w];
  }

  /** Helper: an Index line whose two words are known. */
  lemma IndexWords(g: HeaderState, l: string, w: string, R: string)
    requires CleanLine(l) && Split(l, " ") == ["Index", w]
    ensures ReadHeaderSpec(Corrected, Open(l + "\n" + R), g, -1) == ReadHeaderSpec(Corrected, Open(R), g.(index := g.index + IdList([w])), -1)
  {
    IndexItems(g, l, w);
    StepRead(l, R, g, -1, g.(index := g.index + IdList([w])), -1);
  }

  /** Helper: the step an Index line makes. */
  lemma IndexItems(g: HeaderState, l: string, w: string)
    requires Split(l, " ") == ["Index", w]
    ensures LineStep(Corrected, g, -1, l) == Next(g.(index := g.index + IdList([w])), -1)
  {
    LowerOf("Index", "index");
    assert ["Index", w][1..] == [w];
  }

  /** Helper: a Columns line whose two words are known. */
  lemma ColumnsWords(g: HeaderState, w: string, R: string)
    requires w != [] && ' ' !in w && '\n' !in w && w[|w| - 1] !in SpaceWhite
    ensures ReadHeaderSpec(Corrected, Open("Columns " + w + "\n" + R), g, -1) == ReadHeaderSpec(Corrected, Open(R), g, Atoi(w))
  {
    var l := "Columns " + w;
    assert CleanLine(l) && Split(l, " ") == ["Columns", w] by {
      assert l == "Columns" + " " + w;
      SplitTwoWords("Columns", w);
      EndsClean(l);
    }
    ColumnsLine(g, l, w, R);
  }

  /** Helper: a Columns line read from the front of the stream. */
  lemma ColumnsLine(g: HeaderState, l: string, w: string, R: string)
    requires CleanLine(l) && Split(l, " ") == ["Columns", w]
    ensures ReadHeaderSpec(Corrected, Open(l + "\n" + R), g, -1) == ReadHeaderSpec(Corrected, Open(R), g, Atoi(w))
  {
    ColumnsItems(g, l, w);
    StepRead(l, R, g, -1, g, Atoi(w));
  }

  /** Helper: the step a Columns line makes. */
  lemma ColumnsItems(g: HeaderState, l: string, w: string)
    requires Split(l, " ") == ["Columns", w]
    ensures LineStep(Corrected, g, -1, l) == Next(g, Atoi(w))
  {
    LowerOf("Columns", "columns");
  }

  /** Helper: the written list of numbers. */
  lemma IdLineWords(ids: seq<SizeT>)
    requires |ids| > 0
    ensures var j := JoinIds(ids);
      ' ' !in j && '\n' !in j && |j| > 0 && IsDigit(j[|j| - 1])
  {
    var fs := seq(|ids|, k requires 0 <= k < |ids| => NatToString(ids[k]));
    JoinChars(fs, ",", ' ');
    JoinChars(fs, ",", '\n');
    JoinEnds(fs, ",");
  }

  /** Unique and Index lists as io.cpp:104-115 reads them: the writer
      joins the numbers with commas and no blank, so the line has one
      entry, and atoi of that entry stops at the first comma.  Every
      written list reads back as its first number alone, where the
      corrected reading gives the whole list back. */
  lemma UniqueListLost(ids: seq<SizeT>)
    requires |ids| > 0
    requires forall k :: 0 <= k < |ids| ==> ids[k] <= Int32Max
    ensures IdListAsWritten([JoinIds(ids)]) == [ids[0]]
    ensures IdList([JoinIds(ids)]) == ids
  {
    var fs := seq(|ids|, k requires 0 <= k < |ids| => NatToString(ids[k]));
    var j := JoinIds(ids);
    JoinEnds(fs, ",");
    forall k | 0 <= k < |j| && (k == 0 || k == |j| - 1) ensures j[k] !in "," {
    }
    TrimLeftUnique(j, ",", j);
    TrimRightUnique(j, ",", j);
    AtoiOfJoin(fs, ids[0]);
    IdListReadsBack(ids);
  }

  /** The whole reader as written on the Unique line its own writer
      produces: only the first number of the list is kept, and reading
      goes on. */
  lemma UniqueHeaderAsWritten(g: HeaderState, ids: seq<SizeT>, R: string)
    requires |ids| > 0
    requires forall k :: 0 <= k < |ids| ==> ids[k] <= Int32Max
    ensures ReadHeaderSpec(AsWritten, Open(ListText("Unique ", ids) + R), g, -1) ==
      ReadHeaderSpec(AsWritten, Open(R), g.(unique := g.unique + [ids[0]]), -1)
  {
    var j := JoinIds(ids);
    var l := "Unique" + " " + j;
    assert ListText("Unique ", ids) + R == l + "\n" + R;
    ListLineFacts("Unique", ids);
    UniqueListLost(ids);
    UniqueItemsAsWritten(g, l, j);
    ReadOneLine(AsWritten, l, R, g, -1);
  }

  /** Helper: the step a Unique line makes as written. */
  lemma UniqueItemsAsWritten(g: HeaderState, l: string, w: string)
    requires Split(l, " ") == ["Unique", w]
    ensures LineStep(AsWritten, g, -1, l) == Next(g.(unique := g.unique + IdListAsWritten([w])), -1)
  {
    LowerOf("Unique", "unique");
    assert ["Unique", w][1..] == [w];
  }

  /** The whole reader on a Delimiter line whose value is not one quoted
      character (`Delimiter ab`), whatever follows it: as written, the
      header ends there with 0, the code of success, and the header read
      so far; corrected, the reader fails with -1. */
  lemma BadDelimiterHeader(rd: Reading, g: HeaderState, w: string, R: string)
    requires w != [] && ' ' !in w && '\n' !in w && w[|w| - 1] !in SpaceWhite && |w| != 3
    ensures ReadHeaderSpec(rd, Open("Delimiter " + w + "\n" + R), g, -1) ==
      (if rd == AsWritten then Success else Failure, g, Open(R))
  {
    var l := "Delimiter " + w;
    assert CleanLine(l) && Split(l, " ") == ["Delimiter", w] by {
      assert l == "Delimiter" + " " + w;
      SplitTwoWords("Delimiter", w);
      EndsClean(l);
    }
    BadDelimiterItems(rd, g, l, w);
    ReadOneLine(rd, l, R, g, -1);
  }

  /** Helper: the step a malformed Delimiter line makes. */
  lemma BadDelimiterItems(rd: Reading, g: HeaderState, l: string, w: string)
    requires Split(l, " ") == ["Delimiter", w] && |w| != 3
    ensures LineStep(rd, g, -1, l) == Stop(if rd == AsWritten then Success else Failure, g)
  {
    LowerOf("Delimiter", "delimiter");
  }

  /** Helper: atoi of a comma-joined list reads its first number. */
  lemma AtoiOfJoin(fs: seq<string>, n: nat)
    requires |fs| > 0 && fs[0] == NatToString(n) && n <= Int32Max
    ensures Atoi(Join(fs, ",")) == n
  {
    var rest := if |fs| == 1 then "" else "," + Join(fs[1..], ",");
    assert Join(fs, ",") == NatToString(n) + rest;
    ToIntOfIntToString(n, rest);
  }

  /** The corrected reading of a written list gives the list back. */
  lemma IdListReadsBack(ids: seq<SizeT>)
    requires |ids| > 0
    requires forall k :: 0 <= k < |ids| ==> ids[k] <= Int32Max
    ensures IdList([JoinIds(ids)]) == ids
  {
    var fs := seq(|ids|, k requires 0 <= k < |ids| => NatToString(ids[k]));
    var j := JoinIds(ids);
    JoinEnds(fs, ",");
    forall k | 0 <= k < |j| && (k == 0 || k == |j| - 1) ensures j[k] !in "," {
    }
    TrimLeftUnique(j, ",", j);
    TrimRightUnique(j, ",", j);
    SplitOfJoin(fs, ',');
    var e := EntryIds(j);
    forall k | 0 <= k < |ids| ensures e[k] == ids[k] {
      AtoiOfNat(ids[k]);
    }
    assert [j][1..] == [];
  }

  // ---------------------------------------------------------------------
  // The column lines

  /** The index map restricted to the first i columns. */
  function IndexUpTo(h: HeaderState, i: nat): map<string, int> {
    map k | k in h.colIndex && h.colIndex[k] < i :: h.colIndex[k]
  }

  /** The header with only its first i columns. */
  function ColumnsUpTo(h: HeaderState, i: nat): HeaderState
    requires i <= |h.names| && i <= |h.types|
  {
    h.(names := h.names[..i], types := h.types[..i], colIndex := IndexUpTo(h, i))
  }

  /** The column lines from position i add the remaining columns one by
      one and count the counter down to 0. */
  lemma {:induction false} ColumnSectionReads(h: HeaderState, i: nat, R: string)
    requires Writable(h) && i <= |h.names|
    ensures ReadHeaderSpec(Corrected, Open(Unlines(ColumnLines(h, i)) + R), ColumnsUpTo(h, i), |h.names| - i) ==
      ReadHeaderSpec(Corrected, Open(R), ColumnsUpTo(h, |h.names|), 0)
    decreases |h.names| - i
  {
    if i < |h.names| {
      var j := i + 1;
      ColumnStepRead(h, i, j, R);
      ColumnSectionReads(h, j, R);
    } else {
      assert Unlines(ColumnLines(h, i)) + R == R;
    }
  }

  /** Helper: reading column i's line. */
  lemma ColumnStepRead(h: HeaderState, i: nat, j: nat, R: string)
    requires Writable(h) && i < |h.names| && j == i + 1
    ensures ReadHeaderSpec(Corrected, Open(Unlines(ColumnLines(h, i)) + R), ColumnsUpTo(h, i), |h.names| - i) ==
      ReadHeaderSpec(Corrected, Open(Unlines(ColumnLines(h, j)) + R), ColumnsUpTo(h, j), |h.names| - j)
  {
    ColumnTextStep(h, i, j, R);
    ReadColumnLine(h, i, j, Unlines(ColumnLines(h, j)) + R);
  }

  /** Helper: the column lines from i are column i's line and those from j. */
  lemma ColumnTextStep(h: HeaderState, i: nat, j: nat, R: string)
    requires |h.names| == |h.types| && i < |h.names| && j == i + 1
    ensures Unlines(ColumnLines(h, i)) + R ==
      "    " + h.names[i] + " " + h.types[i] + "\n" + (Unlines(ColumnLines(h, j)) + R)
  {
    var l := "    " + h.names[i] + " " + h.types[i];
    assert ColumnLines(h, i) == [l] + ColumnLines(h, j);
    UnlinesPrefix([l], ColumnLines(h, j), R);
    UnlinesOne(l);
  }

  /** Helper: column i's line read from the front of the stream. */
  lemma ReadColumnLine(h: HeaderState, i: nat, j: nat, tail: string)
    requires Writable(h) && i < |h.names| && j == i + 1
    ensures ReadHeaderSpec(Corrected, Open("    " + h.names[i] + " " + h.types[i] + "\n" + tail), ColumnsUpTo(h, i), |h.names| - i) ==
      ReadHeaderSpec(Corrected, Open(tail), ColumnsUpTo(h, j), |h.names| - j)
  {
    var l := "    " + h.names[i] + " " + h.types[i];
    ColumnLineWords(h.names[i], h.types[i]);
    ColumnLineClean(h, i);
    IndexStep(h, i);
    StepReadColumn(ColumnsUpTo(h, i), |h.names| - i, l, h.names[i], h.types[i], tail);
  }

  /** Helper: a clean column line whose words are known, read from the
      front of the stream. */
  lemma StepReadColumn(g: HeaderState, c: int, l: string, name: string, ty: string, R: string)
    requires c > 0 && CleanLine(l) && Split(Lower(StrTrimLeftSpace(l)), " ") == [name, ty]
    ensures ReadHeaderSpec(Corrected, Open(l + "\n" + R), g, c) == ReadHeaderSpec(Corrected, Open(R), AddColumnSpec(g, name, ty).1, c - 1)
  {
    ColumnLineStep(g, c, l, name, ty);
    StepRead(l, R, g, c, AddColumnSpec(g, name, ty).1, c - 1);
  }

  /** Helper: a column line whose words are known. */
  lemma ColumnLineStep(g: HeaderState, c: int, l: string, name: string, ty: string)
    requires c > 0 && Split(Lower(StrTrimLeftSpace(l)), " ") == [name, ty]
    ensures LineStep(Corrected, g, c, l) == Next(AddColumnSpec(g, name, ty).1, c - 1)
  {
  }

  /** Helper: the reader finds a written column's name and type again. */
  lemma ColumnLineWords(name: string, ty: string)
    requires ColumnWord(name) && ColumnWord(ty)
    ensures Split(Lower(StrTrimLeftSpace("    " + name + " " + ty)), " ") == [name, ty]
  {
    var l := "    " + name + " " + ty;
    var w := name + " " + ty;
    assert l == "    " + w;
    assert l[4..] == w;
    assert w[0] == name[0];
    TrimLeftUnique(l, SpaceWhite, w);
    forall k | 0 <= k < |w| ensures !IsUpperAscii(w[k]) {
      if k < |name| {
        assert w[k] == name[k] == Lower(name)[k];
      } else if k > |name| {
        assert w[k] == ty[k - |name| - 1] == Lower(ty)[k - |name| - 1];
      }
    }
    LowerFixed(w);
    assert ' ' !in name && ' ' !in ty by {
      assert ' ' in SpaceWhite;
    }
    SplitTwoWords(name, ty);
  }

  /** Helper: adding column i to the first i columns. */
  lemma IndexStep(h: HeaderState, i: nat)
    requires IndexConsistent(h) && i < |h.names|
    ensures AddColumnSpec(ColumnsUpTo(h, i), h.names[i], h.types[i]).1 == ColumnsUpTo(h, i + 1)
  {
    IndexUpToStep(h, i);
    assert h.names[..i] + [h.names[i]] == h.names[..i + 1];
    assert h.types[..i] + [h.types[i]] == h.types[..i + 1];
  }

  /** Helper: the index map of the first i + 1 columns. */
  lemma IndexUpToStep(h: HeaderState, i: nat)
    requires IndexConsistent(h) && i < |h.names|
    ensures Lower(h.names[i]) !in IndexUpTo(h, i)
    ensures IndexUpTo(h, i)[Lower(h.names[i]) := i] == IndexUpTo(h, i + 1)
  {
  }

  /** Helper: a column line is clean. */
  lemma ColumnLineClean(h: HeaderState, i: nat)
    requires Writable(h) && i < |h.names|
    ensures CleanLine("    " + h.names[i] + " " + h.types[i])
  {
    var name, ty := h.names[i], h.types[i];
    var l := "    " + name + " " + ty;
    assert '\n' in SpaceWhite;
    assert l[|l| - 1] == ty[|ty| - 1];
    EndsClean(l);
  }
}
