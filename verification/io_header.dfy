/** Reading and writing the MIF header (io.cpp:75-156 and 408-437).

    The reader takes the header line by line.  Before the Columns line each
    line is a keyword line; the Columns line says how many column lines
    follow; after them a Data (or None) line ends the header.  Every line is
    first trimmed of trailing white space and skipped when that leaves it
    empty.

    The reader is given a Reading.  AsWritten is the reader as io.cpp
    writes it.  Corrected differs in two lines only (see the findings in
    README): a Unique or Index entry is also split at commas, and a
    malformed Delimiter line fails with -1 instead of returning 0. */
module IoHeader {
  import opened Wrappers
  import opened Utils
  import opened Streams
  import opened MifHeaders

  /** The effect of one header line: go on with a new header and column
      counter, or stop with a status. */
  datatype LineResult = Next(h: HeaderState, colNum: int) | Stop(status: Status, h: HeaderState)

  /** Which reading of the Delimiter, Unique and Index lines the reader
      follows: the source's own, or the corrected one. */
  datatype Reading = AsWritten | Corrected

  // ---------------------------------------------------------------------
  // Unique and Index lists

  /** The numbers of one list entry: atoi of each comma-separated piece of
      the entry trimmed of commas, as a size_t. */
  function EntryIds(item: string): (r: seq<SizeT>)
    ensures |r| >= 1
  {
    PieceIds(Split(StrTrim(item, ","), ","))
  }

  /** atoi of each piece, as a size_t. */
  function PieceIds(pieces: seq<string>): (r: seq<SizeT>)
    ensures |r| == |pieces|
  {
    seq(|pieces|, k requires 0 <= k < |pieces| => ToSizeT(Atoi(pieces[k])))
  }

  /** The numbers of a Unique or Index line's entries (corrected reading). */
  function IdList(items: seq<string>): seq<SizeT> {
    if |items| == 0 then [] else EntryIds(items[0]) + IdList(items[1..])
  }

  /** The list as io.cpp:105-116 reads it: one number per blank-separated
      entry, atoi of the entry trimmed of commas. */
  function IdListAsWritten(items: seq<string>): (r: seq<SizeT>)
    ensures |r| == |items|
    ensures forall k :: 0 <= k < |items| ==> r[k] == ToSizeT(Atoi(StrTrim(items[k], ",")))
  {
    seq(|items|, k requires 0 <= k < |items| => ToSizeT(Atoi(StrTrim(items[k], ","))))
  }

  /** With entries that hold one number each (no comma inside) the corrected
      reading is the reading as written. */
  lemma {:induction false} IdListAgrees(items: seq<string>)
    requires forall k :: 0 <= k < |items| ==> ',' !in StrTrim(items[k], ",")
    ensures IdList(items) == IdListAsWritten(items)
  {
    if |items| > 0 {
      EntryWithoutComma(items[0]);
      IdListAgrees(items[1..]);
      AsWrittenCons(items);
    }
  }

  /** Helper: the corrected list, entry by entry. */
  lemma IdListCons(items: seq<string>)
    requires |items| > 0
    ensures IdList(items) == EntryIds(items[0]) + IdList(items[1..])
  {
  }

  /** Helper: the list as written, entry by entry. */
  lemma AsWrittenCons(items: seq<string>)
    requires |items| > 0
    ensures IdListAsWritten(items) == [ToSizeT(Atoi(StrTrim(items[0], ",")))] + IdListAsWritten(items[1..])
  {
  }

  /** Helper: an entry without a comma inside holds one number. */
  lemma EntryWithoutComma(item: string)
    requires ',' !in StrTrim(item, ",")
    ensures EntryIds(item) == [ToSizeT(Atoi(StrTrim(item, ",")))]
  {
    SplitWithoutSeparator(StrTrim(item, ","), ',');
  }

  /** Helper: a string without the separator character splits into itself. */
  lemma SplitWithoutSeparator(t: string, c: char)
    requires c !in t
    ensures Split(t, [c]) == [t]
  {
    forall k ensures !OccursAt(t, [c], k) {
      if 0 <= k && k + 1 <= |t| {
        assert t[k..k + 1][0] == t[k];
      }
    }
    SplitAbsent(t, [c]);
  }

  // ---------------------------------------------------------------------
  // One header line

  /** The Delimiter line: the value must be one character between quotes. */
  function DelimiterLine(h: HeaderState, colNum: int, items: seq<string>): (r: LineResult)
    ensures r.Next? <==> |items| == 2 && |items[1]| == 3
    ensures r.Next? ==> r == Next(h.(delimiter := items[1][1]), colNum)
    ensures r.Stop? ==> r == Stop(Failure, h)
  {
    if |items| != 2 then Stop(Failure, h)
    else if |items[1]| != 3 then Stop(Failure, h)
    else Next(h.(delimiter := items[1][1]), colNum)
  }

  /** The Delimiter line as io.cpp:96-103 writes it: a value of the wrong
      length returns `false`, which the `int` result turns into 0. */
  function DelimiterLineAsWritten(h: HeaderState, colNum: int, items: seq<string>): (r: LineResult)
    ensures |items| == 2 && |items[1]| != 3 ==> r == Stop(Returned(0), h)
    ensures |items| != 2 || |items[1]| == 3 ==> r == DelimiterLine(h, colNum, items)
  {
    if |items| != 2 then Stop(Failure, h)
    else if |items[1]| != 3 then Stop(Returned(0), h)
    else Next(h.(delimiter := items[1][1]), colNum)
  }

  /** As written, `Delimiter ab` ends the header with the code of success
      while the header keeps its old delimiter; corrected, it fails. */
  lemma BadDelimiterReportsSuccess(h: HeaderState)
    ensures DelimiterLineAsWritten(h, -1, ["Delimiter", "ab"]) == Stop(Success, h)
    ensures DelimiterLine(h, -1, ["Delimiter", "ab"]) == Stop(Failure, h)
  {
  }

  /** The numbers of a Unique or Index line's entries, in the given
      reading. */
  function Ids(rd: Reading, items: seq<string>): seq<SizeT> {
    if rd == AsWritten then IdListAsWritten(items) else IdList(items)
  }

  /** A line before the Columns line (io.cpp:84-125): the first blank-
      separated word, lower-cased, names the keyword; unknown words are
      ignored.  CoordSys and Transform keep the whole line; Projection
      appends it to the coordinate system.  A line that stops the reader
      leaves the header alone and fails with -1, except that as written a
      malformed Delimiter line returns 0. */
  function KeywordLine(rd: Reading, h: HeaderState, colNum: int, line: string): (r: LineResult)
    ensures r.Stop? ==> r.h == h
    ensures r.Stop? ==> r.status == Failure || (rd == AsWritten && r.status == Success && Lower(Split(line, " ")[0]) == "delimiter")
    ensures r.Next? && r.colNum != colNum ==> Lower(Split(line, " ")[0]) == "columns" && r.h == h
  {
    KeywordItems(rd, h, colNum, line, Split(line, " "))
  }

  /** KeywordLine once the line is split into its blank-separated words. */
  function KeywordItems(rd: Reading, h: HeaderState, colNum: int, line: string, items: seq<string>): (r: LineResult)
    requires |items| >= 1
    ensures r.Stop? ==> r.h == h
    ensures r.Stop? ==> r.status == Failure || (rd == AsWritten && r.status == Success && Lower(items[0]) == "delimiter")
    ensures r.Next? && r.colNum != colNum ==> Lower(items[0]) == "columns" && r.h == h
  {
    var key := Lower(items[0]);
    if key == "version" then
      if |items| != 2 then Stop(Failure, h) else Next(h.(version := ToUint32(Atoi(items[1]))), colNum)
    else if key == "charset" then
      if |items| != 2 then Stop(Failure, h) else Next(h.(charset := StrTrim(items[1], "\"")), colNum)
    else if key == "delimiter" then
      if rd == AsWritten then DelimiterLineAsWritten(h, colNum, items) else DelimiterLine(h, colNum, items)
    else if key == "unique" then Next(h.(unique := h.unique + Ids(rd, items[1..])), colNum)
    else if key == "index" then Next(h.(index := h.index + Ids(rd, items[1..])), colNum)
    else if key == "coordsys" then Next(h.(coordsys := line), colNum)
    else if key == "projection" then Next(h.(coordsys := h.coordsys + " " + line), colNum)
    else if key == "transform" then Next(h.(transform := line), colNum)
    else if key == "columns" then
      if |items| != 2 then Stop(Failure, h) else Next(h, Atoi(items[1]))
    else Next(h, colNum)
  }

  /** The two readings differ only on a Delimiter line whose value is not
      three characters long and on a Unique or Index line with an entry
      holding a comma inside. */
  lemma KeywordReadingsAgree(h: HeaderState, colNum: int, line: string, items: seq<string>)
    requires |items| >= 1
    requires Lower(items[0]) == "delimiter" && |items| == 2 ==> |items[1]| == 3
    requires Lower(items[0]) == "unique" || Lower(items[0]) == "index" ==>
      forall k :: 1 <= k < |items| ==> ',' !in StrTrim(items[k], ",")
    ensures KeywordItems(AsWritten, h, colNum, line, items) == KeywordItems(Corrected, h, colNum, line, items)
  {
    hide Atoi, StrTrim, ToUint32, EntryIds, DelimiterLine, DelimiterLineAsWritten;
    var key := Lower(items[0]);
    if key == "unique" || key == "index" {
      var es := items[1..];
      assert forall k :: 0 <= k < |es| ==> es[k] == items[k + 1];
      IdListAgrees(es);
      assert Ids(AsWritten, es) == Ids(Corrected, es);
    }
  }

  /** A column line (io.cpp:126-132): trimmed on the left, lower-cased, it
      must be exactly a name and a type; addColumn's refusal of a known name
      is ignored, and the counter goes down either way. */
  function ColumnLine(h: HeaderState, colNum: int, line: string): (r: LineResult)
    ensures r.Next? ==> r.colNum == colNum - 1
    ensures r.Next? ==> var items := Split(Lower(StrTrimLeftSpace(line)), " ");
      |items| == 2 && r.h == AddColumnSpec(h, items[0], items[1]).1
    ensures r.Stop? ==> r == Stop(Failure, h)
  {
    var items := Split(Lower(StrTrimLeftSpace(line)), " ");
    if |items| != 2 then Stop(Failure, h)
    else Next(AddColumnSpec(h, items[0], items[1]).1, colNum - 1)
  }

  /** The message of the runtime_error thrown for an unexpected line after
      the columns. */
  function UnsupportedLineMessage(lowerLine: string): string {
    "can`t support parse mif header: " + lowerLine
  }

  /** One non-empty, right-trimmed header line, by the column counter: a
      keyword line while it is negative, a column line while it is
      positive, and at zero a Data or None line ends the header, anything
      else throws. */
  function LineStep(rd: Reading, h: HeaderState, colNum: int, line: string): (r: LineResult)
    ensures colNum == 0 ==> r.Stop? && r.h == h
    ensures colNum == 0 ==> (r.status == Success <==> Lower(line) in {"data", "none"})
    ensures colNum == 0 && r.status != Success ==> r.status == Raised(UnsupportedLineMessage(Lower(line)))
  {
    if colNum < 0 then KeywordLine(rd, h, colNum, line)
    else if colNum > 0 then ColumnLine(h, colNum, line)
    else
      var low := Lower(line);
      if low == "data" || low == "none" then Stop(Success, h)
      else Stop(Raised(UnsupportedLineMessage(low)), h)
  }

  /** The measure that the reading loop lowers: unread text, then goodness. */
  function Progress(st: Stream): (nat, nat) {
    (|st.rest|, if st.Good() then 1 else 0)
  }

  /** ReadHeader from the given stream, header and column counter: the
      status, the header and the stream it leaves.  When the stream stops
      being good before a Data line, the result is 0 if the counter is 0
      (even without any Data line) and 1 otherwise. */
  function ReadHeaderSpec(rd: Reading, st: Stream, h: HeaderState, colNum: int): (r: (Status, HeaderState, Stream))
    decreases |st.rest|, if st.Good() then 1 else 0, 0
  {
    if !st.Good() then (if colNum != 0 then EndOfFile else Success, h, st)
    else
      var (raw, st1) := GetLine(st, "");
      HandleLineSpec(rd, st1, h, colNum, StrTrimRightSpace(raw))
  }

  /** The rest of one pass of the reading loop, once a line has been read
      and right-trimmed: an empty line is skipped, any other is one step. */
  function HandleLineSpec(rd: Reading, st: Stream, h: HeaderState, colNum: int, line: string): (r: (Status, HeaderState, Stream))
    decreases |st.rest|, if st.Good() then 1 else 0, 1
  {
    if line == "" then ReadHeaderSpec(rd, st, h, colNum)
    else
      match LineStep(rd, h, colNum, line)
      case Next(h', c') => ReadHeaderSpec(rd, st, h', c')
      case Stop(s, h') => (s, h', st)
  }

  /** The reader never fails on an exhausted stream: it returns 0 or 1 there
      according to the column counter, without touching the header. */
  lemma ReadHeaderAtEnd(rd: Reading, h: HeaderState, colNum: int)
    ensures ReadHeaderSpec(rd, Stream("", true, false), h, colNum).0 == (if colNum != 0 then EndOfFile else Success)
    ensures ReadHeaderSpec(rd, Open(""), h, colNum) == (if colNum != 0 then EndOfFile else Success, h, Stream("", true, true))
  {
  }

  // ---------------------------------------------------------------------
  // The reader

  /** The numbers of a Unique or Index line's entries, items[1..]. */
  method ParseIdList(items: seq<string>) returns (ids: seq<SizeT>)
    requires |items| >= 1
    ensures ids == IdList(items[1..])
  {
    ids := [];
    var i := 1;
    ghost var all := IdList(items[1..]);
    while i < |items|
      invariant 1 <= i <= |items|
      invariant ids + IdList(items[i..]) == all
    {
      var entryIds := ParseEntry(items[i]);
      IdListStep(items, i, ids, all);
      ids := ids + entryIds;
      i := i + 1;
    }
  }

  /** Helper: one pass of ParseIdList's loop. */
  lemma IdListStep(items: seq<string>, i: nat, ids: seq<SizeT>, all: seq<SizeT>)
    requires i < |items| && ids + IdList(items[i..]) == all
    ensures (ids + EntryIds(items[i])) + IdList(items[i + 1..]) == all
  {
    IdListCons(items[i..]);
    assert items[i..][1..] == items[i + 1..];
  }

  /** The numbers of a Unique or Index line's entries in the given
      reading. */
  method ParseIds(rd: Reading, items: seq<string>) returns (ids: seq<SizeT>)
    requires |items| >= 1
    ensures ids == Ids(rd, items[1..])
  {
    if rd == AsWritten {
      ids := ParseIdListAsWritten(items);
    } else {
      ids := ParseIdList(items);
    }
  }

  /** The entry loop as io.cpp:106-109 writes it: atoi of each entry
      trimmed of commas. */
  method ParseIdListAsWritten(items: seq<string>) returns (ids: seq<SizeT>)
    requires |items| >= 1
    ensures ids == IdListAsWritten(items[1..])
  {
    hide Atoi, StrTrim, ToSizeT;
    ids := [];
    var i := 1;
    while i < |items|
      invariant 1 <= i <= |items| && |ids| == i - 1
      invariant forall k :: 0 <= k < i - 1 ==> ids[k] == ToSizeT(Atoi(StrTrim(items[k + 1], ",")))
    {
      ids := ids + [ToSizeT(Atoi(StrTrim(items[i], ",")))];
      i := i + 1;
    }
    ghost var all := IdListAsWritten(items[1..]);
    assert forall k :: 0 <= k < |all| ==> all[k] == ids[k];
  }

  /** The numbers of one list entry. */
  method ParseEntry(item: string) returns (ids: seq<SizeT>)
    ensures ids == EntryIds(item)
  {
    var pieces := StrSplit(StrTrim(item, ","), ",");
    ghost var all := PieceIds(pieces);
    ids := [];
    var k := 0;
    while k < |pieces|
      invariant 0 <= k <= |pieces|
      invariant ids == all[..k]
    {
      PrefixSnoc(all, k);
      ids := ids + [ToSizeT(Atoi(pieces[k]))];
      k := k + 1;
    }
    assert all[..|pieces|] == all;
  }

  /** A keyword line applied to the header object. */
  method ApplyKeywordLine(rd: Reading, header: MifHeader, colNum: int, line: string) returns (stop: Option<Status>, newColNum: int)
    modifies header
    ensures KeywordLine(rd, old(header.State()), colNum, line) ==
      (if stop.Some? then Stop(stop.value, header.State()) else Next(header.State(), newColNum))
  {
    var items := StrSplit(line, " ");
    var key := StrLower(items[0]);
    newColNum := colNum;
    stop := None;
    if key == "version" {
      if |items| != 2 {
        return Some(Failure), colNum;
      }
      header.SetVersion(ToUint32(Atoi(items[1])));
    } else if key == "charset" {
      if |items| != 2 {
        return Some(Failure), colNum;
      }
      header.SetCharset(StrTrim(items[1], "\""));
    } else if key == "delimiter" {
      if |items| != 2 {
        return Some(Failure), colNum;
      }
      if |items[1]| != 3 {
        return Some(if rd == AsWritten then Success else Failure), colNum;  // as written: return false
      }
      header.SetDelimiter(items[1][1]);
    } else if key == "unique" {
      var ids := ParseIds(rd, items);
      header.SetUniqueVec(header.unique + ids);
    } else if key == "index" {
      var ids := ParseIds(rd, items);
      header.SetIndexVec(header.index + ids);
    } else if key == "coordsys" {
      header.SetCoordsys(line);
    } else if key == "projection" {
      header.SetCoordsys(header.coordsys + " " + line);
    } else if key == "transform" {
      header.SetTransform(line);
    } else if key == "columns" {
      if |items| != 2 {
        return Some(Failure), colNum;
      }
      newColNum := Atoi(items[1]);
    }
  }

  /** A column line applied to the header object. */
  method ApplyColumnLine(header: MifHeader, colNum: int, line: string) returns (stop: Option<Status>, newColNum: int)
    modifies header
    ensures ColumnLine(old(header.State()), colNum, line) ==
      (if stop.Some? then Stop(stop.value, header.State()) else Next(header.State(), newColNum))
  {
    var lower := StrLower(StrTrimLeftSpace(line));
    var items := StrSplit(lower, " ");
    if |items| != 2 {
      return Some(Failure), colNum;
    }
    var _ := header.AddColumn(items[0], items[1]);
    return None, colNum - 1;
  }

  /** ReadHeader (io.cpp:75-156): reads into `header` and hands back the
      status and the stream it leaves; with AsWritten it is the source's
      reader. */
  method ReadHeader(rd: Reading, st: Stream, header: MifHeader) returns (status: Status, st': Stream)
    modifies header
    ensures (status, header.State(), st') == ReadHeaderSpec(rd, st, old(header.State()), -1)
  {
    var line := "";
    var colNum := -1;
    st' := st;
    while st'.Good()
      invariant ReadHeaderSpec(rd, st', header.State(), colNum) == ReadHeaderSpec(rd, st, old(header.State()), -1)
      decreases |st'.rest|, if st'.Good() then 1 else 0
    {
      var got := GetLine(st', line);
      line, st' := got.0, got.1;
      line := StrTrimRightSpace(line);
      if line == "" {
        continue;
      }
      if colNum < 0 {
        var stop, c := ApplyKeywordLine(rd, header, colNum, line);
        if stop.Some? {
          return stop.value, st';
        }
        colNum := c;
      } else if colNum > 0 {
        var stop, c := ApplyColumnLine(header, colNum, line);
        if stop.Some? {
          return stop.value, st';
        }
        colNum := c;
      } else {
        var low := StrLower(line);
        if low == "data" || low == "none" {
          return Success, st';  // break; the counter is 0, so the result is 0
        }
        return Raised(UnsupportedLineMessage(low)), st';
      }
    }
    if colNum != 0 {
      return EndOfFile, st';
    }
    return Success, st';
  }

  // ---------------------------------------------------------------------
  // The writer

  /** out_vec: the numbers separated by commas. */
  function JoinIds(ids: seq<SizeT>): string {
    Join(seq(|ids|, k requires 0 <= k < |ids| => NatToString(ids[k])), ",")
  }

  /** The column lines from position i on: four blanks, name, blank, type. */
  function ColumnLines(h: HeaderState, i: nat): seq<string>
    requires |h.names| == |h.types| && i <= |h.names|
    decreases |h.names| - i
  {
    if i == |h.names| then [] else ["    " + h.names[i] + " " + h.types[i]] + ColumnLines(h, i + 1)
  }

  /** The header lines before the column lines; the Unique, Index and
      Transform lines only when they are not empty. */
  function KeywordLines(h: HeaderState): seq<string> {
    ["Version " + NatToString(h.version),
     "Charset \"" + h.charset + "\"",
     "Delimiter \"" + [h.delimiter] + "\""]
    + (if |h.unique| > 0 then ["Unique " + JoinIds(h.unique)] else [])
    + (if |h.index| > 0 then ["Index " + JoinIds(h.index)] else [])
    + [h.coordsys]
    + (if |h.transform| > 0 then [h.transform] else [])
    + ["Columns " + NatToString(|h.names|)]
  }

  /** The header lines WriteHeader writes, without their line breaks. */
  function HeaderLines(h: HeaderState): seq<string>
    requires |h.names| == |h.types|
  {
    KeywordLines(h) + ColumnLines(h, 0) + ["Data"]
  }

  /** Lines each followed by a line break. */
  function Unlines(ls: seq<string>): string {
    if |ls| == 0 then "" else ls[0] + "\n" + Unlines(ls[1..])
  }

  function HeaderText(h: HeaderState): string
    requires |h.names| == |h.types|
  {
    Unlines(HeaderLines(h))
  }

  /** out_vec (io.cpp:42-49) into a string. */
  method OutVec(ids: seq<SizeT>) returns (text: string)
    ensures text == JoinIds(ids)
  {
    text := "";
    var i := 0;
    ghost var fields := seq(|ids|, k requires 0 <= k < |ids| => NatToString(ids[k]));
    while i < |ids|
      invariant 0 <= i <= |ids|
      invariant text == Join(fields[..i], ",")
    {
      if i != 0 {
        text := text + ",";
      }
      text := text + NatToString(ids[i]);
      JoinPrefix(fields, i, ",");
      i := i + 1;
    }
    assert fields[..|ids|] == fields;
  }

  /** Helper: the text of lines joined in two parts. */
  lemma {:induction false} UnlinesAppend(a: seq<string>, b: seq<string>)
    ensures Unlines(a + b) == Unlines(a) + Unlines(b)
  {
    if |a| > 0 {
      UnlinesAppend(a[1..], b);
      assert (a + b)[1..] == a[1..] + b;
    } else {
      assert a + b == b;
    }
  }

  /** The lines WriteHeader writes before the column lines. */
  method WriteKeywordLines(h: HeaderState) returns (ls: seq<string>)
    ensures ls == KeywordLines(h)
  {
    ls := ["Version " + NatToString(h.version), "Charset \"" + h.charset + "\"", "Delimiter \"" + [h.delimiter] + "\""];
    if |h.unique| > 0 {
      var v := OutVec(h.unique);
      ls := ls + ["Unique " + v];
    }
    if |h.index| > 0 {
      var v := OutVec(h.index);
      ls := ls + ["Index " + v];
    }
    ls := ls + [h.coordsys];
    if |h.transform| > 0 {
      ls := ls + [h.transform];
    }
    ls := ls + ["Columns " + NatToString(|h.names|)];
  }

  /** Helper: the text of the column lines from i on. */
  lemma UnlinesColumnLines(h: HeaderState, i: nat)
    requires |h.names| == |h.types| && i < |h.names|
    ensures Unlines(ColumnLines(h, i)) == "    " + h.names[i] + " " + h.types[i] + "\n" + Unlines(ColumnLines(h, i + 1))
  {
    var l := "    " + h.names[i] + " " + h.types[i];
    assert ColumnLines(h, i) == [l] + ColumnLines(h, i + 1);
    assert ([l] + ColumnLines(h, i + 1))[1..] == ColumnLines(h, i + 1);
  }

  /** WriteHeader (io.cpp:408-437): nothing is written and -1 returned when
      CheckMifHeaderValid (`valid`) rejects the header. */
  method WriteHeader(h: HeaderState, valid: bool) returns (code: int, text: string)
    requires |h.names| == |h.types|
    ensures !valid ==> code == -1 && text == ""
    ensures valid ==> code == 0 && text == HeaderText(h)
  {
    if !valid {
      return -1, "";
    }
    var ls := WriteKeywordLines(h);
    var cols := WriteColumnLines(h);
    text := Unlines(ls) + cols + "Data\n";
    code := 0;
    HeaderTextParts(h);
  }

  /** The loop of WriteHeader over the columns. */
  method WriteColumnLines(h: HeaderState) returns (text: string)
    requires |h.names| == |h.types|
    ensures text == Unlines(ColumnLines(h, 0))
  {
    text := "";
    var i := 0;
    while i < |h.names|
      invariant 0 <= i <= |h.names|
      invariant text + Unlines(ColumnLines(h, i)) == Unlines(ColumnLines(h, 0))
    {
      var l := "    " + h.names[i] + " " + h.types[i];
      UnlinesColumnLines(h, i);
      text := text + l + "\n";
      i := i + 1;
    }
  }

  /** Helper: the header text in its three parts. */
  lemma HeaderTextParts(h: HeaderState)
    requires |h.names| == |h.types|
    ensures HeaderText(h) == Unlines(KeywordLines(h)) + Unlines(ColumnLines(h, 0)) + "Data\n"
  {
    UnlinesAppend(KeywordLines(h), ColumnLines(h, 0));
    UnlinesAppend(KeywordLines(h) + ColumnLines(h, 0), ["Data"]);
    assert Unlines(["Data"]) == "Data\n";
  }
}
