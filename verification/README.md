# gmif: a Dafny model of the MIF/MID reader and writer

gmif reads and writes MapInfo Interchange Format layers. A layer is a pair of files:

- the `.mif` file holds a header and one geometry record per feature;
- the `.mid` file holds one delimited attribute record per feature.

This project models the library's core and proves properties of the model:

- the string helpers: case folding, trimming, the plain splitter and the quote-aware splitter;
- the `AttrValue` two-bit cache;
- the `MifHeader` column table;
- the `MifElement` attribute map;
- the readers and writers of headers, attribute records and geometry records.

The main results are:

- every method is proved against a specification function;
- three write/read round trips: `HeaderRoundTrip.HeaderRoundTrip`, `IoAttr.AttrRoundTrip` and `GeoRoundTrip.GeoRoundTrip`, combined into `ElementRoundTrip.ElementBack` for a whole feature;
- the column-table invariant: it is kept by `addColumn`, and kept by a deletion exactly when the last column is deleted;
- how the splitters relate to joining;
- the `AttrValue` comparison laws and their failures.

## Modules

| module | file | models |
|---|---|---|
| `Wrappers` | `wrappers.dfy` | `Option` |
| `Utils` | `utils.dfy` | `src/utils.cpp`; `atoi`/`strtol` and the integer conversions the callers apply |
| `Foreign` | `foreign.dfy` | GEOS values (`Coord`, `Geometry`); the parameters `strtod`, `std::fixed` output, `>> double` and `Orientation::isCCW` |
| `Streams` | `streams.dfy` | `std::istream` as unread text plus eof/fail bits; `getline`; `>> int`; `>> double`; the status codes 0/-1/1 and escaping exceptions |
| `AttrValues` | `attr_value.dfy` | `class AttrValue` |
| `MifHeaders` | `mif_header.dfy` | `class MifHeader` and its column table |
| `MifElements` | `mif_element.dfy` | `class MifElement` |
| `IoHeader` | `io_header.dfy` | `ReadHeader`, `WriteHeader`, `out_vec` |
| `IoAttr` | `io_attr.dfy` | `GetColType`, `ReadSingleAttr`, `WriteElementAttr` |
| `IoGeo` | `io_geo.dfy` | `IsStyleKeyWord`, `ReadCoordSeq`, `ReadLineString`, `ReadPolygon` |
| `IoGeoRead` | `io_geo_read.dfy` | `ReadSingleGeo` |
| `IoGeoWrite` | `io_geo_write.dfy` | `WriteElementGeo` |
| `IoElement` | `io_element.dfy` | `ReadSingleElement`, `WriteSingleElement` |
| `HeaderRoundTrip` | `header_round_trip.dfy` | header write/read |
| `GeoRoundTrip` | `geo_round_trip.dfy` | geometry write/read |
| `ElementRoundTrip` | `element_round_trip.dfy` | feature write/read |

### How the source is represented

- **Strings** are `seq<char>`. An in-place string operation (`StrLower`, the trims) returns the new string.
- **C strings.** A C string seen through `c_str()` is `CStr`: the text up to its first NUL.
- **Streams.** An input stream is a `Stream` value holding the unread text and the eof and fail bits. A reader returns the stream it leaves. The MIF and MID output streams are the strings the writers append to.
- **Status.** A reader's `int` result is `Status`:
  - `Returned(0)` is `Success`;
  - `Returned(-1)` is `Failure`;
  - `Returned(1)` is `EndOfFile`;
  - `Raised(msg)` is an exception escaping the reader, such as the `runtime_error` of `ReadHeader` or `std::vector`'s `length_error` for a negative `PLINE MULTIPLE` count.
- **Integer parsing is exact.**
  - `strtol` is the decimal prefix after blanks, saturated to 64 bits.
  - `atoi` is `(int) strtol`, wrapped to 32 bits.
  - `uint32_t` and `size_t` conversions wrap modulo 2^32 and 2^64.
- **Floating-point conversions are parameters** of an `Env` value: `strtod`, `std::fixed` formatting, `istream >> double` and `isCCW`. For `istream >> double` the parameter gives only the value of a whole blank-delimited token; how much of the token is consumed is fixed by the model (see Left out). Doubles are `real`. `DoubleEqual` compares against 10^-8 exactly.
- **Two readings of the header.** The header reader takes a `Reading`. `AsWritten` is the reader as io.cpp writes it, defects included; `Corrected` differs only on a malformed Delimiter line and on Unique/Index entries holding commas (see Findings). The header round trip is proved for `Corrected`.
- **Classes** with state that the source updates in place are Dafny classes, each with a value snapshot (`AttrValue.View()`, `MifHeader.State()`, `MifElement.Values()`):
  - `AttrValue` holds text, number and two flag bits;
  - `MifHeader` holds its fields and the column table;
  - `MifElement` holds its geometry and a map of `AttrValue` objects.

## Model

| member | source | states |
|---|---|---|
| Utils.Lower | src/utils.cpp:21-27 | same length; no upper-case ASCII letter is left; every other character is kept; each upper-case letter becomes its lower-case letter |
| Utils.Upper | src/utils.cpp:29-35 | the mirror of Lower: same length, no lower-case letter left, other characters kept, each lower-case letter raised |
| Utils.StrLower | src/utils.cpp:21-27 | the character loop turns the string into its lower-case form |
| Utils.StrUpper | src/utils.cpp:29-35 | the character loop turns the string into its upper-case form |
| Utils.LowerIdempotent | src/utils.cpp:21-35 | lower-casing twice is lower-casing once; lower-casing forgets an earlier upper-casing |
| Utils.FindFirstNotOf | src/utils.cpp:38 | the first position at or after `from` whose character is outside the set; every character before it is inside |
| Utils.FindLastNotOf | src/utils.cpp:47 | the last position whose character is outside the set; every character after it is inside |
| Utils.StrTrimLeft | src/utils.cpp:37-44 | a suffix of the input that is empty or starts outside the set; everything dropped is in the set; the result is empty exactly when every character is in the set |
| Utils.StrTrimRight | src/utils.cpp:46-53 | a prefix of the input that is empty or ends outside the set; everything dropped is in the set; the result is empty exactly when every character is in the set |
| Utils.StrTrim | src/utils.cpp:55-58 | trimming both ends is the left trim followed by the right trim; what it keeps is stated by TrimIsSlice |
| Utils.StrTrimLeftSpace | src/utils.cpp:60-62 | the left trim over the blanks `"\n\r\t\f\v "` |
| Utils.StrTrimRightSpace | src/utils.cpp:64-66 | the right trim over the same blanks |
| Utils.StrTrimSpace | src/utils.cpp:68-71 | the left then the right trim over the same blanks |
| Utils.TrimIsSlice | src/utils.cpp:55-58 | StrTrim keeps one contiguous slice that starts and ends outside the set, and drops only set characters on both sides |
| Utils.TrimIdempotent | src/utils.cpp:37-58 | trimming left, right or both twice equals trimming once |
| Utils.TrimNothing | src/utils.cpp:37-58 | a text that starts and ends outside the set is left as it is |
| Utils.TrimIgnoresPadding | src/utils.cpp:55-71 | set characters added around a text do not change what StrTrim (and so StrTrimSpace, over `"\n\r\t\f\v "`) gives |
| Utils.Find | src/utils.cpp:76-81 | `find` returns a position at or after `from` where the separator occurs |
| Utils.FindFirst | src/utils.cpp:76-81 | no occurrence starts between `from` and the position `find` returns |
| Utils.SplitFrom | src/utils.cpp:73-89 | the fields from a start position: at least one |
| Utils.Split | src/utils.cpp:73-89 | the fields of the whole text, scanning from position 0; SplitJoin, SplitFieldsFree and SplitOfJoin state what they are |
| Utils.StrSplit | src/utils.cpp:73-89 | the find/substr loop returns exactly the fields of Split |
| Utils.SplitJoin | src/utils.cpp:73-89 | the fields joined with the separator give back the input |
| Utils.SplitFieldsFree | src/utils.cpp:73-89 | no field contains the separator |
| Utils.SplitAbsent | src/utils.cpp:83-88 | a text without the separator comes back as its only field |
| Utils.SplitOfJoin | src/utils.cpp:73-89 | splitting a join at a one-character separator that no field contains gives the fields back |
| Utils.CStr | src/utils.cpp:113 | the text seen through `c_str()`: a NUL-free prefix, stopped by a NUL when shorter |
| Utils.CStrOfNulFree | src/utils.cpp:113 | a string without NUL is its own C string |
| Utils.QuotEnd | src/utils.cpp:91-101 | the corrected quoted scan stays within the string |
| Utils.NormalEnd | src/utils.cpp:103-109 | the corrected plain scan stays within the string, stops only at a separator or the end, and advances past a non-separator |
| Utils.ParseQuot | src/utils.cpp:91-101 | the cursor loop ends where QuotEnd says |
| Utils.ParseNormal | src/utils.cpp:103-109 | the cursor loop ends where NormalEnd says |
| Utils.FieldsFrom | src/utils.cpp:111-133 | the fields found from a scan position: at least one |
| Utils.SplitKeepQuot | src/utils.cpp:111-133 | the fields of the C string, scanning from position 0; SplitKeepQuotJoin and SplitKeepQuotOfJoin state what they are |
| Utils.StrSplitKeepQuot | src/utils.cpp:111-133 | the cursor loop returns exactly SplitKeepQuot of the input |
| Utils.FieldsJoin | src/utils.cpp:111-133 | the fields from any scan state, joined with the separator, rebuild the rest of the C string |
| Utils.SplitKeepQuotJoin | src/utils.cpp:111-133 | for every input: at least one field; the fields joined with the separator give back the input up to its first NUL; a leading separator gives an empty first field |
| Utils.SplitKeepQuotOfJoin | src/utils.cpp:111-133 | quoted and plain fields, empty ones included, joined by a separator that is neither a quote nor NUL come back unchanged. A backslash escapes the next character, so an escaped separator, a separator inside quotes or an escaped quote inside quotes never ends a field, and a trailing separator gives an empty last field |
| Utils.Escaped | src/utils.cpp:91-109 | the text a scan crosses without stopping: each backslash is followed by the character it escapes, and no other character is the stop character |
| Utils.EscapedPlain | src/utils.cpp:91-109 | a text with neither backslash nor stop character needs no escaping |
| Utils.SplitKeepQuotEmptyEnds | test/unittest/test_utils.cpp:65 | `,abc,bcd,` splits into an empty field, `abc`, `bcd` and an empty field |
| Utils.SplitKeepQuotQuotedSep | test/unittest/test_utils.cpp:67 | a comma inside quotes stays in its field: `"a,bc",bcd` gives `"a,bc"` and `bcd` |
| Utils.SplitKeepQuotEscapedQuot | test/unittest/test_utils.cpp:68 | an escaped quote stays in its quoted field with its backslash: `"a\"bc",bcd` gives `"a\"bc"` and `bcd` |
| Utils.QuotEndAsWritten | src/utils.cpp:91-101 | the quoted scan as written: a stop position stays within the string; a trailing backslash steps over the terminator |
| Utils.NormalEndAsWritten | src/utils.cpp:103-109 | the plain scan as written: a stop position stays within the string and advances past a non-separator |
| Utils.QuotEndAgrees | src/utils.cpp:91-101 | without a trailing backslash, the quoted scan as written stops where the corrected one does |
| Utils.NormalEndAgrees | src/utils.cpp:103-109 | without a trailing backslash, the plain scan as written stops where the corrected one does |
| Utils.FieldsAgree | src/utils.cpp:111-133 | without a trailing backslash, the splitter as written stays inside the string and gives the corrected fields |
| Utils.TrailingEscapeOverReads | src/utils.cpp:98-107 | `a\` and `"a\` make the scan as written read past the terminator; the corrected splitter returns `a\` as one field |
| Utils.SkipSpace | src/utils.cpp:147-149 | the first non-blank position at or after i; all before it are blanks (strtol's leading white space) |
| Utils.DigitRun | src/utils.cpp:147-149 | the end of the digit run starting at i |
| Utils.Clamp64 | src/utils.cpp:147-149 | strtol's saturation: within the `long` range, and the identity inside it |
| Utils.ToInt | src/utils.cpp:143-149 | `to_int` gives a value in the 64-bit range |
| Utils.ToIntOfIntToString | src/utils.cpp:143-149 | `to_int` reads back every written 64-bit integer, whatever non-digit text follows |
| Utils.ToIntSkipsSpace | src/utils.cpp:143-149 | `to_int` ignores leading white space |
| Utils.ToInt32 | src/io.cpp:319 | the conversion of a `long` to `int`: inside the `int` range, and the identity there |
| Utils.ToUint32 | src/io.cpp:90 | the conversion to `uint32_t` in `setVersion(atoi(...))`: the identity on the `uint32_t` range |
| Utils.ToSizeT | src/io.cpp:108 | the conversion to `size_t` in `push_back(atoi(...))`: the identity on the `size_t` range |
| Utils.ToInt32Wraps | src/io.cpp:319 | the conversions agree with their inputs modulo 2^32 or 2^64; 2^31 wraps to -2^31 |
| Utils.Atoi | src/io.cpp:90 | `atoi` gives a value in the `int` range |
| Utils.NatToString | src/io.cpp:481 | the text `<<` writes for a size: at least one character, digits only |
| Utils.DecValueOfNatToString | src/io.cpp:481 | the decimal value of the written size is the size |
| Utils.IsDoubleZero | src/utils.cpp:13-15 | strictly between -10^-8 and 10^-8 |
| Utils.DoubleEqual | src/utils.cpp:17-19 | the difference is a double zero; DoubleEqualProperties states what follows |
| Utils.DoubleEqualProperties | src/utils.cpp:13-19 | for doubles that are real numbers (no NaN or infinity): DoubleEqual is reflexive and symmetric, holds exactly when the distance is below 10^-8, and is not transitive |
| Foreign.Reverse | src/io.cpp:265 | `CoordinateSequence::reverse` keeps the length |
| Foreign.ReverseAt | src/io.cpp:265 | position i of the reversed sequence is position n-1-i of the original |
| Foreign.ReverseReverse | src/io.cpp:265 | reversing twice gives the sequence back |
| Streams.LineEnd | src/io.cpp:80 | the first line break at or after i, with none before it |
| Streams.GetLine | src/io.cpp:80 | `getline`: a failed stream stays failed; the line has no break; line, break and rest make up the old text; at the end of the text the stream sets eof and the line is what was left |
| Streams.GetLineOfLine | src/io.cpp:80 | `getline` on a complete first line gives that line and the text after it |
| Streams.TokenEnd | src/io.cpp:217 | the end of the non-blank run starting at i |
| Streams.ReadToken | src/io.cpp:217 | the token extraction under `>>`: fails on a failed stream; with no token the stream is no longer good; it never lengthens the unread text |
| Streams.TokenRead | src/io.cpp:217 | a token read is a non-blank run behind blanks, and the stream stops right after it |
| Streams.ExtractInt | src/io.cpp:217 | `>> int`: with no token the variable keeps its value; otherwise the value is within the `int` range |
| Streams.ExtractIntGood | src/io.cpp:217 | a read that leaves the stream good took a whole integer token that fits an `int` |
| Streams.ExtractDouble | src/io.cpp:226 | `>> double`, read as whole tokens: a read that leaves the stream good took a token the conversion accepts, and stores its value; with no token the variable keeps its value |
| Streams.ReadTokenOf | src/io.cpp:217 | a token behind white space and followed by a blank is read whole, and the stream stops at the blank |
| Streams.ExtractIntOf | src/io.cpp:217 | `>> int` reads back a written count that fits an `int` |
| Streams.ExtractDoubleOf | src/io.cpp:226 | `>> double` reads a token the conversion accepts |
| Streams.ReadingNeverRecovers | src/io.cpp:79-80 | `getline`, `>> int` and `>> double` keep a failed stream failed and never lengthen the unread text |
| AttrValues.Equal | src/attr_value.cpp:53-61 | `==`: the texts when both sides hold text, else DoubleEqual of the numbers when both hold numbers, else true; CompareProperties and EqualNotTransitive state what follows |
| AttrValues.Less | src/attr_value.cpp:63-71 | `<`: the `std::string` order when both hold text, else the number order when both hold numbers, else false |
| AttrValues.Greater | src/attr_value.cpp:73-81 | `>`: the mirror of Less, with the same fallbacks |
| AttrValues.LexLessStrictTotal | src/attr_value.cpp:63-81 | the `std::string` order is asymmetric, irreflexive and total |
| AttrValues.LexLessTransitive | src/attr_value.cpp:63-81 | the `std::string` order is transitive |
| AttrValues.CompareProperties | src/attr_value.cpp:53-81 | for values whose numbers are real numbers (no NaN): `==` is reflexive and symmetric; `>` is `<` swapped; `<` is irreflexive; `<` and `>` never hold together; between texts, `<` implies not `==` |
| AttrValues.EqualNotTransitive | src/attr_value.cpp:53-61 | values with no shared bit compare equal, so text "a" == number 1 == text "b" but "a" != "b"; numbers chain through the epsilon |
| AttrValues.GetStrSpec | src/attr_value.cpp:83-89 | only a number-only value changes: it gains the text bit and the 8-decimal text of its number; the number is untouched and the result is the cached text |
| AttrValues.GetDoubleSpec | src/attr_value.cpp:95-101 | only a text-only value changes: it gains the number bit and strtod of its text; the text is untouched and the result is the cached number |
| AttrValues.Trunc | src/attr_value.cpp:91-93 | `static_cast<int32_t>`: truncation toward zero, for both signs; the result fits an `int32_t` exactly when the double lies strictly between -2^31-1 and 2^31, the range where the cast is defined |
| AttrValues.ValueEqualSpec | src/attr_value.cpp:103-106 | true when `==` holds, with nothing changed; otherwise both sides fill their text caches and the answer is whether the texts are equal |
| AttrValues.ConversionsSettle | src/attr_value.cpp:83-101 | the getters keep the invariant; a second call returns the same value and changes nothing; a default value gives "" and 0.0 |
| AttrValues.ValueEqualProperties | src/attr_value.cpp:103-106 | for values whose numbers are real numbers (no NaN): ValueEqual's answer is symmetric, true of a value with itself, and between texts is text equality |
| AttrValues.AttrValue.constructor | src/attr_value.cpp:6 | no bit set, empty text, zero |
| AttrValues.AttrValue.FromText | src/attr_value.cpp:8-10 | only the text bit, holding the text |
| AttrValues.AttrValue.FromNumber | src/attr_value.cpp:12-14 | only the number bit, holding the number |
| AttrValues.AttrValue.Copy | src/attr_value.cpp:16-18 | the copy or move carries text, number and bits unchanged |
| AttrValues.AttrValue.AssignFrom | src/attr_value.cpp:20-27 | the state of the right-hand side, including self-assignment |
| AttrValues.AttrValue.AssignText | src/attr_value.cpp:29-39 | the text is replaced and only the text bit is left; the stale number stays |
| AttrValues.AttrValue.AssignNumber | src/attr_value.cpp:41-51 | the number is replaced and only the number bit is left; the stale text stays |
| AttrValues.AttrValue.GetStr | src/attr_value.cpp:83-89 | result and new state as GetStrSpec says |
| AttrValues.AttrValue.GetDouble | src/attr_value.cpp:95-101 | result and new state as GetDoubleSpec says |
| AttrValues.AttrValue.GetInt | src/attr_value.cpp:91-93 | getDouble truncated toward zero, with getDouble's cache fill |
| AttrValues.AttrValue.ValueEqual | src/attr_value.cpp:103-106 | for values whose numbers are real numbers (no NaN): result and both new states as ValueEqualSpec says; with itself, true and no change |
| MifHeaders.DefaultHeader | include/gmif/gmif.h:74-78 | version 300, WindowsSimChinese, tab delimiter, CoordSys Earth Projection 1, 0, no transform, no lists, no columns; the table is consistent |
| MifHeaders.ColumnIndex | src/mif_header.cpp:17-22 | -1 exactly for an unknown name (or one mapped to -1); in a consistent table, a position whose name lower-cases to the key |
| MifHeaders.HasColumn | src/mif_header.cpp:74-76 | the lower-cased name is a key of the index map |
| MifHeaders.ColumnName | src/mif_header.cpp:24-26 | the name at the position, or out_of_range (None) outside the list |
| MifHeaders.ColumnType | src/mif_header.cpp:28-30 | the type at the position, or out_of_range (None) outside the list |
| MifHeaders.AddColumnSpec | src/mif_header.cpp:32-44 | refused with no change exactly when the lower-cased name is known; otherwise name and type appended and the lower-cased name mapped to the old size |
| MifHeaders.EraseAt | src/mif_header.cpp:55-56 | `vector::erase` at i: one shorter, elements before i kept, later ones moved down by one |
| MifHeaders.DeleteColumnByIndexSpec | src/mif_header.cpp:61-72 | refused with no change exactly for a position past the end; otherwise the position leaves both lists and its lower-cased name leaves the map, with no renumbering |
| MifHeaders.DeleteColumnByNameSpec | src/mif_header.cpp:46-59 | refused with no change exactly for an unknown name; otherwise the mapped position leaves both lists and the name leaves the map |
| MifHeaders.AddColumnKeepsIndex | src/mif_header.cpp:32-44 | addColumn keeps the table consistent; the name is known afterwards; a new column sits at the old size; known names keep their positions |
| MifHeaders.DeleteByIndexConsistentIffLast | src/mif_header.cpp:61-72 | a deletion leaves the table consistent exactly when it removes the last column, since later positions are not renumbered |
| MifHeaders.DeleteByNameIsDeleteAtIndex | src/mif_header.cpp:46-59 | in a consistent table, deleting by name is deleting at the name's position |
| MifHeaders.MifHeader.constructor | include/gmif/gmif.h:74-78 | the state is DefaultHeader |
| MifHeaders.MifHeader.SetVersion | include/gmif/gmif.h:81 | replaces the version and nothing else |
| MifHeaders.MifHeader.SetCharset | include/gmif/gmif.h:84 | replaces the character set and nothing else |
| MifHeaders.MifHeader.SetDelimiter | include/gmif/gmif.h:87 | replaces the delimiter and nothing else |
| MifHeaders.MifHeader.SetCoordsys | include/gmif/gmif.h:91 | replaces the coordinate system and nothing else |
| MifHeaders.MifHeader.SetTransform | include/gmif/gmif.h:94 | replaces the transform and nothing else |
| MifHeaders.MifHeader.SetUniqueVec | include/gmif/gmif.h:98 | replaces the Unique list and nothing else |
| MifHeaders.MifHeader.SetIndexVec | include/gmif/gmif.h:102 | replaces the Index list and nothing else |
| MifHeaders.MifHeader.AddColumn | src/mif_header.cpp:32-44 | result and new state as AddColumnSpec says |
| MifHeaders.MifHeader.DeleteColumnByName | src/mif_header.cpp:46-59 | result and new state as DeleteColumnByNameSpec says |
| MifHeaders.MifHeader.DeleteColumnByIndex | src/mif_header.cpp:61-72 | result and new state as DeleteColumnByIndexSpec says |
| MifElements.Views | include/gmif/gmif.h:57 | the values of an attribute map: same keys, each key's value state |
| MifElements.MifElement.constructor | include/gmif/gmif.h:178 | a null geometry and an empty map |
| MifElements.MifElement.SetGeo | include/gmif/gmif.h:181 | replaces the geometry; the attributes and their values are unchanged |
| MifElements.MifElement.SetAttrsMap | include/gmif/gmif.h:184-185 | the element takes the whole map; the geometry is unchanged |
| MifElements.MifElement.GetAttr | src/mif_element.cpp:17-19 | the stored value for a known name; out_of_range (None) exactly for an unknown one |
| MifElements.MifElement.HasColumn | src/mif_element.cpp:5-7 | the name is a key of the attribute map |
| MifElements.MifElement.GetAttrInto | src/mif_element.cpp:9-15 | true exactly for a known name, copying its value into `out`; otherwise `out` is untouched |
| MifElements.MifElement.AddOrUpdateAttr | src/mif_element.cpp:21-23 | the name holds the given value, every other name keeps its value, the keys grow by at most the name, the geometry is unchanged |
| MifElements.MifElement.UpdateAttr | src/mif_element.cpp:21-23 | a known name: its value takes the given content, and the map and every other value are unchanged |
| MifElements.MifElement.InsertAttr | src/mif_element.cpp:21-23 | a new name: a copy of the value goes in under it, and every other value is unchanged |
| IoHeader.EntryIds | src/io.cpp:105-116 | the corrected reading of one list entry: at least one number |
| IoHeader.PieceIds | src/io.cpp:108 | one number per comma-separated piece |
| IoHeader.IdListAsWritten | src/io.cpp:105-116 | the Unique/Index reading as written: one number per entry, atoi of the entry trimmed of commas |
| IoHeader.IdListAgrees | src/io.cpp:105-116 | when no entry holds an inner comma, the corrected reading equals the reading as written |
| IoHeader.Ids | src/io.cpp:105-116 | the numbers of a Unique or Index line: IdListAsWritten in the source's reading, the comma-splitting IdList in the corrected one |
| IoHeader.DelimiterLine | src/io.cpp:97-104 | the corrected Delimiter line: accepted exactly with two items and a three-character value, taking its middle character; otherwise it fails with -1 and no change |
| IoHeader.DelimiterLineAsWritten | src/io.cpp:97-104 | the Delimiter line as written: a value of the wrong length stops the reader with 0 |
| IoHeader.BadDelimiterReportsSuccess | src/io.cpp:99-101 | as written, `Delimiter ab` ends the header with status 0 and the old delimiter; corrected, it gives -1 |
| IoHeader.KeywordLine | src/io.cpp:84-129 | in either reading: a line that stops the reader leaves the header alone and gives -1, except that in the source's reading (AsWritten) a Delimiter line may stop it with 0; only a Columns line changes the counter, and it leaves the header alone |
| IoHeader.KeywordItems | src/io.cpp:84-129 | the same for the line's split words: version, charset, delimiter, unique, index, coordsys, projection, transform, columns, other words ignored; Delimiter and Unique/Index follow the given reading |
| IoHeader.KeywordReadingsAgree | src/io.cpp:97-116 | the source's reading and the corrected one give the same step on every keyword line except a Delimiter line whose value is not three characters long and a Unique or Index line with an inner comma |
| IoHeader.ColumnLine | src/io.cpp:130-136 | a column line must split into two words, which go through addColumn (whose refusal is ignored), and the counter goes down by one; otherwise -1 |
| IoHeader.LineStep | src/io.cpp:84-146 | at counter 0 the reader stops: 0 exactly on `data` or `none` in any case; otherwise the `runtime_error` with the lower-cased line |
| IoHeader.ReadHeaderAtEnd | src/io.cpp:148-155 | in either reading, at the end of input the reader returns 1 when the counter is not 0, otherwise 0, with the header unchanged |
| IoHeader.ParseIdList | src/io.cpp:105-116 | the loop over a list line's entries, splitting each at commas, gives the corrected list |
| IoHeader.ParseIdListAsWritten | src/io.cpp:106-109 | the source's loop over a list line's entries gives IdListAsWritten: one number per entry |
| IoHeader.ParseIds | src/io.cpp:105-116 | the list loop of the given reading gives Ids |
| IoHeader.ParseEntry | src/io.cpp:107-108 | the numbers of one entry are EntryIds |
| IoHeader.ApplyKeywordLine | src/io.cpp:84-129 | the header object changes as KeywordLine says in the given reading; with AsWritten this is the source's code, a malformed Delimiter returning 0 |
| IoHeader.ApplyColumnLine | src/io.cpp:130-136 | the header object changes as ColumnLine says |
| IoHeader.ReadHeaderSpec | src/io.cpp:75-156 | the reading loop from a stream, header and counter: when the stream stops being good, 1 if the counter is not 0 and 0 otherwise; else one right-trimmed line is handled |
| IoHeader.HandleLineSpec | src/io.cpp:79-146 | one pass of the loop after its getline: an empty line is skipped, any other makes one LineStep, which either continues or ends the reader |
| IoHeader.ReadHeader | src/io.cpp:75-156 | status, header and stream are those of ReadHeaderSpec from counter -1, in the given reading; with AsWritten it is the source's reader |
| IoHeader.OutVec | src/io.cpp:42-49 | the numbers joined by commas |
| IoHeader.WriteKeywordLines | src/io.cpp:413-430 | the Version, Charset, Delimiter, optional Unique/Index, CoordSys, optional Transform and Columns lines |
| IoHeader.WriteHeader | src/io.cpp:408-437 | -1 and nothing written for a header CheckMifHeaderValid rejects; otherwise 0 and the full header text ending with Data |
| IoHeader.WriteColumnLines | src/io.cpp:431-433 | one indented `name type` line per column, in order |
| HeaderRoundTrip.HeaderRoundTrip | src/io.cpp:75-156 | the text WriteHeader (io.cpp:408-437) writes for a writable header, read from the default header, gives status 0, the same header, and the stream just after the Data line |
| HeaderRoundTrip.KeywordSectionReads | src/io.cpp:84-129 | the written keyword lines take the default header to the given one without columns, with the counter set to the column count |
| HeaderRoundTrip.ColumnSectionReads | src/io.cpp:130-136 | the written column lines add the columns one by one and count the counter down to 0 |
| HeaderRoundTrip.ReadOneLine | src/io.cpp:79-146 | in either reading, a clean line at the front of the stream makes exactly one LineStep |
| HeaderRoundTrip.ReadDataLine | src/io.cpp:137-140 | a Data line at counter 0 ends the header with 0 |
| HeaderRoundTrip.ReadVersion | src/io.cpp:88-91 | the written Version line sets the version; every `uint32_t` value comes back, large ones through the `int` wrap-around |
| HeaderRoundTrip.AtoiOfUint32 | src/io.cpp:90 | atoi followed by the conversion to `uint32_t` reads back every written `uint32_t` |
| HeaderRoundTrip.ReadCharset | src/io.cpp:92-96 | the written Charset line sets the character set without its quotes |
| HeaderRoundTrip.ReadDelimiter | src/io.cpp:97-104 | the written Delimiter line sets the delimiter |
| HeaderRoundTrip.ReadUnique | src/io.cpp:105-110 | with the corrected list reading, the written Unique line gives the list back |
| HeaderRoundTrip.ReadIndex | src/io.cpp:111-116 | with the corrected list reading, the written Index line gives the list back |
| HeaderRoundTrip.ReadCoordSys | src/io.cpp:117-119 | the CoordSys line is kept whole |
| HeaderRoundTrip.ReadTransform | src/io.cpp:123-125 | the Transform line, when written, is kept whole |
| HeaderRoundTrip.ReadColumns | src/io.cpp:126-129 | the written Columns line sets the counter to the column count |
| HeaderRoundTrip.UniqueListLost | src/io.cpp:105-110 | as written, a Unique line of several numbers (written `1,2,3` by out_vec) reads back as its first number only; corrected, as the whole list |
| HeaderRoundTrip.UniqueItemsAsWritten | src/io.cpp:105-110 | in the source's reading, the line `Unique w` adds one number, atoi of w trimmed of commas, and leaves the counter |
| HeaderRoundTrip.UniqueHeaderAsWritten | src/io.cpp:105-110 | in the source's reading of a whole header, a written Unique line of a non-empty list appends only its first number, and the reading goes on as from the rest of the text |
| HeaderRoundTrip.BadDelimiterItems | src/io.cpp:97-104 | the words `Delimiter w` with w not three characters long stop the reader, with 0 in the source's reading and -1 in the corrected one, the header unchanged |
| HeaderRoundTrip.BadDelimiterHeader | src/io.cpp:97-104 | a whole header reader meeting such a Delimiter line stops there: the source's reading returns 0 with the partial header read so far, the corrected one -1 |
| HeaderRoundTrip.IdListReadsBack | src/io.cpp:105-116 | the corrected reading of a written list gives the list back |
| IoAttr.GetColType | src/io.cpp:31-40 | Int exactly for an `integer` or `smallint` prefix; Double exactly for a `decimal` or `float` prefix when not Int; Str otherwise |
| IoAttr.ColTypeExamples | src/io.cpp:31-40 | `decimal(12,3)` is Double, `char(20)` and `date` are Str; the test is case-sensitive and `int` alone is Str |
| IoAttr.FieldValue | src/io.cpp:184-195 | the value of one field: its quotes trimmed, then atoi for an Int column and strtod for a Double column (an empty field giving 0), the text otherwise |
| IoAttr.FieldValues | src/io.cpp:183-196 | one value per field, each read by its column's type |
| IoAttr.InsertAll | src/io.cpp:183-196 | the map after the insert loop has seen the first n columns; InsertAllHas, InsertAllOnly and InsertAllFirst state its keys and values |
| IoAttr.InsertAllHas | src/io.cpp:183-196 | after the insert loop every column name is a key |
| IoAttr.InsertAllOnly | src/io.cpp:183-196 | every key is a column name |
| IoAttr.InsertAllFirst | src/io.cpp:189-194 | `map::insert` keeps the first value: a repeated name holds its first column's field |
| IoAttr.SkipBlankLines | src/io.cpp:167-170 | the blank-line loop gives a line that starts with a non-blank or is empty, and an empty line only on a stream that is no longer good |
| IoAttr.ReadSingleAttrSpec | src/io.cpp:165-198 | result 0, -1 or 1; `res` untouched unless 0; 1 exactly when only blank lines remain until end of file; 0 only when the field count equals the column count |
| IoAttr.ReadAttrFields | src/io.cpp:182-197 | on 0 the map's keys are exactly the column names, each holding the value of its first column's field |
| IoAttr.ReadAttrAtEnd | src/io.cpp:166-173 | on a good stream, the result is 1 exactly when nothing but white space is left |
| IoAttr.ReadSingleAttr | src/io.cpp:165-198 | status, stream and map values as ReadSingleAttrSpec says; `res` unchanged unless 0; new, unshared values on 0 |
| IoAttr.ReadNonBlankLine | src/io.cpp:167-170 | the loop gives what SkipBlankLines says |
| IoAttr.BuildRecord | src/io.cpp:182-196 | the map built holds the values of the insert loop over all columns |
| IoAttr.InsertColumn | src/io.cpp:184-195 | one turn of the loop adds column i's field |
| IoAttr.InsertField | src/io.cpp:189-194 | `insert` adds the value only for a name that is not there yet |
| IoAttr.NewFieldValue | src/io.cpp:186-194 | the new value of a field: quotes trimmed; an empty Int field is 0, an empty Double field 0.0, otherwise atoi / strtod / the text |
| IoAttr.Lookup | src/io.cpp:448 | the element's value for a name, present exactly when the name is a key |
| IoAttr.IntOf | src/io.cpp:450-452 | an Int column writes getInt of the element's value, or 0 when the column is missing |
| IoAttr.RecordFields | src/io.cpp:439-458 | one field per column, each written by its column type from the element's value or the default 0 / 0.0 / "" |
| IoAttr.WriteElementAttr | src/io.cpp:439-461 | always true; the text is the fields joined by the delimiter, then a line break |
| IoAttr.AppendField | src/io.cpp:442-458 | one turn of the loop: a delimiter except before the first column, then the field |
| IoAttr.WriteField | src/io.cpp:447-457 | the field of a column, read through a copy of the element's value |
| IoAttr.FieldRoundTrip | src/io.cpp:183-196 | a written field is clean, and reads back as ReadBack says: int32 of an Int, strtod of the six-decimal text of a Double, the text of a Str |
| IoAttr.NamesDistinct | src/mif_header.cpp:32-44 | the names of a consistent column table are distinct |
| IoAttr.AttrRoundTrip | src/io.cpp:165-198 | the record WriteElementAttr (io.cpp:439-461) writes, read back: status 0, the stream just after it, the keys exactly the column names, each holding its ReadBack value |
| IoGeo.IsStyleKeyWord | src/io.cpp:200-213 | the word starts with pen, brush, symbol, font or center; StyleKeywordExtends and StyleKeywordExamples state what follows |
| IoGeo.StyleKeywordExtends | src/io.cpp:200-213 | a word extending a style keyword is one too |
| IoGeo.StyleKeywordExamples | src/io.cpp:200-213 | pen, brush, symbol, font and center are style keywords; the empty word and truncated keywords are not |
| IoGeo.GeoKeywordNotStyle | src/io.cpp:296-368 | no geometry keyword is a style keyword |
| IoGeo.ReadPair | src/io.cpp:226 | `>> x >> y` never lengthens a good stream; on a failed stream x and y keep their values |
| IoGeo.ReadPoints | src/io.cpp:225-228 | the remaining loop turns add exactly n coordinates |
| IoGeo.CoordSeq | src/io.cpp:215-230 | a non-negative count gives exactly that many coordinates |
| IoGeo.CoordSeqCount | src/io.cpp:215-230 | nullptr exactly when the count (given or read) is negative; otherwise exactly that many coordinates |
| IoGeo.ReadCoordSeq | src/io.cpp:215-230 | the method gives what CoordSeq says |
| IoGeo.FillCoords | src/io.cpp:223-228 | the fill loop gives what ReadPoints says, starting from x = y = 0 |
| IoGeo.LineStringOf | src/io.cpp:232-244 | a LineString has at least two coordinates; a count of two or more gives that many; a count of 0 or 1 fails |
| IoGeo.ReadLineString | src/io.cpp:232-244 | the method gives what LineStringOf says |
| IoGeo.CloseRing | src/io.cpp:258-261 | the front appended exactly when it differs from the back; the result is closed |
| IoGeo.CloseRingKeeps | src/io.cpp:258-261 | closing keeps the coordinates in front |
| IoGeo.Shell | src/io.cpp:258-266 | the closed, oriented shell is a closed ring |
| IoGeo.PolygonOf | src/io.cpp:246-270 | a read shell is a closed ring |
| IoGeo.PolygonShell | src/io.cpp:246-270 | a Polygon exactly when at least three coordinates were read; its shell is the closed ring, reversed exactly when isCCW, of length n or n+1 |
| IoGeo.ReadPolygon | src/io.cpp:246-270 | the method gives what PolygonOf says |
| IoGeo.LineStringsOf | src/io.cpp:319-328 | the PLINE MULTIPLE loop gives exactly k more LineStrings |
| IoGeo.PolygonsOf | src/io.cpp:339-348 | the REGION loop gives exactly k more Polygons |
| IoGeo.ReadLineStrings | src/io.cpp:319-328 | the loop gives what LineStringsOf says |
| IoGeo.ReadPolygons | src/io.cpp:339-348 | the loop gives what PolygonsOf says |
| IoGeo.LineStringsParts | src/io.cpp:319-328 | every part of a read MultiLineString has at least two coordinates |
| IoGeo.PolygonsParts | src/io.cpp:339-348 | every part of a read MultiPolygon is a closed ring |
| IoGeoRead.NoneRecord | src/io.cpp:296-298 | NONE gives 0 and a null geometry |
| IoGeoRead.PointRecord | src/io.cpp:299-303 | 0 exactly with three items, giving a Point; otherwise -1 and the geometry untouched |
| IoGeoRead.LineRecord | src/io.cpp:304-310 | 0 exactly with five items, giving a two-point LineString; otherwise -1 and the geometry untouched |
| IoGeoRead.Assigned | src/io.cpp:313-317 | the result assigned from a LineString or Polygon read: 0 exactly when one was read, otherwise -1 and null |
| IoGeoRead.RectRing | src/io.cpp:359-364 | the RECT ring is closed and has five corners |
| IoGeoRead.RectRecord | src/io.cpp:353-367 | 0 exactly with five items; otherwise -1 and the geometry untouched |
| IoGeoRead.PlineRecord | src/io.cpp:311-332 | PLINE with one or two items reads one LineString; PLINE MULTIPLE n reads n of them, a negative n throwing; any other item count fails |
| IoGeoRead.RegionRecord | src/io.cpp:333-352 | REGION 1 reads one Polygon, REGION n with n > 1 reads n of them; any other count or item count fails |
| IoGeoRead.Dispatch | src/io.cpp:296-373 | the keyword chain: a record for each geometry keyword, a skip for a style keyword, -1 otherwise |
| IoGeoRead.GeoRecord | src/io.cpp:279-376 | the reading loop: blank and style lines skipped, the first other line decides, and running out of lines answers 1 |
| IoGeoRead.DispatchSkipsStyle | src/io.cpp:296-373 | a line is skipped exactly when its keyword is a style keyword |
| IoGeoRead.DispatchSettled | src/io.cpp:296-373 | every record a keyword starts ends in one of the settled ways |
| IoGeoRead.GeoRecordSettled | src/io.cpp:279-376 | ReadSingleGeo ends in a settled way: a 0 comes with a well-formed geometry; -1, 1 and the allocation exception are the other outcomes |
| IoGeoRead.BlankLineSkipped | src/io.cpp:287-292 | a blank line before a record changes nothing |
| IoGeoRead.StyleLineSkipped | src/io.cpp:368-369 | a style line before a record changes nothing |
| IoGeoRead.ReadSingleGeo | src/io.cpp:279-376 | the method gives the status, geometry and stream of GeoRecord |
| IoGeoRead.ReadRecord | src/io.cpp:296-373 | the keyword tests: handled exactly for a non-style keyword, then as Dispatch says; a skipped line leaves the stream |
| IoGeoRead.ReadPoint | src/io.cpp:299-303 | the POINT branch gives PointRecord |
| IoGeoRead.ReadLine | src/io.cpp:304-310 | the LINE branch gives LineRecord |
| IoGeoRead.ReadRect | src/io.cpp:353-367 | the RECT branch gives RectRecord |
| IoGeoRead.ReadPline | src/io.cpp:311-332 | the PLINE branch gives PlineRecord |
| IoGeoRead.ReadRegion | src/io.cpp:333-352 | the REGION branch gives RegionRecord |
| IoGeoWrite.GeoText | src/io.cpp:463-525 | nothing is written exactly for a LineString of fewer than two coordinates or an unsupported type |
| IoGeoWrite.WriteElementGeo | src/io.cpp:463-525 | true exactly when GeoText has a text, and then the text is GeoText's; false writes nothing |
| IoGeoWrite.WriteCoords | src/io.cpp:482-484 | the loop appends one `x y` line per coordinate |
| IoGeoWrite.WriteParts | src/io.cpp:493-499 | the loop appends each part: its indented size, then its coordinate lines |
| GeoRoundTrip.ScannedAll | src/io.cpp:225-228 | a written and re-read sequence has the same length |
| GeoRoundTrip.ScannedParts | src/io.cpp:319-326 | the re-read parts of a MultiLineString: as many as written |
| GeoRoundTrip.OrientedParts | src/io.cpp:339-346 | the re-read shells of a MultiPolygon: as many as written |
| GeoRoundTrip.PointsRead | src/io.cpp:225-228 | the coordinate loop reads back every written coordinate line through `>> double` and stops before the last line break |
| GeoRoundTrip.PartRead | src/io.cpp:215-230 | a written part, its count read by `>> int`, reads back whole |
| GeoRoundTrip.LinesRead | src/io.cpp:319-326 | the parts of a written PLINE MULTIPLE read back one by one |
| GeoRoundTrip.RingsRead | src/io.cpp:339-346 | the shells of a written REGION read back one by one, each oriented |
| GeoRoundTrip.RecordOf | src/io.cpp:287-296 | a keyword line of tokens is read, split and dispatched to its keyword's record |
| GeoRoundTrip.NoneBack | src/io.cpp:296-298 | NONE reads back as the null geometry |
| GeoRoundTrip.PointBack | src/io.cpp:299-303 | a written POINT reads back through strtod of each number's text |
| GeoRoundTrip.LineBack | src/io.cpp:304-310 | a written LINE reads back as a two-point LineString through strtod |
| GeoRoundTrip.PlineBack | src/io.cpp:315-317 | a written `PLINE n` reads back as a LineString through `>> double` |
| GeoRoundTrip.MultiLineBack | src/io.cpp:318-328 | a written `PLINE MULTIPLE n` reads back part by part |
| GeoRoundTrip.PolygonBack | src/io.cpp:336-338 | a written `REGION 1` reads back as a Polygon, oriented by the reader |
| GeoRoundTrip.MultiPolygonBack | src/io.cpp:339-348 | a written `REGION n`, n > 1, reads back as a MultiPolygon, each shell oriented |
| GeoRoundTrip.GeoRoundTrip | src/io.cpp:279-376 | the text WriteElementGeo (io.cpp:463-525) writes for a printable geometry, read back: 0, the geometry ReadBack describes, and the stream just past the record |
| GeoRoundTrip.ReadBackExact | src/io.cpp:264-266 | when the conversions give the written values back and every ring is clockwise, the geometry comes back unchanged |
| IoElement.ElementSpec | src/io.cpp:378-406 | the attribute read first; on 0, null geometry when MID only, otherwise the geometry read, a 0 setting it and a -1 or 1 answering -1 |
| IoElement.ElementSettled | src/io.cpp:378-406 | a 0 leaves attributes and a well-formed geometry; attributes are set exactly when the MID read gave 0; after that, a failure is -1 or the geometry reader's exception; before it, -1 or 1 |
| IoElement.ReadSingleElement | src/io.cpp:378-406 | status, streams and element as ElementSpec says: the attribute status passed through, null geometry when MID only, any geometry failure turned into -1 |
| IoElement.WriteSingleElement | src/io.cpp:527-535 | the MID text is the record; 0 exactly when the geometry can be written, and then the MIF text is its GeoText; -1 otherwise |
| ElementRoundTrip.ElementBack | src/io.cpp:378-406 | a feature written by WriteSingleElement (io.cpp:527-535) reads back with 0: every column under its name with its ReadBack value, the geometry GeoRoundTrip gives, both streams just past the feature |

## Left out

- File handling is not modelled: `TryOpenFile` (io.cpp:51-73) and `Mif::Load`/`Dump` in mif.cpp. The readers and writers work on `Stream` values and strings.
- `LOG_ERROR` output and the `operator<<` overloads used for logging are not modelled. They do not affect any result.
- The digits of floating-point text are parameters of `Env` and nothing is assumed about them:
  - `strtod`;
  - `std::fixed` output at 6 or 8 decimals;
  - `istream >> double`, on a whole token (how much of a token it consumes is not a parameter; see Streams.ExtractDouble below).
- `Orientation::isCCW` is also an `Env` parameter.
- `check::CheckMifHeaderValid` (check.h is not part of this model) is the `valid` argument of `IoHeader.WriteHeader`.
- The geometry writer assumes the MIF stream is prepared as `Dump` prepares it (mif.cpp:70): `std::fixed` with `GMIF_COORD_PRECISION` decimals. The MID writer sets `std::fixed` itself (io.cpp:454) and keeps the default precision of 6.
- GEOS is reduced to geometry values:
  - a Polygon is its shell, since the reader never builds holes;
  - factory calls, validation and the exceptions GEOS may raise are not modelled;
  - `CoordinateArraySequence` is a `seq<Coord>`.
- `std::bad_alloc` for huge counts is not modelled. Of the allocation exceptions, only the `length_error` of a negative `PLINE MULTIPLE` count is.
- `>> int` on a token with trailing non-digits (`12abc`) is modelled as a failed read. The real stream would stop at the first non-digit.
- Streams.ExtractDouble: `>> double` always consumes the whole blank-delimited token, and either converts all of it or fails storing 0.0. The real stream (`num_get`) stops at the first character that cannot continue the number: on the coordinate line `1.5abc 2` it stores x = 1.5 and leaves the stream at `abc`, so the following `>> y` fails and y becomes 0. Out-of-range text such as `1e400` stores plus or minus HUGE_VAL and sets fail, where the model stores 0.0. The coordinate readers of IoGeo inherit this, and the geometry round trip only covers coordinate texts the conversion reads whole.
- The empty `MifIStream`/`MifOStream` classes and the declaration-only io.h are not modelled.
- Mutable reference getters (`getCoordsys()`, `getUniqueVec()`) are modelled only through the updates the reader makes through them.
- AttrValues.Trunc / AttrValues.AttrValue.GetInt: `static_cast<int32_t>` of a double outside the `int32_t` range is undefined behaviour in the source. The model returns the unbounded truncation there, and IoAttr.IntOf and IoAttr.FieldText write that value. Trunc's contract states the range of doubles for which the result fits.
- Utils.DoubleEqualProperties: doubles are real numbers here, so NaN, the infinities and the rounding of `d1 - d2` are not modelled. In the source DoubleEqual(NaN, NaN) is false, so reflexivity fails for NaN.
- AttrValues.CompareProperties: for the same reason `==` is not reflexive in the source on a value whose only content is a NaN number.
- AttrValues.ValueEqualProperties: for the same reason ValueEqual of a NaN number-only value with itself goes through the text comparison in the source.
- AttrValues.AttrValue.ValueEqual: on a NaN number-only value the source's `==` fails and both text caches are filled; the model never has a NaN.
- Utils.StrSplit: requires a non-empty separator. With an empty one the source's loop never ends, because `find` of the empty string returns the start position again (utils.cpp:76-81).
- IoAttr.ReadSingleAttr: does not state that the new values are freshly allocated. It states only that no two keys share a value object.
- MifHeaders.MifHeader.DeleteColumnByName: requires the position mapped to the name to lie inside the lists. After an earlier deletion that is not guaranteed, and the source's `erase` past the end is undefined behaviour.
- IoHeader.ReadHeader: takes a `Reading`. `AsWritten` is the source's code; `Corrected` splits Unique/Index entries at commas and fails a malformed Delimiter line with -1 (see Findings). KeywordReadingsAgree shows the two readings agree on every other line; UniqueHeaderAsWritten and BadDelimiterHeader state what the source's reading does on the two lines where they differ.
- HeaderRoundTrip.ReadUnique / HeaderRoundTrip.ReadIndex / HeaderRoundTrip.IdListReadsBack: are stated for the corrected reading, since in the source's reading a written list of several numbers does not come back (UniqueListLost, UniqueHeaderAsWritten).
- HeaderRoundTrip.HeaderRoundTrip: is stated for the corrected reading, and covers only headers the text format can carry. It excludes:
  - a character set with blanks or quotes at its ends;
  - a blank or line-break delimiter;
  - list numbers above 2^31 - 1;
  - CoordSys/Transform lines that do not start with their keyword;
  - column names or types that are not single lower-case words.
- IoAttr.AttrRoundTrip: covers only records whose texts hold no quote, NUL, line break or delimiter conflict, and whose number texts are plain. The values come back as the conversions give them, not necessarily equal.
- GeoRoundTrip.GeoRoundTrip: does not cover the following cases:
  - a MultiPolygon with fewer than two shells: it is written as `REGION 0` or `REGION 1` and read back as a failure or as a Polygon;
  - a LineString with fewer than two coordinates, or an unsupported type, which the writer refuses;
  - coordinate texts that contain blanks or that `>> double` rejects.

## Findings

| source | as written | input that shows it | evidently intended | confidence | as-written member | corrected member |
|---|---|---|---|---|---|---|
| src/utils.cpp:98-107 | `ParseQuot` and `ParseNormal` skip the character after a backslash even when it is the terminating NUL | the line `a\` (a trailing backslash) | the escape stops at the end of the string and the field is `a\` | high, not executed | Utils.TrailingEscapeOverReads | Utils.SplitKeepQuotJoin |
| src/io.cpp:105-116 | a Unique/Index entry is `atoi` of the entry trimmed of commas, but `out_vec` (io.cpp:42-49) writes the list as `1,2,3` | a header with Unique list [1, 2, 3], written and read back | every number of the written list is read back | medium, not executed | HeaderRoundTrip.UniqueHeaderAsWritten | HeaderRoundTrip.IdListReadsBack |
| src/io.cpp:99-101 | a malformed Delimiter returns `false` from an `int` function, which is 0, the success code | a header with the line `Delimiter ab` | the reader fails with -1 | high, not executed | HeaderRoundTrip.BadDelimiterHeader | IoHeader.DelimiterLine |
