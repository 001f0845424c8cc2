/** String helpers of the library: ASCII case folding, trimming against a
    character set, the plain separator splitter, the quote-aware field
    splitter, decimal integer conversion and the epsilon comparison of
    numbers.  A `std::string&` that a helper rewrites in place is a value
    here: the helper returns the new string. */
module Utils {
  import opened Wrappers

  const Quot: char := '"'
  const Esc: char := '\\'
  const Nul: char := '\0'
  /** The white-space set "\n\r\t\f\v " (also what C's isspace accepts). */
  const SpaceWhite: string := "\n\r\t\U{000C}\U{000B} "

  // ---------------------------------------------------------------------
  // ASCII case folding

  predicate IsUpperAscii(c: char) { 'A' <= c <= 'Z' }
  predicate IsLowerAscii(c: char) { 'a' <= c <= 'z' }

  function ToLowerChar(c: char): char {
    if IsUpperAscii(c) then (c as int + 32) as char else c
  }

  function ToUpperChar(c: char): char {
    if IsLowerAscii(c) then (c as int - 32) as char else c
  }

  /** The lower-case form of `s`: same length, every upper-case ASCII letter
      replaced by its lower-case letter, every other character kept. */
  function Lower(s: string): (r: string)
    ensures |r| == |s|
    ensures forall i :: 0 <= i < |s| ==> !IsUpperAscii(r[i])
    ensures forall i :: 0 <= i < |s| && !IsUpperAscii(s[i]) ==> r[i] == s[i]
    ensures forall i :: 0 <= i < |s| && IsUpperAscii(s[i]) ==> IsLowerAscii(r[i]) && r[i] as int == s[i] as int + 32
  {
    seq(|s|, i requires 0 <= i < |s| => ToLowerChar(s[i]))
  }

  /** The upper-case form of `s`, symmetric to Lower. */
  function Upper(s: string): (r: string)
    ensures |r| == |s|
    ensures forall i :: 0 <= i < |s| ==> !IsLowerAscii(r[i])
    ensures forall i :: 0 <= i < |s| && !IsLowerAscii(s[i]) ==> r[i] == s[i]
    ensures forall i :: 0 <= i < |s| && IsLowerAscii(s[i]) ==> IsUpperAscii(r[i]) && r[i] as int == s[i] as int - 32
  {
    seq(|s|, i requires 0 <= i < |s| => ToUpperChar(s[i]))
  }

  /** StrLower: rewrites the characters of `str` one by one. */
  method StrLower(str: string) returns (r: string)
    ensures r == Lower(str)
  {
    r := str;
    var i := 0;
    while i < |r|
      invariant 0 <= i <= |r| == |str|
      invariant forall k :: 0 <= k < i ==> r[k] == ToLowerChar(str[k])
      invariant forall k :: i <= k < |r| ==> r[k] == str[k]
    {
      if IsUpperAscii(r[i]) {
        r := r[i := ToLowerChar(r[i])];
      }
      i := i + 1;
    }
  }

  /** StrUpper: rewrites the characters of `str` one by one. */
  method StrUpper(str: string) returns (r: string)
    ensures r == Upper(str)
  {
    r := str;
    var i := 0;
    while i < |r|
      invariant 0 <= i <= |r| == |str|
      invariant forall k :: 0 <= k < i ==> r[k] == ToUpperChar(str[k])
      invariant forall k :: i <= k < |r| ==> r[k] == str[k]
    {
      if IsLowerAscii(r[i]) {
        r := r[i := ToUpperChar(r[i])];
      }
      i := i + 1;
    }
  }

  /** Folding is idempotent, and folding to lower case forgets a previous
      fold to upper case. */
  lemma LowerIdempotent(s: string)
    ensures Lower(Lower(s)) == Lower(s)
    ensures Lower(Upper(s)) == Lower(s)
  {
    assert forall i :: 0 <= i < |s| ==> Lower(Upper(s))[i] == Lower(s)[i] by {
      forall i | 0 <= i < |s| ensures Lower(Upper(s))[i] == Lower(s)[i] {
        if IsLowerAscii(s[i]) {
          assert Upper(s)[i] as int == s[i] as int - 32;
        }
      }
    }
  }

  // ---------------------------------------------------------------------
  // Trimming (std::string::find_first_not_of / find_last_not_of + erase)

  /** find_first_not_of(sub, from): the first position at or after `from`
      whose character is not in `sub`. */
  function FindFirstNotOf(s: string, sub: string, from: nat): (r: Option<nat>)
    requires from <= |s|
    ensures r.Some? ==> from <= r.value < |s| && s[r.value] !in sub
    ensures forall k :: from <= k < |s| && (r.None? || k < r.value) ==> s[k] in sub
    decreases |s| - from
  {
    if from == |s| then None
    else if s[from] !in sub then Some(from)
    else FindFirstNotOf(s, sub, from + 1)
  }

  /** find_last_not_of(sub) restricted to s[..upto]: the last such position. */
  function FindLastNotOf(s: string, sub: string, upto: nat): (r: Option<nat>)
    requires upto <= |s|
    ensures r.Some? ==> r.value < upto && s[r.value] !in sub
    ensures forall k :: 0 <= k < upto && (r.None? || r.value < k) ==> s[k] in sub
  {
    if upto == 0 then None
    else if s[upto - 1] !in sub then Some(upto - 1)
    else FindLastNotOf(s, sub, upto - 1)
  }

  /** StrTrimLeft: the suffix of `s` left after dropping every leading
      character that belongs to `sub`. */
  function StrTrimLeft(s: string, sub: string): (r: string)
    ensures |r| <= |s| && r == s[|s| - |r|..]
    ensures r == [] || r[0] !in sub
    ensures forall k :: 0 <= k < |s| - |r| ==> s[k] in sub
    ensures r == [] <==> forall k :: 0 <= k < |s| ==> s[k] in sub
  {
    match FindFirstNotOf(s, sub, 0)
    case None => []
    case Some(pos) => s[pos..]
  }

  /** StrTrimRight: the prefix of `s` left after dropping every trailing
      character that belongs to `sub`. */
  function StrTrimRight(s: string, sub: string): (r: string)
    ensures |r| <= |s| && r == s[..|r|]
    ensures r == [] || r[|r| - 1] !in sub
    ensures forall k :: |r| <= k < |s| ==> s[k] in sub
    ensures r == [] <==> forall k :: 0 <= k < |s| ==> s[k] in sub
  {
    match FindLastNotOf(s, sub, |s|)
    case None => []
    case Some(pos) => s[..pos + 1]
  }

  /** StrTrim: trim on the left, then on the right. */
  function StrTrim(s: string, sub: string): string {
    StrTrimRight(StrTrimLeft(s, sub), sub)
  }

  function StrTrimLeftSpace(s: string): string { StrTrimLeft(s, SpaceWhite) }
  function StrTrimRightSpace(s: string): string { StrTrimRight(s, SpaceWhite) }
  function StrTrimSpace(s: string): string { StrTrimRight(StrTrimLeft(s, SpaceWhite), SpaceWhite) }

  /** StrTrim keeps one contiguous piece s[i..i+|r|] of its input, starting
      and ending outside `sub`, and everything it drops belongs to `sub`. */
  lemma TrimIsSlice(s: string, sub: string)
    ensures var r := StrTrim(s, sub); var i := |s| - |StrTrimLeft(s, sub)|;
      && i + |r| <= |s| && r == s[i..i + |r|]
      && (r == [] || (r[0] !in sub && r[|r| - 1] !in sub))
      && (forall k :: 0 <= k < i ==> s[k] in sub)
      && (forall k :: i + |r| <= k < |s| ==> s[k] in sub)
  {
    var l := StrTrimLeft(s, sub);
    var r := StrTrimRight(l, sub);
    var i := |s| - |l|;
    assert r == l[..|r|];
    assert l == s[i..];
    forall k | i + |r| <= k < |s| ensures s[k] in sub {
      assert s[k] == l[k - i];
    }
  }

  /** Trimming twice is trimming once. */
  lemma TrimIdempotent(s: string, sub: string)
    ensures StrTrimLeft(StrTrimLeft(s, sub), sub) == StrTrimLeft(s, sub)
    ensures StrTrimRight(StrTrimRight(s, sub), sub) == StrTrimRight(s, sub)
    ensures StrTrim(StrTrim(s, sub), sub) == StrTrim(s, sub)
  {
    TrimLeftTwice(s, sub);
    TrimRightTwice(s, sub);
    TrimTwice(s, sub);
  }

  /** Helper: a left-trimmed string has nothing left to trim on the left. */
  lemma TrimLeftTwice(s: string, sub: string)
    ensures StrTrimLeft(StrTrimLeft(s, sub), sub) == StrTrimLeft(s, sub)
  {
    var l := StrTrimLeft(s, sub);
    TrimLeftUnique(l, sub, l);
  }

  /** Helper: a right-trimmed string has nothing left to trim on the right. */
  lemma TrimRightTwice(s: string, sub: string)
    ensures StrTrimRight(StrTrimRight(s, sub), sub) == StrTrimRight(s, sub)
  {
    var t := StrTrimRight(s, sub);
    TrimRightUnique(t, sub, t);
  }

  /** Helper: a trimmed string has nothing left to trim on either side. */
  lemma TrimTwice(s: string, sub: string)
    ensures StrTrim(StrTrim(s, sub), sub) == StrTrim(s, sub)
  {
    var l := StrTrimLeft(s, sub);
    var r := StrTrimRight(l, sub);
    assert r == [] || r[0] !in sub by {
      if r != [] {
        assert r[0] == l[0];
      }
    }
    TrimLeftUnique(r, sub, r);
    TrimRightUnique(r, sub, r);
  }

  /** Helper: the three facts StrTrimLeft ensures determine its result. */
  lemma TrimLeftUnique(s: string, sub: string, r: string)
    requires |r| <= |s| && r == s[|s| - |r|..]
    requires r == [] || r[0] !in sub
    requires forall k :: 0 <= k < |s| - |r| ==> s[k] in sub
    ensures StrTrimLeft(s, sub) == r
  {
    var t := StrTrimLeft(s, sub);
    if r != [] { assert r[0] == s[|s| - |r|]; }
    if t != [] { assert t[0] == s[|s| - |t|]; }
  }

  /** Helper: the three facts StrTrimRight ensures determine its result. */
  lemma TrimRightUnique(s: string, sub: string, r: string)
    requires |r| <= |s| && r == s[..|r|]
    requires r == [] || r[|r| - 1] !in sub
    requires forall k :: |r| <= k < |s| ==> s[k] in sub
    ensures StrTrimRight(s, sub) == r
  {
    var t := StrTrimRight(s, sub);
    if r != [] { assert r[|r| - 1] == s[|r| - 1]; }
    if t != [] { assert t[|t| - 1] == s[|t| - 1]; }
  }

  /** A text that starts and ends outside `sub` has nothing to trim. */
  lemma TrimNothing(s: string, sub: string)
    requires |s| > 0 && s[0] !in sub && s[|s| - 1] !in sub
    ensures StrTrimLeft(s, sub) == s && StrTrim(s, sub) == s
  {
    TrimLeftUnique(s, sub, s);
    TrimRightUnique(s, sub, s);
  }

  /** Padding made of set characters on either side does not change the
      trimmed text; with SpaceWhite this is StrTrimSpace ignoring blanks,
      tabs and line ends around a value. */
  lemma TrimIgnoresPadding(pre: string, s: string, post: string, sub: string)
    requires forall k :: 0 <= k < |pre| ==> pre[k] in sub
    requires forall k :: 0 <= k < |post| ==> post[k] in sub
    ensures StrTrim(pre + s + post, sub) == StrTrim(s, sub)
  {
    var l := StrTrimLeft(s, sub);
    if l == [] {
      TrimLeftAllSet(pre + s + post, sub);
    } else {
      TrimLeftPadding(pre, s, post, sub);
      TrimRightPadding(l, post, sub);
    }
  }

  /** Helper: a string made only of set characters trims to nothing. */
  lemma TrimLeftAllSet(x: string, sub: string)
    requires forall k :: 0 <= k < |x| ==> x[k] in sub
    ensures StrTrimLeft(x, sub) == []
  {
  }

  /** Helper: StrTrimLeft skips a set-character prefix and keeps the rest. */
  lemma TrimLeftPadding(pre: string, s: string, post: string, sub: string)
    requires forall k :: 0 <= k < |pre| ==> pre[k] in sub
    requires StrTrimLeft(s, sub) != []
    ensures StrTrimLeft(pre + s + post, sub) == StrTrimLeft(s, sub) + post
  {
    var x := pre + s + post;
    var l := StrTrimLeft(s, sub);
    var p := |s| - |l|;
    forall k | 0 <= k < |pre| + p ensures x[k] in sub {
      if k < |pre| { assert x[k] == pre[k]; } else { assert x[k] == s[k - |pre|]; }
    }
    assert x[|pre| + p..] == l + post;
    TrimLeftUnique(x, sub, l + post);
  }

  /** Helper: StrTrimRight ignores a set-character suffix. */
  lemma TrimRightPadding(l: string, post: string, sub: string)
    requires forall k :: 0 <= k < |post| ==> post[k] in sub
    ensures StrTrimRight(l + post, sub) == StrTrimRight(l, sub)
  {
    var r := StrTrimRight(l, sub);
    var lp := l + post;
    forall k | |r| <= k < |lp| ensures lp[k] in sub {
      if k < |l| { assert lp[k] == l[k]; } else { assert lp[k] == post[k - |l|]; }
    }
    assert lp[..|r|] == r;
    TrimRightUnique(lp, sub, r);
  }

  // ---------------------------------------------------------------------
  // StrSplit: split on every occurrence of a separator string

  predicate OccursAt(s: string, sep: string, k: int) {
    0 <= k && k + |sep| <= |s| && s[k..k + |sep|] == sep
  }

  /** std::string::find(sep, from): the first occurrence at or after `from`. */
  function Find(s: string, sep: string, from: nat): (r: Option<nat>)
    requires from <= |s|
    ensures r.Some? ==> from <= r.value && OccursAt(s, sep, r.value)
    decreases |s| - from
  {
    if from + |sep| > |s| then None
    else if s[from..from + |sep|] == sep then Some(from)
    else Find(s, sep, from + 1)
  }

  /** find answers the first occurrence: none starts before it. */
  lemma {:induction false} FindFirst(s: string, sep: string, from: nat)
    requires from <= |s|
    ensures var r := Find(s, sep, from);
      forall k :: from <= k && (r.None? || k < r.value) ==> !OccursAt(s, sep, k)
    decreases |s| - from
  {
    if from + |sep| <= |s| && s[from..from + |sep|] != sep {
      FindFirst(s, sep, from + 1);
    }
  }

  /** The fields of s[start..] cut at each occurrence of `sep`, leftmost first. */
  function SplitFrom(s: string, sep: string, start: nat): (r: seq<string>)
    requires |sep| > 0 && start <= |s|
    ensures |r| >= 1
    decreases |s| - start
  {
    match Find(s, sep, start)
    case None => [s[start..]]
    case Some(k) => [s[start..k]] + SplitFrom(s, sep, k + |sep|)
  }

  function Split(s: string, sep: string): seq<string>
    requires |sep| > 0
  {
    SplitFrom(s, sep, 0)
  }

  /** Glue fields back together with `sep` between consecutive fields. */
  function Join(fs: seq<string>, sep: string): string {
    if |fs| == 0 then "" else if |fs| == 1 then fs[0] else fs[0] + sep + Join(fs[1..], sep)
  }

  lemma JoinCons(a: string, rest: seq<string>, sep: string)
    requires |rest| >= 1
    ensures Join([a] + rest, sep) == a + sep + Join(rest, sep)
  {
    assert ([a] + rest)[1..] == rest;
  }

  /** Helper: appending a field to a join. */
  lemma {:induction false} JoinSnoc(fs: seq<string>, f: string, sep: string)
    ensures Join(fs + [f], sep) == if |fs| == 0 then f else Join(fs, sep) + sep + f
  {
    if |fs| > 1 {
      JoinSnoc(fs[1..], f, sep);
      assert (fs + [f])[1..] == fs[1..] + [f];
    } else if |fs| == 1 {
      assert (fs + [f])[1..] == [f];
    }
  }

  /** Helper: a prefix one element longer. */
  lemma PrefixSnoc<T>(s: seq<T>, k: nat)
    requires k < |s|
    ensures s[..k + 1] == s[..k] + [s[k]]
  {
  }

  /** Joining one more element of a sequence of fields, as a writing loop
      does. */
  lemma JoinPrefix(fs: seq<string>, i: nat, sep: string)
    requires i < |fs|
    ensures Join(fs[..i + 1], sep) == if i == 0 then fs[i] else Join(fs[..i], sep) + sep + fs[i]
  {
    PrefixSnoc(fs, i);
    JoinSnoc(fs[..i], fs[i], sep);
  }

  /** StrSplit: an empty separator would never advance, so the source's
      callers always pass a non-empty one. */
  method StrSplit(str: string, sep: string) returns (res: seq<string>)
    requires |sep| > 0
    ensures res == Split(str, sep)
  {
    res := [];
    var start := 0;
    var end := Find(str, sep, 0);
    ghost var whole := Split(str, sep);
    while end.Some?
      invariant start <= |str|
      invariant end == Find(str, sep, start)
      invariant res + SplitFrom(str, sep, start) == whole
      decreases |str| - start
    {
      var k := end.value;
      SplitLoopStep(str, sep, start, res, whole);
      res := res + [str[start..k]];
      start := k + |sep|;
      end := Find(str, sep, start);
    }
    assert SplitFrom(str, sep, start) == [str[start..]];
    if start != |str| {
      res := res + [str[start..]];
    } else {
      assert str[start..] == "";
      res := res + [""];
    }
  }

  /** Helper: one pass of StrSplit's loop keeps the fields found so far,
      followed by those still to find, equal to the whole split. */
  lemma SplitLoopStep(s: string, sep: string, start: nat, res: seq<string>, whole: seq<string>)
    requires |sep| > 0 && start <= |s| && Find(s, sep, start).Some?
    requires res + SplitFrom(s, sep, start) == whole
    ensures var k := Find(s, sep, start).value;
      (res + [s[start..k]]) + SplitFrom(s, sep, k + |sep|) == whole
  {
    var k := Find(s, sep, start).value;
    SplitFromStep(s, sep, start);
    assert (res + [s[start..k]]) + SplitFrom(s, sep, k + |sep|) == res + ([s[start..k]] + SplitFrom(s, sep, k + |sep|));
  }

  /** Helper: one unfolding of SplitFrom at a found separator. */
  lemma SplitFromStep(s: string, sep: string, start: nat)
    requires |sep| > 0 && start <= |s| && Find(s, sep, start).Some?
    ensures var k := Find(s, sep, start).value;
      SplitFrom(s, sep, start) == [s[start..k]] + SplitFrom(s, sep, k + |sep|)
  {
  }

  /** Helper: cutting out an occurrence of the separator. */
  lemma CutAt(s: string, sep: string, start: nat, k: nat)
    requires start <= k && OccursAt(s, sep, k)
    ensures s[start..] == s[start..k] + sep + s[k + |sep|..]
  {
    assert s[k..k + |sep|] == sep;
    assert s[start..] == s[start..k] + s[k..k + |sep|] + s[k + |sep|..];
  }

  /** Joining the fields with the separator gives back the input. */
  lemma {:induction false} SplitJoin(s: string, sep: string, start: nat)
    requires |sep| > 0 && start <= |s|
    ensures Join(SplitFrom(s, sep, start), sep) == s[start..]
    decreases |s| - start
  {
    var f := Find(s, sep, start);
    if f.Some? {
      var k := f.value;
      SplitJoin(s, sep, k + |sep|);
      JoinAtSeparator(s, sep, start, k);
    } else {
      assert SplitFrom(s, sep, start) == [s[start..]];
    }
  }


  /** Helper: the step of SplitJoin at a found separator. */
  lemma JoinAtSeparator(s: string, sep: string, start: nat, k: nat)
    requires |sep| > 0 && start <= |s| && Find(s, sep, start) == Some(k)
    requires Join(SplitFrom(s, sep, k + |sep|), sep) == s[k + |sep|..]
    ensures Join(SplitFrom(s, sep, start), sep) == s[start..]
  {
    var x, rest := s[start..k], SplitFrom(s, sep, k + |sep|);
    SplitFromStep(s, sep, start);
    JoinCons(x, rest, sep);
    CutAt(s, sep, start, k);
  }

  /** No field contains the separator. */
  lemma {:induction false} SplitFieldsFree(s: string, sep: string, start: nat)
    requires |sep| > 0 && start <= |s|
    ensures forall f, k :: f in SplitFrom(s, sep, start) ==> !OccursAt(f, sep, k)
    decreases |s| - start
  {
    var r := SplitFrom(s, sep, start);
    match Find(s, sep, start)
    case None =>
      FindFirst(s, sep, start);
      FieldFree(s, sep, start, |s|);
      assert s[start..|s|] == s[start..];
    case Some(e) =>
      FindFirst(s, sep, start);
      FieldFree(s, sep, start, e);
      SplitFieldsFree(s, sep, e + |sep|);
  }

  /** Helper: a slice in which no occurrence starts holds no occurrence. */
  lemma FieldFree(s: string, sep: string, start: nat, e: nat)
    requires |sep| > 0 && start <= e <= |s|
    requires forall k :: start <= k < e ==> !OccursAt(s, sep, k)
    ensures forall k :: !OccursAt(s[start..e], sep, k)
  {
    forall k | OccursAt(s[start..e], sep, k) ensures false {
      SliceOfSlice(s, start, e, k, k + |sep|);
      assert OccursAt(s, sep, start + k);
    }
  }

  lemma SliceOfSlice(s: string, a: nat, b: nat, i: nat, j: nat)
    requires a <= b <= |s| && i <= j <= b - a
    ensures s[a..b][i..j] == s[a + i..a + j]
  {
    forall m | 0 <= m < j - i ensures s[a..b][i..j][m] == s[a + i..a + j][m] {
    }
  }

  /** A string without the separator is returned whole, as one field. */
  lemma SplitAbsent(s: string, sep: string)
    requires |sep| > 0
    requires forall k :: !OccursAt(s, sep, k)
    ensures Split(s, sep) == [s]
  {
  }

  /** A one-character separator occurs exactly where its character is. */
  lemma OccursAtChar(s: string, c: char, k: int)
    ensures OccursAt(s, [c], k) <==> 0 <= k < |s| && s[k] == c
  {
    if 0 <= k < |s| {
      assert s[k..k + 1] == [s[k]];
    }
  }

  /** Helper: the first separator character at or after `start` is at e. */
  lemma FindChar(s: string, c: char, start: nat, e: nat)
    requires start <= e <= |s|
    requires forall k :: start <= k < e ==> s[k] != c
    ensures e < |s| && s[e] == c ==> Find(s, [c], start) == Some(e)
    ensures e == |s| ==> Find(s, [c], start) == None
  {
    var f := Find(s, [c], start);
    FindFirst(s, [c], start);
    if f.Some? {
      OccursAtChar(s, c, f.value);
    }
    if e < |s| && s[e] == c {
      OccursAtChar(s, c, e);
    }
  }

  /** Helper for SplitOfJoin: the fields of a joined suffix. */
  lemma {:induction false} SplitFromJoin(s: string, c: char, start: nat, fs: seq<string>)
    requires start <= |s| && |fs| >= 1
    requires forall i :: 0 <= i < |fs| ==> c !in fs[i]
    requires s[start..] == Join(fs, [c])
    ensures SplitFrom(s, [c], start) == fs
    decreases |fs|, 1
  {
    if |fs| == 1 {
      OnlyField(s, c, start, fs);
    } else {
      SplitFromJoinMore(s, c, start, fs);
    }
  }

  /** Helper: SplitFromJoin with more than one field. */
  lemma {:induction false} SplitFromJoinMore(s: string, c: char, start: nat, fs: seq<string>)
    requires start <= |s| && |fs| >= 2
    requires forall i :: 0 <= i < |fs| ==> c !in fs[i]
    requires s[start..] == Join(fs, [c])
    ensures SplitFrom(s, [c], start) == fs
    decreases |fs|, 0
  {
    var e := start + |fs[0]|;
    FirstFieldFound(s, c, start, fs, e);
    SplitFromJoin(s, c, e + 1, fs[1..]);
    FieldThenRest(s, c, start, e, fs);
  }

  /** Helper: a first field closed at e, followed by the other fields. */
  lemma FieldThenRest(s: string, c: char, start: nat, e: nat, fs: seq<string>)
    requires start <= e < |s| && |fs| >= 1
    requires Find(s, [c], start) == Some(e) && s[start..e] == fs[0]
    requires SplitFrom(s, [c], e + 1) == fs[1..]
    ensures SplitFrom(s, [c], start) == fs
  {
    SplitFromStep(s, [c], start);
    assert e + |[c]| == e + 1;
    assert fs == [fs[0]] + fs[1..];
  }

  /** Helper: the text of the first field holds no separator. */
  lemma FirstFieldFree(s: string, c: char, start: nat, fs: seq<string>)
    requires start <= |s| && |fs| >= 1 && c !in fs[0]
    requires s[start..] == Join(fs, [c])
    ensures forall k :: start <= k < start + |fs[0]| && k < |s| ==> s[k] != c
  {
    forall k | start <= k < start + |fs[0]| && k < |s| ensures s[k] != c {
      assert s[k] == s[start..][k - start];
    }
  }

  /** Helper: a join of one field is that field, with no separator. */
  lemma OnlyField(s: string, c: char, start: nat, fs: seq<string>)
    requires start <= |s| && |fs| == 1 && c !in fs[0]
    requires s[start..] == Join(fs, [c])
    ensures SplitFrom(s, [c], start) == fs
  {
    FirstFieldFree(s, c, start, fs);
    assert |s[start..]| == |fs[0]|;
    FindChar(s, c, start, |s|);
  }

  /** Helper: with more than one field, the first separator closes the
      first field and the rest is the join of the other fields. */
  lemma FirstFieldFound(s: string, c: char, start: nat, fs: seq<string>, e: nat)
    requires start <= |s| && |fs| >= 2 && e == start + |fs[0]| && c !in fs[0]
    requires s[start..] == Join(fs, [c])
    ensures e < |s| && Find(s, [c], start) == Some(e)
    ensures s[start..e] == fs[0] && s[e + 1..] == Join(fs[1..], [c])
  {
    FirstFieldFree(s, c, start, fs);
    var f0 := fs[0];
    var rest := Join(fs[1..], [c]);
    assert s[start..] == f0 + [c] + rest;
    assert s[e] == s[start..][|f0|];
    FindChar(s, c, start, e);
    assert s[start..e] == s[start..][..|f0|] == f0;
    assert s[e + 1..] == s[start..][|f0| + 1..];
  }

  /** Splitting a join at a separator character that no field contains
      gives the fields back. */
  lemma SplitOfJoin(fs: seq<string>, c: char)
    requires |fs| >= 1
    requires forall i :: 0 <= i < |fs| ==> c !in fs[i]
    ensures Split(Join(fs, [c]), [c]) == fs
  {
    var s := Join(fs, [c]);
    assert s[0..] == s;
    SplitFromJoin(s, c, 0, fs);
  }

  /** A join of non-empty fields starts with the first field's first
      character and ends with the last field's last character. */
  lemma {:induction false} JoinEnds(fs: seq<string>, sep: string)
    requires |fs| >= 1
    requires forall i :: 0 <= i < |fs| ==> |fs[i]| > 0
    ensures var j := Join(fs, sep); var last := fs[|fs| - 1];
      |j| > 0 && j[0] == fs[0][0] && j[|j| - 1] == last[|last| - 1]
  {
    if |fs| > 1 {
      JoinEnds(fs[1..], sep);
      assert fs[1..][|fs| - 2] == fs[|fs| - 1];
    }
  }

  /** The characters of a join are the fields' and the separators'. */
  lemma {:induction false} JoinChars(fs: seq<string>, sep: string, c: char)
    requires c !in sep
    requires forall i :: 0 <= i < |fs| ==> c !in fs[i]
    ensures c !in Join(fs, sep)
  {
    if |fs| > 1 {
      JoinChars(fs[1..], sep, c);
    }
  }

  // ---------------------------------------------------------------------
  // StrSplitKeepQuot: split on a separator character, keeping quoted spans
  // and backslash escapes together.  The scan runs over the C string, i.e.
  // up to the first NUL character; position |c| is the terminator.

  /** The text seen through c_str(): everything before the first NUL. */
  function CStr(s: string): (c: string)
    ensures |c| <= |s| && c == s[..|c|]
    ensures Nul !in c
    ensures |c| < |s| ==> s[|c|] == Nul
  {
    if |s| == 0 || s[0] == Nul then [] else [s[0]] + CStr(s[1..])
  }

  /** Where ParseQuot stops, the opening quote being at i - 1: just after the
      closing quote, or at the terminator.  A backslash makes the scan step
      over the next character, but never over the terminator (see
      QuotEndAsWritten for the scan as the source writes it). */
  function QuotEnd(c: string, i: nat): (j: nat)
    requires i <= |c|
    ensures i <= j <= |c|
    decreases |c| - i
  {
    if i == |c| then i
    else if c[i] == Quot then i + 1
    else if c[i] == Esc && i + 1 < |c| then QuotEnd(c, i + 2)
    else QuotEnd(c, i + 1)
  }

  /** Where ParseNormal stops: at the next separator that is not escaped, or
      at the terminator. */
  function NormalEnd(c: string, sep: char, i: nat): (j: nat)
    requires i <= |c|
    ensures i <= j <= |c|
    ensures j < |c| ==> c[j] == sep
    ensures i < |c| && c[i] != sep ==> i < j
    decreases |c| - i
  {
    if i == |c| || c[i] == sep then i
    else if c[i] == Esc && i + 1 < |c| then NormalEnd(c, sep, i + 2)
    else NormalEnd(c, sep, i + 1)
  }

  /** The fields of c: the current field began at `start`, the scan is at `i`. */
  function FieldsFrom(c: string, sep: char, start: nat, i: nat): (r: seq<string>)
    requires start <= i <= |c|
    ensures |r| >= 1
    decreases |c| - i
  {
    if i == |c| then [c[start..]]
    else if c[i] == sep then [c[start..i]] + FieldsFrom(c, sep, i + 1, i + 1)
    else if c[i] == Quot then FieldsFrom(c, sep, start, QuotEnd(c, i + 1))
    else FieldsFrom(c, sep, start, NormalEnd(c, sep, i))
  }

  function SplitKeepQuot(str: string, sep: char): seq<string> {
    FieldsFrom(CStr(str), sep, 0, 0)
  }

  /** ParseQuot: `s` is at an opening quote. */
  method ParseQuot(c: string, s0: nat) returns (s: nat)
    requires s0 < |c| && c[s0] == Quot
    ensures s == QuotEnd(c, s0 + 1)
  {
    s := s0 + 1;  // skip the opening quote
    while s < |c|
      invariant s0 + 1 <= s <= |c|
      invariant QuotEnd(c, s) == QuotEnd(c, s0 + 1)
      decreases |c| - s
    {
      if c[s] == Quot {
        s := s + 1;  // skip the closing quote
        return;
      }
      if c[s] == Esc && s + 1 < |c| {
        s := s + 1;  // skip the escape character
      }
      s := s + 1;
    }
  }

  /** ParseNormal: scan up to the next unescaped separator. */
  method ParseNormal(c: string, s0: nat, sep: char) returns (s: nat)
    requires s0 <= |c|
    ensures s == NormalEnd(c, sep, s0)
  {
    s := s0;
    while s < |c| && c[s] != sep
      invariant s0 <= s <= |c|
      invariant NormalEnd(c, sep, s) == NormalEnd(c, sep, s0)
      decreases |c| - s
    {
      if c[s] == Esc && s + 1 < |c| {
        s := s + 1;
      }
      s := s + 1;
    }
  }

  /** StrSplitKeepQuot: cut at separators met between scan segments. */
  method StrSplitKeepQuot(str: string, sep: char) returns (res: seq<string>)
    ensures res == SplitKeepQuot(str, sep)
  {
    var c := CStr(str);
    res := [];
    var start, s := 0, 0;
    while s < |c|
      invariant start <= s <= |c|
      invariant res + FieldsFrom(c, sep, start, s) == FieldsFrom(c, sep, 0, 0)
      decreases |c| - s
    {
      if c[s] == sep {
        res := res + [c[start..s]];
        s := s + 1;
        start := s;
      } else if c[s] == Quot {
        s := ParseQuot(c, s);
      } else {
        s := ParseNormal(c, s, sep);
      }
    }
    assert res + [c[start..]] == FieldsFrom(c, sep, 0, 0);
    if start < |c| {
      assert c[start..s] == c[start..];
      res := res + [c[start..s]];
    } else {
      assert c[start..] == "";
      res := res + [""];
    }
  }

  /** The fields joined with the separator give back the C string. */
  lemma {:induction false} FieldsJoin(c: string, sep: char, start: nat, i: nat)
    requires start <= i <= |c|
    ensures Join(FieldsFrom(c, sep, start, i), [sep]) == c[start..]
    decreases |c| - i
  {
    if i == |c| {
    } else if c[i] == sep {
      FieldsJoin(c, sep, i + 1, i + 1);
      FieldsFromSep(c, sep, start, i);
      JoinCons(c[start..i], FieldsFrom(c, sep, i + 1, i + 1), [sep]);
      assert c[start..] == c[start..i] + [sep] + c[i + 1..];
    } else {
      var j := if c[i] == Quot then QuotEnd(c, i + 1) else NormalEnd(c, sep, i);
      FieldsFromStep(c, sep, start, i, j);
      FieldsJoin(c, sep, start, j);
    }
  }

  /** At least one field; joined with the separator they rebuild the input
      as far as its first NUL; a leading separator yields an empty first field. */
  lemma SplitKeepQuotJoin(str: string, sep: char)
    ensures |SplitKeepQuot(str, sep)| >= 1
    ensures Join(SplitKeepQuot(str, sep), [sep]) == CStr(str)
    ensures |CStr(str)| > 0 && str[0] == sep ==> SplitKeepQuot(str, sep)[0] == ""
  {
    FieldsJoin(CStr(str), sep, 0, 0);
  }

  /** A C string without NUL characters is the whole string. */
  lemma {:induction false} CStrOfNulFree(s: string)
    requires Nul !in s
    ensures CStr(s) == s
  {
    if |s| > 0 {
      CStrOfNulFree(s[1..]);
    }
  }

  /** Text in which `stop` never ends the scan: every character is either
      a backslash followed by any character, which it escapes, or a
      character other than `stop` and the backslash.  A `stop` that is
      itself the backslash never occurs. */
  predicate Escaped(b: string, stop: char)
    decreases |b|
  {
    |b| == 0 || (b[0] != stop && (if b[0] == Esc then |b| >= 2 && Escaped(b[2..], stop) else Escaped(b[1..], stop)))
  }

  /** Text without backslashes and without `stop` needs no escaping. */
  lemma {:induction false} EscapedPlain(b: string, stop: char)
    requires forall k :: 0 <= k < |b| ==> b[k] != stop && b[k] != Esc
    ensures Escaped(b, stop)
    decreases |b|
  {
    if |b| > 0 {
      EscapedPlain(b[1..], stop);
    }
  }

  /** A field ParseQuot reads whole: quotes around text in which a quote
      or backslash occurs only escaped. */
  predicate QuotedField(f: string) {
    |f| >= 2 && f[0] == Quot && f[|f| - 1] == Quot && Escaped(f[1..|f| - 1], Quot)
  }

  /** A field ParseNormal reads whole: empty, or not opening a quote and
      with separators and backslashes occurring only escaped. */
  predicate PlainField(f: string, sep: char) {
    |f| == 0 || (f[0] != Quot && Escaped(f, sep))
  }

  /** Helper: the quoted scan runs over escaped text up to the quote that
      follows it. */
  lemma {:induction false} QuotEndOver(c: string, i: nat, b: string)
    requires i + |b| < |c| && c[i..i + |b|] == b && c[i + |b|] == Quot
    requires Escaped(b, Quot)
    ensures QuotEnd(c, i) == i + |b| + 1
    decreases |b|
  {
    if |b| > 0 {
      assert c[i] == b[0];
      var n := if b[0] == Esc then 2 else 1;
      assert c[i + n..i + |b|] == b[n..];
      QuotEndOver(c, i + n, b[n..]);
    }
  }

  /** Helper: the plain scan runs over escaped text up to the separator or
      the terminator that follows it. */
  lemma {:induction false} NormalEndOver(c: string, sep: char, i: nat, b: string)
    requires i + |b| <= |c| && c[i..i + |b|] == b && (i + |b| == |c| || c[i + |b|] == sep)
    requires Escaped(b, sep)
    ensures NormalEnd(c, sep, i) == i + |b|
    decreases |b|
  {
    if |b| > 0 {
      assert c[i] == b[0];
      var n := if b[0] == Esc then 2 else 1;
      assert c[i + n..i + |b|] == b[n..];
      NormalEndOver(c, sep, i + n, b[n..]);
    }
  }

  /** Helper: scanning one non-empty quoted or plain field that ends at a
      separator or at the terminator stops at its end. */
  lemma FieldScan(c: string, sep: char, start: nat, f: string)
    requires sep != Quot && f != []
    requires QuotedField(f) || PlainField(f, sep)
    requires start + |f| <= |c| && c[start..start + |f|] == f
    requires start + |f| == |c| || c[start + |f|] == sep
    ensures c[start] != sep
    ensures (if c[start] == Quot then QuotEnd(c, start + 1) else NormalEnd(c, sep, start)) == start + |f|
  {
    if QuotedField(f) {
      QuotedScan(c, start, f);
    } else {
      PlainScan(c, sep, start, f);
    }
  }

  /** Helper: one step of the scan inside a field, to the scan's end j. */
  lemma FieldsFromStep(c: string, sep: char, start: nat, i: nat, j: nat)
    requires start <= i < |c| && c[i] != sep
    requires j == if c[i] == Quot then QuotEnd(c, i + 1) else NormalEnd(c, sep, i)
    ensures FieldsFrom(c, sep, start, i) == FieldsFrom(c, sep, start, j)
  {
  }

  /** Helper: the quoted scan of a quoted field stops right after it. */
  lemma QuotedScan(c: string, start: nat, f: string)
    requires QuotedField(f)
    requires start + |f| <= |c| && c[start..start + |f|] == f
    ensures c[start] == Quot && QuotEnd(c, start + 1) == start + |f|
  {
    assert c[start] == f[0];
    var b := f[1..|f| - 1];
    assert forall k :: 0 <= k < |b| ==> c[start + 1 + k] == c[start..start + |f|][k + 1] == b[k];
    assert c[start + 1..start + 1 + |b|] == b;
    assert c[start + |f| - 1] == f[|f| - 1];
    QuotEndOver(c, start + 1, f[1..|f| - 1]);
  }

  /** Helper: the plain scan of a plain field stops at its end. */
  lemma PlainScan(c: string, sep: char, start: nat, f: string)
    requires PlainField(f, sep) && f != []
    requires start + |f| <= |c| && c[start..start + |f|] == f
    requires start + |f| == |c| || c[start + |f|] == sep
    ensures c[start] != Quot && c[start] != sep && NormalEnd(c, sep, start) == start + |f|
  {
    assert c[start] == f[0];
    NormalEndOver(c, sep, start, f);
  }

  /** Helper: the fields of a C string whose tail is a join of such fields. */
  lemma {:induction false} FieldsOfJoin(c: string, sep: char, start: nat, fs: seq<string>)
    requires sep != Quot && |fs| >= 1
    requires forall i :: 0 <= i < |fs| ==> QuotedField(fs[i]) || PlainField(fs[i], sep)
    requires start <= |c| && c[start..] == Join(fs, [sep])
    ensures FieldsFrom(c, sep, start, start) == fs
    decreases |fs|, 1
  {
    if |fs| == 1 {
      JoinHead(c, start, fs, sep);
      if fs[0] != [] {
        FieldScan(c, sep, start, fs[0]);
        FieldsFromStep(c, sep, start, start, start + |fs[0]|);
      }
    } else {
      FieldsOfJoinMore(c, sep, start, fs);
    }
  }

  /** Helper: FieldsOfJoin with more than one field. */
  lemma {:induction false} FieldsOfJoinMore(c: string, sep: char, start: nat, fs: seq<string>)
    requires sep != Quot && |fs| >= 2
    requires forall i :: 0 <= i < |fs| ==> QuotedField(fs[i]) || PlainField(fs[i], sep)
    requires start <= |c| && c[start..] == Join(fs, [sep])
    ensures FieldsFrom(c, sep, start, start) == fs
    decreases |fs|, 0
  {
    hide FieldsFrom, QuotedField, PlainField, Join;
    var p := start + |fs[0]|;
    JoinHead(c, start, fs, sep);
    if fs[0] != [] {
      FieldScan(c, sep, start, fs[0]);
      FieldsFromStep(c, sep, start, start, p);
    }
    FieldsFromSep(c, sep, start, p);
    FieldsOfJoin(c, sep, p + 1, fs[1..]);
    assert fs == [fs[0]] + fs[1..];
  }

  /** Helper: a separator closes the current field. */
  lemma FieldsFromSep(c: string, sep: char, start: nat, i: nat)
    requires start <= i < |c| && c[i] == sep
    ensures FieldsFrom(c, sep, start, i) == [c[start..i]] + FieldsFrom(c, sep, i + 1, i + 1)
  {
  }

  /** Helper: where the first field of a join ends. */
  lemma JoinHead(c: string, start: nat, fs: seq<string>, sep: char)
    requires |fs| >= 1 && start <= |c| && c[start..] == Join(fs, [sep])
    ensures var p := start + |fs[0]|;
      && p <= |c| && c[start..p] == fs[0]
      && (|fs| == 1 ==> p == |c|)
      && (|fs| > 1 ==> p < |c| && c[p] == sep && c[p + 1..] == Join(fs[1..], [sep]))
  {
    var f := fs[0];
    if |fs| > 1 {
      JoinCons(f, fs[1..], [sep]);
      assert [f] + fs[1..] == fs;
      assert c[start..] == f + [sep] + Join(fs[1..], [sep]);
      assert c[start..][..|f|] == f;
      assert c[start..][|f|] == sep;
      assert c[start..][|f| + 1..] == Join(fs[1..], [sep]);
    } else {
      assert c[start..] == f;
    }
  }

  /** StrSplitKeepQuot undoes a join of quoted and plain fields, empty
      ones included: the separator is not a quote nor NUL and no field holds
      a NUL.  Inside a field a backslash escapes the next character, so an
      escaped separator, or a separator or escaped quote inside quotes,
      never ends a field. */
  lemma SplitKeepQuotOfJoin(fs: seq<string>, sep: char)
    requires sep != Quot && sep != Nul && |fs| >= 1
    requires forall i :: 0 <= i < |fs| ==> (QuotedField(fs[i]) || PlainField(fs[i], sep)) && Nul !in fs[i]
    ensures SplitKeepQuot(Join(fs, [sep]), sep) == fs
  {
    var c := Join(fs, [sep]);
    JoinChars(fs, [sep], Nul);
    CStrOfNulFree(c);
    assert c[0..] == c;
    FieldsOfJoin(c, sep, 0, fs);
  }

  /** The splitter on an input of the source's own unit tests: empty
      fields at both ends are kept. */
  lemma SplitKeepQuotEmptyEnds()
    ensures SplitKeepQuot(",abc,bcd,", ',') == ["", "abc", "bcd", ""]
  {
    var fs := ["", "abc", "bcd", ""];
    assert Join(fs, [',']) == ",abc,bcd," by {
      assert Join(fs[3..], [',']) == "";
      assert Join(fs[2..], [',']) == "bcd,";
      assert Join(fs[1..], [',']) == "abc,bcd,";
    }
    EscapedPlain("abc", ',');
    EscapedPlain("bcd", ',');
    SplitKeepQuotOfJoin(fs, ',');
  }

  /** The splitter on an input of the source's own unit tests: a separator
      inside quotes does not end the field. */
  lemma SplitKeepQuotQuotedSep()
    ensures SplitKeepQuot("\"a,bc\",bcd", ',') == ["\"a,bc\"", "bcd"]
  {
    var p := "\"a,bc\"";
    assert Join([p, "bcd"], [',']) == "\"a,bc\",bcd";
    assert p[1..|p| - 1] == "a,bc";
    EscapedPlain("a,bc", Quot);
    EscapedPlain("bcd", ',');
    SplitKeepQuotOfJoin([p, "bcd"], ',');
  }

  /** The splitter on an input of the source's own unit tests: an escaped
      quote neither ends the quoted field nor loses its backslash. */
  lemma SplitKeepQuotEscapedQuot()
    ensures SplitKeepQuot("\"a\\\"bc\",bcd", ',') == ["\"a\\\"bc\"", "bcd"]
  {
    var q := "\"a\\\"bc\"";
    assert Join([q, "bcd"], [',']) == "\"a\\\"bc\",bcd";
    assert q[1..|q| - 1] == "a\\\"bc";
    EscapedPlain("bc", Quot);
    assert "a\\\"bc"[1..][2..] == "bc";
    EscapedPlain("bcd", ',');
    SplitKeepQuotOfJoin([q, "bcd"], ',');
  }

  // ---------------------------------------------------------------------
  // The scanners as the source writes them: a backslash always advances the
  // cursor by two, so a backslash in the last position moves it one past the
  // terminator and the next test `*s != '\0'` reads outside the string.

  datatype Scan = At(pos: nat) | OverRead

  function QuotEndAsWritten(c: string, i: nat): (r: Scan)
    requires i <= |c| + 1
    ensures r.At? ==> i <= r.pos <= |c|
    decreases |c| + 1 - i
  {
    if i > |c| then OverRead
    else if i == |c| then At(i)
    else if c[i] == Quot then At(i + 1)
    else if c[i] == Esc then QuotEndAsWritten(c, i + 2)
    else QuotEndAsWritten(c, i + 1)
  }

  function NormalEndAsWritten(c: string, sep: char, i: nat): (r: Scan)
    requires i <= |c| + 1
    ensures r.At? ==> i <= r.pos <= |c|
    ensures r.At? && i < |c| && c[i] != sep ==> i < r.pos
    decreases |c| + 1 - i
  {
    if i > |c| then OverRead
    else if i == |c| || c[i] == sep then At(i)
    else if c[i] == Esc then NormalEndAsWritten(c, sep, i + 2)
    else NormalEndAsWritten(c, sep, i + 1)
  }

  /** None when the scan reads past the terminator. */
  function FieldsFromAsWritten(c: string, sep: char, start: nat, i: nat): (r: Option<seq<string>>)
    requires start <= i <= |c|
    decreases |c| - i
  {
    if i == |c| then Some([c[start..]])
    else if c[i] == sep then
      match FieldsFromAsWritten(c, sep, i + 1, i + 1)
      case None => None
      case Some(rest) => Some([c[start..i]] + rest)
    else
      var next := if c[i] == Quot then QuotEndAsWritten(c, i + 1) else NormalEndAsWritten(c, sep, i);
      match next
      case OverRead => None
      case At(j) => FieldsFromAsWritten(c, sep, start, j)
  }

  function SplitKeepQuotAsWritten(str: string, sep: char): Option<seq<string>> {
    FieldsFromAsWritten(CStr(str), sep, 0, 0)
  }

  predicate NoTrailingEsc(c: string) { |c| == 0 || c[|c| - 1] != Esc }

  lemma {:induction false} QuotEndAgrees(c: string, i: nat)
    requires i <= |c| && NoTrailingEsc(c)
    ensures QuotEndAsWritten(c, i) == At(QuotEnd(c, i))
    decreases |c| - i
  {
    if i < |c| && c[i] != Quot {
      if c[i] == Esc { QuotEndAgrees(c, i + 2); } else { QuotEndAgrees(c, i + 1); }
    }
  }

  lemma {:induction false} NormalEndAgrees(c: string, sep: char, i: nat)
    requires i <= |c| && NoTrailingEsc(c)
    ensures NormalEndAsWritten(c, sep, i) == At(NormalEnd(c, sep, i))
    decreases |c| - i
  {
    if i < |c| && c[i] != sep {
      if c[i] == Esc { NormalEndAgrees(c, sep, i + 2); } else { NormalEndAgrees(c, sep, i + 1); }
    }
  }

  /** Without a trailing backslash the source's scan stays inside the string
      and yields exactly the fields of the corrected scan. */
  lemma {:induction false} FieldsAgree(c: string, sep: char, start: nat, i: nat)
    requires start <= i <= |c| && NoTrailingEsc(c)
    ensures FieldsFromAsWritten(c, sep, start, i) == Some(FieldsFrom(c, sep, start, i))
    decreases |c| - i
  {
    if i == |c| {
    } else if c[i] == sep {
      FieldsAgree(c, sep, i + 1, i + 1);
    } else if c[i] == Quot {
      QuotEndAgrees(c, i + 1);
      FieldsAgree(c, sep, start, QuotEnd(c, i + 1));
    } else {
      NormalEndAgrees(c, sep, i);
      FieldsAgree(c, sep, start, NormalEnd(c, sep, i));
    }
  }

  /** The line `a\` (a trailing backslash) makes the source read past the
      terminator, while the corrected scan returns it as one field. */
  lemma TrailingEscapeOverReads()
    ensures SplitKeepQuotAsWritten("a\\", ',') == None
    ensures SplitKeepQuot("a\\", ',') == ["a\\"]
    ensures SplitKeepQuotAsWritten("\"a\\", ',') == None
  {
    assert CStr("a\\") == "a\\" by {
      assert CStr("\\") == "\\";
    }
    assert NormalEndAsWritten("a\\", ',', 0) == OverRead;
    assert NormalEnd("a\\", ',', 0) == 2;
    assert CStr("\"a\\") == "\"a\\" by {
      assert CStr("\\") == "\\";
      assert CStr("a\\") == "a\\";
    }
    assert QuotEndAsWritten("\"a\\", 1) == OverRead;
  }

  // ---------------------------------------------------------------------
  // Decimal integers: to_int is strtol(s, nullptr, 10) into an int64_t.

  const Int64Min: int := -0x8000_0000_0000_0000
  const Int64Max: int := 0x7FFF_FFFF_FFFF_FFFF
  const Int32Min: int := -0x8000_0000
  const Int32Max: int := 0x7FFF_FFFF

  predicate IsDigit(c: char) { '0' <= c <= '9' }

  function DigitValue(c: char): nat requires IsDigit(c) { c as int - '0' as int }

  function DigitChar(d: nat): (c: char)
    requires d < 10
    ensures IsDigit(c) && DigitValue(c) == d
  {
    ('0' as int + d) as char
  }

  /** The value of a run of decimal digits, most significant first. */
  function DecValue(ds: string): nat
    requires forall k :: 0 <= k < |ds| ==> IsDigit(ds[k])
  {
    if |ds| == 0 then 0 else DecValue(ds[..|ds| - 1]) * 10 + DigitValue(ds[|ds| - 1])
  }

  /** The first index at or after i that is not white space (isspace). */
  function SkipSpace(s: string, i: nat): (j: nat)
    requires i <= |s|
    ensures i <= j <= |s| && (j < |s| ==> s[j] !in SpaceWhite)
    ensures forall k :: i <= k < j ==> s[k] in SpaceWhite
    decreases |s| - i
  {
    if i == |s| || s[i] !in SpaceWhite then i else SkipSpace(s, i + 1)
  }

  /** The end of the run of digits that starts at i. */
  function DigitRun(s: string, i: nat): (j: nat)
    requires i <= |s|
    ensures i <= j <= |s| && (j < |s| ==> !IsDigit(s[j]))
    ensures forall k :: i <= k < j ==> IsDigit(s[k])
    decreases |s| - i
  {
    if i == |s| || !IsDigit(s[i]) then i else DigitRun(s, i + 1)
  }

  /** strtol's result before it saturates: leading white space, an optional
      sign, then the longest run of digits; 0 when there are no digits. */
  function StrtolValue(s: string): int {
    SignedDigits(s, SkipSpace(s, 0))
  }

  /** An optional sign at i followed by the longest run of digits. */
  function SignedDigits(s: string, i: nat): int
    requires i <= |s|
  {
    var j := if i < |s| && (s[i] == '-' || s[i] == '+') then i + 1 else i;
    var v: int := DecValue(s[j..DigitRun(s, j)]);
    if i < |s| && s[i] == '-' then -v else v
  }

  /** Saturation to the range of a 64-bit long, as strtol reports overflow. */
  function Clamp64(v: int): (r: int)
    ensures Int64Min <= r <= Int64Max
    ensures Int64Min <= v <= Int64Max ==> r == v
  {
    if v < Int64Min then Int64Min else if v > Int64Max then Int64Max else v
  }

  /** to_int (utils.cpp): the saturated strtol value. */
  function ToInt(s: string): (r: int)
    ensures Int64Min <= r <= Int64Max
  {
    Clamp64(StrtolValue(s))
  }

  /** Conversion of a 64-bit value to a 32-bit `int`: reduction modulo 2^32
      into [-2^31, 2^31). */
  function ToInt32(v: int): (r: int)
    ensures Int32Min <= r <= Int32Max
    ensures Int32Min <= v <= Int32Max ==> r == v
  {
    (v - Int32Min) % 0x1_0000_0000 + Int32Min
  }

  type Uint32 = x: int | 0 <= x < 0x1_0000_0000
  type SizeT = x: int | 0 <= x < 0x1_0000_0000_0000_0000

  /** Conversion of a signed value to uint32_t: reduction modulo 2^32. */
  function ToUint32(v: int): (r: Uint32)
    ensures 0 <= v < 0x1_0000_0000 ==> r == v
  {
    v % 0x1_0000_0000
  }

  /** Conversion of a signed value to size_t: reduction modulo 2^64. */
  function ToSizeT(v: int): (r: SizeT)
    ensures 0 <= v < 0x1_0000_0000_0000_0000 ==> r == v
  {
    v % 0x1_0000_0000_0000_0000
  }

  /** atoi: glibc computes it as (int) strtol(s, NULL, 10). */
  function Atoi(s: string): (r: int)
    ensures Int32Min <= r <= Int32Max
  {
    ToInt32(ToInt(s))
  }

  /** The decimal text of a natural number, as `os << n` writes it. */
  function NatToString(n: nat): (r: string)
    ensures |r| >= 1
    ensures forall k :: 0 <= k < |r| ==> IsDigit(r[k])
  {
    if n < 10 then [DigitChar(n)] else NatToString(n / 10) + [DigitChar(n % 10)]
  }

  /** The decimal text of an integer, with a leading '-' when negative. */
  function IntToString(i: int): string {
    if i < 0 then "-" + NatToString(-i) else NatToString(i)
  }

  lemma {:induction false} DecValueOfNatToString(n: nat)
    ensures DecValue(NatToString(n)) == n
  {
    if n >= 10 {
      DecValueOfNatToString(n / 10);
      var r := NatToString(n);
      assert r[..|r| - 1] == NatToString(n / 10);
    }
  }

  /** Helper: the digit run of a written number ends where the number does. */
  lemma DigitRunOfNumber(t: string, rest: string, j: nat)
    requires forall k :: 0 <= k < |t| ==> IsDigit(t[k])
    requires j <= |t|
    requires rest == [] || !IsDigit(rest[0])
    ensures DigitRun(t + rest, j) == |t|
    decreases |t| - j
  {
    if j < |t| {
      assert (t + rest)[j] == t[j];
      DigitRunOfNumber(t, rest, j + 1);
    } else if rest != [] {
      assert (t + rest)[j] == rest[0];
    }
  }

  /** Writing an integer and reading it back with to_int gives the integer
      back, whatever non-digit text follows it, for every int64 value. */
  lemma ToIntOfIntToString(i: int, rest: string)
    requires Int64Min <= i <= Int64Max
    requires rest == [] || !IsDigit(rest[0])
    ensures ToInt(IntToString(i) + rest) == i
  {
    var n := if i < 0 then -i else i;
    DecValueOfNatToString(n);
    if i < 0 {
      NegativeDigitsRead(NatToString(n), rest);
    } else {
      DigitsRead(NatToString(n), rest);
    }
  }

  /** Helper: the digits of a written natural, read in front of `rest`. */
  lemma DigitsRead(t: string, rest: string)
    requires t != [] && forall k :: 0 <= k < |t| ==> IsDigit(t[k])
    requires rest == [] || !IsDigit(rest[0])
    ensures var s := t + rest; SkipSpace(s, 0) == 0 && s[0..DigitRun(s, 0)] == t
  {
    var s := t + rest;
    assert s[0] == t[0];
    DigitRunOfNumber(t, rest, 0);
    assert s[0..|t|] == t;
  }

  /** Helper: the same after a minus sign. */
  lemma NegativeDigitsRead(t: string, rest: string)
    requires t != [] && forall k :: 0 <= k < |t| ==> IsDigit(t[k])
    requires rest == [] || !IsDigit(rest[0])
    ensures var s := "-" + t + rest; SkipSpace(s, 0) == 0 && s[0] == '-' && s[1..DigitRun(s, 1)] == t
  {
    var s := "-" + t + rest;
    assert s == "-" + (t + rest);
    DigitRunOfNumber(t, rest, 0);
    DigitRunShift("-", t + rest, 0);
    assert s[1..1 + |t|] == t;
  }

  /** Helper: a digit run is found the same way after a prefix. */
  lemma DigitRunShift(pre: string, s: string, j: nat)
    requires j <= |s|
    ensures DigitRun(pre + s, |pre| + j) == |pre| + DigitRun(s, j)
    decreases |s| - j
  {
    if j < |s| {
      assert (pre + s)[|pre| + j] == s[j];
      DigitRunShift(pre, s, j + 1);
    }
  }

  /** to_int skips the white space in front of a number. */
  lemma ToIntSkipsSpace(pre: string, s: string)
    requires forall k :: 0 <= k < |pre| ==> pre[k] in SpaceWhite
    ensures ToInt(pre + s) == ToInt(s)
  {
    StrtolSkipsSpace(pre, s);
  }

  /** Helper: the same for the value before saturation. */
  lemma StrtolSkipsSpace(pre: string, s: string)
    requires forall k :: 0 <= k < |pre| ==> pre[k] in SpaceWhite
    ensures StrtolValue(pre + s) == StrtolValue(s)
  {
    var i := SkipSpace(s, 0);
    SkipSpaceShift(pre, s, 0);
    StrtolAt(pre + s, |pre| + i);
    SignedDigitsShift(pre, s, i);
  }

  /** Helper: strtol reads its number where the white space ends. */
  lemma StrtolAt(x: string, j: nat)
    requires j <= |x| && j == SkipSpace(x, 0)
    ensures StrtolValue(x) == SignedDigits(x, j)
  {
  }

  /** Helper: the signed digits read after a prefix are those of the rest. */
  lemma SignedDigitsShift(pre: string, s: string, i: nat)
    requires i <= |s|
    ensures SignedDigits(pre + s, |pre| + i) == SignedDigits(s, i)
  {
    var x := pre + s;
    var j := if i < |s| && (s[i] == '-' || s[i] == '+') then i + 1 else i;
    var d := DigitRun(s, j);
    DigitRunShift(pre, s, j);
    SliceAfterPrefix(pre, s, j, d);
    if i < |s| { assert x[|pre| + i] == s[i]; }
  }

  /** Helper: a slice of the text after a prefix. */
  lemma SliceAfterPrefix(pre: string, s: string, a: nat, b: nat)
    requires a <= b <= |s|
    ensures (pre + s)[|pre| + a..|pre| + b] == s[a..b]
  {
    assert forall k :: 0 <= k < b - a ==> (pre + s)[|pre| + a..|pre| + b][k] == s[a..b][k];
  }

  /** Helper: skipping white space across a white-space prefix. */
  lemma SkipSpaceShift(pre: string, s: string, k: nat)
    requires k <= |pre|
    requires forall m :: 0 <= m < |pre| ==> pre[m] in SpaceWhite
    ensures SkipSpace(pre + s, k) == |pre| + SkipSpace(s, 0)
    decreases |pre| + |s| - k
  {
    if k < |pre| {
      assert (pre + s)[k] == pre[k];
      SkipSpaceShift(pre, s, k + 1);
    } else {
      SkipSpaceTail(pre, s, 0);
    }
  }

  lemma SkipSpaceTail(pre: string, s: string, j: nat)
    requires j <= |s|
    ensures SkipSpace(pre + s, |pre| + j) == |pre| + SkipSpace(s, j)
    decreases |s| - j
  {
    if j < |s| {
      assert (pre + s)[|pre| + j] == s[j];
      SkipSpaceTail(pre, s, j + 1);
    }
  }

  /** The narrowing conversions change a value by a multiple of the
      modulus only; two's-complement narrowing is the identity on 32-bit
      values and wraps 2^31 around to -2^31. */
  lemma ToInt32Wraps(v: int)
    ensures (ToInt32(v) - v) % 0x1_0000_0000 == 0
    ensures (ToUint32(v) - v) % 0x1_0000_0000 == 0
    ensures (ToSizeT(v) - v) % 0x1_0000_0000_0000_0000 == 0
    ensures ToInt32(Int32Max + 1) == Int32Min
    ensures ToInt32(-1) == -1
    ensures ToInt32(0x1_0000_0000 + 5) == 5
  {
  }

  // ---------------------------------------------------------------------
  // Comparison of doubles up to 10^-GMIF_DOUBLE_PRECISION = 10^-8.

  const Epsilon: real := 0.00000001

  predicate IsDoubleZero(d: real) { -Epsilon < d < Epsilon }

  predicate DoubleEqual(d1: real, d2: real) { IsDoubleZero(d1 - d2) }

  /** DoubleEqual is reflexive and symmetric, holds exactly when the
      distance is below 10^-8, and is not transitive. */
  lemma DoubleEqualProperties(a: real, b: real)
    ensures DoubleEqual(a, a)
    ensures DoubleEqual(a, b) == DoubleEqual(b, a)
    ensures DoubleEqual(a, b) <==> (a - b < Epsilon && b - a < Epsilon)
    ensures DoubleEqual(0.0, 0.000000006) && DoubleEqual(0.000000006, 0.000000012)
    ensures !DoubleEqual(0.0, 0.000000012)
  {
  }
}
