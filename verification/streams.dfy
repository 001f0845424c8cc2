/** The input streams io.cpp reads from, as values: the text not yet
    consumed and the eof and fail bits.  std::getline and the formatted
    extractions `>> int` and `>> double` are functions from a stream to the
    value read and the stream afterwards.  Also the result codes of the
    reading and writing functions. */
module Streams {
  import opened Wrappers
  import opened Utils
  import opened Foreign

  datatype Stream = Stream(rest: string, eof: bool, fail: bool)
  {
    /** ios::good(): neither end of file nor failure. */
    predicate Good() { !eof && !fail }
  }

  /** A fresh stream over a text. */
  function Open(text: string): Stream {
    Stream(text, false, false)
  }

  /** What a reading function hands back: its `int` result, or the
      exception that escapes from it. */
  datatype Status = Returned(code: int) | Raised(what: string)

  const Success: Status := Returned(0)
  const Failure: Status := Returned(-1)
  const EndOfFile: Status := Returned(1)

  /** The first line break at or after i, or |s|. */
  function LineEnd(s: string, i: nat): (j: nat)
    requires i <= |s|
    ensures i <= j <= |s| && (j < |s| ==> s[j] == '\n')
    ensures forall k :: i <= k < j ==> s[k] != '\n'
    decreases |s| - i
  {
    if i == |s| || s[i] == '\n' then i else LineEnd(s, i + 1)
  }

  /** std::getline(is, line): on a stream that is not good it only sets the
      fail bit and leaves `line` as it was; with nothing left to read it
      sets eof and fail and yields ""; otherwise it yields the text up to
      the next line break and consumes the break, or, without one, the rest
      of the text and sets eof. */
  function GetLine(st: Stream, line: string): (r: (string, Stream))
    ensures !st.Good() ==> r == (line, st.(fail := true))
    ensures st.Good() ==> '\n' !in r.0
    ensures st.Good() && r.1.Good() ==> st.rest == r.0 + "\n" + r.1.rest
    ensures st.Good() && !r.1.Good() ==>
      r.1 == Stream("", true, st.rest == "") && r.0 == st.rest
    ensures st.Good() ==> |r.1.rest| < |st.rest| || !r.1.Good()
  {
    if !st.Good() then (line, st.(fail := true))
    else if |st.rest| == 0 then ("", Stream("", true, true))
    else
      var j := LineEnd(st.rest, 0);
      if j < |st.rest| then (st.rest[..j], st.(rest := st.rest[j + 1..]))
      else (st.rest, Stream("", true, false))
  }

  /** getline on a stream whose text starts with a complete line. */
  lemma GetLineOfLine(l: string, rest: string, line: string)
    requires '\n' !in l
    ensures GetLine(Open(l + "\n" + rest), line) == (l, Open(rest))
  {
    var s := l + "\n" + rest;
    var j := LineEnd(s, 0);
    assert s[|l|] == '\n';
    assert forall k :: 0 <= k < |l| ==> s[k] == l[k];
    assert j == |l|;
    assert s[..j] == l && s[j + 1..] == rest;
  }

  // ---------------------------------------------------------------------
  // Formatted extraction works on blank-delimited tokens.

  /** isspace in the C locale: blank, tab, line feed, vertical tab, form
      feed and carriage return. */
  predicate IsSpace(c: char) { c == ' ' || '\t' <= c <= '\r' }

  /** Helper: isspace accepts exactly the library's white-space set. */
  lemma IsSpaceWhite(c: char)
    ensures IsSpace(c) <==> c in SpaceWhite
  {
  }

  /** The end of the run of non-blank characters that starts at i. */
  function TokenEnd(s: string, i: nat): (j: nat)
    requires i <= |s|
    ensures i <= j <= |s| && (j < |s| ==> IsSpace(s[j]))
    decreases |s| - i
  {
    if i == |s| || IsSpace(s[i]) then i else TokenEnd(s, i + 1)
  }

  /** The run TokenEnd stops after holds no white space. */
  lemma {:induction false} TokenEndRun(s: string, i: nat)
    requires i <= |s|
    ensures forall k :: i <= k < TokenEnd(s, i) ==> !IsSpace(s[k])
    decreases |s| - i
  {
    if i < |s| && !IsSpace(s[i]) {
      TokenEndRun(s, i + 1);
    }
  }

  /** The sentry of a formatted extraction skips white space (line breaks
      included) one character at a time, and the extraction reads the
      following token.  A stream that is not good only gets its fail bit;
      running out of text sets eof and fail; a token that ends the text
      sets eof. */
  function ReadToken(st: Stream): (r: (Option<string>, Stream))
    ensures !st.Good() ==> r == (None, st.(fail := true))
    ensures r.0.None? ==> !r.1.Good()
    ensures |r.1.rest| <= |st.rest|
    decreases |st.rest|
  {
    if !st.Good() then (None, st.(fail := true))
    else if st.rest == [] then (None, Stream("", true, true))
    else if IsSpace(st.rest[0]) then ReadToken(st.(rest := st.rest[1..]))
    else
      var j := TokenEnd(st.rest, 0);
      (Some(st.rest[..j]), Stream(st.rest[j..], j == |st.rest|, false))
  }

  /** What a token read leaves: the token is a non-empty run of non-blank
      characters that follows nothing but white space; the stream keeps
      what comes after it, which is empty or starts with white space, and
      is at end of file exactly when nothing comes after it. */
  predicate TokenFits(st: Stream, t: string, st': Stream) {
    && st.Good() && |t| > 0 && !st'.fail
    && (forall k :: 0 <= k < |t| ==> !IsSpace(t[k]))
    && |t| + |st'.rest| <= |st.rest|
    && (var i := |st.rest| - |t| - |st'.rest|;
        st.rest == st.rest[..i] + t + st'.rest && forall k :: 0 <= k < i ==> IsSpace(st.rest[k]))
    && (st'.rest == [] || IsSpace(st'.rest[0]))
    && (st'.eof <==> st'.rest == [])
  }

  /** Every token read fits. */
  lemma {:induction false} TokenRead(st: Stream)
    ensures var r := ReadToken(st); r.0.Some? ==> TokenFits(st, r.0.value, r.1)
    decreases |st.rest|
  {
    if st.Good() && st.rest != [] {
      if IsSpace(st.rest[0]) {
        var st1 := st.(rest := st.rest[1..]);
        TokenRead(st1);
        var r := ReadToken(st1);
        if r.0.Some? {
          TokenAfterSpace(st, st1, r.0.value, r.1);
        }
      } else {
        TokenHere(st);
      }
    }
  }

  /** Helper: a blank in front of a token that fits. */
  lemma TokenAfterSpace(st: Stream, st1: Stream, t: string, st': Stream)
    requires st.Good() && st.rest != [] && IsSpace(st.rest[0]) && st1 == st.(rest := st.rest[1..])
    requires TokenFits(st1, t, st')
    ensures TokenFits(st, t, st')
  {
    var c := st.rest[0];
    var i := |st1.rest| - |t| - |st'.rest|;
    var pre := st1.rest[..i];
    assert st1.rest == pre + t + st'.rest;
    assert st.rest == [c] + st1.rest;
    assert st.rest == ([c] + pre) + t + st'.rest;
    assert st.rest[..i + 1] == [c] + pre;
    assert forall k :: 0 < k < i + 1 ==> st.rest[k] == pre[k - 1];
  }

  /** Helper: a token at the head of the stream fits. */
  lemma TokenHere(st: Stream)
    requires st.Good() && st.rest != [] && !IsSpace(st.rest[0])
    ensures var r := ReadToken(st); r.0.Some? && TokenFits(st, r.0.value, r.1)
  {
    var j := TokenEnd(st.rest, 0);
    TokenEndRun(st.rest, 0);
    assert st.rest == st.rest[..0] + st.rest[..j] + st.rest[j..];
  }

  /** The digits of t from i on, accumulated after acc; None as soon as a
      character is not a digit. */
  function DigitsFrom(t: string, i: nat, acc: nat): (r: Option<nat>)
    requires i <= |t|
    decreases |t| - i
  {
    if i == |t| then Some(acc)
    else if IsDigit(t[i]) then DigitsFrom(t, i + 1, acc * 10 + DigitValue(t[i]))
    else None
  }

  /** The value of a token made of an optional sign and at least one
      digit; None for any other token. */
  function IntToken(t: string): Option<int> {
    var j := if |t| > 0 && (t[0] == '-' || t[0] == '+') then 1 else 0;
    if j == |t| then None
    else
      match DigitsFrom(t, j, 0)
      case None => None
      case Some(n) => Some(if t[0] == '-' then 0 - n else n)
  }

  /** `is >> i` for an `int i`: a stream that is not good, or has no token
      left, leaves `i` as it was; a token that is not a number stores 0
      and sets fail; a number out of range stores the nearest int and sets
      fail. */
  function ExtractInt(st: Stream, v: int): (r: (int, Stream))
    ensures ReadToken(st).0.None? ==> r == (v, ReadToken(st).1)
    ensures ReadToken(st).0.Some? ==> Int32Min <= r.0 <= Int32Max
  {
    match ReadToken(st)
    case (None, st') => (v, st')
    case (Some(t), st') =>
      match IntToken(t)
      case None => (0, st'.(fail := true))
      case Some(n) =>
        if n < Int32Min then (Int32Min, st'.(fail := true))
        else if n > Int32Max then (Int32Max, st'.(fail := true))
        else (n, st')
  }

  /** A successful `>> int` read a whole integer token whose value fits an
      int, and stored that value. */
  lemma ExtractIntGood(st: Stream, v: int)
    ensures var (n, st') := ExtractInt(st, v);
      st'.Good() ==>
        && st.Good() && ReadToken(st).0.Some? && IntToken(ReadToken(st).0.value) == Some(n)
        && Int32Min <= n <= Int32Max && st' == ReadToken(st).1
  {
  }

  /** `is >> d` for a `double d`, the digits being read by env.scanDouble. */
  function ExtractDouble(st: Stream, v: real, env: Env): (r: (real, Stream))
    ensures r.1.Good() ==> st.Good() && ReadToken(st).0.Some? && env.scanDouble(ReadToken(st).0.value).Some?
    ensures r.1.Good() ==> r.0 == env.scanDouble(ReadToken(st).0.value).value
    ensures ReadToken(st).0.None? ==> r.0 == v
  {
    match ReadToken(st)
    case (None, st') => (v, st')
    case (Some(t), st') =>
      match env.scanDouble(t)
      case None => (0.0, st'.(fail := true))
      case Some(d) => (d, st')
  }

  // ---------------------------------------------------------------------
  // Reading back what was written

  /** Helper: TokenEnd stops at the first blank after a run of non-blank
      characters. */
  lemma {:induction false} TokenEndOf(t: string, s: string, i: nat)
    requires i <= |t| && forall k :: 0 <= k < |t| ==> !IsSpace(t[k])
    requires s == [] || IsSpace(s[0])
    ensures TokenEnd(t + s, i) == |t|
    decreases |t| - i
  {
    if i < |t| {
      assert (t + s)[i] == t[i];
      TokenEndOf(t, s, i + 1);
    } else if s != [] {
      assert (t + s)[i] == s[0];
    }
  }

  /** A token behind white space, followed by a blank, is read whole and
      the stream stops at the blank. */
  lemma {:induction false} ReadTokenOf(w: string, t: string, s: string)
    requires forall k :: 0 <= k < |w| ==> IsSpace(w[k])
    requires |t| > 0 && forall k :: 0 <= k < |t| ==> !IsSpace(t[k])
    requires |s| > 0 && IsSpace(s[0])
    ensures ReadToken(Open(w + t + s)) == (Some(t), Open(s))
    decreases |w|
  {
    var x := w + t + s;
    if |w| > 0 {
      assert x[0] == w[0];
      assert x[1..] == w[1..] + t + s;
      ReadTokenOf(w[1..], t, s);
    } else {
      assert x == t + s;
      assert x[0] == t[0];
      TokenEndOf(t, s, 0);
      assert x[..|t|] == t && x[|t|..] == s;
    }
  }

  /** Helper: the digits of a run read by DigitsFrom give its decimal
      value. */
  lemma {:induction false} DigitsFromDec(t: string, i: nat, acc: nat)
    requires i <= |t| && forall k :: 0 <= k < |t| ==> IsDigit(t[k])
    requires acc == DecValue(t[..i])
    ensures DigitsFrom(t, i, acc) == Some(DecValue(t))
    decreases |t| - i
  {
    if i < |t| {
      assert t[..i + 1][..i] == t[..i];
      DigitsFromDec(t, i + 1, acc * 10 + DigitValue(t[i]));
    } else {
      assert t[..i] == t;
    }
  }

  /** `>> int` reads back a written count that fits an int. */
  lemma ExtractIntOf(w: string, n: nat, s: string, v: int)
    requires forall k :: 0 <= k < |w| ==> IsSpace(w[k])
    requires n <= Int32Max
    requires |s| > 0 && IsSpace(s[0])
    ensures ExtractInt(Open(w + NatToString(n) + s), v) == (n, Open(s))
  {
    var t := NatToString(n);
    ReadTokenOf(w, t, s);
    assert t[..0] == [];
    DigitsFromDec(t, 0, 0);
    DecValueOfNatToString(n);
  }

  /** `>> double` reads a token scanDouble accepts. */
  lemma ExtractDoubleOf(w: string, t: string, s: string, v: real, env: Env)
    requires forall k :: 0 <= k < |w| ==> IsSpace(w[k])
    requires |t| > 0 && forall k :: 0 <= k < |t| ==> !IsSpace(t[k])
    requires |s| > 0 && IsSpace(s[0])
    requires env.scanDouble(t).Some?
    ensures ExtractDouble(Open(w + t + s), v, env) == (env.scanDouble(t).value, Open(s))
  {
    ReadTokenOf(w, t, s);
  }

  /** Every reading step keeps a stream that failed failed, and never makes
      the unread text longer. */
  lemma ReadingNeverRecovers(st: Stream, line: string, v: int, d: real, env: Env)
    ensures var s1 := GetLine(st, line).1; (st.fail ==> s1.fail) && |s1.rest| <= |st.rest|
    ensures var s2 := ExtractInt(st, v).1; (st.fail ==> s2.fail) && |s2.rest| <= |st.rest|
    ensures var s3 := ExtractDouble(st, d, env).1; (st.fail ==> s3.fail) && |s3.rest| <= |st.rest|
  {
  }
}
