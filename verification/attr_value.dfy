/** AttrValue: one attribute value of a MID record.  It caches a text form
    and a numeric form side by side; two flag bits say which of the two is
    set (bit 0: text, bit 1: number).  Reading the form that is missing
    computes it from the other one and sets its bit. */
module AttrValues {
  import opened Utils
  import opened Foreign

  /** A snapshot of an AttrValue's fields. */
  datatype AttrState = AttrState(str: string, num: real, textBit: bool, numBit: bool)
  {
    /** The default-constructed value is the only one with no bit set. */
    predicate Valid() {
      !textBit && !numBit ==> str == "" && num == 0.0
    }
  }

  // ---------------------------------------------------------------------
  // std::string ordering

  /** std::string operator<: lexicographic, a proper prefix first. */
  predicate LexLess(a: string, b: string) {
    if |b| == 0 then false
    else if |a| == 0 then true
    else if a[0] != b[0] then a[0] < b[0]
    else LexLess(a[1..], b[1..])
  }

  /** The string ordering is a strict total order: never both ways, never
      on equal strings, and one way or the other on different strings. */
  lemma {:induction false} LexLessStrictTotal(a: string, b: string)
    ensures !(LexLess(a, b) && LexLess(b, a))
    ensures LexLess(a, b) || LexLess(b, a) || a == b
    ensures a == b ==> !LexLess(a, b)
    decreases |a|
  {
    if |a| > 0 && |b| > 0 && a[0] == b[0] {
      LexLessStrictTotal(a[1..], b[1..]);
      if a[1..] == b[1..] {
        assert a == [a[0]] + a[1..] && b == [b[0]] + b[1..];
      }
    }
  }

  lemma {:induction false} LexLessTransitive(a: string, b: string, c: string)
    requires LexLess(a, b) && LexLess(b, c)
    ensures LexLess(a, c)
    decreases |a|
  {
    if |a| > 0 && a[0] == b[0] && b[0] == c[0] {
      LexLessTransitive(a[1..], b[1..], c[1..]);
    }
  }

  // ---------------------------------------------------------------------
  // Comparison operators (attr_value.cpp:53-81).  Text is compared when
  // both sides hold text, numbers when both hold numbers; otherwise `==`
  // answers true and `<`, `>` answer false.

  predicate Equal(a: AttrState, b: AttrState) {
    if a.textBit && b.textBit then a.str == b.str
    else if a.numBit && b.numBit then DoubleEqual(a.num, b.num)
    else true
  }

  predicate Less(a: AttrState, b: AttrState) {
    if a.textBit && b.textBit then LexLess(a.str, b.str)
    else if a.numBit && b.numBit then a.num < b.num
    else false
  }

  predicate Greater(a: AttrState, b: AttrState) {
    if a.textBit && b.textBit then LexLess(b.str, a.str)
    else if a.numBit && b.numBit then a.num > b.num
    else false
  }

  /** `==` is reflexive and symmetric; `>` is `<` with the sides swapped;
      `<` is irreflexive; `<` and `>` never hold together; and a strict
      order holds only between values that `==` tells apart. */
  lemma CompareProperties(a: AttrState, b: AttrState)
    ensures Equal(a, a)
    ensures Equal(a, b) == Equal(b, a)
    ensures Greater(a, b) == Less(b, a)
    ensures !Less(a, a)
    ensures !(Less(a, b) && Greater(a, b))
    ensures Less(a, b) && a.textBit && b.textBit ==> !Equal(a, b)
  {
    LexLessStrictTotal(a.str, b.str);
    LexLessStrictTotal(a.str, a.str);
  }

  /** Values that share no flag bit compare equal to everything, so `==`
      is not transitive; nor is it with numbers, through the epsilon. */
  lemma EqualNotTransitive()
    ensures var t1 := AttrState("a", 0.0, true, false);
            var n := AttrState("", 1.0, false, true);
            var t2 := AttrState("b", 0.0, true, false);
            Equal(t1, n) && Equal(n, t2) && !Equal(t1, t2)
    ensures var x := AttrState("", 0.0, false, true);
            var y := AttrState("", 0.000000006, false, true);
            var z := AttrState("", 0.000000012, false, true);
            Equal(x, y) && Equal(y, z) && !Equal(x, z)
  {
    DoubleEqualProperties(0.0, 0.000000006);
  }

  // ---------------------------------------------------------------------
  // The lazy conversions as functions of the state: the value returned and
  // the state afterwards.

  /** getStr (attr_value.cpp:83-89): a value holding only a number gets its
      text cache filled with the number written to 8 decimals. */
  function GetStrSpec(a: AttrState, env: Env): (r: (string, AttrState))
    ensures r.1.textBit == (a.textBit || a.numBit)
    ensures r.1.numBit == a.numBit && r.1.num == a.num
    ensures r.0 == r.1.str
    ensures a.textBit || !a.numBit ==> r.1 == a
    ensures !a.textBit && a.numBit ==> r.0 == env.fixed(a.num, DoublePrecision)
  {
    if !a.textBit && a.numBit then
      var s := env.fixed(a.num, DoublePrecision);
      (s, a.(str := s, textBit := true))
    else (a.str, a)
  }

  /** getDouble (attr_value.cpp:95-101): a value holding only text gets its
      number cache filled with strtod of the text. */
  function GetDoubleSpec(a: AttrState, env: Env): (r: (real, AttrState))
    ensures r.1.numBit == (a.textBit || a.numBit)
    ensures r.1.textBit == a.textBit && r.1.str == a.str
    ensures r.0 == r.1.num
    ensures a.numBit || !a.textBit ==> r.1 == a
    ensures !a.numBit && a.textBit ==> r.0 == env.strtod(CStr(a.str))
  {
    if !a.numBit && a.textBit then
      var d := env.strtod(CStr(a.str));
      (d, a.(num := d, numBit := true))
    else (a.num, a)
  }

  /** static_cast<int32_t> of a double: truncation toward zero.  The cast is
      defined only when the truncated value fits an `int32_t`, which is the
      case exactly for doubles strictly between -2^31-1 and 2^31; outside
      that range the result here is the unbounded truncation. */
  function Trunc(d: real): (r: int)
    ensures 0.0 <= d ==> r as real <= d < r as real + 1.0
    ensures d < 0.0 ==> r as real - 1.0 < d <= r as real
    ensures (Int32Min - 1) as real < d < (Int32Max + 1) as real <==> Int32Min <= r <= Int32Max
  {
    if d >= 0.0 then d.Floor else -((-d).Floor)
  }

  /** ValueEqual (attr_value.cpp:103-106): `==`, or else equal texts after
      both sides have filled their text caches. */
  function ValueEqualSpec(a: AttrState, b: AttrState, env: Env): (r: (bool, AttrState, AttrState))
    ensures Equal(a, b) ==> r == (true, a, b)
    ensures !Equal(a, b) ==> r.1 == GetStrSpec(a, env).1 && r.2 == GetStrSpec(b, env).1
    ensures r.0 <==> Equal(a, b) || GetStrSpec(a, env).0 == GetStrSpec(b, env).0
  {
    if Equal(a, b) then (true, a, b)
    else
      var (sa, a') := GetStrSpec(a, env);
      var (sb, b') := GetStrSpec(b, env);
      (sa == sb, a', b')
  }

  /** The conversions keep the invariant, fill their cache once and then
      leave the value alone, and never touch the other cache. */
  lemma ConversionsSettle(a: AttrState, env: Env)
    requires a.Valid()
    ensures GetStrSpec(a, env).1.Valid() && GetDoubleSpec(a, env).1.Valid()
    ensures var (s, a') := GetStrSpec(a, env); GetStrSpec(a', env) == (s, a')
    ensures var (d, a') := GetDoubleSpec(a, env); GetDoubleSpec(a', env) == (d, a')
    ensures GetStrSpec(GetDoubleSpec(a, env).1, env).0 == GetStrSpec(a, env).0 || !a.textBit
    ensures !a.textBit && !a.numBit ==> GetStrSpec(a, env).0 == "" && GetDoubleSpec(a, env).0 == 0.0
  {
  }

  /** ValueEqual is symmetric in its answer and true of a value and itself;
      two texts that differ never compare equal through it. */
  lemma ValueEqualProperties(a: AttrState, b: AttrState, env: Env)
    ensures ValueEqualSpec(a, b, env).0 == ValueEqualSpec(b, a, env).0
    ensures ValueEqualSpec(a, a, env).0
    ensures a.textBit && b.textBit ==> (ValueEqualSpec(a, b, env).0 <==> a.str == b.str)
  {
  }

  // ---------------------------------------------------------------------

  class AttrValue {
    var str: string
    var num: real
    var textBit: bool
    var numBit: bool

    function View(): AttrState
      reads this
    {
      AttrState(str, num, textBit, numBit)
    }

    /** AttrValue(): no bit set, empty text, zero. */
    constructor ()
      ensures View() == AttrState("", 0.0, false, false)
    {
      str, num, textBit, numBit := "", 0.0, false, false;
    }

    /** AttrValue(const std::string&) and AttrValue(const char*). */
    constructor FromText(v: string)
      ensures View() == AttrState(v, 0.0, true, false)
    {
      str, num, textBit, numBit := v, 0.0, true, false;
    }

    /** AttrValue(int32_t) and AttrValue(double); an int32_t converts to a
        double exactly. */
    constructor FromNumber(v: real)
      ensures View() == AttrState("", v, false, true)
    {
      str, num, textBit, numBit := "", v, false, true;
    }

    /** The copy and move constructors. */
    constructor Copy(rhs: AttrValue)
      ensures View() == rhs.View()
    {
      str, num, textBit, numBit := rhs.str, rhs.num, rhs.textBit, rhs.numBit;
    }

    /** Copy and move assignment; assigning a value to itself changes nothing. */
    method AssignFrom(rhs: AttrValue)
      modifies this
      ensures View() == old(rhs.View())
    {
      if this != rhs {
        str, num, textBit, numBit := rhs.str, rhs.num, rhs.textBit, rhs.numBit;
      }
    }

    /** operator=(const std::string&) and operator=(const char*): the number
        cache keeps its stale content, only the text bit stays set. */
    method AssignText(v: string)
      modifies this
      ensures View() == old(View()).(str := v, textBit := true, numBit := false)
    {
      str := v;
      textBit, numBit := true, false;
    }

    /** operator=(int32_t) and operator=(double): the text cache keeps its
        stale content, only the number bit stays set. */
    method AssignNumber(v: real)
      modifies this
      ensures View() == old(View()).(num := v, textBit := false, numBit := true)
    {
      num := v;
      textBit, numBit := false, true;
    }

    method GetStr(env: Env) returns (s: string)
      modifies this
      ensures (s, View()) == GetStrSpec(old(View()), env)
    {
      if !textBit && numBit {
        str := env.fixed(num, DoublePrecision);
        textBit := true;
      }
      s := str;
    }

    method GetDouble(env: Env) returns (d: real)
      modifies this
      ensures (d, View()) == GetDoubleSpec(old(View()), env)
    {
      if !numBit && textBit {
        num := env.strtod(CStr(str));
        numBit := true;
      }
      d := num;
    }

    /** getInt: getDouble truncated toward zero. */
    method GetInt(env: Env) returns (i: int)
      modifies this
      ensures i == Trunc(GetDoubleSpec(old(View()), env).0)
      ensures View() == GetDoubleSpec(old(View()), env).1
    {
      var d := GetDouble(env);
      i := Trunc(d);
    }

    /** ValueEqual updates the text caches of both sides when `==` fails;
        called with itself it answers true and changes nothing. */
    method ValueEqual(rhs: AttrValue, env: Env) returns (eq: bool)
      modifies this, rhs
      ensures this != rhs ==> (eq, View(), rhs.View()) == ValueEqualSpec(old(View()), old(rhs.View()), env)
      ensures this == rhs ==> eq && View() == old(View())
    {
      if Equal(View(), rhs.View()) {
        return true;
      }
      var a := GetStr(env);
      var b := rhs.GetStr(env);
      eq := a == b;
    }
  }
}
