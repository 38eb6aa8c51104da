/** Python's `int(s)` on a string, base 10: surrounding whitespace is ignored,
    an optional sign may precede the digits, and single underscores may
    separate digits. Anything else raises `ValueError`, modelled as `None`.
    The number of digits is unlimited here; CPython's default limit of 4300
    digits for a decimal string is not modelled. */
module PyInt {
  import opened Wrappers
  import opened Decimal

  /** The ASCII characters `int` skips around a numeral: space, tab, line
      feed, vertical tab, form feed and carriage return. */
  predicate IsSpace(c: char) {
    c == ' ' || (9 <= c as int <= 13)
  }

  /** `s` without its leading whitespace. */
  function StripStart(s: string): (t: string)
    ensures |t| <= |s| && t == s[|s| - |t|..]
    ensures forall i :: 0 <= i < |s| - |t| ==> IsSpace(s[i])
    ensures t != [] ==> !IsSpace(t[0])
  {
    if s != [] && IsSpace(s[0]) then StripStart(s[1..]) else s
  }

  /** `s` without its trailing whitespace. */
  function StripEnd(s: string): (t: string)
    ensures |t| <= |s| && t == s[..|t|]
    ensures forall i :: |t| <= i < |s| ==> IsSpace(s[i])
    ensures t != [] ==> !IsSpace(t[|t| - 1])
  {
    if s != [] && IsSpace(s[|s| - 1]) then StripEnd(s[..|s| - 1]) else s
  }

  predicate DigitFollows(s: string, i: int)
    requires 0 <= i < |s|
  {
    i + 1 < |s| && IsDigit(s[i + 1])
  }

  /** Digits, possibly grouped by single underscores: "7", "007", "1_000". */
  predicate Grouped(s: string) {
    && |s| > 0 && IsDigit(s[0])
    && forall i :: 0 <= i < |s| ==> IsDigit(s[i]) || (s[i] == '_' && DigitFollows(s, i))
  }

  function DropUnderscores(s: string): (t: string)
    requires forall i :: 0 <= i < |s| ==> IsDigit(s[i]) || s[i] == '_'
    ensures AllDigits(t)
    ensures AllDigits(s) ==> t == s
  {
    if s == [] then []
    else
      assert forall i :: 0 <= i < |s| - 1 ==> s[..|s| - 1][i] == s[i];
      DropUnderscores(s[..|s| - 1]) + (if s[|s| - 1] == '_' then [] else [s[|s| - 1]])
  }

  function GroupedValue(s: string): nat
    requires Grouped(s)
  {
    Value(DropUnderscores(s))
  }

  /** The characters a numeral may contain besides whitespace. */
  predicate IsNumeralChar(c: char) {
    IsDigit(c) || c == '+' || c == '-' || c == '_'
  }

  /** A numeral with its whitespace already stripped: optional sign, then grouped digits. */
  function ParseNumeral(t: string): (r: Option<int>)
    ensures r.Some? ==> forall j :: 0 <= j < |t| ==> IsNumeralChar(t[j])
  {
    if t != [] && (t[0] == '+' || t[0] == '-') then
      var body := t[1..];
      if Grouped(body) then
        assert forall j :: 1 <= j < |t| ==> t[j] == body[j - 1];
        var v: int := GroupedValue(body);
        Some(if t[0] == '-' then -v else v)
      else None
    else if Grouped(t) then Some(GroupedValue(t))
    else None
  }

  function ParseInt(s: string): (r: Option<int>)
    ensures r.Some? ==> forall i :: 0 <= i < |s| ==> IsNumeralChar(s[i]) || IsSpace(s[i])
  {
    var u := StripStart(s);
    var t := StripEnd(u);
    var r := ParseNumeral(t);
    if r.Some? then NumeralChars(s, u, t); r else r
  }

  /** A string made of whitespace, then `t`, then whitespace, where `t` is made
      of numeral characters, is made of those and whitespace. The requires are
      exactly what `StripStart` and `StripEnd` promise. */
  lemma NumeralChars(s: string, u: string, t: string)
    requires |u| <= |s| && u == s[|s| - |u|..]
    requires forall i :: 0 <= i < |s| - |u| ==> IsSpace(s[i])
    requires |t| <= |u| && t == u[..|t|]
    requires forall i :: |t| <= i < |u| ==> IsSpace(u[i])
    requires forall j :: 0 <= j < |t| ==> IsNumeralChar(t[j])
    ensures forall i :: 0 <= i < |s| ==> IsNumeralChar(s[i]) || IsSpace(s[i])
  {
    var o := |s| - |u|;
    forall i | 0 <= i < |s| ensures IsNumeralChar(s[i]) || IsSpace(s[i]) {
      if i < o {
        assert IsSpace(s[i]);
      } else if i - o < |t| {
        assert s[i] == u[i - o] == t[i - o];
        assert IsNumeralChar(t[i - o]);
      } else {
        assert s[i] == u[i - o];
        assert IsSpace(u[i - o]);
      }
    }
  }

  /** `n` as Python's `str(n)` writes it. */
  function Show(n: int): string {
    (if n < 0 then "-" else "") + Canonical(if n < 0 then -n else n)
  }

  /** A string that neither starts nor ends with whitespace is its own numeral part. */
  lemma StripNothing(s: string)
    requires s != [] && !IsSpace(s[0]) && !IsSpace(s[|s| - 1])
    ensures StripEnd(StripStart(s)) == s
  {
  }

  /** A non-empty digit string, with or without a minus sign before it, is a
      numeral denoting its own value. */
  lemma SignedDigits(d: string)
    requires d != [] && AllDigits(d)
    ensures ParseNumeral(d) == Some(Value(d))
    ensures ParseNumeral("-" + d) == Some(-(Value(d) as int))
  {
    assert Grouped(d) && DropUnderscores(d) == d;
    assert ("-" + d)[1..] == d;
  }

  /** Every integer written in canonical decimal is accepted and read back unchanged. */
  lemma ParseShow(n: int)
    ensures ParseInt(Show(n)) == Some(n)
  {
    var d := Canonical(if n < 0 then -n else n);
    var s := Show(n);
    assert s == (if n < 0 then "-" + d else d);
    assert s[|s| - 1] == d[|d| - 1];
    StripNothing(s);
    SignedDigits(d);
  }

  /** A value with a letter or a dot in it, such as "seven" or "3.5", is refused. */
  lemma ParseRejects(s: string, i: int)
    requires 0 <= i < |s| && ('a' <= s[i] <= 'z' || 'A' <= s[i] <= 'Z' || s[i] == '.')
    ensures ParseInt(s) == None
  {
  }
}
