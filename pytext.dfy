/** The few Python `str` and `int` built-ins the application relies on, over
    `string` (a sequence of code points, as Python's `str` is). */
module PyText {

  datatype Option<T> = None | Some(value: T)

  // ---------------------------------------------------------------------
  // str.strip()
  // ---------------------------------------------------------------------

  /** The characters for which Python's `str.isspace()` holds; `str.strip()`
      with no argument removes exactly these from both ends. */
  predicate IsSpace(c: char) {
    var n := c as int;
    (0x09 <= n <= 0x0D) || (0x1C <= n <= 0x20) || n == 0x85 || n == 0xA0
    || n == 0x1680 || (0x2000 <= n <= 0x200A) || n == 0x2028 || n == 0x2029
    || n == 0x202F || n == 0x205F || n == 0x3000
  }

  predicate AllSpace(s: string) {
    forall i :: 0 <= i < |s| ==> IsSpace(s[i])
  }

  /** `s.lstrip()`. */
  function TrimStart(s: string): string {
    if s == [] || !IsSpace(s[0]) then s else TrimStart(s[1..])
  }

  /** `s.rstrip()`. */
  function TrimEnd(s: string): string {
    if s == [] || !IsSpace(s[|s| - 1]) then s else TrimEnd(s[..|s| - 1])
  }

  /** `s.strip()`. */
  function Strip(s: string): string {
    TrimEnd(TrimStart(s))
  }

  /** `lstrip` keeps the longest suffix of `s` that does not start with
      whitespace: what it drops is all whitespace. */
  lemma {:induction false} TrimStartSpec(s: string)
    ensures var r := TrimStart(s);
            |r| <= |s| && r == s[|s| - |r|..] && AllSpace(s[..|s| - |r|])
            && (r == [] || !IsSpace(r[0]))
    decreases |s|
  {
    if s != [] && IsSpace(s[0]) {
      TrimStartSpec(s[1..]);
      var r := TrimStart(s[1..]);
      assert s[..|s| - |r|] == [s[0]] + s[1..][..|s| - 1 - |r|];
    }
  }

  /** `rstrip` keeps the longest prefix of `s` that does not end with
      whitespace: what it drops is all whitespace. */
  lemma {:induction false} TrimEndSpec(s: string)
    ensures var r := TrimEnd(s);
            |r| <= |s| && r == s[..|r|] && AllSpace(s[|r|..])
            && (r == [] || !IsSpace(r[|r| - 1]))
    decreases |s|
  {
    if s != [] && IsSpace(s[|s| - 1]) {
      TrimEndSpec(s[..|s| - 1]);
      var r := TrimEnd(s[..|s| - 1]);
      assert s[|r|..] == s[..|s| - 1][|r|..] + [s[|s| - 1]];
    }
  }

  /** Stripping removes only whitespace, and only from the two ends: the
      result is an infix of `s` that neither starts nor ends with
      whitespace. */
  lemma StripIsInfix(s: string)
    ensures var r := Strip(s);
            exists i :: 0 <= i <= |s| - |r| && r == s[i..i + |r|]
                        && AllSpace(s[..i]) && AllSpace(s[i + |r|..])
    ensures var r := Strip(s);
            r == [] || (!IsSpace(r[0]) && !IsSpace(r[|r| - 1]))
  {
    var t := TrimStart(s);
    TrimStartSpec(s);
    TrimEndSpec(t);
    var r := TrimEnd(t);
    var i := |s| - |t|;
    assert t[..|r|] == s[i..i + |r|];
    assert t[|r|..] == s[i + |r|..];
    if r != [] {
      assert r[0] == t[0];
    }
  }

  /** `s.strip()` is empty exactly when `s` is made of whitespace only (in
      Python: `not s.strip()` holds iff every character of `s` is a space). */
  lemma StripEmptyIff(s: string)
    ensures Strip(s) == [] <==> AllSpace(s)
  {
    var t := TrimStart(s);
    TrimStartSpec(s);
    TrimEndSpec(t);
    if Strip(s) == [] {
      assert t[0..] == t;
      assert s[..|s|] == s;
    }
  }

  /** Stripping twice is stripping once. */
  lemma StripIdempotent(s: string)
    ensures Strip(Strip(s)) == Strip(s)
  {
    StripIsInfix(s);
    var r := Strip(s);
    assert TrimStart(r) == r;
  }

  /** Stripping never lengthens a text. */
  lemma StripShortens(s: string)
    ensures |Strip(s)| <= |s|
  {
    StripIsInfix(s);
  }

  // ---------------------------------------------------------------------
  // s[:n]
  // ---------------------------------------------------------------------

  /** `s.startswith(p)`. */
  predicate IsPrefix(p: string, s: string) {
    |p| <= |s| && p == s[..|p|]
  }

  /** Python's prefix slice `s[:n]`: a negative `n` counts from the end, and
      an `n` past either end is clamped. */
  function SlicePrefix(s: string, n: int): (r: string)
    ensures n >= 0 ==> |r| == if n <= |s| then n else |s|
    ensures n < 0 ==> |r| == if |s| + n >= 0 then |s| + n else 0
    ensures r == s[..|r|]
  {
    if n >= 0 then (if n <= |s| then s[..n] else s)
    else if |s| + n >= 0 then s[..|s| + n]
    else []
  }

  // ---------------------------------------------------------------------
  // str.find and str.replace
  // ---------------------------------------------------------------------

  /** `p` occurs in `s` starting at index `i`. */
  predicate OccursAt(s: string, p: string, i: int) {
    0 <= i && i + |p| <= |s| && s[i..i + |p|] == p
  }

  /** An occurrence at index `j` of `s[1..]` is one at `j + 1` of `s`. */
  lemma OccursAtTail(s: string, p: string)
    requires s != []
    ensures forall j :: 1 <= j ==> (OccursAt(s, p, j) <==> OccursAt(s[1..], p, j - 1))
  {
    forall j | 1 <= j
      ensures OccursAt(s, p, j) <==> OccursAt(s[1..], p, j - 1)
    {
      if j + |p| <= |s| {
        var u, v := s[j..j + |p|], s[1..][j - 1..j - 1 + |p|];
        assert |u| == |v|;
        forall m | 0 <= m < |u| ensures u[m] == v[m] {
          assert u[m] == s[j + m];
          assert v[m] == s[1..][j - 1 + m];
        }
        assert u == v;
      }
    }
  }

  /** `s.find(p)` for a non-empty `p`: the leftmost index where `p` occurs,
      or -1 when it does not occur. */
  function Find(s: string, p: string): (i: int)
    requires p != []
    ensures i == -1 || (0 <= i <= |s| - |p| && OccursAt(s, p, i))
  {
    if |s| < |p| then -1
    else if s[..|p|] == p then 0
    else
      var k := Find(s[1..], p);
      OccursAtTail(s, p);
      if k < 0 then -1 else k + 1
  }

  /** The index `find` returns is the leftmost occurrence, and -1 means that
      `p` occurs nowhere. */
  lemma {:induction false} FindSpec(s: string, p: string)
    requires p != []
    ensures Find(s, p) >= 0 ==> forall j :: 0 <= j < Find(s, p) ==> !OccursAt(s, p, j)
    ensures Find(s, p) < 0 ==> forall j :: 0 <= j <= |s| - |p| ==> !OccursAt(s, p, j)
    ensures (exists j :: OccursAt(s, p, j)) <==> Find(s, p) >= 0
    decreases |s|
  {
    if |s| >= |p| && s[..|p|] != p {
      FindSpec(s[1..], p);
      OccursAtTail(s, p);
      assert !OccursAt(s, p, 0);
    }
  }

  /** `s.replace(p, rep)` for a non-empty `p`, as CPython computes it: find
      the leftmost occurrence, keep what precedes it, emit the replacement,
      and resume the search after the occurrence; with no occurrence the
      string is returned unchanged. */
  function ReplaceAll(s: string, p: string, rep: string): (r: string)
    requires p != []
    ensures |rep| <= |p| ==> |r| <= |s|
    decreases |s|
  {
    var i := Find(s, p);
    if i < 0 then s else s[..i] + rep + ReplaceAll(s[i + |p|..], p, rep)
  }

  /** A removal (`rep` empty) leaves `s` unchanged exactly when `p` does not
      occur in `s`; otherwise it shortens `s`. */
  lemma RemoveAllUnchangedIff(s: string, p: string)
    requires p != []
    ensures ReplaceAll(s, p, []) == s <==> !(exists j :: OccursAt(s, p, j))
    ensures (exists j :: OccursAt(s, p, j)) ==> |ReplaceAll(s, p, [])| <= |s| - |p|
  {
    FindSpec(s, p);
    var i := Find(s, p);
    if i >= 0 {
      var rest := ReplaceAll(s[i + |p|..], p, []);
      assert |rest| <= |s| - i - |p|;
      assert |ReplaceAll(s, p, [])| <= |s| - |p|;
    }
  }

  /** Replacing `p` by itself changes nothing. */
  lemma {:induction false} ReplaceBySelf(s: string, p: string)
    requires p != []
    ensures ReplaceAll(s, p, p) == s
    decreases |s|
  {
    var i := Find(s, p);
    if i >= 0 {
      ReplaceBySelf(s[i + |p|..], p);
      assert s[i..i + |p|] == p;
      assert s[..i] + s[i..i + |p|] + s[i + |p|..] == s;
    }
  }

  /** A string that does not contain the first character of `p` is left
      unchanged by `replace`. */
  lemma ReplaceAllWithoutLead(s: string, p: string, rep: string)
    requires p != [] && p[0] !in s
    ensures ReplaceAll(s, p, rep) == s
  {
  }

  // ---------------------------------------------------------------------
  // str(n) for an int, as `format` and f-strings render it
  // ---------------------------------------------------------------------

  predicate IsDigit(c: char) {
    '0' as int <= c as int <= '9' as int
  }

  function DigitChar(d: nat): (c: char)
    requires d < 10
    ensures IsDigit(c) && c as int - '0' as int == d
  {
    ('0' as int + d) as char
  }

  /** The decimal digits of `n`, without leading zeros. */
  function NatToString(n: nat): (s: string)
    ensures s != [] && forall i :: 0 <= i < |s| ==> IsDigit(s[i])
    ensures s[0] == '0' ==> n == 0
    decreases n
  {
    if n < 10 then [DigitChar(n)] else NatToString(n / 10) + [DigitChar(n % 10)]
  }

  /** `str(n)`: a leading '-' for a negative number, then its digits. */
  function IntToString(n: int): (s: string)
    ensures s != []
  {
    if n < 0 then "-" + NatToString(-n) else NatToString(n)
  }

  /** The value of a string of decimal digits. */
  function DigitsValue(s: string): nat
    requires forall i :: 0 <= i < |s| ==> IsDigit(s[i])
  {
    if s == [] then 0
    else
      assert IsDigit(s[|s| - 1]);
      DigitsValue(s[..|s| - 1]) * 10 + (s[|s| - 1] as int - '0' as int)
  }

  /** Python's `int(s)` on the strings `str` produces: an optional '-'
      followed by decimal digits. */
  function ParseInt(s: string): Option<int> {
    if s != [] && s[0] == '-' then
      if |s| > 1 && forall i :: 1 <= i < |s| ==> IsDigit(s[i]) then Some(0 - DigitsValue(s[1..]) as int) else None
    else if s != [] && forall i :: 0 <= i < |s| ==> IsDigit(s[i]) then Some(DigitsValue(s))
    else None
  }

  lemma {:induction false} NatToStringValue(n: nat)
    ensures DigitsValue(NatToString(n)) == n
    decreases n
  {
    if n >= 10 {
      NatToStringValue(n / 10);
      var s := NatToString(n);
      assert s[..|s| - 1] == NatToString(n / 10);
    }
  }

  /** `int` reads a digit string, and the same string after a '-'. */
  lemma ParseDigits(d: string)
    requires d != [] && forall i :: 0 <= i < |d| ==> IsDigit(d[i])
    ensures ParseInt(d) == Some(DigitsValue(d) as int)
    ensures ParseInt("-" + d) == Some(0 - DigitsValue(d) as int)
  {
    var s := "-" + d;
    assert d[0] != '-';
    assert s[0] == '-' && s[1..] == d;
  }

  /** Reading back the decimal rendering of a number gives the number. */
  lemma IntToStringRoundTrip(n: int)
    ensures ParseInt(IntToString(n)) == Some(n)
  {
    var m: nat := if n < 0 then -n else n;
    NatToStringValue(m);
    ParseDigits(NatToString(m));
  }

  /** Distinct numbers are rendered as distinct strings. */
  lemma IntToStringInjective(m: int, n: int)
    ensures IntToString(m) == IntToString(n) ==> m == n
  {
    IntToStringRoundTrip(m);
    IntToStringRoundTrip(n);
  }
}
