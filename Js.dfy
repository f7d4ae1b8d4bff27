/**
 * The JavaScript built-ins the event handlers lean on, stated over exact
 * integers and reals: `parseInt` (no radix), `String.prototype.trim` and
 * `Math.round`. `NaN` is represented by `None`.
 */
module Js {

  datatype Option<T> = None | Some(value: T)

  /** WhiteSpace and LineTerminator code points, as trimmed by `trim` and skipped by `parseInt`. */
  predicate IsSpace(c: char)
  {
    var n := c as int;
    n == 0x09 || n == 0x0A || n == 0x0B || n == 0x0C || n == 0x0D || n == 0x20 ||
    n == 0xA0 || n == 0x1680 || (0x2000 <= n <= 0x200A) || n == 0x2028 || n == 0x2029 ||
    n == 0x202F || n == 0x205F || n == 0x3000 || n == 0xFEFF
  }

  /** `s` with its leading white space removed. */
  function TrimStart(s: string): (r: string)
    ensures |r| <= |s| && r == s[|s| - |r|..]
    ensures r == [] || !IsSpace(r[0])
    ensures forall i :: 0 <= i < |s| - |r| ==> IsSpace(s[i])
  {
    if s == [] || !IsSpace(s[0]) then s else TrimStart(s[1..])
  }

  /** `s` with its trailing white space removed. */
  function TrimEnd(s: string): (r: string)
    ensures |r| <= |s| && r == s[..|r|]
    ensures r == [] || !IsSpace(r[|r| - 1])
    ensures forall i :: |r| <= i < |s| ==> IsSpace(s[i])
  {
    if s == [] || !IsSpace(s[|s| - 1]) then s else TrimEnd(s[..|s| - 1])
  }

  /** Every character of `s` is white space. */
  predicate AllSpace(s: string)
  {
    forall i :: 0 <= i < |s| ==> IsSpace(s[i])
  }

  /** `s.trim()`: what is left neither starts nor ends with white space. */
  function Trim(s: string): (r: string)
    ensures r == [] || (!IsSpace(r[0]) && !IsSpace(r[|r| - 1]))
  {
    var t := TrimStart(s);
    var r := TrimEnd(t);
    assert r != [] ==> r[0] == t[0];
    r
  }

  /** `trim` cuts only white space, and only at the two ends. */
  lemma TrimCutsOnlySpace(s: string)
    ensures exists a, b :: AllSpace(a) && AllSpace(b) && s == a + Trim(s) + b
  {
    var t := TrimStart(s);
    var r := TrimEnd(t);
    assert Trim(s) == r;
    TrimStartCut(s);
    TrimEndCut(t);
    var i := CutPieces(s, t, r);
    SpaceAround(s, i, r);
  }

  /**
   * If `t` is a suffix of `s` after white space and `r` a prefix of `t`
   * before white space, `r` sits at index `i` of `s` with white space around it.
   */
  lemma CutPieces(s: string, t: string, r: string) returns (i: nat)
    requires |t| <= |s| && t == s[|s| - |t|..] && AllSpace(s[..|s| - |t|])
    requires |r| <= |t| && r == t[..|r|] && AllSpace(t[|r|..])
    ensures i + |r| <= |s| && AllSpace(s[..i]) && s[i..i + |r|] == r && AllSpace(s[i + |r|..])
  {
    InnerSlice(s, t, r);
    i := |s| - |t|;
  }

  lemma SpaceAround(s: string, i: nat, r: string)
    requires i + |r| <= |s| && AllSpace(s[..i]) && s[i..i + |r|] == r && AllSpace(s[i + |r|..])
    ensures exists a, b :: AllSpace(a) && AllSpace(b) && s == a + r + b
  {
    assert s == s[..i] + s[i..i + |r|] + s[i + |r|..];
  }

  /** Slicing a suffix of a suffix is slicing the whole. */
  lemma InnerSlice(s: string, t: string, r: string)
    requires |t| <= |s| && t == s[|s| - |t|..] && |r| <= |t| && r == t[..|r|]
    ensures s[|s| - |t|..|s| - |t| + |r|] == r && s[|s| - |t| + |r|..] == t[|r|..]
  {
  }

  /** What `TrimStart` cuts off is white space. */
  lemma TrimStartCut(s: string)
    ensures AllSpace(s[..|s| - |TrimStart(s)|])
  {
    var n := |s| - |TrimStart(s)|;
    forall j | 0 <= j < n
      ensures IsSpace(s[..n][j])
    {
      assert s[..n][j] == s[j];
    }
  }

  /** What `TrimEnd` cuts off is white space. */
  lemma TrimEndCut(s: string)
    ensures AllSpace(s[|TrimEnd(s)|..])
  {
    var n := |TrimEnd(s)|;
    forall j | 0 <= j < |s| - n
      ensures IsSpace(s[n..][j])
    {
      assert s[n..][j] == s[n + j];
    }
  }

  /** `!s.trim()`: the string is empty once trimmed. */
  predicate IsBlank(s: string)
  {
    Trim(s) == []
  }

  /** A string is blank exactly when every character in it is white space. */
  lemma BlankIffAllSpace(s: string)
    ensures IsBlank(s) <==> forall i :: 0 <= i < |s| ==> IsSpace(s[i])
  {
    if forall i :: 0 <= i < |s| ==> IsSpace(s[i]) {
      TrimStartAllSpace(s);
    } else {
      var k :| 0 <= k < |s| && !IsSpace(s[k]);
      var j := TrimStartKeeps(s, k);
      TrimEndKeeps(TrimStart(s), j);
    }
  }

  lemma {:induction false} TrimStartAllSpace(s: string)
    requires forall i :: 0 <= i < |s| ==> IsSpace(s[i])
    ensures TrimStart(s) == []
  {
    if s != [] {
      TrimStartAllSpace(s[1..]);
    }
  }

  /** A character that is not white space survives `TrimStart`, at index `j` of the result. */
  lemma {:induction false} TrimStartKeeps(s: string, k: int) returns (j: int)
    requires 0 <= k < |s| && !IsSpace(s[k])
    ensures 0 <= j < |TrimStart(s)| && !IsSpace(TrimStart(s)[j])
  {
    if !IsSpace(s[0]) {
      assert TrimStart(s) == s;
      j := k;
    } else {
      assert TrimStart(s) == TrimStart(s[1..]) && s[1..][k - 1] == s[k];
      j := TrimStartKeeps(s[1..], k - 1);
    }
  }

  lemma {:induction false} TrimEndKeeps(s: string, k: int)
    requires 0 <= k < |s| && !IsSpace(s[k])
    ensures TrimEnd(s) != []
  {
    if IsSpace(s[|s| - 1]) {
      TrimEndKeeps(s[..|s| - 1], k);
    }
  }

  /** The value of a character as a digit of the given radix (10 or 16). */
  function DigitValue(c: char, radix: nat): (d: Option<nat>)
    requires radix == 10 || radix == 16
    ensures d.Some? ==> d.value < radix
  {
    if '0' <= c <= '9' then Some(c as nat - '0' as nat)
    else if radix == 16 && 'a' <= c <= 'f' then Some(c as nat - 'a' as nat + 10)
    else if radix == 16 && 'A' <= c <= 'F' then Some(c as nat - 'A' as nat + 10)
    else None
  }

  /** The length of the longest prefix of `s` made of digits of the radix. */
  function LeadingDigits(s: string, radix: nat): (n: nat)
    requires radix == 10 || radix == 16
    ensures n <= |s|
    ensures forall i :: 0 <= i < n ==> DigitValue(s[i], radix).Some?
    ensures n < |s| ==> DigitValue(s[n], radix).None?
  {
    if s == [] || DigitValue(s[0], radix).None? then 0 else 1 + LeadingDigits(s[1..], radix)
  }

  /** The value of a string of digits, most significant first. */
  function DigitsValue(s: string, radix: nat): nat
    requires radix == 10 || radix == 16
    requires forall i :: 0 <= i < |s| ==> DigitValue(s[i], radix).Some?
  {
    if s == [] then 0
    else DigitsValue(s[..|s| - 1], radix) * radix + DigitValue(s[|s| - 1], radix).value
  }

  /**
   * `parseInt(s)` without a radix: skip leading white space, take an optional
   * sign, read hexadecimal after a `0x`/`0X` prefix and decimal otherwise, and
   * stop at the first character that is not a digit. `None` stands for `NaN`,
   * returned when no digit is read. (`-0` and `0` are the same number here.)
   */
  function ParseInt(s: string): Option<int>
  {
    ParseTrimmed(TrimStart(s))
  }

  /** `parseInt` on a string that does not start with white space. */
  function ParseTrimmed(t: string): Option<int>
  {
    match ReadNumeral(WithoutSign(t))
    case None => None
    case Some(m) =>
      var k: int := m;
      Some(if |t| > 0 && t[0] == '-' then -k else k)
  }

  /** `t` without its leading `-` or `+`, if it has one. */
  function WithoutSign(t: string): string
  {
    if |t| > 0 && (t[0] == '-' || t[0] == '+') then t[1..] else t
  }

  predicate HasHexPrefix(u: string)
  {
    |u| >= 2 && u[0] == '0' && (u[1] == 'x' || u[1] == 'X')
  }

  /** The unsigned numeral at the start of `u`: hexadecimal after `0x` or `0X`, decimal otherwise. */
  function ReadNumeral(u: string): Option<nat>
  {
    var hex := HasHexPrefix(u);
    ReadDigits(if hex then u[2..] else u, if hex then 16 else 10)
  }

  /** The value of the longest prefix of digits of `v`; `None` when `v` does not start with a digit. */
  function ReadDigits(v: string, radix: nat): Option<nat>
    requires radix == 10 || radix == 16
  {
    var n := LeadingDigits(v, radix);
    if n == 0 then None else Some(DigitsValue(v[..n], radix))
  }

  /** `parseInt(s) || fallback`: `NaN` and `0` are falsy and give the fallback. */
  function ParseIntOr(s: string, fallback: int): (r: int)
    ensures ParseInt(s).None? || ParseInt(s) == Some(0) ==> r == fallback
    ensures ParseInt(s).Some? && ParseInt(s).value != 0 ==> r == ParseInt(s).value
    ensures fallback != 0 ==> r != 0
  {
    match ParseInt(s)
    case None => fallback
    case Some(n) => if n == 0 then fallback else n
  }

  /** The decimal digit for `d < 10`. */
  function DigitChar(d: nat): (c: char)
    requires d < 10
    ensures DigitValue(c, 10) == Some(d)
  {
    ['0', '1', '2', '3', '4', '5', '6', '7', '8', '9'][d]
  }

  /** `n.toString()` for a non-negative integer. */
  function ShowNat(n: nat): (s: string)
    ensures |s| >= 1
    ensures forall i :: 0 <= i < |s| ==> DigitValue(s[i], 10).Some?
    ensures |s| > 1 ==> s[0] != '0'
  {
    if n < 10 then [DigitChar(n)] else ShowNat(n / 10) + [DigitChar(n % 10)]
  }

  lemma {:induction false} ShowNatValue(n: nat)
    ensures DigitsValue(ShowNat(n), 10) == n
  {
    if n >= 10 {
      var s := ShowNat(n);
      assert s[..|s| - 1] == ShowNat(n / 10);
      ShowNatValue(n / 10);
    }
  }

  /** A plain decimal numeral with no leading zero parses to its value. */
  lemma ParseDecimal(s: string)
    requires |s| >= 1 && forall i :: 0 <= i < |s| ==> DigitValue(s[i], 10).Some?
    requires |s| > 1 ==> s[0] != '0'
    ensures ParseInt(s) == Some(DigitsValue(s, 10))
  {
    DecimalUnprefixed(s);
    ReadAllDigits(s);
  }

  lemma DecimalUnprefixed(s: string)
    requires |s| >= 1 && DigitValue(s[0], 10).Some?
    requires |s| > 1 ==> s[0] != '0'
    ensures TrimStart(s) == s && WithoutSign(s) == s && !HasHexPrefix(s)
  {
    assert !IsSpace(s[0]);
  }

  lemma ReadAllDigits(s: string)
    requires |s| >= 1 && forall i :: 0 <= i < |s| ==> DigitValue(s[i], 10).Some?
    ensures ReadDigits(s, 10) == Some(DigitsValue(s, 10))
  {
    LeadingDigitsAll(s, 10);
    assert s[..|s|] == s;
  }

  lemma {:induction false} LeadingDigitsAll(s: string, radix: nat)
    requires radix == 10 || radix == 16
    requires forall i :: 0 <= i < |s| ==> DigitValue(s[i], radix).Some?
    ensures LeadingDigits(s, radix) == |s|
  {
    if s != [] {
      LeadingDigitsAll(s[1..], radix);
    }
  }

  /**
   * Reading back what `toString` wrote: the radio buttons of a multiple-choice
   * question carry `optIndex.toString()` and the handler calls `parseInt` on it.
   */
  lemma ParseShowNat(n: nat)
    ensures ParseInt(ShowNat(n)) == Some(n)
  {
    ParseDecimal(ShowNat(n));
    ShowNatValue(n);
  }

  /** Leading white space is skipped: it never changes what `parseInt` reads. */
  lemma ParseIntSkipsSpace(c: char, s: string)
    requires IsSpace(c)
    ensures ParseInt([c] + s) == ParseInt(s)
  {
    TrimStartSpace(c, s);
  }

  lemma TrimStartSpace(c: char, s: string)
    requires IsSpace(c)
    ensures TrimStart([c] + s) == TrimStart(s)
  {
    var t := [c] + s;
    assert t[1..] == s;
    TrimStartSkip(t);
  }

  lemma TrimStartSkip(t: string)
    requires t != [] && IsSpace(t[0])
    ensures TrimStart(t) == TrimStart(t[1..])
  {
  }


  /** The negation of a parsed number; `NaN` stays `NaN`. */
  function Negated(n: Option<int>): (r: Option<int>)
    ensures r.None? <==> n.None?
    ensures r.Some? ==> r.value == -n.value
  {
    match n
    case None => None
    case Some(k) => Some(-k)
  }

  /** A leading `-` negates what the rest reads, when the rest starts with neither white space nor a sign. */
  lemma ParseIntMinus(s: string)
    requires s == [] || (!IsSpace(s[0]) && s[0] != '-' && s[0] != '+')
    ensures ParseInt("-" + s) == Negated(ParseInt(s))
  {
    UntrimmedStart("-" + s);
    UntrimmedStart(s);
    MinusSign(s);
  }

  lemma UntrimmedStart(t: string)
    requires t == [] || !IsSpace(t[0])
    ensures TrimStart(t) == t
  {
  }

  lemma MinusSign(s: string)
    requires s == [] || (s[0] != '-' && s[0] != '+')
    ensures ParseTrimmed("-" + s) == Negated(ParseTrimmed(s))
  {
    assert WithoutSign("-" + s) == s;
    assert WithoutSign(s) == s;
  }

  /**
   * `parseInt` stops at the first character that is not a decimal digit:
   * `parseInt("12px")` is 12. A `0` followed by `x` or `X` is the exception,
   * since it starts a hexadecimal numeral.
   */
  lemma ParseNumeralThenText(n: nat, rest: string)
    requires rest == [] || DigitValue(rest[0], 10).None?
    requires n == 0 && rest != [] ==> rest[0] != 'x' && rest[0] != 'X'
    ensures ParseInt(ShowNat(n) + rest) == Some(n)
  {
    var d := ShowNat(n);
    var s := d + rest;
    NumeralThenText(n, rest);
    assert s[0] == d[0];
    assert DigitValue(s[0], 10).Some?;
    DigitIsPlain(s[0]);
    ParsePlain(s);
  }

  /** A decimal digit is neither white space nor a sign. */
  lemma DigitIsPlain(c: char)
    requires DigitValue(c, 10).Some?
    ensures !IsSpace(c) && c != '-' && c != '+'
  {
  }

  /** Without leading white space or a sign, `parseInt` reads the numeral at the very start. */
  lemma ParsePlain(s: string)
    requires s != [] && !IsSpace(s[0]) && s[0] != '-' && s[0] != '+'
    ensures ParseInt(s) == match ReadNumeral(s) case None => None case Some(m) => Some(m)
  {
  }

  /** The digits of `n` followed by a non-digit: no hexadecimal prefix, and exactly `n` is read. */
  lemma NumeralThenText(n: nat, rest: string)
    requires rest == [] || DigitValue(rest[0], 10).None?
    requires n == 0 && rest != [] ==> rest[0] != 'x' && rest[0] != 'X'
    ensures ReadNumeral(ShowNat(n) + rest) == Some(n)
  {
    var d := ShowNat(n);
    if |d| == 1 {
      assert n < 10 && d == [DigitChar(n)];
    }
    DigitsThenText(d, rest);
    assert (d + rest)[..|d|] == d;
    ShowNatValue(n);
  }

  lemma DigitsThenText(d: string, rest: string)
    requires forall i :: 0 <= i < |d| ==> DigitValue(d[i], 10).Some?
    requires rest == [] || DigitValue(rest[0], 10).None?
    ensures LeadingDigits(d + rest, 10) == |d|
  {
    assert forall i :: 0 <= i < |d| ==> (d + rest)[i] == d[i];
    assert rest != [] ==> (d + rest)[|d|] == rest[0];
  }

  /** `Math.round(x)`: the nearest integer, halves rounded upwards. */
  function Round(x: real): (r: int)
    ensures x - 0.5 < r as real <= x + 0.5
  {
    (x + 0.5).Floor
  }

  /** Worked values; -2.5 going to -2 shows that halves round upwards, not away from zero. */
  lemma RoundExamples()
    ensures Round(200.0 / 3.0) == 67
    ensures Round(75.0) == 75
    ensures Round(-2.5) == -2
  {
  }

  /**
   * `s.filter(x => key(x) !== k)`: the elements whose key differs from `k`.
   * Together with `WithoutKeyAppend` this fixes the result completely: each
   * element is kept or dropped on its own and the kept ones stay in order.
   */
  function WithoutKey<T(!new), K(==)>(s: seq<T>, key: T -> K, k: K): (r: seq<T>)
    ensures |r| <= |s|
    ensures forall x :: x in r <==> x in s && key(x) != k
  {
    if s == [] then []
    else
      var rest := WithoutKey(s[1..], key, k);
      assert forall x :: x in s <==> x == s[0] || x in s[1..];
      if key(s[0]) != k then [s[0]] + rest else rest
  }

  /** Filtering a concatenation filters each part and keeps them in order. */
  lemma {:induction false} WithoutKeyAppend<T(!new), K>(a: seq<T>, b: seq<T>, key: T -> K, k: K)
    ensures WithoutKey(a + b, key, k) == WithoutKey(a, key, k) + WithoutKey(b, key, k)
  {
    if a == [] {
      assert a + b == b;
    } else {
      assert (a + b)[0] == a[0] && (a + b)[1..] == a[1..] + b;
      WithoutKeyAppend(a[1..], b, key, k);
      if key(a[0]) != k {
        assert WithoutKey(a + b, key, k) == [a[0]] + WithoutKey(a[1..] + b, key, k);
      }
    }
  }

  /** When no element carries the key, filtering changes nothing. */
  lemma {:induction false} WithoutKeyAbsent<T(!new), K>(s: seq<T>, key: T -> K, k: K)
    requires forall i :: 0 <= i < |s| ==> key(s[i]) != k
    ensures WithoutKey(s, key, k) == s
  {
    if s != [] {
      WithoutKeyAbsent(s[1..], key, k);
    }
  }

  /** Filtering twice is filtering once. */
  lemma WithoutKeyIdempotent<T(!new), K>(s: seq<T>, key: T -> K, k: K)
    ensures WithoutKey(WithoutKey(s, key, k), key, k) == WithoutKey(s, key, k)
  {
    var r := WithoutKey(s, key, k);
    forall i | 0 <= i < |r|
      ensures key(r[i]) != k
    {
      assert r[i] in r;
    }
    WithoutKeyAbsent(r, key, k);
  }

  /** An element whose key differs is kept as many times as it occurs; one with the key, never. */
  lemma {:induction false} WithoutKeyCount<T(!new), K>(s: seq<T>, key: T -> K, k: K, x: T)
    ensures multiset(WithoutKey(s, key, k))[x] == if key(x) != k then multiset(s)[x] else 0
  {
    if s != [] {
      var rest := WithoutKey(s[1..], key, k);
      WithoutKeyCount(s[1..], key, k, x);
      assert multiset(s) == multiset([s[0]]) + multiset(s[1..]) by {
        assert s == [s[0]] + s[1..];
      }
      if key(s[0]) != k {
        assert multiset(WithoutKey(s, key, k)) == multiset([s[0]]) + multiset(rest);
      } else {
        assert WithoutKey(s, key, k) == rest;
      }
    }
  }

  /**
   * `s.find(x => key(x) === k)`: the first element carrying the key, `None`
   * (`undefined`) when there is none.
   */
  function FindByKey<T, K(==)>(s: seq<T>, key: T -> K, k: K): (r: Option<T>)
    ensures r.None? <==> forall i :: 0 <= i < |s| ==> key(s[i]) != k
    ensures r.Some? ==> exists i :: 0 <= i < |s| && s[i] == r.value && key(r.value) == k &&
                                    forall j :: 0 <= j < i ==> key(s[j]) != k
  {
    if s == [] then None
    else if key(s[0]) == k then Some(s[0])
    else
      var r := FindByKey(s[1..], key, k);
      assert forall i :: 0 < i < |s| ==> s[i] == s[1..][i - 1];
      r
  }

  /** An appended element is found only when nothing before it carries the key. */
  lemma {:induction false} FindByKeyAppend<T, K>(s: seq<T>, x: T, key: T -> K, k: K)
    ensures FindByKey(s + [x], key, k) ==
              if FindByKey(s, key, k).Some? then FindByKey(s, key, k)
              else if key(x) == k then Some(x) else None
  {
    if s != [] {
      assert (s + [x])[1..] == s[1..] + [x];
      FindByKeyAppend(s[1..], x, key, k);
    }
  }
}
