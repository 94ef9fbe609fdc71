/**
 * Values and string primitives shared by the backend and frontend models:
 * an Option type for JavaScript's null/undefined, and the parts of the
 * JavaScript string library the forum code leans on (trim, split, join,
 * startsWith, indexOf, number-to-string and parseInt in base 10).
 * Strings are sequences of Unicode code points.
 */
module Common {

  datatype Option<+T> = None | Some(value: T)

  /** A character matched by `\s` in a JavaScript regular expression; the same
      set is what String.prototype.trim and parseInt skip. */
  predicate IsJsSpace(c: char) {
    || c == ' ' || c == '\t' || c == '\n' || c == '\U{000B}' || c == '\U{000C}' || c == '\r'
    || c == '\U{00A0}' || c == '\U{1680}' || ('\U{2000}' <= c <= '\U{200A}')
    || c == '\U{2028}' || c == '\U{2029}' || c == '\U{202F}' || c == '\U{205F}'
    || c == '\U{3000}' || c == '\U{FEFF}'
  }

  predicate IsDigit(c: char) {
    '0' <= c <= '9'
  }

  /** String.prototype.length: the number of UTF-16 code units, two for a
      character outside the Basic Multilingual Plane. */
  function Utf16Length(s: string): (n: nat)
    ensures |s| <= n <= 2 * |s|
    ensures (forall i :: 0 <= i < |s| ==> s[i] <= '\U{FFFF}') ==> n == |s|
  {
    if s == [] then 0 else (if s[0] <= '\U{FFFF}' then 1 else 2) + Utf16Length(s[1..])
  }

  predicate StartsWith(s: string, prefix: string) {
    |prefix| <= |s| && s[..|prefix|] == prefix
  }

  /** The number of white-space characters `s` starts with. */
  function LeadingSpace(s: string): (n: nat)
    ensures n <= |s|
    ensures forall i :: 0 <= i < n ==> IsJsSpace(s[i])
    ensures n < |s| ==> !IsJsSpace(s[n])
  {
    if s != [] && IsJsSpace(s[0]) then 1 + LeadingSpace(s[1..]) else 0
  }

  /** The number of white-space characters `s` ends with. */
  function TrailingSpace(s: string): (n: nat)
    ensures n <= |s|
    ensures forall i :: |s| - n <= i < |s| ==> IsJsSpace(s[i])
    ensures n < |s| ==> !IsJsSpace(s[|s| - n - 1])
  {
    if s != [] && IsJsSpace(s[|s| - 1]) then 1 + TrailingSpace(s[..|s| - 1]) else 0
  }

  /** String.prototype.trimStart */
  function TrimStart(s: string): string
  {
    s[LeadingSpace(s)..]
  }

  /** String.prototype.trim: the infix of `s` between its leading and its
      trailing white space; it neither starts nor ends with white space, and it
      is empty exactly when `s` is all white space. */
  function Trim(s: string): (r: string)
    ensures var a, b := LeadingSpace(s), TrailingSpace(s);
            r == if a == |s| then "" else s[a..|s| - b]
    ensures r != [] ==> !IsJsSpace(r[0]) && !IsJsSpace(r[|r| - 1])
    ensures (forall i :: 0 <= i < |s| ==> IsJsSpace(s[i])) <==> r == []
  {
    var a := LeadingSpace(s);
    if a == |s| then ""
    else
      var b := TrailingSpace(s);
      assert a <= |s| - b - 1 by {
        assert !IsJsSpace(s[|s| - b - 1]);
      }
      s[a..|s| - b]
  }

  /** String.prototype.split with a one-character separator: the pieces
      between separators, in order, always at least one. */
  function Split(s: string, sep: char): (r: seq<string>)
    ensures |r| >= 1
    ensures forall i :: 0 <= i < |r| ==> sep !in r[i]
    decreases |s|
  {
    if s == [] then [""]
    else
      var rest := Split(s[1..], sep);
      if s[0] == sep then [""] + rest
      else [[s[0]] + rest[0]] + rest[1..]
  }

  /** Array.prototype.join */
  function Join(parts: seq<string>, sep: string): (r: string)
  {
    if |parts| == 0 then ""
    else if |parts| == 1 then parts[0]
    else parts[0] + sep + Join(parts[1..], sep)
  }

  /** Joining the pieces of a split with the separator gives back the string. */
  lemma {:induction false} JoinSplit(s: string, sep: char)
    ensures Join(Split(s, sep), [sep]) == s
    decreases |s|
  {
    if s != [] {
      var rest := Split(s[1..], sep);
      JoinSplit(s[1..], sep);
      if s[0] == sep {
        assert Split(s, sep) == [""] + rest;
      } else {
        assert Split(s, sep) == [[s[0]] + rest[0]] + rest[1..];
        if |rest| > 1 {
          assert Join(rest, [sep]) == rest[0] + [sep] + Join(rest[1..], [sep]);
        }
      }
    }
  }

  lemma {:induction false} SplitAfterPiece(a: string, sep: char, b: string)
    requires sep !in a
    ensures Split(a + [sep] + b, sep) == [a] + Split(b, sep)
    decreases |a|
  {
    if a != [] {
      assert (a + [sep] + b)[1..] == a[1..] + [sep] + b;
      SplitAfterPiece(a[1..], sep, b);
      assert [a[0]] + a[1..] == a;
    } else {
      assert a + [sep] + b == [sep] + b;
      assert ([sep] + b)[1..] == b;
    }
  }

  lemma {:induction false} SplitOfPiece(a: string, sep: char)
    requires sep !in a
    ensures Split(a, sep) == [a]
    decreases |a|
  {
    if a != [] {
      SplitOfPiece(a[1..], sep);
      assert [a[0]] + a[1..] == a;
    }
  }

  /** Splitting pieces joined with a separator they do not contain gives the
      pieces back. */
  lemma {:induction false} SplitJoin(parts: seq<string>, sep: char)
    requires |parts| >= 1
    requires forall i :: 0 <= i < |parts| ==> sep !in parts[i]
    ensures Split(Join(parts, [sep]), sep) == parts
    decreases |parts|
  {
    if |parts| == 1 {
      SplitOfPiece(parts[0], sep);
    } else {
      SplitJoin(parts[1..], sep);
      SplitAfterPiece(parts[0], sep, Join(parts[1..], [sep]));
      assert [parts[0]] + parts[1..] == parts;
    }
  }

  /** Array.prototype.indexOf: the first position of `x`, or -1. */
  function IndexOf<T(==)>(s: seq<T>, x: T): (r: int)
    ensures r == -1 <==> x !in s
    ensures r != -1 ==> 0 <= r < |s| && s[r] == x && x !in s[..r]
  {
    if |s| == 0 then -1
    else if s[0] == x then 0
    else
      var k := IndexOf(s[1..], x);
      assert s[1..] == s[1..][..|s| - 1];
      if k == -1 then -1
      else
        assert s[..k + 1] == [s[0]] + s[1..][..k];
        k + 1
  }

  /** The first `x` is the one right after a piece without `x`. */
  lemma {:induction false} IndexOfAfterPiece<T>(a: seq<T>, x: T, b: seq<T>)
    requires x !in a
    ensures IndexOf(a + [x] + b, x) == |a|
    decreases |a|
  {
    if a != [] {
      assert (a + [x] + b)[1..] == a[1..] + [x] + b;
      IndexOfAfterPiece(a[1..], x, b);
    }
  }

  /** A sequence cut at its first `x` has only one such decomposition. */
  lemma CutAtFirst<T>(a: seq<T>, b: seq<T>, a': seq<T>, b': seq<T>, x: T)
    requires x !in a && x !in a' && a + [x] + b == a' + [x] + b'
    ensures a == a' && b == b'
  {
    var s := a + [x] + b;
    IndexOfAfterPiece(a, x, b);
    IndexOfAfterPiece(a', x, b');
    assert a == s[..|a|] && a' == s[..|a'|];
    assert b == s[|a| + 1..] && b' == s[|a'| + 1..];
  }

  /** Two sequences that agree, with prefixes of the same length, agree
      piece by piece. */
  lemma CutPrefix<T>(a: seq<T>, b: seq<T>, c: seq<T>, d: seq<T>)
    requires a + b == c + d && |a| == |c|
    ensures a == c && b == d
  {
    assert a == (a + b)[..|a|] && c == (c + d)[..|c|];
    assert b == (a + b)[|a|..] && d == (c + d)[|c|..];
  }

  /** The text before the first `c`, all of `s` when there is none. */
  function BeforeFirst(s: string, c: char): (r: string)
    ensures c !in r
    ensures c !in s ==> r == s
    ensures c in s ==> |r| < |s| && r == s[..|r|] && s[|r|] == c
  {
    if c in s then s[..IndexOf(s, c)] else s
  }

  lemma BeforeFirstOf(a: string, c: char, b: string)
    requires c !in a
    ensures BeforeFirst(a + [c] + b, c) == a
  {
    IndexOfAfterPiece(a, c, b);
    assert (a + [c] + b)[..|a|] == a;
  }

  /** `s.split(c)[0]` is the text before the first `c`. */
  lemma {:induction false} FirstOfSplit(s: string, c: char)
    ensures Split(s, c)[0] == BeforeFirst(s, c)
    decreases |s|
  {
    if s != [] && s[0] != c {
      FirstOfSplit(s[1..], c);
      if c in s[1..] {
        var k := IndexOf(s[1..], c);
        assert IndexOf(s, c) == k + 1;
        assert s[..k + 1] == [s[0]] + s[1..][..k];
      } else {
        assert [s[0]] + s[1..] == s;
      }
    }
  }

  /** The text after the last `c`, all of `s` when there is none. */
  function AfterLast(s: string, c: char): (r: string)
    ensures c !in r
    ensures |r| <= |s| && r == s[|s| - |r|..]
    ensures c !in s ==> r == s
    ensures c in s ==> |r| < |s| && s[|s| - |r| - 1] == c
  {
    if s == [] || s[|s| - 1] == c then []
    else
      var r := AfterLast(s[..|s| - 1], c) + [s[|s| - 1]];
      assert s == s[..|s| - 1] + [s[|s| - 1]];
      r
  }

  lemma {:induction false} AfterLastOf(a: string, c: char, b: string)
    requires c !in b
    ensures AfterLast(a + [c] + b, c) == b
    decreases |b|
  {
    var s := a + [c] + b;
    if b != [] {
      var b' := b[..|b| - 1];
      assert s[..|s| - 1] == a + [c] + b';
      AfterLastOf(a, c, b');
      assert b == b' + [b[|b| - 1]];
    }
  }

  /** The last piece of a split is unaffected by what comes before the last
      separator. */
  lemma {:induction false} SplitLastPiece(p: string, sep: char, q: string)
    ensures |Split(p + [sep] + q, sep)| >= 2
    ensures Split(p + [sep] + q, sep)[|Split(p + [sep] + q, sep)| - 1] == Split(q, sep)[|Split(q, sep)| - 1]
    decreases |p|
  {
    var s := p + [sep] + q;
    if p == [] {
      assert s == [sep] + q && s[1..] == q;
    } else {
      assert s[1..] == p[1..] + [sep] + q;
      SplitLastPiece(p[1..], sep, q);
    }
  }

  /** `s.split(c).pop()` is the text after the last `c`. */
  lemma LastOfSplit(s: string, c: char)
    ensures Split(s, c)[|Split(s, c)| - 1] == AfterLast(s, c)
  {
    if c !in s {
      SplitOfPiece(s, c);
    } else {
      var q := AfterLast(s, c);
      var p := s[..|s| - |q| - 1];
      calc {
        Split(s, c)[|Split(s, c)| - 1];
        { assert s == p + [c] + q; }
        Split(p + [c] + q, c)[|Split(p + [c] + q, c)| - 1];
        { SplitLastPiece(p, c, q); }
        Split(q, c)[|Split(q, c)| - 1];
        { SplitOfPiece(q, c); }
        q;
      }
    }
  }

  function DigitChar(d: nat): char
    requires d < 10
  {
    "0123456789"[d]
  }

  /** The decimal text of a natural number, as `${n}` prints it. */
  function NatToString(n: nat): (r: string)
    ensures |r| >= 1
    ensures forall i :: 0 <= i < |r| ==> IsDigit(r[i])
    ensures |r| > 1 ==> r[0] != '0'
  {
    if n < 10 then [DigitChar(n)]
    else NatToString(n / 10) + [DigitChar(n % 10)]
  }

  /** The decimal text of an integer, as `${i}` prints it. */
  function IntToString(i: int): (r: string)
    ensures r != [] && (r[0] == '-' <==> i < 0)
    ensures forall k :: 0 < k < |r| ==> IsDigit(r[k])
    ensures forall k :: 0 <= k < |r| ==> r[k] == '-' || IsDigit(r[k])
  {
    if i < 0 then "-" + NatToString(-i) else NatToString(i)
  }

  function DigitValue(c: char): nat
    requires IsDigit(c)
  {
    c as int - '0' as int
  }

  /** The value of a string of decimal digits. */
  function DigitsValue(s: string): nat
    requires forall i :: 0 <= i < |s| ==> IsDigit(s[i])
  {
    if s == [] then 0 else DigitsValue(s[..|s| - 1]) * 10 + DigitValue(s[|s| - 1])
  }

  lemma {:induction false} DigitsOfNat(n: nat)
    ensures DigitsValue(NatToString(n)) == n
  {
    if n >= 10 {
      DigitsOfNat(n / 10);
      var s := NatToString(n);
      assert s[..|s| - 1] == NatToString(n / 10);
    }
  }

  /** Printing a number and reading it back is the identity, so equal texts
      mean equal numbers. */
  lemma NatToStringInjective(m: nat, n: nat)
    requires NatToString(m) == NatToString(n)
    ensures m == n
  {
    DigitsOfNat(m);
    DigitsOfNat(n);
  }

  lemma IntToStringInjective(i: int, j: int)
    requires IntToString(i) == IntToString(j)
    ensures i == j
  {
    var s := IntToString(i);
    assert i < 0 <==> j < 0 by {
      assert (i < 0 <==> s[0] == '-') && (j < 0 <==> s[0] == '-');
    }
    if i < 0 {
      var a, b := NatToString(-i), NatToString(-j);
      assert a == b by {
        assert a == ("-" + a)[1..] && b == ("-" + b)[1..];
      }
      NatToStringInjective(-i, -j);
    } else {
      NatToStringInjective(i, j);
    }
  }

  /** The length of the longest prefix of `s` made of decimal digits. */
  function DigitPrefix(s: string): (n: nat)
    ensures n <= |s|
    ensures forall i :: 0 <= i < n ==> IsDigit(s[i])
    ensures n < |s| ==> !IsDigit(s[n])
  {
    if s != [] && IsDigit(s[0]) then 1 + DigitPrefix(s[1..]) else 0
  }

  /** `t` is white space only. */
  predicate AllJsSpace(t: string) {
    forall i :: 0 <= i < |t| ==> IsJsSpace(t[i])
  }

  /** A '+' or '-' in front of the digits. */
  predicate IsSign(c: char) {
    c == '+' || c == '-'
  }

  /** The text parseInt reads digits from: what is dropped from the front of
      `s` is white space followed by at most one sign, no white space or sign
      is left at the front unless a sign was dropped, and the flag says
      whether the dropped sign was '-'. */
  function SignedBody(s: string): (r: (bool, string))
    ensures |r.1| <= |s| && r.1 == s[|s| - |r.1|..]
    ensures var cut := |s| - |r.1|; cut > 0 ==> AllJsSpace(s[..cut - 1])
    ensures var cut := |s| - |r.1|; cut > 0 ==> IsJsSpace(s[cut - 1]) || IsSign(s[cut - 1])
    ensures var cut := |s| - |r.1|; r.0 <==> cut > 0 && s[cut - 1] == '-'
    ensures var cut := |s| - |r.1|;
      (cut == 0 || IsJsSpace(s[cut - 1])) ==> r.1 == [] || !(IsJsSpace(r.1[0]) || IsSign(r.1[0]))
  {
    var k := LeadingSpace(s);
    var t := s[k..];
    if t != [] && IsSign(t[0]) then (t[0] == '-', t[1..]) else (false, t)
  }

  /** parseInt(s, 10): the longest run of digits after the white space and the
      sign, negated after a '-'; None stands for NaN, when no digit follows. */
  function ParseInt10(s: string): (r: Option<int>)
    ensures var body := SignedBody(s).1; r.None? <==> (body == [] || !IsDigit(body[0]))
    ensures r.Some? ==>
      var (negative, body) := SignedBody(s);
      var v: int := DigitsValue(body[..DigitPrefix(body)]);
      r.value == if negative then -v else v
  {
    var (negative, body) := SignedBody(s);
    var n := DigitPrefix(body);
    if n == 0 then None
    else
      var v: int := DigitsValue(body[..n]);
      Some(if negative then -v else v)
  }

  /** parseInt reads a number's own text back and stops at the first
      character that is not a digit. */
  lemma ParseIntOfNat(n: nat, rest: string)
    requires rest == [] || !IsDigit(rest[0])
    ensures ParseInt10(NatToString(n) + rest) == Some(n)
  {
    var d := NatToString(n);
    DigitsOfNat(n);
    ParseIntAfterSign("", d, rest);
    assert "" + d + rest == d + rest;
  }

  /** An explicit '+' in front changes nothing. */
  lemma ParseIntOfPlus(n: nat, rest: string)
    requires rest == [] || !IsDigit(rest[0])
    ensures ParseInt10("+" + NatToString(n) + rest) == Some(n)
  {
    DigitsOfNat(n);
    ParseIntAfterSign("+", NatToString(n), rest);
  }

  /** A '-' in front negates the number read. */
  lemma ParseIntOfMinus(n: nat, rest: string)
    requires rest == [] || !IsDigit(rest[0])
    ensures ParseInt10("-" + NatToString(n) + rest) == Some(0 - n)
  {
    DigitsOfNat(n);
    ParseIntAfterSign("-", NatToString(n), rest);
  }

  /** Digits after at most a sign and before a non-digit are read as their
      value, negated after '-'. */
  lemma ParseIntAfterSign(sign: string, d: string, rest: string)
    requires sign == "" || sign == "+" || sign == "-"
    requires d != [] && forall i :: 0 <= i < |d| ==> IsDigit(d[i])
    requires rest == [] || !IsDigit(rest[0])
    ensures sign != "-" ==> ParseInt10(sign + d + rest) == Some(DigitsValue(d))
    ensures sign == "-" ==> ParseInt10(sign + d + rest) == Some(0 - DigitsValue(d))
  {
    var body := d + rest;
    var s := sign + d + rest;
    SignedBodyOfDigits(sign, d, rest);
    DigitPrefixOf(d, rest);
    assert body[..|d|] == d;
    ParseIntOfBody(s, sign == "-", body, d);
  }

  /** parseInt of a text whose body starts with the digits `d`: their value,
      negated after '-'. */
  lemma ParseIntOfBody(s: string, negative: bool, body: string, d: string)
    requires SignedBody(s) == (negative, body)
    requires d != [] && DigitPrefix(body) == |d| && body[..|d|] == d
    ensures forall i :: 0 <= i < |d| ==> IsDigit(d[i])
    ensures ParseInt10(s) == Some(if negative then 0 - DigitsValue(d) else DigitsValue(d))
  {
  }

  /** White-space-free text with at most a sign before its first digit: the
      sign is dropped and read. */
  lemma SignedBodyOfDigits(sign: string, d: string, rest: string)
    requires sign == "" || sign == "+" || sign == "-"
    requires d != [] && IsDigit(d[0])
    ensures SignedBody(sign + d + rest) == (sign == "-", d + rest)
  {
    var s := sign + d + rest;
    assert LeadingSpace(s) == 0 by {
      assert s[0] == if sign == "" then d[0] else sign[0];
    }
    assert s[0..] == s;
    if sign != "" {
      assert s[1..] == d + rest;
    } else {
      assert s == d + rest;
    }
  }

  /** parseInt reads back the text `${i}` of any integer. */
  lemma ParseIntOfInt(i: int, rest: string)
    requires rest == [] || !IsDigit(rest[0])
    ensures ParseInt10(IntToString(i) + rest) == Some(i)
  {
    if i < 0 {
      var n: nat := -i;
      calc {
        ParseInt10(IntToString(i) + rest);
        { assert IntToString(i) + rest == "-" + NatToString(n) + rest; }
        ParseInt10("-" + NatToString(n) + rest);
        { ParseIntOfMinus(n, rest); }
        Some(i);
      }
    } else {
      var n: nat := i;
      calc {
        ParseInt10(IntToString(i) + rest);
        { assert IntToString(i) == NatToString(n); }
        ParseInt10(NatToString(n) + rest);
        { ParseIntOfNat(n, rest); }
        Some(i);
      }
    }
  }

  /** A run of digits followed by a non-digit, or by nothing, is exactly the
      digit prefix. */
  lemma {:induction false} DigitPrefixOf(d: string, rest: string)
    requires forall i :: 0 <= i < |d| ==> IsDigit(d[i])
    requires rest == [] || !IsDigit(rest[0])
    ensures DigitPrefix(d + rest) == |d|
    decreases |d|
  {
    if d != [] {
      assert (d + rest)[1..] == d[1..] + rest;
      DigitPrefixOf(d[1..], rest);
    } else {
      assert d + rest == rest;
    }
  }
}
