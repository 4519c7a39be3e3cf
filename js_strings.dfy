// JavaScript strings as sequences of UTF-16 code units, with the string
// operations the result table relies on: `includes`, `split(..)[k]`,
// `split('/').pop()`, `trim`, `parseInt` and integer-to-text conversion.

module JsStrings {
  import opened Options

  /** One UTF-16 code unit: what `charCodeAt` returns and what `length` counts. */
  newtype CodeUnit = x: int | 0 <= x < 0x1_0000

  type JsString = seq<CodeUnit>

  /** The code units of a string made only of Basic Multilingual Plane characters. */
  function Bmp(s: string): JsString
    requires forall i :: 0 <= i < |s| ==> s[i] as int < 0x1_0000
  {
    seq(|s|, i requires 0 <= i < |s| => s[i] as int as CodeUnit)
  }

  /** The two code units that encode a supplementary-plane code point. */
  function SurrogatePair(cp: int): JsString
    requires 0x1_0000 <= cp < 0x11_0000
  {
    [(0xD800 + (cp - 0x1_0000) / 0x400) as CodeUnit, (0xDC00 + (cp - 0x1_0000) % 0x400) as CodeUnit]
  }

  const SLASH: CodeUnit := '/' as int as CodeUnit

  // ---------------------------------------------------------------------
  // Substring search: String.prototype.includes and indexOf

  predicate OccursAt(s: JsString, t: JsString, i: int)
  {
    0 <= i && i + |t| <= |s| && s[i..i + |t|] == t
  }

  /** `s.includes(t)` */
  predicate Contains(s: JsString, t: JsString)
  {
    exists i :: 0 <= i <= |s| - |t| && OccursAt(s, t, i)
  }

  /** An occurrence of `u` inside `t` is an occurrence inside every string containing `t`. */
  lemma ContainsInfix(s: JsString, t: JsString, u: JsString, k: int)
    requires Contains(s, t) && OccursAt(t, u, k)
    ensures Contains(s, u)
  {
    var i :| 0 <= i <= |s| - |t| && OccursAt(s, t, i);
    forall j | 0 <= j < |u| ensures s[i + k + j] == u[j] {
      assert s[i + k + j] == s[i..i + |t|][k + j];
      assert u[j] == t[k..k + |u|][j];
    }
    assert s[i + k..i + k + |u|] == u;
    assert OccursAt(s, u, i + k);
  }

  /** `s.indexOf(t, from)`: the first occurrence of `t` at or after `from`, or -1. */
  function IndexFrom(s: JsString, t: JsString, from: nat): (r: int)
    decreases |s| - from
    ensures r == -1 || (from <= r && OccursAt(s, t, r))
    ensures forall j :: from <= j && (r == -1 || j < r) ==> !OccursAt(s, t, j)
  {
    if from + |t| > |s| then -1
    else if s[from..from + |t|] == t then from
    else IndexFrom(s, t, from + 1)
  }

  function IndexOf(s: JsString, t: JsString): (r: int)
    ensures r == -1 <==> !Contains(s, t)
    ensures r != -1 ==> OccursAt(s, t, r) && forall j :: 0 <= j < r ==> !OccursAt(s, t, j)
  {
    IndexFrom(s, t, 0)
  }

  /** `s.split(t)[0]`: the text before the first occurrence of `t`, or all of `s`. */
  function BeforeFirst(s: JsString, t: JsString): (r: JsString)
    requires |t| > 0
    ensures Contains(s, t) ==> OccursAt(s, t, |r|) && !Contains(r, t)
    ensures !Contains(s, t) ==> r == s
    ensures r <= s
  {
    var i := IndexOf(s, t);
    if i == -1 then s
    else
      assert !Contains(s[..i], t) by {
        forall j | 0 <= j <= |s[..i]| - |t| ensures !OccursAt(s[..i], t, j) {
          assert !OccursAt(s, t, j);
          assert s[..i][j..j + |t|] == s[j..j + |t|];
        }
      }
      s[..i]
  }

  /** The text after the first occurrence of `t` in `s`. */
  function AfterFirst(s: JsString, t: JsString): (r: JsString)
    requires Contains(s, t)
    ensures exists i :: OccursAt(s, t, i) && r == s[i + |t|..]
  {
    var i := IndexOf(s, t);
    s[i + |t|..]
  }

  /** Splitting at the first occurrence and gluing the pieces back gives the string again. */
  lemma SplitAtFirst(s: JsString, t: JsString)
    requires |t| > 0 && Contains(s, t)
    ensures BeforeFirst(s, t) + t + AfterFirst(s, t) == s
  {
    var i := IndexOf(s, t);
    assert BeforeFirst(s, t) == s[..i];
    assert s[..i] + s[i..i + |t|] + s[i + |t|..] == s;
  }

  /** A string with a prefix that contains `t` contains `t`. */
  lemma ContainsPrefix(p: JsString, s: JsString, t: JsString)
    requires p <= s && Contains(p, t)
    ensures Contains(s, t)
  {
    var i :| 0 <= i <= |p| - |t| && OccursAt(p, t, i);
    assert s[i..i + |t|] == p[i..i + |t|];
    assert OccursAt(s, t, i);
  }

  /** `s.split(t)[1]` when `t` occurs in `s` and is not empty: the text between its first and second occurrences. */
  function SplitSecond(s: JsString, t: JsString): JsString
    requires |t| > 0 && Contains(s, t)
  {
    BeforeFirst(AfterFirst(s, t), t)
  }

  /** What `BeforeFirst` leaves behind: empty, or starting with `t`. */
  lemma BeforeFirstRest(s: JsString, t: JsString) returns (rest: JsString)
    requires |t| > 0
    ensures s == BeforeFirst(s, t) + rest
    ensures Contains(s, t) ==> OccursAt(rest, t, 0)
    ensures !Contains(s, t) ==> rest == []
  {
    rest := s[|BeforeFirst(s, t)|..];
    assert s == BeforeFirst(s, t) + rest;
    if Contains(s, t) {
      assert rest[..|t|] == s[|BeforeFirst(s, t)|..|BeforeFirst(s, t)| + |t|];
    }
  }

  /**
   * `s.split(t)[1].split(u)[0]` lies between the first `t` and the next `t`
   * or `u`: nothing before it contains `t`, it contains neither, and what
   * follows it is empty or starts with `t` or `u`.
   */
  lemma CutBetween(s: JsString, t: JsString, u: JsString) returns (pre: JsString, rest: JsString)
    requires |t| > 0 && |u| > 0 && Contains(s, t)
    ensures s == pre + t + BeforeFirst(SplitSecond(s, t), u) + rest
    ensures !Contains(pre, t)
    ensures !Contains(BeforeFirst(SplitSecond(s, t), u), t) && !Contains(BeforeFirst(SplitSecond(s, t), u), u)
    ensures rest == [] || OccursAt(rest, t, 0) || OccursAt(rest, u, 0)
  {
    pre := BeforeFirst(s, t);
    var after := AfterFirst(s, t);
    SplitAtFirst(s, t);
    var seg := BeforeFirst(after, t);
    var cut := BeforeFirst(seg, u);
    var tail := BeforeFirstRest(after, t);
    var gap := BeforeFirstRest(seg, u);
    assert !Contains(cut, t) by {
      if Contains(cut, t) {
        ContainsPrefix(cut, seg, t);
        ContainsPrefix(seg, after, t);
      }
    }
    rest := gap + tail;
    Regroup(s, pre + t, after, seg, tail, cut, gap);
    if gap != [] {
      OccursAtAppend(gap, tail, u);
    }
  }

  lemma Regroup(s: JsString, head: JsString, after: JsString, seg: JsString, tail: JsString, cut: JsString, gap: JsString)
    requires s == head + after && after == seg + tail && seg == cut + gap
    ensures s == head + cut + (gap + tail)
  {
  }

  lemma OccursAtAppend(s: JsString, more: JsString, t: JsString)
    requires OccursAt(s, t, 0)
    ensures OccursAt(s + more, t, 0)
  {
    assert (s + more)[..|t|] == s[..|t|];
  }

  /** `s.split('/').pop()`: the text after the last `/`, or all of `s`. */
  function LastSegment(s: JsString): (r: JsString)
    ensures SLASH !in r
    ensures |r| <= |s| && r == s[|s| - |r|..]
    ensures |r| < |s| ==> s[|s| - |r| - 1] == SLASH
  {
    if s == [] then []
    else if s[|s| - 1] == SLASH then []
    else LastSegment(s[..|s| - 1]) + [s[|s| - 1]]
  }

  lemma {:induction false} LastSegmentOfJoin(prefix: JsString, seg: JsString)
    requires SLASH !in seg
    ensures LastSegment(prefix + [SLASH] + seg) == seg
    decreases |seg|
  {
    var s := prefix + [SLASH] + seg;
    if seg == [] {
      assert s[|s| - 1] == SLASH;
    } else {
      var init := seg[..|seg| - 1];
      assert s[..|s| - 1] == prefix + [SLASH] + init;
      LastSegmentOfJoin(prefix, init);
      assert seg == init + [seg[|seg| - 1]];
    }
  }

  /** A segment after any separator that ends in a slash is the last segment. */
  lemma LastSegmentAfter(prefix: JsString, separator: JsString, seg: JsString)
    requires |separator| > 0 && separator[|separator| - 1] == SLASH && SLASH !in seg
    ensures LastSegment(prefix + separator + seg) == seg
  {
    var head := prefix + separator[..|separator| - 1];
    assert prefix + separator == head + [SLASH];
    LastSegmentOfJoin(head, seg);
  }

  // ---------------------------------------------------------------------
  // Whitespace and trim (the WhiteSpace and LineTerminator code points)

  predicate IsWhitespace(c: CodeUnit)
  {
    c == 0x09 || c == 0x0B || c == 0x0C || c == 0x20 || c == 0xA0 || c == 0xFEFF
    || c == 0x1680 || (0x2000 <= c <= 0x200A) || c == 0x202F || c == 0x205F || c == 0x3000
    || c == 0x0A || c == 0x0D || c == 0x2028 || c == 0x2029
  }

  function TrimStart(s: JsString): (r: JsString)
    ensures |r| <= |s| && r == s[|s| - |r|..]
    ensures forall i :: 0 <= i < |s| - |r| ==> IsWhitespace(s[i])
    ensures r == [] || !IsWhitespace(r[0])
  {
    if s != [] && IsWhitespace(s[0]) then TrimStart(s[1..]) else s
  }

  function TrimEnd(s: JsString): (r: JsString)
    ensures |r| <= |s| && r == s[..|r|]
    ensures forall i :: |r| <= i < |s| ==> IsWhitespace(s[i])
    ensures r == [] || !IsWhitespace(r[|r| - 1])
  {
    if s != [] && IsWhitespace(s[|s| - 1]) then TrimEnd(s[..|s| - 1]) else s
  }

  /** `s.trim()` */
  function Trim(s: JsString): JsString
  {
    TrimEnd(TrimStart(s))
  }

  lemma TrimEmptyIffBlank(s: JsString)
    ensures Trim(s) == [] <==> forall i :: 0 <= i < |s| ==> IsWhitespace(s[i])
  {
    var a := TrimStart(s);
    if Trim(s) == [] {
      forall i | 0 <= i < |s| ensures IsWhitespace(s[i]) {
        if i >= |s| - |a| {
          assert s[i] == a[i - (|s| - |a|)];
        }
      }
    } else {
      var r := Trim(s);
      assert r[0] == a[0];
      assert s[|s| - |a|] == a[0];
    }
  }

  // ---------------------------------------------------------------------
  // Digits, integer text and parseInt

  predicate IsDecimalDigit(c: CodeUnit)
  {
    0x30 <= c <= 0x39
  }

  /** The digit value of a code unit in radix 36 (`0`-`9`, `a`-`z`, `A`-`Z`), or 36 for none. */
  function DigitValue(c: CodeUnit): (d: nat)
    ensures d <= 36
    ensures IsDecimalDigit(c) <==> d < 10
  {
    if 0x30 <= c <= 0x39 then (c - 0x30) as int
    else if 0x61 <= c <= 0x7A then (c - 0x61) as int + 10
    else if 0x41 <= c <= 0x5A then (c - 0x41) as int + 10
    else 36
  }

  /** The value of a digit string read in radix `radix`, most significant digit first. */
  function DigitsValue(ds: JsString, radix: nat): nat
    requires forall i :: 0 <= i < |ds| ==> DigitValue(ds[i]) < radix
  {
    if ds == [] then 0 else DigitsValue(ds[..|ds| - 1], radix) * radix + DigitValue(ds[|ds| - 1])
  }

  /** The longest prefix of `s` made of digits of radix `radix`. */
  function DigitPrefix(s: JsString, radix: nat): (r: JsString)
    ensures r <= s
    ensures forall i :: 0 <= i < |r| ==> DigitValue(r[i]) < radix
    ensures |r| < |s| ==> DigitValue(s[|r|]) >= radix
  {
    if s != [] && DigitValue(s[0]) < radix then [s[0]] + DigitPrefix(s[1..], radix) else []
  }

  /** The decimal digits of a natural number, without leading zeros. */
  function NatDigits(n: nat): (r: JsString)
    ensures r != []
    ensures forall i :: 0 <= i < |r| ==> IsDecimalDigit(r[i])
  {
    if n < 10 then [(0x30 + n) as CodeUnit] else NatDigits(n / 10) + [(0x30 + n % 10) as CodeUnit]
  }

  /** The text JavaScript gives an integer-valued Number (decimal, `-` for negatives). */
  function IntText(n: int): JsString
  {
    if n < 0 then [0x2D as CodeUnit] + NatDigits(-n) else NatDigits(n)
  }

  lemma {:induction false} NatDigitsValue(n: nat)
    ensures DigitsValue(NatDigits(n), 10) == n
  {
    if n >= 10 {
      NatDigitsValue(n / 10);
      var ds := NatDigits(n);
      assert ds[..|ds| - 1] == NatDigits(n / 10);
    }
  }

  /** The decimal digits of `s`, in order (`s.replace(/[^\d]/g, '')`). */
  function KeepDigits(s: JsString): (r: JsString)
    ensures |r| <= |s|
    ensures forall i :: 0 <= i < |r| ==> IsDecimalDigit(r[i])
  {
    if s == [] then []
    else KeepDigits(s[..|s| - 1]) + (if IsDecimalDigit(s[|s| - 1]) then [s[|s| - 1]] else [])
  }

  lemma {:induction false} KeepDigitsAppend(a: JsString, b: JsString)
    ensures KeepDigits(a + b) == KeepDigits(a) + KeepDigits(b)
    decreases |b|
  {
    if b != [] {
      var b' := b[..|b| - 1];
      assert (a + b)[..|a + b| - 1] == a + b';
      KeepDigitsAppend(a, b');
    } else {
      assert a + b == a;
    }
  }

  lemma {:induction false} KeepDigitsOfDigits(s: JsString)
    requires forall i :: 0 <= i < |s| ==> IsDecimalDigit(s[i])
    ensures KeepDigits(s) == s
    decreases |s|
  {
    if s != [] {
      KeepDigitsOfDigits(s[..|s| - 1]);
    }
  }

  /** What `parseInt(s)` yields, with `None` for NaN (ECMA-262 section 19.2.5, radix left undefined). */
  function ParseInt(s: JsString): Option<int>
  {
    var t := TrimStart(s);
    var neg := t != [] && t[0] == 0x2D;
    var u := if t != [] && (t[0] == 0x2D || t[0] == 0x2B) then t[1..] else t;
    var hex := |u| >= 2 && u[0] == 0x30 && (u[1] == 0x78 || u[1] == 0x58);
    var radix := if hex then 16 else 10;
    var body := if hex then u[2..] else u;
    var ds := DigitPrefix(body, radix);
    if ds == [] then None
    else
      var v: int := DigitsValue(ds, radix);
      Some(if neg then -v else v)
  }

  /** A non-empty run of decimal digits parses as its decimal value. */
  lemma ParseIntOfDigits(ds: JsString)
    requires ds != [] && forall i :: 0 <= i < |ds| ==> IsDecimalDigit(ds[i])
    ensures ParseInt(ds) == Some(DigitsValue(ds, 10))
  {
    assert IsDecimalDigit(ds[0]);
    TrimStartOfNonBlank(ds);
    assert !(ds[0] == 0x2D || ds[0] == 0x2B);
    assert !(|ds| >= 2 && ds[0] == 0x30 && (ds[1] == 0x78 || ds[1] == 0x58)) by {
      assert |ds| >= 2 ==> IsDecimalDigit(ds[1]);
    }
    DigitPrefixAll(ds);
  }

  lemma TrimStartOfNonBlank(s: JsString)
    requires s != [] && !IsWhitespace(s[0])
    ensures TrimStart(s) == s
  {
  }

  lemma ParseIntOfNatText(n: nat)
    ensures ParseInt(NatDigits(n)) == Some(n)
  {
    ParseIntOfDigits(NatDigits(n));
    NatDigitsValue(n);
  }

  lemma {:induction false} DigitPrefixAll(s: JsString)
    requires forall i :: 0 <= i < |s| ==> IsDecimalDigit(s[i])
    ensures DigitPrefix(s, 10) == s
    decreases |s|
  {
    if s != [] {
      DigitPrefixAll(s[1..]);
    }
  }
}
