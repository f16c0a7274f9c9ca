/** The Python 2 `str` operations the modelled code relies on: `strip()`, `split(sep)`,
    `sep.join(parts)`, the substring test `a in s`, the ordering `a <= b` and `str(n)`
    of an integer. Strings are sequences of characters; no encoding is modelled. */
module PyStr {

  /** The characters `str.strip()` removes when called without arguments. */
  predicate IsSpace(c: char) {
    c == ' ' || c == '\t' || c == '\n' || c == '\r' || c == '\U{B}' || c == '\U{C}'
  }

  predicate AllSpace(s: string) {
    forall k :: 0 <= k < |s| ==> IsSpace(s[k])
  }

  /** `s.lstrip()`: a suffix of `s` that does not start with white space. */
  function LStrip(s: string): (r: string)
    ensures |r| <= |s|
    ensures r == [] || !IsSpace(r[0])
    ensures AllSpace(s[..|s| - |r|])
  {
    if |s| > 0 && IsSpace(s[0]) then LStrip(s[1..]) else s
  }

  /** `s.rstrip()`: a prefix of `s` that does not end with white space. */
  function RStrip(s: string): (r: string)
    ensures |r| <= |s|
    ensures r == [] || !IsSpace(r[|r| - 1])
    ensures AllSpace(s[|r|..])
  {
    if |s| > 0 && IsSpace(s[|s| - 1]) then
      var r := RStrip(s[..|s| - 1]);
      assert s[|r|..] == s[..|s| - 1][|r|..] + [s[|s| - 1]];
      r
    else s
  }

  /** `s.lstrip()` is the suffix of `s` after the leading white space. */
  lemma {:induction false} LStripIsSuffix(s: string)
    ensures LStrip(s) == s[|s| - |LStrip(s)|..]
  {
    if |s| > 0 && IsSpace(s[0]) {
      LStripIsSuffix(s[1..]);
    }
  }

  /** `s.rstrip()` is the prefix of `s` before the trailing white space. */
  lemma {:induction false} RStripIsPrefix(s: string)
    ensures RStrip(s) == s[..|RStrip(s)|]
  {
    if |s| > 0 && IsSpace(s[|s| - 1]) {
      RStripIsPrefix(s[..|s| - 1]);
    }
  }

  /** `s` without its leading and trailing white space. */
  function Strip(s: string): string {
    RStrip(LStrip(s))
  }

  /** A string that neither starts nor ends with white space. */
  predicate IsStripped(s: string) {
    s == [] || (!IsSpace(s[0]) && !IsSpace(s[|s| - 1]))
  }

  lemma StripIsStripped(s: string)
    ensures IsStripped(Strip(s))
  {
    var l := LStrip(s);
    var r := RStrip(l);
    RStripIsPrefix(l);
    assert r == [] || r[0] == l[0];
  }

  lemma StrippedIsFixed(s: string)
    requires IsStripped(s)
    ensures LStrip(s) == s && RStrip(s) == s && Strip(s) == s
  {
  }

  /** Stripping twice is stripping once. */
  lemma StripIdempotent(s: string)
    ensures Strip(Strip(s)) == Strip(s)
  {
    StripIsStripped(s);
    StrippedIsFixed(Strip(s));
  }

  /** Stripping leaves nothing exactly when every character of `s` is white space. */
  lemma {:induction false} StripEmptyIffAllSpace(s: string)
    ensures |Strip(s)| == 0 <==> AllSpace(s)
  {
    var l := LStrip(s);
    LStripIsSuffix(s);
    RStripIsPrefix(l);
    if |l| == 0 {
      assert s[..|s| - |l|] == s;
    } else {
      assert !IsSpace(s[|s| - |l|]);
      assert RStrip(l) != [] by {
        assert !IsSpace(l[0]);
        if |l| == 1 {
        } else {
          assert l[..|RStrip(l)|] == RStrip(l);
        }
      }
    }
  }

  /** Every character of `s.strip()` is a character of `s`. */
  lemma StripKeepsCharacters(s: string, c: char)
    requires c in Strip(s)
    ensures c in s
  {
    var l := LStrip(s);
    var r := RStrip(l);
    var k :| 0 <= k < |r| && r[k] == c;
    LStripIsSuffix(s);
    RStripIsPrefix(l);
    assert l[k] == c;
    assert s[|s| - |l| + k] == c;
  }

  lemma LStripOfAllSpace(s: string)
    requires AllSpace(s)
    ensures LStrip(s) == []
  {
    if |s| > 0 {
      LStripOfAllSpace(s[1..]);
    }
  }

  lemma {:induction false} LStripAppend(s: string, t: string)
    requires !AllSpace(s)
    ensures LStrip(s + t) == LStrip(s) + t
  {
    assert |s| > 0;
    if IsSpace(s[0]) {
      assert (s + t)[1..] == s[1..] + t;
      assert !AllSpace(s[1..]) by {
        var k :| 0 <= k < |s| && !IsSpace(s[k]);
        assert s[1..][k - 1] == s[k];
      }
      LStripAppend(s[1..], t);
    }
  }

  /** Padding with a blank on either side does not change what `strip()` returns. */
  lemma StripIgnoresPadding(s: string)
    ensures Strip([' '] + s) == Strip(s)
    ensures Strip(s + [' ']) == Strip(s)
  {
    assert ([' '] + s)[1..] == s;
    if AllSpace(s) {
      assert AllSpace(s + [' ']);
      LStripOfAllSpace(s);
      LStripOfAllSpace(s + [' ']);
    } else {
      LStripAppend(s, [' ']);
      var l := LStrip(s);
      assert (l + [' '])[..|l + [' ']| - 1] == l;
    }
  }

  /** Python's `s.split(sep)` for a one-character separator: the pieces between
      consecutive separators, never an empty list. */
  function Split(s: string, sep: char): (r: seq<string>)
    ensures |r| >= 1
    ensures forall k :: 0 <= k < |r| ==> sep !in r[k]
  {
    if |s| == 0 then [""]
    else
      var rest := Split(s[1..], sep);
      if s[0] == sep then [""] + rest else [[s[0]] + rest[0]] + rest[1..]
  }

  /** Python's `sep.join(parts)`. */
  function Join(parts: seq<string>, sep: string): string {
    if |parts| == 0 then ""
    else if |parts| == 1 then parts[0]
    else parts[0] + sep + Join(parts[1..], sep)
  }

  /** A string without the separator splits into itself. */
  lemma {:induction false} SplitWithoutSeparator(s: string, sep: char)
    requires sep !in s
    ensures Split(s, sep) == [s]
  {
    if |s| > 0 {
      forall k | 0 <= k < |s| - 1 ensures s[1..][k] != sep {
        assert s[1..][k] == s[k + 1];
      }
      SplitWithoutSeparator(s[1..], sep);
      assert [s[0]] + s[1..] == s;
    }
  }

  /** A leading non-separator character joins the first piece. */
  lemma SplitAfterOther(c: char, s: string, sep: char)
    requires c != sep
    ensures Split([c] + s, sep) == [[c] + Split(s, sep)[0]] + Split(s, sep)[1..]
  {
    assert ([c] + s)[1..] == s;
  }

  /** Splitting at a separator that follows a separator-free prefix. */
  lemma {:induction false} SplitAtFirstSeparator(a: string, b: string, sep: char)
    requires sep !in a
    ensures Split(a + [sep] + b, sep) == [a] + Split(b, sep)
  {
    if |a| == 0 {
      assert (a + [sep] + b)[1..] == b;
    } else {
      assert (a + [sep] + b)[1..] == a[1..] + [sep] + b;
      forall k | 0 <= k < |a| - 1 ensures a[1..][k] != sep {
        assert a[1..][k] == a[k + 1];
      }
      SplitAtFirstSeparator(a[1..], b, sep);
      assert [a[0]] + a[1..] == a;
    }
  }

  /** Joining separator-free pieces and splitting again gives the pieces back. */
  lemma {:induction false} SplitJoin(parts: seq<string>, sep: char)
    requires |parts| >= 1
    requires forall k :: 0 <= k < |parts| ==> sep !in parts[k]
    ensures Split(Join(parts, [sep]), sep) == parts
  {
    if |parts| == 1 {
      SplitWithoutSeparator(parts[0], sep);
    } else {
      SplitJoin(parts[1..], sep);
      SplitAtFirstSeparator(parts[0], Join(parts[1..], [sep]), sep);
    }
  }

  /** Splitting and joining with the same separator gives the string back. */
  lemma {:induction false} JoinSplit(s: string, sep: char)
    ensures Join(Split(s, sep), [sep]) == s
  {
    if |s| > 0 {
      JoinSplit(s[1..], sep);
      var rest := Split(s[1..], sep);
      if s[0] != sep {
        var r := [[s[0]] + rest[0]] + rest[1..];
        assert r[1..] == rest[1..];
        if |rest| == 1 {
          assert s == [s[0]] + s[1..];
        } else {
          assert Join(rest, [sep]) == rest[0] + [sep] + Join(rest[1..], [sep]);
          assert s == [s[0]] + s[1..];
        }
      } else {
        assert ([""] + rest)[1..] == rest;
        assert s == [s[0]] + s[1..];
      }
    }
  }

  /** Python's `s <= t` on strings: lexicographic by code point. */
  predicate LexLe(s: string, t: string) {
    |s| == 0 || (|t| > 0 && (s[0] < t[0] || (s[0] == t[0] && LexLe(s[1..], t[1..]))))
  }

  lemma {:induction false} LexLeReflexive(s: string)
    ensures LexLe(s, s)
  {
    if |s| > 0 {
      LexLeReflexive(s[1..]);
    }
  }

  /** Any two strings are comparable. */
  lemma {:induction false} LexLeTotal(s: string, t: string)
    ensures LexLe(s, t) || LexLe(t, s)
  {
    if |s| > 0 && |t| > 0 && s[0] == t[0] {
      LexLeTotal(s[1..], t[1..]);
    }
  }

  lemma {:induction false} LexLeTransitive(s: string, t: string, u: string)
    requires LexLe(s, t) && LexLe(t, u)
    ensures LexLe(s, u)
  {
    if |s| > 0 && s[0] == t[0] && t[0] == u[0] {
      LexLeTransitive(s[1..], t[1..], u[1..]);
    }
  }

  /** Python's substring test `a in s`. */
  predicate Contains(s: string, a: string) {
    (|a| <= |s| && s[..|a|] == a) || (|s| > 0 && Contains(s[1..], a))
  }

  /** `a` occurs in `s` starting at index `i`. */
  predicate OccursAt(s: string, a: string, i: int) {
    0 <= i <= |s| - |a| && s[i..i + |a|] == a
  }

  /** `a in s` holds exactly when `a` occurs in `s` at some offset. */
  lemma {:induction false} ContainsAtOffset(s: string, a: string)
    ensures Contains(s, a) <==> exists i :: OccursAt(s, a, i)
  {
    if |s| > 0 {
      ContainsAtOffset(s[1..], a);
      if exists i :: OccursAt(s, a, i) {
        var i :| OccursAt(s, a, i);
        if i > 0 {
          assert s[1..][i - 1..i - 1 + |a|] == a;
          assert OccursAt(s[1..], a, i - 1);
        }
      }
      if Contains(s[1..], a) {
        var i :| OccursAt(s[1..], a, i);
        assert s[i + 1..i + 1 + |a|] == a;
        assert OccursAt(s, a, i + 1);
      }
      if |a| <= |s| && s[..|a|] == a {
        assert OccursAt(s, a, 0);
      }
    } else {
      if |a| == 0 {
        assert OccursAt(s, a, 0);
      }
    }
  }

  /** The decimal character of a single digit. */
  function DigitChar(d: nat): (r: char)
    requires d < 10
    ensures r as int == '0' as int + d
  {
    "0123456789"[d]
  }

  /** A decimal numeral without leading zeros: digits only, and `0` only on its own. */
  predicate IsNumeral(s: string) {
    && |s| >= 1
    && (forall k :: 0 <= k < |s| ==> '0' <= s[k] <= '9')
    && (s[0] == '0' ==> s == "0")
  }

  /** The number a string of decimal digits denotes, read left to right. */
  function NumeralValue(s: string): int
    decreases |s|
  {
    if |s| == 0 then 0
    else NumeralValue(s[..|s| - 1]) * 10 + (s[|s| - 1] as int - '0' as int)
  }

  /** Python's `str(n)` for a natural number: its decimal numeral. */
  function NatToString(n: nat): (r: string)
    ensures IsNumeral(r)
    ensures NumeralValue(r) == n
    ensures n == 0 <==> r == "0"
    decreases n
  {
    if n < 10 then [DigitChar(n)] else NatToString(n / 10) + [DigitChar(n % 10)]
  }

  /** Python's `str(n)` for an integer: a numeral, preceded by `-` exactly when negative. */
  function IntToString(n: int): (r: string)
    ensures n >= 0 ==> IsNumeral(r)
    ensures n >= 0 ==> NumeralValue(r) == n
    ensures n < 0 ==> |r| >= 2 && r[0] == '-' && IsNumeral(r[1..])
    ensures n < 0 ==> NumeralValue(r[1..]) == -n
  {
    if n < 0 then "-" + NatToString(-n) else NatToString(n)
  }
}
