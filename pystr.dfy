/** The Python `str` built-ins the scraper relies on, over `seq<char>`. */
module PyStr {

  /** The characters for which `str.isspace()` holds; they are also the class `\s`
      matches in a `str` pattern. */
  const Whitespace: set<char> := {'\t', '\n', '\U{b}', '\U{c}', '\r', '\U{1c}', '\U{1d}', '\U{1e}', '\U{1f}', ' ',
    '\U{85}', '\U{a0}', '\U{1680}', '\U{2000}', '\U{2001}', '\U{2002}', '\U{2003}', '\U{2004}', '\U{2005}',
    '\U{2006}', '\U{2007}', '\U{2008}', '\U{2009}', '\U{200a}', '\U{2028}', '\U{2029}', '\U{202f}', '\U{205f}', '\U{3000}'}

  predicate IsSpace(c: char) { c in Whitespace }

  /** An ASCII digit, the only kind of digit this model reads. */
  predicate IsDigit(c: char) { '0' <= c <= '9' }

  /** `[a-zA-Z]` */
  predicate IsAsciiLetter(c: char) { 'a' <= c <= 'z' || 'A' <= c <= 'Z' }

  predicate AllSpace(s: string) { forall i :: 0 <= i < |s| ==> IsSpace(s[i]) }

  predicate AllDigits(s: string) { forall i :: 0 <= i < |s| ==> IsDigit(s[i]) }

  predicate AllLetters(s: string) { forall i :: 0 <= i < |s| ==> IsAsciiLetter(s[i]) }

  predicate NoDigit(s: string) { forall i :: 0 <= i < |s| ==> !IsDigit(s[i]) }

  /** Neither end is whitespace: what `str.strip()` leaves behind. */
  predicate IsStripped(s: string) { s == [] || (!IsSpace(s[0]) && !IsSpace(s[|s| - 1])) }

  predicate StartsWith(s: string, prefix: string) { |prefix| <= |s| && s[..|prefix|] == prefix }

  /** `str.lstrip()`: drops the leading whitespace and nothing else. */
  function LStrip(s: string): (r: string)
    ensures |r| <= |s| && r == s[|s| - |r|..]
    ensures r == [] || !IsSpace(r[0])
  {
    if s != [] && IsSpace(s[0]) then LStrip(s[1..]) else s
  }

  /** What `lstrip` drops is whitespace. */
  lemma {:induction false} LStripDropsSpace(s: string)
    ensures AllSpace(s[..|s| - |LStrip(s)|])
  {
    if s != [] && IsSpace(s[0]) {
      LStripDropsSpace(s[1..]);
      var k := |s| - |LStrip(s)|;
      assert s[..k] == [s[0]] + s[1..][..k - 1];
    }
  }

  /** `str.rstrip()`: drops the trailing whitespace and nothing else. */
  function RStrip(s: string): (r: string)
    ensures |r| <= |s| && r == s[..|r|]
    ensures r == [] || !IsSpace(r[|r| - 1])
  {
    if s != [] && IsSpace(s[|s| - 1]) then RStrip(s[..|s| - 1]) else s
  }

  /** What `rstrip` drops is whitespace. */
  lemma {:induction false} RStripDropsSpace(s: string)
    ensures AllSpace(s[|RStrip(s)|..])
  {
    if s != [] && IsSpace(s[|s| - 1]) {
      RStripDropsSpace(s[..|s| - 1]);
      var k := |RStrip(s)|;
      assert s[k..] == s[..|s| - 1][k..] + [s[|s| - 1]];
    }
  }

  /** `str.strip()` with no argument. */
  function Strip(s: string): string {
    RStrip(LStrip(s))
  }

  /** `s.strip()` is the middle of `s` between a whitespace prefix and a whitespace suffix,
      and starts and ends with a non-whitespace character. */
  lemma {:induction false} StripShape(s: string)
    ensures |s| - |LStrip(s)| + |Strip(s)| <= |s|
    ensures Strip(s) == s[|s| - |LStrip(s)|..|s| - |LStrip(s)| + |Strip(s)|]
    ensures AllSpace(s[..|s| - |LStrip(s)|])
    ensures AllSpace(s[|s| - |LStrip(s)| + |Strip(s)|..])
  {
    var l := LStrip(s);
    var r := RStrip(l);
    var a := |s| - |l|;
    assert Strip(s) == r;
    LStripDropsSpace(s);
    RStripDropsSpace(l);
    MiddleOfSuffix(s, a, l, r);
  }

  /** `s.strip()` starts and ends with a non-whitespace character. */
  lemma {:induction false} StripIsStripped(s: string)
    ensures IsStripped(Strip(s))
  {
    var l := LStrip(s);
    var r := RStrip(l);
    if r != [] {
      assert r[0] == l[0];
    }
  }

  /** A prefix `r` of the suffix `l == s[a..]`, followed there by whitespace only, sits at `a`
      in `s` and is followed by whitespace only there too. */
  lemma {:induction false} MiddleOfSuffix(s: string, a: nat, l: string, r: string)
    requires a <= |s| && l == s[a..] && |r| <= |l| && r == l[..|r|] && AllSpace(l[|r|..])
    ensures a + |r| <= |s| && s[a..a + |r|] == r && AllSpace(s[a + |r|..])
  {
    SlicesOfSuffix(s, a, |r|);
  }

  /** Slicing the suffix `s[a..]` is slicing `s` shifted by `a`. */
  lemma {:induction false} SlicesOfSuffix(s: string, a: nat, k: nat)
    requires a + k <= |s|
    ensures s[a..][..k] == s[a..a + k] && s[a..][k..] == s[a + k..]
  {
  }

  /** `s.strip()` is empty exactly when `s` is all whitespace. */
  lemma {:induction false} StripEmpty(s: string)
    ensures Strip(s) == [] <==> AllSpace(s)
  {
    var l := LStrip(s);
    var a := |s| - |l|;
    LStripDropsSpace(s);
    RStripDropsSpace(l);
    if RStrip(l) == [] {
      assert l[0..] == l;
      assert s == s[..a] + l;
    }
  }

  /** Stripping a stripped string changes nothing. */
  lemma {:induction false} StripStripped(s: string)
    requires IsStripped(s)
    ensures Strip(s) == s
  {
  }

  /** `str.strip()` is idempotent. */
  lemma {:induction false} StripIdempotent(s: string)
    ensures Strip(Strip(s)) == Strip(s)
  {
    StripIsStripped(s);
    StripStripped(Strip(s));
  }

  /** The digits of `s` in order: `re.sub(r"[^\d]", "", s)`. */
  function Digits(s: string): (d: string)
    ensures AllDigits(d) && |d| <= |s|
    ensures d == [] <==> NoDigit(s)
  {
    if s == [] then [] else (if IsDigit(s[0]) then [s[0]] else []) + Digits(s[1..])
  }

  /** Taking the digits distributes over concatenation. */
  lemma {:induction false} DigitsAppend(a: string, b: string)
    ensures Digits(a + b) == Digits(a) + Digits(b)
  {
    if a != [] {
      assert (a + b)[1..] == a[1..] + b;
      DigitsAppend(a[1..], b);
    } else {
      assert a + b == b;
    }
  }

  /** The number a string of decimal digits spells, as `int()` reads it. */
  function Value(ds: string): nat
    requires AllDigits(ds)
  {
    if ds == [] then 0 else Value(ds[..|ds| - 1]) * 10 + (ds[|ds| - 1] as int - '0' as int)
  }

  /** `str(n)` for a natural number. */
  function ShowNat(n: nat): (s: string)
    ensures s != [] && AllDigits(s)
  {
    (if n < 10 then [] else ShowNat(n / 10)) + [('0' as int + n % 10) as char]
  }

  /** `int(str(n)) == n` */
  lemma {:induction false} ValueOfShowNat(n: nat)
    ensures Value(ShowNat(n)) == n
  {
    var s := ShowNat(n);
    assert s[..|s| - 1] == (if n < 10 then [] else ShowNat(n / 10));
    if n >= 10 {
      ValueOfShowNat(n / 10);
    }
  }

  /** `s` from its first digit on; empty when `s` has no digit. */
  function FromFirstDigit(s: string): (r: string)
    ensures |r| <= |s| && r == s[|s| - |r|..]
    ensures NoDigit(s[..|s| - |r|])
    ensures r == [] || IsDigit(r[0])
  {
    if s == [] || IsDigit(s[0]) then s else FromFirstDigit(s[1..])
  }

  /** The longest prefix of `s` made of digits: what a greedy `\d+` takes. */
  function LeadingDigits(s: string): (r: string)
    ensures |r| <= |s| && r == s[..|r|] && AllDigits(r)
    ensures |r| == |s| || !IsDigit(s[|r|])
  {
    if s != [] && IsDigit(s[0]) then [s[0]] + LeadingDigits(s[1..]) else []
  }

  /** The first run of digits in `s`, as `re.search(r"(\d+)", s)` captures it; empty when
      `s` has no digit. */
  function FirstDigitRun(s: string): string {
    LeadingDigits(FromFirstDigit(s))
  }

  /** The first run starts after a digit-free prefix and is maximal. */
  lemma {:induction false} FirstDigitRunShape(s: string)
    ensures var a := |s| - |FromFirstDigit(s)|;
      var run := FirstDigitRun(s);
      && NoDigit(s[..a]) && AllDigits(run)
      && a + |run| <= |s| && s[a..a + |run|] == run
      && (a + |run| == |s| || !IsDigit(s[a + |run|]))
  {
    var u := FromFirstDigit(s);
    var a := |s| - |u|;
    var run := LeadingDigits(u);
    RunInsideSuffix(s, a, u, run);
  }

  /** A maximal digit prefix of the suffix `s[a..]` sits at `a` in `s` and is maximal there. */
  lemma {:induction false} RunInsideSuffix(s: string, a: nat, u: string, run: string)
    requires a <= |s| && u == s[a..] && |run| <= |u| && run == u[..|run|]
    requires |run| == |u| || !IsDigit(u[|run|])
    ensures a + |run| <= |s| && s[a..a + |run|] == run
    ensures a + |run| == |s| || !IsDigit(s[a + |run|])
  {
    SlicesOfSuffix(s, a, |run|);
    if a + |run| < |s| {
      assert s[a + |run|] == u[|run|];
    }
  }

  /** There is a first run exactly when the text has a digit. */
  lemma {:induction false} FirstDigitRunExists(s: string)
    ensures FirstDigitRun(s) == [] <==> NoDigit(s)
  {
    var u := FromFirstDigit(s);
    var a := |s| - |u|;
    if u == [] {
      assert s[..a] == s;
    } else {
      assert s[a] == u[0];
      assert LeadingDigits(u)[0] == u[0];
    }
  }

  /** The longest prefix of `s` made of ASCII letters: what a greedy `[a-zA-Z]+` takes. */
  function LeadingLetters(s: string): (r: string)
    ensures |r| <= |s| && r == s[..|r|] && AllLetters(r)
    ensures |r| == |s| || !IsAsciiLetter(s[|r|])
  {
    if s != [] && IsAsciiLetter(s[0]) then [s[0]] + LeadingLetters(s[1..]) else []
  }

  /** `s.split(sep)` for a one-character separator: never empty, and no part holds `sep`. */
  function Split(s: string, sep: char): (parts: seq<string>)
    ensures |parts| >= 1
    ensures forall i :: 0 <= i < |parts| ==> sep !in parts[i]
  {
    if s == [] then [[]]
    else
      var rest := Split(s[1..], sep);
      if s[0] == sep then [[]] + rest else [[s[0]] + rest[0]] + rest[1..]
  }

  /** `sep.join(parts)` */
  function Join(parts: seq<string>, sep: string): string {
    if parts == [] then []
    else if |parts| == 1 then parts[0]
    else parts[0] + sep + Join(parts[1..], sep)
  }

  /** Splitting loses nothing: joining the parts back with the separator gives `s`. */
  lemma {:induction false} JoinSplit(s: string, sep: char)
    ensures Join(Split(s, sep), [sep]) == s
  {
    if s != [] {
      var rest := Split(s[1..], sep);
      JoinSplit(s[1..], sep);
      if s[0] == sep {
        assert ([[]] + rest)[1..] == rest;
        assert s == [sep] + s[1..];
      } else if |rest| == 1 {
        assert s == [s[0]] + s[1..];
      } else {
        var parts := [[s[0]] + rest[0]] + rest[1..];
        assert parts[1..] == rest[1..];
        assert s == [s[0]] + s[1..];
      }
    }
  }

  /** The first part of a split is everything before the first separator. */
  lemma {:induction false} SplitAfterSeparator(a: string, sep: char, b: string)
    requires sep !in a
    ensures Split(a + [sep] + b, sep) == [a] + Split(b, sep)
  {
    var s := a + [sep] + b;
    if a == [] {
      assert s[1..] == b;
    } else {
      assert s[1..] == a[1..] + [sep] + b;
      SplitAfterSeparator(a[1..], sep, b);
      assert a == [a[0]] + a[1..];
    }
  }

  /** `str.lower()` on one character, for the ASCII capitals; every other character is kept. */
  function LowerChar(c: char): char {
    if 'A' <= c <= 'Z' then (c as int + 32) as char else c
  }

  /** `str.lower()`, character by character. */
  function AsciiLower(s: string): (r: string)
    ensures |r| == |s|
  {
    if s == [] then [] else [LowerChar(s[0])] + AsciiLower(s[1..])
  }

  /** `lstrip` removes exactly a whitespace prefix in front of a non-whitespace character. */
  lemma {:induction false} LStripAfterSpace(pre: string, x: string)
    requires AllSpace(pre) && x != [] && !IsSpace(x[0])
    ensures LStrip(pre + x) == x
  {
    if pre != [] {
      assert (pre + x)[1..] == pre[1..] + x;
      LStripAfterSpace(pre[1..], x);
    } else {
      assert pre + x == x;
    }
  }

  /** `rstrip` removes exactly a whitespace suffix after a non-whitespace character. */
  lemma {:induction false} RStripBeforeSpace(x: string, post: string)
    requires AllSpace(post) && x != [] && !IsSpace(x[|x| - 1])
    ensures RStrip(x + post) == x
  {
    if post != [] {
      var n := |post|;
      assert (x + post)[..|x + post| - 1] == x + post[..n - 1];
      RStripBeforeSpace(x, post[..n - 1]);
    } else {
      assert x + post == x;
    }
  }

  /** `strip` undoes whitespace padding around a stripped, non-empty text. */
  lemma {:induction false} StripPadded(pre: string, x: string, post: string)
    requires AllSpace(pre) && AllSpace(post) && x != [] && IsStripped(x)
    ensures Strip(pre + x + post) == x
  {
    assert pre + x + post == pre + (x + post);
    LStripAfterSpace(pre, x + post);
    RStripBeforeSpace(x, post);
  }

  /** `lower` works character by character. */
  lemma {:induction false} AsciiLowerAt(s: string, i: int)
    requires 0 <= i < |s|
    ensures AsciiLower(s)[i] == LowerChar(s[i])
  {
    if i > 0 {
      AsciiLowerAt(s[1..], i - 1);
    }
  }

  /** No ASCII letter is whitespace. */
  lemma {:induction false} LetterIsNoSpace(c: char)
    requires IsAsciiLetter(c)
    ensures !IsSpace(c)
  {
  }

  /** Only a letter lowers to a letter. */
  lemma {:induction false} LowerCharOfLetter(c: char)
    requires IsAsciiLetter(LowerChar(c))
    ensures IsAsciiLetter(c)
  {
  }
}
