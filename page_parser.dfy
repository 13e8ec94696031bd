/** property_page_parser.py: the field normalisers, the address splitter, the text
    collection and status decision, and the composition that turns the texts of one detail
    page into a `Property`. */
module PageParser {
  import opened Wrappers
  import opened PyStr
  import opened Schema
  import opened Metadata

  /** The interpreter's default limit on the digits `int()` converts from a string
      (Python 3.12 and later); past it `int()` raises ValueError. */
  const IntMaxStrDigits: nat := 4300

  /** Why one listing could not be turned into a record. */
  datatype ParseError =
    | PageLoadFailed                     // opening the listing's URL raised
    | IntDigitLimit                      // `int()` raised inside `_to_int_safe`
    | ValidationFailed(missing: seq<Field>)  // `Property(...)` rejected its arguments

  // ---- Field normalisers ----

  /** `_clean`: None for an absent, empty or all-whitespace text, otherwise the text with
      its surrounding whitespace removed, which is non-empty. */
  function Clean(s: Option<string>): (r: Option<string>)
    ensures r.None? <==> s.None? || AllSpace(s.value)
    ensures r.Some? ==> r.value == Strip(s.value) && r.value != [] && IsStripped(r.value)
  {
    if s.None? || s.value == [] then None
    else
      var t := Strip(s.value);
      StripIsStripped(s.value);
      StripEmpty(s.value);
      if t == [] then None else Some(t)
  }

  /** Cleaning a cleaned text changes nothing. */
  lemma {:induction false} CleanIdempotent(s: Option<string>)
    ensures Clean(Clean(s)) == Clean(s)
  {
    if Clean(s).Some? {
      StripStripped(Clean(s).value);
    }
  }

  /** `_to_int`: all the digits of the text, concatenated in order and read as one number;
      None without a digit, and None past `int()`'s digit limit (its ValueError is caught). */
  function ToInt(s: Option<string>): (r: Option<nat>)
    ensures r.None? <==> s.None? || NoDigit(s.value) || |Digits(s.value)| > IntMaxStrDigits
    ensures r.Some? ==> s.Some? && r.value == Value(Digits(s.value))
  {
    if s.None? || s.value == [] then None
    else
      var digits := Digits(s.value);
      if digits == [] || |digits| > IntMaxStrDigits then None else Some(Value(digits))
  }

  /** A character that is not a digit (a thousands separator, a currency sign) can be
      inserted anywhere without changing the result. */
  lemma {:induction false} ToIntIgnoresNonDigits(a: string, c: char, b: string)
    requires !IsDigit(c)
    ensures ToInt(Some(a + [c] + b)) == ToInt(Some(a + b))
  {
    assert [c][1..] == [];
    assert Digits([c]) == [];
    DigitsAppend(a + [c], b);
    DigitsAppend(a, [c]);
    DigitsAppend(a, b);
    assert Digits(a + [c]) == Digits(a);
    assert Digits(a + [c] + b) == Digits(a + b);
  }

  /** The digits of a digit string are the string itself. */
  lemma {:induction false} DigitsOfDigits(s: string)
    requires AllDigits(s)
    ensures Digits(s) == s
  {
    if s != [] {
      DigitsOfDigits(s[1..]);
    }
  }

  /** `_to_int(str(n)) == n` for every number within the digit limit. */
  lemma {:induction false} ToIntReadsShowNat(n: nat)
    requires |ShowNat(n)| <= IntMaxStrDigits
    ensures ToInt(Some(ShowNat(n))) == Some(n)
  {
    DigitsOfDigits(ShowNat(n));
    ValueOfShowNat(n);
  }

  /** `_to_int_safe`: the first run of digits read as a number, None without a digit. Past
      `int()`'s digit limit the ValueError is not caught, so the parse of the page fails. */
  function ToIntSafe(s: Option<string>): (r: Result<Option<nat>, ParseError>)
    ensures r.Err? ==> r.error == IntDigitLimit
    ensures r.Err? <==> s.Some? && |FirstDigitRun(s.value)| > IntMaxStrDigits
    ensures r == Ok(None) <==> s.None? || NoDigit(s.value)
    ensures r.Ok? && r.value.Some? ==> s.Some? && r.value.value == Value(FirstDigitRun(s.value))
  {
    if s.None? || s.value == [] then Ok(None)
    else
      var run := FirstDigitRun(s.value);
      FirstDigitRunExists(s.value);
      if run == [] then Ok(None)
      else if |run| > IntMaxStrDigits then Err(IntDigitLimit)
      else Ok(Some(Value(run)))
  }

  /** A number read from a prefix of a digit string is at most the number of the whole. */
  lemma {:induction false} ValueOfPrefix(p: string, q: string)
    requires AllDigits(p) && AllDigits(q)
    ensures AllDigits(p + q) && Value(p) <= Value(p + q)
  {
    if q != [] {
      var pq := p + q;
      assert pq[..|pq| - 1] == p + q[..|q| - 1];
      ValueOfPrefix(p, q[..|q| - 1]);
    } else {
      assert p + q == p;
    }
  }

  /** A run of leading digits is where the digits of the whole text begin. */
  lemma {:induction false} LeadingDigitsPrefixOfDigits(s: string)
    ensures var run := LeadingDigits(s); |run| <= |Digits(s)| && Digits(s)[..|run|] == run
  {
    if s != [] && IsDigit(s[0]) {
      LeadingDigitsPrefixOfDigits(s[1..]);
    }
  }

  /** Skipping to the first digit skips no digit. */
  lemma {:induction false} DigitsFromFirstDigit(s: string)
    ensures Digits(FromFirstDigit(s)) == Digits(s)
  {
    if s != [] && !IsDigit(s[0]) {
      DigitsFromFirstDigit(s[1..]);
    }
  }

  /** The first run is where all the digits begin. */
  lemma {:induction false} FirstDigitRunPrefixOfDigits(s: string)
    ensures var run := FirstDigitRun(s); |run| <= |Digits(s)| && Digits(s)[..|run|] == run
  {
    LeadingDigitsPrefixOfDigits(FromFirstDigit(s));
    DigitsFromFirstDigit(s);
  }

  /** `_to_int_safe` reads only the first run, so it never exceeds `_to_int`, which reads
      every digit: "3 av 4" gives 3 where `_to_int` gives 34. */
  lemma {:induction false} ToIntSafeAtMostToInt(s: Option<string>)
    requires ToIntSafe(s).Ok? && ToIntSafe(s).value.Some? && ToInt(s).Some?
    ensures ToIntSafe(s).value.value <= ToInt(s).value
  {
    var run := FirstDigitRun(s.value);
    var d := Digits(s.value);
    FirstDigitRunPrefixOfDigits(s.value);
    assert d == run + d[|run|..];
    ValueOfPrefix(run, d[|run|..]);
  }

  /** The digits of `p` followed by a text that does not start with a digit: the leading
      run is exactly `p`. */
  lemma {:induction false} LeadingDigitsOfRun(p: string, rest: string)
    requires AllDigits(p) && (rest == [] || !IsDigit(rest[0]))
    ensures LeadingDigits(p + rest) == p
  {
    if p != [] {
      assert (p + rest)[1..] == p[1..] + rest;
      LeadingDigitsOfRun(p[1..], rest);
    } else {
      assert p + rest == rest;
    }
  }

  /** The first number in a text is what it reads as, whatever text without digits comes
      before it and whatever follows it once the next character is not a digit: "3 av 4"
      gives 3 and "ca. 120" gives 120. */
  lemma {:induction false} ToIntSafeReadsLeadingNumber(lead: string, n: nat, rest: string)
    requires NoDigit(lead)
    requires |ShowNat(n)| <= IntMaxStrDigits && (rest == [] || !IsDigit(rest[0]))
    ensures ToIntSafe(Some(lead + ShowNat(n) + rest)) == Ok(Some(n))
  {
    var p := ShowNat(n);
    FirstDigitRunAfterLead(lead, p, rest);
    ValueOfShowNat(n);
  }

  /** The first run of digits after a digit-free prefix is the maximal run found there. */
  lemma {:induction false} FirstDigitRunAfterLead(lead: string, p: string, rest: string)
    requires NoDigit(lead) && p != [] && AllDigits(p) && (rest == [] || !IsDigit(rest[0]))
    ensures FirstDigitRun(lead + p + rest) == p
  {
    assert lead + p + rest == lead + (p + rest);
    FromFirstDigitAfter(lead, p + rest);
    assert (p + rest)[0] == p[0];
    LeadingDigitsOfRun(p, rest);
  }

  /** `_FLOAT.sub("", s).replace(",", ".")`: keeps digits, '.', ',' and '-', and turns every
      ',' into '.'. No digit is lost or added. */
  function FloatChars(s: string): (r: string)
    ensures forall i :: 0 <= i < |r| ==> IsDigit(r[i]) || r[i] == '.' || r[i] == '-'
  {
    if s == [] then []
    else
      var head := if IsDigit(s[0]) || s[0] == '.' || s[0] == '-' then [s[0]] else if s[0] == ',' then ['.'] else [];
      head + FloatChars(s[1..])
  }

  /** The filter loses no digit and adds none. */
  lemma {:induction false} FloatCharsKeepsDigits(s: string)
    ensures Digits(FloatChars(s)) == Digits(s)
  {
    if s != [] {
      var head := if IsDigit(s[0]) || s[0] == '.' || s[0] == '-' then [s[0]] else if s[0] == ',' then ['.'] else [];
      DigitsAppend(head, FloatChars(s[1..]));
      FloatCharsKeepsDigits(s[1..]);
      if head != [] {
        assert head[1..] == [];
      }
    }
  }

  /** The text a decimal match covers: the whole digits, then '.' and the fraction digits. */
  function Rendered(d: Decimal): string {
    d.whole + (if d.fraction.Some? then "." + d.fraction.value else "")
  }

  /** The match of `\d+(?:\.\d+)?` that starts at the first character of `u`, a digit. */
  function DecimalAt(u: string): Decimal
    requires u != [] && IsDigit(u[0])
  {
    var whole := LeadingDigits(u);
    var rest := u[|whole|..];
    if |rest| >= 2 && rest[0] == '.' && IsDigit(rest[1]) then Decimal(whole, Some(LeadingDigits(rest[1..])))
    else Decimal(whole, None)
  }

  /** The leftmost match of `\d+(?:\.\d+)?` in `t`, both quantifiers greedy. */
  function DecimalMatch(t: string): Option<Decimal> {
    var u := FromFirstDigit(t);
    if u == [] then None else Some(DecimalAt(u))
  }

  /** The match at the start of `u` covers a prefix of `u`, and neither of its parts could
      be longer. */
  lemma {:induction false} DecimalAtIsLongest(u: string)
    requires u != [] && IsDigit(u[0])
    ensures var d := DecimalAt(u);
      var e := |Rendered(d)|;
      && d.whole != [] && AllDigits(d.whole)
      && (d.fraction.Some? ==> d.fraction.value != [] && AllDigits(d.fraction.value))
      && e <= |u| && u[..e] == Rendered(d)
      && (e == |u| || !IsDigit(u[e]))
      && (d.fraction.None? ==> !(e + 1 < |u| && u[e] == '.' && IsDigit(u[e + 1])))
  {
    var whole := LeadingDigits(u);
    var rest := u[|whole|..];
    if |rest| >= 2 && rest[0] == '.' && IsDigit(rest[1]) {
      var f := LeadingDigits(rest[1..]);
      assert rest[1..][..|f|] == f;
      assert u[..|whole| + 1 + |f|] == whole + "." + f;
      assert |f| + 1 == |rest| || u[|whole| + 1 + |f|] == rest[1..][|f|];
    }
  }

  /** `_to_float_m2`: the first decimal-looking run of the filtered text, as digit strings;
      None when the text has no digit. A '-' survives the filter but is never part of the
      match, so the number is never negative. */
  function ToFloatM2(s: Option<string>): (r: Option<Decimal>)
    ensures r.None? <==> s.None? || NoDigit(s.value)
    ensures r.Some? ==> s.Some? && var u := FromFirstDigit(FloatChars(s.value));
      u != [] && IsDigit(u[0]) && r.value == DecimalAt(u)
    ensures r.Some? ==> r.value.whole != [] && AllDigits(r.value.whole)
  {
    if s.None? || s.value == [] then None
    else
      var cleaned := FloatChars(s.value);
      FloatCharsKeepsDigits(s.value);
      SameDigitsSameNoDigit(cleaned, s.value);
      DecimalMatchShape(cleaned);
      DecimalMatch(cleaned)
  }

  /** A match exists exactly when the text has a digit, and its whole part is a digit run. */
  lemma {:induction false} DecimalMatchShape(t: string)
    ensures DecimalMatch(t).None? <==> NoDigit(t)
    ensures DecimalMatch(t).Some? ==> DecimalMatch(t).value.whole != [] && AllDigits(DecimalMatch(t).value.whole)
  {
    var u := FromFirstDigit(t);
    if u == [] {
      assert t[..|t|] == t;
    } else {
      assert t[|t| - |u|] == u[0];
      assert LeadingDigits(u)[0] == u[0];
    }
  }

  /** Texts with the same digits either both have a digit or both have none. */
  lemma {:induction false} SameDigitsSameNoDigit(a: string, b: string)
    requires Digits(a) == Digits(b)
    ensures NoDigit(a) <==> NoDigit(b)
  {
  }

  /** The character filter works character by character. */
  lemma {:induction false} FloatCharsAppend(a: string, b: string)
    ensures FloatChars(a + b) == FloatChars(a) + FloatChars(b)
  {
    if a == [] {
      assert a + b == b;
    } else {
      assert (a + b)[1..] == a[1..] + b;
      FloatCharsAppend(a[1..], b);
    }
  }

  /** A digit string passes the filter unchanged. */
  lemma {:induction false} FloatCharsOfDigits(w: string)
    requires AllDigits(w)
    ensures FloatChars(w) == w
  {
    if w != [] {
      FloatCharsOfDigits(w[1..]);
    }
  }

  /** A text with no digit, '.', ',' or '-' is filtered away entirely. */
  lemma {:induction false} FloatCharsDropsOthers(u: string)
    requires forall i :: 0 <= i < |u| ==> !IsDigit(u[i]) && u[i] !in ".,-"
    ensures FloatChars(u) == []
  {
    if u != [] {
      assert u[0] !in ".,-";
      FloatCharsDropsOthers(u[1..]);
    }
  }

  /** Skipping to the first digit passes over a digit-free prefix. */
  lemma {:induction false} FromFirstDigitAfter(a: string, b: string)
    requires NoDigit(a)
    ensures FromFirstDigit(a + b) == FromFirstDigit(b)
  {
    if a == [] {
      assert a + b == b;
    } else {
      assert (a + b)[1..] == a[1..] + b;
      FromFirstDigitAfter(a[1..], b);
    }
  }

  /** A Norwegian area such as "45,5 m²" reads as whole part 45 and fraction 5, and so does
      "45.5 m²": the decimal comma becomes a point, the unit is dropped, and a leading sign
      or other text without digits is skipped, so "-12,5" reads as 12.5. */
  lemma {:induction false} ToFloatM2ReadsDecimal(lead: string, w: string, sep: char, f: string, unit: string)
    requires NoDigit(lead) && (sep == ',' || sep == '.')
    requires w != [] && AllDigits(w) && f != [] && AllDigits(f)
    requires forall i :: 0 <= i < |unit| ==> !IsDigit(unit[i]) && unit[i] !in ".,-"
    ensures ToFloatM2(Some(lead + w + [sep] + f + unit)) == Some(Decimal(w, Some(f)))
  {
    var l := FilterDecimal(lead, w, sep, f, unit);
    FromFirstDigitAfter(l, w + "." + f);
    DecimalAtPointDecimal(w, f);
  }

  /** The filter keeps the digit-free prefix digit-free and turns the separator into a
      point. */
  lemma {:induction false} FilterDecimal(lead: string, w: string, sep: char, f: string, unit: string) returns (l: string)
    requires NoDigit(lead) && AllDigits(w) && AllDigits(f) && (sep == ',' || sep == '.')
    requires forall i :: 0 <= i < |unit| ==> !IsDigit(unit[i]) && unit[i] !in ".,-"
    ensures NoDigit(l) && FloatChars(lead + w + [sep] + f + unit) == l + (w + "." + f)
  {
    l := FloatChars(lead);
    FloatCharsKeepsDigits(lead);
    var x1 := lead + w;
    var x2 := x1 + [sep];
    var x3 := x2 + f;
    FloatCharsOfDigits(w);
    FloatCharsOfDigits(f);
    FloatCharsDropsOthers(unit);
    FloatCharsSeparator(sep);
    FloatCharsAppend(lead, w);
    FloatCharsAppend(x1, [sep]);
    FloatCharsAppend(x2, f);
    FloatCharsAppend(x3, unit);
    assert FloatChars(x3) + [] == FloatChars(x3);
    DecimalTextAssoc(l, w, f);
  }

  /** A comma becomes a point, and a point stays one. */
  lemma {:induction false} FloatCharsSeparator(sep: char)
    requires sep == ',' || sep == '.'
    ensures FloatChars([sep]) == "."
  {
    assert [sep][1..] == [];
  }

  /** An area without a fraction, such as "120 m²", reads as its whole number with no
      fraction; text without digits before it is skipped. */
  lemma {:induction false} ToFloatM2ReadsWholeNumber(lead: string, w: string, unit: string)
    requires NoDigit(lead) && w != [] && AllDigits(w)
    requires forall i :: 0 <= i < |unit| ==> !IsDigit(unit[i]) && unit[i] !in ".,-"
    ensures ToFloatM2(Some(lead + w + unit)) == Some(Decimal(w, None))
  {
    var l := FilterWholeNumber(lead, w, unit);
    FromFirstDigitAfter(l, w);
    DecimalAtWholeNumber(w);
  }

  /** The filter keeps the digit-free prefix digit-free, keeps the digits and drops the
      unit. */
  lemma {:induction false} FilterWholeNumber(lead: string, w: string, unit: string) returns (l: string)
    requires NoDigit(lead) && AllDigits(w)
    requires forall i :: 0 <= i < |unit| ==> !IsDigit(unit[i]) && unit[i] !in ".,-"
    ensures NoDigit(l) && FloatChars(lead + w + unit) == l + w
  {
    l := FloatChars(lead);
    FloatCharsKeepsDigits(lead);
    FloatCharsOfDigits(w);
    FloatCharsDropsOthers(unit);
    FloatCharsAppend(lead, w);
    FloatCharsAppend(lead + w, unit);
    assert FloatChars(lead + w) + [] == FloatChars(lead + w);
  }

  /** A digit string alone matches as a whole number without fraction. */
  lemma {:induction false} DecimalAtWholeNumber(w: string)
    requires w != [] && AllDigits(w)
    ensures FromFirstDigit(w) == w && DecimalAt(w) == Decimal(w, None)
  {
    LeadingDigitsOfRun(w, []);
    assert w + [] == w;
    assert w[|w|..] == [];
  }

  /** Regrouping the filtered text. */
  lemma {:induction false} DecimalTextAssoc(l: string, w: string, f: string)
    ensures l + w + "." + f == l + (w + "." + f)
  {
  }

  /** "w.f" matches as a whole with fraction. */
  lemma {:induction false} DecimalAtPointDecimal(w: string, f: string)
    requires w != [] && AllDigits(w) && f != [] && AllDigits(f)
    ensures var u := w + "." + f; IsDigit(u[0]) && FromFirstDigit(u) == u && DecimalAt(u) == Decimal(w, Some(f))
  {
    var u := w + "." + f;
    assert u == w + ("." + f);
    LeadingDigitsOfRun(w, "." + f);
    assert u[|w|..] == "." + f;
    assert ("." + f)[1..] == f;
    LeadingDigitsOfRun(f, []);
    assert f + [] == f;
  }

  // ---- Address splitting ----

  /** The index just past the whitespace run of `s` that starts at `i`. */
  function SpaceRunEnd(s: string, i: nat): (j: nat)
    requires i <= |s|
    ensures i <= j <= |s| && AllSpace(s[i..j]) && (j == |s| || !IsSpace(s[j]))
    decreases |s| - i
  {
    if i < |s| && IsSpace(s[i]) then SpaceRunEnd(s, i + 1) else i
  }

  /** The first '\n' at or after `i`, or |s|: where a greedy `.+` from `i` stops. */
  function LineEnd(s: string, i: nat): (k: nat)
    requires i <= |s|
    ensures i <= k <= |s| && '\n' !in s[i..k] && (k == |s| || s[k] == '\n')
    decreases |s| - i
  {
    if i == |s| || s[i] == '\n' then i
    else
      var k := LineEnd(s, i + 1);
      assert s[i..k] == [s[i]] + s[i + 1..k];
      k
  }

  /** The last position `p` with `lo <= p < hi` and `s[p] != '\n'`. */
  function LastNonNewline(s: string, lo: nat, hi: nat): (p: Option<nat>)
    requires lo <= hi <= |s|
    ensures p.Some? ==> lo <= p.value < hi && s[p.value] != '\n'
    ensures p.None? ==> forall q :: lo <= q < hi ==> s[q] == '\n'
    decreases hi - lo
  {
    if hi == lo then None
    else if s[hi - 1] != '\n' then Some(hi - 1)
    else LastNonNewline(s, lo, hi - 1)
  }

  /** `(\d{4})\s+(.+)` tried at position `i` of `s`: the two groups, postal code and raw city.
      The greedy `\s+` gives back whitespace only as far as `.+`, which does not match a
      newline, needs. */
  function PostalCityAt(s: string, i: nat): (m: Option<(string, string)>)
    requires i <= |s|
    ensures m.Some? ==> |m.value.0| == 4 && AllDigits(m.value.0)
  {
    if i + 4 >= |s| || !AllDigits(s[i..i + 4]) || !IsSpace(s[i + 4]) then None
    else
      var j := SpaceRunEnd(s, i + 4);
      match LastNonNewline(s, i + 5, if j < |s| then j + 1 else |s|)
      case None => None
      case Some(p) => Some((s[i..i + 4], s[p..LineEnd(s, p)]))
  }

  /** `re.search(r"(\d{4})\s+(.+)", s)` from position `i` on: the leftmost match. */
  function SearchPostalCity(s: string, i: nat): (m: Option<(string, string)>)
    requires i <= |s|
    ensures m.Some? ==> |m.value.0| == 4 && AllDigits(m.value.0)
    decreases |s| - i
  {
    if i == |s| then None
    else if PostalCityAt(s, i).Some? then PostalCityAt(s, i)
    else SearchPostalCity(s, i + 1)
  }

  /** On a stripped text, a match at `i` needs nothing beyond four digits and a whitespace
      character: the city is then the rest of the line after the whitespace run. */
  lemma {:induction false} PostalCityAtStripped(s: string, i: nat)
    requires IsStripped(s) && i <= |s|
    ensures PostalCityAt(s, i).Some? <==> i + 4 < |s| && AllDigits(s[i..i + 4]) && IsSpace(s[i + 4])
    ensures PostalCityAt(s, i).Some? ==>
      var j := SpaceRunEnd(s, i + 4);
      j < |s| && PostalCityAt(s, i) == Some((s[i..i + 4], s[j..LineEnd(s, j)]))
  {
    if i + 4 < |s| && AllDigits(s[i..i + 4]) && IsSpace(s[i + 4]) {
      var j := SpaceRunEnd(s, i + 4);
      if j == |s| {
        assert false;
      }
      assert s[j] != '\n';
    }
  }

  /** The search returns the match at the leftmost position that has one. */
  lemma {:induction false} SearchFindsLeftmost(s: string, i: nat, k: nat)
    requires i <= k < |s| && PostalCityAt(s, k).Some?
    requires forall m :: i <= m < k ==> PostalCityAt(s, m).None?
    ensures SearchPostalCity(s, i) == PostalCityAt(s, k)
    decreases k - i
  {
    if i < k {
      SearchFindsLeftmost(s, i + 1, k);
    }
  }

  /** The search finds nothing exactly when no position has a match. */
  lemma {:induction false} SearchFindsNothing(s: string, i: nat)
    requires i <= |s|
    ensures SearchPostalCity(s, i).None? <==> forall m :: i <= m < |s| ==> PostalCityAt(s, m).None?
    decreases |s| - i
  {
    if i < |s| {
      SearchFindsNothing(s, i + 1);
    }
  }

  /** The three results of `_split_address`. */
  datatype AddressParts = AddressParts(line: Option<string>, postalCode: Option<string>, city: Option<string>)

  /** The comma-separated parts, each stripped. */
  function StrippedParts(addr: string): (parts: seq<string>)
    ensures |parts| == |Split(addr, ',')| >= 1
    ensures forall i :: 0 <= i < |parts| ==> parts[i] == Strip(Split(addr, ',')[i])
  {
    var raw := Split(addr, ',');
    seq(|raw|, i requires 0 <= i < |raw| => Strip(raw[i]))
  }

  /** `_split_address` */
  function SplitAddress(addr: Option<string>): (r: AddressParts)
    ensures r.postalCode.Some? <==> r.city.Some?
    ensures r.postalCode.Some? ==> |r.postalCode.value| == 4 && AllDigits(r.postalCode.value)
  {
    if addr.None? || addr.value == [] then AddressParts(None, None, None)
    else
      var parts := StrippedParts(addr.value);
      if |parts| == 1 then
        match SearchPostalCity(parts[0], 0)
        case Some((postal, city)) => AddressParts(None, Some(postal), Some(Strip(city)))
        case None => AddressParts(Some(parts[0]), None, None)
      else
        match SearchPostalCity(parts[1], 0)
        case Some((postal, city)) => AddressParts(Some(parts[0]), Some(postal), Some(Strip(city)))
        case None => AddressParts(Some(parts[0]), None, None)
  }

  /** An absent or empty address gives three Nones. */
  lemma {:induction false} SplitAddressAbsent(addr: Option<string>)
    requires addr.None? || addr.value == []
    ensures SplitAddress(addr) == AddressParts(None, None, None)
  {
  }

  /** A comma-free text never yields both a line and a postal code: either it holds a
      postal code followed by a city, or the whole stripped text is the line. */
  lemma {:induction false} SplitAddressOnePart(a: string)
    requires a != [] && ',' !in a
    ensures var r := SplitAddress(Some(a));
      && (r.line.Some? <==> r.postalCode.None?)
      && (r.line.Some? ==> r.line.value == Strip(a) && SearchPostalCity(Strip(a), 0).None?)
      && (r.postalCode.Some? ==>
            var m := SearchPostalCity(Strip(a), 0);
            m.Some? && m.value.0 == r.postalCode.value && r.city == Some(Strip(m.value.1)))
  {
    SplitWithoutSeparator(a, ',');
  }

  /** A text without the separator splits into itself alone. */
  lemma {:induction false} SplitWithoutSeparator(s: string, sep: char)
    requires sep !in s
    ensures Split(s, sep) == [s]
  {
    if s != [] {
      SplitWithoutSeparator(s[1..], sep);
      assert s == [s[0]] + s[1..];
    }
  }

  /** With two or more parts, the line is the stripped first part, and postal code and city
      come from the second part alone. */
  lemma {:induction false} SplitAddressTwoParts(a: string, b: string)
    requires ',' !in a && ',' !in b
    ensures SplitAddress(Some(a + [','] + b)).line == Some(Strip(a))
    ensures SplitAddress(Some(a + [','] + b)).postalCode.Some? <==> SearchPostalCity(Strip(b), 0).Some?
    ensures var m := SearchPostalCity(Strip(b), 0); var r := SplitAddress(Some(a + [','] + b));
      m.Some? ==> (r.postalCode == Some(m.value.0) && r.city == Some(Strip(m.value.1)))
  {
    SplitAfterSeparator(a, ',', b);
    SplitWithoutSeparator(b, ',');
  }

  /** Every part after the second is ignored. */
  lemma {:induction false} SplitAddressIgnoresLaterParts(a: string, b: string, rest: string)
    requires ',' !in a && ',' !in b
    ensures SplitAddress(Some(a + [','] + b + [','] + rest)) == SplitAddress(Some(a + [','] + b))
  {
    var s := a + [','] + b + [','] + rest;
    assert s == a + [','] + (b + [','] + rest);
    SplitAfterSeparator(a, ',', b + [','] + rest);
    SplitAfterSeparator(b, ',', rest);
    SplitAfterSeparator(a, ',', b);
    SplitWithoutSeparator(b, ',');
    SplitAddressReadsTwoParts(s, a + [','] + b);
  }

  /** `_split_address` of a text with a comma reads only its first two parts. */
  lemma {:induction false} SplitAddressReadsTwoParts(x: string, y: string)
    requires |Split(x, ',')| >= 2 && |Split(y, ',')| >= 2
    requires Split(x, ',')[0] == Split(y, ',')[0] && Split(x, ',')[1] == Split(y, ',')[1]
    ensures SplitAddress(Some(x)) == SplitAddress(Some(y))
  {
    assert x != [] && y != [];
    assert StrippedParts(x)[0] == StrippedParts(y)[0];
    assert StrippedParts(x)[1] == StrippedParts(y)[1];
  }

  /** A newline-free text from `i` on runs to its end. */
  lemma {:induction false} LineEndWithoutNewline(s: string, i: nat)
    requires i <= |s| && '\n' !in s[i..]
    ensures LineEnd(s, i) == |s|
    decreases |s| - i
  {
    if i < |s| {
      assert s[i] == s[i..][0];
      assert s[i + 1..] == s[i..][1..];
      LineEndWithoutNewline(s, i + 1);
    }
  }

  /** Four digits, a space and a one-line city: the search finds both at the start. */
  lemma {:induction false} PostalCityFound(p: string, c: string)
    requires |p| == 4 && AllDigits(p)
    requires c != [] && IsStripped(c) && '\n' !in c
    ensures IsStripped(p + " " + c)
    ensures SearchPostalCity(p + " " + c, 0) == Some((p, c))
  {
    var s := p + " " + c;
    assert s[0..4] == p;
    assert s[4] == ' ';
    assert s[5] == c[0];
    assert s[|s| - 1] == c[|c| - 1];
    PostalCityAtStripped(s, 0);
    assert SpaceRunEnd(s, 4) == 5;
    assert s[5..] == c;
    LineEndWithoutNewline(s, 5);
    assert s[5..|s|] == c;
    assert PostalCityAt(s, 0) == Some((p, c));
  }

  /** The usual form "Jerikoveien 91B, 0575 Oslo" gives the stripped street as the line,
      then the postal code and the city. */
  lemma {:induction false} SplitAddressStreetPostalCity(a: string, p: string, c: string)
    requires ',' !in a
    requires |p| == 4 && AllDigits(p)
    requires c != [] && IsStripped(c) && '\n' !in c && ',' !in c
    ensures SplitAddress(Some(a + ", " + p + " " + c)) == AddressParts(Some(Strip(a)), Some(p), Some(c))
  {
    var b := " " + (p + " " + c);
    SplitStreetPostalCity(a, p, c);
    PostalCityFound(p, c);
    StripAfterOneSpace(p + " " + c);
    StripStripped(c);
    SplitAddressOfTwoParts(a + ", " + p + " " + c, a, b, p, c);
  }

  /** The street text splits at its one comma. */
  lemma {:induction false} SplitStreetPostalCity(a: string, p: string, c: string)
    requires ',' !in a && AllDigits(p) && ',' !in c
    ensures Split(a + ", " + p + " " + c, ',') == [a, " " + (p + " " + c)]
  {
    var b := " " + (p + " " + c);
    StreetTextRegrouped(a, p, c);
    NoCommaInPostalCity(p, c);
    SplitAfterSeparator(a, ',', b);
    SplitWithoutSeparator(b, ',');
  }

  /** One leading space is stripped from a stripped text. */
  lemma {:induction false} StripAfterOneSpace(s: string)
    requires s != [] && IsStripped(s)
    ensures Strip(" " + s) == s
  {
    StripPadded(" ", s, []);
    assert " " + s + [] == " " + s;
  }

  /** The street text regrouped around its comma. */
  lemma {:induction false} StreetTextRegrouped(a: string, p: string, c: string)
    ensures a + ", " + p + " " + c == a + [','] + (" " + (p + " " + c))
  {
  }

  /** Four digits, a space and a comma-free city hold no comma, even after a space. */
  lemma {:induction false} NoCommaInPostalCity(p: string, c: string)
    requires AllDigits(p) && ',' !in c
    ensures ',' !in " " + (p + " " + c)
  {
    assert forall i :: 0 <= i < |p| ==> p[i] != ',';
  }

  /** A text made of two comma-separated parts, the second holding a postal code and city. */
  lemma {:induction false} SplitAddressOfTwoParts(x: string, a: string, b: string, p: string, c: string)
    requires Split(x, ',') == [a, b]
    requires SearchPostalCity(Strip(b), 0) == Some((p, c))
    ensures SplitAddress(Some(x)) == AddressParts(Some(Strip(a)), Some(p), Some(Strip(c)))
  {
    var parts := StrippedParts(x);
    assert |Split(x, ',')| == 2;
    assert x != [];
    assert |parts| == 2;
    assert parts[0] == Strip(a);
    assert parts[1] == Strip(b);
    assert SearchPostalCity(parts[1], 0) == Some((p, c));
  }

  /** A comma-free "0575 Oslo" gives no line, only the postal code and the city. */
  lemma {:induction false} SplitAddressPostalCityOnly(p: string, c: string)
    requires |p| == 4 && AllDigits(p)
    requires c != [] && IsStripped(c) && '\n' !in c && ',' !in c
    ensures SplitAddress(Some(p + " " + c)) == AddressParts(None, Some(p), Some(c))
  {
    var s := p + " " + c;
    assert forall i :: 0 <= i < |p| ==> p[i] != ',';
    assert ',' !in s;
    SplitWithoutSeparator(s, ',');
    PostalCityFound(p, c);
    StripStripped(s);
    StripStripped(c);
    assert StrippedParts(s) == [s];
  }

  // ---- Text collection and status ----

  /** What one element contributes: its cleaned text, or nothing when that is None. */
  function Kept(t: Option<string>): (out: seq<string>)
    ensures |out| <= 1
    ensures out == [] <==> t.None? || AllSpace(t.value)
    ensures t.Some? && !AllSpace(t.value) ==> out == [Strip(t.value)]
  {
    match Clean(t)
    case Some(c) => [c]
    case None => []
  }

  /** The texts `_all_texts` keeps, in DOM order: each element's text cleaned, with the
      absent, empty and blank ones dropped. */
  function CleanedTexts(raw: seq<Option<string>>): (out: seq<string>)
    ensures |out| <= |raw|
  {
    if raw == [] then [] else Kept(raw[0]) + CleanedTexts(raw[1..])
  }

  /** Every collected text is non-empty and has no surrounding whitespace. */
  lemma {:induction false} CleanedTextsStripped(raw: seq<Option<string>>)
    ensures forall k :: 0 <= k < |CleanedTexts(raw)| ==> CleanedTexts(raw)[k] != [] && IsStripped(CleanedTexts(raw)[k])
  {
    if raw != [] {
      CleanedTextsStripped(raw[1..]);
      var head, tail := Kept(raw[0]), CleanedTexts(raw[1..]);
      assert CleanedTexts(raw) == head + tail;
      assert forall k :: 0 <= k < |head| ==> head[k] == Clean(raw[0]).value;
      forall k | 0 <= k < |head + tail|
        ensures (head + tail)[k] != [] && IsStripped((head + tail)[k])
      {
        if k >= |head| {
          assert (head + tail)[k] == tail[k - |head|];
        }
      }
    }
  }

  /** Collecting distributes over concatenation: order is kept and nothing is reordered. */
  lemma {:induction false} CleanedTextsAppend(raw1: seq<Option<string>>, raw2: seq<Option<string>>)
    ensures CleanedTexts(raw1 + raw2) == CleanedTexts(raw1) + CleanedTexts(raw2)
  {
    if raw1 == [] {
      assert raw1 + raw2 == raw2;
    } else {
      assert (raw1 + raw2)[1..] == raw1[1..] + raw2;
      CleanedTextsAppend(raw1[1..], raw2);
    }
  }

  /** One more element adds what it contributes at the end. */
  lemma {:induction false} CleanedTextsSnoc(raw: seq<Option<string>>, i: nat)
    requires i < |raw|
    ensures CleanedTexts(raw[..i + 1]) == CleanedTexts(raw[..i]) + Kept(raw[i])
  {
    assert raw[..i + 1] == raw[..i] + [raw[i]];
    CleanedTextsAppend(raw[..i], [raw[i]]);
    assert [raw[i]][1..] == [];
    assert CleanedTexts([raw[i]]) == Kept(raw[i]) + [];
  }

  /** Nothing is collected exactly when every text is absent or blank; this is when the
      facilities become None. */
  lemma {:induction false} CleanedTextsEmpty(raw: seq<Option<string>>)
    ensures CleanedTexts(raw) == [] <==> forall i :: 0 <= i < |raw| ==> Clean(raw[i]).None?
  {
    if raw != [] {
      CleanedTextsEmpty(raw[1..]);
      assert forall i :: 1 <= i < |raw| ==> raw[1..][i - 1] == raw[i];
    }
  }

  /** `_all_texts`, after its DOM query: the loop that cleans and keeps. */
  method AllTexts(raw: seq<Option<string>>) returns (out: seq<string>)
    ensures out == CleanedTexts(raw)
  {
    out := [];
    for i := 0 to |raw|
      invariant out == CleanedTexts(raw[..i])
    {
      CleanedTextsSnoc(raw, i);
      var t := Clean(raw[i]);
      if t.Some? {
        out := out + [t.value];
      }
    }
    assert raw[..|raw|] == raw;
  }

  /** A text that reads "solgt" once trimmed and lower-cased. */
  predicate IsSoldMarker(t: string) {
    AsciiLower(Strip(t)) == "solgt"
  }

  /** `_status` over the collected texts of the detail region: "sold" exactly when one of
      them is the sold marker, otherwise "active"; never None. */
  method Status(texts: seq<string>) returns (status: string)
    ensures status == "sold" <==> exists i :: 0 <= i < |texts| && IsSoldMarker(texts[i])
    ensures status == "sold" || status == "active"
    ensures status == StatusOf(texts)
  {
    for i := 0 to |texts|
      invariant forall k :: 0 <= k < i ==> !IsSoldMarker(texts[k])
    {
      var t := texts[i];
      if t != [] && IsSoldMarker(t) {
        status := "sold";
        return;
      }
      EmptyIsNoMarker(t);
    }
    status := "active";
    assert status[0] != 's';
  }

  /** An empty text is never the marker. */
  lemma {:induction false} EmptyIsNoMarker(t: string)
    ensures t == [] ==> !IsSoldMarker(t)
  {
    if t == [] {
      assert LStrip(t) == [];
      assert Strip(t) == [];
      assert AsciiLower([]) == [];
    }
  }

  /** The status `_status` decides, as a value. */
  function StatusOf(texts: seq<string>): string {
    if exists i :: 0 <= i < |texts| && IsSoldMarker(texts[i]) then "sold" else "active"
  }

  /** The marker is recognised whatever its case and whatever whitespace surrounds it. */
  lemma {:induction false} SoldMarkerIgnoresCaseAndPadding(pre: string, w: string, post: string)
    requires AllSpace(pre) && AllSpace(post) && AsciiLower(w) == "solgt"
    ensures IsSoldMarker(pre + w + post)
  {
    AsciiLowerAt(w, 0);
    AsciiLowerAt(w, 4);
    LowerCharOfLetter(w[0]);
    LowerCharOfLetter(w[4]);
    LetterIsNoSpace(w[0]);
    LetterIsNoSpace(w[4]);
    StripPadded(pre, w, post);
  }

  /** The marker is recognised only as the whole text: anything longer once trimmed is not it. */
  lemma {:induction false} SoldMarkerIsWholeText(t: string)
    requires |Strip(t)| != 5
    ensures !IsSoldMarker(t)
  {
  }

  // ---- The page composition ----

  /** The texts a detail page offers at the selectors `parse_property_page` reads: an
      element's text before `_clean`, None when the element is absent, the short wait runs
      out or reading it raised. The two multi-element selectors give one entry per element. */
  datatype PageTexts = PageTexts(
    title: Option<string>,
    subtitle: Option<string>,
    objectDetails: seq<Option<string>>,
    address: Option<string>,
    description: Option<string>,
    askingPrice: Option<string>,
    totalPrice: Option<string>,
    registrationCharge: Option<string>,
    jointDebt: Option<string>,
    commonMonthlyCost: Option<string>,
    collectiveAssets: Option<string>,
    taxValue: Option<string>,
    propertyType: Option<string>,
    ownershipType: Option<string>,
    bedrooms: Option<string>,
    rooms: Option<string>,
    floor: Option<string>,
    constructionYear: Option<string>,
    energyLabel: Option<string>,
    usableIArea: Option<string>,
    usableArea: Option<string>,
    plotArea: Option<string>,
    facilities: seq<Option<string>>)

  /** The four counts read with `_to_int_safe` all stay within `int()`'s digit limit. */
  predicate CountsFit(page: PageTexts) {
    && ToIntSafe(Clean(page.bedrooms)).Ok?
    && ToIntSafe(Clean(page.rooms)).Ok?
    && ToIntSafe(Clean(page.floor)).Ok?
    && ToIntSafe(Clean(page.constructionYear)).Ok?
  }

  /** The coordinates geocoding writes for the split address, if any. */
  function GeocodedPoint(parts: AddressParts, quote: string -> string, lookup: string -> GeoResponse): Option<(real, real)> {
    var search := SearchParts(parts.line, parts.postalCode, parts.city);
    if search == [] then None else AcceptedPoint(lookup(GeocodeUrl(Join(search, " "), quote)))
  }

  /** The address after both enrichment steps, as a value. */
  function EnrichedAddress<G>(parts: AddressParts, quote: string -> string, lookup: string -> GeoResponse,
                              neighbourhoods: Option<FeatureCollection<G>>, contains: (G, real, real) -> Option<bool>): AddressRecord
  {
    var point := GeocodedPoint(parts, quote, lookup);
    var lat := if point.Some? then Some(point.value.0) else None;
    var lon := if point.Some? then Some(point.value.1) else None;
    var neighbourhood :=
      if neighbourhoods.Some? && Truthy(lat) && Truthy(lon)
      then NeighbourhoodAfter(Features(neighbourhoods.value), contains, lon.value, lat.value, None)
      else None;
    AddressRecord(parts.line, parts.postalCode, parts.city, lat, lon, neighbourhood)
  }

  /** The enriched address keeps the address invariant: a neighbourhood only next to two
      non-zero coordinates, both or neither coordinate set, and the split text untouched. */
  lemma {:induction false} EnrichedAddressInvariant<G>(parts: AddressParts, quote: string -> string, lookup: string -> GeoResponse,
                                    neighbourhoods: Option<FeatureCollection<G>>, contains: (G, real, real) -> Option<bool>)
    ensures var a := EnrichedAddress(parts, quote, lookup, neighbourhoods, contains);
      && (a.neighbourhood.Some? ==> Truthy(a.lat) && Truthy(a.lon) && neighbourhoods.Some?)
      && (a.lat.Some? <==> a.lon.Some?)
      && (a.lat.Some? ==> SearchParts(parts.line, parts.postalCode, parts.city) != [])
      && a.line == parts.line && a.postalCode == parts.postalCode && a.city == parts.city
  {
  }

  /** The record a page yields once every field is read, given the enriched address. */
  function PropertyOf(meta: RealestateMetadata, page: PageTexts, address: AddressRecord): Property
    requires CountsFit(page)
  {
    var facilities := CleanedTexts(page.facilities);
    Property(
      title := Clean(page.title),
      subtitle := Clean(page.subtitle),
      descriptionRaw := Clean(page.description),
      category := Clean(Some(meta.category)),
      address := Some(address),
      askingPrice := ToInt(Clean(page.askingPrice)),
      totalPrice := ToInt(Clean(page.totalPrice)),
      transactionCosts := ToInt(Clean(page.registrationCharge)),
      communalFees := ToInt(Clean(page.commonMonthlyCost)),
      assessedWealthValue := ToInt(Clean(page.taxValue)),
      sharedDebt := ToInt(Clean(page.jointDebt)),
      sharedEquity := ToInt(Clean(page.collectiveAssets)),
      propertyType := Clean(page.propertyType),
      ownershipType := Clean(page.ownershipType),
      bedrooms := ToIntSafe(Clean(page.bedrooms)).value,
      rooms := ToIntSafe(Clean(page.rooms)).value,
      floor := ToIntSafe(Clean(page.floor)).value,
      yearBuilt := ToIntSafe(Clean(page.constructionYear)).value,
      energyLabel := Clean(page.energyLabel),
      areaBraI := ToFloatM2(Clean(page.usableIArea)),
      areaBra := ToFloatM2(Clean(page.usableArea)),
      plotArea := ToFloatM2(Clean(page.plotArea)),
      facilities := if facilities == [] then None else Some(facilities),
      finnCode := Clean(Some(meta.finnId)),
      url := Clean(Some(meta.url)),
      status := Some(StatusOf(CleanedTexts(page.objectDetails))),
      rawMeta := None)
  }

  /** What every parsed record guarantees: a status of "sold" or "active", facilities that
      are None exactly when no element had text and otherwise are cleaned texts, the finn
      code and url present unless blank, and the enriched address attached. */
  lemma {:induction false} PropertyOfShape(meta: RealestateMetadata, page: PageTexts, address: AddressRecord)
    requires CountsFit(page)
    ensures var p := PropertyOf(meta, page, address);
      && (p.status == Some("sold") || p.status == Some("active"))
      && (p.facilities.None? <==> forall i :: 0 <= i < |page.facilities| ==> Clean(page.facilities[i]).None?)
      && (p.facilities.Some? ==> forall k :: 0 <= k < |p.facilities.value| ==>
            p.facilities.value[k] != [] && IsStripped(p.facilities.value[k]))
      && (p.finnCode.None? <==> AllSpace(meta.finnId))
      && (p.url.None? <==> AllSpace(meta.url))
      && p.address == Some(address)
  {
    CleanedTextsEmpty(page.facilities);
    CleanedTextsStripped(page.facilities);
  }

  /** The keyword arguments `parse_property_page` passes to `Property(...)`. */
  const KeywordsAsWritten: seq<Field> := [
    Title, Subtitle, DescriptionRaw, Category, AddressField,
    AskingPrice, TotalPrice, TransactionCosts, CommunalFees,
    AssessedWealthValue, SharedDebt, SharedEquity,
    PropertyType, OwnershipType, Bedrooms, Rooms, Floor, YearBuilt,
    EnergyLabel, AreaBraI, AreaBra, PlotArea, Facilities,
    FinnCode, Url, StatusField]

  /** The names a call passes, as a set. */
  function Passed(keywords: seq<Field>): (passed: set<Field>)
    ensures forall f :: f in passed <==> f in keywords
  {
    set f | f in keywords
  }

  /** `Property(...)` with the arguments exactly as the parser passes them. */
  function ConstructPropertyAsWritten(candidate: Property): Result<Property, ParseError> {
    match ValidateProperty(Passed(KeywordsAsWritten), candidate)
    case Ok(p) => Ok(p)
    case Err(missing) => Err(ValidationFailed(missing))
  }

  /** As written, the construction rejects every page: `raw_meta` declares no default, so
      pydantic requires it, and it is not passed. */
  lemma {:induction false} ConstructionAsWrittenFails(candidate: Property)
    ensures ConstructPropertyAsWritten(candidate) == Err(ValidationFailed([RawMeta]))
  {
    MissingAsWritten();
  }

  /** The only field the parser's call leaves without a value is `raw_meta`. */
  lemma {:induction false} MissingAsWritten()
    ensures MissingAmong(PropertyFields, Passed(KeywordsAsWritten)) == [RawMeta]
  {
    var passed := Passed(KeywordsAsWritten);
    FieldsAsWritten();
    MissingNone(KeywordsAsWritten, passed);
    MissingAmongAppend(KeywordsAsWritten, [ScrapedAt, RawMeta], passed);
    MissingAfterKeywords();
  }

  /** The parser passes every declared field up to `status`, in declaration order; the two
      after it are `scraped_at` and `raw_meta`. */
  lemma {:induction false} FieldsAsWritten()
    ensures PropertyFields == KeywordsAsWritten + [ScrapedAt, RawMeta]
  {
  }

  /** Of the two fields not passed, `scraped_at` has a default and `raw_meta` has none. */
  lemma {:induction false} MissingAfterKeywords()
    ensures MissingAmong([ScrapedAt, RawMeta], Passed(KeywordsAsWritten)) == [RawMeta]
  {
    assert [ScrapedAt, RawMeta][1..] == [RawMeta];
    assert [RawMeta][1..] == [];
  }

  /** A list of fields that were all passed has nothing missing. */
  lemma {:induction false} MissingNone(fields: seq<Field>, passed: set<Field>)
    requires forall i :: 0 <= i < |fields| ==> fields[i] in passed
    ensures MissingAmong(fields, passed) == []
  {
    if fields != [] {
      MissingNone(fields[1..], passed);
    }
  }

  /** Looking for missing fields distributes over concatenation of field lists. */
  lemma {:induction false} MissingAmongAppend(f1: seq<Field>, f2: seq<Field>, passed: set<Field>)
    ensures MissingAmong(f1 + f2, passed) == MissingAmong(f1, passed) + MissingAmong(f2, passed)
  {
    if f1 == [] {
      assert f1 + f2 == f2;
    } else {
      assert (f1 + f2)[1..] == f1[1..] + f2;
      MissingAmongAppend(f1[1..], f2, passed);
    }
  }

  /** With `raw_meta` passed as well, no field is missing. */
  lemma {:induction false} MissingNoneCorrected()
    ensures MissingAmong(PropertyFields, Passed(KeywordsAsWritten + [RawMeta])) == []
  {
    var passed := Passed(KeywordsAsWritten + [RawMeta]);
    FieldsAsWritten();
    MissingNone(KeywordsAsWritten, passed);
    MissingAmongAppend(KeywordsAsWritten, [ScrapedAt, RawMeta], passed);
    assert [ScrapedAt, RawMeta][1..] == [RawMeta];
    assert [RawMeta][1..] == [];
  }

  /** `Property(...)` with `raw_meta=None` added, as the record was evidently meant to be
      built: it always succeeds and returns the record unchanged. */
  function ConstructProperty(candidate: Property): (r: Result<Property, ParseError>)
    requires candidate.rawMeta.None?
    ensures r == Ok(candidate)
  {
    MissingNoneCorrected();
    match ValidateProperty(Passed(KeywordsAsWritten + [RawMeta]), candidate)
    case Ok(p) => Ok(p)
    case Err(missing) => Err(ValidationFailed(missing))
  }

  /** The address steps of `parse_property_page`: an `Address` built from the split text,
      geocoded, then given a neighbourhood when a feature collection is at hand. */
  method BuildAddress<G>(parts: AddressParts, neighbourhoods: Option<FeatureCollection<G>>,
                         quote: string -> string, lookup: string -> GeoResponse,
                         contains: (G, real, real) -> Option<bool>)
    returns (rec: AddressRecord)
    ensures rec == EnrichedAddress(parts, quote, lookup, neighbourhoods, contains)
  {
    var address := new Address(parts.line, parts.postalCode, parts.city);
    var _ := address.ResolveLatLong(quote, lookup);
    if neighbourhoods.Some? {
      address.FindNeighbourhood(neighbourhoods.value, contains);
    }
    rec := address.Record();
  }

  /** What `parse_property_page` yields for one listing: a failure when the page does not
      open or a count is too long for `int()`, otherwise the record of `PropertyOf` with the
      enriched address. */
  function PageOutcome<G>(meta: RealestateMetadata, page: Option<PageTexts>,
                          neighbourhoods: Option<FeatureCollection<G>>, quote: string -> string,
                          lookup: string -> GeoResponse, contains: (G, real, real) -> Option<bool>)
    : (r: Result<Property, ParseError>)
    ensures r.Ok? <==> page.Some? && CountsFit(page.value)
    ensures r.Err? ==> (r.error == PageLoadFailed <==> page.None?)
    ensures r.Ok? ==> r.value.address.Some? && r.value.rawMeta.None?
    ensures r.Ok? ==> r.value.status == Some("sold") || r.value.status == Some("active")
  {
    if page.None? then Err(PageLoadFailed)
    else if !CountsFit(page.value) then Err(IntDigitLimit)
    else
      var address := EnrichedAddress(SplitAddress(Clean(page.value.address)), quote, lookup, neighbourhoods, contains);
      PropertyOfShape(meta, page.value, address);
      Ok(PropertyOf(meta, page.value, address))
  }

  /** `parse_property_page`: opens the listing, reads every field independently, splits and
      enriches the address, and builds the record. It fails only when the page does not
      open or a count is too long for `int()`; otherwise it yields the record of
      `PropertyOf`, whose address went through geocoding and then, when a feature
      collection is given, the neighbourhood lookup. */
  method ParsePropertyPage<G>(meta: RealestateMetadata, page: Option<PageTexts>,
                              neighbourhoods: Option<FeatureCollection<G>>, quote: string -> string,
                              lookup: string -> GeoResponse, contains: (G, real, real) -> Option<bool>)
    returns (r: Result<Property, ParseError>)
    ensures r == PageOutcome(meta, page, neighbourhoods, quote, lookup, contains)
    ensures page.None? ==> r == Err(PageLoadFailed)
    ensures page.Some? && !CountsFit(page.value) ==> r == Err(IntDigitLimit)
    ensures page.Some? && CountsFit(page.value) ==>
      r == Ok(PropertyOf(meta, page.value,
                         EnrichedAddress(SplitAddress(Clean(page.value.address)), quote, lookup, neighbourhoods, contains)))
  {
    if page.None? {
      return Err(PageLoadFailed);
    }
    var tab := page.value;

    var title := Clean(tab.title);
    var subtitle := Clean(tab.subtitle);

    var details := AllTexts(tab.objectDetails);
    var status := Status(details);

    var addressLine := Clean(tab.address);
    var parts := SplitAddress(addressLine);
    var address := BuildAddress(parts, neighbourhoods, quote, lookup, contains);

    var descriptionRaw := Clean(tab.description);

    var askingPrice := ToInt(Clean(tab.askingPrice));
    var totalPrice := ToInt(Clean(tab.totalPrice));
    var transactionCosts := ToInt(Clean(tab.registrationCharge));
    var sharedDebt := ToInt(Clean(tab.jointDebt));
    var communalFees := ToInt(Clean(tab.commonMonthlyCost));
    var sharedEquity := ToInt(Clean(tab.collectiveAssets));
    var assessedWealthValue := ToInt(Clean(tab.taxValue));

    var propertyType := Clean(tab.propertyType);
    var ownershipType := Clean(tab.ownershipType);
    var bedrooms := ToIntSafe(Clean(tab.bedrooms));
    if bedrooms.Err? {
      return Err(bedrooms.error);
    }
    var rooms := ToIntSafe(Clean(tab.rooms));
    if rooms.Err? {
      return Err(rooms.error);
    }
    var floor := ToIntSafe(Clean(tab.floor));
    if floor.Err? {
      return Err(floor.error);
    }
    var yearBuilt := ToIntSafe(Clean(tab.constructionYear));
    if yearBuilt.Err? {
      return Err(yearBuilt.error);
    }
    var energyLabel := Clean(tab.energyLabel);

    var areaBraI := ToFloatM2(Clean(tab.usableIArea));
    var areaBra := ToFloatM2(Clean(tab.usableArea));
    var plotArea := ToFloatM2(Clean(tab.plotArea));

    var collected := AllTexts(tab.facilities);
    var facilities := if collected == [] then None else Some(collected);

    CleanIdempotent(tab.title);
    CleanIdempotent(tab.subtitle);
    CleanIdempotent(tab.propertyType);
    CleanIdempotent(tab.ownershipType);
    CleanIdempotent(tab.energyLabel);
    r := ConstructProperty(Property(
      title := Clean(title),
      subtitle := Clean(subtitle),
      descriptionRaw := descriptionRaw,
      category := Clean(Some(meta.category)),
      address := Some(address),
      askingPrice := askingPrice,
      totalPrice := totalPrice,
      transactionCosts := transactionCosts,
      communalFees := communalFees,
      assessedWealthValue := assessedWealthValue,
      sharedDebt := sharedDebt,
      sharedEquity := sharedEquity,
      propertyType := Clean(propertyType),
      ownershipType := Clean(ownershipType),
      bedrooms := bedrooms.value,
      rooms := rooms.value,
      floor := floor.value,
      yearBuilt := yearBuilt.value,
      energyLabel := Clean(energyLabel),
      areaBraI := areaBraI,
      areaBra := areaBra,
      plotArea := plotArea,
      facilities := facilities,
      finnCode := Clean(Some(meta.finnId)),
      url := Clean(Some(meta.url)),
      status := Some(status),
      rawMeta := None));
  }
}
