/** The string primitives the roster normalisation leans on: JavaScript's
    `String.prototype.trim`, `String(n)` for an integer, and the first run
    of decimal digits that `/(\d+)/` finds followed by `parseInt(_, 10)`. */
module Text {
  import opened Options

  /** ECMAScript WhiteSpace and LineTerminator code points: the set `trim`
      strips from both ends. U+0009 to U+000D are tab, line feed, vertical
      tab, form feed and carriage return; U+2000 to U+200A and the other
      listed code points above U+007F are the space separators of category
      Zs, the line and paragraph separators and the byte order mark. */
  predicate IsWhitespace(c: char) {
    || c == ' '
    || '\t' <= c <= '\r'
    || c == '\U{00A0}' || c == '\U{1680}'
    || '\U{2000}' <= c <= '\U{200A}'
    || c == '\U{2028}' || c == '\U{2029}' || c == '\U{202F}' || c == '\U{205F}'
    || c == '\U{3000}' || c == '\U{FEFF}'
  }

  ghost predicate AllWhitespace(s: string) {
    forall i :: 0 <= i < |s| ==> IsWhitespace(s[i])
  }

  /** No whitespace at either end: what `trim` leaves behind. */
  ghost predicate Trimmed(s: string) {
    s == [] || (!IsWhitespace(s[0]) && !IsWhitespace(s[|s| - 1]))
  }

  /** Drops leading whitespace. */
  function TrimStart(s: string): (r: string)
    ensures |r| <= |s| && r == s[|s| - |r|..]
    ensures AllWhitespace(s[..|s| - |r|])
    ensures r == [] || !IsWhitespace(r[0])
  {
    if s != [] && IsWhitespace(s[0]) then
      var r := TrimStart(s[1..]);
      assert r == s[|s| - |r|..];
      var pad, rest := s[..|s| - |r|], s[1..][..|s| - 1 - |r|];
      assert AllWhitespace(pad) by {
        forall i | 0 <= i < |pad| ensures IsWhitespace(pad[i]) {
          if i > 0 { assert pad[i] == rest[i - 1]; }
        }
      }
      r
    else s
  }

  /** Drops trailing whitespace. */
  function TrimEnd(s: string): (r: string)
    ensures |r| <= |s| && r == s[..|r|]
    ensures AllWhitespace(s[|r|..])
    ensures r == [] || !IsWhitespace(r[|r| - 1])
  {
    if s != [] && IsWhitespace(s[|s| - 1]) then
      var t := s[..|s| - 1];
      var r := TrimEnd(t);
      assert r == s[..|r|];
      var pad, rest := s[|r|..], t[|r|..];
      assert AllWhitespace(pad) by {
        forall i | 0 <= i < |pad| ensures IsWhitespace(pad[i]) {
          if i < |rest| { assert pad[i] == rest[i]; }
        }
      }
      r
    else s
  }

  /** `String.prototype.trim`. */
  function Trim(s: string): (r: string)
    ensures |r| <= |s|
    ensures Trimmed(r)
  {
    TrimEnd(TrimStart(s))
  }

  lemma {:induction false} TrimStartSkips(pre: string, t: string)
    requires AllWhitespace(pre)
    ensures TrimStart(pre + t) == TrimStart(t)
    decreases |pre|
  {
    if pre == [] {
      assert pre + t == t;
    } else {
      assert (pre + t)[0] == pre[0];
      assert (pre + t)[1..] == pre[1..] + t;
      TrimStartSkips(pre[1..], t);
    }
  }

  lemma {:induction false} TrimEndSkips(t: string, post: string)
    requires AllWhitespace(post)
    ensures TrimEnd(t + post) == TrimEnd(t)
    decreases |post|
  {
    if post == [] {
      assert t + post == t;
    } else {
      assert (t + post)[|t + post| - 1] == post[|post| - 1];
      assert (t + post)[..|t + post| - 1] == t + post[..|post| - 1];
      TrimEndSkips(t, post[..|post| - 1]);
    }
  }

  /** `trim` removes exactly the surrounding whitespace: padding a trimmed
      string with whitespace on either side and trimming gives it back. */
  lemma TrimRemovesPadding(pre: string, s: string, post: string)
    requires AllWhitespace(pre) && AllWhitespace(post) && Trimmed(s)
    ensures Trim(pre + s + post) == s
  {
    assert pre + s + post == pre + (s + post);
    TrimStartSkips(pre, s + post);
    if s == [] {
      assert s + post == post;
      assert TrimStart(post) == [];
    } else {
      assert TrimStart(s + post) == s + post;
    }
    TrimEndSkips(s, post);
  }

  lemma {:induction false} TrimStartEmpty(s: string)
    ensures TrimStart(s) == [] <==> AllWhitespace(s)
  {
    if s != [] {
      TrimStartEmpty(s[1..]);
      assert AllWhitespace(s) <==> IsWhitespace(s[0]) && AllWhitespace(s[1..]) by {
        assert forall i :: 1 <= i < |s| ==> s[i] == s[1..][i - 1];
      }
    }
  }

  lemma {:induction false} TrimEndEmpty(s: string)
    ensures TrimEnd(s) == [] <==> AllWhitespace(s)
  {
    if s != [] {
      TrimEndEmpty(s[..|s| - 1]);
      assert AllWhitespace(s) <==> IsWhitespace(s[|s| - 1]) && AllWhitespace(s[..|s| - 1]) by {
        assert forall i :: 0 <= i < |s| - 1 ==> s[i] == s[..|s| - 1][i];
      }
    }
  }

  /** `trim` leaves nothing exactly when the string is blank. */
  lemma TrimEmpty(s: string)
    ensures Trim(s) == [] <==> AllWhitespace(s)
  {
    TrimStartEmpty(s);
    TrimEndEmpty(TrimStart(s));
  }

  /** A string without surrounding whitespace is its own trim. */
  lemma TrimOfTrimmed(s: string)
    requires Trimmed(s)
    ensures Trim(s) == s
  {
    TrimRemovesPadding([], s, []);
    assert [] + s + [] == s;
  }

  predicate IsDigit(c: char) {
    '0' <= c <= '9'
  }

  ghost predicate AllDigits(s: string) {
    forall i :: 0 <= i < |s| ==> IsDigit(s[i])
  }

  ghost predicate HasDigit(s: string) {
    exists i :: 0 <= i < |s| && IsDigit(s[i])
  }

  function DigitValue(c: char): nat
    requires IsDigit(c)
  {
    c as int - '0' as int
  }

  function DigitChar(d: nat): char
    requires d < 10
  {
    ('0' as int + d) as char
  }

  /** The value of a string of decimal digits, as `parseInt(d, 10)` reads it
      (leading zeros allowed). */
  function DigitsValue(d: string): nat
    requires AllDigits(d)
  {
    if d == [] then 0 else DigitsValue(d[..|d| - 1]) * 10 + DigitValue(d[|d| - 1])
  }

  /** The canonical decimal spelling of a natural number. */
  function DecimalDigits(n: nat): (r: string)
    ensures |r| > 0 && AllDigits(r)
    ensures DigitsValue(r) == n
    ensures r[0] == '0' ==> r == "0"
  {
    if n < 10 then [DigitChar(n)]
    else
      var r := DecimalDigits(n / 10) + [DigitChar(n % 10)];
      assert r[..|r| - 1] == DecimalDigits(n / 10);
      r
  }

  /** A canonical decimal numeral: digits only, and no leading zero unless
      the numeral is "0" itself. */
  ghost predicate Canonical(d: string) {
    |d| > 0 && AllDigits(d) && (d[0] == '0' ==> d == "0")
  }

  /** `String(n)` for an integer `n`: the canonical numeral of `n`, after a
      `-` when `n` is negative. */
  function IntToString(n: int): (r: string)
    ensures n >= 0 ==> Canonical(r) && DigitsValue(r) == n
    ensures n < 0 ==> |r| > 1 && r[0] == '-' && Canonical(r[1..]) && r[1] != '0' && DigitsValue(r[1..]) == -n
  {
    if n < 0 then
      var r := "-" + DecimalDigits(-n);
      assert r[1..] == DecimalDigits(-n);
      r
    else DecimalDigits(n)
  }

  /** A numeral of two or more digits that does not start with `0` is worth
      at least ten. */
  lemma {:induction false} LongNumeralAtLeastTen(d: string)
    requires |d| >= 2 && AllDigits(d) && d[0] != '0'
    ensures DigitsValue(d) >= 10
  {
    var init := d[..|d| - 1];
    assert init[0] == d[0];
    if |d| > 2 {
      LongNumeralAtLeastTen(init);
    }
  }

  /** Two canonical numerals with the same value are the same string, so a
      number has exactly one canonical spelling. */
  lemma {:induction false} CanonicalUnique(a: string, b: string)
    requires Canonical(a) && Canonical(b) && DigitsValue(a) == DigitsValue(b)
    ensures a == b
    decreases |a|
  {
    if |a| >= 2 { LongNumeralAtLeastTen(a); }
    if |b| >= 2 { LongNumeralAtLeastTen(b); }
    if |a| == 1 || |b| == 1 {
      assert |a| == 1 && |b| == 1;
      assert a == [a[0]] && b == [b[0]];
    } else {
      var a', b' := a[..|a| - 1], b[..|b| - 1];
      assert DigitValue(a[|a| - 1]) == DigitValue(b[|b| - 1]);
      assert a'[0] == a[0] && b'[0] == b[0];
      CanonicalUnique(a', b');
      assert a == a' + [a[|a| - 1]] && b == b' + [b[|b| - 1]];
    }
  }

  /** `String(n)` is the one canonical numeral of a natural number `n`. */
  lemma IntToStringIsTheNumeral(n: nat, d: string)
    requires Canonical(d) && DigitsValue(d) == n
    ensures IntToString(n) == d
  {
    CanonicalUnique(IntToString(n), d);
  }

  /** Index of the first decimal digit of `s`, if any. */
  function FirstDigit(s: string): (r: Option<nat>)
    ensures r.None? <==> !HasDigit(s)
    ensures r.Some? ==> r.value < |s| && IsDigit(s[r.value])
    ensures r.Some? ==> forall i :: 0 <= i < r.value ==> !IsDigit(s[i])
  {
    if s == [] then None
    else if IsDigit(s[0]) then Some(0)
    else
      match FirstDigit(s[1..])
      case None => assert !HasDigit(s) by { assert forall i :: 1 <= i < |s| ==> s[i] == s[1..][i - 1]; } None
      case Some(i) => assert s[i + 1] == s[1..][i]; Some(i + 1)
  }

  /** The longest prefix of `s` made of digits. */
  function DigitRun(s: string): (r: string)
    ensures |r| <= |s| && r == s[..|r|]
    ensures AllDigits(r)
    ensures |r| == |s| || !IsDigit(s[|r|])
  {
    if s != [] && IsDigit(s[0]) then [s[0]] + DigitRun(s[1..]) else []
  }

  /** `s[i..j]` is the first maximal run of digits in `s`: what the regular
      expression `/(\d+)/` captures. */
  ghost predicate FirstRunAt(s: string, i: int, j: int) {
    && 0 <= i < j <= |s|
    && (forall k :: 0 <= k < i ==> !IsDigit(s[k]))
    && (forall k :: i <= k < j ==> IsDigit(s[k]))
    && (j == |s| || !IsDigit(s[j]))
  }

  /** `Number.MAX_SAFE_INTEGER`, the sort key of a table number without digits. */
  const MAX_SAFE_INTEGER: nat := 9007199254740991

  /** `parseNum` of the roster: the value of the first run of digits in the
      table number, or `MAX_SAFE_INTEGER` when it has none. A missing number
      (null or undefined) prints as "null" or "undefined", which hold no digit. */
  function ParseNum(no: Option<string>): (r: nat)
    ensures no.None? || !HasDigit(no.value) ==> r == MAX_SAFE_INTEGER
    ensures no.Some? && HasDigit(no.value) ==>
      exists i, j :: FirstRunAt(no.value, i, j) && r == DigitsValue(no.value[i..j])
  {
    match no
    case None => MAX_SAFE_INTEGER
    case Some(s) =>
      match FirstDigit(s)
      case None => MAX_SAFE_INTEGER
      case Some(i) =>
        var run := DigitRun(s[i..]);
        assert run == s[i..i + |run|];
        assert FirstRunAt(s, i, i + |run|);
        DigitsValue(run)
  }

  lemma ParseNumExamples()
    ensures ParseNum(Some("12U")) == 12
    ensures ParseNum(Some("x")) == MAX_SAFE_INTEGER
    ensures ParseNum(None) == MAX_SAFE_INTEGER
  {
    assert !HasDigit("x");
    assert DigitRun("U") == [];
    assert DigitRun("2U") == "2";
    assert DigitRun("12U") == "12";
    assert "12"[..1] == "1";
    assert DigitsValue("12") == 12;
  }

  /** Leading zeros and text after the first run do not count. */
  lemma ParseNumFirstRun()
    ensures ParseNum(Some("A007b3")) == 7
  {
    assert FirstDigit("A007b3") == Some(1);
    assert "A007b3"[1..] == "007b3";
    assert DigitRun("b3") == [];
    assert DigitRun("7b3") == "7";
    assert DigitRun("07b3") == "07";
    assert DigitRun("007b3") == "007";
    assert "007"[..2] == "00" && "00"[..1] == "0";
    assert DigitsValue("007") == 7;
  }

  lemma ParseNumSmall()
    ensures ParseNum(Some("1")) == 1 && ParseNum(Some("3")) == 3
    ensures ParseNum(Some("1U")) == 1 && ParseNum(Some("2U")) == 2
  {
    assert DigitRun("U") == [];
    assert DigitRun("1U") == "1";
    assert DigitRun("2U") == "2";
  }

  lemma ParseNumTen()
    ensures ParseNum(Some("10")) == 10
  {
    assert DigitRun("0") == "0";
    assert DigitRun("10") == "10";
    assert "10"[..1] == "1";
    assert DigitsValue("10") == 10;
  }
}
