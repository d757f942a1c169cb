/** The parts of Python's `str` and `int` semantics that the crawler's
    bookkeeping relies on: `isspace`/`strip`, `isdigit`, `replace(c, '')`,
    `split(c)`, `startswith`, substring search, `int(text)` and `str(n)`.
    Only ASCII digits are modelled; whitespace is Python's full `isspace` set. */
module PyStr {
  import opened Wrappers

  /** Python's `str.isspace()` for one character. */
  predicate IsSpace(c: char) {
    c == ' ' || ('\t' <= c <= '\r') || ('\U{1c}' <= c <= '\U{1f}') ||
    c == '\U{85}' || c == '\U{a0}' || c == '\U{1680}' || ('\U{2000}' <= c <= '\U{200a}') ||
    c == '\U{2028}' || c == '\U{2029}' || c == '\U{202f}' || c == '\U{205f}' || c == '\U{3000}'
  }

  predicate IsDigit(c: char) {
    '0' <= c <= '9'
  }

  /** Python's `str.isdigit()` restricted to ASCII digits: non-empty and all digits. */
  predicate IsDigitStr(s: string) {
    |s| > 0 && forall i :: 0 <= i < |s| ==> IsDigit(s[i])
  }

  /** `s.lstrip()` */
  function LStrip(s: string): (r: string)
    ensures |r| <= |s|
    ensures r == [] || !IsSpace(r[0])
  {
    if s != [] && IsSpace(s[0]) then LStrip(s[1..]) else s
  }

  lemma {:induction false} LStripIsSuffix(s: string)
    ensures LStrip(s) == s[|s| - |LStrip(s)|..]
  {
    if s != [] && IsSpace(s[0]) {
      LStripIsSuffix(s[1..]);
    }
  }

  /** `s.rstrip()` */
  function RStrip(s: string): (r: string)
    ensures |r| <= |s|
    ensures r == [] || !IsSpace(r[|r| - 1])
  {
    if s != [] && IsSpace(s[|s| - 1]) then RStrip(s[..|s| - 1]) else s
  }

  lemma {:induction false} RStripIsPrefix(s: string)
    ensures RStrip(s) == s[..|RStrip(s)|]
  {
    if s != [] && IsSpace(s[|s| - 1]) {
      RStripIsPrefix(s[..|s| - 1]);
    }
  }

  /** `s.strip()`: a contiguous piece of `s` with no whitespace at either end. */
  function Strip(s: string): (r: string)
    ensures |r| <= |s|
    ensures r == [] || (!IsSpace(r[0]) && !IsSpace(r[|r| - 1]))
  {
    RStripIsPrefix(LStrip(s));
    RStrip(LStrip(s))
  }

  /** `s.startswith(p)` */
  predicate StartsWith(s: string, p: string) {
    |p| <= |s| && s[..|p|] == p
  }

  /** `s.replace(c, '')` */
  function RemoveChar(s: string, c: char): (r: string)
    ensures c !in r
    ensures forall x :: x in r ==> x in s
    ensures c !in s ==> r == s
  {
    if s == [] then []
    else if s[0] == c then RemoveChar(s[1..], c)
    else [s[0]] + RemoveChar(s[1..], c)
  }

  /** `s.split(c)` for a one-character separator: at least one piece, none of
      which contains the separator. */
  function Split(s: string, c: char): (parts: seq<string>)
    ensures |parts| >= 1
    ensures forall k :: 0 <= k < |parts| ==> c !in parts[k]
  {
    if s == [] then [""]
    else
      var rest := Split(s[1..], c);
      if s[0] == c then [""] + rest else [[s[0]] + rest[0]] + rest[1..]
  }

  /** `c.join(parts)`, the inverse of Split. */
  function Join(parts: seq<string>, c: char): string
    requires |parts| >= 1
  {
    if |parts| == 1 then parts[0] else parts[0] + [c] + Join(parts[1..], c)
  }

  lemma {:induction false} JoinSplit(s: string, c: char)
    ensures Join(Split(s, c), c) == s
  {
    if s != [] {
      var rest := Split(s[1..], c);
      JoinSplit(s[1..], c);
      if s[0] != c && |rest| > 1 {
        assert Join(rest, c) == rest[0] + [c] + Join(rest[1..], c);
        assert Split(s, c)[1..] == rest[1..];
      }
    }
  }

  lemma {:induction false} SplitWithoutSeparator(s: string, c: char)
    requires c !in s
    ensures Split(s, c) == [s]
  {
    if s != [] {
      SplitWithoutSeparator(s[1..], c);
      assert [s[0]] + s[1..] == s;
    }
  }

  /** A first piece without the separator is split off whole. */
  lemma {:induction false} SplitCons(x: string, c: char, y: string)
    requires c !in x
    ensures Split(x + [c] + y, c) == [x] + Split(y, c)
  {
    if x == [] {
      assert x + [c] + y == [c] + y;
      assert ([c] + y)[1..] == y;
    } else {
      assert (x + [c] + y)[1..] == x[1..] + [c] + y;
      SplitCons(x[1..], c, y);
      assert [x[0]] + x[1..] == x;
    }
  }

  /** Splitting `x + c + y` at its only separator gives back the two sides. */
  lemma {:induction false} SplitAround(x: string, c: char, y: string)
    requires c !in x && c !in y
    ensures Split(x + [c] + y, c) == [x, y]
  {
    if x == [] {
      assert x + [c] + y == [c] + y;
      assert ([c] + y)[1..] == y;
      SplitWithoutSeparator(y, c);
    } else {
      assert (x + [c] + y)[1..] == x[1..] + [c] + y;
      SplitAround(x[1..], c, y);
      assert [x[0]] + x[1..] == x;
    }
  }

  function DigitChar(d: nat): char
    requires d < 10
  {
    ('0' as int + d) as char
  }

  /** `str(n)` for a natural number: its decimal digits, no leading zero. */
  function Dec(n: nat): (r: string)
    ensures IsDigitStr(r)
    ensures n > 0 ==> r[0] != '0'
  {
    if n < 10 then [DigitChar(n)] else Dec(n / 10) + [DigitChar(n % 10)]
  }

  /** `str(n)` for any integer. */
  function PyStrInt(n: int): string {
    if n < 0 then "-" + Dec(-n) else Dec(n)
  }

  function Zeros(z: nat): (r: string)
    ensures |r| == z && forall i :: 0 <= i < z ==> r[i] == '0'
  {
    if z == 0 then [] else ['0'] + Zeros(z - 1)
  }

  /** A decimal numeral for `n` written with `z` leading zeros, as in "01". */
  function Numeral(z: nat, n: nat): (r: string)
    ensures IsDigitStr(r)
  {
    Zeros(z) + Dec(n)
  }

  /** Digits separated by single underscores, as Python's `int()` accepts them. */
  predicate IsDigitGroups(s: string) {
    && |s| > 0 && IsDigit(s[0]) && IsDigit(s[|s| - 1])
    && (forall i :: 0 <= i < |s| ==> IsDigit(s[i]) || s[i] == '_')
    && (forall i, j :: 0 <= i < |s| && 0 <= j < |s| && j == i + 1 && s[i] == '_' ==> s[j] != '_')
  }

  /** The value of the digits of `s`, skipping underscores. */
  function GroupsValue(s: string): nat {
    if s == [] then 0
    else if IsDigit(s[|s| - 1]) then GroupsValue(s[..|s| - 1]) * 10 + (s[|s| - 1] as int - '0' as int)
    else GroupsValue(s[..|s| - 1])
  }

  /** Python's `int(text)` for base 10: surrounding whitespace, an optional sign
      and underscore-separated digit groups; `None` where Python raises ValueError. */
  function PyInt(s: string): Option<int> {
    var t := Strip(s);
    if t == [] then None
    else
      var body := if t[0] == '+' || t[0] == '-' then t[1..] else t;
      if !IsDigitGroups(body) then None
      else
        var magnitude: int := GroupsValue(body);
        Some(if t[0] == '-' then -magnitude else magnitude)
  }

  lemma {:induction false} DecValue(n: nat)
    ensures GroupsValue(Dec(n)) == n
  {
    if n >= 10 {
      var r := Dec(n / 10) + [DigitChar(n % 10)];
      assert r[..|r| - 1] == Dec(n / 10);
      DecValue(n / 10);
    } else {
      assert Dec(n)[..0] == [];
    }
  }

  lemma {:induction false} GroupsValueLeadingZero(s: string)
    ensures GroupsValue(['0'] + s) == GroupsValue(s)
  {
    if s == [] {
      assert (['0'] + s)[..0] == [];
    } else {
      assert (['0'] + s)[..|s|] == ['0'] + s[..|s| - 1];
      GroupsValueLeadingZero(s[..|s| - 1]);
    }
  }

  lemma {:induction false} GroupsValueZeros(z: nat, s: string)
    ensures GroupsValue(Zeros(z) + s) == GroupsValue(s)
  {
    if z > 0 {
      var rest := Zeros(z - 1) + s;
      calc {
        GroupsValue(Zeros(z) + s);
        { assert Zeros(z) + s == ['0'] + rest; }
        GroupsValue(['0'] + rest);
        { GroupsValueLeadingZero(rest); }
        GroupsValue(rest);
        { GroupsValueZeros(z - 1, s); }
        GroupsValue(s);
      }
    } else {
      assert Zeros(z) + s == s;
    }
  }

  /** `int()` reads back a decimal numeral, leading zeros included:
      `int("01") == 1`, `int(str(n)) == n`. */
  lemma StripDigits(s: string)
    requires IsDigitStr(s)
    ensures Strip(s) == s
  {
    assert !IsSpace(s[0]) && !IsSpace(s[|s| - 1]);
    assert LStrip(s) == s;
  }

  lemma PyIntOfDigits(s: string)
    requires IsDigitStr(s)
    ensures PyInt(s) == Some(GroupsValue(s))
  {
    StripDigits(s);
    assert IsDigit(s[0]);
    assert IsDigitGroups(s);
  }

  lemma PyIntOfNumeral(z: nat, n: nat)
    ensures PyInt(Numeral(z, n)) == Some(n)
  {
    PyIntOfDigits(Numeral(z, n));
    GroupsValueZeros(z, Dec(n));
    DecValue(n);
  }

  /** A piece of text that has no '-' never reads as a negative number. */
  lemma PyIntNonNegative(s: string)
    requires '-' !in s
    ensures PyInt(s).Some? ==> PyInt(s).value >= 0
  {
    var l := LStrip(s);
    var t := RStrip(l);
    if t != [] {
      LStripIsSuffix(s);
      RStripIsPrefix(l);
      assert t[0] == l[0] == s[|s| - |l|];
    }
  }

  /** `pat` occurs in `s` at position `i`. */
  predicate IsAt(s: string, i: nat, pat: string) {
    i + |pat| <= |s| && s[i..i + |pat|] == pat
  }

  /** The first occurrence of `pat` in `s` at or after `from`. */
  function FindFrom(s: string, pat: string, from: nat): (r: Option<nat>)
    decreases |s| - from
    ensures r.Some? ==> from <= r.value && IsAt(s, r.value, pat)
    ensures r.Some? ==> forall j :: from <= j < r.value ==> !IsAt(s, j, pat)
    ensures r.None? ==> forall j :: from <= j ==> !IsAt(s, j, pat)
  {
    if from + |pat| > |s| then None
    else if IsAt(s, from, pat) then Some(from)
    else FindFrom(s, pat, from + 1)
  }

  /** `s.find(pat)`, as an option. */
  function Find(s: string, pat: string): Option<nat> {
    FindFrom(s, pat, 0)
  }

  /** `s.split(pat)[0]`: the text before the first occurrence, or all of `s`. */
  function Before(s: string, pat: string): string {
    match Find(s, pat)
    case Some(i) => s[..i]
    case None => s
  }

  /** The text after the first occurrence of `pat`, when there is one. */
  function After(s: string, pat: string): Option<string> {
    match Find(s, pat)
    case Some(i) => Some(s[i + |pat|..])
    case None => None
  }

  /** An occurrence with none before it is the one `find` reports. */
  lemma FindFirst(s: string, pat: string, i: nat)
    requires IsAt(s, i, pat)
    requires forall j :: 0 <= j < i ==> !IsAt(s, j, pat)
    ensures Find(s, pat) == Some(i)
  {
  }

  /** The text before the first occurrence of a non-empty pattern holds no
      occurrence of it. */
  lemma BeforeHasNoOccurrence(s: string, pat: string)
    requires pat != []
    ensures forall j :: !IsAt(Before(s, pat), j, pat)
  {
    match Find(s, pat)
    case None =>
    case Some(i) =>
      forall j: nat
        ensures !IsAt(s[..i], j, pat)
      {
        if j + |pat| <= i {
          assert s[..i][j..j + |pat|] == s[j..j + |pat|];
          assert !IsAt(s, j, pat);
        }
      }
  }
}
