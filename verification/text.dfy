/** The string operations the system uses (`in`, `split`, `strip`,
    `replace`, `upper`, digit tests), defined on `seq<char>`. */
module Text {
  import opened Wrappers

  predicate IsDigit(c: char)
  {
    '0' <= c <= '9'
  }

  function DigitValue(c: char): (d: int)
    requires IsDigit(c)
    ensures 0 <= d <= 9
  {
    c as int - '0' as int
  }

  function DigitChar(d: int): (c: char)
    requires 0 <= d <= 9
    ensures IsDigit(c)
  {
    ('0' as int + d) as char
  }

  lemma {:induction false} DigitRoundTrip(d: int)
    requires 0 <= d <= 9
    ensures DigitValue(DigitChar(d)) == d
  {
  }

  lemma {:induction false} ValueRoundTrip(c: char)
    requires IsDigit(c)
    ensures DigitChar(DigitValue(c)) == c
  {
  }

  predicate AllDigits(s: string)
  {
    forall i :: 0 <= i < |s| ==> IsDigit(s[i])
  }

  /** The value of a string of decimal digits. */
  function DigitsValue(s: string): (n: nat)
    requires AllDigits(s)
  {
    if s == [] then 0 else 10 * DigitsValue(s[..|s| - 1]) + DigitValue(s[|s| - 1])
  }

  /** `str(n)` for a natural number. */
  function NatToString(n: nat): (s: string)
    ensures |s| > 0 && AllDigits(s)
  {
    if n < 10 then [DigitChar(n)] else NatToString(n / 10) + [DigitChar(n % 10)]
  }

  /** Reading back the decimal text of a number gives the number. */
  lemma {:induction false} NatToStringValue(n: nat)
    ensures DigitsValue(NatToString(n)) == n
  {
    var s := NatToString(n);
    if n >= 10 {
      NatToStringValue(n / 10);
      assert s[..|s| - 1] == NatToString(n / 10);
    }
  }

  /** What `str.isspace` (and the regular-expression class `\s`, and the
      separators of `str.split()` and `str.strip()`) treat as white space. */
  predicate IsSpace(c: char)
  {
    c == ' ' || ('\t' <= c <= '\r') || ('\U{1C}' <= c <= '\U{1F}')
    || c == '\U{85}' || c == '\U{A0}' || c == '\U{1680}' || ('\U{2000}' <= c <= '\U{200A}')
    || c == '\U{2028}' || c == '\U{2029}' || c == '\U{202F}' || c == '\U{205F}' || c == '\U{3000}'
  }

  function UpperChar(c: char): char
  {
    if 'a' <= c <= 'z' then (c as int - 32) as char else c
  }

  /** `str.upper()` on the ASCII letters. */
  function Upper(s: string): (u: string)
    ensures |u| == |s|
    ensures forall i :: 0 <= i < |s| ==> u[i] == UpperChar(s[i])
  {
    if s == [] then [] else [UpperChar(s[0])] + Upper(s[1..])
  }

  /** Upper-casing twice is upper-casing once. */
  lemma {:induction false} UpperIdempotent(s: string)
    ensures Upper(Upper(s)) == Upper(s)
  {
    var u := Upper(s);
    assert forall i :: 0 <= i < |u| ==> UpperChar(u[i]) == u[i];
  }

  /** `sub` occurs in `s` at position `p`. */
  predicate StartsAt(s: string, p: int, sub: string)
  {
    0 <= p && p + |sub| <= |s| && s[p..p + |sub|] == sub
  }

  /** The first position at or after `from` where `sub` occurs. */
  function FindFrom(s: string, sub: string, from: nat): (r: Option<nat>)
    decreases |s| - from
    ensures r.Some? ==> from <= r.value && StartsAt(s, r.value, sub)
    ensures r.Some? ==> forall j :: from <= j < r.value ==> !StartsAt(s, j, sub)
    ensures r.None? ==> forall j :: from <= j ==> !StartsAt(s, j, sub)
  {
    if from + |sub| > |s| then None
    else if s[from..from + |sub|] == sub then Some(from)
    else FindFrom(s, sub, from + 1)
  }

  /** `s.find(sub)` as an option: the first occurrence. */
  function Find(s: string, sub: string): (r: Option<nat>)
    ensures r.Some? ==> StartsAt(s, r.value, sub) && forall j :: 0 <= j < r.value ==> !StartsAt(s, j, sub)
    ensures r.None? ==> forall j :: !StartsAt(s, j, sub)
  {
    FindFrom(s, sub, 0)
  }

  /** `sub in s`. */
  predicate Contains(s: string, sub: string)
  {
    Find(s, sub).Some?
  }

  lemma {:induction false} ContainsAt(s: string, sub: string, p: int)
    requires StartsAt(s, p, sub)
    ensures Contains(s, sub)
  {
  }

  /** A window inside a known prefix reads the same as in the prefix. */
  lemma {:induction false} PrefixWindow(s: string, t: string, a: nat, b: nat)
    requires |t| <= |s| && s[..|t|] == t && a <= b <= |t|
    ensures s[a..b] == t[a..b]
  {
    forall k | 0 <= k < b - a ensures s[a..b][k] == t[a..b][k] {
      assert s[a + k] == s[..|t|][a + k];
    }
  }

  /** `s.split(sep)` for a non-empty separator: the pieces between occurrences. */
  function Split(s: string, sep: string): (parts: seq<string>)
    requires |sep| > 0
    decreases |s|
    ensures |parts| >= 1
    ensures !Contains(s, sep) ==> parts == [s]
  {
    match Find(s, sep)
    case None => [s]
    case Some(i) => [s[..i]] + Split(s[i + |sep|..], sep)
  }

  /** `s.replace(pat, rep)` for a non-empty `pat`: left to right, no overlaps. */
  function Replace(s: string, pat: string, rep: string): (r: string)
    requires |pat| > 0
    decreases |s|
    ensures !Contains(s, pat) ==> r == s
  {
    match Find(s, pat)
    case None => s
    case Some(i) => s[..i] + rep + Replace(s[i + |pat|..], pat, rep)
  }

  /** `s` with every occurrence of the character `c` replaced by `rep`. */
  function ReplaceEach(s: string, c: char, rep: string): string
  {
    if s == [] then [] else (if s[0] == c then rep else [s[0]]) + ReplaceEach(s[1..], c, rep)
  }

  lemma {:induction false} ReplaceEachAppend(a: string, b: string, c: char, rep: string)
    ensures ReplaceEach(a + b, c, rep) == ReplaceEach(a, c, rep) + ReplaceEach(b, c, rep)
  {
    if a == [] {
      assert a + b == b;
    } else {
      var head := if a[0] == c then rep else [a[0]];
      assert (a + b)[0] == a[0] && (a + b)[1..] == a[1..] + b;
      ReplaceEachAppend(a[1..], b, c, rep);
      assert ReplaceEach(a + b, c, rep) == head + (ReplaceEach(a[1..], c, rep) + ReplaceEach(b, c, rep));
    }
  }

  lemma {:induction false} ReplaceEachAbsent(s: string, c: char, rep: string)
    requires c !in s
    ensures ReplaceEach(s, c, rep) == s
  {
    if s != [] {
      ReplaceEachAbsent(s[1..], c, rep);
    }
  }

  /** A one-character pattern found nowhere before `i` means the character
      is not in `s[..i]`. */
  lemma {:induction false} CharAbsentBefore(s: string, c: char, i: nat)
    requires i <= |s|
    requires forall j :: 0 <= j < i ==> !StartsAt(s, j, [c])
    ensures c !in s[..i]
  {
    forall j | 0 <= j < i ensures s[j] != c {
      assert !StartsAt(s, j, [c]);
      assert s[j..j + 1] == [s[j]];
    }
  }

  /** Replacing a one-character pattern replaces each occurrence of that
      character. */
  lemma {:induction false} ReplaceChar(s: string, c: char, rep: string)
    ensures Replace(s, [c], rep) == ReplaceEach(s, c, rep)
    decreases |s|
  {
    var found := Find(s, [c]);
    if found.None? {
      CharAbsentBefore(s, c, |s|);
      assert s[..|s|] == s;
      ReplaceEachAbsent(s, c, rep);
    } else {
      var i := found.value;
      CharAbsentBefore(s, c, i);
      ReplaceAt(s, c, rep, i);
    }
  }

  lemma {:induction false} ReplaceAt(s: string, c: char, rep: string, i: nat)
    requires Find(s, [c]) == Some(i)
    requires c !in s[..i]
    ensures Replace(s, [c], rep) == ReplaceEach(s, c, rep)
    decreases |s|, 0
  {
    var rest := s[i + 1..];
    ReplaceFirst(s, c, rep, i);
    ReplaceChar(rest, c, rep);
    assert s[i..i + 1] == [c];
    assert s == s[..i] + [c] + rest;
    ReplaceEachAround(s[..i], c, rep, rest);
  }

  /** Unfolding `Replace` at its first occurrence. */
  lemma {:induction false} ReplaceFirst(s: string, c: char, rep: string, i: nat)
    requires Find(s, [c]) == Some(i)
    ensures Replace(s, [c], rep) == s[..i] + rep + Replace(s[i + 1..], [c], rep)
  {
  }

  /** Replacing each `c` in text with one `c` after a prefix free of it. */
  lemma {:induction false} ReplaceEachAround(pre: string, c: char, rep: string, rest: string)
    requires c !in pre
    ensures ReplaceEach(pre + [c] + rest, c, rep) == pre + rep + ReplaceEach(rest, c, rep)
  {
    assert pre + [c] + rest == pre + ([c] + rest);
    ReplaceEachAppend(pre, [c] + rest, c, rep);
    ReplaceEachAbsent(pre, c, rep);
    assert ([c] + rest)[0] == c && ([c] + rest)[1..] == rest;
  }

  /** Index of the first character at or after `i` that is not white space. */
  function SkipSpaces(s: string, i: nat): (j: nat)
    requires i <= |s|
    decreases |s| - i
    ensures i <= j <= |s|
    ensures forall k :: i <= k < j ==> IsSpace(s[k])
    ensures j < |s| ==> !IsSpace(s[j])
  {
    if i < |s| && IsSpace(s[i]) then SkipSpaces(s, i + 1) else i
  }

  /** Index of the first white-space character at or after `i`. */
  function SkipWord(s: string, i: nat): (j: nat)
    requires i <= |s|
    decreases |s| - i
    ensures i <= j <= |s|
    ensures forall k :: i <= k < j ==> !IsSpace(s[k])
    ensures j < |s| ==> IsSpace(s[j])
  {
    if i < |s| && !IsSpace(s[i]) then SkipWord(s, i + 1) else i
  }

  /** `s.strip()`. */
  function Strip(s: string): (t: string)
    ensures |t| <= |s|
    ensures t != [] ==> !IsSpace(t[0]) && !IsSpace(t[|t| - 1])
  {
    var i := SkipSpaces(s, 0);
    var j := TrimEnd(s, i, |s|);
    s[i..j]
  }

  /** The end of `s[i..j]` once trailing white space is dropped. */
  function TrimEnd(s: string, i: nat, j: nat): (k: nat)
    requires i <= j <= |s|
    decreases j - i
    ensures i <= k <= j
    ensures k > i ==> !IsSpace(s[k - 1])
    ensures forall n :: k <= n < j ==> IsSpace(s[n])
  {
    if j > i && IsSpace(s[j - 1]) then TrimEnd(s, i, j - 1) else j
  }

  /** Text with no white space at either end is its own strip. */
  lemma {:induction false} StripTrimmed(s: string)
    requires s != [] ==> !IsSpace(s[0]) && !IsSpace(s[|s| - 1])
    ensures Strip(s) == s
  {
  }

  /** The digits of an `int()` literal: at least one digit, with single '_'
      allowed between digits. */
  predicate DigitGroups(s: string)
  {
    && |s| > 0 && IsDigit(s[0]) && IsDigit(s[|s| - 1])
    && (forall i :: 0 <= i < |s| ==> IsDigit(s[i]) || s[i] == '_')
    && (forall i :: 0 <= i < |s| - 1 ==> s[i] == '_' ==> s[i + 1] != '_')
  }

  /** The value of digits with '_' separators, the separators ignored. */
  function GroupedValue(s: string): nat
    requires forall i :: 0 <= i < |s| ==> IsDigit(s[i]) || s[i] == '_'
  {
    if s == [] then 0
    else if s[|s| - 1] == '_' then GroupedValue(s[..|s| - 1])
    else 10 * GroupedValue(s[..|s| - 1]) + DigitValue(s[|s| - 1])
  }

  /** `int(t)` on decimal text: white space around it dropped, an optional
      sign, then digits in groups. */
  function IntValue(t: string): Option<int>
  {
    var u := Strip(t);
    var signed := |u| > 0 && (u[0] == '-' || u[0] == '+');
    var digits := if signed then u[1..] else u;
    if !DigitGroups(digits) then None
    else if signed && u[0] == '-' then Some(0 - GroupedValue(digits))
    else Some(GroupedValue(digits))
  }

  /** Plain digits are read as their value. */
  lemma {:induction false} IntValueDigits(s: string)
    requires |s| > 0 && AllDigits(s)
    ensures IntValue(s) == Some(DigitsValue(s))
  {
    DigitsGrouped(s);
    StripTrimmed(s);
    IntValueUnsigned(s, s);
  }

  /** A minus sign before plain digits negates their value. */
  lemma {:induction false} IntValueNegative(s: string)
    requires |s| > 0 && AllDigits(s)
    ensures IntValue("-" + s) == Some(0 - DigitsValue(s))
  {
    DigitsGrouped(s);
    IntValueNegated(s);
  }

  /** White space around plain digits is ignored. */
  lemma {:induction false} IntValuePadded(s: string)
    requires |s| > 0 && AllDigits(s)
    ensures IntValue(" " + s + " ") == Some(DigitsValue(s))
  {
    DigitsGrouped(s);
    StripPadded(s);
    IntValueUnsigned(" " + s + " ", s);
  }

  /** Plain digits are digit groups of the same value, with no white space at
      either end. */
  lemma {:induction false} DigitsGrouped(s: string)
    requires |s| > 0 && AllDigits(s)
    ensures DigitGroups(s) && GroupedValue(s) == DigitsValue(s)
    ensures !IsSpace(s[0]) && !IsSpace(s[|s| - 1])
  {
    assert IsDigit(s[0]) && IsDigit(s[|s| - 1]);
    GroupedDigits(s);
  }

  /** Text that strips to unsigned digit groups is read as their value. */
  lemma {:induction false} IntValueUnsigned(t: string, s: string)
    requires Strip(t) == s && DigitGroups(s)
    ensures IntValue(t) == Some(GroupedValue(s))
  {
    assert s[0] != '-' && s[0] != '+';
  }

  /** A minus sign before digit groups negates their value. */
  lemma {:induction false} IntValueNegated(s: string)
    requires DigitGroups(s)
    ensures IntValue("-" + s) == Some(0 - GroupedValue(s))
  {
    var n := "-" + s;
    StripTrimmed(n);
    assert n[1..] == s;
  }

  /** One blank on each side of trimmed text is stripped away. */
  lemma {:induction false} StripPadded(s: string)
    requires |s| > 0 && !IsSpace(s[0]) && !IsSpace(s[|s| - 1])
    ensures Strip(" " + s + " ") == s
  {
    var w := " " + s + " ";
    assert SkipSpaces(w, 0) == 1 by {
      assert SkipSpaces(w, 1) == 1;
    }
    assert TrimEnd(w, 1, |w|) == |w| - 1 by {
      assert TrimEnd(w, 1, |w| - 1) == |w| - 1;
    }
    assert w[1..|w| - 1] == s;
  }

  /** Without separators the grouped value is the plain value. */
  lemma {:induction false} GroupedDigits(s: string)
    requires AllDigits(s)
    ensures GroupedValue(s) == DigitsValue(s)
  {
    if s != [] {
      GroupedDigits(s[..|s| - 1]);
    }
  }

  /** `s.split()`: the maximal runs of non-white-space characters. */
  function Words(s: string): (ws: seq<string>)
    decreases |s|
    ensures forall k :: 0 <= k < |ws| ==> |ws[k]| > 0
    ensures forall k, i :: 0 <= k < |ws| && 0 <= i < |ws[k]| ==> !IsSpace(ws[k][i])
  {
    var i := SkipSpaces(s, 0);
    if i == |s| then []
    else
      var j := SkipWord(s, i);
      [s[i..j]] + Words(s[j..])
  }
}
