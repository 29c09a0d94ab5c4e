/** The employer pattern of a "GENERAL" report line,
    `Empresa/Razón\s+Social:\s*(.+?)\s+CCC:`, with the match `re.search`
    returns: the leftmost place where the pattern matches, at that place the
    most blanks before the name that still allow a match, and then the
    shortest name. */
module EmployerPattern {
  import opened Wrappers
  import opened Text
  import opened Constants

  /** Positions `i..j` of `s` are all white space (`\s`). */
  predicate Blank(s: string, i: int, j: int)
    requires 0 <= i <= j <= |s|
  {
    forall k :: i <= k < j ==> IsSpace(s[k])
  }

  /** No line break among positions `i..j` (what `.` matches). */
  predicate NoBreak(s: string, i: int, j: int)
    requires 0 <= i <= j <= |s|
  {
    forall k :: i <= k < j ==> s[k] != '\n'
  }

  /** Where the pattern matched: "Social:" at `social`, the name (group 1) at
      `start..end`, and "CCC:" at `ccc`. */
  datatype Span = Span(social: nat, start: nat, end: nat, ccc: nat)

  /** The pattern matches from `p` with the parts at `m`: the marker, at
      least one blank, "Social:", any blanks, a name of at least one
      character and no line break, at least one blank, and "CCC:". */
  predicate IsMatch(s: string, p: nat, m: Span)
  {
    && StartsAt(s, p, EmployerMarker)
    && StartsAt(s, m.social, SocialLabel)
    && p + |EmployerMarker| < m.social
    && Blank(s, p + |EmployerMarker|, m.social)
    && StartsAt(s, m.ccc, CccMarker)
    && m.social + |SocialLabel| <= m.start < m.end < m.ccc
    && Blank(s, m.social + |SocialLabel|, m.start)
    && NoBreak(s, m.start, m.end)
    && Blank(s, m.end, m.ccc)
  }

  /** Where "CCC:" starts after at least one blank from `j`: only the end of
      the run of blanks can be that place. */
  function CccAfter(s: string, j: nat): (r: Option<nat>)
    requires j <= |s|
  {
    var e := SkipSpaces(s, j);
    if j < e && StartsAt(s, e, CccMarker) then Some(e) else None
  }

  /** The blanks from `i` reach `j` exactly when `j` is within the run of
      blanks from `i`. */
  lemma {:induction false} BlankUpTo(s: string, i: nat, j: nat)
    requires i <= j <= |s|
    ensures Blank(s, i, j) <==> j <= SkipSpaces(s, i)
  {
  }

  /** A text that starts with a letter does not start with white space. */
  lemma {:induction false} StartsNotBlank(s: string, e: nat, word: string)
    requires StartsAt(s, e, word) && |word| > 0 && !IsSpace(word[0])
    ensures e < |s| && !IsSpace(s[e])
  {
    assert s[e..e + |word|][0] == s[e];
  }

  /** At least one blank from `j` and then "CCC:" at `e`, exactly when
      `CccAfter` finds `e`. */
  lemma {:induction false} CccAfterExact(s: string, j: nat, e: nat)
    requires j < e <= |s|
    ensures (Blank(s, j, e) && StartsAt(s, e, CccMarker)) <==> CccAfter(s, j) == Some(e)
  {
    BlankUpTo(s, j, e);
    if Blank(s, j, e) && StartsAt(s, e, CccMarker) {
      StartsNotBlank(s, e, CccMarker);
    }
  }

  /** The group `(.+?)`, started at `g0`, can end at `k`: it has at least one
      character and no line break, and blanks and "CCC:" follow it. */
  predicate NameEndsAt(s: string, g0: nat, k: nat)
  {
    g0 < k <= |s| && NoBreak(s, g0, k) && CccAfter(s, k).Some?
  }

  /** The first place from `g1` on where the name can end (the lazy `+?`),
      with where "CCC:" then starts. */
  function NameEnd(s: string, g0: nat, g1: nat): Option<(nat, nat)>
    requires g0 < g1 <= |s|
    decreases |s| - g1
  {
    if s[g1 - 1] == '\n' then None
    else
      match CccAfter(s, g1)
      case Some(e) => Some((g1, e))
      case None => if g1 == |s| then None else NameEnd(s, g0, g1 + 1)
  }

  /** `NameEnd` finds the first end from `g1` on, or none when there is none. */
  lemma {:induction false} NameEndChoice(s: string, g0: nat, g1: nat)
    requires g0 < g1 <= |s|
    requires NoBreak(s, g0, g1 - 1)
    decreases |s| - g1
    ensures var r := NameEnd(s, g0, g1);
      && (r.Some? ==> g1 <= r.value.0 && NameEndsAt(s, g0, r.value.0) && CccAfter(s, r.value.0) == Some(r.value.1))
      && (r.Some? ==> forall k :: g1 <= k < r.value.0 ==> !NameEndsAt(s, g0, k))
      && (r.None? ==> forall k :: g1 <= k ==> !NameEndsAt(s, g0, k))
  {
    if s[g1 - 1] == '\n' {
      assert NameEnd(s, g0, g1) == None;
      forall k | g1 <= k ensures !NameEndsAt(s, g0, k) {
        if g0 < k <= |s| {
          assert s[g1 - 1] == '\n';
        }
      }
    } else {
      assert NoBreak(s, g0, g1);
      match CccAfter(s, g1)
      case Some(e) =>
        assert NameEnd(s, g0, g1) == Some((g1, e));
        assert NameEndsAt(s, g0, g1);
      case None =>
        assert !NameEndsAt(s, g0, g1);
        if g1 < |s| {
          NameEndChoice(s, g0, g1 + 1);
          assert NameEnd(s, g0, g1) == NameEnd(s, g0, g1 + 1);
        } else {
          assert NameEnd(s, g0, g1) == None;
        }
    }
  }

  /** The name from the latest start between `low` and `g0` that has an end
      (the greedy `\s*` gives back one blank at a time), with its first end
      and where "CCC:" starts. */
  function NameFrom(s: string, low: nat, g0: nat): Option<(nat, nat, nat)>
    requires low <= g0 <= |s|
    decreases g0 - low
  {
    var here := if g0 < |s| then NameEnd(s, g0, g0 + 1) else None;
    if here.Some? then Some((g0, here.value.0, here.value.1))
    else if g0 == low then None
    else NameFrom(s, low, g0 - 1)
  }

  /** `NameFrom` picks the latest start with an end and, for it, the first
      end; it finds none when no start in range has an end. */
  lemma {:induction false} NameFromChoice(s: string, low: nat, g0: nat)
    requires low <= g0 <= |s|
    decreases g0 - low
    ensures var r := NameFrom(s, low, g0);
      && (r.Some? ==>
            && low <= r.value.0 <= g0
            && NameEndsAt(s, r.value.0, r.value.1) && CccAfter(s, r.value.1) == Some(r.value.2)
            && (forall k :: r.value.0 < k < r.value.1 ==> !NameEndsAt(s, r.value.0, k))
            && (forall st, k :: r.value.0 < st <= g0 ==> !NameEndsAt(s, st, k)))
      && (r.None? ==> forall st, k :: low <= st <= g0 ==> !NameEndsAt(s, st, k))
  {
    var here := if g0 < |s| then NameEnd(s, g0, g0 + 1) else None;
    if here.Some? {
      NameEndChoice(s, g0, g0 + 1);
    } else {
      NoNameAt(s, g0);
      if g0 > low {
        NameFromChoice(s, low, g0 - 1);
        forall st, k | low <= st <= g0 && st == g0 ensures !NameEndsAt(s, st, k) {
        }
      }
    }
  }

  /** A start from which `NameEnd` finds nothing has no end at all. */
  lemma {:induction false} NoNameAt(s: string, g0: nat)
    requires g0 <= |s|
    requires g0 < |s| ==> NameEnd(s, g0, g0 + 1).None?
    ensures forall k :: !NameEndsAt(s, g0, k)
  {
    if g0 < |s| {
      NameEndChoice(s, g0, g0 + 1);
    }
  }

  /** The match the pattern makes from `p`, if any. */
  function MatchAt(s: string, p: nat): Option<Span>
  {
    if !StartsAt(s, p, EmployerMarker) then None
    else
      var a := SkipSpaces(s, p + |EmployerMarker|);
      if a == p + |EmployerMarker| || !StartsAt(s, a, SocialLabel) then None
      else
        var low := a + |SocialLabel|;
        var found := NameFrom(s, low, SkipSpaces(s, low));
        if found.None? then None else Some(Span(a, found.value.0, found.value.1, found.value.2))
  }

  /** A match from `p` in terms of the choices the matcher makes: "Social:"
      where the blanks after the marker end, a name start within the blanks
      after "Social:", and a name end after which "CCC:" follows. */
  lemma {:induction false} MatchParts(s: string, p: nat, m: Span)
    requires StartsAt(s, p, EmployerMarker)
    ensures IsMatch(s, p, m) <==>
      var a := SkipSpaces(s, p + |EmployerMarker|);
      && m.social == a && p + |EmployerMarker| < a && StartsAt(s, a, SocialLabel)
      && a + |SocialLabel| <= m.start <= SkipSpaces(s, a + |SocialLabel|)
      && NameEndsAt(s, m.start, m.end) && CccAfter(s, m.end) == Some(m.ccc)
  {
    var b := p + |EmployerMarker|;
    var a := SkipSpaces(s, b);
    if IsMatch(s, p, m) {
      BlankUpTo(s, b, m.social);
      StartsNotBlank(s, m.social, SocialLabel);
      BlankUpTo(s, m.social + |SocialLabel|, m.start);
      CccAfterExact(s, m.end, m.ccc);
    }
    if m.social == a && b < a && StartsAt(s, a, SocialLabel)
       && a + |SocialLabel| <= m.start <= SkipSpaces(s, a + |SocialLabel|)
       && NameEndsAt(s, m.start, m.end) && CccAfter(s, m.end) == Some(m.ccc)
    {
      BlankUpTo(s, a + |SocialLabel|, m.start);
      CccAfterExact(s, m.end, m.ccc);
    }
  }

  /** What `MatchAt` finds is a match; when it finds none there is none from
      `p`; and among the matches from `p` it has the latest name start and,
      for that start, the earliest name end. */
  lemma {:induction false} MatchAtChoice(s: string, p: nat)
    ensures MatchAt(s, p).Some? ==> IsMatch(s, p, MatchAt(s, p).value)
    ensures MatchAt(s, p).None? ==> forall m :: !IsMatch(s, p, m)
    ensures MatchAt(s, p).Some? ==> forall m :: IsMatch(s, p, m) ==>
      var r := MatchAt(s, p).value;
      m.social == r.social && (m.start < r.start || (m.start == r.start && r.end <= m.end))
  {
    if StartsAt(s, p, EmployerMarker) {
      var a := SkipSpaces(s, p + |EmployerMarker|);
      if a != p + |EmployerMarker| && StartsAt(s, a, SocialLabel) {
        MatchAtNamed(s, p);
      } else {
        assert MatchAt(s, p) == None;
        NoSocialNoMatch(s, p);
      }
    }
  }

  /** `found` is what `MatchAtChoice` says of the match found from `p`. */
  ghost predicate Chosen(s: string, p: nat, found: Option<Span>)
  {
    && (found.Some? ==> IsMatch(s, p, found.value))
    && (found.None? ==> forall m :: !IsMatch(s, p, m))
    && (found.Some? ==> forall m :: IsMatch(s, p, m) ==>
          m.social == found.value.social
          && (m.start < found.value.start || (m.start == found.value.start && found.value.end <= m.end)))
  }

  /** `MatchAtChoice` once the marker and "Social:" are found. */
  lemma {:induction false} MatchAtNamed(s: string, p: nat)
    requires StartsAt(s, p, EmployerMarker)
    requires var a := SkipSpaces(s, p + |EmployerMarker|);
      a != p + |EmployerMarker| && StartsAt(s, a, SocialLabel)
    ensures Chosen(s, p, MatchAt(s, p))
  {
    var a := SkipSpaces(s, p + |EmployerMarker|);
    var low := a + |SocialLabel|;
    var top := SkipSpaces(s, low);
    var found := NameFrom(s, low, top);
    MatchAtName(s, p, a, low, top);
    if found.Some? {
      var r := Span(a, found.value.0, found.value.1, found.value.2);
      assert MatchAt(s, p) == Some(r);
      MatchFound(s, p, a, low, top, r);
      assert Chosen(s, p, Some(r));
    } else {
      assert MatchAt(s, p) == None;
      NoNameNoMatch(s, p, a, low, top);
      assert Chosen(s, p, None);
    }
  }

  /** `MatchAt` once the marker and "Social:" are found: what `NameFrom`
      finds within the blanks after "Social:". */
  lemma {:induction false} MatchAtName(s: string, p: nat, a: nat, low: nat, top: nat)
    requires StartsAt(s, p, EmployerMarker)
    requires a == SkipSpaces(s, p + |EmployerMarker|) && a != p + |EmployerMarker| && StartsAt(s, a, SocialLabel)
    requires low == a + |SocialLabel| && top == SkipSpaces(s, low)
    ensures NameFrom(s, low, top).None? ==> MatchAt(s, p) == None
    ensures NameFrom(s, low, top).Some? ==>
      var f := NameFrom(s, low, top).value;
      MatchAt(s, p) == Some(Span(a, f.0, f.1, f.2))
  {
  }

  /** No "Social:" right after the blanks that follow the marker: no match. */
  lemma {:induction false} NoSocialNoMatch(s: string, p: nat)
    requires StartsAt(s, p, EmployerMarker)
    requires var a := SkipSpaces(s, p + |EmployerMarker|);
      a == p + |EmployerMarker| || !StartsAt(s, a, SocialLabel)
    ensures forall m :: !IsMatch(s, p, m)
  {
    forall m ensures !IsMatch(s, p, m) {
      MatchParts(s, p, m);
    }
  }

  /** No name start within the blanks after "Social:" has an end: no match. */
  lemma {:induction false} NoNameNoMatch(s: string, p: nat, a: nat, low: nat, top: nat)
    requires StartsAt(s, p, EmployerMarker)
    requires a == SkipSpaces(s, p + |EmployerMarker|) && a != p + |EmployerMarker| && StartsAt(s, a, SocialLabel)
    requires low == a + |SocialLabel| && top == SkipSpaces(s, low)
    requires NameFrom(s, low, top).None?
    ensures forall m :: !IsMatch(s, p, m)
  {
    NameFromChoice(s, low, top);
    forall m ensures !IsMatch(s, p, m) {
      MatchParts(s, p, m);
    }
  }

  lemma {:induction false} MatchFound(s: string, p: nat, a: nat, low: nat, top: nat, r: Span)
    requires StartsAt(s, p, EmployerMarker)
    requires a == SkipSpaces(s, p + |EmployerMarker|) && a != p + |EmployerMarker| && StartsAt(s, a, SocialLabel)
    requires low == a + |SocialLabel| && top == SkipSpaces(s, low) && r.social == a
    requires NameFrom(s, low, top) == Some((r.start, r.end, r.ccc))
    ensures IsMatch(s, p, r)
    ensures forall m :: IsMatch(s, p, m) ==>
      m.social == r.social && (m.start < r.start || (m.start == r.start && r.end <= m.end))
  {
    NameFromChoice(s, low, top);
    MatchParts(s, p, r);
    forall m | IsMatch(s, p, m)
      ensures m.social == r.social && (m.start < r.start || (m.start == r.start && r.end <= m.end))
    {
      MatchParts(s, p, m);
    }
  }

  /** The first place from `p` up to `n` where `f` finds something. */
  function FirstHit<T>(f: nat -> Option<T>, p: nat, n: nat): Option<(nat, T)>
    requires p <= n
    decreases n - p
  {
    match f(p)
    case Some(m) => Some((p, m))
    case None => if p == n then None else FirstHit(f, p + 1, n)
  }

  /** `FirstHit` finds the first place where `f` finds something, or none
      when `f` finds nothing anywhere in range. */
  lemma {:induction false} FirstHitChoice<T>(f: nat -> Option<T>, p: nat, n: nat)
    requires p <= n
    decreases n - p
    ensures FirstHit(f, p, n).Some? ==>
      var (q, m) := FirstHit(f, p, n).value;
      p <= q <= n && f(q) == Some(m) && forall q' :: p <= q' < q ==> f(q').None?
    ensures FirstHit(f, p, n).None? ==> forall q :: p <= q <= n ==> f(q).None?
  {
    if f(p).None? && p < n {
      FirstHitChoice(f, p + 1, n);
    }
  }

  /** `re.search`: the match at the leftmost place where the pattern matches. */
  function Search(s: string): Option<(nat, Span)>
  {
    FirstHit((p: nat) => MatchAt(s, p), 0, |s|)
  }

  /** The match `re.search` returns: a match, with none at any earlier
      place, and at its place the latest name start and then the earliest
      name end; when it returns none, the pattern matches nowhere. */
  lemma {:induction false} SearchChoice(s: string)
    ensures Search(s).Some? ==>
      var (p, r) := Search(s).value;
      && IsMatch(s, p, r)
      && r.start < r.end <= |s|
      && (forall q: nat, m :: q < p ==> !IsMatch(s, q, m))
      && (forall m :: IsMatch(s, p, m) ==>
            m.social == r.social && (m.start < r.start || (m.start == r.start && r.end <= m.end)))
    ensures Search(s).None? ==> forall q: nat, m :: !IsMatch(s, q, m)
  {
    var f := (p: nat) => MatchAt(s, p);
    FirstHitChoice(f, 0, |s|);
    match Search(s)
    case Some((p, r)) =>
      assert f(p) == Some(r);
      MatchAtChoice(s, p);
      forall q: nat, m | q < p ensures !IsMatch(s, q, m) {
        assert f(q).None?;
        MatchAtChoice(s, q);
      }
    case None =>
      forall q: nat, m ensures !IsMatch(s, q, m) {
        if q <= |s| {
          assert f(q).None?;
          MatchAtChoice(s, q);
        }
      }
  }

  /** A line as reports write it: some text, the marker, one blank,
      "Social:", one blank, the name, one blank, "CCC:" and the rest. */
  function CanonicalLine(pre: string, name: string, post: string): string
  {
    pre + EmployerMarker + " " + SocialLabel + " " + name + " " + CccMarker + post
  }

  lemma {:induction false} CanonicalParts(pre: string, name: string, post: string)
    ensures var line := CanonicalLine(pre, name, post);
      var p0 := |pre|;
      var start := p0 + |EmployerMarker| + |SocialLabel| + 2;
      var end := start + |name|;
      && |line| == end + 1 + |CccMarker| + |post|
      && StartsAt(line, p0, EmployerMarker)
      && line[p0 + |EmployerMarker|] == ' '
      && StartsAt(line, p0 + |EmployerMarker| + 1, SocialLabel)
      && line[start - 1] == ' '
      && line[start..end] == name
      && line[end] == ' '
      && StartsAt(line, end + 1, CccMarker)
  {
    var line := CanonicalLine(pre, name, post);
    var p0 := |pre|;
    var start := p0 + |EmployerMarker| + |SocialLabel| + 2;
    var end := start + |name|;
    assert line == pre + EmployerMarker + " " + SocialLabel + " " + name + " " + CccMarker + post;
    assert line[p0..p0 + |EmployerMarker|] == EmployerMarker;
    assert line[p0 + |EmployerMarker| + 1..start - 1] == SocialLabel;
    assert line[end + 1..end + 1 + |CccMarker|] == CccMarker;
  }

  /** In a canonical line the pattern's group cannot end inside the name:
      the blanks after such an end reach no "CCC:" when the name holds none
      and ends with a non-blank. */
  lemma {:induction false} NoEndInsideName(line: string, start: nat, name: string, k: nat)
    requires start + |name| < |line| && line[start..start + |name|] == name && line[start + |name|] == ' '
    requires name != [] && !IsSpace(name[|name| - 1]) && !Contains(name, CccMarker)
    requires start < k < start + |name|
    ensures CccAfter(line, k).None?
  {
    var end := start + |name|;
    var e := SkipSpaces(line, k);
    if k < e && StartsAt(line, e, CccMarker) {
      NameCharAt(line, start, name, end - 1);
      assert e <= end - 1;
      if e + 4 <= end {
        forall u | 0 <= u < 4 ensures name[e - start..e - start + 4][u] == CccMarker[u] {
          NameCharAt(line, start, name, e + u);
          assert line[e..e + 4][u] == line[e + u];
        }
        assert name[e - start..e - start + 4] == CccMarker;
        ContainsAt(name, CccMarker, e - start);
      }
    }
  }

  lemma {:induction false} NameCharAt(line: string, start: nat, name: string, u: nat)
    requires start + |name| <= |line| && line[start..start + |name|] == name
    requires start <= u < start + |name|
    ensures line[u] == name[u - start]
  {
    assert line[start..start + |name|][u - start] == line[u];
  }

  /** A canonical line matches at its marker, with the name as the group. */
  lemma {:induction false} CanonicalMatches(pre: string, name: string, post: string)
    requires name != [] && !IsSpace(name[0]) && '\n' !in name
    ensures var start := |pre| + |EmployerMarker| + |SocialLabel| + 2;
      var end := start + |name|;
      IsMatch(CanonicalLine(pre, name, post), |pre|, Span(|pre| + |EmployerMarker| + 1, start, end, end + 1))
  {
    var line := CanonicalLine(pre, name, post);
    CanonicalParts(pre, name, post);
    var start := |pre| + |EmployerMarker| + |SocialLabel| + 2;
    var end := start + |name|;
    assert NoBreak(line, start, end) by {
      forall k | start <= k < end ensures line[k] != '\n' {
        assert line[k] == name[k - start];
      }
    }
  }

  /** In a canonical line whose first marker is the one before the name,
      `re.search` finds the marker there and its group is exactly the name,
      when the name has no line break, starts and ends with a non-blank and
      holds no "CCC:". */
  lemma {:induction false} SearchCanonical(pre: string, name: string, post: string)
    requires forall q :: 0 <= q < |pre| ==> !StartsAt(CanonicalLine(pre, name, post), q, EmployerMarker)
    requires name != [] && !IsSpace(name[0]) && !IsSpace(name[|name| - 1])
    requires '\n' !in name && !Contains(name, CccMarker)
    ensures Search(CanonicalLine(pre, name, post)).Some?
    ensures var (p, r) := Search(CanonicalLine(pre, name, post)).value;
      var line := CanonicalLine(pre, name, post);
      p == |pre| && r.start <= r.end <= |line| && line[r.start..r.end] == name
  {
    var line := CanonicalLine(pre, name, post);
    var p0 := |pre|;
    var low := p0 + |EmployerMarker| + 1 + |SocialLabel|;
    var start := low + 1;
    var end := start + |name|;
    var m0 := Span(p0 + |EmployerMarker| + 1, start, end, end + 1);
    CanonicalMatches(pre, name, post);
    SearchChoice(line);
    var (p, r) := Search(line).value;
    assert p == p0;
    CanonicalParts(pre, name, post);
    CanonicalGroup(line, low, name, r);
  }

  /** One blank and then a non-blank: the run of blanks is that one. */
  lemma {:induction false} SkipOneBlank(s: string, i: nat)
    requires i + 1 < |s| && IsSpace(s[i]) && !IsSpace(s[i + 1])
    ensures SkipSpaces(s, i) == i + 1
  {
  }

  lemma {:induction false} CanonicalGroup(line: string, low: nat, name: string, r: Span)
    requires name != [] && !IsSpace(name[|name| - 1]) && !Contains(name, CccMarker)
    requires low + 1 + |name| < |line| && IsSpace(line[low]) && line[low + 1..low + 1 + |name|] == name
    requires !IsSpace(name[0]) && line[low + 1 + |name|] == ' '
    requires r.social + |SocialLabel| == low <= r.start < r.end < r.ccc <= |line|
    requires Blank(line, low, r.start) && Blank(line, r.end, r.ccc) && StartsAt(line, r.ccc, CccMarker)
    requires low + 1 < r.start || (low + 1 == r.start && r.end <= low + 1 + |name|)
    ensures line[r.start..r.end] == name
  {
    var start := low + 1;
    var end := start + |name|;
    GroupStart(line, low, name, r.start);
    if r.end < end {
      CccAfterExact(line, r.end, r.ccc);
      NoEndInsideName(line, start, name, r.end);
    }
  }

  /** Blanks from `low` reach at most to the name that follows one blank. */
  lemma {:induction false} GroupStart(line: string, low: nat, name: string, st: nat)
    requires name != [] && !IsSpace(name[0])
    requires low + 1 + |name| <= |line| && IsSpace(line[low]) && line[low + 1..low + 1 + |name|] == name
    requires low <= st <= |line| && Blank(line, low, st)
    ensures st <= low + 1
  {
    NameCharAt(line, low + 1, name, low + 1);
    SkipOneBlank(line, low);
    BlankUpTo(line, low, st);
  }
}
