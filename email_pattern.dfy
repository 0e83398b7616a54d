/** The e-mail pattern shared by the invitation schema and both routes that
    accept an address:

        ^\w+([.-]?\w+)*@\w+([.-]?\w+)*(\.\w{2,3})+$

    `\w+([.-]?\w+)*` is written as the two-state automaton `Dotted`/`AfterWord`,
    `(\.\w{2,3})+` as `TldGroups`; the whole pattern is `EmailMatches`. The
    lemmas give an independent, position-wise description of each part and
    the consequences the rest of the model relies on. */
module EmailPattern {
  import opened Text

  predicate IsSeparator(c: char) { c == '.' || c == '-' }

  /** `\w+([.-]?\w+)*`: a word character, then what may follow one. */
  predicate Dotted(s: string)
    decreases |s|
  {
    |s| > 0 && IsWordChar(s[0]) && AfterWord(s[1..])
  }

  /** What may follow a word character inside `\w+([.-]?\w+)*`: nothing, another
      word character, or one separator that starts a new `\w+` run. */
  predicate AfterWord(s: string)
    decreases |s|
  {
    |s| == 0
    || (IsWordChar(s[0]) && AfterWord(s[1..]))
    || (IsSeparator(s[0]) && Dotted(s[1..]))
  }

  /** Every character of `t` is matched by `\w`. */
  predicate AllWord(t: string) {
    forall i :: 0 <= i < |t| ==> IsWordChar(t[i])
  }

  /** One `\.\w{n}` group at the start of `t`. */
  predicate TldGroup(t: string, n: nat) {
    |t| >= n + 1 && t[0] == '.' && AllWord(t[1..n + 1])
  }

  /** `(\.\w{2,3})+`: one or more groups, each of two or three word characters. */
  predicate TldGroups(t: string)
    decreases |t|
  {
    (TldGroup(t, 2) && (|t| == 3 || TldGroups(t[3..])))
    || (TldGroup(t, 3) && (|t| == 4 || TldGroups(t[4..])))
  }

  /** `\w+([.-]?\w+)*(\.\w{2,3})+`: the part after the `@`. */
  predicate DomainMatches(d: string) {
    exists k :: 0 <= k < |d| && Dotted(d[..k]) && TldGroups(d[k..])
  }

  /** `emailRegex.test(s)`. */
  predicate EmailMatches(s: string) {
    exists i :: 0 <= i < |s| && s[i] == '@' && Dotted(s[..i]) && DomainMatches(s[i + 1..])
  }

  // ---------------------------------------------------------------------
  // A position-wise description of the pattern

  /** Position `i` of `s` holds a word character, or a separator followed by one. */
  ghost predicate OkAt(s: string, i: nat)
    requires i < |s|
  {
    IsWordChar(s[i]) || (IsSeparator(s[i]) && i + 1 < |s| && IsWordChar(s[i + 1]))
  }

  /** Only word characters and separators, and every separator is followed by a word character. */
  ghost predicate TailShape(s: string) {
    forall i: nat :: i < |s| ==> OkAt(s, i)
  }

  /** Non-empty, starts with a word character, no separator at the end and no two in a row. */
  ghost predicate DottedShape(s: string) {
    |s| > 0 && IsWordChar(s[0]) && TailShape(s)
  }

  /** The domain ends in `.` and `n` word characters, after a dotted-word prefix. */
  predicate TldSplit(d: string, n: nat) {
    |d| > n + 1 && d[|d| - n - 1] == '.' && Dotted(d[..|d| - n - 1]) && AllWord(d[|d| - n..])
  }

  lemma OkAtShift(s: string, i: nat)
    requires 0 < i < |s|
    ensures OkAt(s, i) <==> OkAt(s[1..], i - 1)
  {
    assert s[1..][i - 1] == s[i];
    if i + 1 < |s| {
      assert s[1..][i] == s[i + 1];
    }
  }

  lemma TailShapeShift(s: string)
    requires |s| > 0 && OkAt(s, 0)
    ensures TailShape(s) <==> TailShape(s[1..])
  {
    if TailShape(s) {
      forall i: nat | i < |s| - 1 ensures OkAt(s[1..], i) {
        OkAtShift(s, i + 1);
      }
    }
    if TailShape(s[1..]) {
      forall i: nat | i < |s| ensures OkAt(s, i) {
        if i > 0 {
          OkAtShift(s, i);
        }
      }
    }
  }

  lemma {:induction false} AfterWordIff(s: string)
    decreases |s|
    ensures AfterWord(s) <==> TailShape(s)
  {
    if |s| == 0 {
    } else if IsWordChar(s[0]) {
      AfterWordIff(s[1..]);
      TailShapeShift(s);
    } else if IsSeparator(s[0]) && |s| > 1 && IsWordChar(s[1]) {
      AfterWordIff(s[2..]);
      assert OkAt(s[1..], 0);
      TailShapeShift(s[1..]);
      TailShapeShift(s);
      assert s[1..][1..] == s[2..];
    } else {
      assert !OkAt(s, 0);
    }
  }

  /** The automaton for `\w+([.-]?\w+)*` accepts exactly the dotted words. */
  lemma DottedIff(s: string)
    ensures Dotted(s) <==> DottedShape(s)
  {
    if |s| > 0 && IsWordChar(s[0]) {
      AfterWordIff(s[1..]);
      TailShapeShift(s);
    }
  }

  /** A dotted word starts and ends with a word character and holds only word characters and separators. */
  lemma DottedEnds(s: string)
    requires Dotted(s)
    ensures IsWordChar(s[0]) && IsWordChar(s[|s| - 1])
    ensures forall i :: 0 <= i < |s| ==> IsWordChar(s[i]) || IsSeparator(s[i])
  {
    DottedIff(s);
    assert OkAt(s, |s| - 1);
    forall i | 0 <= i < |s| ensures IsWordChar(s[i]) || IsSeparator(s[i]) {
      assert OkAt(s, i);
    }
  }

  /** Appending a `\.\w{2,3}` group to a dotted word gives a dotted word. */
  lemma DottedAppendGroup(p: string, g: string)
    requires Dotted(p) && |g| >= 2 && g[0] == '.' && AllWord(g[1..])
    ensures Dotted(p + g)
  {
    DottedIff(p);
    DottedEnds(p);
    var s := p + g;
    forall i: nat | i < |s| ensures OkAt(s, i) {
      if i < |p| - 1 {
        assert OkAt(p, i);
        assert s[i] == p[i] && s[i + 1] == p[i + 1];
      } else if i == |p| - 1 {
        assert s[i] == p[i];
      } else if i == |p| {
        assert s[i + 1] == g[1..][0];
      } else {
        assert s[i] == g[1..][i - |p| - 1];
      }
    }
    DottedIff(s);
  }

  /** The last group of the domain is its top-level label. */
  lemma LastGroup(p: string, t: string, n: nat)
    requires Dotted(p) && TldGroup(t, n) && |t| == n + 1
    ensures TldSplit(p + t, n)
  {
    var s := p + t;
    assert s[..|s| - n - 1] == p;
    assert s[|s| - n..] == t[1..n + 1];
  }

  lemma {:induction false} GroupsExtend(p: string, t: string)
    requires Dotted(p) && TldGroups(t)
    decreases |t|
    ensures TldSplit(p + t, 2) || TldSplit(p + t, 3)
  {
    var n: nat := if TldGroup(t, 2) && (|t| == 3 || TldGroups(t[3..])) then 2 else 3;
    assert TldGroup(t, n) && (|t| == n + 1 || TldGroups(t[n + 1..]));
    if |t| == n + 1 {
      LastGroup(p, t, n);
    } else {
      var g := t[..n + 1];
      assert g[1..] == t[1..n + 1];
      DottedAppendGroup(p, g);
      GroupsExtend(p + g, t[n + 1..]);
      assert (p + g) + t[n + 1..] == p + t;
    }
  }

  /** `\w+([.-]?\w+)*(\.\w{2,3})+` matches exactly the dotted words that end in
      `.` followed by two or three word characters. */
  lemma DomainIff(d: string)
    ensures DomainMatches(d) <==> TldSplit(d, 2) || TldSplit(d, 3)
  {
    if DomainMatches(d) {
      var k :| 0 <= k < |d| && Dotted(d[..k]) && TldGroups(d[k..]);
      GroupsExtend(d[..k], d[k..]);
      assert d[..k] + d[k..] == d;
    }
    if TldSplit(d, 2) || TldSplit(d, 3) {
      var n := if TldSplit(d, 2) then 2 else 3;
      var k := |d| - n - 1;
      assert d[k..][1..n + 1] == d[|d| - n..];
      assert TldGroup(d[k..], n);
      assert Dotted(d[..k]) && TldGroups(d[k..]);
    }
  }

  // ---------------------------------------------------------------------
  // Consequences for stored addresses

  /** The last two or three characters are word characters after a `.`. */
  predicate EndsWithTld(s: string) {
    (|s| >= 3 && s[|s| - 3] == '.' && AllWord(s[|s| - 2..]))
    || (|s| >= 4 && s[|s| - 4] == '.' && AllWord(s[|s| - 3..]))
  }

  /** A dotted word has no `@` and starts with a word character. */
  lemma DottedNoAt(p: string)
    requires Dotted(p)
    ensures '@' !in p && IsWordChar(p[0])
  {
    DottedEnds(p);
    assert !IsWordChar('@') && !IsSeparator('@');
  }

  /** A matching domain has no `@` and ends in its top-level label. */
  lemma DomainShape(d: string)
    requires DomainMatches(d)
    ensures '@' !in d && EndsWithTld(d)
  {
    DomainIff(d);
    var n := if TldSplit(d, 2) then 2 else 3;
    var k := |d| - n - 1;
    DottedNoAt(d[..k]);
    assert !IsWordChar('@');
    forall j | 0 <= j < |d| ensures d[j] != '@' {
      if j < k {
        assert d[j] == d[..k][j];
      } else if j > k {
        assert d[j] == d[|d| - n..][j - k - 1];
      }
    }
  }

  /** Ending in a top-level label is a property of a suffix. */
  lemma EndsWithTldSuffix(s: string, d: string)
    requires EndsWithTld(d) && |d| <= |s| && s[|s| - |d|..] == d
    ensures EndsWithTld(s)
  {
    var n := if |d| >= 3 && d[|d| - 3] == '.' && AllWord(d[|d| - 2..]) then 2 else 3;
    assert s[|s| - n - 1] == d[|d| - n - 1];
    assert s[|s| - n..] == d[|d| - n..];
  }

  /** The only `@` of a matching address sits between the two dotted parts. */
  lemma AtPosition(s: string, i: nat)
    requires i < |s| && s[i] == '@' && Dotted(s[..i]) && DomainMatches(s[i + 1..])
    ensures '@' !in s[..i] && '@' !in s[i + 1..]
    ensures IsWordChar(s[0]) && EndsWithTld(s)
  {
    DottedNoAt(s[..i]);
    DomainShape(s[i + 1..]);
    EndsWithTldSuffix(s, s[i + 1..]);
    assert s[0] == s[..i][0];
  }

  /** A matching address has exactly one `@`, starts with a word character and
      ends in `.` followed by two or three word characters. */
  lemma EmailShape(s: string)
    requires EmailMatches(s)
    ensures Occurrences(s, '@') == 1
    ensures IsWordChar(s[0]) && EndsWithTld(s)
  {
    var i :| 0 <= i < |s| && s[i] == '@' && Dotted(s[..i]) && DomainMatches(s[i + 1..]);
    AtPosition(s, i);
    assert s == s[..i] + [s[i]] + s[i + 1..];
    OccurrencesAppend(s[..i] + [s[i]], s[i + 1..], '@');
    OccurrencesAppend(s[..i], [s[i]], '@');
    NoOccurrences(s[..i], '@');
    NoOccurrences(s[i + 1..], '@');
    assert Occurrences([s[i]], '@') == 1;
  }

  /** A matching address has no white space at either end, so `trim` keeps it. */
  lemma TrimKeepsEmail(s: string)
    requires EmailMatches(s)
    ensures Trim(s) == s
  {
    EmailShape(s);
    assert IsWordChar(s[|s| - 1]) by {
      if |s| >= 3 && s[|s| - 3] == '.' && AllWord(s[|s| - 2..]) {
        assert s[|s| - 1] == s[|s| - 2..][1];
      } else {
        assert s[|s| - 1] == s[|s| - 3..][2];
      }
    }
    TrimKeeps(s);
  }

  /** Two strings of the same length whose characters fall, position by position,
      into the same classes of the pattern. */
  ghost predicate SameClasses(s: string, t: string) {
    |s| == |t| &&
    forall i :: 0 <= i < |s| ==>
      (IsWordChar(s[i]) <==> IsWordChar(t[i])) && (s[i] == '.' <==> t[i] == '.')
      && (s[i] == '-' <==> t[i] == '-') && (s[i] == '@' <==> t[i] == '@')
  }

  lemma SameClassesSlice(s: string, t: string, a: nat, b: nat)
    requires SameClasses(s, t) && a <= b <= |s|
    ensures SameClasses(s[a..b], t[a..b])
  {
    forall i | 0 <= i < b - a
      ensures (IsWordChar(s[a..b][i]) <==> IsWordChar(t[a..b][i])) && (s[a..b][i] == '.' <==> t[a..b][i] == '.')
        && (s[a..b][i] == '-' <==> t[a..b][i] == '-') && (s[a..b][i] == '@' <==> t[a..b][i] == '@')
    {
      assert s[a..b][i] == s[a + i] && t[a..b][i] == t[a + i];
    }
  }

  lemma SameClassesPrefix(s: string, t: string, i: nat)
    requires SameClasses(s, t) && i <= |s|
    ensures SameClasses(s[..i], t[..i])
  {
    SameClassesSlice(s, t, 0, i);
    assert s[..i] == s[0..i] && t[..i] == t[0..i];
  }

  lemma SameClassesSuffix(s: string, t: string, i: nat)
    requires SameClasses(s, t) && i <= |s|
    ensures SameClasses(s[i..], t[i..])
  {
    SameClassesSlice(s, t, i, |s|);
    assert s[i..] == s[i..|s|] && t[i..] == t[i..|t|];
  }

  lemma DottedSameClasses(s: string, t: string)
    requires SameClasses(s, t) && Dotted(s)
    ensures Dotted(t)
  {
    DottedIff(s);
    forall i: nat | i < |t| ensures OkAt(t, i) {
      assert OkAt(s, i);
    }
    DottedIff(t);
  }

  lemma DomainSameClasses(d: string, e: string)
    requires SameClasses(d, e) && DomainMatches(d)
    ensures DomainMatches(e)
  {
    DomainIff(d);
    var n := if TldSplit(d, 2) then 2 else 3;
    var k := |d| - n - 1;
    SameClassesSlice(d, e, 0, k);
    DottedSameClasses(d[..k], e[..k]);
    assert d[..k] == d[0..k] && e[..k] == e[0..k];
    SameClassesSlice(d, e, |d| - n, |d|);
    var dt, et := d[|d| - n..], e[|e| - n..];
    assert dt == d[|d| - n..|d|] && et == e[|e| - n..|e|];
    forall j | 0 <= j < |et| ensures IsWordChar(et[j]) {
      assert IsWordChar(dt[j]);
    }
    assert TldSplit(e, n);
    DomainIff(e);
  }

  /** The pattern only looks at the class of each character. */
  lemma EmailSameClasses(s: string, t: string)
    requires SameClasses(s, t) && EmailMatches(s)
    ensures EmailMatches(t)
  {
    var i :| 0 <= i < |s| && s[i] == '@' && Dotted(s[..i]) && DomainMatches(s[i + 1..]);
    SameClassesPrefix(s, t, i);
    DottedSameClasses(s[..i], t[..i]);
    SameClassesSuffix(s, t, i + 1);
    DomainSameClasses(s[i + 1..], t[i + 1..]);
    assert t[i] == '@';
  }

  /** Lower-casing a matching address gives a matching, lower-case address
      (what the schema's `lowercase` setter stores still passes its `match`). */
  lemma LowerCaseKeepsMatch(s: string)
    requires EmailMatches(s)
    ensures EmailMatches(ToLower(s)) && IsLowerCase(ToLower(s))
    ensures Trim(ToLower(s)) == ToLower(s)
  {
    var t := ToLower(s);
    forall i | 0 <= i < |s|
      ensures (IsWordChar(s[i]) <==> IsWordChar(t[i])) && (s[i] == '.' <==> t[i] == '.')
        && (s[i] == '-' <==> t[i] == '-') && (s[i] == '@' <==> t[i] == '@')
    {
      assert t[i] == LowerChar(s[i]);
    }
    EmailSameClasses(s, t);
    ToLowerIsLowerCase(s);
    TrimKeepsEmail(t);
  }
}
