/** What reading an ini file does beside undoing its printing (iniparser.c): case, comments, lines that go on in
the next one, and lines that are too long. */
module IniRules {
  import opened Wire
  import opened Dataref
  import opened Dictionary
  import opened Ini

  // ---------- case ----------

  /** Each capital becomes its small letter, and nothing else changes. */
  lemma LowerIsByLetter(b: byte, i: nat)
    requires i < 26
    ensures Lower('A' as int + i) == 'a' as int + i
    ensures !('A' as int <= b <= 'Z' as int) ==> Lower(b) == b
  {
  }

  /** The same but for the case of letters. */
  predicate SameLetters(a: Name, b: Name) { Lowered(a) == Lowered(b) }

  lemma SameSpaces(a: Name, b: Name, i: nat)
    requires SameLetters(a, b) && i < |a|
    ensures |a| == |b| && IsSpace(a[i]) == IsSpace(b[i]) && (a[i] == EQUALS <==> b[i] == EQUALS)
    ensures (a[i] == HASHMARK <==> b[i] == HASHMARK) && (a[i] == OPEN <==> b[i] == OPEN)
  {
    assert Lowered(a)[i] == Lowered(b)[i];
  }

  lemma {:induction false} SkipSame(a: Name, b: Name, i: nat)
    requires SameLetters(a, b) && i <= |a|
    ensures |a| == |b| && Skip(a, i) == Skip(b, i)
    decreases |a| - i
  {
    assert |Lowered(a)| == |Lowered(b)|;
    if i < |a| {
      SameSpaces(a, b, i);
      SkipSame(a, b, i + 1);
    }
  }

  lemma {:induction false} BackSame(a: Name, b: Name, i: nat, j: nat)
    requires SameLetters(a, b) && i <= j <= |a| == |b|
    ensures Back(a, i, j) == Back(b, i, j)
  {
    if j > i {
      SameSpaces(a, b, j - 1);
      BackSame(a, b, i, j - 1);
    }
  }

  lemma SliceSame(a: Name, b: Name, i: nat, j: nat)
    requires SameLetters(a, b) && i <= j <= |a| == |b|
    ensures SameLetters(a[i..j], b[i..j])
  {
    assert Lowered(a[i..j]) == Lowered(a)[i..j];
    assert Lowered(b[i..j]) == Lowered(b)[i..j];
  }

  lemma StripSame(a: Name, b: Name)
    requires SameLetters(a, b)
    ensures SameLetters(Strip(a), Strip(b))
  {
    SkipSame(a, b, 0);
    BackSame(a, b, Skip(a, 0), |a|);
    SliceSame(a, b, Skip(a, 0), Back(a, Skip(a, 0), |a|));
  }

  /** The key ends at the equals sign, and the value starts behind it. */
  lemma KeyEnds(a: Name, rest: Name)
    requires a != [] && EQUALS !in a && rest != [] && rest[0] == EQUALS
    ensures ScanKey(a + rest) == Some(Span(|a|, |a| + Skip(rest, 1), |a| + |rest|))
  {
    var s := a + rest;
    assert forall k :: 0 <= k < |a| ==> s[k] == a[k] && a[k] in a;
    assert s[|a|] == EQUALS;
    SkipBehind(a, rest, 1);
  }

  lemma {:induction false} SkipBehind(a: Name, rest: Name, i: nat)
    requires i <= |rest|
    ensures Skip(a + rest, |a| + i) == |a| + Skip(rest, i)
    decreases |rest| - i
  {
    if i < |rest| {
      assert (a + rest)[|a| + i] == rest[i];
      SkipBehind(a, rest, i + 1);
    }
  }

  lemma {:induction false} UntilBehind(a: Name, rest: Name, i: nat, x: byte, y: byte)
    requires i <= |rest|
    ensures Until(a + rest, |a| + i, x, y) == |a| + Until(rest, i, x, y)
    decreases |rest| - i
  {
    if i < |rest| {
      assert (a + rest)[|a| + i] == rest[i];
      UntilBehind(a, rest, i + 1, x, y);
    }
  }

  /** A key of this length before the equals sign. */
  predicate IsKey(a: Name, n: nat) { |a| == n > 0 && EQUALS !in a }

  /** Behind the equals sign nothing depends on the key but its length. */
  lemma QuotedSame(a: Name, b: Name, n: nat, rest: Name, q: byte)
    requires IsKey(a, n) && IsKey(b, n) && rest != [] && rest[0] == EQUALS
    ensures ScanQuoted(a + rest, q) == ScanQuoted(b + rest, q)
    ensures ScanQuoted(a + rest, q).Some? ==> var m := ScanQuoted(a + rest, q).value; m.key == n <= m.from
  {
    var i := Skip(rest, 1);
    KeyEnds(a, rest);
    KeyEnds(b, rest);
    if i < |rest| {
      assert (a + rest)[n + i] == rest[i] == (b + rest)[n + i];
      UntilBehind(a, rest, i + 1, q, q);
      UntilBehind(b, rest, i + 1, q, q);
    }
  }

  lemma PlainSame(a: Name, b: Name, n: nat, rest: Name)
    requires IsKey(a, n) && IsKey(b, n) && rest != [] && rest[0] == EQUALS
    ensures ScanPlain(a + rest) == ScanPlain(b + rest)
    ensures ScanPlain(a + rest).Some? ==> var m := ScanPlain(a + rest).value; m.key == n <= m.from
  {
    KeyEnds(a, rest);
    KeyEnds(b, rest);
    UntilBehind(a, rest, Skip(rest, 1), SEMICOLON, HASHMARK);
    UntilBehind(b, rest, Skip(rest, 1), SEMICOLON, HASHMARK);
  }

  lemma MatchedSame(a: Name, b: Name, n: nat, rest: Name)
    requires IsKey(a, n) && IsKey(b, n) && rest != [] && rest[0] == EQUALS
    ensures Matched(a + rest) == Matched(b + rest)
    ensures Matched(a + rest).Some? ==> var m := Matched(a + rest).value; m.key == n <= m.from
  {
    QuotedSame(a, b, n, rest, QUOTE2);
    QuotedSame(a, b, n, rest, QUOTE1);
    PlainSame(a, b, n, rest);
  }

  lemma KeySame(a: Name, b: Name)
    requires IsKey(a, |a|) && SameLetters(a, b)
    ensures IsKey(b, |a|)
  {
    SkipSame(a, b, 0);
    forall k | 0 <= k < |b|
      ensures b[k] != EQUALS
    {
      SameSpaces(a, b, k);
      assert a[k] in a;
    }
  }

  lemma ValueSame(a: Name, b: Name, n: nat, rest: Name, from: nat, to: nat)
    requires |a| == |b| == n <= from <= to <= n + |rest|
    ensures (a + rest)[from..to] == (b + rest)[from..to]
  {
    assert (a + rest)[from..to] == rest[from - n..to - n];
    assert (b + rest)[from..to] == rest[from - n..to - n];
  }

  lemma PairCase(a: Name, b: Name, rest: Name)
    requires IsKey(a, |a|) && SameLetters(a, b) && rest != [] && rest[0] == EQUALS
    ensures ParsePair(a + rest) == ParsePair(b + rest)
  {
    KeySame(a, b);
    MatchedSame(a, b, |a|, rest);
    KeyEnds(a, rest);
    KeyEnds(b, rest);
    StripSame(a, b);
    assert (a + rest)[..|a|] == a && (b + rest)[..|b|] == b;
    var m := Matched(a + rest);
    if m.Some? { ValueSame(a, b, |a|, rest, m.value.from, m.value.to); }
  }

  lemma {:induction false} BackBehind(a: Name, rest: Name, j: nat)
    requires j <= |rest| && Back(rest, 0, j) > 0
    ensures Back(a + rest, 0, |a| + j) == |a| + Back(rest, 0, j)
  {
    assert (a + rest)[|a| + j - 1] == rest[j - 1];
    if IsSpace(rest[j - 1]) { BackBehind(a, rest, j - 1); }
  }

  lemma HeadStays(s: Name)
    requires s != [] && !IsSpace(s[0])
    ensures Skip(s, 0) == 0 && Back(s, 0, |s|) > 0 && Strip(s) == s[..Back(s, 0, |s|)]
  {
  }

  lemma PrefixOf(a: Name, rest: Name, e: nat)
    requires e <= |rest|
    ensures (a + rest)[..|a| + e] == a + rest[..e]
  {
  }

  lemma StripKeepsHead(a: Name, rest: Name)
    requires a != [] && !IsSpace(a[0]) && rest != [] && !IsSpace(rest[0])
    ensures var e := Back(rest, 0, |rest|); e > 0 && Strip(a + rest) == a + rest[..e]
  {
    HeadStays(rest);
    BackBehind(a, rest, |rest|);
    HeadStays(a + rest);
    PrefixOf(a, rest, Back(rest, 0, |rest|));
  }

  /** The case of the letters in a key does not matter. */
  lemma CaseIsIgnored(a: Name, b: Name, rest: Name, section: Name)
    requires IsKey(a, |a|) && !IsSpace(a[0]) && a[0] != HASHMARK && a[0] != OPEN
    requires SameLetters(a, b) && rest != [] && rest[0] == EQUALS
    ensures ParseLine(a + rest, section) == ParseLine(b + rest, section)
  {
    SkipSame(a, b, 0);
    SameSpaces(a, b, 0);
    StripKeepsHead(a, rest);
    StripKeepsHead(b, rest);
    var tail := rest[..Back(rest, 0, |rest|)];
    assert tail[0] == EQUALS;
    PairCase(a, b, tail);
  }

  // ---------- lines ----------

  lemma BackslashEnds(a: Name)
    ensures DropSpace(a + [BACKSLASH]) == a + [BACKSLASH] && Continued(a + [BACKSLASH])
  {
    var s := a + [BACKSLASH];
    assert s[|s| - 1] == BACKSLASH;
    assert s[..|s|] == s;
  }

  /** The first line of two: what precedes the backslash waits for the next one. */
  lemma FirstPart(parse: Parser, st: Loading, a: Name)
    requires Between(st) && |a| + 2 <= ASCIILINESZ - 1
    ensures LoadLine(parse, st, a + [BACKSLASH]) == st.(pending := a)
  {
    BackslashEnds(a);
    assert st.pending + (a + [BACKSLASH]) == a + [BACKSLASH];
    assert (a + [BACKSLASH])[..|a|] == a;
  }

  lemma SecondPart(parse: Parser, st: Loading, a: Name, b: Name)
    requires Between(st)
    ensures LoadLine(parse, st.(pending := a), b) == LoadLine(parse, st, a + b)
  {
    assert st.pending + (a + b) == a + b;
  }

  /** A backslash at the end of a line joins it with the next one. */
  lemma LinesAreJoined(st: Loading, a: Name, b: Name, rest: Name)
    requires Between(st) && NEWLINE !in a && NEWLINE !in b && |a| + 2 <= 1023
    ensures LoadFrom(ParseLine, st, (a + [BACKSLASH]) + [NEWLINE] + (b + [NEWLINE] + rest))
         == LoadFrom(ParseLine, st, (a + b) + [NEWLINE] + rest)
  {
    FirstPart(ParseLine, st, a);
    SecondPart(ParseLine, st, a, b);
    OneLine(ParseLine, st, a + [BACKSLASH], b + [NEWLINE] + rest);
    OneLine(ParseLine, st.(pending := a), b, rest);
    OneLine(ParseLine, st, a + b, rest);
  }

  lemma StripOfDropped(line: Name)
    ensures Strip(DropSpace(line)) == Strip(line)
  {
    var e := Back(line, 0, |line|);
    var s := line[..e];
    if e == 0 {
      assert Skip(line, 0) == |line| by { AllSpace(line, 0); }
    } else {
      SkipPrefix(line, e, 0);
      assert Back(s, Skip(s, 0), e) == e;
      BackTo(line, Skip(line, 0), |line|, e);
    }
  }

  lemma {:induction false} AllSpace(s: Name, i: nat)
    requires i <= |s| && forall k :: i <= k < |s| ==> IsSpace(s[k])
    ensures Skip(s, i) == |s|
    decreases |s| - i
  {
    if i < |s| { AllSpace(s, i + 1); }
  }

  lemma {:induction false} SkipPrefix(s: Name, e: nat, i: nat)
    requires i < e <= |s| && !IsSpace(s[e - 1])
    ensures Skip(s[..e], i) == Skip(s, i) < e
    decreases e - i
  {
    if IsSpace(s[i]) { SkipPrefix(s, e, i + 1); }
  }

  lemma {:induction false} BackTo(s: Name, i: nat, j: nat, e: nat)
    requires i < e <= j <= |s| && !IsSpace(s[e - 1]) && forall k :: e <= k < j ==> IsSpace(s[k])
    ensures Back(s, i, j) == e
    decreases j
  {
    if j > e { BackTo(s, i, j - 1, e); }
  }

  /** A line of blanks, and one that begins with a hash mark behind its blanks, change nothing. */
  lemma CommentsAreIgnored(st: Loading, line: Name)
    requires Between(st) && |line| + 1 <= 1023 && !Continued(DropSpace(line))
    requires Strip(line) == [] || Strip(line)[0] == '#' as int
    ensures LoadLine(ParseLine, st, line) == st
  {
    assert st.pending + line == line;
    StripOfDropped(line);
  }

  /** A line longer than the buffer fails the whole file, and so does a last line without its newline. */
  lemma LongLineFails(st: Loading, line: Name, rest: Name)
    requires NEWLINE !in line
    ensures |line| > 1022 ==> LoadFrom(ParseLine, st, line + [NEWLINE] + rest) == LoadFrom(ParseLine, Stopped, rest)
    ensures line != [] ==> LoadFrom(ParseLine, st, line) == Stopped
  {
    OneLine(ParseLine, st, line, rest);
    assert forall k :: 0 <= k < |line| ==> line[k] in line;
  }

  lemma {:induction false} StoppedStays(text: Name)
    ensures LoadFrom(ParseLine, Stopped, text) == Stopped
    decreases |text|
  {
    var i := Until(text, 0, NEWLINE, NEWLINE);
    if text != [] && i < |text| { StoppedStays(text[i + 1..]); }
  }

  lemma LongLineLoadsNothing(line: Name, rest: Name)
    requires NEWLINE !in line && |line| > 1022
    ensures Load(line + [NEWLINE] + rest) == None
  {
    LongLineFails(START, line, rest);
    StoppedStays(rest);
  }

  /** A line that is complete does what its format says. */
  predicate Complete(st: Loading, line: Name) {
    st.Loading? && st.pending == [] && |line| + 1 <= 1023 && !Continued(DropSpace(line))
  }

  lemma LineEnters(st: Loading, line: Name)
    requires Complete(st, line)
    ensures LoadLine(ParseLine, st, line) == Enter(st, ParseLine(line, st.section))
  {
    assert st.pending + line == line && st.(pending := []) == st;
    StripOfDropped(line);
  }

  lemma EnterEffects(st: Loading, l: Line, r: Loading)
    requires st.Loading? && r == Enter(st, l)
    ensures r.Loading? && r.errs == (if l.Broken? then st.errs + 1 else if l.Pair? || l.Section? then 0 else st.errs)
    ensures l.Broken? ==> r.dict == st.dict
    ensures l.Section? ==> r.section == l.name && r.dict == st.dict[l.name := None]
    ensures l.Pair? ==> r.section == st.section && r.dict == st.dict[st.section + [':' as int] + l.key := Some(l.value)]
  {
  }

  /** Of the lines that make no sense only those behind the last entry count. Entries are kept under their section
      and key, the later one of two. */
  lemma EntriesAreKept(st: Loading, line: Name)
    requires Complete(st, line)
    ensures var r, l := LoadLine(ParseLine, st, line), ParseLine(line, st.section);
      && r.Loading? && r.errs == (if l.Broken? then st.errs + 1 else if l.Pair? || l.Section? then 0 else st.errs)
      && (l.Broken? ==> r.dict == st.dict)
      && (l.Section? ==> r.section == l.name && r.dict == st.dict[l.name := None])
      && (l.Pair? ==> r.section == st.section && r.dict == st.dict[st.section + [':' as int] + l.key := Some(l.value)])
  {
    LineEnters(st, line);
    EnterEffects(st, ParseLine(line, st.section), LoadLine(ParseLine, st, line));
  }
}
