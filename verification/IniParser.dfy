/** The ini functions as they run (iniparser.c): loops over line buffers and dictionary slots. Each is
tied to the functions of Ini, about which the round trip is proved. */
module IniParser {
  import opened Wire
  import opened Dataref
  import opened Dictionary
  import opened Ini

  method Strstrip(s: Name) returns (r: Name)
    ensures r == Strip(s)
  {
    var i := 0;
    while i < |s| && IsSpace(s[i])
      invariant i <= |s| && Skip(s, 0) == Skip(s, i)
    {
      i := i + 1;
    }
    var last := |s|;
    while last > i && IsSpace(s[last - 1])
      invariant i <= last <= |s| && Back(s, i, |s|) == Back(s, i, last)
    {
      last := last - 1;
    }
    r := s[i..last];
  }

  method Strlwc(s: Name) returns (l: Name)
    ensures l == Lowered(s)
  {
    l := [];
    var i := 0;
    while i < |s|
      invariant i <= |s| == |Lowered(s)| && l == Lowered(s)[..i]
    {
      l := l + [Lower(s[i])];
      i := i + 1;
    }
  }

  /** The name between the brackets, or again the one in the buffer. */
  method IniparserSection(s: Name, section: Name) returns (name: Name)
    requires |s| > 1
    ensures var e := Until(s, 1, CLOSE, CLOSE); name == Lowered(Strip(if e == 1 then section else s[1..e]))
  {
    var e := Until(s, 1, CLOSE, CLOSE);
    name := Strstrip(if e == 1 then section else s[1..e]);
    name := Strlwc(name);
  }

  method IniparserStripped(s: Name, section: Name) returns (line: Line)
    ensures line == ParseStripped(s, section)
  {
    if |s| < 1 {
      line := Blank;
    } else if s[0] == HASHMARK {
      line := Comment;
    } else if s[0] == OPEN && s[|s| - 1] == CLOSE {
      var name := IniparserSection(s, section);
      line := Section(name);
    } else {
      line := IniparserPair(s);
    }
  }

  /** iniparser_line. */
  method IniparserLine(input: Name, section: Name) returns (line: Line)
    ensures line == ParseLine(input, section)
  {
    var s := Strstrip(input);
    line := IniparserStripped(s, section);
  }

  method IniparserPair(s: Name) returns (line: Line)
    ensures line == ParsePair(s)
  {
    var m := ScanQuoted(s, QUOTE2);
    if m.None? {
      m := ScanQuoted(s, QUOTE1);
    }
    if m.None? {
      m := ScanPlain(s);
    }
    if m.Some? {
      var key := Strstrip(s[..m.value.key]);
      key := Strlwc(key);
      var value := Strstrip(s[m.value.from..m.value.to]);
      if value == [QUOTE2, QUOTE2] || value == [QUOTE1, QUOTE1] {
        value := [];
      }
      line := Pair(key, value);
    } else {
      m := ScanKey(s);
      if m.Some? {
        var key := Strstrip(s[..m.value.key]);
        key := Strlwc(key);
        line := Pair(key, []);
      } else {
        line := Broken;
      }
    }
  }

  // ---------- printing ----------

  /** iniparser_getnsec. */
  method GetNsec(d: Dict) returns (nsec: nat)
    requires d.Valid()
    ensures nsec == |Sections(d.key[..], d.key.Length)|
  {
    nsec := 0;
    var i := 0;
    while i < d.key.Length
      invariant i <= d.key.Length && nsec == |Sections(d.key[..], i)|
    {
      if d.key[i].Some? {
        if COLON !in d.key[i].value {
          nsec := nsec + 1;
        }
      }
      i := i + 1;
    }
  }

  lemma {:induction false} SectionsGrow(keys: seq<Value>, i: nat, j: nat)
    requires i <= j <= |keys|
    ensures Sections(keys, i) <= Sections(keys, j)
  {
    if i < j {
      SectionsGrow(keys, i, j - 1);
    }
  }

  lemma SectionAt(keys: seq<Value>, i: nat)
    requires i < |keys|
    ensures |Sections(keys, i)| <= |Sections(keys, i + 1)| <= |Sections(keys, |keys|)|
    ensures
      if keys[i].Some? && COLON !in keys[i].value then
        var n := |Sections(keys, i)|;
        |Sections(keys, i + 1)| == n + 1 && n < |Sections(keys, |keys|)| && Sections(keys, |keys|)[n] == keys[i].value
      else |Sections(keys, i + 1)| == |Sections(keys, i)|
  {
    SectionsGrow(keys, i, i + 1);
    SectionsGrow(keys, i + 1, |keys|);
  }

  /** iniparser_getsecname for a section that is there. */
  method GetSecname(d: Dict, n: nat) returns (name: Name)
    requires d.Valid() && n < |Sections(d.key[..], d.key.Length)|
    ensures name == Sections(d.key[..], d.key.Length)[n]
  {
    ghost var keys := d.key[..];
    var foundsec, i := 0, 0;
    name := [];
    while i < d.key.Length
      invariant i <= d.key.Length && foundsec == |Sections(keys, i)| <= n
    {
      SectionAt(keys, i);
      assert keys[i] == d.key[i];
      if d.key[i].Some? && COLON !in d.key[i].value {
        foundsec := foundsec + 1;
        if foundsec > n {
          return d.key[i].value;
        }
      }
      i := i + 1;
    }
    assert false;
  }

  /** The line of slot j, if its key starts with the section's name and a colon. */
  method DumpSlot(d: Dict, sec: Name, j: nat) returns (text: Name)
    requires d.Valid() && j < d.key.Length
    ensures text == SlotText(d.key[..], d.val[..], sec, j)
  {
    var keym := sec + [COLON];
    text := [];
    if d.key[j].Some? {
      var k := d.key[j].value;
      if |k| >= |keym| && k[..|keym|] == keym {
        text := PairLine(WIDTH, k[|sec| + 1..], TextOf(d.val[j])) + [NEWLINE];
      }
    }
  }

  lemma ConcatMore(texts: seq<Name>, j: nat)
    requires j < |texts|
    ensures Concat(texts[..j + 1]) == Concat(texts[..j]) + texts[j]
  {
    assert texts[..j + 1][..j] == texts[..j];
  }

  lemma SectionsTextMore(keys: seq<Value>, vals: seq<Value>, secs: seq<Name>, i: nat)
    requires i < |secs| && |keys| == |vals|
    ensures SectionsText(keys, vals, secs[..i + 1]) == SectionsText(keys, vals, secs[..i]) + SectionText(keys, vals, secs[i])
  {
    assert secs[..i + 1][..i] == secs[..i];
  }

  /** One section and its pairs. */
  method DumpSection(d: Dict, sec: Name) returns (text: Name)
    requires d.Valid()
    ensures text == SectionText(d.key[..], d.val[..], sec)
  {
    ghost var texts := SlotTexts(d.key[..], d.val[..], sec);
    var pairs: Name := [];
    var j := 0;
    while j < d.key.Length
      invariant j <= d.key.Length && pairs == Concat(texts[..j])
    {
      var line := DumpSlot(d, sec, j);
      ConcatMore(texts, j);
      pairs := pairs + line;
      j := j + 1;
    }
    assert texts[..j] == texts;
    text := [NEWLINE] + (SectionLine(sec) + [NEWLINE] + pairs);
  }

  /** All keys as they are. */
  method DumpPlain(d: Dict) returns (text: Name)
    requires d.Valid()
    ensures text == Concat(PlainTexts(d.key[..], d.val[..]))
  {
    ghost var texts := PlainTexts(d.key[..], d.val[..]);
    text := [];
    var i := 0;
    while i < d.key.Length
      invariant i <= d.key.Length && text == Concat(texts[..i])
    {
      ConcatMore(texts, i);
      var line: Name := [];
      if d.key[i].Some? {
        line := d.key[i].value + [BLANK, EQUALS, BLANK] + (if d.val[i].Some? then d.val[i].value else NULLTEXT) + [NEWLINE];
      }
      text := text + line;
      i := i + 1;
    }
    assert texts[..i] == texts;
  }

  /** iniparser_dump_ini. */
  method DumpIni(d: Dict) returns (text: Name)
    requires d.Valid()
    ensures text == Dump(d.key[..], d.val[..])
  {
    ghost var secs := Sections(d.key[..], d.key.Length);
    var nsec := GetNsec(d);
    if nsec < 1 {
      text := DumpPlain(d);
      return;
    }
    text := [];
    var i := 0;
    while i < nsec
      invariant i <= nsec == |secs| && text == SectionsText(d.key[..], d.val[..], secs[..i])
    {
      var secname := GetSecname(d, i);
      var section := DumpSection(d, secname);
      SectionsTextMore(d.key[..], d.val[..], secs, i);
      text := text + section;
      i := i + 1;
    }
    assert secs[..i] == secs;
    text := text + [NEWLINE];
  }

  // ---------- loading ----------

  /** What a line does to the dictionary being loaded. */
  method EnterLine(d: Dict, line: Line, section: Name, errs: int) returns (section': Name, errs': int)
    requires d.Valid()
    modifies d, d.key, d.val, d.hash
    ensures d.Valid() && (d.key == old(d.key) || fresh(d.key)) && (d.val == old(d.val) || fresh(d.val))
    ensures d.hash == old(d.hash) || fresh(d.hash)
    ensures Loading(d.Map(), section', [], errs') == Enter(Loading(old(d.Map()), section, [], errs), line)
  {
    section', errs' := section, errs;
    match line
    case Blank =>
    case Comment =>
    case Section(name) =>
      d.Set(name, None);
      section', errs' := name, 0;
    case Pair(k, v) =>
      d.Set(section + [COLON] + k, Some(v));
      errs' := 0;
    case Broken =>
      errs' := errs + 1;
  }

  lemma LoadStep(st: Loading, text: Name, i: nat, r: Loading)
    requires i == Until(text, 0, NEWLINE, NEWLINE) < |text| && r == LoadLine(ParseLine, st, text[..i])
    ensures LoadFrom(ParseLine, st, text) == LoadFrom(ParseLine, r, text[i + 1..])
  {
  }

  /** Blanks at the end of the buffer go. */
  method DropBlanks(s: Name) returns (r: Name)
    ensures r == DropSpace(s)
  {
    var len := |s|;
    while len > 0 && IsSpace(s[len - 1])
      invariant 0 <= len <= |s| && Back(s, 0, |s|) == Back(s, 0, len)
    {
      len := len - 1;
    }
    r := s[..len];
  }

  /** One turn of the loop in iniparser_load, on a line that fits the buffer. */
  method LoadTurn(d: Dict, section: Name, pending: Name, errs: int, line: Name)
    returns (section': Name, pending': Name, errs': int)
    requires d.Valid() && |pending| + |line| + 1 <= ASCIILINESZ - 1
    modifies d, d.key, d.val, d.hash
    ensures d.Valid() && (d.key == old(d.key) || fresh(d.key)) && (d.val == old(d.val) || fresh(d.val))
    ensures d.hash == old(d.hash) || fresh(d.hash)
    ensures Loading(d.Map(), section', pending', errs')
         == LoadLine(ParseLine, Loading(old(d.Map()), section, pending, errs), line)
  {
    var s := DropBlanks(pending + line);
    if Continued(s) {
      section', pending', errs' := section, s[..|s| - 1], errs;
    } else {
      var parsed := IniparserLine(s, section);
      section', errs' := EnterLine(d, parsed, section, errs);
      pending' := [];
    }
  }

  /** iniparser_load on the contents of the file: null where nothing is loaded. */
  method IniparserLoad(text: Name) returns (d: Dict?)
    ensures match Load(text)
      case None => d == null
      case Some(m) => d != null && fresh(d) && d.Valid() && d.Map() == m
  {
    var dict := new Dict(0);
    var section: Name, pending: Name, errs: int, rest := [], [], 0, text;
    while rest != []
      invariant fresh(dict) && fresh(dict.key) && fresh(dict.val) && fresh(dict.hash) && dict.Valid()
      invariant LoadFrom(ParseLine, Loading(dict.Map(), section, pending, errs), rest) == LoadFrom(ParseLine, START, text)
      decreases |rest|
    {
      var i := Until(rest, 0, NEWLINE, NEWLINE);
      if i == |rest| {
        return null;
      }
      ghost var st := Loading(dict.Map(), section, pending, errs);
      if |pending| + i + 1 > ASCIILINESZ - 1 {
        LoadStep(st, rest, i, Stopped);
        StoppedStays(rest[i + 1..]);
        return null;
      }
      section, pending, errs := LoadTurn(dict, section, pending, errs, rest[..i]);
      LoadStep(st, rest, i, Loading(dict.Map(), section, pending, errs));
      rest := rest[i + 1..];
    }
    if errs != 0 {
      return null;
    }
    d := dict;
  }

  lemma {:induction false} StoppedStays(text: Name)
    ensures LoadFrom(ParseLine, Stopped, text) == Stopped
    decreases |text|
  {
    var i := Until(text, 0, NEWLINE, NEWLINE);
    if i < |text| {
      StoppedStays(text[i + 1..]);
    }
  }

  /** Printing a dictionary and loading the result gives an equal one. */
  method DumpAndLoad(d: Dict) returns (e: Dict?)
    requires d.Valid() && Dumpable(d.key[..], d.val[..])
    ensures e != null && fresh(e) && e.Valid() && e.Map() == d.Map()
  {
    var text := DumpIni(d);
    DumpThenLoad(d.key[..], d.val[..]);
    e := IniparserLoad(text);
  }
}
