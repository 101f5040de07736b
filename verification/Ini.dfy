/** Printing a dictionary as an ini file and reading it back (iniparser.c). */
module Ini {
  import opened Wire
  import opened Dataref
  import opened Dictionary

  const ASCIILINESZ := 1024
  const NEWLINE: byte := '\n' as int
  const BLANK: byte := ' ' as int
  const QUOTE2: byte := '\"' as int
  const HASHMARK: byte := '#' as int
  const QUOTE1: byte := '\'' as int
  const COLON: byte := ':' as int
  const SEMICOLON: byte := ';' as int
  const EQUALS: byte := '=' as int
  const OPEN: byte := '[' as int
  const BACKSLASH: byte := '\\' as int
  const CLOSE: byte := ']' as int

  // ---------- character functions ----------

  predicate IsSpace(b: byte) { 9 <= b <= 13 || b == 32 }

  function Lower(b: byte): byte { if 65 <= b <= 90 then b + 32 else b }

  /** strlwc. */
  function Lowered(s: Name): (r: Name)
    ensures |r| == |s|
  {
    seq(|s|, i requires 0 <= i < |s| => Lower(s[i]))
  }

  /** The first position from i on that holds no space. */
  function Skip(s: Name, i: nat): (j: nat)
    requires i <= |s|
    ensures i <= j <= |s| && (j < |s| ==> !IsSpace(s[j])) && forall k :: i <= k < j ==> IsSpace(s[k])
    decreases |s| - i
  {
    if i < |s| && IsSpace(s[i]) then Skip(s, i + 1) else i
  }

  /** The end of s[i..j] without its trailing spaces. */
  function Back(s: Name, i: nat, j: nat): (e: nat)
    requires i <= j <= |s|
    ensures i <= e <= j && (e > i ==> !IsSpace(s[e - 1])) && forall k :: e <= k < j ==> IsSpace(s[k])
  {
    if j > i && IsSpace(s[j - 1]) then Back(s, i, j - 1) else j
  }

  function DropSpace(s: Name): (r: Name)
    ensures |r| <= |s|
  {
    s[..Back(s, 0, |s|)]
  }

  /** strstrip. */
  function Strip(s: Name): (r: Name)
    ensures |r| <= |s|
  {
    var i := Skip(s, 0);
    s[i..Back(s, i, |s|)]
  }

  predicate Trimmed(s: Name) {
    s == [] || (!IsSpace(s[0]) && !IsSpace(s[|s| - 1]))
  }

  lemma TrimmedStays(s: Name)
    requires Trimmed(s)
    ensures Strip(s) == s && DropSpace(s) == s
  {
  }

  lemma StripIsTrimmed(s: Name)
    ensures Trimmed(Strip(s))
  {
  }

  // ---------- sscanf ----------

  /** The first position from i on that holds one of two bytes. */
  function Until(s: Name, i: nat, a: byte, b: byte): (j: nat)
    requires i <= |s|
    ensures i <= j <= |s| && forall k :: i <= k < j ==> s[k] != a && s[k] != b
    ensures j < |s| ==> s[j] == a || s[j] == b
    decreases |s| - i
  {
    if i == |s| || s[i] == a || s[i] == b then i else Until(s, i + 1, a, b)
  }

  /** A match: the key is s[..key], the value s[from..to]. */
  datatype Span = Span(key: nat, from: nat, to: nat)

  predicate Within(s: Name, o: Option<Span>) {
    o.Some? ==> o.value.key <= |s| && o.value.from <= o.value.to <= |s|
  }

  /** "%[^=] =" with the blanks behind: where the key ends and where the value starts. */
  function ScanKey(s: Name): (o: Option<Span>)
    ensures Within(s, o)
  {
    var i := Until(s, 0, EQUALS, EQUALS);
    if 0 < i < |s| then Some(Span(i, Skip(s, i + 1), |s|)) else None
  }

  /** A quote q, then everything up to the next one. */
  function ScanQuoted(s: Name, q: byte): (o: Option<Span>)
    ensures Within(s, o)
  {
    match ScanKey(s)
    case None => None
    case Some(m) =>
      if m.from == |s| || s[m.from] != q then None
      else
        var e := Until(s, m.from + 1, q, q);
        if e == m.from + 1 then None else Some(Span(m.key, m.from + 1, e))
  }

  /** Everything up to a comment. */
  function ScanPlain(s: Name): (o: Option<Span>)
    ensures Within(s, o)
  {
    match ScanKey(s)
    case None => None
    case Some(m) =>
      var e := Until(s, m.from, SEMICOLON, HASHMARK);
      if e == m.from then None else Some(Span(m.key, m.from, e))
  }

  // ---------- one line ----------

  datatype Line = Blank | Comment | Section(name: Name) | Pair(key: Name, value: Name) | Broken

  function FirstSome(a: Option<Span>, b: Option<Span>): Option<Span> {
    if a.Some? then a else b
  }

  function Unquoted(v: Name): (r: Name)
    ensures |r| <= |v|
  {
    if v == [QUOTE2, QUOTE2] || v == [QUOTE1, QUOTE1] then [] else v
  }

  /** The match the pair formats find, if any. */
  function Matched(s: Name): (o: Option<Span>)
    ensures Within(s, o)
  {
    FirstSome(ScanQuoted(s, QUOTE2), FirstSome(ScanQuoted(s, QUOTE1), ScanPlain(s)))
  }

  /** The formats of a pair, tried one after the other. The last two both come down to a key and an
      equals sign. */
  function ParsePair(s: Name): Line {
    match Matched(s)
    case Some(m) => Pair(Lowered(Strip(s[..m.key])), Unquoted(Strip(s[m.from..m.to])))
    case None =>
      match ScanKey(s)
      case Some(m) => Pair(Lowered(Strip(s[..m.key])), [])
      case None => Broken
  }

  /** iniparser_line behind its strstrip; section is what the buffer for section names holds already. */
  function ParseStripped(s: Name, section: Name): Line {
    if s == [] then Blank
    else if s[0] == HASHMARK then Comment
    else if s[0] == OPEN && s[|s| - 1] == CLOSE then
      var e := Until(s, 1, CLOSE, CLOSE);
      Section(Lowered(Strip(if e == 1 then section else s[1..e])))
    else ParsePair(s)
  }

  function ParseLine(input: Name, section: Name): Line { ParseStripped(Strip(input), section) }

  // ---------- what the printer writes ----------

  function Blanks(n: nat): (r: Name)
    ensures |r| == n && forall i :: 0 <= i < n ==> r[i] == BLANK
  {
    seq(n, _ => BLANK)
  }

  /** The field the printer pads the key to, with the blank before the equals sign. */
  function Field(w: nat, k: Name): (f: Name)
    ensures |f| > |k| && f[..|k|] == k && forall i :: |k| <= i < |f| ==> f[i] == BLANK
  {
    k + Blanks(if |k| < w then w + 1 - |k| else 1)
  }

  /** "%-ws = %s", for w = 30 below a section, and for no width where there are no sections. */
  function PairLine(w: nat, k: Name, v: Name): Name {
    Field(w, k) + ([EQUALS, BLANK] + v)
  }

  const WIDTH := 30

  function SectionLine(name: Name): Name { [OPEN] + name + [CLOSE] }

  // ---------- text the parser leaves alone ----------

  /** Text that survives being trimmed and lowered. */
  predicate Plain(s: Name) {
    s != [] && Trimmed(s) && Lowered(s) == s && 0 !in s && NEWLINE !in s
  }

  predicate SafeSection(name: Name) {
    Plain(name) && CLOSE !in name && COLON !in name
  }

  predicate SafeKey(k: Name) {
    Plain(k) && EQUALS !in k && k[0] != HASHMARK && k[0] != OPEN
  }

  /** Quotes that the parser would take off, or take for an empty value. */
  predicate Misquoted(v: Name, q: byte) {
    |v| >= 2 && v[0] == q && (v[1] != q || |v| == 2)
  }

  predicate SafeValue(v: Name) {
    && Trimmed(v) && SEMICOLON !in v && HASHMARK !in v
    && !Misquoted(v, QUOTE2) && !Misquoted(v, QUOTE1)
  }

  // ---------- a printed line is read back ----------

  lemma CloseFound(name: Name)
    requires CLOSE !in name
    ensures var s := SectionLine(name); Until(s, 1, CLOSE, CLOSE) == |name| + 1 && s[1..|name| + 1] == name
  {
    var s := SectionLine(name);
    assert forall k :: 1 <= k <= |name| ==> s[k] == name[k - 1] && name[k - 1] in name;
    assert s[|name| + 1] == CLOSE;
  }

  lemma SectionIsReadBack(name: Name, section: Name)
    requires SafeSection(name)
    ensures Strip(SectionLine(name)) == SectionLine(name)
    ensures ParseStripped(SectionLine(name), section) == Section(name)
  {
    var s := SectionLine(name);
    TrimmedStays(s);
    TrimmedStays(name);
    CloseFound(name);
  }

  /** The printed line, trailing blanks gone. */
  function Printed(w: nat, k: Name, v: Name): Name {
    Field(w, k) + if v == [] then [EQUALS] else [EQUALS, BLANK] + v
  }

  lemma PairDropped(w: nat, k: Name, v: Name)
    requires SafeKey(k) && Trimmed(v)
    ensures DropSpace(PairLine(w, k, v)) == Printed(w, k, v) && Strip(PairLine(w, k, v)) == Printed(w, k, v)
    ensures Trimmed(Printed(w, k, v))
    ensures var s := Printed(w, k, v); s != [] && s[0] == k[0] && s[|s| - 1] == if v == [] then EQUALS else v[|v| - 1]
  {
    var s, n := PairLine(w, k, v), |Field(w, k)|;
    assert s[0] == k[0] && s[n] == EQUALS;
    if v == [] {
      assert Back(s, 0, |s|) == n + 1;
    } else {
      assert s[|s| - 1] == v[|v| - 1];
    }
  }

  lemma KeyScanned(w: nat, k: Name, v: Name)
    requires SafeKey(k) && Trimmed(v)
    ensures var s := Printed(w, k, v);
      ScanKey(s) == Some(Span(|Field(w, k)|, |s| - |v|, |s|)) && s[|s| - |v|..] == v && s[..|Field(w, k)|] == Field(w, k)
  {
    var s, f := Printed(w, k, v), Field(w, k);
    FieldHasNoEquals(w, k);
    assert forall j :: 0 <= j < |f| ==> s[j] == f[j];
    assert s[|f|] == EQUALS;
    if v != [] {
      assert s[|f| + 1] == BLANK && s[|f| + 2] == v[0];
    }
  }

  lemma FieldHasNoEquals(w: nat, k: Name)
    requires EQUALS !in k
    ensures forall j :: 0 <= j < |Field(w, k)| ==> Field(w, k)[j] != EQUALS
  {
    var f := Field(w, k);
    forall j | 0 <= j < |f|
      ensures f[j] != EQUALS
    {
      assert j < |k| ==> f[j] == f[..|k|][j] == k[j];
    }
  }

  lemma FieldStripped(w: nat, k: Name)
    requires SafeKey(k)
    ensures Lowered(Strip(Field(w, k))) == k
  {
    var f := Field(w, k);
    assert f[0] == f[..|k|][0] && f[|k| - 1] == f[..|k|][|k| - 1];
    assert Skip(f, 0) == 0 && Back(f, 0, |f|) == |k|;
  }

  /** What the pair formats make of the value v of a printed line. */
  function Reread(v: Name): (r: Option<Name>)
    ensures r.Some? ==> |r.value| <= |v|
  {
    if |v| >= 2 && (v[0] == QUOTE2 || v[0] == QUOTE1) && v[1] != v[0] then Some(v[1..Until(v, 1, v[0], v[0])])
    else if Until(v, 0, SEMICOLON, HASHMARK) > 0 then Some(v[..Until(v, 0, SEMICOLON, HASHMARK)])
    else None
  }

  /** What is read back for a value. */
  function Result(v: Name): Name {
    if Reread(v).Some? then Unquoted(Strip(Reread(v).value)) else []
  }

  /** Looking for a byte behind a prefix. */
  lemma UntilBehind(s: Name, v: Name, i: nat, a: byte, b: byte)
    requires |v| <= |s| && s[|s| - |v|..] == v && i <= |v|
    ensures Until(s, |s| - |v| + i, a, b) == |s| - |v| + Until(v, i, a, b)
  {
    var n := |s| - |v|;
    assert forall k :: 0 <= k < |v| ==> s[n + k] == s[n..][k] == v[k];
  }

  lemma QuotedBehind(s: Name, m: Span, v: Name, q: byte)
    requires ScanKey(s) == Some(m) && m.to == |s| && m.from == |s| - |v| && s[m.from..] == v
    ensures ScanQuoted(s, q) ==
      if |v| >= 2 && v[0] == q && v[1] != q then Some(Span(m.key, m.from + 1, m.from + Until(v, 1, q, q))) else None
  {
    if v != [] {
      assert s[m.from] == v[0];
      UntilBehind(s, v, 1, q, q);
    }
  }

  lemma PlainBehind(s: Name, m: Span, v: Name)
    requires ScanKey(s) == Some(m) && m.to == |s| && m.from == |s| - |v| && s[m.from..] == v
    ensures ScanPlain(s) ==
      var e := Until(v, 0, SEMICOLON, HASHMARK); if e > 0 then Some(Span(m.key, m.from, m.from + e)) else None
  {
    UntilBehind(s, v, 0, SEMICOLON, HASHMARK);
  }

  lemma SliceBehind(s: Name, v: Name, i: nat, j: nat)
    requires |v| <= |s| && s[|s| - |v|..] == v && i <= j <= |v|
    ensures s[|s| - |v| + i..|s| - |v| + j] == v[i..j]
  {
    var n := |s| - |v|;
    assert forall k :: 0 <= k < |v| ==> s[n + k] == s[n..][k] == v[k];
    var x, y := s[n + i..n + j], v[i..j];
    assert forall k :: 0 <= k < j - i ==> x[k] == s[n + (i + k)] && y[k] == v[i + k];
    assert x == y;
  }

  lemma MatchedBehind(s: Name, m: Span, v: Name)
    requires ScanKey(s) == Some(m) && m.to == |s| && m.from == |s| - |v| && s[m.from..] == v
    ensures Matched(s).Some? <==> Reread(v).Some?
    ensures Matched(s).Some? ==>
      var n := Matched(s).value; n.key == m.key && s[n.from..n.to] == Reread(v).value
  {
    QuotedBehind(s, m, v, QUOTE2);
    QuotedBehind(s, m, v, QUOTE1);
    PlainBehind(s, m, v);
    if |v| >= 2 && (v[0] == QUOTE2 || v[0] == QUOTE1) && v[1] != v[0] {
      SliceBehind(s, v, 1, Until(v, 1, v[0], v[0]));
    } else {
      SliceBehind(s, v, 0, Until(v, 0, SEMICOLON, HASHMARK));
    }
  }

  lemma PairScanned(s: Name, m: Span, v: Name)
    requires ScanKey(s) == Some(m) && m.to == |s| && m.from == |s| - |v| && s[m.from..] == v
    ensures ParsePair(s) == Pair(Lowered(Strip(s[..m.key])), Result(v))
  {
    MatchedBehind(s, m, v);
  }

  lemma PrintedPairParsed(w: nat, k: Name, v: Name)
    requires SafeKey(k) && Trimmed(v)
    ensures ParsePair(Printed(w, k, v)) == Pair(Lowered(Strip(Field(w, k))), Result(v))
  {
    var s := Printed(w, k, v);
    KeyScanned(w, k, v);
    PairScanned(s, Span(|Field(w, k)|, |s| - |v|, |s|), v);
  }

  lemma PairParsed(w: nat, k: Name, v: Name, section: Name)
    requires SafeKey(k) && Trimmed(v)
    ensures ParseStripped(Printed(w, k, v), section) == Pair(k, Result(v))
  {
    PairDropped(w, k, v);
    FieldStripped(w, k);
    PrintedPairParsed(w, k, v);
  }

  lemma ParsedIsTrimmed(s: Name)
    ensures ParsePair(s).Pair? ==> Trimmed(ParsePair(s).value)
  {
    if Matched(s).Some? {
      StripIsTrimmed(s[Matched(s).value.from..Matched(s).value.to]);
    }
  }

  lemma SafeIsWhole(v: Name)
    requires SafeValue(v)
    ensures Result(v) == v
  {
    assert Until(v, 0, SEMICOLON, HASHMARK) == |v|;
    assert v[..|v|] == v;
    TrimmedStays(v);
  }

  lemma TwoQuotes(v: Name)
    requires v == [QUOTE2, QUOTE2] || v == [QUOTE1, QUOTE1]
    ensures Result(v) == []
  {
    assert Until(v, 0, SEMICOLON, HASHMARK) == 2;
    assert v[..2] == v;
    TrimmedStays(v);
  }

  /** A whole value can only be unsafe by being a pair of quotes. */
  lemma WholeAndUnsafe(v: Name)
    requires Trimmed(v) && !SafeValue(v) && Reread(v).Some? && |Reread(v).value| == |v|
    ensures v == [QUOTE2, QUOTE2] || v == [QUOTE1, QUOTE1]
  {
    assert Until(v, 0, SEMICOLON, HASHMARK) == |v|;
  }

  lemma UnsafeIsNotWhole(v: Name)
    requires Trimmed(v) && !SafeValue(v)
    ensures Result(v) != v
  {
    if Reread(v).Some? && |Reread(v).value| == |v| {
      WholeAndUnsafe(v);
      TwoQuotes(v);
    }
  }

  lemma UntrimmedIsDropped(s: Name, k: Name, v: Name, section: Name)
    requires !Trimmed(v)
    ensures ParseStripped(s, section) != Pair(k, v)
  {
    ParsedIsTrimmed(s);
  }

  /** A printed pair is read back exactly when its value is safe. */
  lemma PairIsReadBackIffSafe(w: nat, k: Name, v: Name, section: Name)
    requires SafeKey(k)
    ensures ParseLine(PairLine(w, k, v), section) == Pair(k, v) <==> SafeValue(v)
  {
    if Trimmed(v) {
      PairDropped(w, k, v);
      PairParsed(w, k, v, section);
      if SafeValue(v) {
        SafeIsWhole(v);
      } else {
        UnsafeIsNotWhole(v);
      }
    } else {
      UntrimmedIsDropped(Strip(PairLine(w, k, v)), k, v, section);
    }
  }

  // ---------- a whole file ----------

  /** dict is what has been loaded, section and pending what the buffers hold, errs the last error count. */
  datatype Loading = Loading(dict: map<Name, Value>, section: Name, pending: Name, errs: int) | Stopped

  /** What a line does to the dictionary. An entry sets the error count back. */
  function Enter(st: Loading, line: Line): Loading
    requires st.Loading?
  {
    match line
    case Blank => st
    case Comment => st
    case Section(name) => st.(dict := st.dict[name := None], section := name, errs := 0)
    case Pair(k, v) => st.(dict := st.dict[st.section + [COLON] + k := Some(v)], errs := 0)
    case Broken => st.(errs := st.errs + 1)
  }

  /** What the loader needs of the line parser. */
  type Parser = (Name, Name) -> Line

  predicate Continued(s: Name) { s != [] && s[|s| - 1] == BACKSLASH }

  /** One turn of the loop in iniparser_load on a line without its newline. */
  function LoadLine(parse: Parser, st: Loading, line: Name): Loading {
    if st.Stopped? || |st.pending| + |line| + 1 > ASCIILINESZ - 1 then Stopped
    else
      var s := DropSpace(st.pending + line);
      if Continued(s) then st.(pending := s[..|s| - 1])
      else Enter(st.(pending := []), parse(s, st.section))
  }

  /** The loop over a text; a line that the file ends before it is done stops it. */
  function LoadFrom(parse: Parser, st: Loading, text: Name): Loading
    decreases |text|
  {
    var i := Until(text, 0, NEWLINE, NEWLINE);
    if text == [] then st
    else if i == |text| then Stopped
    else LoadFrom(parse, LoadLine(parse, st, text[..i]), text[i + 1..])
  }

  const START := Loading(map[], [], [], 0)

  /** iniparser_load: nothing, after an error in the last entry or a line too long. */
  function Load(text: Name): Option<map<Name, Value>> {
    var st := LoadFrom(ParseLine, START, text);
    if st.Stopped? || st.errs != 0 then None else Some(st.dict)
  }

  predicate IsSection(k: Name) { COLON !in k }

  predicate InSection(k: Name, sec: Name) {
    |k| > |sec| && k[..|sec| + 1] == sec + [COLON]
  }

  function TextOf(v: Value): Name {
    if v.Some? then v.value else []
  }

  /** What the printer writes for slot i under a section. */
  function SlotText(keys: seq<Value>, vals: seq<Value>, sec: Name, i: nat): Name
    requires i < |keys| == |vals|
  {
    match keys[i]
    case Some(k) => if InSection(k, sec) then PairLine(WIDTH, k[|sec| + 1..], TextOf(vals[i])) + [NEWLINE] else []
    case None => []
  }

  function Concat(texts: seq<Name>): Name {
    if texts == [] then [] else Concat(texts[..|texts| - 1]) + texts[|texts| - 1]
  }

  function SlotTexts(keys: seq<Value>, vals: seq<Value>, sec: Name): (r: seq<Name>)
    requires |keys| == |vals|
    ensures |r| == |keys|
  {
    seq(|keys|, i requires 0 <= i < |keys| == |vals| => SlotText(keys, vals, sec, i))
  }

  /** The sections among the first n slots, in order. */
  function Sections(keys: seq<Value>, n: nat): seq<Name>
    requires n <= |keys|
  {
    if n == 0 then []
    else Sections(keys, n - 1) + match keys[n - 1] case Some(k) => (if IsSection(k) then [k] else []) case None => []
  }

  function SectionText(keys: seq<Value>, vals: seq<Value>, sec: Name): Name
    requires |keys| == |vals|
  {
    [NEWLINE] + (SectionLine(sec) + [NEWLINE] + Concat(SlotTexts(keys, vals, sec)))
  }

  function SectionsText(keys: seq<Value>, vals: seq<Value>, secs: seq<Name>): Name
    requires |keys| == |vals|
  {
    if secs == [] then [] else SectionsText(keys, vals, secs[..|secs| - 1]) + SectionText(keys, vals, secs[|secs| - 1])
  }

  /** What printf makes of a missing string. */
  const NULLTEXT: Name := [40, 110, 117, 108, 108, 41]

  /** A line of a dictionary without any section. */
  function PlainText(keys: seq<Value>, vals: seq<Value>, i: nat): Name
    requires i < |keys| == |vals|
  {
    match keys[i]
    case Some(k) => k + [BLANK, EQUALS, BLANK] + (if vals[i].Some? then vals[i].value else NULLTEXT) + [NEWLINE]
    case None => []
  }

  function PlainTexts(keys: seq<Value>, vals: seq<Value>): (r: seq<Name>)
    requires |keys| == |vals|
    ensures |r| == |keys|
  {
    seq(|keys|, i requires 0 <= i < |keys| == |vals| => PlainText(keys, vals, i))
  }

  /** iniparser_dump_ini. */
  function Dump(keys: seq<Value>, vals: seq<Value>): Name
    requires |keys| == |vals|
  {
    var secs := Sections(keys, |keys|);
    if secs == [] then Concat(PlainTexts(keys, vals)) else SectionsText(keys, vals, secs) + [NEWLINE]
  }

  // ---------- loading what was printed ----------

  /** The parser reads back what is printed. */
  ghost predicate Rereads(parse: Parser) {
    && (forall section: Name :: parse([], section) == Blank)
    && (forall name: Name, section: Name :: SafeSection(name) ==> parse(SectionLine(name), section) == Section(name))
    && (forall w: nat, k: Name, v: Name, section: Name :: SafeKey(k) && SafeValue(v) ==> parse(Printed(w, k, v), section) == Pair(k, v))
  }

  lemma ParseLineRereads()
    ensures Rereads(ParseLine)
  {
    forall name: Name, section: Name | SafeSection(name)
      ensures ParseLine(SectionLine(name), section) == Section(name)
    {
      SectionIsReadBack(name, section);
    }
    forall w: nat, k: Name, v: Name, section: Name | SafeKey(k) && SafeValue(v)
      ensures ParseLine(Printed(w, k, v), section) == Pair(k, v)
    {
      PairDropped(w, k, v);
      TrimmedStays(Printed(w, k, v));
      PairParsed(w, k, v, section);
      SafeIsWhole(v);
    }
  }

  lemma OneLine(parse: Parser, st: Loading, line: Name, rest: Name)
    requires NEWLINE !in line
    ensures LoadFrom(parse, st, line + [NEWLINE] + rest) == LoadFrom(parse, LoadLine(parse, st, line), rest)
  {
    var text := line + [NEWLINE] + rest;
    assert forall k :: 0 <= k < |line| ==> text[k] == line[k];
    assert text[|line|] == NEWLINE;
    assert text[..|line|] == line && text[|line| + 1..] == rest;
  }

  /** After a complete line. */
  predicate Between(st: Loading) { st.Loading? && st.pending == [] && st.errs == 0 }

  predicate Fits(line: Name) { |line| + 1 <= ASCIILINESZ - 1 }

  lemma LoadBlank(parse: Parser, st: Loading)
    requires Between(st) && Rereads(parse)
    ensures LoadLine(parse, st, []) == st
  {
    assert st.pending + [] == [];
  }

  lemma LoadEnters(parse: Parser, st: Loading, line: Name, s: Name)
    requires Between(st) && Fits(line) && DropSpace(line) == s && !Continued(s)
    ensures LoadLine(parse, st, line) == Enter(st, parse(s, st.section))
  {
    assert st.pending + line == line;
  }

  lemma LoadSection(parse: Parser, st: Loading, name: Name)
    requires Between(st) && Rereads(parse) && SafeSection(name) && Fits(SectionLine(name))
    ensures LoadLine(parse, st, SectionLine(name)) == st.(dict := st.dict[name := None], section := name)
  {
    var s := SectionLine(name);
    TrimmedStays(s);
    LoadEnters(parse, st, s, s);
  }

  /** A value whose line does not ask for another one. */
  predicate Printable(v: Name) {
    SafeValue(v) && NEWLINE !in v && 0 !in v && !Continued(v)
  }

  lemma LoadPair(parse: Parser, st: Loading, w: nat, k: Name, v: Name)
    requires Between(st) && Rereads(parse) && SafeKey(k) && Printable(v) && Fits(PairLine(w, k, v))
    ensures LoadLine(parse, st, PairLine(w, k, v)) == st.(dict := st.dict[st.section + [COLON] + k := Some(v)])
  {
    PairDropped(w, k, v);
    LoadEnters(parse, st, PairLine(w, k, v), Printed(w, k, v));
  }

  // ---------- the round trip ----------

  /** A key as the ini files have them: its section is there, and its line can be read back. */
  predicate DumpablePair(keys: seq<Value>, k: Name, v: Value) {
    var c := Until(k, 0, COLON, COLON);
    && c < |k| && Has(keys, k[..c])
    && v.Some? && SafeKey(k[c + 1..]) && Printable(v.value) && Fits(PairLine(WIDTH, k[c + 1..], v.value))
  }

  predicate DumpableSlot(keys: seq<Value>, k: Name, v: Value) {
    if IsSection(k) then v.None? && SafeSection(k) && Fits(SectionLine(k)) else DumpablePair(keys, k, v)
  }

  predicate Dumpable(keys: seq<Value>, vals: seq<Value>) {
    && |keys| == |vals| && Unique(keys)
    && forall j :: 0 <= j < |keys| && keys[j].Some? ==> DumpableSlot(keys, keys[j].value, vals[j])
  }

  lemma SplitKey(keys: seq<Value>, k: Name, v: Value, sec: Name)
    requires DumpablePair(keys, k, v) && COLON !in sec
    ensures InSection(k, sec) <==> sec == k[..Until(k, 0, COLON, COLON)]
    ensures InSection(k, sec) ==> Until(k, 0, COLON, COLON) == |sec| && k == sec + [COLON] + k[|sec| + 1..]
  {
    var c := Until(k, 0, COLON, COLON);
    assert k[..c + 1] == k[..c] + [COLON];
    if InSection(k, sec) {
      var p := k[..|sec| + 1];
      assert k[|sec|] == p[|sec|] == COLON;
      assert forall j :: 0 <= j < |sec| ==> k[j] == p[j] == sec[j];
      assert forall j :: 0 <= j < |sec| ==> sec[j] in sec;
      assert k[..c] == sec;
    }
  }

  /** The dictionary m after slot i, if it is a pair of the section. */
  function SlotInto(m: map<Name, Value>, keys: seq<Value>, vals: seq<Value>, sec: Name, i: nat): map<Name, Value>
    requires i < |keys| == |vals|
  {
    if keys[i].Some? && InSection(keys[i].value, sec) then m[keys[i].value := Some(TextOf(vals[i]))] else m
  }

  function PairsInto(m: map<Name, Value>, keys: seq<Value>, vals: seq<Value>, sec: Name, n: nat): map<Name, Value>
    requires n <= |keys| == |vals|
  {
    if n == 0 then m else SlotInto(PairsInto(m, keys, vals, sec, n - 1), keys, vals, sec, n - 1)
  }

  /** What the round trip needs of the loop over a text: it takes printed lines one by one. */
  type Loader = (Loading, Name) -> Loading

  ghost predicate LoadsPrinted(load: Loader) {
    && (forall st: Loading, rest: Name :: Between(st) ==> load(st, [NEWLINE] + rest) == load(st, rest))
    && (forall st: Loading, name: Name, rest: Name :: Between(st) && SafeSection(name) && Fits(SectionLine(name)) ==>
          load(st, SectionLine(name) + [NEWLINE] + rest) == load(st.(dict := st.dict[name := None], section := name), rest))
    && (forall st: Loading, w: nat, k: Name, v: Name, rest: Name :: Between(st) && SafeKey(k) && Printable(v) && Fits(PairLine(w, k, v)) ==>
          load(st, PairLine(w, k, v) + [NEWLINE] + rest)
          == load(st.(dict := st.dict[st.section + [COLON] + k := Some(v)]), rest))
  }

  /** One slot, printed under the current section. */
  lemma LoadSlot(load: Loader, st: Loading, keys: seq<Value>, vals: seq<Value>, i: nat, rest: Name)
    requires Dumpable(keys, vals) && LoadsPrinted(load) && i < |keys| && Between(st) && COLON !in st.section
    ensures load(st, SlotText(keys, vals, st.section, i) + rest)
         == load(st.(dict := SlotInto(st.dict, keys, vals, st.section, i)), rest)
  {
    var sec := st.section;
    if keys[i].Some? && InSection(keys[i].value, sec) {
      var k, v := keys[i].value, TextOf(vals[i]);
      assert DumpableSlot(keys, k, vals[i]);
      assert k[|sec|] == k[..|sec| + 1][|sec|] == COLON;
      SplitKey(keys, k, vals[i], sec);
      PairHasNoNewline(WIDTH, k[|sec| + 1..], v);
      assert Printable(v);
    } else {
      assert [] + rest == rest;
    }
  }

  /** Reading text takes st to r, whatever follows. */
  ghost predicate ReadsTo(load: Loader, st: Loading, text: Name, r: Loading) {
    forall rest: Name :: load(st, text + rest) == load(r, rest)
  }

  lemma ReadsOn(load: Loader, st: Loading, a: Name, m: Loading, b: Name, r: Loading)
    requires ReadsTo(load, st, a, m) && ReadsTo(load, m, b, r)
    ensures ReadsTo(load, st, a + b, r)
  {
    forall rest: Name
      ensures load(st, a + b + rest) == load(r, rest)
    {
      Regroup(a, b, rest);
    }
  }

  lemma ReadsNothing(load: Loader, st: Loading)
    ensures ReadsTo(load, st, [], st)
  {
    forall rest: Name
      ensures load(st, [] + rest) == load(st, rest)
    {
      assert [] + rest == rest;
    }
  }

  lemma ReadsSlot(load: Loader, st: Loading, keys: seq<Value>, vals: seq<Value>, i: nat)
    requires Dumpable(keys, vals) && LoadsPrinted(load) && i < |keys| && Between(st) && COLON !in st.section
    ensures ReadsTo(load, st, SlotText(keys, vals, st.section, i), st.(dict := SlotInto(st.dict, keys, vals, st.section, i)))
  {
    forall rest: Name
      ensures load(st, SlotText(keys, vals, st.section, i) + rest)
           == load(st.(dict := SlotInto(st.dict, keys, vals, st.section, i)), rest)
    {
      LoadSlot(load, st, keys, vals, i, rest);
    }
  }

  lemma {:induction false} ReadsAll(load: Loader, texts: seq<Name>, states: seq<Loading>)
    requires |states| == |texts| + 1
    requires forall i :: 0 <= i < |texts| ==> ReadsTo(load, states[i], texts[i], states[i + 1])
    ensures ReadsTo(load, states[0], Concat(texts), states[|texts|])
  {
    if texts == [] {
      ReadsNothing(load, states[0]);
    } else {
      var n := |texts| - 1;
      assert forall i :: 0 <= i < n ==> ReadsTo(load, states[i], texts[i], states[i + 1]);
      ReadsAll(load, texts[..n], states[..n + 1]);
      ReadsOn(load, states[0], Concat(texts[..n]), states[n], texts[n], states[n + 1]);
    }
  }

  /** The loader's state when the first i slots of its section are read. */
  function After(st: Loading, keys: seq<Value>, vals: seq<Value>, i: nat): Loading
    requires st.Loading? && i <= |keys| == |vals|
  {
    st.(dict := PairsInto(st.dict, keys, vals, st.section, i))
  }

  lemma ReadsNext(load: Loader, st: Loading, keys: seq<Value>, vals: seq<Value>, i: nat)
    requires Dumpable(keys, vals) && LoadsPrinted(load) && i < |keys| && Between(st) && COLON !in st.section
    ensures ReadsTo(load, After(st, keys, vals, i), SlotTexts(keys, vals, st.section)[i], After(st, keys, vals, i + 1))
  {
    ReadsSlot(load, After(st, keys, vals, i), keys, vals, i);
  }

  lemma ReadsStates(load: Loader, st: Loading, keys: seq<Value>, vals: seq<Value>)
    requires st.Loading? && |keys| == |vals|
    requires forall i :: 0 <= i < |keys| ==>
      ReadsTo(load, After(st, keys, vals, i), SlotTexts(keys, vals, st.section)[i], After(st, keys, vals, i + 1))
    ensures ReadsTo(load, After(st, keys, vals, 0), Concat(SlotTexts(keys, vals, st.section)), After(st, keys, vals, |keys|))
  {
    var states := seq(|keys| + 1, i requires 0 <= i <= |keys| => After(st, keys, vals, i));
    ReadsAll(load, SlotTexts(keys, vals, st.section), states);
  }

  lemma ReadsPairs(load: Loader, st: Loading, keys: seq<Value>, vals: seq<Value>)
    requires Dumpable(keys, vals) && LoadsPrinted(load) && Between(st) && COLON !in st.section
    ensures ReadsTo(load, st, Concat(SlotTexts(keys, vals, st.section)), After(st, keys, vals, |keys|))
  {
    forall i | 0 <= i < |keys|
      ensures ReadsTo(load, After(st, keys, vals, i), SlotTexts(keys, vals, st.section)[i], After(st, keys, vals, i + 1))
    {
      ReadsNext(load, st, keys, vals, i);
    }
    ReadsStates(load, st, keys, vals);
    assert After(st, keys, vals, 0) == st;
  }

  lemma PairHasNoNewline(w: nat, k: Name, v: Name)
    requires NEWLINE !in k && NEWLINE !in v
    ensures NEWLINE !in PairLine(w, k, v)
  {
    var f := Field(w, k);
    assert forall j :: 0 <= j < |f| ==> f[j] == if j < |k| then f[..|k|][j] else BLANK;
    assert NEWLINE !in f;
  }

  function AfterSection(st: Loading, keys: seq<Value>, vals: seq<Value>, sec: Name): Loading
    requires st.Loading? && |keys| == |vals|
  {
    st.(dict := PairsInto(st.dict[sec := None], keys, vals, sec, |keys|), section := sec)
  }

  lemma LoadSectionText(load: Loader, st: Loading, keys: seq<Value>, vals: seq<Value>, sec: Name, rest: Name)
    requires Dumpable(keys, vals) && LoadsPrinted(load) && Between(st) && SafeSection(sec) && Fits(SectionLine(sec))
    ensures load(st, SectionText(keys, vals, sec) + rest) == load(AfterSection(st, keys, vals, sec), rest)
  {
    var pairs, line := Concat(SlotTexts(keys, vals, sec)), SectionLine(sec);
    assert SectionText(keys, vals, sec) + rest == [NEWLINE] + (line + [NEWLINE] + (pairs + rest));
    ReadsPairs(load, st.(dict := st.dict[sec := None], section := sec), keys, vals);
  }

  function AfterSections(st: Loading, keys: seq<Value>, vals: seq<Value>, secs: seq<Name>): (r: Loading)
    requires Between(st) && |keys| == |vals|
    ensures Between(r)
  {
    if secs == [] then st
    else AfterSection(AfterSections(st, keys, vals, secs[..|secs| - 1]), keys, vals, secs[|secs| - 1])
  }

  lemma {:induction false} LoadSections(load: Loader, st: Loading, keys: seq<Value>, vals: seq<Value>, secs: seq<Name>, rest: Name)
    requires Dumpable(keys, vals) && LoadsPrinted(load) && Between(st)
    requires forall j :: 0 <= j < |secs| ==> SafeSection(secs[j]) && Fits(SectionLine(secs[j]))
    ensures load(st, SectionsText(keys, vals, secs) + rest) == load(AfterSections(st, keys, vals, secs), rest)
  {
    if secs == [] {
      assert SectionsText(keys, vals, secs) + rest == rest;
    } else {
      var n := |secs| - 1;
      Regroup(SectionsText(keys, vals, secs[..n]), SectionText(keys, vals, secs[n]), rest);
      LoadSections(load, st, keys, vals, secs[..n], SectionText(keys, vals, secs[n]) + rest);
      LoadSectionText(load, AfterSections(st, keys, vals, secs[..n]), keys, vals, secs[n], rest);
    }
  }

  /** Every entry of m is a slot's. */
  predicate Right(m: map<Name, Value>, keys: seq<Value>, vals: seq<Value>)
    requires |keys| == |vals|
  {
    forall k :: k in m ==> exists i :: 0 <= i < |keys| && keys[i] == Some(k) && m[k] == vals[i]
  }

  lemma RightWith(m: map<Name, Value>, keys: seq<Value>, vals: seq<Value>, i: nat)
    requires |keys| == |vals| && Right(m, keys, vals) && i < |keys| && keys[i].Some?
    ensures Right(m[keys[i].value := vals[i]], keys, vals)
  {
  }

  lemma SlotIsRight(m: map<Name, Value>, keys: seq<Value>, vals: seq<Value>, sec: Name, i: nat)
    requires Dumpable(keys, vals) && i < |keys| && Right(m, keys, vals)
    ensures Right(SlotInto(m, keys, vals, sec, i), keys, vals)
  {
    if keys[i].Some? && InSection(keys[i].value, sec) {
      var k := keys[i].value;
      assert DumpableSlot(keys, k, vals[i]);
      assert k[|sec|] == k[..|sec| + 1][|sec|] == COLON;
      RightWith(m, keys, vals, i);
    }
  }

  lemma {:induction false} PairsAreRight(m: map<Name, Value>, keys: seq<Value>, vals: seq<Value>, sec: Name, n: nat)
    requires Dumpable(keys, vals) && n <= |keys| && Right(m, keys, vals)
    ensures Right(PairsInto(m, keys, vals, sec, n), keys, vals)
  {
    if n > 0 {
      PairsAreRight(m, keys, vals, sec, n - 1);
      SlotIsRight(PairsInto(m, keys, vals, sec, n - 1), keys, vals, sec, n - 1);
    }
  }

  lemma {:induction false} PairsAreThere(m: map<Name, Value>, keys: seq<Value>, vals: seq<Value>, sec: Name, n: nat)
    requires n <= |keys| == |vals|
    ensures forall k :: k in m ==> k in PairsInto(m, keys, vals, sec, n)
    ensures forall j :: 0 <= j < n && keys[j].Some? && InSection(keys[j].value, sec) ==> keys[j].value in PairsInto(m, keys, vals, sec, n)
  {
    if n > 0 {
      PairsAreThere(m, keys, vals, sec, n - 1);
    }
  }

  /** All slots of the sections loaded are there. */
  ghost predicate Covers(m: map<Name, Value>, keys: seq<Value>, secs: seq<Name>) {
    forall k, sec :: sec in secs && Has(keys, k) && (k == sec || InSection(k, sec)) ==> k in m
  }

  lemma SectionIsRight(m: map<Name, Value>, keys: seq<Value>, vals: seq<Value>, sec: Name)
    requires Dumpable(keys, vals) && Right(m, keys, vals) && IsSection(sec) && Has(keys, sec)
    ensures var r := PairsInto(m[sec := None], keys, vals, sec, |keys|);
      && Right(r, keys, vals)
      && (forall k :: k in m ==> k in r)
      && forall k :: Has(keys, k) && (k == sec || InSection(k, sec)) ==> k in r
  {
    var i :| 0 <= i < |keys| && keys[i] == Some(sec);
    assert DumpableSlot(keys, sec, vals[i]);
    RightWith(m, keys, vals, i);
    PairsAreRight(m[sec := None], keys, vals, sec, |keys|);
    PairsAreThere(m[sec := None], keys, vals, sec, |keys|);
  }

  lemma {:induction false} SectionsAreRight(st: Loading, keys: seq<Value>, vals: seq<Value>, secs: seq<Name>)
    requires Dumpable(keys, vals) && Between(st) && Right(st.dict, keys, vals)
    requires forall j :: 0 <= j < |secs| ==> IsSection(secs[j]) && Has(keys, secs[j])
    ensures var m := AfterSections(st, keys, vals, secs).dict; Right(m, keys, vals) && Covers(m, keys, secs)
  {
    if secs != [] {
      var n := |secs| - 1;
      SectionsAreRight(st, keys, vals, secs[..n]);
      SectionIsRight(AfterSections(st, keys, vals, secs[..n]).dict, keys, vals, secs[n]);
      assert forall s :: s in secs ==> s == secs[n] || s in secs[..n];
    }
  }

  lemma {:induction false} SectionsAreSlots(keys: seq<Value>, n: nat)
    requires n <= |keys|
    ensures forall j :: 0 <= j < |Sections(keys, n)| ==> IsSection(Sections(keys, n)[j]) && Has(keys, Sections(keys, n)[j])
    ensures forall i :: 0 <= i < n && keys[i].Some? && IsSection(keys[i].value) ==> keys[i].value in Sections(keys, n)
  {
    if n > 0 {
      SectionsAreSlots(keys, n - 1);
    }
  }

  lemma SectionOf(keys: seq<Value>, vals: seq<Value>, i: nat) returns (sec: Name)
    requires Dumpable(keys, vals) && i < |keys| && keys[i].Some?
    ensures sec in Sections(keys, |keys|) && (keys[i].value == sec || InSection(keys[i].value, sec))
  {
    var k := keys[i].value;
    SectionsAreSlots(keys, |keys|);
    assert DumpableSlot(keys, k, vals[i]);
    if IsSection(k) {
      sec := k;
    } else {
      var c := Until(k, 0, COLON, COLON);
      sec := k[..c];
      assert k[..c + 1] == sec + [COLON];
      assert forall j :: 0 <= j < c ==> sec[j] == k[j];
      var j :| 0 <= j < |keys| && keys[j] == Some(sec);
    }
  }

  lemma SectionsAreSafe(keys: seq<Value>, vals: seq<Value>, j: nat)
    requires Dumpable(keys, vals) && j < |Sections(keys, |keys|)|
    ensures var sec := Sections(keys, |keys|)[j]; SafeSection(sec) && Fits(SectionLine(sec))
  {
    SectionsAreSlots(keys, |keys|);
    var sec := Sections(keys, |keys|)[j];
    var i :| 0 <= i < |keys| && keys[i] == Some(sec);
    assert DumpableSlot(keys, sec, vals[i]);
  }

  lemma CoveredAt(keys: seq<Value>, vals: seq<Value>, m: map<Name, Value>, i: nat)
    requires Dumpable(keys, vals) && Right(m, keys, vals) && Covers(m, keys, Sections(keys, |keys|))
    requires i < |keys| && keys[i].Some?
    ensures keys[i].value in m && m[keys[i].value] == vals[i]
  {
    var sec := SectionOf(keys, vals, i);
    assert Has(keys, keys[i].value);
    assert keys[i].value in m;
    RightAt(m, keys, vals, i);
  }

  lemma RightAt(m: map<Name, Value>, keys: seq<Value>, vals: seq<Value>, i: nat)
    requires |keys| == |vals| && Unique(keys) && Right(m, keys, vals) && i < |keys| && keys[i].Some? && keys[i].value in m
    ensures m[keys[i].value] == vals[i]
  {
  }

  lemma CoveredIsTheMap(keys: seq<Value>, vals: seq<Value>, m: map<Name, Value>)
    requires Dumpable(keys, vals) && Right(m, keys, vals) && Covers(m, keys, Sections(keys, |keys|))
    ensures m == ToMap(keys, vals)
  {
    forall i | 0 <= i < |keys| && keys[i].Some?
      ensures keys[i].value in m && m[keys[i].value] == vals[i]
    {
      CoveredAt(keys, vals, m, i);
    }
    IsTheMap(keys, vals, m);
  }

  /** Any parser that reads the lines back loads the whole file. */
  lemma DumpIsLoaded(load: Loader, st: Loading, keys: seq<Value>, vals: seq<Value>)
    requires Dumpable(keys, vals) && LoadsPrinted(load) && Between(st) && st.dict == map[]
    requires (forall r: Loading :: load(r, []) == r) && Sections(keys, |keys|) != []
    ensures var r := load(st, Dump(keys, vals)); Between(r) && r.dict == ToMap(keys, vals)
  {
    var secs := Sections(keys, |keys|);
    SectionsAreSlots(keys, |keys|);
    forall j | 0 <= j < |secs|
      ensures SafeSection(secs[j]) && Fits(SectionLine(secs[j]))
    {
      SectionsAreSafe(keys, vals, j);
    }
    LoadSections(load, st, keys, vals, secs, [NEWLINE]);
    var r := AfterSections(st, keys, vals, secs);
    assert [NEWLINE] + [] == [NEWLINE];
    SectionsAreRight(st, keys, vals, secs);
    CoveredIsTheMap(keys, vals, r.dict);
  }

  lemma LoadFromLoadsPrinted()
    ensures LoadsPrinted((st, text) => LoadFrom(ParseLine, st, text))
  {
    ParseLineRereads();
    forall st: Loading, rest: Name | Between(st)
      ensures LoadFrom(ParseLine, st, [NEWLINE] + rest) == LoadFrom(ParseLine, st, rest)
    {
      OneLine(ParseLine, st, [], rest);
      assert [] + [NEWLINE] + rest == [NEWLINE] + rest;
      LoadBlank(ParseLine, st);
    }
    forall st: Loading, name: Name, rest: Name | Between(st) && SafeSection(name) && Fits(SectionLine(name))
      ensures LoadFrom(ParseLine, st, SectionLine(name) + [NEWLINE] + rest)
           == LoadFrom(ParseLine, st.(dict := st.dict[name := None], section := name), rest)
    {
      OneLine(ParseLine, st, SectionLine(name), rest);
      LoadSection(ParseLine, st, name);
    }
    forall st: Loading, w: nat, k: Name, v: Name, rest: Name | Between(st) && SafeKey(k) && Printable(v) && Fits(PairLine(w, k, v))
      ensures LoadFrom(ParseLine, st, PairLine(w, k, v) + [NEWLINE] + rest)
           == LoadFrom(ParseLine, st.(dict := st.dict[st.section + [COLON] + k := Some(v)]), rest)
    {
      PairHasNoNewline(w, k, v);
      OneLine(ParseLine, st, PairLine(w, k, v), rest);
      LoadPair(ParseLine, st, w, k, v);
    }
  }

  /** Without sections such a dictionary has no keys at all. */
  lemma NoSectionsNoKeys(keys: seq<Value>, vals: seq<Value>)
    requires Dumpable(keys, vals) && Sections(keys, |keys|) == []
    ensures forall i :: 0 <= i < |keys| ==> keys[i].None?
    ensures Dump(keys, vals) == [] && ToMap(keys, vals) == map[]
  {
    forall i | 0 <= i < |keys|
      ensures keys[i].None?
    {
      if keys[i].Some? {
        var sec := SectionOf(keys, vals, i);
      }
    }
    NothingToConcat(PlainTexts(keys, vals));
    IsTheMap(keys, vals, map[]);
  }

  lemma {:induction false} NothingToConcat(texts: seq<Name>)
    requires forall i :: 0 <= i < |texts| ==> texts[i] == []
    ensures Concat(texts) == []
  {
    if texts != [] {
      NothingToConcat(texts[..|texts| - 1]);
    }
  }

  /** Loading what was printed gives the dictionary back. */
  lemma DumpThenLoad(keys: seq<Value>, vals: seq<Value>)
    requires Dumpable(keys, vals)
    ensures Load(Dump(keys, vals)) == Some(ToMap(keys, vals))
  {
    if Sections(keys, |keys|) == [] {
      NoSectionsNoKeys(keys, vals);
    } else {
      LoadFromLoadsPrinted();
      DumpIsLoaded((st, text) => LoadFrom(ParseLine, st, text), START, keys, vals);
    }
  }

  // ---------- keys without their section ----------

  /** A key whose section is missing. */
  predicate Orphan(keys: seq<Value>, k: Name) {
    !IsSection(k) && !Has(keys, k[..Until(k, 0, COLON, COLON)])
  }

  /** The slots without the orphans. */
  function Kept(keys: seq<Value>): (r: seq<Value>)
    ensures |r| == |keys|
    ensures forall i :: 0 <= i < |keys| ==> r[i] == if keys[i].Some? && Orphan(keys, keys[i].value) then None else keys[i]
  {
    seq(|keys|, i requires 0 <= i < |keys| => if keys[i].Some? && Orphan(keys, keys[i].value) then None else keys[i])
  }

  /** Orphans may be anything; all other slots can be read back. */
  predicate DumpableOrOrphan(keys: seq<Value>, vals: seq<Value>) {
    && |keys| == |vals| && Unique(keys)
    && forall j :: 0 <= j < |keys| && keys[j].Some? ==> Orphan(keys, keys[j].value) || DumpableSlot(keys, keys[j].value, vals[j])
  }

  lemma SectionName(k: Name, sec: Name)
    requires IsSection(sec)
    ensures InSection(k, sec) ==> Until(k, 0, COLON, COLON) == |sec| && k[..|sec|] == sec
  {
    if InSection(k, sec) {
      var p := k[..|sec| + 1];
      assert k[|sec|] == p[|sec|] == COLON;
      assert forall j :: 0 <= j < |sec| ==> k[j] == p[j] == sec[j] && sec[j] in sec;
      assert k[..|sec|] == p[..|sec|] == sec;
    }
  }

  /** An orphan is in no section that is printed. */
  lemma OrphanIsOut(keys: seq<Value>, k: Name, sec: Name)
    requires Orphan(keys, k) && IsSection(sec) && Has(keys, sec)
    ensures !InSection(k, sec)
  {
    SectionName(k, sec);
  }

  lemma SectionsAreKept(keys: seq<Value>, k: Name)
    requires IsSection(k)
    ensures Has(Kept(keys), k) <==> Has(keys, k)
  {
    if Has(keys, k) {
      var i :| 0 <= i < |keys| && keys[i] == Some(k);
      assert Kept(keys)[i] == Some(k);
    }
  }

  lemma {:induction false} SameSections(keys: seq<Value>, n: nat)
    requires n <= |keys|
    ensures Sections(Kept(keys), n) == Sections(keys, n)
  {
    if n > 0 { SameSections(keys, n - 1); }
  }

  lemma SameSlotText(keys: seq<Value>, vals: seq<Value>, sec: Name, i: nat)
    requires i < |keys| == |vals| && IsSection(sec) && Has(keys, sec)
    ensures SlotText(Kept(keys), vals, sec, i) == SlotText(keys, vals, sec, i)
  {
    if keys[i].Some? && Orphan(keys, keys[i].value) {
      OrphanIsOut(keys, keys[i].value, sec);
    }
  }

  lemma SameSectionText(keys: seq<Value>, vals: seq<Value>, sec: Name)
    requires |keys| == |vals| && IsSection(sec) && Has(keys, sec)
    ensures SectionText(Kept(keys), vals, sec) == SectionText(keys, vals, sec)
  {
    forall i | 0 <= i < |keys|
      ensures SlotText(Kept(keys), vals, sec, i) == SlotText(keys, vals, sec, i)
    {
      SameSlotText(keys, vals, sec, i);
    }
    assert SlotTexts(Kept(keys), vals, sec) == SlotTexts(keys, vals, sec);
  }

  lemma {:induction false} SameText(keys: seq<Value>, vals: seq<Value>, secs: seq<Name>)
    requires |keys| == |vals| && forall j :: 0 <= j < |secs| ==> IsSection(secs[j]) && Has(keys, secs[j])
    ensures SectionsText(Kept(keys), vals, secs) == SectionsText(keys, vals, secs)
  {
    if secs != [] {
      SameText(keys, vals, secs[..|secs| - 1]);
      SameSectionText(keys, vals, secs[|secs| - 1]);
    }
  }

  lemma KeptIsDumpable(keys: seq<Value>, vals: seq<Value>)
    requires DumpableOrOrphan(keys, vals)
    ensures Dumpable(Kept(keys), vals)
  {
    forall j | 0 <= j < |keys| && Kept(keys)[j].Some?
      ensures DumpableSlot(Kept(keys), keys[j].value, vals[j])
    {
      var k := keys[j].value;
      if !IsSection(k) {
        var c := Until(k, 0, COLON, COLON);
        assert forall i :: 0 <= i < c ==> k[..c][i] == k[i] != COLON;
        SectionsAreKept(keys, k[..c]);
      }
    }
  }

  /** What is loaded of a dictionary with sections is the dictionary without its orphans: each of them is
      lost, and nothing else is. */
  lemma OrphansAreLost(keys: seq<Value>, vals: seq<Value>)
    requires DumpableOrOrphan(keys, vals) && Sections(keys, |keys|) != []
    ensures Load(Dump(keys, vals)) == Some(ToMap(Kept(keys), vals))
    ensures ToMap(Kept(keys), vals) == ToMap(keys, vals)
       <==> forall i :: 0 <= i < |keys| && keys[i].Some? ==> !Orphan(keys, keys[i].value)
  {
    SectionsAreSlots(keys, |keys|);
    SameSections(keys, |keys|);
    SameText(keys, vals, Sections(keys, |keys|));
    KeptIsDumpable(keys, vals);
    DumpThenLoad(Kept(keys), vals);
    if forall i :: 0 <= i < |keys| && keys[i].Some? ==> !Orphan(keys, keys[i].value) {
      assert Kept(keys) == keys;
    } else {
      var i :| 0 <= i < |keys| && keys[i].Some? && Orphan(keys, keys[i].value);
      OrphanIsMissed(keys, vals, i);
    }
  }

  lemma OrphanIsMissed(keys: seq<Value>, vals: seq<Value>, i: nat)
    requires |keys| == |vals| && Unique(keys) && i < |keys| && keys[i].Some? && Orphan(keys, keys[i].value)
    ensures keys[i].value in ToMap(keys, vals) && keys[i].value !in ToMap(Kept(keys), vals)
  {
    MapDomain(keys, vals, keys[i].value);
    MapDomain(Kept(keys), vals, keys[i].value);
    assert keys[i] in keys;
  }

  // ---------- no sections at all ----------

  /** A line that can be read back without a section. */
  predicate PlainSlot(k: Name, v: Value) {
    SafeKey(k) && v.Some? && Printable(v.value) && Fits(PairLine(0, k, v.value))
  }

  predicate PlainDumpable(keys: seq<Value>, vals: seq<Value>) {
    && |keys| == |vals|
    && forall j :: 0 <= j < |keys| && keys[j].Some? ==> !IsSection(keys[j].value) && PlainSlot(keys[j].value, vals[j])
  }

  /** The keys with the colon in front that the loader puts behind the missing section's name. */
  function Moved(keys: seq<Value>): (r: seq<Value>)
    ensures |r| == |keys|
    ensures forall i :: 0 <= i < |keys| ==> r[i] == if keys[i].Some? then Some([COLON] + keys[i].value) else None
  {
    seq(|keys|, i requires 0 <= i < |keys| => if keys[i].Some? then Some([COLON] + keys[i].value) else None)
  }

  lemma PlainLine(k: Name, v: Name)
    ensures k + [BLANK, EQUALS, BLANK] + v == PairLine(0, k, v)
  {
    assert Field(0, k) == k + [BLANK];
  }

  /** What is loaded when the first n lines are read. */
  function PlainAfter(keys: seq<Value>, vals: seq<Value>, n: nat): (r: Loading)
    requires n <= |keys| == |vals|
    ensures Between(r) && r.section == []
  {
    START.(dict := ToMap(Moved(keys)[..n], vals[..n]))
  }

  lemma ReadsPlain(load: Loader, keys: seq<Value>, vals: seq<Value>, i: nat)
    requires PlainDumpable(keys, vals) && LoadsPrinted(load) && i < |keys|
    ensures ReadsTo(load, PlainAfter(keys, vals, i), PlainText(keys, vals, i), PlainAfter(keys, vals, i + 1))
  {
    var st, r := PlainAfter(keys, vals, i), PlainAfter(keys, vals, i + 1);
    var moved := Moved(keys);
    assert moved[..i + 1][..i] == moved[..i] && vals[..i + 1][..i] == vals[..i];
    forall rest: Name
      ensures load(st, PlainText(keys, vals, i) + rest) == load(r, rest)
    {
      if keys[i].Some? {
        var k, v := keys[i].value, vals[i].value;
        PlainLine(k, v);
        assert PlainText(keys, vals, i) == PairLine(0, k, v) + [NEWLINE];
        assert [] + [COLON] + k == [COLON] + k;
      } else {
        assert [] + rest == rest;
      }
    }
  }

  lemma PlainIsLoaded(load: Loader, keys: seq<Value>, vals: seq<Value>)
    requires PlainDumpable(keys, vals) && LoadsPrinted(load) && forall r: Loading :: load(r, []) == r
    ensures load(START, Concat(PlainTexts(keys, vals))) == PlainAfter(keys, vals, |keys|)
  {
    var texts := PlainTexts(keys, vals);
    var states := seq(|keys| + 1, i requires 0 <= i < |keys| + 1 => PlainAfter(keys, vals, i));
    forall i | 0 <= i < |texts|
      ensures ReadsTo(load, states[i], texts[i], states[i + 1])
    {
      ReadsPlain(load, keys, vals, i);
    }
    ReadsAll(load, texts, states);
    assert Moved(keys)[..0] == [] && vals[..0] == [];
    assert Concat(texts) + [] == Concat(texts);
  }

  lemma {:induction false} NoSections(keys: seq<Value>, n: nat)
    requires n <= |keys| && forall j :: 0 <= j < |keys| && keys[j].Some? ==> !IsSection(keys[j].value)
    ensures Sections(keys, n) == []
  {
    if n > 0 { NoSections(keys, n - 1); }
  }

  /** Without sections every key comes back with a colon in front, so nothing but the empty dictionary
      survives. */
  lemma KeysWithoutSectionsMove(keys: seq<Value>, vals: seq<Value>)
    requires PlainDumpable(keys, vals)
    ensures Load(Dump(keys, vals)) == Some(ToMap(Moved(keys), vals))
    ensures ToMap(Moved(keys), vals) == ToMap(keys, vals) <==> forall i :: 0 <= i < |keys| ==> keys[i].None?
  {
    NoSections(keys, |keys|);
    LoadFromLoadsPrinted();
    PlainIsLoaded((st, text) => LoadFrom(ParseLine, st, text), keys, vals);
    assert Moved(keys)[..|keys|] == Moved(keys) && vals[..|keys|] == vals;
    if forall i :: 0 <= i < |keys| ==> keys[i].None? {
      assert Moved(keys) == keys;
    } else {
      LongestMoves(keys, vals);
    }
  }

  lemma {:induction false} Longest(keys: seq<Value>) returns (i: nat)
    requires exists j :: 0 <= j < |keys| && keys[j].Some?
    ensures i < |keys| && keys[i].Some? && forall j :: 0 <= j < |keys| && keys[j].Some? ==> |keys[j].value| <= |keys[i].value|
  {
    var n := |keys| - 1;
    if exists j :: 0 <= j < n && keys[j].Some? {
      var k :| 0 <= k < n && keys[k].Some?;
      assert keys[..n][k].Some?;
      i := Longest(keys[..n]);
      assert forall j :: 0 <= j < n && keys[j].Some? ==> keys[..n][j] == keys[j];
      if keys[n].Some? && |keys[n].value| > |keys[i].value| { i := n; }
    } else {
      i := n;
    }
  }

  lemma LongestMoves(keys: seq<Value>, vals: seq<Value>)
    requires |keys| == |vals| && exists j :: 0 <= j < |keys| && keys[j].Some?
    ensures ToMap(Moved(keys), vals) != ToMap(keys, vals)
  {
    var i := Longest(keys);
    var k := [COLON] + keys[i].value;
    MapDomain(Moved(keys), vals, k);
    MapDomain(keys, vals, k);
    assert Moved(keys)[i] == Some(k);
  }
}
