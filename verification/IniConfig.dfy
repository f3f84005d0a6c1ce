/** The INI-style configuration: reading a string, and printing a configuration back. */
module IniConfig {
  import opened IniText

  datatype Entry = Entry(key: string, value: string)

  datatype Section = Section(name: string, entries: seq<Entry>)

  /** The entries before any section header, and the named sections in order. */
  datatype Ini = Ini(global: seq<Entry>, sections: seq<Section>)

  /** The section that entries are added to: the global one, or one of the named ones. */
  datatype Place = Global | Named(i: nat)

  // ---------------------------------------------------------------------------
  // Lookup and insertion
  // ---------------------------------------------------------------------------

  /** The entry with this key, or the number of entries if there is none. */
  function EntryAt(es: seq<Entry>, key: string): (i: nat)
    ensures i <= |es| && (i < |es| ==> es[i].key == key) && forall j :: 0 <= j < i ==> es[j].key != key
  {
    if es == [] || es[0].key == key then 0 else 1 + EntryAt(es[1..], key)
  }

  function AddEntry(es: seq<Entry>, key: string, value: string): seq<Entry> {
    var i := EntryAt(es, key);
    if i < |es| then es[i := Entry(key, value)] else es + [Entry(key, value)]
  }

  function SectionAt(ss: seq<Section>, name: string): (i: nat)
    ensures i <= |ss| && (i < |ss| ==> ss[i].name == name) && forall j :: 0 <= j < i ==> ss[j].name != name
  {
    if ss == [] || ss[0].name == name then 0 else 1 + SectionAt(ss[1..], name)
  }

  predicate PlaceOk(c: Ini, at: Place) { at.Named? ==> at.i < |c.sections| }

  /** What reading works on: the configuration so far and where entries go. */
  datatype Reading = Reading(c: Ini, at: Place)

  /** Opens a section, which is made if it is not there; the empty name is the global section. */
  function OpenSection(r: Reading, name: string): (r': Reading)
    ensures PlaceOk(r'.c, r'.at)
  {
    if name == "" then Reading(r.c, Global)
    else
      var i := SectionAt(r.c.sections, name);
      if i < |r.c.sections| then Reading(r.c, Named(i))
      else Reading(r.c.(sections := r.c.sections + [Section(name, [])]), Named(i))
  }

  function AddTo(r: Reading, key: string, value: string): (r': Reading)
    requires PlaceOk(r.c, r.at)
    ensures PlaceOk(r'.c, r'.at)
  {
    match r.at
    case Global => r.(c := r.c.(global := AddEntry(r.c.global, key, value)))
    case Named(i) =>
      var s := r.c.sections[i];
      r.(c := r.c.(sections := r.c.sections[i := s.(entries := AddEntry(s.entries, key, value))]))
  }

  // ---------------------------------------------------------------------------
  // Reading
  // ---------------------------------------------------------------------------

  /** The effect of one line. */
  function ReadLine(r: Reading, line: string): (r': Reading)
    requires PlaceOk(r.c, r.at)
    ensures PlaceOk(r'.c, r'.at)
  {
    var p := Trim(line);
    if p == "" || p[0] == '#' || p[0] == ';' then r
    else if p[0] == '[' then
      var end := Find(p, ']');
      if end < |p| then OpenSection(r, Trim(p[1..end])) else r
    else
      var eq := Find(p, '=');
      if eq < |p| then AddTo(r, Trim(p[..eq]), Trim(p[eq + 1..])) else r
  }

  function ReadText(r: Reading, text: string): (r': Reading)
    requires PlaceOk(r.c, r.at)
    ensures PlaceOk(r'.c, r'.at)
    decreases |text|
  {
    if text == "" then r
    else
      var i := Find(text, '\n');
      var r1 := ReadLine(r, text[..i]);
      if i < |text| then ReadText(r1, text[i + 1..]) else r1
  }

  function Load(text: string): Ini { ReadText(Reading(Ini([], []), Global), text).c }

  // ---------------------------------------------------------------------------
  // Printing
  // ---------------------------------------------------------------------------

  function EntryLine(e: Entry): string { e.key + " = " + e.value }

  function EntryLines(es: seq<Entry>): seq<string> {
    if es == [] then [] else [EntryLine(es[0])] + EntryLines(es[1..])
  }

  /** An empty line, the header, and the entries. */
  function LinesOf(s: Section): seq<string> { ["", "[" + s.name + "]"] + EntryLines(s.entries) }

  function SectionLines(ss: seq<Section>): seq<string> {
    if ss == [] then [] else LinesOf(ss[0]) + SectionLines(ss[1..])
  }

  /** The lines, each with its newline. */
  function Joined(lines: seq<string>): string {
    if lines == [] then "" else lines[0] + "\n" + Joined(lines[1..])
  }

  function Print(c: Ini): string { Joined(EntryLines(c.global) + SectionLines(c.sections)) }

  // ---------------------------------------------------------------------------
  // Configurations that survive printing and reading
  // ---------------------------------------------------------------------------

  predicate OneLine(s: string) { '\n' !in s }

  predicate KeyOk(k: string) {
    Trimmed(k) && OneLine(k) && '=' !in k && (k != "" ==> k[0] !in {'#', ';', '['})
  }

  predicate ValueOk(v: string) { Trimmed(v) && OneLine(v) }

  predicate NameOk(n: string) { n != "" && Trimmed(n) && OneLine(n) && ']' !in n }

  predicate EntriesOk(es: seq<Entry>) {
    && (forall i :: 0 <= i < |es| ==> KeyOk(es[i].key) && ValueOk(es[i].value))
    && forall i, j :: 0 <= i < j < |es| ==> es[i].key != es[j].key
  }

  predicate SectionsOk(ss: seq<Section>) {
    && (forall i :: 0 <= i < |ss| ==> NameOk(ss[i].name) && EntriesOk(ss[i].entries))
    && forall i, j :: 0 <= i < j < |ss| ==> ss[i].name != ss[j].name
  }

  /** Distinct, trimmed, delimiter-free names, and trimmed values on one line. */
  predicate Printable(c: Ini) { EntriesOk(c.global) && SectionsOk(c.sections) }

  // ---------------------------------------------------------------------------
  // Reading back what was printed
  // ---------------------------------------------------------------------------

  function ReadLines(r: Reading, lines: seq<string>): (r': Reading)
    requires PlaceOk(r.c, r.at)
    ensures PlaceOk(r'.c, r'.at)
    decreases |lines|
  {
    if lines == [] then r else ReadLines(ReadLine(r, lines[0]), lines[1..])
  }

  /** Reading joined lines is reading them one by one. */
  lemma {:induction false} ReadJoined(r: Reading, lines: seq<string>)
    requires PlaceOk(r.c, r.at) && forall i :: 0 <= i < |lines| ==> OneLine(lines[i])
    ensures ReadText(r, Joined(lines)) == ReadLines(r, lines)
    decreases |lines|
  {
    if lines != [] {
      var l, rest := lines[0], Joined(lines[1..]);
      var text := l + ['\n'] + rest;
      assert Joined(lines) == text;
      FindAfter(l, '\n', rest);
      assert text[..|l|] == l && text[|l| + 1..] == rest;
      ReadJoined(ReadLine(r, l), lines[1..]);
    }
  }

  lemma {:induction false} ReadAppended(r: Reading, a: seq<string>, b: seq<string>)
    requires PlaceOk(r.c, r.at)
    ensures ReadLines(r, a + b) == ReadLines(ReadLines(r, a), b)
    decreases |a|
  {
    if a == [] {
      assert a + b == b;
    } else {
      assert (a + b)[1..] == a[1..] + b;
      ReadAppended(ReadLine(r, a[0]), a[1..], b);
    }
  }

  /** The trimmed form of an entry line: a space survives only between two characters. */
  lemma EntryLineTrimmed(e: Entry)
    requires KeyOk(e.key) && ValueOk(e.value)
    ensures var left := if e.key == "" then "" else e.key + " ";
            var right := if e.value == "" then "" else " " + e.value;
            Trim(EntryLine(e)) == left + "=" + right
  {
    var left := if e.key == "" then "" else e.key + " ";
    var right := if e.value == "" then "" else " " + e.value;
    var a, b := if e.key == "" then " " else "", if e.value == "" then " " else "";
    var t := left + "=" + right;
    assert EntryLine(e) == a + t + b;
    assert Trimmed(t);
    TrimOf(a, t, b);
  }

  lemma ReadEntryLine(r: Reading, e: Entry)
    requires PlaceOk(r.c, r.at) && KeyOk(e.key) && ValueOk(e.value)
    ensures ReadLine(r, EntryLine(e)) == AddTo(r, e.key, e.value)
  {
    EntryLineTrimmed(e);
    var left := if e.key == "" then "" else e.key + " ";
    var right := if e.value == "" then "" else " " + e.value;
    var p := left + ['='] + right;
    assert Trim(EntryLine(e)) == p;
    FindAfter(left, '=', right);
    assert p[..|left|] == left && p[|left| + 1..] == right;
    var b, a := if e.key == "" then "" else " ", if e.value == "" then "" else " ";
    assert left == "" + e.key + b && right == a + e.value + "";
    TrimOf("", e.key, b);
    TrimOf(a, e.value, "");
    assert p[0] == if e.key == "" then '=' else e.key[0];
  }

  lemma ReadHeaderLine(r: Reading, name: string)
    requires PlaceOk(r.c, r.at) && NameOk(name)
    ensures ReadLine(r, "[" + name + "]") == OpenSection(r, name)
  {
    var p := ("[" + name) + [']'] + "";
    assert p == "[" + name + "]" == "" + p + "";
    TrimOf("", p, "");
    FindAfter("[" + name, ']', "");
    assert p[1..|name| + 1] == name == "" + name + "";
    TrimOf("", name, "");
  }

  lemma ReadEmptyLine(r: Reading)
    requires PlaceOk(r.c, r.at)
    ensures ReadLine(r, "") == r
  {
  }

  /** The entries of the section at hand. */
  function Here(r: Reading): seq<Entry>
    requires PlaceOk(r.c, r.at)
  {
    if r.at.Global? then r.c.global else r.c.sections[r.at.i].entries
  }

  function WithHere(r: Reading, es: seq<Entry>): Reading
    requires PlaceOk(r.c, r.at)
  {
    match r.at
    case Global => r.(c := r.c.(global := es))
    case Named(i) => r.(c := r.c.(sections := r.c.sections[i := r.c.sections[i].(entries := es)]))
  }

  /** Reading the lines of distinct new entries appends the entries. */
  lemma {:induction false} ReadEntryLines(r: Reading, es: seq<Entry>)
    requires PlaceOk(r.c, r.at) && EntriesOk(Here(r) + es)
    ensures ReadLines(r, EntryLines(es)) == WithHere(r, Here(r) + es)
    decreases |es|
  {
    if es == [] {
      assert Here(r) + es == Here(r);
      SameHere(r);
    } else {
      var here := Here(r);
      FirstNew(here, es);
      ReadEntryLine(r, es[0]);
      AddToHere(r, es[0]);
      NewEntry(here, es[0]);
      var r1 := WithHere(r, here + [es[0]]);
      WithHereTwice(r, here + [es[0]], here + es);
      ReadEntryLines(r1, es[1..]);
    }
  }

  lemma FirstNew(es: seq<Entry>, fs: seq<Entry>)
    requires EntriesOk(es + fs) && fs != []
    ensures KeyOk(fs[0].key) && ValueOk(fs[0].value)
    ensures forall j :: 0 <= j < |es| ==> es[j].key != fs[0].key
    ensures es + [fs[0]] + fs[1..] == es + fs
  {
    var all := es + fs;
    assert all[|es|] == fs[0];
    assert forall j :: 0 <= j < |es| ==> all[j] == es[j];
  }

  lemma AddToHere(r: Reading, e: Entry)
    requires PlaceOk(r.c, r.at)
    ensures AddTo(r, e.key, e.value) == WithHere(r, AddEntry(Here(r), e.key, e.value))
  {
  }

  lemma SameHere(r: Reading)
    requires PlaceOk(r.c, r.at)
    ensures WithHere(r, Here(r)) == r
  {
  }

  lemma WithHereTwice(r: Reading, es: seq<Entry>, fs: seq<Entry>)
    requires PlaceOk(r.c, r.at)
    ensures var r' := WithHere(r, es); PlaceOk(r'.c, r'.at) && Here(r') == es && WithHere(r', fs) == WithHere(r, fs)
  {
  }

  lemma NewEntry(es: seq<Entry>, e: Entry)
    requires forall j :: 0 <= j < |es| ==> es[j].key != e.key
    ensures AddEntry(es, e.key, e.value) == es + [e]
  {
  }

  /** Reading the lines of distinct new sections appends the sections. */
  lemma {:induction false} ReadSectionLines(r: Reading, ss: seq<Section>)
    requires PlaceOk(r.c, r.at) && SectionsOk(r.c.sections + ss)
    ensures ReadLines(r, SectionLines(ss)).c == r.c.(sections := r.c.sections + ss)
    decreases |ss|
  {
    if ss == [] {
      assert r.c.sections + ss == r.c.sections;
    } else {
      var s, before := ss[0], r.c.sections;
      FirstNewSection(before, ss);
      var head := ["", "[" + s.name + "]"];
      var r2 := ReadSection(r, s);
      assert SectionLines(ss) == head + EntryLines(s.entries) + SectionLines(ss[1..]);
      ReadAppended(r, head + EntryLines(s.entries), SectionLines(ss[1..]));
      ReadSectionLines(r2, ss[1..]);
    }
  }

  lemma FirstNewSection(ss: seq<Section>, ts: seq<Section>)
    requires SectionsOk(ss + ts) && ts != []
    ensures SectionsOk(ss + [ts[0]]) && NameOk(ts[0].name) && EntriesOk(ts[0].entries)
    ensures ss + [ts[0]] + ts[1..] == ss + ts
  {
    var all, some := ss + ts, ss + [ts[0]];
    assert all[|ss|] == ts[0];
    assert forall j :: 0 <= j < |some| ==> some[j] == all[j];
  }

  lemma ReadSection(r: Reading, s: Section) returns (r2: Reading)
    requires PlaceOk(r.c, r.at) && NameOk(s.name) && EntriesOk(s.entries)
    requires SectionsOk(r.c.sections + [s])
    ensures r2 == Reading(r.c.(sections := r.c.sections + [s]), Named(|r.c.sections|))
    ensures r2 == ReadLines(r, ["", "[" + s.name + "]"] + EntryLines(s.entries))
  {
    var head, ss := ["", "[" + s.name + "]"], r.c.sections;
    var r1 := OpenSection(r, s.name);
    NewSection(ss, s);
    assert r1 == Reading(r.c.(sections := ss + [Section(s.name, [])]), Named(|ss|));
    ReadEmptyLine(r);
    ReadHeaderLine(r, s.name);
    assert ReadLines(r, head) == ReadLines(r, head[1..]) == ReadLines(r1, head[2..]);
    ReadAppended(r, head, EntryLines(s.entries));
    assert Here(r1) + s.entries == s.entries;
    ReadEntryLines(r1, s.entries);
    r2 := WithHere(r1, s.entries);
    assert (ss + [Section(s.name, [])])[|ss| := s] == ss + [s];
  }

  lemma NewSection(ss: seq<Section>, s: Section)
    requires SectionsOk(ss + [s])
    ensures SectionAt(ss, s.name) == |ss|
  {
    var all := ss + [s];
    assert all[|ss|] == s;
    forall j | 0 <= j < |ss| ensures ss[j].name != s.name {
      assert all[j] == ss[j];
    }
  }

  lemma {:induction false} PrintedLines(es: seq<Entry>)
    requires EntriesOk(es)
    ensures forall i :: 0 <= i < |EntryLines(es)| ==> OneLine(EntryLines(es)[i])
  {
    if es != [] { PrintedLines(es[1..]); }
  }

  lemma {:induction false} PrintedSections(ss: seq<Section>)
    requires SectionsOk(ss)
    ensures forall i :: 0 <= i < |SectionLines(ss)| ==> OneLine(SectionLines(ss)[i])
  {
    if ss != [] {
      PrintedLines(ss[0].entries);
      PrintedSections(ss[1..]);
    }
  }

  /** A printable configuration is read back as it was: same sections, entries and order. */
  lemma PrintedIsReadBack(c: Ini)
    requires Printable(c)
    ensures Load(Print(c)) == c
  {
    var a, b := EntryLines(c.global), SectionLines(c.sections);
    var r := Reading(Ini([], []), Global);
    PrintedLines(c.global);
    PrintedSections(c.sections);
    ReadJoined(r, a + b);
    ReadAppended(r, a, b);
    assert Here(r) + c.global == c.global;
    ReadEntryLines(r, c.global);
    var r1 := WithHere(r, c.global);
    assert r1.c.sections + c.sections == c.sections;
    ReadSectionLines(r1, c.sections);
  }

  // ---------------------------------------------------------------------------
  // Whatever was read can be printed
  // ---------------------------------------------------------------------------

  lemma AddedEntryOk(es: seq<Entry>, key: string, value: string)
    requires EntriesOk(es) && KeyOk(key) && ValueOk(value)
    ensures EntriesOk(AddEntry(es, key, value))
  {
  }

  lemma AddedOk(r: Reading, key: string, value: string)
    requires PlaceOk(r.c, r.at) && Printable(r.c) && KeyOk(key) && ValueOk(value)
    ensures Printable(AddTo(r, key, value).c)
  {
    match r.at
    case Global => AddedEntryOk(r.c.global, key, value);
    case Named(i) => AddedEntryOk(r.c.sections[i].entries, key, value);
  }

  lemma OpenedOk(r: Reading, name: string)
    requires PlaceOk(r.c, r.at) && Printable(r.c) && (name != "" ==> NameOk(name))
    ensures Printable(OpenSection(r, name).c)
  {
  }

  lemma TrimPart(s: string)
    ensures Trimmed(Trim(s)) && forall c :: c in Trim(s) ==> c in s
    ensures s != "" && !IsSpace(s[0]) ==> Trim(s) != "" && Trim(s)[0] == s[0]
  {
    var a, b := TrimSplits(s);
    if s != "" && !IsSpace(s[0]) {
      assert TrimLeft(s) == s;
      var c := RightSplits(s);
      assert TrimRight(s) == "" ==> s == c;
    }
  }

  lemma ReadLineOk(r: Reading, line: string)
    requires PlaceOk(r.c, r.at) && Printable(r.c) && OneLine(line)
    ensures Printable(ReadLine(r, line).c)
  {
    var p := Trim(line);
    TrimPart(line);
    if p == "" || p[0] == '#' || p[0] == ';' {
    } else if p[0] == '[' {
      var end := Find(p, ']');
      if end < |p| {
        TrimPart(p[1..end]);
        assert forall c :: c in p[1..end] ==> c in p[..end] && c in p;
        OpenedOk(r, Trim(p[1..end]));
      }
    } else {
      var eq := Find(p, '=');
      if eq < |p| {
        TrimPart(p[..eq]);
        TrimPart(p[eq + 1..]);
        assert eq > 0 ==> p[..eq][0] == p[0];
        AddedOk(r, Trim(p[..eq]), Trim(p[eq + 1..]));
      }
    }
  }

  lemma {:induction false} ReadTextOk(r: Reading, text: string)
    requires PlaceOk(r.c, r.at) && Printable(r.c)
    ensures Printable(ReadText(r, text).c)
    decreases |text|
  {
    if text != "" {
      var i := Find(text, '\n');
      ReadLineOk(r, text[..i]);
      if i < |text| { ReadTextOk(ReadLine(r, text[..i]), text[i + 1..]); }
    }
  }

  /** Reading any text at all gives a configuration that printing and reading preserve. */
  lemma LoadIsPrintable(text: string)
    ensures Printable(Load(text)) && Load(Print(Load(text))) == Load(text)
  {
    ReadTextOk(Reading(Ini([], []), Global), text);
    PrintedIsReadBack(Load(text));
  }

  /** Printing and reading give a configuration back exactly if it is printable. */
  lemma RoundTripExactly(c: Ini)
    ensures Load(Print(c)) == c <==> Printable(c)
  {
    LoadIsPrintable(Print(c));
    if Printable(c) { PrintedIsReadBack(c); }
  }

  // ---------------------------------------------------------------------------
  // Repeated keys and sections, and lines that say nothing
  // ---------------------------------------------------------------------------

  /** What a lookup finds. */
  function ValueOf(es: seq<Entry>, key: string): (v: seq<string>)
    ensures |v| <= 1
  {
    var i := EntryAt(es, key);
    if i < |es| then [es[i].value] else []
  }

  function Keys(es: seq<Entry>): (ks: seq<string>)
    ensures |ks| == |es| && forall i :: 0 <= i < |es| ==> ks[i] == es[i].key
  {
    if es == [] then [] else [es[0].key] + Keys(es[1..])
  }

  lemma FirstIs(es: seq<Entry>, key: string, i: nat)
    requires i < |es| && es[i].key == key && forall j :: 0 <= j < i ==> es[j].key != key
    ensures EntryAt(es, key) == i
  {
  }

  /** Setting a key gives it the new value, at its old place if it has one, and leaves every other
      key's value alone. */
  lemma LastValueWins(es: seq<Entry>, key: string, value: string, other: string)
    ensures var es' := AddEntry(es, key, value);
            && ValueOf(es', key) == [value] && (other != key ==> ValueOf(es', other) == ValueOf(es, other))
            && Keys(es') == if ValueOf(es, key) != [] then Keys(es) else Keys(es) + [key]
  {
    SetsValue(es, key, value);
    LeavesOthers(es, key, value, other);
    SetsKeys(es, key, value);
  }

  lemma SetsValue(es: seq<Entry>, key: string, value: string)
    ensures ValueOf(AddEntry(es, key, value), key) == [value]
  {
    FirstIs(AddEntry(es, key, value), key, EntryAt(es, key));
  }

  lemma LeavesOthers(es: seq<Entry>, key: string, value: string, other: string)
    ensures other != key ==> ValueOf(AddEntry(es, key, value), other) == ValueOf(es, other)
  {
    var k := EntryAt(es, other);
    if other != key && k < |es| { FirstIs(AddEntry(es, key, value), other, k); }
  }

  lemma SetsKeys(es: seq<Entry>, key: string, value: string)
    ensures Keys(AddEntry(es, key, value)) == if ValueOf(es, key) != [] then Keys(es) else Keys(es) + [key]
  {
    var es' := AddEntry(es, key, value);
    assert forall j :: 0 <= j < |es'| ==> Keys(es')[j] == es'[j].key;
  }

  /** A line for a key makes the line just before for the same key as if it had not been there. */
  lemma LaterLineWins(r: Reading, key: string, v: string, w: string)
    requires PlaceOk(r.c, r.at) && KeyOk(key) && ValueOk(v) && ValueOk(w)
    ensures ReadLine(ReadLine(r, EntryLine(Entry(key, v))), EntryLine(Entry(key, w))) == ReadLine(r, EntryLine(Entry(key, w)))
  {
    var r1 := AddTo(r, key, v);
    ReadEntryLine(r, Entry(key, v));
    ReadEntryLine(r1, Entry(key, w));
    ReadEntryLine(r, Entry(key, w));
    var es := Here(r);
    AddToHere(r, Entry(key, v));
    AddToHere(r, Entry(key, w));
    WithHereTwice(r, AddEntry(es, key, v), AddEntry(AddEntry(es, key, v), key, w));
    AddToHere(r1, Entry(key, w));
    FirstIs(AddEntry(es, key, v), key, EntryAt(es, key));
    assert AddEntry(AddEntry(es, key, v), key, w) == AddEntry(es, key, w);
  }

  /** A header opens the section of its name, an existing one if there is one. */
  lemma HeaderReopens(r: Reading, name: string)
    requires PlaceOk(r.c, r.at) && NameOk(name)
    ensures var r' := ReadLine(r, "[" + name + "]");
            && r'.at.Named? && r'.at.i < |r'.c.sections| && r'.c.sections[r'.at.i].name == name
            && r'.c.global == r.c.global && r.c.sections <= r'.c.sections
            && (if exists s :: s in r.c.sections && s.name == name then r'.c == r.c
                else r'.c.sections == r.c.sections + [Section(name, [])])
            && ReadLine(r', "[" + name + "]") == r'
  {
    ReadHeaderLine(r, name);
    var r' := OpenSection(r, name);
    ReadHeaderLine(r', name);
    var i := SectionAt(r.c.sections, name);
    if i < |r.c.sections| { assert r.c.sections[i] in r.c.sections; }
  }

  /** Comments say nothing, whatever white space is before them. */
  lemma CommentsSayNothing(r: Reading, white: string, mark: char, text: string)
    requires PlaceOk(r.c, r.at) && AllSpace(white) && mark in {'#', ';'}
    ensures ReadLine(r, white + [mark] + text) == r
  {
    var line, body := white + [mark] + text, [mark] + text;
    assert line == white + body;
    TrimLeftOf(white, body);
    TrimPart(body);
    assert Trim(body) == TrimRight(TrimLeft(body)) == TrimRight(body);
  }

  lemma {:induction false} JoinedAppend(a: seq<string>, b: seq<string>)
    ensures Joined(a + b) == Joined(a) + Joined(b)
  {
    if a == [] {
      assert a + b == b;
    } else {
      assert (a + b)[1..] == a[1..] + b;
      JoinedAppend(a[1..], b);
    }
  }

  lemma {:induction false} EntryLinesNext(es: seq<Entry>, i: nat)
    requires i < |es|
    ensures EntryLines(es[..i + 1]) == EntryLines(es[..i]) + [EntryLine(es[i])]
  {
    if i > 0 {
      EntryLinesNext(es[1..], i - 1);
      assert es[..i + 1][1..] == es[1..][..i] && es[..i][1..] == es[1..][..i - 1];
    }
  }

  lemma {:induction false} SectionLinesNext(ss: seq<Section>, i: nat)
    requires i < |ss|
    ensures SectionLines(ss[..i + 1])
            == SectionLines(ss[..i]) + LinesOf(ss[i])
  {
    if i > 0 {
      SectionLinesNext(ss[1..], i - 1);
      assert ss[..i + 1][1..] == ss[1..][..i] && ss[..i][1..] == ss[1..][..i - 1];
    }
  }

  // ---------------------------------------------------------------------------
  // The configuration object
  // ---------------------------------------------------------------------------

  class Config {
    var global: seq<Entry>
    var sections: seq<Section>

    function Value(): Ini
      reads this
    {
      Ini(global, sections)
    }

    constructor ()
      ensures Value() == Ini([], [])
    {
      global, sections := [], [];
    }

    method FindEntry(es: seq<Entry>, key: string) returns (i: nat)
      ensures i == EntryAt(es, key)
    {
      i := 0;
      while i < |es| && es[i].key != key
        invariant i <= |es| && EntryAt(es, key) == i + EntryAt(es[i..], key)
      {
        assert es[i..][1..] == es[i + 1..];
        i := i + 1;
      }
    }

    /** Sets a key of a section, at its place if it is there, at the end if not. */
    method SetEntry(at: Place, key: string, value: string)
      requires PlaceOk(Value(), at)
      modifies this
      ensures Reading(Value(), at) == AddTo(Reading(old(Value()), at), key, value)
    {
      var es := if at.Global? then global else sections[at.i].entries;
      var i := FindEntry(es, key);
      es := if i < |es| then es[i := Entry(key, value)] else es + [Entry(key, value)];
      match at
      case Global => global := es;
      case Named(k) => sections := sections[k := sections[k].(entries := es)];
    }

    /** Finds a section, or makes it at the end of the list. */
    method CreateSection(name: string) returns (at: Place)
      modifies this`sections
      ensures Reading(Value(), at) == OpenSection(Reading(old(Value()), Global), name)
    {
      if name == "" { return Global; }
      var i := 0;
      while i < |sections| && sections[i].name != name
        invariant i <= |sections| && SectionAt(sections, name) == i + SectionAt(sections[i..], name)
      {
        assert sections[i..][1..] == sections[i + 1..];
        i := i + 1;
      }
      if i == |sections| { sections := sections + [Section(name, [])]; }
      at := Named(i);
    }

    method TakeLine(cur: Place, line: string) returns (at: Place)
      requires PlaceOk(Value(), cur)
      modifies this
      ensures Reading(Value(), at) == ReadLine(Reading(old(Value()), cur), line)
    {
      at := cur;
      var p := TrimString(line);
      if p != "" && p[0] != '#' && p[0] != ';' {
        if p[0] == '[' {
          var end := FindChar(p, ']');
          if end < |p| {
            var name := TrimString(p[1..end]);
            at := CreateSection(name);
          }
        } else {
          var eq := FindChar(p, '=');
          if eq < |p| {
            var key := TrimString(p[..eq]);
            var value := TrimString(p[eq + 1..]);
            SetEntry(cur, key, value);
          }
        }
      }
    }

    /** Reads a text into the empty configuration, line by line. */
    method LoadString(text: string)
      requires Value() == Ini([], [])
      modifies this
      ensures Value() == Load(text)
    {
      var at, rest := Global, text;
      while rest != ""
        invariant PlaceOk(Value(), at) && ReadText(Reading(Value(), at), rest).c == Load(text)
        decreases |rest|
      {
        var i := FindChar(rest, '\n');
        at := TakeLine(at, rest[..i]);
        rest := if i < |rest| then rest[i + 1..] else "";
      }
    }

    method PrintEntries(es: seq<Entry>) returns (out: string)
      ensures out == Joined(EntryLines(es))
    {
      out := "";
      var i := 0;
      while i < |es|
        invariant i <= |es| && out == Joined(EntryLines(es[..i]))
      {
        EntryLinesNext(es, i);
        JoinedAppend(EntryLines(es[..i]), [EntryLine(es[i])]);
        out := out + (es[i].key + " = " + es[i].value + "\n");
        i := i + 1;
      }
      assert es[..i] == es;
    }

    method PrintSection(s: Section) returns (out: string)
      ensures out == Joined(LinesOf(s))
    {
      var header := "[" + s.name + "]";
      var body := PrintEntries(s.entries);
      HeaderJoined(header);
      JoinedAppend(["", header], EntryLines(s.entries));
      out := "\n" + header + "\n" + body;
    }

    /** Prints the configuration, section by section and entry by entry. */
    method PrintTo() returns (out: string)
      ensures out == Print(Value())
    {
      out := PrintEntries(global);
      ghost var first := out;
      var i := 0;
      while i < |sections|
        invariant i <= |sections| && out == first + Joined(SectionLines(sections[..i]))
      {
        var one := PrintSection(sections[i]);
        SectionLinesNext(sections, i);
        JoinedAppend(SectionLines(sections[..i]), LinesOf(sections[i]));
        out := out + one;
        i := i + 1;
      }
      assert sections[..i] == sections;
      JoinedAppend(EntryLines(global), SectionLines(sections));
    }
  }

  lemma HeaderJoined(h: string)
    ensures Joined(["", h]) == "\n" + h + "\n"
  {
    assert ["", h][1..] == [h] && [h][1..] == [];
    assert Joined([h]) == h + "\n" + Joined([]);
  }
}
