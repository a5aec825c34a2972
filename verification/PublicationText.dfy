/**
 What the text of a publication declaration means, said of its lines and without a parser: which lines
 are ignored, what each of the others declares, and when a text is accepted and for what.
 */
module PublicationText {
  import opened Feed
  import opened Policy
  import opened PublicationParser
  import opened Strings

  // --- trimming ---------------------------------------------------------------------------------

  predicate AllSpace(s: string) {
    forall i :: 0 <= i < |s| ==> IsSpace(s[i])
  }

  lemma {:induction false} TrimLeftIs(s: string) returns (left: string)
    ensures s == left + TrimLeft(s) && AllSpace(left)
    decreases |s|
  {
    if s != [] && IsSpace(s[0]) {
      var rest := TrimLeftIs(s[1..]);
      left := [s[0]] + rest;
      assert s == [s[0]] + s[1..];
    } else {
      left := [];
    }
  }

  lemma {:induction false} TrimRightIs(s: string) returns (right: string)
    ensures s == TrimRight(s) + right && AllSpace(right)
    decreases |s|
  {
    if s != [] && IsSpace(s[|s| - 1]) {
      var rest := TrimRightIs(s[..|s| - 1]);
      right := rest + [s[|s| - 1]];
      assert s == s[..|s| - 1] + [s[|s| - 1]];
    } else {
      right := [];
    }
  }

  /** Trimming takes white space off both ends and nothing else, and leaves none there. */
  lemma TrimIs(s: string) returns (left: string, right: string)
    ensures s == left + TrimSpace(s) + right && AllSpace(left) && AllSpace(right) && Tight(TrimSpace(s))
  {
    left := TrimLeftIs(s);
    right := TrimRightIs(TrimLeft(s));
    TrimKeeps(s);
  }

  // --- lines ------------------------------------------------------------------------------------

  /** A blank line, or one whose first character that is not white space is `#`. */
  ghost predicate Ignored(line: string) {
    AllSpace(line) || exists i :: 0 <= i < |line| && line[i] == '#' && AllSpace(line[..i])
  }

  lemma IgnoredIff(line: string)
    ensures Ignored(line) <==> TrimSpace(line) == "" || HasPrefix(TrimSpace(line), "#")
  {
    var left, right := TrimIs(line);
    var m := TrimSpace(line);
    hide TrimSpace;
    if m == "" {
      assert line == left + right;
    } else {
      var k := |left|;
      assert line[k] == m[0] && line[..k] == left && !IsSpace(line[k]);
      forall i | 0 <= i < |line| && line[i] == '#' && AllSpace(line[..i])
        ensures i == k
      {
        OnlyFirst(line, i, k);
      }
    }
  }

  /** Only one character is the first that is not white space. */
  lemma OnlyFirst(line: string, i: nat, k: nat)
    requires i < |line| && k < |line| && AllSpace(line[..i]) && AllSpace(line[..k])
    requires !IsSpace(line[i]) && !IsSpace(line[k])
    ensures i == k
  {
    if k < i {
      SpaceBelow(line, i, k);
    } else if i < k {
      SpaceBelow(line, k, i);
    }
  }

  lemma SpaceBelow(line: string, i: nat, k: nat)
    requires k < i <= |line| && AllSpace(line[..i])
    ensures IsSpace(line[k])
  {
    assert line[..i][k] == line[k];
  }

  /** A name the database could have created: ASCII letters, digits and underscores, and at least one. */
  lemma IdentifierIff(s: string)
    ensures IsIdentifier(s) <==>
            s != "" && forall i :: 0 <= i < |s| ==>
              var n := s[i] as int; 48 <= n <= 57 || 65 <= n <= 90 || n == 95 || 97 <= n <= 122
  {
  }

  /** What a line declares. */
  datatype Declaration =
    | Nothing
    | Heads(name: string)
    | Excludes(table: string)
    | Publishes(table: string, columns: set<string>)

  /** The word alone, or followed by a space; `rest` is what follows it, trimmed. */
  ghost predicate Keyword(line: string, word: string, rest: string) {
    exists tail :: TrimSpace(line) == word + tail && (tail == "" || tail[0] == ' ') && rest == TrimSpace(tail)
  }

  predicate StartsWith(line: string, word: string) {
    TrimSpace(line) == word || word + " " <= TrimSpace(line)
  }

  function Trimmed(parts: seq<string>): set<string> {
    set i | 0 <= i < |parts| :: TrimSpace(parts[i])
  }

  /** The table, a colon, and its columns separated by commas, each an identifier and each once. */
  ghost predicate ListsAs(line: string, table: string, columns: set<string>, head: string, parts: seq<string>) {
    && TrimSpace(line) == head + ":" + Join(parts, ',') && ':' !in head && TrimSpace(head) == table
    && IsIdentifier(table) && parts != []
    && (forall i :: 0 <= i < |parts| ==> ',' !in parts[i] && IsIdentifier(TrimSpace(parts[i])))
    && (forall i, j :: 0 <= i < j < |parts| ==> TrimSpace(parts[i]) != TrimSpace(parts[j]))
    && columns == Trimmed(parts)
  }

  ghost predicate Lists(line: string, table: string, columns: set<string>) {
    exists head, parts :: ListsAs(line, table, columns, head, parts)
  }

  ghost predicate Says(line: string, d: Declaration) {
    match d
    case Nothing => Ignored(line)
    case Heads(name) => !Ignored(line) && Keyword(line, HEADER, name) && name != ""
    case Excludes(table) => !Ignored(line) && Keyword(line, EXCLUDE, table) && IsIdentifier(table)
    case Publishes(table, columns) =>
      !Ignored(line) && !StartsWith(line, HEADER) && !StartsWith(line, EXCLUDE) && Lists(line, table, columns)
  }

  // --- one line against the parser ----------------------------------------------------------------

  lemma {:induction false} JoinSplit(s: string, sep: char)
    ensures Join(Split(s, sep), sep) == s
    decreases |s|
  {
    if s != [] {
      JoinSplit(s[1..], sep);
      var r := Split(s[1..], sep);
      if s[0] == sep {
        assert ([[]] + r)[1..] == r;
        assert s == [] + [sep] + s[1..];
      } else if |r| > 1 {
        assert ([[s[0]] + r[0]] + r[1..])[1..] == r[1..];
        assert s == [s[0]] + (r[0] + [sep] + Join(r[1..], sep));
      } else {
        assert s == [s[0]] + r[0];
      }
    }
  }

  /** Columns are gathered exactly when each part is an identifier and none comes twice. */
  lemma {:induction false} GatheredIff(parts: seq<string>, columns: set<string>)
    ensures AddColumns(parts, columns).Some? <==>
            && (forall i :: 0 <= i < |parts| ==> IsIdentifier(TrimSpace(parts[i])) && TrimSpace(parts[i]) !in columns)
            && (forall i, j :: 0 <= i < j < |parts| ==> TrimSpace(parts[i]) != TrimSpace(parts[j]))
    ensures AddColumns(parts, columns).Some? ==>
              AddColumns(parts, columns).value == columns + Trimmed(parts)
    decreases |parts|
  {
    hide IsIdentifier, TrimSpace;
    if parts == [] {
      assert columns + Trimmed(parts) == columns;
    } else {
      var c, rest := TrimSpace(parts[0]), parts[1..];
      GatheredIff(rest, columns + {c});
      assert forall i :: 0 <= i < |rest| ==> rest[i] == parts[i + 1];
      assert forall i :: 0 < i < |parts| ==> parts[i] == rest[i - 1];
      assert Trimmed(parts) == {c} + Trimmed(rest);
    }
  }

  lemma CutIs(s: string, head: string, tail: string)
    requires s == head + ":" + tail && ':' !in head
    ensures Cut(s, ':') == (head, tail, true)
  {
    CutAt(head, tail, ':');
  }

  /** A table line is read exactly as what it lists. */
  lemma TableLineIff(d: Draft, raw: string, next: Draft)
    ensures TableLine(d, TrimSpace(raw)) == Some(next) <==>
            exists table, columns ::
              && Lists(raw, table, columns) && d.name != "" && table !in d.tables && table !in d.excluded
              && next == d.(tables := d.tables[table := columns])
  {
    hide TrimSpace, IsIdentifier, AddColumns, Cut, Split, Join;
    if TableLine(d, TrimSpace(raw)) == Some(next) {
      TableLineLists(d, raw, next);
    }
    if table, columns :| Lists(raw, table, columns) && d.name != "" && table !in d.tables && table !in d.excluded &&
                         next == d.(tables := d.tables[table := columns]) {
      ListsIsRead(d, raw, table, columns);
    }
  }

  lemma TableLineLists(d: Draft, raw: string, next: Draft)
    requires TableLine(d, TrimSpace(raw)) == Some(next)
    ensures exists table, columns ::
              && Lists(raw, table, columns) && d.name != "" && table !in d.tables && table !in d.excluded
              && next == d.(tables := d.tables[table := columns])
  {
    hide TrimSpace, IsIdentifier, AddColumns, Cut, Split, Join;
    var (head, list, found) := Cut(TrimSpace(raw), ':');
    var parts := Split(list, ',');
    GatheredIff(parts, {});
    JoinSplit(list, ',');
    var columns := AddColumns(parts, {}).value;
    assert {} + Trimmed(parts) == Trimmed(parts);
    assert head + [':'] + list == head + ":" + list;
    assert ListsAs(raw, TrimSpace(head), columns, head, parts);
    assert Lists(raw, TrimSpace(head), columns);
  }

  lemma ListsIsRead(d: Draft, raw: string, table: string, columns: set<string>)
    requires Lists(raw, table, columns) && d.name != "" && table !in d.tables && table !in d.excluded
    ensures TableLine(d, TrimSpace(raw)) == Some(d.(tables := d.tables[table := columns]))
  {
    hide TrimSpace, IsIdentifier, AddColumns, Cut, Split, Join;
    var head, parts :| ListsAs(raw, table, columns, head, parts);
    CutIs(TrimSpace(raw), head, Join(parts, ','));
    SplitJoin(parts, ',');
    GatheredIff(parts, {});
    assert {} + Trimmed(parts) == Trimmed(parts);
    NotBlank(parts);
  }

  lemma {:induction false} TrimOfSpace(s: string)
    ensures TrimSpace(s) == "" <==> AllSpace(s)
  {
    var left, right := TrimIs(s);
    hide TrimSpace;
    if TrimSpace(s) == "" {
      assert s == left + right;
    } else {
      assert s[|left|] == TrimSpace(s)[0];
    }
  }

  /** A list with an identifier in it is not blank. */
  lemma NotBlank(parts: seq<string>)
    requires parts != [] && IsIdentifier(TrimSpace(parts[0]))
    ensures TrimSpace(Join(parts, ',')) != ""
  {
    TrimOfSpace(parts[0]);
    TrimOfSpace(Join(parts, ','));
    hide TrimSpace;
    if AllSpace(Join(parts, ',')) {
      PrefixOfSpace(parts[0], Join(parts, ','));
    }
  }

  lemma PrefixOfSpace(a: string, b: string)
    requires a <= b && AllSpace(b)
    ensures AllSpace(a)
  {
  }

  /** The header's or an exclusion's own word, and what follows it. */
  lemma KeywordIff(line: string, word: string)
    ensures StartsWith(line, word) ==>
              word <= TrimSpace(line) && Keyword(line, word, TrimSpace(TrimSpace(line)[|word|..]))
    ensures forall rest :: Keyword(line, word, rest) ==>
              StartsWith(line, word) && word <= TrimSpace(line) && rest == TrimSpace(TrimSpace(line)[|word|..])
  {
    var m := TrimSpace(line);
    hide TrimSpace;
    if StartsWith(line, word) {
      var tail := m[|word|..];
      assert m == word + tail;
      assert word + " " <= m ==> tail[0] == (word + " ")[|word|];
    }
    forall rest | Keyword(line, word, rest)
      ensures StartsWith(line, word) && word <= m && rest == TrimSpace(m[|word|..])
    {
      var tail :| m == word + tail && (tail == "" || tail[0] == ' ') && rest == TrimSpace(tail);
      assert m[|word|..] == tail;
      assert tail != "" ==> word + " " == m[..|word| + 1];
    }
  }

  /** A draft that can take a declaration: a header first and once, and no table decided twice. */
  predicate Allows(d: Draft, s: Declaration) {
    match s
    case Nothing => true
    case Heads(_) => d.name == ""
    case Excludes(table) => d.name != "" && table !in d.tables && table !in d.excluded
    case Publishes(table, _) => d.name != "" && table !in d.tables && table !in d.excluded
  }

  function Take(d: Draft, s: Declaration): Draft {
    match s
    case Nothing => d
    case Heads(name) => d.(name := name)
    case Excludes(table) => d.(excluded := d.excluded + {table})
    case Publishes(table, columns) => d.(tables := d.tables[table := columns])
  }

  lemma NotBothWords(line: string)
    ensures !(StartsWith(line, HEADER) && StartsWith(line, EXCLUDE))
  {
    hide TrimSpace;
    FirstLetter(line, HEADER);
    FirstLetter(line, EXCLUDE);
  }

  lemma FirstLetter(line: string, word: string)
    requires word != ""
    ensures StartsWith(line, word) ==> TrimSpace(line) != "" && TrimSpace(line)[0] == word[0]
  {
    hide TrimSpace;
    assert (word + " ")[0] == word[0];
  }

  /** A line is read exactly as something it says and the draft allows. */
  lemma LineSays(d: Draft, raw: string) returns (s: Declaration)
    requires ReadLine(d, raw).Some?
    ensures Says(raw, s) && Allows(d, s) && ReadLine(d, raw) == Some(Take(d, s))
  {
    hide TrimSpace, IsIdentifier, TableLine, Lists, Ignored, Keyword;
    var line := TrimSpace(raw);
    IgnoredIff(raw);
    KeywordIff(raw, HEADER);
    KeywordIff(raw, EXCLUDE);
    NotBothWords(raw);
    if Ignored(raw) {
      s := Nothing;
    } else if StartsWith(raw, HEADER) {
      s := Heads(TrimSpace(line[|HEADER|..]));
    } else if StartsWith(raw, EXCLUDE) {
      s := Excludes(TrimSpace(line[|EXCLUDE|..]));
    } else {
      var next := ReadLine(d, raw).value;
      TableLineIff(d, raw, next);
      var table, columns :| Lists(raw, table, columns) && d.name != "" && table !in d.tables && table !in d.excluded &&
                            next == d.(tables := d.tables[table := columns]);
      s := Publishes(table, columns);
    }
  }

  lemma SaysIsRead(d: Draft, raw: string, s: Declaration)
    requires Says(raw, s) && Allows(d, s)
    ensures ReadLine(d, raw) == Some(Take(d, s))
  {
    hide TrimSpace, IsIdentifier, TableLine, Lists, Ignored, Keyword;
    IgnoredIff(raw);
    KeywordIff(raw, HEADER);
    KeywordIff(raw, EXCLUDE);
    NotBothWords(raw);
    if s.Publishes? {
      ListsIsRead(d, raw, s.table, s.columns);
    }
  }

  // --- the lines after the header -------------------------------------------------------------------

  predicate Decides(s: Declaration) {
    s.Excludes? || s.Publishes?
  }

  /** No table is published or excluded twice. */
  ghost predicate DecidedOnce(ss: seq<Declaration>) {
    forall i, j :: 0 <= i < j < |ss| && Decides(ss[i]) && Decides(ss[j]) ==> ss[i].table != ss[j].table
  }

  ghost predicate AllSay(lines: seq<string>, ss: seq<Declaration>) {
    |ss| == |lines| && forall i :: 0 <= i < |lines| ==> Says(lines[i], ss[i])
  }

  ghost predicate NoHeader(ss: seq<Declaration>) {
    forall s :: s in ss ==> !s.Heads?
  }

  predicate Maps(tables: map<string, set<string>>, t: string, columns: set<string>) {
    t in tables && tables[t] == columns
  }

  /** The tables of one map are those of another and the published ones, and so with the exclusions. */
  ghost predicate Gains(d: Draft, ss: seq<Declaration>, next: Draft) {
    && next.name == d.name
    && (forall t, cs :: Maps(next.tables, t, cs) <==> Maps(d.tables, t, cs) || Publishes(t, cs) in ss)
    && (forall t :: t in next.excluded <==> t in d.excluded || Excludes(t) in ss)
  }

  ghost predicate NewTo(d: Draft, ss: seq<Declaration>) {
    forall s :: s in ss && Decides(s) ==> s.table !in d.tables && s.table !in d.excluded
  }

  ghost predicate Continues(d: Draft, lines: seq<string>, ss: seq<Declaration>, next: Draft) {
    AllSay(lines, ss) && NoHeader(ss) && DecidedOnce(ss) && NewTo(d, ss) && Gains(d, ss, next)
  }

  lemma {:induction false} RestSays(d: Draft, lines: seq<string>) returns (ss: seq<Declaration>)
    requires d.name != "" && ReadLines(d, lines).Some?
    ensures Continues(d, lines, ss, ReadLines(d, lines).value)
    decreases |lines|
  {
    hide ReadLine, Says;
    if lines == [] {
      ss := [];
    } else {
      var s := LineSays(d, lines[0]);
      var rest := RestSays(Take(d, s), lines[1..]);
      ss := [s] + rest;
      OneMore(d, s, rest, lines, ReadLines(d, lines).value);
    }
  }

  lemma OneMore(d: Draft, s: Declaration, rest: seq<Declaration>, lines: seq<string>, next: Draft)
    requires d.name != "" && lines != [] && Says(lines[0], s) && Allows(d, s)
    requires Continues(Take(d, s), lines[1..], rest, next)
    ensures Continues(d, lines, [s] + rest, next)
  {
    hide Says;
    var ss := [s] + rest;
    forall i | 0 <= i < |lines|
      ensures Says(lines[i], ss[i])
    {
      assert i > 0 ==> lines[i] == lines[1..][i - 1];
    }
    forall i, j | 0 <= i < j < |ss| && Decides(ss[i]) && Decides(ss[j])
      ensures ss[i].table != ss[j].table
    {
      assert ss[j] in rest;
    }
    assert forall x :: x in ss <==> x == s || x in rest;
  }

  lemma {:induction false} SaidIsRead(d: Draft, lines: seq<string>, ss: seq<Declaration>, next: Draft)
    requires d.name != "" && Continues(d, lines, ss, next)
    ensures ReadLines(d, lines) == Some(next)
    decreases |lines|
  {
    hide ReadLine, Says;
    if lines == [] {
      SameTables(next.tables, d.tables);
      assert next.excluded == d.excluded;
    } else {
      var s, rest := ss[0], ss[1..];
      assert s in ss && ss == [s] + rest;
      SaysIsRead(d, lines[0], s);
      OneLess(d, lines, ss, next);
      SaidIsRead(Take(d, s), lines[1..], rest, next);
    }
  }

  lemma SameTables(a: map<string, set<string>>, b: map<string, set<string>>)
    requires forall t, cs :: Maps(a, t, cs) <==> Maps(b, t, cs)
    ensures a == b
  {
    assert forall t :: t in a ==> Maps(a, t, a[t]);
    assert forall t :: t in b ==> Maps(b, t, b[t]);
  }

  lemma OneLess(d: Draft, lines: seq<string>, ss: seq<Declaration>, next: Draft)
    requires d.name != "" && lines != [] && Continues(d, lines, ss, next)
    ensures Continues(Take(d, ss[0]), lines[1..], ss[1..], next)
  {
    SayLess(lines, ss);
    DecideLess(ss);
    assert ss == [ss[0]] + ss[1..] && ss[0] in ss;
    assert !ss[0].Heads?;
    hide *;
    TakenGains(d, ss[0], ss[1..], next);
  }

  lemma SayLess(lines: seq<string>, ss: seq<Declaration>)
    requires lines != [] && AllSay(lines, ss) && NoHeader(ss)
    ensures AllSay(lines[1..], ss[1..]) && NoHeader(ss[1..])
  {
    hide Says;
    assert forall i :: 0 <= i < |ss[1..]| ==> ss[1..][i] == ss[i + 1] && lines[1..][i] == lines[i + 1];
  }

  lemma DecideLess(ss: seq<Declaration>)
    requires ss != [] && DecidedOnce(ss)
    ensures DecidedOnce(ss[1..])
    ensures forall x :: x in ss[1..] && Decides(x) && Decides(ss[0]) ==> x.table != ss[0].table
  {
    var rest := ss[1..];
    assert forall i :: 0 <= i < |rest| ==> rest[i] == ss[i + 1];
    forall x | x in rest && Decides(x) && Decides(ss[0])
      ensures x.table != ss[0].table
    {
      var j :| 0 <= j < |rest| && rest[j] == x;
      assert ss[j + 1] == x;
    }
  }

  lemma TakenGains(d: Draft, s: Declaration, rest: seq<Declaration>, next: Draft)
    requires !s.Heads? && NewTo(d, [s] + rest) && Gains(d, [s] + rest, next)
    requires forall x :: x in rest && Decides(x) && Decides(s) ==> x.table != s.table
    ensures NewTo(Take(d, s), rest) && Gains(Take(d, s), rest, next)
  {
    var ss := [s] + rest;
    assert forall x :: x in ss <==> x == s || x in rest;
  }

  // --- whole texts ----------------------------------------------------------------------------------

  /** The one header, with nothing ahead of it. */
  ghost predicate HeadedAt(ss: seq<Declaration>, name: string, h: nat) {
    && h < |ss| && ss[h] == Heads(name)
    && (forall i :: 0 <= i < h ==> ss[i] == Nothing) && (forall i :: h < i < |ss| ==> !ss[i].Heads?)
  }

  /**
   What lines mean: one header ahead of everything else that is not ignored, no table decided twice, at
   least one published, each with exactly the columns its line lists, and the excluded ones excluded.
   */
  ghost predicate Means(lines: seq<string>, ss: seq<Declaration>, p: Publication) {
    && AllSay(lines, ss) && (exists h: nat :: HeadedAt(ss, p.name, h)) && DecidedOnce(ss) && p.tables != map[]
    && (forall t, cs :: Maps(p.tables, t, cs) <==> Publishes(t, cs) in ss)
    && (forall t :: t in p.excluded <==> Excludes(t) in ss)
  }

  const EMPTY := Draft("", map[], {})

  ghost predicate Starts(lines: seq<string>, ss: seq<Declaration>, d: Draft) {
    && AllSay(lines, ss) && (exists h: nat :: HeadedAt(ss, d.name, h)) && DecidedOnce(ss)
    && Gains(EMPTY.(name := d.name), ss, d)
  }

  lemma Ahead(lines: seq<string>, s: Declaration, rest: seq<Declaration>, d: Draft)
    requires lines != [] && Says(lines[0], s) && s == Nothing && Starts(lines[1..], rest, d)
    ensures Starts(lines, [s] + rest, d)
  {
    hide Says;
    var ss := [s] + rest;
    var h: nat :| HeadedAt(rest, d.name, h);
    assert HeadedAt(ss, d.name, h + 1) by {
      assert forall i :: 0 < i < |ss| ==> ss[i] == rest[i - 1];
    }
    assert AllSay(lines, ss) by {
      assert forall i :: 0 < i < |ss| ==> ss[i] == rest[i - 1] && lines[i] == lines[1..][i - 1];
    }
    assert forall x :: x in ss <==> x == s || x in rest;
  }

  lemma AtHeader(lines: seq<string>, name: string, rest: seq<Declaration>, d: Draft)
    requires lines != [] && Says(lines[0], Heads(name)) && Continues(EMPTY.(name := name), lines[1..], rest, d)
    ensures Starts(lines, [Heads(name)] + rest, d)
  {
    hide Says;
    var ss := [Heads(name)] + rest;
    assert HeadedAt(ss, d.name, 0) by {
      assert forall i :: 0 < i < |ss| ==> ss[i] == rest[i - 1] && ss[i] in rest;
    }
    assert AllSay(lines, ss) by {
      assert forall i :: 0 < i < |ss| ==> ss[i] == rest[i - 1] && lines[i] == lines[1..][i - 1];
    }
    assert forall x :: x in ss <==> x == Heads(name) || x in rest;
  }

  lemma {:induction false} TextSays(lines: seq<string>) returns (ss: seq<Declaration>)
    requires ReadLines(EMPTY, lines).Some? && ReadLines(EMPTY, lines).value.name != ""
    ensures Starts(lines, ss, ReadLines(EMPTY, lines).value)
    decreases |lines|
  {
    hide ReadLine, Says, Starts, Continues;
    var s := LineSays(EMPTY, lines[0]);
    if s == Nothing {
      var rest := TextSays(lines[1..]);
      ss := [s] + rest;
      Ahead(lines, s, rest, ReadLines(EMPTY, lines).value);
    } else {
      NamedByHeader(s, lines[0]);
      var rest := RestSays(Take(EMPTY, s), lines[1..]);
      ss := [s] + rest;
      AtHeader(lines, s.name, rest, ReadLines(EMPTY, lines).value);
    }
  }

  lemma NamedByHeader(s: Declaration, line: string)
    requires Says(line, s) && Allows(EMPTY, s) && s != Nothing
    ensures s.Heads? && s.name != ""
  {
  }

  lemma {:induction false} TextIsRead(lines: seq<string>, ss: seq<Declaration>, d: Draft)
    requires Starts(lines, ss, d)
    ensures ReadLines(EMPTY, lines) == Some(d) && d.name != ""
    decreases |lines|
  {
    hide ReadLine, Says;
    var h: nat :| HeadedAt(ss, d.name, h);
    var s, rest := ss[0], ss[1..];
    assert Says(lines[0], s) && Says(lines[h], ss[h]);
    NamedBy(lines[h], d.name);
    assert forall x :: x in ss <==> x == s || x in rest;
    assert forall i :: 0 <= i < |rest| ==> rest[i] == ss[i + 1] && lines[1..][i] == lines[i + 1];
    SaysIsRead(EMPTY, lines[0], s);
    if h == 0 {
      assert Continues(EMPTY.(name := d.name), lines[1..], rest, d) by {
        assert forall x :: x in rest ==> exists i :: 0 <= i < |rest| && rest[i] == x;
      }
      SaidIsRead(EMPTY.(name := d.name), lines[1..], rest, d);
    } else {
      assert HeadedAt(rest, d.name, h - 1);
      TextIsRead(lines[1..], rest, d);
    }
  }

  lemma NamedBy(line: string, name: string)
    requires Says(line, Heads(name))
    ensures name != ""
  {
  }

  /**
   A text is accepted as a publication exactly when its lines mean it: so a comment, a blank line or the
   white space around a name never says anything, and every other line says exactly what it lists.
   */
  lemma AcceptedIff(text: string, p: Publication)
    ensures Parse(text) == Some(p) <==> exists ss :: Means(Split(text, '\n'), ss, p)
  {
    var lines := Split(text, '\n');
    hide ReadLines, Split, Says;
    if Parse(text) == Some(p) {
      var ss := TextSays(lines);
      assert Means(lines, ss, p);
    }
    if ss :| Means(lines, ss, p) {
      var d := Draft(p.name, p.tables, p.excluded);
      TextIsRead(lines, ss, d);
      assert Means(Split(text, '\n'), ss, p);
    }
  }

  /** An accepted text publishes a table with a set of columns exactly when a line of it lists that. */
  lemma PublishesIff(text: string, table: string, columns: set<string>)
    requires Parse(text).Some?
    ensures var p := Parse(text).value; var lines := Split(text, '\n');
            && (Maps(p.tables, table, columns) <==>
                exists i :: 0 <= i < |lines| && Says(lines[i], Publishes(table, columns)))
            && (table in p.excluded <==> exists i :: 0 <= i < |lines| && Says(lines[i], Excludes(table)))
            && (forall name :: p.name == name <==> exists i :: 0 <= i < |lines| && Says(lines[i], Heads(name)))
  {
    hide Parse, Split, Lists, Ignored, Keyword;
    var p, lines := Parse(text).value, Split(text, '\n');
    AcceptedIff(text, p);
    var ss :| Means(lines, ss, p);
    var h: nat :| HeadedAt(ss, p.name, h);
    assert Says(lines[h], ss[h]);
    forall i, s | 0 <= i < |lines| && Says(lines[i], s)
      ensures s == ss[i]
    {
      SaysOneThing(lines[i], s, ss[i]);
    }
  }

  lemma SaysOneThing(line: string, a: Declaration, b: Declaration)
    requires Says(line, a) && Says(line, b)
    ensures a == b
  {
    hide Ignored, Keyword, Lists, StartsWith, IsIdentifier, TrimSpace;
    KeywordIff(line, HEADER);
    KeywordIff(line, EXCLUDE);
    NotBothWords(line);
    if a.Publishes? && b.Publishes? {
      var d := Draft("p", map[], {});
      ListsIsRead(d, line, a.table, a.columns);
      ListsIsRead(d, line, b.table, b.columns);
      assert d.tables[a.table := a.columns] == d.tables[b.table := b.columns];
      assert a.table in d.tables[b.table := b.columns];
    }
  }

  // --- what can be left out ---------------------------------------------------------------------------

  /** The lines that are not ignored, trimmed. */
  ghost function Kept(lines: seq<string>): (r: seq<string>)
    requires forall i :: 0 <= i < |lines| ==> '\n' !in lines[i]
    ensures forall i :: 0 <= i < |r| ==> '\n' !in r[i]
  {
    if lines == [] then []
    else if Ignored(lines[0]) then Kept(lines[1..])
    else TrimKeeps(lines[0]); [TrimSpace(lines[0])] + Kept(lines[1..])
  }

  /** The text with every blank line and comment deleted and the others trimmed. */
  ghost function Cleaned(text: string): string {
    Join(Kept(Split(text, '\n')), '\n')
  }

  lemma {:induction false} KeptReadsTheSame(d: Draft, lines: seq<string>)
    requires forall i :: 0 <= i < |lines| ==> '\n' !in lines[i]
    ensures ReadLines(d, Kept(lines)) == ReadLines(d, lines)
    decreases |lines|
  {
    hide TrimSpace, HeaderLine, ExcludeLine, TableLine, Ignored;
    if lines != [] {
      IgnoredIff(lines[0]);
      TrimKeeps(lines[0]);
      TrimTight(TrimSpace(lines[0]));
      match ReadLine(d, lines[0]) {
        case None =>
        case Some(next) => KeptReadsTheSame(next, lines[1..]);
      }
    }
  }

  /** Deleting every blank line and every comment and trimming the rest never changes what a text means. */
  lemma CleanedMeansTheSame(text: string)
    ensures Parse(Cleaned(text)) == Parse(text)
  {
    var lines := Split(text, '\n');
    hide ReadLine, Kept;
    KeptReadsTheSame(EMPTY, lines);
    if Kept(lines) == [] {
      BlankSaysNothing();
    } else {
      SplitJoin(Kept(lines), '\n');
    }
  }

  lemma BlankSaysNothing()
    ensures Split(Join([], '\n'), '\n') == [""] && ReadLines(EMPTY, [""]) == ReadLines(EMPTY, [])
  {
    assert ReadLine(EMPTY, "") == Some(EMPTY);
  }
}
