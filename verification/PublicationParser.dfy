/**
 The publication declaration: a line parser that refuses every malformed shape, and the canonical
 rendering it reads back unchanged.
 */
module PublicationParser {
  import opened Feed
  import opened Policy
  import opened Strings

  /** What the lines read so far declare; no header yet is the empty name. */
  datatype Draft = Draft(name: string, tables: map<string, set<string>>, excluded: set<string>)

  const HEADER := "publication"
  const EXCLUDE := "exclude"

  function AddColumns(parts: seq<string>, columns: set<string>): Option<set<string>> {
    if parts == [] then Some(columns)
    else
      var column := TrimSpace(parts[0]);
      if !IsIdentifier(column) || column in columns then None
      else AddColumns(parts[1..], columns + {column})
  }

  function HeaderLine(d: Draft, line: string): Option<Draft>
    requires HEADER <= line
  {
    var name := TrimSpace(line[|HEADER|..]);
    if name == "" || d.name != "" then None else Some(d.(name := name))
  }

  function ExcludeLine(d: Draft, line: string): Option<Draft>
    requires EXCLUDE <= line
  {
    var table := TrimSpace(line[|EXCLUDE|..]);
    if !IsIdentifier(table) || d.name == "" || table in d.tables || table in d.excluded then None
    else Some(d.(excluded := d.excluded + {table}))
  }

  function TableLine(d: Draft, line: string): Option<Draft> {
    var (head, columns, found) := Cut(line, ':');
    var table := TrimSpace(head);
    if !found || !IsIdentifier(table) || d.name == "" || table in d.tables || table in d.excluded then None
    else if TrimSpace(columns) == "" then None
    else
      match AddColumns(Split(columns, ','), {})
      case None => None
      case Some(set_) => Some(d.(tables := d.tables[table := set_]))
  }

  function ReadLine(d: Draft, raw: string): Option<Draft> {
    var line := TrimSpace(raw);
    if line == "" || HasPrefix(line, "#") then Some(d)
    else if line == HEADER || HasPrefix(line, HEADER + " ") then HeaderLine(d, line)
    else if line == EXCLUDE || HasPrefix(line, EXCLUDE + " ") then ExcludeLine(d, line)
    else TableLine(d, line)
  }

  function ReadLines(d: Draft, lines: seq<string>): Option<Draft>
    decreases |lines|
  {
    if lines == [] then Some(d)
    else
      match ReadLine(d, lines[0])
      case None => None
      case Some(next) => ReadLines(next, lines[1..])
  }

  function Parse(text: string): Option<Publication> {
    match ReadLines(Draft("", map[], {}), Split(text, '\n'))
    case None => None
    case Some(d) =>
      if d.name == "" || d.tables == map[] then None else Some(Publication(d.name, d.tables, d.excluded))
  }

  /** The parser as it runs: a name and two collections filled line by line. */
  method ParsePublication(text: string) returns (result: Option<Publication>)
    ensures result == Parse(text)
  {
    var lines := Split(text, '\n');
    var name, tables, excluded := "", map[], {};
    for i := 0 to |lines|
      invariant ReadLines(Draft("", map[], {}), lines) == ReadLines(Draft(name, tables, excluded), lines[i..])
    {
      assert lines[i..][0] == lines[i] && lines[i..][1..] == lines[i + 1..];
      var line := TrimSpace(lines[i]);
      if line == "" || HasPrefix(line, "#") {
        continue;
      }
      if line == HEADER || HasPrefix(line, HEADER + " ") {
        var decl := TrimSpace(line[|HEADER|..]);
        if decl == "" || name != "" {
          return None;
        }
        name := decl;
        continue;
      }
      if line == EXCLUDE || HasPrefix(line, EXCLUDE + " ") {
        var table := TrimSpace(line[|EXCLUDE|..]);
        if !IsIdentifier(table) || name == "" || table in tables || table in excluded {
          return None;
        }
        excluded := excluded + {table};
        continue;
      }
      var columns := TableColumns(name, tables, excluded, line);
      if columns.None? {
        return None;
      }
      tables := tables[TrimSpace(Cut(line, ':').0) := columns.value];
    }
    if name == "" || tables == map[] {
      return None;
    }
    return Some(Publication(name, tables, excluded));
  }

  /** A `table: column, column` line, its columns gathered one by one. */
  method TableColumns(name: string, tables: map<string, set<string>>, excluded: set<string>, line: string)
    returns (columns: Option<set<string>>)
    ensures columns.None? <==> TableLine(Draft(name, tables, excluded), line).None?
    ensures columns.Some? ==>
      TableLine(Draft(name, tables, excluded), line) ==
      Some(Draft(name, tables[TrimSpace(Cut(line, ':').0) := columns.value], excluded))
  {
    var (head, list, found) := Cut(line, ':');
    var table := TrimSpace(head);
    if !found || !IsIdentifier(table) || name == "" || table in tables || table in excluded || TrimSpace(list) == "" {
      return None;
    }
    var parts := Split(list, ',');
    var gathered: set<string> := {};
    for i := 0 to |parts|
      invariant AddColumns(parts, {}) == AddColumns(parts[i..], gathered)
    {
      assert parts[i..][0] == parts[i] && parts[i..][1..] == parts[i + 1..];
      var column := TrimSpace(parts[i]);
      if !IsIdentifier(column) || column in gathered {
        return None;
      }
      gathered := gathered + {column};
    }
    return Some(gathered);
  }

  // ---------------------------------------------------------------------------------------------
  // Everything accepted is well formed.

  ghost predicate ColumnsOk(columns: set<string>) {
    columns != {} && forall c :: c in columns ==> IsIdentifier(c)
  }

  ghost predicate DraftOk(d: Draft) {
    && (d.name == "" ==> d.tables == map[] && d.excluded == {})
    && Tight(d.name) && '\n' !in d.name
    && (forall t :: t in d.tables ==> IsIdentifier(t) && t !in d.excluded && ColumnsOk(d.tables[t]))
    && (forall t :: t in d.excluded ==> IsIdentifier(t))
  }

  /** A publication a declaration can describe. */
  ghost predicate Declared(p: Publication) {
    p.name != "" && p.tables != map[] && DraftOk(Draft(p.name, p.tables, p.excluded))
  }

  lemma {:induction false} ColumnsGathered(parts: seq<string>, columns: set<string>)
    requires AddColumns(parts, columns).Some? && forall c :: c in columns ==> IsIdentifier(c)
    ensures columns <= AddColumns(parts, columns).value
    ensures forall c :: c in AddColumns(parts, columns).value ==> IsIdentifier(c)
    ensures parts != [] ==> AddColumns(parts, columns).value != {}
    decreases |parts|
  {
    if parts != [] {
      ColumnsGathered(parts[1..], columns + {TrimSpace(parts[0])});
      assert TrimSpace(parts[0]) in AddColumns(parts, columns).value;
    }
  }

  lemma TableLineKeepsOk(d: Draft, line: string)
    requires DraftOk(d) && TableLine(d, line).Some?
    ensures DraftOk(TableLine(d, line).value)
  {
    hide IsIdentifier, Cut, Split, AddColumns, TrimSpace, Tight;
    ColumnsGathered(Split(Cut(line, ':').1, ','), {});
  }

  lemma HeaderKeepsOk(d: Draft, line: string)
    requires DraftOk(d) && '\n' !in line && HEADER <= line && HeaderLine(d, line).Some?
    ensures DraftOk(HeaderLine(d, line).value)
  {
    hide IsIdentifier, TrimSpace, Tight;
    TrimKeeps(line[|HEADER|..]);
  }

  lemma LineKeepsOk(d: Draft, raw: string)
    requires DraftOk(d) && '\n' !in raw && ReadLine(d, raw).Some?
    ensures DraftOk(ReadLine(d, raw).value)
  {
    hide IsIdentifier, TrimSpace, Tight, ColumnsOk, TableLine, HeaderLine;
    var line := TrimSpace(raw);
    TrimKeeps(raw);
    if line == HEADER || HasPrefix(line, HEADER + " ") {
      if HeaderLine(d, line).Some? {
        HeaderKeepsOk(d, line);
      }
    } else if TableLine(d, line).Some? {
      TableLineKeepsOk(d, line);
    }
  }

  lemma {:induction false} LinesKeepOk(d: Draft, lines: seq<string>)
    requires DraftOk(d) && (forall i :: 0 <= i < |lines| ==> '\n' !in lines[i]) && ReadLines(d, lines).Some?
    ensures DraftOk(ReadLines(d, lines).value)
    decreases |lines|
  {
    hide ReadLine, DraftOk;
    if lines != [] {
      LineKeepsOk(d, lines[0]);
      LinesKeepOk(ReadLine(d, lines[0]).value, lines[1..]);
    }
  }

  /**
   Every accepted text names its publication and at least one table, lists a non-empty set of
   identifiers for each, and publishes no table it excludes.
   */
  lemma AcceptedIsDeclared(text: string)
    requires Parse(text).Some?
    ensures Declared(Parse(text).value) && NamesAreIdentifiers(Parse(text).value)
  {
    LinesKeepOk(Draft("", map[], {}), Split(text, '\n'));
  }

  // ---------------------------------------------------------------------------------------------
  // The canonical rendering, and reading it back.

  function Spaced(columns: seq<string>): (r: seq<string>)
    ensures |r| == |columns|
  {
    seq(|columns|, i requires 0 <= i < |columns| => " " + columns[i])
  }

  function RenderTable(table: string, columns: set<string>): string {
    table + ":" + Join(Spaced(Sorted(columns)), ',')
  }

  function RenderTables(tables: map<string, set<string>>, names: seq<string>): (r: seq<string>)
    requires forall i :: 0 <= i < |names| ==> names[i] in tables
    ensures |r| == |names|
  {
    seq(|names|, i requires 0 <= i < |names| => RenderTable(names[i], tables[names[i]]))
  }

  function RenderExcludes(names: seq<string>): (r: seq<string>)
    ensures |r| == |names|
  {
    seq(|names|, i requires 0 <= i < |names| => EXCLUDE + " " + names[i])
  }

  function RenderLines(p: Publication): seq<string> {
    [HEADER + " " + p.name] + RenderTables(p.tables, Sorted(p.tables.Keys)) + RenderExcludes(Sorted(p.excluded))
  }

  /** The declaration written out: the header, the tables in order, the exclusions in order. */
  function Render(p: Publication): string {
    Join(RenderLines(p), '\n')
  }

  lemma IdentifierIsTight(s: string)
    requires IsIdentifier(s)
    ensures s != "" && Tight(s) && ':' !in s && ',' !in s && '\n' !in s && ' ' !in s
  {
  }

  /** One leading space is trimmed away. */
  lemma TrimSpaced(s: string)
    requires Tight(s)
    ensures TrimSpace(" " + s) == s
  {
    assert (" " + s)[1..] == s;
    TrimTight(s);
  }

  lemma {:induction false} ColumnsReadBack(names: seq<string>, columns: set<string>)
    requires forall i :: 0 <= i < |names| ==> IsIdentifier(names[i]) && names[i] !in columns
    requires forall i, j :: 0 <= i < j < |names| ==> names[i] != names[j]
    ensures AddColumns(Spaced(names), columns) == Some(columns + (set n | n in names))
    decreases |names|
  {
    hide IsIdentifier;
    if names == [] {
      assert columns + (set n | n in names) == columns;
    } else {
      IdentifierIsTight(names[0]);
      TrimSpaced(names[0]);
      assert Spaced(names)[1..] == Spaced(names[1..]);
      ColumnsReadBack(names[1..], columns + {names[0]});
      assert columns + (set n | n in names) == columns + {names[0]} + (set n | n in names[1..]);
    }
  }

  lemma {:induction false} JoinedEnds(names: seq<string>)
    requires names != [] && forall i :: 0 <= i < |names| ==> IsIdentifier(names[i])
    ensures var s := Join(Spaced(names), ','); s != [] && !IsSpace(s[|s| - 1]) && '\n' !in s && s[0] == ' '
    ensures TrimSpace(Join(Spaced(names), ',')) != ""
    decreases |names|
  {
    IdentifierIsTight(names[0]);
    var s := Join(Spaced(names), ',');
    if |names| > 1 {
      assert Spaced(names)[1..] == Spaced(names[1..]);
      JoinedEnds(names[1..]);
      assert s == (" " + names[0]) + [','] + Join(Spaced(names[1..]), ',');
    }
    assert s[1] == names[0][0];
    assert TrimLeft(s) == s[1..];
  }

  lemma TableTight(table: string, columns: set<string>)
    requires IsIdentifier(table) && ColumnsOk(columns)
    ensures var line := RenderTable(table, columns);
            Tight(line) && line != "" && '\n' !in line && line[0] != '#'
  {
    var names := Sorted(columns);
    var c :| c in columns;
    assert c in names;
    JoinedEnds(names);
    IdentifierIsTight(table);
    assert IsIdentifierChar(table[0]);
  }

  /** A line that starts with an identifier and a colon is not a keyword and a space. */
  lemma NotKeyword(table: string, rest: string, word: string)
    requires IsIdentifier(table) && word != "" && ':' !in word && ' ' !in word
    ensures var line := table + ":" + rest; line != word && !(word + " " <= line)
  {
    IdentifierIsTight(table);
    var line := table + ":" + rest;
    assert line[|table|] == ':';
    assert |table| > |word| ==> line[|word|] == table[|word|] != ' ';
  }

  lemma ListReadBack(columns: set<string>)
    requires ColumnsOk(columns)
    ensures var list := Join(Spaced(Sorted(columns)), ',');
            TrimSpace(list) != "" && AddColumns(Split(list, ','), {}) == Some(columns)
  {
    hide IsIdentifier, TrimSpace, AddColumns, Split, Join;
    var names := Sorted(columns);
    var c :| c in columns;
    assert c in names;
    JoinedEnds(names);
    forall i | 0 <= i < |names|
      ensures ',' !in Spaced(names)[i]
    {
      IdentifierIsTight(names[i]);
    }
    SplitJoin(Spaced(names), ',');
    ColumnsReadBack(names, {});
    assert {} + (set n | n in names) == columns;
  }

  lemma TableLineReadBack(d: Draft, table: string, columns: set<string>)
    requires IsIdentifier(table) && ColumnsOk(columns) && d.name != "" && table !in d.tables && table !in d.excluded
    ensures TableLine(d, RenderTable(table, columns)) == Some(d.(tables := d.tables[table := columns]))
  {
    hide IsIdentifier, ColumnsOk, TrimSpace, AddColumns, Split, Join, Cut;
    var list := Join(Spaced(Sorted(columns)), ',');
    ListReadBack(columns);
    IdentifierIsTight(table);
    TrimTight(table);
    CutAt(table, list, ':');
    assert RenderTable(table, columns) == table + [':'] + list;
  }

  lemma TableReadBack(d: Draft, table: string, columns: set<string>)
    requires IsIdentifier(table) && ColumnsOk(columns) && d.name != "" && table !in d.tables && table !in d.excluded
    ensures ReadLine(d, RenderTable(table, columns)) == Some(d.(tables := d.tables[table := columns]))
  {
    hide IsIdentifier, ColumnsOk, TrimSpace, TableLine;
    var line := RenderTable(table, columns);
    TableLineReadBack(d, table, columns);
    TableTight(table, columns);
    TrimTight(line);
    NotKeyword(table, Join(Spaced(Sorted(columns)), ','), HEADER);
    NotKeyword(table, Join(Spaced(Sorted(columns)), ','), EXCLUDE);
  }

  lemma ExcludeReadBack(d: Draft, table: string)
    requires IsIdentifier(table) && d.name != "" && table !in d.tables && table !in d.excluded
    ensures ReadLine(d, EXCLUDE + " " + table) == Some(d.(excluded := d.excluded + {table}))
    ensures '\n' !in EXCLUDE + " " + table
  {
    IdentifierIsTight(table);
    var line := EXCLUDE + " " + table;
    assert Tight(line) && line[0] == 'e';
    TrimTight(line);
    assert HEADER[0] == 'p';
    assert line[|EXCLUDE|..] == " " + table;
    TrimSpaced(table);
    assert EXCLUDE + " " <= line;
  }

  lemma HeaderReadBack(name: string)
    requires name != "" && Tight(name) && '\n' !in name
    ensures ReadLine(Draft("", map[], {}), HEADER + " " + name) == Some(Draft(name, map[], {}))
    ensures '\n' !in HEADER + " " + name
  {
    var line := HEADER + " " + name;
    assert Tight(line) && line[0] == 'p';
    TrimTight(line);
    assert line[|HEADER|..] == " " + name;
    TrimSpaced(name);
    assert HEADER + " " <= line;
  }

  function Picked(tables: map<string, set<string>>, names: seq<string>): map<string, set<string>> {
    map n | n in names && n in tables :: tables[n]
  }

  lemma {:induction false} TablesReadBack(
    d: Draft, tables: map<string, set<string>>, names: seq<string>, rest: seq<string>)
    requires d.name != ""
    requires forall i :: 0 <= i < |names| ==>
      && names[i] in tables && IsIdentifier(names[i]) && ColumnsOk(tables[names[i]])
      && names[i] !in d.tables && names[i] !in d.excluded
    requires forall i, j :: 0 <= i < j < |names| ==> names[i] != names[j]
    ensures ReadLines(d, RenderTables(tables, names) + rest) ==
            ReadLines(d.(tables := d.tables + Picked(tables, names)), rest)
    decreases |names|
  {
    hide ReadLine, ReadLines, IsIdentifier, ColumnsOk, RenderTable;
    if names == [] {
      assert RenderTables(tables, names) + rest == rest;
      assert d.tables + Picked(tables, names) == d.tables;
    } else {
      var n := names[0];
      TableReadBack(d, n, tables[n]);
      var next := d.(tables := d.tables[n := tables[n]]);
      assert RenderTables(tables, names) + rest ==
             [RenderTable(n, tables[n])] + (RenderTables(tables, names[1..]) + rest);
      ReadLinesCons(d, RenderTable(n, tables[n]), RenderTables(tables, names[1..]) + rest);
      TablesReadBack(next, tables, names[1..], rest);
      PickedCons(d.tables, tables, names);
    }
  }

  lemma PickedCons(base: map<string, set<string>>, tables: map<string, set<string>>, names: seq<string>)
    requires names != [] && names[0] in tables
    ensures base[names[0] := tables[names[0]]] + Picked(tables, names[1..]) == base + Picked(tables, names)
  {
  }

  lemma {:induction false} ExcludesReadBack(d: Draft, names: seq<string>)
    requires d.name != ""
    requires forall i :: 0 <= i < |names| ==> IsIdentifier(names[i]) && names[i] !in d.tables && names[i] !in d.excluded
    requires forall i, j :: 0 <= i < j < |names| ==> names[i] != names[j]
    ensures ReadLines(d, RenderExcludes(names)) == Some(d.(excluded := d.excluded + (set n | n in names)))
    decreases |names|
  {
    hide ReadLine, IsIdentifier;
    if names == [] {
      assert d.excluded + (set n | n in names) == d.excluded;
    } else {
      ExcludeReadBack(d, names[0]);
      assert RenderExcludes(names)[1..] == RenderExcludes(names[1..]);
      ExcludesReadBack(d.(excluded := d.excluded + {names[0]}), names[1..]);
      assert d.excluded + {names[0]} + (set n | n in names[1..]) == d.excluded + (set n | n in names);
    }
  }

  lemma LinesReadBack(p: Publication)
    requires Declared(p)
    ensures ReadLines(Draft("", map[], {}), RenderLines(p)) == Some(Draft(p.name, p.tables, p.excluded))
  {
    hide ReadLine, IsIdentifier, ColumnsOk, Tight, ReadLines, RenderTables, RenderExcludes;
    var start, named := Draft("", map[], {}), Draft(p.name, map[], {});
    var ts, xs := Sorted(p.tables.Keys), Sorted(p.excluded);
    HeaderReadBack(p.name);
    var rest := RenderTables(p.tables, ts) + RenderExcludes(xs);
    assert RenderLines(p) == [HEADER + " " + p.name] + rest;
    ReadLinesCons(start, HEADER + " " + p.name, rest);
    TablesReadBack(named, p.tables, ts, RenderExcludes(xs));
    assert map[] + Picked(p.tables, ts) == p.tables;
    ExcludesReadBack(named.(tables := p.tables), xs);
    assert {} + (set n | n in xs) == p.excluded;
  }

  lemma ReadLinesCons(d: Draft, line: string, rest: seq<string>)
    requires ReadLine(d, line).Some?
    ensures ReadLines(d, [line] + rest) == ReadLines(ReadLine(d, line).value, rest)
  {
  }

  lemma LinesAreLines(p: Publication)
    requires Declared(p)
    ensures forall i :: 0 <= i < |RenderLines(p)| ==> '\n' !in RenderLines(p)[i]
  {
    hide ReadLine, IsIdentifier, ColumnsOk, Tight, RenderTable;
    HeaderReadBack(p.name);
    var ts, xs := Sorted(p.tables.Keys), Sorted(p.excluded);
    forall i | 0 <= i < |ts|
      ensures '\n' !in RenderTables(p.tables, ts)[i]
    {
      TableTight(ts[i], p.tables[ts[i]]);
    }
    forall i | 0 <= i < |xs|
      ensures '\n' !in RenderExcludes(xs)[i]
    {
      ExcludeReadBack(Draft(p.name, map[], {}), xs[i]);
    }
  }

  /**
   The parser reads the canonical rendering of any publication a declaration can describe back
   unchanged, so no name is ever shortened into another.
   */
  lemma RoundTrip(p: Publication)
    requires Declared(p)
    ensures Parse(Render(p)) == Some(p)
  {
    hide ReadLines, RenderLines, DraftOk;
    LinesReadBack(p);
    LinesAreLines(p);
    HasHeader(p);
    SplitJoin(RenderLines(p), '\n');
  }

  lemma HasHeader(p: Publication)
    ensures RenderLines(p) != []
  {
  }

  /** Every accepted text means what its canonical rendering says. */
  lemma CanonicalForm(text: string)
    requires Parse(text).Some?
    ensures Parse(Render(Parse(text).value)) == Parse(text)
  {
    hide Parse, Render, Declared, NamesAreIdentifiers;
    AcceptedIsDeclared(text);
    RoundTrip(Parse(text).value);
  }
}
