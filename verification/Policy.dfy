/**
 The structural rules of a feed line under a publication: a walk over the raw JSON tokens with an
 explicit stack, the tree rule it decides, and what that rule and the column allowlist guarantee
 together about a row image.
 */
module Policy {
  import opened Feed

  // --- tokens and trees -----------------------------------------------------------------------

  datatype Token = Open(isObject: bool) | Close(isObject: bool) | Str(text: string) | Lit(printed: string)

  datatype Json = Leaf(token: Token) | Obj(members: Members) | Arr(items: Items)
  datatype Members = NoMember | Member(key: string, value: Json, rest: Members)
  datatype Items = NoItem | Item(value: Json, rest: Items)

  /** A JSON value as a decoder produces it: leaves are scalars. */
  predicate WellFormed(j: Json) {
    match j
    case Leaf(t) => t.Str? || t.Lit?
    case Obj(m) => WellFormedMembers(m)
    case Arr(i) => WellFormedItems(i)
  }

  predicate WellFormedMembers(m: Members) {
    m.Member? ==> WellFormed(m.value) && WellFormedMembers(m.rest)
  }

  predicate WellFormedItems(i: Items) {
    i.Item? ==> WellFormed(i.value) && WellFormedItems(i.rest)
  }

  function Tokens(j: Json): seq<Token> {
    match j
    case Leaf(t) => [t]
    case Obj(m) => [Open(true)] + MemberTokens(m) + [Close(true)]
    case Arr(i) => [Open(false)] + ItemTokens(i) + [Close(false)]
  }

  function MemberTokens(m: Members): seq<Token> {
    if m.NoMember? then [] else [Str(m.key)] + Tokens(m.value) + MemberTokens(m.rest)
  }

  function ItemTokens(i: Items): seq<Token> {
    if i.NoItem? then [] else Tokens(i.value) + ItemTokens(i.rest)
  }

  // --- the walk -------------------------------------------------------------------------------

  predicate EnvelopeKey(key: string) {
    key in ["table", "op", "txn", "lsn", "commit_lsn", "commit_end_lsn", "before", "after", "writer", "alter"]
  }

  datatype Frame = Frame(isObject: bool, expectKey: bool, seen: set<string>, last: string, path: seq<string>)

  predicate ForbiddenNesting(path: seq<string>) {
    && |path| >= 2
    && (path[0] == "before" || path[0] == "after")
    && !(path[0] == "after" && path[1] == "columns")
  }

  function PathOf(stack: seq<Frame>): seq<string> {
    if stack == [] then [] else stack[|stack| - 1].path
  }

  /** The key whose value is being read, or nothing inside an array or at the top. */
  function KeyOf(stack: seq<Frame>): string {
    if stack != [] && stack[|stack| - 1].isObject && !stack[|stack| - 1].expectKey then stack[|stack| - 1].last else ""
  }

  /** The path of a container: an empty key adds nothing to it. */
  function Extend(path: seq<string>, key: string): seq<string> {
    if key == "" then path else path + [key]
  }

  function Replace(stack: seq<Frame>, top: Frame): seq<Frame>
    requires stack != []
  {
    stack[..|stack| - 1] + [top]
  }

  /** A value has just been read, so the innermost object expects a key again. */
  function Consumed(stack: seq<Frame>): seq<Frame> {
    if stack != [] && stack[|stack| - 1].isObject then Replace(stack, stack[|stack| - 1].(expectKey := true)) else stack
  }

  function KeyText(t: Token): string {
    if t.Str? then t.text else ""
  }

  function Advance(stack: seq<Frame>, t: Token): Option<seq<Frame>> {
    match t
    case Open(isObject) =>
      var path := Extend(PathOf(stack), KeyOf(stack));
      if ForbiddenNesting(path) then None else Some(stack + [Frame(isObject, isObject, {}, "", path)])
    case Close(_) => Some(Consumed(if stack == [] then stack else stack[..|stack| - 1]))
    case _ =>
      if stack == [] then Some(stack)
      else
        var top := stack[|stack| - 1];
        if top.isObject && top.expectKey then
          var key := KeyText(t);
          if key in top.seen || (top.path == [] && !EnvelopeKey(key)) then None
          else Some(Replace(stack, top.(seen := top.seen + {key}, last := key, expectKey := false)))
        else Some(Consumed(stack))
  }

  predicate Walk(stack: seq<Frame>, tokens: seq<Token>)
    decreases |tokens|
  {
    tokens == [] || (Advance(stack, tokens[0]).Some? && Walk(Advance(stack, tokens[0]).value, tokens[1..]))
  }

  /** The walk as it runs: one stack of frames, updated token by token. */
  method PoliceRawLine(tokens: seq<Token>) returns (ok: bool)
    ensures ok <==> Walk([], tokens)
  {
    var stack: seq<Frame> := [];
    for i := 0 to |tokens|
      invariant Walk([], tokens) <==> Walk(stack, tokens[i..])
    {
      var t := tokens[i];
      assert tokens[i..][0] == t && tokens[i..][1..] == tokens[i + 1..];
      match t {
        case Open(isObject) =>
          var path := PathOf(stack);
          var key := KeyOf(stack);
          if key != "" {
            path := path + [key];
          }
          if ForbiddenNesting(path) {
            return false;
          }
          stack := stack + [Frame(isObject, isObject, {}, "", path)];
        case Close(_) =>
          if stack != [] {
            stack := stack[..|stack| - 1];
          }
          stack := Consumed(stack);
        case _ =>
          if stack != [] {
            var top := stack[|stack| - 1];
            if top.isObject && top.expectKey {
              var key := KeyText(t);
              if key in top.seen {
                return false;
              }
              if top.path == [] && !EnvelopeKey(key) {
                return false;
              }
              stack := Replace(stack, top.(seen := top.seen + {key}, last := key, expectKey := false));
            } else {
              stack := Consumed(stack);
            }
          }
      }
    }
    return true;
  }

  // --- the walk decides a recursive rule ------------------------------------------------------

  /** A value read under `key` inside a container at `path`. */
  predicate Allowed(j: Json, path: seq<string>, key: string)
    decreases j, 1
  {
    var here := Extend(path, key);
    match j
    case Leaf(_) => true
    case Obj(m) => !ForbiddenNesting(here) && MembersAllowed(m, here, {})
    case Arr(i) => !ForbiddenNesting(here) && ItemsAllowed(i, here)
  }

  predicate MembersAllowed(m: Members, path: seq<string>, seen: set<string>)
    decreases m, 0
  {
    m.Member? ==>
      && m.key !in seen
      && (path == [] ==> EnvelopeKey(m.key))
      && Allowed(m.value, path, m.key)
      && MembersAllowed(m.rest, path, seen + {m.key})
  }

  predicate ItemsAllowed(i: Items, path: seq<string>)
    decreases i, 0
  {
    i.Item? ==> Allowed(i.value, path, "") && ItemsAllowed(i.rest, path)
  }

  /** The next token is a value, not a key. */
  predicate AtValue(stack: seq<Frame>) {
    stack != [] && stack[|stack| - 1].isObject ==> !stack[|stack| - 1].expectKey
  }

  lemma {:induction false} WalkValue(stack: seq<Frame>, j: Json, rest: seq<Token>)
    requires WellFormed(j) && AtValue(stack)
    ensures Walk(stack, Tokens(j) + rest) <==> Allowed(j, PathOf(stack), KeyOf(stack)) && Walk(Consumed(stack), rest)
    decreases j, 1
  {
    var here := Extend(PathOf(stack), KeyOf(stack));
    match j {
      case Leaf(t) =>
        assert ([t] + rest)[1..] == rest;
      case Obj(m) =>
        var inner := MemberTokens(m) + ([Close(true)] + rest);
        assert Tokens(j) + rest == [Open(true)] + inner;
        assert ([Open(true)] + inner)[1..] == inner;
        var frame := Frame(true, true, {}, "", here);
        assert (stack + [frame])[..|stack|] == stack;
        WalkMembers(stack, frame, m, rest);
      case Arr(i) =>
        var inner := ItemTokens(i) + ([Close(false)] + rest);
        assert Tokens(j) + rest == [Open(false)] + inner;
        assert ([Open(false)] + inner)[1..] == inner;
        var frame := Frame(false, false, {}, "", here);
        WalkItems(stack, frame, i, rest);
    }
  }

  lemma {:induction false} WalkMembers(stack: seq<Frame>, top: Frame, m: Members, rest: seq<Token>)
    requires WellFormedMembers(m) && top.isObject && top.expectKey
    ensures Walk(stack + [top], MemberTokens(m) + ([Close(true)] + rest)) <==>
            MembersAllowed(m, top.path, top.seen) && Walk(Consumed(stack), rest)
    decreases m, 0
  {
    assert (stack + [top])[..|stack|] == stack;
    if m.NoMember? {
      assert MemberTokens(m) + ([Close(true)] + rest) == [Close(true)] + rest;
      assert ([Close(true)] + rest)[1..] == rest;
    } else {
      var after := MemberTokens(m.rest) + ([Close(true)] + rest);
      var tail := Tokens(m.value) + after;
      assert MemberTokens(m) + ([Close(true)] + rest) == [Str(m.key)] + tail;
      assert ([Str(m.key)] + tail)[1..] == tail;
      var read := top.(seen := top.seen + {m.key}, last := m.key, expectKey := false);
      assert Replace(stack + [top], read) == stack + [read];
      WalkValue(stack + [read], m.value, after);
      assert Consumed(stack + [read]) == stack + [read.(expectKey := true)] by {
        assert (stack + [read])[..|stack|] == stack;
      }
      WalkMembers(stack, read.(expectKey := true), m.rest, rest);
    }
  }

  lemma {:induction false} WalkItems(stack: seq<Frame>, top: Frame, i: Items, rest: seq<Token>)
    requires WellFormedItems(i) && !top.isObject && !top.expectKey
    ensures Walk(stack + [top], ItemTokens(i) + ([Close(false)] + rest)) <==>
            ItemsAllowed(i, top.path) && Walk(Consumed(stack), rest)
    decreases i, 0
  {
    assert (stack + [top])[..|stack|] == stack;
    if i.NoItem? {
      assert ItemTokens(i) + ([Close(false)] + rest) == [Close(false)] + rest;
      assert ([Close(false)] + rest)[1..] == rest;
    } else {
      var after := ItemTokens(i.rest) + ([Close(false)] + rest);
      assert ItemTokens(i) + ([Close(false)] + rest) == Tokens(i.value) + after;
      WalkValue(stack + [top], i.value, after);
      WalkItems(stack, top, i.rest, rest);
    }
  }

  // --- the rule, said about the tree alone ----------------------------------------------------

  /** No object at any depth repeats a key (section 4 of RFC 8259). */
  predicate NoRepeats(j: Json)
    decreases j, 1
  {
    match j
    case Leaf(_) => true
    case Obj(m) => MembersNoRepeats(m, {})
    case Arr(i) => ItemsNoRepeats(i)
  }

  predicate MembersNoRepeats(m: Members, seen: set<string>)
    decreases m, 0
  {
    m.Member? ==> m.key !in seen && NoRepeats(m.value) && MembersNoRepeats(m.rest, seen + {m.key})
  }

  predicate ItemsNoRepeats(i: Items)
    decreases i, 0
  {
    i.Item? ==> NoRepeats(i.value) && ItemsNoRepeats(i.rest)
  }

  /**
   The value of `before` or `after`: scalars under its columns, and containers only under the
   `columns` of an after image. An empty key, like an array, is looked through.
   */
  predicate ImageFlat(j: Json, isAfter: bool)
    decreases j, 1
  {
    match j
    case Leaf(_) => true
    case Obj(m) => ColumnsFlat(m, isAfter)
    case Arr(i) => ItemsFlat(i, isAfter)
  }

  predicate ColumnsFlat(m: Members, isAfter: bool)
    decreases m, 0
  {
    m.Member? ==>
      && (|| m.value.Leaf?
          || (isAfter && m.key == "columns")
          || (m.key == "" && ImageFlat(m.value, isAfter)))
      && ColumnsFlat(m.rest, isAfter)
  }

  predicate ItemsFlat(i: Items, isAfter: bool)
    decreases i, 0
  {
    i.Item? ==> ImageFlat(i.value, isAfter) && ItemsFlat(i.rest, isAfter)
  }

  /** A line's top level: envelope keys only, and the two images flat. */
  predicate Envelope(m: Members) {
    m.Member? ==>
      && EnvelopeKey(m.key)
      && (m.key == "before" || m.key == "after" ==> ImageFlat(m.value, m.key == "after"))
      && Envelope(m.rest)
  }

  predicate TopLevel(j: Json)
    decreases j, 1
  {
    match j
    case Leaf(_) => true
    case Obj(m) => Envelope(m)
    case Arr(i) => ItemsTopLevel(i)
  }

  predicate ItemsTopLevel(i: Items)
    decreases i, 0
  {
    i.Item? ==> TopLevel(i.value) && ItemsTopLevel(i.rest)
  }

  /** A path below which nothing is forbidden. */
  predicate Free(path: seq<string>) {
    && path != []
    && (|| (path[0] != "before" && path[0] != "after")
        || (|path| >= 2 && path[0] == "after" && path[1] == "columns"))
  }

  lemma {:induction false} AllowedWhenFree(j: Json, path: seq<string>, key: string)
    requires Free(Extend(path, key))
    ensures Allowed(j, path, key) <==> NoRepeats(j)
    decreases j, 1
  {
    var here := Extend(path, key);
    match j {
      case Leaf(_) =>
      case Obj(m) => MembersWhenFree(m, here, {});
      case Arr(i) => ItemsWhenFree(i, here);
    }
  }

  lemma {:induction false} MembersWhenFree(m: Members, path: seq<string>, seen: set<string>)
    requires Free(path)
    ensures MembersAllowed(m, path, seen) <==> MembersNoRepeats(m, seen)
    decreases m, 0
  {
    if m.Member? {
      AllowedWhenFree(m.value, path, m.key);
      MembersWhenFree(m.rest, path, seen + {m.key});
    }
  }

  lemma {:induction false} ItemsWhenFree(i: Items, path: seq<string>)
    requires Free(path)
    ensures ItemsAllowed(i, path) <==> ItemsNoRepeats(i)
    decreases i, 0
  {
    if i.Item? {
      AllowedWhenFree(i.value, path, "");
      ItemsWhenFree(i.rest, path);
    }
  }

  /** Inside an image the path is the image's own name until a column is entered. */
  lemma {:induction false} AllowedInImage(j: Json, side: string)
    requires side == "before" || side == "after"
    ensures Allowed(j, [side], "") <==> NoRepeats(j) && ImageFlat(j, side == "after")
    decreases j, 1
  {
    match j {
      case Leaf(_) =>
      case Obj(m) => MembersInImage(m, side, {});
      case Arr(i) => ItemsInImage(i, side);
    }
  }

  lemma {:induction false} MembersInImage(m: Members, side: string, seen: set<string>)
    requires side == "before" || side == "after"
    ensures MembersAllowed(m, [side], seen) <==> MembersNoRepeats(m, seen) && ColumnsFlat(m, side == "after")
    decreases m, 0
  {
    if m.Member? {
      MembersInImage(m.rest, side, seen + {m.key});
      if m.key == "" {
        AllowedInImage(m.value, side);
      } else if side == "after" && m.key == "columns" {
        AllowedWhenFree(m.value, [side], m.key);
      }
    }
  }

  lemma {:induction false} ItemsInImage(i: Items, side: string)
    requires side == "before" || side == "after"
    ensures ItemsAllowed(i, [side]) <==> ItemsNoRepeats(i) && ItemsFlat(i, side == "after")
    decreases i, 0
  {
    if i.Item? {
      AllowedInImage(i.value, side);
      ItemsInImage(i.rest, side);
    }
  }

  lemma {:induction false} AllowedAtTop(j: Json)
    ensures Allowed(j, [], "") <==> NoRepeats(j) && TopLevel(j)
    decreases j, 1
  {
    match j {
      case Leaf(_) =>
      case Obj(m) => MembersAtTop(m, {});
      case Arr(i) => ItemsAtTop(i);
    }
  }

  lemma {:induction false} MembersAtTop(m: Members, seen: set<string>)
    ensures MembersAllowed(m, [], seen) <==> MembersNoRepeats(m, seen) && Envelope(m)
    decreases m, 0
  {
    if m.Member? {
      MembersAtTop(m.rest, seen + {m.key});
      if EnvelopeKey(m.key) {
        assert Extend([], m.key) == [m.key];
        if m.key == "before" || m.key == "after" {
          ImageByName(m.value, m.key);
        } else {
          AllowedWhenFree(m.value, [], m.key);
        }
      }
    }
  }

  /** Entering an image under its key is being in the image. */
  lemma ImageByName(j: Json, side: string)
    requires side == "before" || side == "after"
    ensures Allowed(j, [], side) <==> NoRepeats(j) && ImageFlat(j, side == "after")
  {
    assert Extend([], side) == [side] == Extend([side], "");
    AllowedInImage(j, side);
  }

  lemma {:induction false} ItemsAtTop(i: Items)
    ensures ItemsAllowed(i, []) <==> ItemsNoRepeats(i) && ItemsTopLevel(i)
    decreases i, 0
  {
    if i.Item? {
      AllowedAtTop(i.value);
      ItemsAtTop(i.rest);
    }
  }

  /**
   The stack machine accepts the tokens of a JSON value exactly when no object in it repeats a key,
   its top-level keys are the envelope's, and its images hold no container except `after.columns`.
   */
  lemma WalkDecidesTree(j: Json)
    requires WellFormed(j)
    ensures Walk([], Tokens(j)) <==> NoRepeats(j) && TopLevel(j)
  {
    assert Tokens(j) + [] == Tokens(j);
    WalkValue([], j, []);
    AllowedAtTop(j);
  }

  // --- with the column allowlist --------------------------------------------------------------

  /** What a feed may carry: columns per published table, and tables decided against. */
  datatype Publication = Publication(name: string, tables: map<string, set<string>>, excluded: set<string>)

  predicate IsIdentifierChar(c: char) {
    'a' <= c <= 'z' || 'A' <= c <= 'Z' || '0' <= c <= '9' || c == '_'
  }

  predicate IsIdentifier(s: string) {
    s != [] && forall i :: 0 <= i < |s| ==> IsIdentifierChar(s[i])
  }

  /** Every name in the policy is an identifier, as the parser guarantees. */
  ghost predicate NamesAreIdentifiers(p: Publication) {
    forall t, c :: t in p.tables && c in p.tables[t] ==> IsIdentifier(c)
  }

  /** The column names an image carries: the keys of an object, and none of anything else. */
  function Columns(j: Json): set<string> {
    if j.Obj? then MemberKeys(j.members) else {}
  }

  function MemberKeys(m: Members): set<string> {
    if m.NoMember? then {} else {m.key} + MemberKeys(m.rest)
  }

  predicate Published(p: Publication, table: string, column: string) {
    table !in p.excluded && table in p.tables && column in p.tables[table]
  }

  /** The allowlist over one image; a schema event's `columns` payload is checked by its names instead. */
  predicate ImagePublished(p: Publication, table: string, columns: set<string>, isShape: bool) {
    && table !in p.excluded && table in p.tables
    && forall c :: c in columns ==> (isShape && c == "columns") || Published(p, table, c)
  }

  /** The value held under a key of an object. */
  function Under(m: Members, key: string): Option<Json> {
    if m.NoMember? then None else if m.key == key then Some(m.value) else Under(m.rest, key)
  }

  lemma {:induction false} UnderIsFlat(m: Members, isAfter: bool, column: string)
    requires ColumnsFlat(m, isAfter) && column != "" && Under(m, column).Some?
    requires !(isAfter && column == "columns")
    ensures Under(m, column).value.Leaf?
    decreases m
  {
    if m.key != column {
      UnderIsFlat(m.rest, isAfter, column);
    }
  }

  lemma {:induction false} UnderEnvelope(m: Members, side: string)
    requires Envelope(m) && (side == "before" || side == "after") && Under(m, side).Some?
    ensures ImageFlat(Under(m, side).value, side == "after")
    decreases m
  {
    if m.key != side {
      UnderEnvelope(m.rest, side);
    }
  }

  lemma {:induction false} UnderIsKey(m: Members, key: string)
    ensures Under(m, key).Some? <==> key in MemberKeys(m)
    decreases m
  {
    if m.Member? {
      UnderIsKey(m.rest, key);
    }
  }

  /**
   A column-level schema event never passes a publication: its `alter` object lives inside `after`,
   where the walk allows no container but `columns`.
   */
  lemma ColumnChangesAreRefused(line: Members)
    requires WellFormedMembers(line)
    requires Under(line, "after").Some? && Under(line, "after").value.Obj?
    requires var alter := Under(Under(line, "after").value.members, "alter"); alter.Some? && alter.value.Obj?
    ensures !Walk([], Tokens(Obj(line)))
  {
    WalkDecidesTree(Obj(line));
    if Envelope(line) {
      UnderEnvelope(line, "after");
      var image := Under(line, "after").value.members;
      if ColumnsFlat(image, true) {
        UnderIsFlat(image, true, "alter");
      }
    }
  }

  /** What the policy looks at in a decoded event: image columns, and the names a shape declares. */
  datatype Line = Line(table: string, op: string, before: set<string>, after: set<string>, declared: seq<string>)

  predicate IsSchema(op: string) {
    op in ["CREATE_TABLE", "DROP_TABLE", "ADD_COLUMN", "RENAME_COLUMN", "ALTER_COLUMN_TYPE"]
  }

  /** No column of either image, and no declared name, that the publication does not publish. */
  predicate Check(policy: Option<Publication>, l: Line) {
    policy.Some? ==>
      var p := policy.value;
      && ImagePublished(p, l.table, l.before, false)
      && ImagePublished(p, l.table, l.after, IsSchema(l.op))
      && (IsSchema(l.op) ==> forall c :: c in l.declared ==> Published(p, l.table, c))
  }

  /** The other direction, on a declaration: every published column is declared. */
  predicate CheckShape(policy: Option<Publication>, l: Line) {
    policy.Some? && l.op == "CREATE_TABLE" && l.table in policy.value.tables ==>
      forall c :: c in policy.value.tables[l.table] ==> c in l.declared
  }

  /** An accepted declaration declares exactly the published columns: the two ends run one policy. */
  lemma AcceptedShapeIsExact(p: Publication, l: Line)
    requires l.op == "CREATE_TABLE" && l.before == {} && l.after == {"columns"}
    ensures Check(Some(p), l) && CheckShape(Some(p), l) <==>
            l.table !in p.excluded && l.table in p.tables && (set c | c in l.declared) == p.tables[l.table]
  {
  }
}
