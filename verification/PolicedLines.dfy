/**
 A whole line against a publication file: the walk over its tokens and the allowlist over its images,
 for a policy that was parsed from text.
 */
module PolicedLines {
  import opened Feed
  import opened Policy
  import PublicationParser

  function TextUnder(m: Members, key: string): string {
    var value := Under(m, key);
    if value.Some? && value.value.Leaf? && value.value.token.Str? then value.value.token.text else ""
  }

  function ColumnsUnder(m: Members, side: string): set<string> {
    if Under(m, side).Some? then Columns(Under(m, side).value) else {}
  }

  /** The names a schema event's shape declares. */
  function DeclaredNames(i: Items): seq<string> {
    if i.NoItem? then []
    else (if i.value.Obj? then [TextUnder(i.value.members, "name")] else []) + DeclaredNames(i.rest)
  }

  function ShapeUnder(m: Members): seq<string> {
    var after := Under(m, "after");
    if after.Some? && after.value.Obj? && Under(after.value.members, "columns").Some? &&
       Under(after.value.members, "columns").value.Arr?
    then DeclaredNames(Under(after.value.members, "columns").value.items) else []
  }

  /** What the allowlist sees of a line: its own table, operation and images. */
  function LineOf(m: Members): Line {
    Line(TextUnder(m, "table"), TextUnder(m, "op"), ColumnsUnder(m, "before"), ColumnsUnder(m, "after"), ShapeUnder(m))
  }

  /** A line whose images decode: objects, or null. */
  predicate ImagesDecode(m: Members) {
    && (Under(m, "before").Some? ==> !Under(m, "before").value.Arr?)
    && (Under(m, "after").Some? ==> !Under(m, "after").value.Arr?)
  }

  /** A column of an image that is published, with a scalar under it; or any value, if it is `after.columns`. */
  ghost predicate Publishable(p: Publication, m: Members, side: string, column: string)
    requires column in ColumnsUnder(m, side)
  {
    && Published(p, TextUnder(m, "table"), column)
    && Under(m, side).value.Obj? && Under(Under(m, side).value.members, column).Some?
    && (Under(Under(m, side).value.members, column).value.Leaf? || (side == "after" && column == "columns"))
  }

  ghost predicate ImageIsPublishable(p: Publication, m: Members, side: string) {
    forall column :: column in ColumnsUnder(m, side) ==> Publishable(p, m, side, column)
  }

  /** The keys a line of the feed may have. */
  const ENVELOPE :=
    {"table", "op", "txn", "lsn", "commit_lsn", "commit_end_lsn", "before", "after", "writer", "alter"}

  /** The operations whose after image is a shape. */
  const SCHEMA_OPS := {"CREATE_TABLE", "DROP_TABLE", "ADD_COLUMN", "RENAME_COLUMN", "ALTER_COLUMN_TYPE"}

  lemma KeysAreTheEnvelope(m: Members)
    ensures (forall key :: key in MemberKeys(m) ==> EnvelopeKey(key)) <==> MemberKeys(m) <= ENVELOPE
  {
  }

  /** What a row line may be: no key repeated, envelope keys only, a decided table, publishable images. */
  ghost predicate RowIsPublishable(p: Publication, m: Members) {
    && NoRepeats(Obj(m)) && MemberKeys(m) <= ENVELOPE
    && TextUnder(m, "table") !in p.excluded && TextUnder(m, "table") in p.tables
    && ImageIsPublishable(p, m, "before") && ImageIsPublishable(p, m, "after")
  }

  lemma {:induction false} SeenIsNotKey(m: Members, seen: set<string>)
    requires MembersNoRepeats(m, seen)
    ensures MemberKeys(m) !! seen
    decreases m
  {
    if m.Member? {
      SeenIsNotKey(m.rest, seen + {m.key});
    }
  }

  lemma {:induction false} EnvelopeKeys(m: Members)
    requires Envelope(m)
    ensures forall key :: key in MemberKeys(m) ==> EnvelopeKey(key)
    decreases m
  {
    if m.Member? {
      EnvelopeKeys(m.rest);
    }
  }

  lemma {:induction false} IsEnvelope(m: Members, seen: set<string>)
    requires MembersNoRepeats(m, seen) && forall key :: key in MemberKeys(m) ==> EnvelopeKey(key)
    requires Under(m, "before").Some? ==> ImageFlat(Under(m, "before").value, false)
    requires Under(m, "after").Some? ==> ImageFlat(Under(m, "after").value, true)
    ensures Envelope(m)
    decreases m
  {
    hide EnvelopeKey, ImageFlat;
    if m.Member? {
      SeenIsNotKey(m.rest, seen + {m.key});
      UnderIsKey(m.rest, m.key);
      IsEnvelope(m.rest, seen + {m.key});
    }
  }

  lemma {:induction false} IsFlat(m: Members, isAfter: bool, seen: set<string>)
    requires MembersNoRepeats(m, seen)
    requires forall c :: c in MemberKeys(m) ==>
      Under(m, c).Some? && (Under(m, c).value.Leaf? || (isAfter && c == "columns"))
    ensures ColumnsFlat(m, isAfter)
    decreases m
  {
    if m.Member? {
      SeenIsNotKey(m.rest, seen + {m.key});
      forall c | c in MemberKeys(m.rest)
        ensures Under(m.rest, c) == Under(m, c)
      {
        assert c != m.key;
      }
      assert m.key in MemberKeys(m) && Under(m, m.key) == Some(m.value);
      IsFlat(m.rest, isAfter, seen + {m.key});
    }
  }

  lemma {:induction false} ImageNoRepeats(m: Members, side: string, seen: set<string>)
    requires MembersNoRepeats(m, seen) && Under(m, side).Some?
    ensures NoRepeats(Under(m, side).value)
    decreases m
  {
    if m.key != side {
      ImageNoRepeats(m.rest, side, seen + {m.key});
    }
  }

  lemma PublishableIsFlat(p: Publication, m: Members, side: string)
    requires NoRepeats(Obj(m)) && ImagesDecode(m)
    requires (side == "before" || side == "after") && ImageIsPublishable(p, m, side)
    ensures Under(m, side).Some? ==> ImageFlat(Under(m, side).value, side == "after")
  {
    if Under(m, side).Some? {
      ImageNoRepeats(m, side, {});
      var image := Under(m, side).value;
      if image.Obj? {
        forall c | c in MemberKeys(image.members)
          ensures Under(image.members, c).Some?
          ensures Under(image.members, c).value.Leaf? || (side == "after" && c == "columns")
        {
          assert Publishable(p, m, side, c);
        }
        IsFlat(image.members, side == "after", {});
      }
    }
  }

  lemma FlatIsPublishable(p: Publication, m: Members, side: string)
    requires NamesAreIdentifiers(p) && Envelope(m) && ImagesDecode(m) && (side == "before" || side == "after")
    requires forall c :: c in ColumnsUnder(m, side) ==> Published(p, TextUnder(m, "table"), c)
    ensures ImageIsPublishable(p, m, side)
  {
    if Under(m, side).Some? && Under(m, side).value.Obj? {
      UnderEnvelope(m, side);
      var image := Under(m, side).value.members;
      forall c | c in ColumnsUnder(m, side)
        ensures Publishable(p, m, side, c)
      {
        UnderIsKey(image, c);
        assert IsIdentifier(c);
        if !(side == "after" && c == "columns") {
          UnderIsFlat(image, side == "after", c);
        }
      }
    }
  }

  /**
   A row line passes a publication file exactly when no object in it repeats a key, its own keys are the
   envelope's, its table is published, and every column of either image is published and holds a scalar;
   but a published column named `columns` may hold anything in the after image.
   */
  lemma RowLineIsAcceptedIff(text: string, p: Publication, m: Members)
    requires PublicationParser.Parse(text) == Some(p) && WellFormedMembers(m) && ImagesDecode(m)
    requires TextUnder(m, "op") !in SCHEMA_OPS
    ensures Walk([], Tokens(Obj(m))) && Check(Some(p), LineOf(m)) <==> RowIsPublishable(p, m)
  {
    assert !IsSchema(TextUnder(m, "op"));
    KeysAreTheEnvelope(m);
    hide PublicationParser.Parse, Walk, ImageIsPublishable, Published, IsSchema, ImageFlat, EnvelopeKey;
    PublicationParser.AcceptedIsDeclared(text);
    WalkDecidesTree(Obj(m));
    if Walk([], Tokens(Obj(m))) && Check(Some(p), LineOf(m)) {
      EnvelopeKeys(m);
      FlatIsPublishable(p, m, "before");
      FlatIsPublishable(p, m, "after");
    }
    if RowIsPublishable(p, m) {
      PublishableIsFlat(p, m, "before");
      PublishableIsFlat(p, m, "after");
      IsEnvelope(m, {});
      PublishableIsPublished(p, m, "before");
      PublishableIsPublished(p, m, "after");
    }
  }

  lemma PublishableIsPublished(p: Publication, m: Members, side: string)
    requires ImageIsPublishable(p, m, side)
    ensures forall c :: c in ColumnsUnder(m, side) ==> Published(p, TextUnder(m, "table"), c)
  {
    forall c | c in ColumnsUnder(m, side)
      ensures Published(p, TextUnder(m, "table"), c)
    {
      assert Publishable(p, m, side, c);
    }
  }

  /** In particular an attributed line with every key of the envelope, and published scalars in its images. */
  lemma FullLineIsAccepted(text: string, p: Publication, m: Members)
    requires PublicationParser.Parse(text) == Some(p) && WellFormedMembers(m) && NoRepeats(Obj(m))
    requires MemberKeys(m) == ENVELOPE && TextUnder(m, "op") in {"READ", "INSERT", "UPDATE", "DELETE"}
    requires TextUnder(m, "table") !in p.excluded && TextUnder(m, "table") in p.tables && ImagesDecode(m)
    requires ImageIsPublishable(p, m, "before") && ImageIsPublishable(p, m, "after")
    ensures Walk([], Tokens(Obj(m))) && Check(Some(p), LineOf(m))
  {
    RowLineIsAcceptedIff(text, p, m);
  }

  /** A line that declares a shape and has no row in it. */
  ghost predicate DeclaresShape(m: Members) {
    && TextUnder(m, "op") == "CREATE_TABLE" && ColumnsUnder(m, "before") == {} && ImagesDecode(m)
    && Under(m, "after").Some? && Under(m, "after").value.Obj?
    && ColumnsUnder(m, "after") == {"columns"}
  }

  lemma {:induction false} OnlyColumns(m: Members)
    requires MemberKeys(m) <= {"columns"}
    ensures ColumnsFlat(m, true)
    decreases m
  {
    if m.Member? {
      assert m.key in MemberKeys(m);
      OnlyColumns(m.rest);
    }
  }

  lemma NoColumns(m: Members)
    ensures MemberKeys(m) == {} <==> m.NoMember?
  {
    if m.Member? {
      assert m.key in MemberKeys(m);
    }
  }

  /**
   A declaration passes a publication file, in both directions, exactly when no object in it repeats a key,
   its own keys are the envelope's, its table is published, and the names it declares are the published
   columns and no others.
   */
  lemma DeclarationIsAcceptedIff(text: string, p: Publication, m: Members)
    requires PublicationParser.Parse(text) == Some(p) && WellFormedMembers(m) && DeclaresShape(m)
    ensures Walk([], Tokens(Obj(m))) && Check(Some(p), LineOf(m)) && CheckShape(Some(p), LineOf(m)) <==>
            && NoRepeats(Obj(m)) && MemberKeys(m) <= ENVELOPE
            && TextUnder(m, "table") !in p.excluded && TextUnder(m, "table") in p.tables
            && (set c | c in ShapeUnder(m)) == p.tables[TextUnder(m, "table")]
  {
    hide PublicationParser.Parse, Walk, EnvelopeKey, ImageFlat, Check, CheckShape;
    WalkDecidesTree(Obj(m));
    KeysAreTheEnvelope(m);
    AcceptedShapeIsExact(p, LineOf(m));
    if Envelope(m) {
      EnvelopeKeys(m);
    }
    if NoRepeats(Obj(m)) && MemberKeys(m) <= ENVELOPE {
      ShapeIsFlat(m);
      IsEnvelope(m, {});
    }
  }

  lemma ShapeIsFlat(m: Members)
    requires DeclaresShape(m)
    ensures Under(m, "before").Some? ==> ImageFlat(Under(m, "before").value, false)
    ensures ImageFlat(Under(m, "after").value, true)
  {
    OnlyColumns(Under(m, "after").value.members);
    if Under(m, "before").Some? && Under(m, "before").value.Obj? {
      NoColumns(Under(m, "before").value.members);
    }
  }

  function ItemsOf(i: Items): seq<Json> {
    if i.NoItem? then [] else [i.value] + ItemsOf(i.rest)
  }

  /** A name is declared exactly when one of the shape's objects has it as its name. */
  lemma {:induction false} DeclaredIff(i: Items, name: string)
    ensures name in DeclaredNames(i) <==>
            exists j :: j in ItemsOf(i) && j.Obj? && TextUnder(j.members, "name") == name
    decreases i
  {
    if i.Item? {
      DeclaredIff(i.rest, name);
    }
  }

  /**
   The allowlist on any line, row or schema: its table is published, both images carry published columns
   only, but for the `columns` of a shape in the after image, and a shape declares published names only.
   */
  lemma AllowlistIff(p: Publication, l: Line)
    ensures Check(Some(p), l) <==>
            && l.table !in p.excluded && l.table in p.tables
            && (forall c :: c in l.before ==> c in p.tables[l.table])
            && (forall c :: c in l.after ==> c in p.tables[l.table] || (l.op in SCHEMA_OPS && c == "columns"))
            && (l.op in SCHEMA_OPS ==> forall c :: c in l.declared ==> c in p.tables[l.table])
  {
    assert IsSchema(l.op) <==> l.op in SCHEMA_OPS;
    hide IsSchema;
  }
}
