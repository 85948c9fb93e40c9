/**
 The Markdown interchange format of memory cards (clozn/memory/markdown_cards.py).
 None stands for CardMarkdownError.
 */
module MarkdownCards {
  import opened Common
  import opened JsonText
  import opened TextLines

  const SCHEMA := "clozn.memory_cards.markdown.v1"
  const MAGIC := "<!-- clozn-memory-cards:" + SCHEMA + " -->"
  const HEADING := "# Clozn Memory Cards"
  const CARD := "## Card"
  const MAX_DOCUMENT_CHARS := 4 * 1024 * 1024
  const MAX_CARDS := 10_000
  const MAX_KEY_BYTES := 128
  const MAX_LABEL_CHARS := 128
  const STATUSES := {"pending", "active", "disabled", "rejected"}
  const BYTE_ORDER_MARK := 0xFEFF as char

  // --------------------------------------------------------------------- cards

  datatype Field =
    | Id | Status | Scoping | Kind | Risk | Strength | SourceRunId | SourceTurn | CreatedAt | LastUsedAt | UsageCount
    | Body | QuotedSpan | Evidence

  const METADATA: seq<Field> :=
    [Id, Status, Scoping, Kind, Risk, Strength, SourceRunId, SourceTurn, CreatedAt, LastUsedAt, UsageCount]
  const BLOCKS: seq<Field> := [Body, QuotedSpan, Evidence]
  const REQUIRED: set<Field> :=
    {Id, Status, Kind, Risk, Strength, SourceRunId, SourceTurn, CreatedAt, LastUsedAt, UsageCount,
     Body, QuotedSpan, Evidence}

  function Name(field: Field): string {
    match field
    case Id => "id"
    case Status => "status"
    case Scoping => "scope"
    case Kind => "kind"
    case Risk => "risk"
    case Strength => "strength"
    case SourceRunId => "source_run_id"
    case SourceTurn => "source_turn"
    case CreatedAt => "created_at"
    case LastUsedAt => "last_used_at"
    case UsageCount => "usage_count"
    case Body => "text"
    case QuotedSpan => "quoted_span"
    case Evidence => "evidence"
  }

  function Title(field: Field): string {
    if field == QuotedSpan then "Quoted span" else if field == Evidence then "Evidence" else "Text"
  }

  function Tag(field: Field): string {
    if field == QuotedSpan then "quoted-span" else if field == Evidence then "evidence" else "text"
  }

  /** A card object before validation; `unknown` are the names of its other members. */
  datatype Raw = Raw(known: map<Field, Json>, unknown: set<string>)

  datatype ScopeKind = App | Project

  datatype Scope = Everywhere | Keyed(kind: ScopeKind, key: string, name: Option<string>)

  datatype Card = Card(
    id: string,
    status: string,
    scope: Scope,
    kind: string,
    risk: string,
    strength: real,
    sourceRunId: Option<string>,
    sourceTurn: Option<nat>,
    createdAt: string,
    lastUsedAt: Option<string>,
    usageCount: nat,
    body: string,
    quotedSpan: string,
    evidence: string)

  // ----------------------------------------------------------------- validation

  function Need(condition: bool): Option<()> {
    if condition then Some(()) else None
  }

  predicate SingleLine(s: string) {
    '\n' !in s && '\r' !in s
  }

  function OneLine(v: Json): Option<string> {
    if v.Text? && SingleLine(v.s) then Some(v.s) else None
  }

  function OneLineOrNull(v: Json): Option<Option<string>> {
    if v.Nothing? then Some(None)
    else
      var s :- OneLine(v);
      Some(Some(s))
  }

  function Literal(v: Json): Option<string> {
    if v.Text? then Some(Lf(v.s)) else None
  }

  function Count(v: Json): Option<nat> {
    if v.Whole? && v.n >= 0 then Some(v.n) else None
  }

  function CountOrNull(v: Json): Option<Option<nat>> {
    if v.Nothing? then Some(None)
    else
      var n :- Count(v);
      Some(Some(n))
  }

  function Finite(f: Floats, v: Json): Option<real> {
    if v.Whole? then f.ofInt(v.n) else if v.Float? && f.double(v.x) then Some(v.x) else None
  }

  predicate VisibleKey(key: string) {
    1 <= |key| <= MAX_KEY_BYTES && forall i :: 0 <= i < |key| ==> 0x21 <= key[i] as int <= 0x7E
  }

  predicate GoodLabel(name: string) {
    && 1 <= |name| <= MAX_LABEL_CHARS
    && forall i :: 0 <= i < |name| ==> name[i] as int >= 0x20 && name[i] as int != 0x7F
  }

  function KindOf(v: Json): Option<ScopeKind> {
    if v == Text("app") then Some(App) else if v == Text("project") then Some(Project) else None
  }

  /** normalize_scope, where only a missing scope may default to global. */
  function NormalScope(v: Json): Option<Scope> {
    var _ :- Need(v.Object? && "kind" in v.members);
    var m := v.members;
    if m["kind"] == Text("global") then
      var _ :- Need(m.Keys == {"kind"});
      Some(Everywhere)
    else
      var kind :- KindOf(m["kind"]);
      var _ :- Need(m.Keys == {"kind", "key"} || m.Keys == {"kind", "key", "label"});
      var _ :- Need(m["key"].Text? && VisibleKey(m["key"].s));
      if "label" !in m || m["label"].Nothing? then Some(Keyed(kind, m["key"].s, None))
      else
        var _ :- Need(m["label"].Text? && GoodLabel(m["label"].s));
        Some(Keyed(kind, m["key"].s, Some(m["label"].s)))
  }

  function Normalize(f: Floats, raw: Raw): Option<Card> {
    var known := raw.known;
    var _ :- Need(raw.unknown == {} && REQUIRED <= known.Keys);
    var id :- OneLine(known[Id]);
    var _ :- Need(id != "");
    var status :- OneLine(known[Status]);
    var _ :- Need(status in STATUSES);
    var kind :- OneLine(known[Kind]);
    var risk :- OneLine(known[Risk]);
    var scope :- if Scoping in known then NormalScope(known[Scoping]) else Some(Everywhere);
    var strength :- Finite(f, known[Strength]);
    var sourceTurn :- CountOrNull(known[SourceTurn]);
    var usageCount :- Count(known[UsageCount]);
    var body :- Literal(known[Body]);
    var sourceRunId :- OneLineOrNull(known[SourceRunId]);
    var quotedSpan :- Literal(known[QuotedSpan]);
    var createdAt :- OneLine(known[CreatedAt]);
    var lastUsedAt :- OneLineOrNull(known[LastUsedAt]);
    var evidence :- Literal(known[Evidence]);
    Some(Card(id, status, scope, kind, risk, strength, sourceRunId, sourceTurn, createdAt, lastUsedAt, usageCount,
              body, quotedSpan, evidence))
  }

  predicate ScopeOk(scope: Scope) {
    scope.Keyed? ==> VisibleKey(scope.key) && (scope.name.Some? ==> GoodLabel(scope.name.value))
  }

  /** What a card is after validation. */
  predicate CardOk(f: Floats, c: Card) {
    && c.id != "" && SingleLine(c.id) && SingleLine(c.status) && c.status in STATUSES
    && ScopeOk(c.scope) && SingleLine(c.kind) && SingleLine(c.risk) && f.double(c.strength)
    && (c.sourceRunId.Some? ==> SingleLine(c.sourceRunId.value)) && SingleLine(c.createdAt)
    && (c.lastUsedAt.Some? ==> SingleLine(c.lastUsedAt.value))
    && '\r' !in c.body && '\r' !in c.quotedSpan && '\r' !in c.evidence
  }

  function OrNull(s: Option<string>): Json {
    if s.Some? then Text(s.value) else Nothing
  }

  function KindName(kind: ScopeKind): string {
    if kind.App? then "app" else "project"
  }

  function ScopeMembers(scope: Scope): (members: seq<(string, string)>)
    ensures members != []
  {
    match scope
    case Everywhere => [("kind", "global")]
    case Keyed(kind, key, None) => [("kind", KindName(kind)), ("key", key)]
    case Keyed(kind, key, Some(name)) => [("kind", KindName(kind)), ("key", key), ("label", name)]
  }

  function ScopeJson(scope: Scope): Json {
    Object(Updated(map[], ScopeMembers(scope)))
  }

  function CountJson(n: Option<nat>): Json {
    if n.Some? then Whole(n.value) else Nothing
  }

  /** A validated card as the object that it is. */
  function AsRaw(c: Card): Raw {
    Raw(map[
      Id := Text(c.id), Status := Text(c.status), Scoping := ScopeJson(c.scope),
      Kind := Text(c.kind), Risk := Text(c.risk), Strength := Float(c.strength),
      SourceRunId := OrNull(c.sourceRunId),
      SourceTurn := CountJson(c.sourceTurn),
      CreatedAt := Text(c.createdAt), LastUsedAt := OrNull(c.lastUsedAt), UsageCount := Whole(c.usageCount),
      Body := Text(c.body), QuotedSpan := Text(c.quotedSpan), Evidence := Text(c.evidence)], {})
  }

  lemma NormalizeValidates(f: Floats, raw: Raw)
    requires FloatsOk(f) && Normalize(f, raw).Some?
    ensures CardOk(f, Normalize(f, raw).value)
  {
    hide SingleLine, NormalScope, ScopeOk, FloatsOk;
    if Scoping in raw.known {
      NormalScopeOk(raw.known[Scoping]);
    }
    NoScopeOk();
    FiniteIsDouble(f, raw.known[Strength]);
  }

  lemma FiniteIsDouble(f: Floats, v: Json)
    requires FloatsOk(f)
    ensures Finite(f, v).Some? ==> f.double(Finite(f, v).value)
  {
  }

  lemma NoScopeOk()
    ensures ScopeOk(Everywhere)
  {
  }

  lemma NormalScopeOk(v: Json)
    ensures NormalScope(v).Some? ==> ScopeOk(NormalScope(v).value)
  {
  }

  lemma UpdatedOnce(before: map<string, Json>, members: seq<(string, string)>)
    requires members != []
    ensures Updated(before, members) == Updated(before[members[0].0 := Text(members[0].1)], members[1..])
  {
  }

  lemma ScopeAgain(scope: Scope)
    requires ScopeOk(scope)
    ensures NormalScope(ScopeJson(scope)) == Some(scope)
  {
    var members := ScopeMembers(scope);
    UpdatedOnce(map[], members);
    match scope
    case Everywhere =>
      assert members[1..] == [];
    case Keyed(kind, key, None) =>
      var first: map<string, Json> := map["kind" := Text(KindName(kind))];
      assert members[1..] == [("key", key)] && members[1..][1..] == [];
      UpdatedOnce(first, members[1..]);
    case Keyed(kind, key, Some(name)) =>
      var first: map<string, Json> := map["kind" := Text(KindName(kind))];
      assert members[1..] == [("key", key), ("label", name)] && members[1..][1..] == [("label", name)];
      assert members[1..][1..][1..] == [];
      UpdatedOnce(first, members[1..]);
      UpdatedOnce(first["key" := Text(key)], members[1..][1..]);
  }

  /** Validation leaves a validated card as it is. */
  lemma NormalizeAgain(f: Floats, c: Card)
    requires CardOk(f, c)
    ensures Normalize(f, AsRaw(c)) == Some(c)
  {
    hide AsRaw, SingleLine, NormalScope, ScopeJson, ScopeOk;
    AsRawMembers(c);
    ScopeAgain(c.scope);
    LfKeeps(c.body);
    LfKeeps(c.quotedSpan);
    LfKeeps(c.evidence);
  }

  lemma AsRawFirst(c: Card)
    ensures AsRaw(c).unknown == {} && REQUIRED <= AsRaw(c).known.Keys && Scoping in AsRaw(c).known
    ensures var known := AsRaw(c).known;
      && known[Id] == Text(c.id) && known[Status] == Text(c.status) && known[Scoping] == ScopeJson(c.scope)
      && known[Kind] == Text(c.kind) && known[Risk] == Text(c.risk) && known[Strength] == Float(c.strength)
  {
  }

  lemma AsRawSecond(c: Card)
    ensures REQUIRED <= AsRaw(c).known.Keys
    ensures var known := AsRaw(c).known;
      && known[SourceRunId] == OrNull(c.sourceRunId) && known[SourceTurn] == CountJson(c.sourceTurn)
      && known[CreatedAt] == Text(c.createdAt) && known[LastUsedAt] == OrNull(c.lastUsedAt)
      && known[UsageCount] == Whole(c.usageCount)
  {
  }

  lemma AsRawMembers(c: Card)
    ensures AsRaw(c).unknown == {} && REQUIRED <= AsRaw(c).known.Keys && Scoping in AsRaw(c).known
    ensures var known := AsRaw(c).known;
      && known[Id] == Text(c.id) && known[Status] == Text(c.status) && known[Scoping] == ScopeJson(c.scope)
      && known[Kind] == Text(c.kind) && known[Risk] == Text(c.risk) && known[Strength] == Float(c.strength)
      && known[SourceRunId] == OrNull(c.sourceRunId) && known[SourceTurn] == CountJson(c.sourceTurn)
      && known[CreatedAt] == Text(c.createdAt) && known[LastUsedAt] == OrNull(c.lastUsedAt)
      && known[UsageCount] == Whole(c.usageCount) && known[Body] == Text(c.body)
      && known[QuotedSpan] == Text(c.quotedSpan) && known[Evidence] == Text(c.evidence)
  {
    hide ScopeJson, OrNull, CountJson;
    AsRawFirst(c);
    AsRawSecond(c);
  }

  // --------------------------------------------------- what validation lets through

  /** The object stands for the scope; a label may be missing or null. */
  predicate ScopeStands(v: Json, scope: Scope) {
    v.Object?
    && var m := v.members;
       match scope
       case Everywhere => m == map["kind" := Text("global")]
       case Keyed(kind, key, Some(name)) =>
         m == map["kind" := Text(KindName(kind)), "key" := Text(key), "label" := Text(name)]
       case Keyed(kind, key, None) =>
         || m == map["kind" := Text(KindName(kind)), "key" := Text(key)]
         || m == map["kind" := Text(KindName(kind)), "key" := Text(key), "label" := Nothing]
  }

  lemma ScopeExactly(v: Json, scope: Scope)
    ensures NormalScope(v) == Some(scope) <==> ScopeOk(scope) && ScopeStands(v, scope)
  {
  }

  predicate LiteralStands(v: Json, s: string) {
    v.Text? && Lf(v.s) == s
  }

  predicate StrengthStands(f: Floats, v: Json, x: real) {
    (v.Whole? && f.ofInt(v.n) == Some(x)) || v == Float(x)
  }

  predicate ScopeFieldStands(known: map<Field, Json>, scope: Scope) {
    if Scoping in known then ScopeStands(known[Scoping], scope) else scope.Everywhere?
  }

  /** The object has the fields of the card, all of them and no others, but for the scope, which may be missing. */
  predicate Represents(f: Floats, raw: Raw, c: Card) {
    raw.unknown == {} && REQUIRED <= raw.known.Keys
    && var known := raw.known;
       && known[Id] == Text(c.id) && known[Status] == Text(c.status) && known[Kind] == Text(c.kind)
       && known[Risk] == Text(c.risk) && known[CreatedAt] == Text(c.createdAt)
       && known[SourceRunId] == OrNull(c.sourceRunId) && known[LastUsedAt] == OrNull(c.lastUsedAt)
       && known[SourceTurn] == CountJson(c.sourceTurn) && known[UsageCount] == Whole(c.usageCount)
       && StrengthStands(f, known[Strength], c.strength) && ScopeFieldStands(known, c.scope)
       && LiteralStands(known[Body], c.body) && LiteralStands(known[QuotedSpan], c.quotedSpan)
       && LiteralStands(known[Evidence], c.evidence)
  }

  lemma OneLineExactly(v: Json, s: string)
    ensures OneLine(v) == Some(s) <==> v == Text(s) && SingleLine(s)
  {
  }

  lemma OneLineOrNullExactly(v: Json, s: Option<string>)
    ensures OneLineOrNull(v) == Some(s) <==> v == OrNull(s) && (s.Some? ==> SingleLine(s.value))
  {
  }

  lemma CountExactly(v: Json, n: Option<nat>)
    ensures CountOrNull(v) == Some(n) <==> v == CountJson(n)
    ensures n.Some? ==> (Count(v) == n <==> v == Whole(n.value))
  {
  }

  lemma LiteralExactly(v: Json, s: string)
    ensures Literal(v) == Some(s) <==> LiteralStands(v, s)
    ensures LiteralStands(v, s) ==> '\r' !in s
  {
  }

  lemma FiniteExactly(f: Floats, v: Json, x: real)
    requires FloatsOk(f)
    ensures Finite(f, v) == Some(x) <==> f.double(x) && StrengthStands(f, v, x)
  {
  }

  /** Validation gives a card if and only if the card is valid and the object stands for it. */
  lemma NormalizeExactly(f: Floats, raw: Raw, c: Card)
    requires FloatsOk(f)
    ensures Normalize(f, raw) == Some(c) <==> CardOk(f, c) && Represents(f, raw, c)
  {
    if raw.unknown == {} && REQUIRED <= raw.known.Keys {
      NormalizeFields(f, raw, c);
    }
  }

  /** Every field of the card is what its member converts to. */
  predicate Converts(f: Floats, known: map<Field, Json>, c: Card)
    requires REQUIRED <= known.Keys
  {
    && OneLine(known[Id]) == Some(c.id) && c.id != ""
    && OneLine(known[Status]) == Some(c.status) && c.status in STATUSES
    && OneLine(known[Kind]) == Some(c.kind) && OneLine(known[Risk]) == Some(c.risk)
    && (if Scoping in known then NormalScope(known[Scoping]) == Some(c.scope) else c.scope == Everywhere)
    && Finite(f, known[Strength]) == Some(c.strength)
    && CountOrNull(known[SourceTurn]) == Some(c.sourceTurn) && Count(known[UsageCount]) == Some(c.usageCount)
    && OneLineOrNull(known[SourceRunId]) == Some(c.sourceRunId)
    && OneLine(known[CreatedAt]) == Some(c.createdAt) && OneLineOrNull(known[LastUsedAt]) == Some(c.lastUsedAt)
    && Literal(known[Body]) == Some(c.body) && Literal(known[QuotedSpan]) == Some(c.quotedSpan)
    && Literal(known[Evidence]) == Some(c.evidence)
  }

  lemma NormalizeConverts(f: Floats, raw: Raw, c: Card)
    requires raw.unknown == {} && REQUIRED <= raw.known.Keys
    ensures Normalize(f, raw) == Some(c) <==> Converts(f, raw.known, c)
  {
    hide NormalScope, OneLine, OneLineOrNull, Count, CountOrNull, Literal, Finite;
  }

  lemma NormalizeFields(f: Floats, raw: Raw, c: Card)
    requires FloatsOk(f) && raw.unknown == {} && REQUIRED <= raw.known.Keys
    ensures Normalize(f, raw) == Some(c) <==> CardOk(f, c) && Represents(f, raw, c)
  {
    hide SingleLine, NormalScope, ScopeOk, ScopeStands, FloatsOk, OneLine, OneLineOrNull, Count, CountOrNull, Literal,
      LiteralStands, Finite, StrengthStands, OrNull, CountJson, Normalize;
    var known := raw.known;
    NormalizeConverts(f, raw, c);
    OneLineExactly(known[Id], c.id);
    OneLineExactly(known[Status], c.status);
    OneLineExactly(known[Kind], c.kind);
    OneLineExactly(known[Risk], c.risk);
    OneLineExactly(known[CreatedAt], c.createdAt);
    OneLineOrNullExactly(known[SourceRunId], c.sourceRunId);
    OneLineOrNullExactly(known[LastUsedAt], c.lastUsedAt);
    CountExactly(known[SourceTurn], c.sourceTurn);
    CountExactly(known[UsageCount], Some(c.usageCount));
    FiniteExactly(f, known[Strength], c.strength);
    LiteralExactly(known[Body], c.body);
    LiteralExactly(known[QuotedSpan], c.quotedSpan);
    LiteralExactly(known[Evidence], c.evidence);
    NoScopeOk();
    if Scoping in known {
      ScopeExactly(known[Scoping], c.scope);
    }
  }

  // ------------------------------------------------------------------- printing

  function OrNullText(s: Option<string>): string {
    if s.Some? then Quote(s.value) else "null"
  }

  /** The JSON text of a metadata field. */
  function Encoded(f: Floats, c: Card, field: Field): string {
    match field
    case Id => Quote(c.id)
    case Status => Quote(c.status)
    case Scoping => ObjectText(ScopeMembers(c.scope))
    case Kind => Quote(c.kind)
    case Risk => Quote(c.risk)
    case Strength => f.show(c.strength)
    case SourceRunId => OrNullText(c.sourceRunId)
    case SourceTurn => if c.sourceTurn.Some? then Decimal(c.sourceTurn.value) else "null"
    case CreatedAt => Quote(c.createdAt)
    case LastUsedAt => OrNullText(c.lastUsedAt)
    case UsageCount => Decimal(c.usageCount)
    case _ => []
  }

  function Prefix(field: Field): string {
    "- " + Name(field) + ": "
  }

  function MetadataLine(f: Floats, c: Card, field: Field): string {
    Prefix(field) + Encoded(f, c, field)
  }

  function BlockOf(c: Card, field: Field): string {
    if field == QuotedSpan then c.quotedSpan else if field == Evidence then c.evidence else c.body
  }

  function Heading(field: Field): string {
    "### " + Title(field)
  }

  function FenceLine(value: string, field: Field): string {
    Fence(value) + [' '] + Tag(field)
  }

  /** A literal block and the blank line before it. */
  function BlockLines(c: Card, field: Field): seq<string> {
    var value := BlockOf(c, field);
    ["", Heading(field), "", FenceLine(value, field)] + (Split(value) + [Fence(value)])
  }

  function MetadataLines(f: Floats, c: Card): seq<string> {
    seq(|METADATA|, k requires 0 <= k < |METADATA| => MetadataLine(f, c, METADATA[k]))
  }

  function CardLines(f: Floats, c: Card): seq<string> {
    [CARD, ""] + (MetadataLines(f, c) + (BlockLines(c, Body) + (BlockLines(c, QuotedSpan) + BlockLines(c, Evidence))))
  }

  /** The lines of a section, written out: the order of its fields, their names and the titles of its blocks. */
  lemma CardLayout(f: Floats, c: Card)
    ensures MetadataLines(f, c) == [
      "- id: " + Quote(c.id), "- status: " + Quote(c.status), "- scope: " + ObjectText(ScopeMembers(c.scope)),
      "- kind: " + Quote(c.kind), "- risk: " + Quote(c.risk), "- strength: " + f.show(c.strength),
      "- source_run_id: " + OrNullText(c.sourceRunId),
      "- source_turn: " + (if c.sourceTurn.Some? then Decimal(c.sourceTurn.value) else "null"),
      "- created_at: " + Quote(c.createdAt), "- last_used_at: " + OrNullText(c.lastUsedAt),
      "- usage_count: " + Decimal(c.usageCount)]
    ensures CardLines(f, c) == ["## Card", ""] + (MetadataLines(f, c)
      + ((["", "### Text", "", Fence(c.body) + " text"] + (Split(c.body) + [Fence(c.body)]))
      + ((["", "### Quoted span", "", Fence(c.quotedSpan) + " quoted-span"]
          + (Split(c.quotedSpan) + [Fence(c.quotedSpan)]))
      + (["", "### Evidence", "", Fence(c.evidence) + " evidence"] + (Split(c.evidence) + [Fence(c.evidence)])))))
  {
    hide Quote, ObjectText, Decimal, Split, Fence, OrNullText, ScopeMembers;
    LayoutOfMetadata(f, c);
    LayoutOfBlock(c, Body);
    LayoutOfBlock(c, QuotedSpan);
    LayoutOfBlock(c, Evidence);
    hide MetadataLines, BlockLines;
  }

  lemma LayoutOfBlock(c: Card, field: Field)
    ensures field == Body ==>
      BlockLines(c, field) == ["", "### Text", "", Fence(c.body) + " text"] + (Split(c.body) + [Fence(c.body)])
    ensures field == QuotedSpan ==>
      BlockLines(c, field) == ["", "### Quoted span", "", Fence(c.quotedSpan) + " quoted-span"]
        + (Split(c.quotedSpan) + [Fence(c.quotedSpan)])
    ensures field == Evidence ==>
      BlockLines(c, field) == ["", "### Evidence", "", Fence(c.evidence) + " evidence"]
        + (Split(c.evidence) + [Fence(c.evidence)])
  {
    hide Split, Fence;
    var value := BlockOf(c, field);
    assert Fence(value) + [' '] + Tag(field) == Fence(value) + ([' '] + Tag(field));
    assert field == Body ==> [' '] + Tag(field) == " text" && Heading(field) == "### Text";
    assert field == QuotedSpan ==> [' '] + Tag(field) == " quoted-span" && Heading(field) == "### Quoted span";
    assert field == Evidence ==> [' '] + Tag(field) == " evidence" && Heading(field) == "### Evidence";
  }

  lemma LayoutOfMetadata(f: Floats, c: Card)
    ensures MetadataLines(f, c) == [
      "- id: " + Quote(c.id), "- status: " + Quote(c.status), "- scope: " + ObjectText(ScopeMembers(c.scope)),
      "- kind: " + Quote(c.kind), "- risk: " + Quote(c.risk), "- strength: " + f.show(c.strength),
      "- source_run_id: " + OrNullText(c.sourceRunId),
      "- source_turn: " + (if c.sourceTurn.Some? then Decimal(c.sourceTurn.value) else "null"),
      "- created_at: " + Quote(c.createdAt), "- last_used_at: " + OrNullText(c.lastUsedAt),
      "- usage_count: " + Decimal(c.usageCount)]
  {
    FirstPrefixes();
    LastPrefixes();
    hide Quote, ObjectText, Decimal, OrNullText, ScopeMembers, Prefix;
    assert METADATA == [Id, Status, Scoping, Kind, Risk, Strength, SourceRunId, SourceTurn, CreatedAt, LastUsedAt,
                        UsageCount];
  }

  lemma FirstPrefixes()
    ensures Prefix(Id) == "- id: " && Prefix(Status) == "- status: " && Prefix(Scoping) == "- scope: "
    ensures Prefix(Kind) == "- kind: " && Prefix(Risk) == "- risk: " && Prefix(Strength) == "- strength: "
  {
  }

  lemma LastPrefixes()
    ensures Prefix(SourceRunId) == "- source_run_id: " && Prefix(SourceTurn) == "- source_turn: "
    ensures Prefix(CreatedAt) == "- created_at: " && Prefix(LastUsedAt) == "- last_used_at: "
    ensures Prefix(UsageCount) == "- usage_count: "
  {
  }

  /** Every card's section, and the blank line before each. */
  function Sections(f: Floats, cards: seq<Card>): seq<string> {
    if cards == [] then [] else [""] + CardLines(f, cards[0]) + Sections(f, cards[1..])
  }

  function DocumentLines(f: Floats, cards: seq<Card>): seq<string> {
    [MAGIC, HEADING] + (Sections(f, cards) + [""])
  }

  function Document(f: Floats, cards: seq<Card>): string {
    Join("\n", DocumentLines(f, cards))
  }

  function NormalizeAll(f: Floats, raws: seq<Raw>): Option<seq<Card>> {
    if raws == [] then Some([])
    else
      var init :- NormalizeAll(f, raws[..|raws| - 1]);
      var last :- Normalize(f, raws[|raws| - 1]);
      Some(init + [last])
  }

  predicate DistinctIds(cards: seq<Card>) {
    forall i, j :: 0 <= i < j < |cards| ==> cards[i].id != cards[j].id
  }

  function Format(f: Floats, raws: seq<Raw>): Option<string> {
    var _ :- Need(|raws| <= MAX_CARDS);
    var cards :- NormalizeAll(f, raws);
    var _ :- Need(DistinctIds(cards));
    var _ :- Need(|Document(f, cards)| <= MAX_DOCUMENT_CHARS);
    Some(Document(f, cards))
  }

  // -------------------------------------------------------------------- parsing

  function SkipBlank(lines: seq<string>, i: nat): (j: nat)
    ensures i <= j && (i <= |lines| ==> j <= |lines|)
    decreases |lines| - i
  {
    if i < |lines| && lines[i] == "" then SkipBlank(lines, i + 1) else i
  }

  /** The members from the k-th field on; a document may lack the scope. */
  function Metadata(f: Floats, lines: seq<string>, i: nat, fields: seq<Field>, k: nat, known: map<Field, Json>)
    : (r: Option<(map<Field, Json>, nat)>)
    requires i <= |lines| && k <= |fields|
    ensures r.Some? ==> i <= r.value.1 <= |lines|
    decreases |fields| - k
  {
    if k == |fields| then Some((known, i))
    else
      var prefix := Prefix(fields[k]);
      if i < |lines| && prefix <= lines[i] then
        var v :- Loads(f, lines[i][|prefix|..]);
        Metadata(f, lines, i + 1, fields, k + 1, known[fields[k] := v])
      else if fields[k] == Scoping then Metadata(f, lines, i, fields, k + 1, known)
      else None
  }

  function FirstSpace(line: string): (k: nat)
    ensures k <= |line| && (k < |line| ==> line[k] == ' ')
  {
    if line == [] || line[0] == ' ' then 0 else 1 + FirstSpace(line[1..])
  }

  predicate AllTildes(s: string) {
    forall k :: 0 <= k < |s| ==> s[k] == '~'
  }

  /** The fence of an opening line with the given tag. */
  function Opening(line: string, tag: string): Option<string> {
    var k := FirstSpace(line);
    var _ :- Need(k < |line| && line[k + 1..] == tag && k >= 3 && AllTildes(line[..k]));
    Some(line[..k])
  }

  function FindLine(lines: seq<string>, i: nat, line: string): (j: nat)
    requires i <= |lines|
    ensures i <= j <= |lines| && (j < |lines| ==> lines[j] == line)
    decreases |lines| - i
  {
    if i == |lines| || lines[i] == line then i else FindLine(lines, i + 1, line)
  }

  function ParseLiteral(lines: seq<string>, i: nat, field: Field): (r: Option<(string, nat)>)
    ensures r.Some? ==> i < r.value.1 <= |lines|
  {
    var _ :- Need(i < |lines| && lines[i] == Heading(field));
    var j := SkipBlank(lines, i + 1);
    var _ :- Need(j < |lines|);
    var fence :- Opening(lines[j], Tag(field));
    var end := FindLine(lines, j + 1, fence);
    var _ :- Need(end < |lines|);
    var value := Join("\n", lines[j + 1..end]);
    var _ :- Need(fence == Fence(value));
    Some((value, end + 1))
  }

  function Blocks(lines: seq<string>, i: nat, k: nat, known: map<Field, Json>): (r: Option<(map<Field, Json>, nat)>)
    requires i <= |lines| && k <= |BLOCKS|
    ensures r.Some? ==> i <= r.value.1 <= |lines|
    decreases |BLOCKS| - k
  {
    if k == |BLOCKS| then Some((known, i))
    else
      var block :- ParseLiteral(lines, SkipBlank(lines, i), BLOCKS[k]);
      Blocks(lines, block.1, k + 1, known[BLOCKS[k] := Text(block.0)])
  }

  /** The card whose heading is line i, and the line after it. */
  function ParseCard(f: Floats, lines: seq<string>, i: nat): (r: Option<(Card, nat)>)
    requires i < |lines|
    ensures r.Some? ==> i < r.value.1 <= |lines|
  {
    var _ :- Need(lines[i] == CARD);
    var metadata :- Metadata(f, lines, SkipBlank(lines, i + 1), METADATA, 0, map[]);
    var all :- Blocks(lines, metadata.1, 0, metadata.0);
    var card :- Normalize(f, Raw(all.0, {}));
    Some((card, all.1))
  }

  function ParseFrom(f: Floats, lines: seq<string>, i: nat, cards: seq<Card>): Option<seq<Card>>
    requires i <= |lines|
    decreases |lines| - i
  {
    if i == |lines| then Some(cards)
    else
      var next :- ParseCard(f, lines, i);
      var _ :- Need(|cards| + 1 <= MAX_CARDS);
      ParseFrom(f, lines, SkipBlank(lines, next.1), cards + [next.0])
  }

  function WithoutMark(text: string): string {
    if text != [] && text[0] == BYTE_ORDER_MARK then text[1..] else text
  }

  predicate HeaderOk(lines: seq<string>) {
    |lines| >= 2 && lines[0] == MAGIC && lines[1] == HEADING
  }

  function Parse(f: Floats, document: string): Option<seq<Card>> {
    var _ :- Need(|document| <= MAX_DOCUMENT_CHARS);
    var lines := Split(WithoutMark(Lf(document)));
    var _ :- Need(HeaderOk(lines));
    var cards :- ParseFrom(f, lines, SkipBlank(lines, 2), []);
    var _ :- Need(DistinctIds(cards));
    Some(cards)
  }

  // -------------------------------------------------------- reading what was printed

  lemma EncodedLoads(f: Floats, c: Card, field: Field)
    requires FloatsOk(f) && CardOk(f, c) && field in METADATA
    ensures field in AsRaw(c).known && Loads(f, Encoded(f, c, field)) == Some(AsRaw(c).known[field])
  {
    hide Loads, Quote, Decimal, ObjectText, AsRaw, SingleLine, FloatsOk;
    AsRawMembers(c);
    match field
    case Id => LoadsQuote(f, c.id);
    case Status => LoadsQuote(f, c.status);
    case Scoping => LoadsObject(f, ScopeMembers(c.scope));
    case Kind => LoadsQuote(f, c.kind);
    case Risk => LoadsQuote(f, c.risk);
    case Strength => LoadsFloat(f, c.strength);
    case SourceRunId => LoadsOrNull(f, c.sourceRunId);
    case SourceTurn => LoadsCount(f, c.sourceTurn);
    case CreatedAt => LoadsQuote(f, c.createdAt);
    case LastUsedAt => LoadsOrNull(f, c.lastUsedAt);
    case UsageCount => LoadsDecimal(f, c.usageCount);
    case _ => assert false;
  }

  lemma LoadsOrNull(f: Floats, s: Option<string>)
    ensures Loads(f, OrNullText(s)) == Some(OrNull(s))
  {
    hide Loads, Quote;
    LoadsNull(f);
    if s.Some? {
      LoadsQuote(f, s.value);
    }
  }

  lemma LoadsCount(f: Floats, n: Option<nat>)
    ensures Loads(f, if n.Some? then Decimal(n.value) else "null") == Some(CountJson(n))
  {
    hide Loads, Decimal;
    LoadsNull(f);
    if n.Some? {
      LoadsDecimal(f, n.value);
    }
  }

  /** The fields read so far are those of the card. */
  ghost predicate Agrees(known: map<Field, Json>, c: Card, fields: set<Field>) {
    && known.Keys == fields
    && forall x :: x in fields ==> x in AsRaw(c).known && known[x] == AsRaw(c).known[x]
  }

  ghost predicate PrintedAt(f: Floats, lines: seq<string>, i: nat, c: Card, field: Field) {
    i < |lines| && lines[i] == MetadataLine(f, c, field)
  }

  lemma OneFieldReads(f: Floats, lines: seq<string>, i: nat, fields: seq<Field>, k: nat, c: Card,
                      known: map<Field, Json>)
    requires k < |fields| && i < |lines| && PrintedAt(f, lines, i, c, fields[k]) && fields[k] in AsRaw(c).known
    requires Loads(f, Encoded(f, c, fields[k])) == Some(AsRaw(c).known[fields[k]])
    ensures Metadata(f, lines, i, fields, k, known)
         == Metadata(f, lines, i + 1, fields, k + 1, known[fields[k] := AsRaw(c).known[fields[k]]])
  {
    hide Loads, Encoded, AsRaw, Prefix;
    assert lines[i][|Prefix(fields[k])|..] == Encoded(f, c, fields[k]);
  }

  lemma AgreesMore(known: map<Field, Json>, c: Card, fields: seq<Field>, k: nat)
    requires k < |fields| && fields[k] in AsRaw(c).known && Agrees(known, c, ToSet(fields[..k]))
    ensures Agrees(known[fields[k] := AsRaw(c).known[fields[k]]], c, ToSet(fields[..k + 1]))
  {
    hide AsRaw;
    assert fields[..k + 1] == fields[..k] + [fields[k]];
    ToSetAppend(fields[..k], fields[k]);
  }

  lemma {:induction false} MetadataReads(f: Floats, lines: seq<string>, start: nat, fields: seq<Field>, k: nat,
                                         c: Card, known: map<Field, Json>)
    requires FloatsOk(f) && CardOk(f, c) && k <= |fields| && start + |fields| <= |lines|
    requires forall j :: 0 <= j < |fields| ==> fields[j] in METADATA && PrintedAt(f, lines, start + j, c, fields[j])
    requires Agrees(known, c, ToSet(fields[..k]))
    ensures var r := Metadata(f, lines, start + k, fields, k, known);
      r.Some? && r.value.1 == start + |fields| && Agrees(r.value.0, c, ToSet(fields))
    decreases |fields| - k
  {
    hide AsRaw, FloatsOk, PrintedAt, CardOk, Loads, Encoded, Agrees;
    if k == |fields| {
      assert fields[..k] == fields;
    } else {
      var field := fields[k];
      assert field in METADATA && PrintedAt(f, lines, start + k, c, field);
      EncodedLoads(f, c, field);
      OneFieldReads(f, lines, start + k, fields, k, c, known);
      AgreesMore(known, c, fields, k);
      MetadataReads(f, lines, start, fields, k + 1, c, known[field := AsRaw(c).known[field]]);
    }
  }

  lemma FieldKnown(c: Card, field: Field)
    ensures field in AsRaw(c).known
  {
  }

  // ------------------------------------------------------------- literal blocks

  lemma {:induction false} FirstSpaceAfter(s: string, rest: string)
    requires ' ' !in s
    ensures FirstSpace(s + [' '] + rest) == |s|
  {
    var line := s + [' '] + rest;
    if s == [] {
      assert line[0] == ' ';
    } else {
      assert s[0] in s && forall x :: x in s[1..] ==> x in s;
      assert line[1..] == s[1..] + [' '] + rest;
      FirstSpaceAfter(s[1..], rest);
    }
  }

  lemma OpeningReads(value: string, field: Field)
    ensures Opening(FenceLine(value, field), Tag(field)) == Some(Fence(value))
  {
    hide Tag, LongestTildes, FirstSpace;
    var fence := Fence(value);
    FirstSpaceAfter(fence, Tag(field));
    var line := FenceLine(value, field);
    assert line[..|fence|] == fence && line[|fence| + 1..] == Tag(field);
  }

  lemma {:induction false} FindLineAt(lines: seq<string>, i: nat, line: string, end: nat)
    requires i <= end < |lines| && lines[end] == line
    requires forall k :: i <= k < end ==> lines[k] != line
    ensures FindLine(lines, i, line) == end
    decreases end - i
  {
    if i < end {
      FindLineAt(lines, i + 1, line, end);
    }
  }

  lemma BlockParts(lines: seq<string>, i: nat, c: Card, field: Field, value: string, end: nat)
    requires At(lines, i, BlockLines(c, field)) && value == BlockOf(c, field) && end == i + 4 + |Split(value)|
    ensures end + 1 == i + |BlockLines(c, field)| && end < |lines|
    ensures lines[i] == "" && lines[i + 1] == Heading(field) && lines[i + 2] == ""
    ensures lines[i + 3] == FenceLine(value, field)
    ensures lines[i + 4..end] == Split(value) && lines[end] == Fence(value)
  {
    hide Split, Fence, FenceLine, Heading, BlockOf;
    var block := BlockLines(c, field);
    AtIndex(lines, i, block, 0);
    AtIndex(lines, i, block, 1);
    AtIndex(lines, i, block, 2);
    AtIndex(lines, i, block, 3);
    AtIndex(lines, i, block, |block| - 1);
    AtSplit(lines, i, ["", Heading(field), "", FenceLine(value, field)], Split(value) + [Fence(value)]);
    AtSplit(lines, i + 4, Split(value), [Fence(value)]);
  }

  /** Exactly the blank lines from i on are skipped. */
  lemma {:induction false} SkipBlankExactly(lines: seq<string>, i: nat)
    requires i <= |lines|
    ensures var j := SkipBlank(lines, i);
      i <= j <= |lines| && (forall k :: i <= k < j ==> lines[k] == "") && (j < |lines| ==> lines[j] != "")
    decreases |lines| - i
  {
    if i < |lines| && lines[i] == "" {
      SkipBlankExactly(lines, i + 1);
    }
  }

  /** The first such line from i on is found, or none. */
  lemma {:induction false} FindLineExactly(lines: seq<string>, i: nat, line: string)
    requires i <= |lines|
    ensures var j := FindLine(lines, i, line);
      i <= j <= |lines| && (forall k :: i <= k < j ==> lines[k] != line) && (j < |lines| ==> lines[j] == line)
    decreases |lines| - i
  {
    if i < |lines| && lines[i] != line {
      FindLineExactly(lines, i + 1, line);
    }
  }

  lemma SkipOne(lines: seq<string>, i: nat)
    requires i + 1 < |lines| && lines[i] == "" && lines[i + 1] != ""
    ensures SkipBlank(lines, i) == i + 1
  {
  }

  /** What ParseLiteral does with a block that it can read. */
  lemma LiteralStep(lines: seq<string>, i: nat, field: Field, j: nat, fence: string, end: nat, value: string)
    requires i < |lines| && lines[i] == Heading(field) && SkipBlank(lines, i + 1) == j
    requires j < |lines| && Opening(lines[j], Tag(field)) == Some(fence)
    requires FindLine(lines, j + 1, fence) == end && end < |lines|
    requires Join("\n", lines[j + 1..end]) == value && fence == Fence(value)
    ensures ParseLiteral(lines, i, field) == Some((value, end + 1))
  {
    hide Join, Fence, FindLine, Opening, SkipBlank, Heading, Tag;
  }

  lemma FenceFound(lines: seq<string>, i: nat, value: string, end: nat)
    requires i <= end < |lines| && lines[i..end] == Split(value) && lines[end] == Fence(value)
    ensures FindLine(lines, i, Fence(value)) == end
  {
    hide Split, Fence, FindLine;
    forall k | i <= k < end ensures lines[k] != Fence(value) {
      assert lines[i..end][k - i] == lines[k];
      FenceIsNoLine(value, k - i);
    }
    FindLineAt(lines, i, Fence(value), end);
  }

  /** A printed block reads as its value. */
  lemma BlockReads(lines: seq<string>, i: nat, c: Card, field: Field)
    requires At(lines, i, BlockLines(c, field))
    ensures i + |BlockLines(c, field)| <= |lines|
    ensures ParseLiteral(lines, SkipBlank(lines, i), field) == Some((BlockOf(c, field), i + |BlockLines(c, field)|))
  {
    hide BlockLines, Split, Fence, SkipBlank, Opening, FindLine, BlockOf, Join, Heading, FenceLine, ParseLiteral, Tag;
    var value := BlockOf(c, field);
    var end := i + 4 + |Split(value)|;
    BlockParts(lines, i, c, field, value, end);
    NotBlank(value, field);
    SkipOne(lines, i);
    SkipOne(lines, i + 2);
    OpeningReads(value, field);
    FenceFound(lines, i + 4, value, end);
    JoinSplit(value);
    LiteralStep(lines, i + 1, field, i + 3, Fence(value), end, value);
  }

  lemma NotBlank(value: string, field: Field)
    ensures Heading(field) != "" && FenceLine(value, field) != ""
  {
  }

  // ----------------------------------------------------------------- whole cards

  lemma BlocksStep(lines: seq<string>, i: nat, k: nat, known: map<Field, Json>, value: string, j: nat)
    requires i <= |lines| && k < |BLOCKS| && j <= |lines|
    requires ParseLiteral(lines, SkipBlank(lines, i), BLOCKS[k]) == Some((value, j))
    ensures Blocks(lines, i, k, known) == Blocks(lines, j, k + 1, known[BLOCKS[k] := Text(value)])
  {
    hide ParseLiteral, SkipBlank;
  }

  function WithBlocks(known: map<Field, Json>, c: Card): map<Field, Json> {
    known[Body := Text(c.body)][QuotedSpan := Text(c.quotedSpan)][Evidence := Text(c.evidence)]
  }

  lemma BlocksRead(lines: seq<string>, i: nat, c: Card, known: map<Field, Json>, j: nat, k: nat, end: nat)
    requires i <= |lines|
    requires At(lines, i, BlockLines(c, Body)) && j == i + |BlockLines(c, Body)|
    requires At(lines, j, BlockLines(c, QuotedSpan)) && k == j + |BlockLines(c, QuotedSpan)|
    requires At(lines, k, BlockLines(c, Evidence)) && end == k + |BlockLines(c, Evidence)|
    ensures Blocks(lines, i, 0, known) == Some((WithBlocks(known, c), end))
  {
    hide BlockLines, ParseLiteral, SkipBlank, At, METADATA;
    var withBody := known[Body := Text(c.body)];
    var withSpan := withBody[QuotedSpan := Text(c.quotedSpan)];
    var all := withSpan[Evidence := Text(c.evidence)];
    BlockReads(lines, i, c, Body);
    BlockReads(lines, j, c, QuotedSpan);
    BlockReads(lines, k, c, Evidence);
    BlocksStep(lines, i, 0, known, c.body, j);
    BlocksStep(lines, j, 1, withBody, c.quotedSpan, k);
    BlocksStep(lines, k, 2, withSpan, c.evidence, end);
  }

  lemma EveryField(field: Field)
    ensures field == Body || field == QuotedSpan || field == Evidence || field in ToSet(METADATA)
  {
    match field
    case Id => assert METADATA[0] == field;
    case Status => assert METADATA[1] == field;
    case Scoping => assert METADATA[2] == field;
    case Kind => assert METADATA[3] == field;
    case Risk => assert METADATA[4] == field;
    case Strength => assert METADATA[5] == field;
    case SourceRunId => assert METADATA[6] == field;
    case SourceTurn => assert METADATA[7] == field;
    case CreatedAt => assert METADATA[8] == field;
    case LastUsedAt => assert METADATA[9] == field;
    case UsageCount => assert METADATA[10] == field;
    case _ =>
  }

  lemma AllKnown(c: Card, known: map<Field, Json>, all: map<Field, Json>)
    requires Agrees(known, c, ToSet(METADATA))
    requires all == known[Body := Text(c.body)][QuotedSpan := Text(c.quotedSpan)][Evidence := Text(c.evidence)]
    ensures all == AsRaw(c).known
  {
    hide AsRaw, METADATA, ToSet;
    AsRawMembers(c);
    forall field: Field ensures field in all && field in AsRaw(c).known && all[field] == AsRaw(c).known[field] {
      FieldKnown(c, field);
      EveryField(field);
    }
  }

  /** Where the parts of a printed card are. */
  lemma CardParts(f: Floats, lines: seq<string>, i: nat, c: Card, a: nat, b: nat, d: nat, end: nat)
    requires At(lines, i, CardLines(f, c))
    requires a == i + 2 + |METADATA| && b == a + |BlockLines(c, Body)|
    requires d == b + |BlockLines(c, QuotedSpan)| && end == d + |BlockLines(c, Evidence)|
    ensures end == i + |CardLines(f, c)| && At(lines, i, [CARD, ""]) && At(lines, i + 2, MetadataLines(f, c))
    ensures At(lines, a, BlockLines(c, Body)) && At(lines, b, BlockLines(c, QuotedSpan))
    ensures At(lines, d, BlockLines(c, Evidence))
  {
    hide At, BlockLines;
    var third, second := BlockLines(c, Evidence), BlockLines(c, QuotedSpan) + BlockLines(c, Evidence);
    var first := BlockLines(c, Body) + second;
    AtSplit(lines, i, [CARD, ""], MetadataLines(f, c) + first);
    AtSplit(lines, i + 2, MetadataLines(f, c), first);
    AtSplit(lines, a, BlockLines(c, Body), second);
    AtSplit(lines, b, BlockLines(c, QuotedSpan), third);
  }

  lemma MetadataAt(f: Floats, lines: seq<string>, i: nat, c: Card)
    requires At(lines, i, MetadataLines(f, c))
    ensures i + |METADATA| <= |lines|
    ensures forall j :: 0 <= j < |METADATA| ==> METADATA[j] in METADATA && PrintedAt(f, lines, i + j, c, METADATA[j])
    ensures lines[i] != ""
  {
    hide MetadataLine;
    forall j | 0 <= j < |METADATA| ensures METADATA[j] in METADATA && PrintedAt(f, lines, i + j, c, METADATA[j]) {
      AtIndex(lines, i, MetadataLines(f, c), j);
    }
    assert PrintedAt(f, lines, i + 0, c, METADATA[0]);
    MetadataNotBlank(f, c, METADATA[0]);
  }

  lemma MetadataNotBlank(f: Floats, c: Card, field: Field)
    ensures MetadataLine(f, c, field) != ""
  {
  }

  /** What ParseCard does with a card that it can read. */
  lemma CardStep(f: Floats, lines: seq<string>, i: nat, start: nat, known: map<Field, Json>, a: nat,
                 all: map<Field, Json>, c: Card, end: nat)
    requires i < |lines| && lines[i] == CARD && SkipBlank(lines, i + 1) == start <= |lines|
    requires Metadata(f, lines, start, METADATA, 0, map[]) == Some((known, a))
    requires a <= |lines| && Blocks(lines, a, 0, known) == Some((all, end))
    requires Normalize(f, Raw(all, {})) == Some(c)
    ensures ParseCard(f, lines, i) == Some((c, end))
  {
    hide SkipBlank, Metadata, Blocks, Normalize, METADATA;
  }

  /** A printed card reads as itself. */
  lemma CardReads(f: Floats, lines: seq<string>, i: nat, c: Card)
    requires FloatsOk(f) && CardOk(f, c) && At(lines, i, CardLines(f, c))
    ensures i + |CardLines(f, c)| <= |lines|
    ensures ParseCard(f, lines, i) == Some((c, i + |CardLines(f, c)|))
  {
    hide CardLines, BlockLines, MetadataLines, FloatsOk, CardOk, Metadata, Blocks, Normalize, AsRaw, ParseCard,
      PrintedAt, Agrees;
    var a := i + 2 + |METADATA|;
    var b := a + |BlockLines(c, Body)|;
    var d := b + |BlockLines(c, QuotedSpan)|;
    var end := d + |BlockLines(c, Evidence)|;
    CardParts(f, lines, i, c, a, b, d, end);
    AtIndex(lines, i, [CARD, ""], 0);
    AtIndex(lines, i, [CARD, ""], 1);
    MetadataAt(f, lines, i + 2, c);
    SkipOne(lines, i + 1);
    assert METADATA[..0] == [];
    NothingYet(c);
    MetadataReads(f, lines, i + 2, METADATA, 0, c, map[]);
    var known := Metadata(f, lines, i + 2, METADATA, 0, map[]).value.0;
    BlocksRead(lines, a, c, known, b, d, end);
    AllKnown(c, known, WithBlocks(known, c));
    NormalizeAgain(f, c);
    assert AsRaw(c) == Raw(AsRaw(c).known, {}) by {
      AsRawMembers(c);
    }
    CardStep(f, lines, i, i + 2, known, a, AsRaw(c).known, c, end);
  }

  // ------------------------------------------- cards printed before there were scopes

  /** The fields from the k-th on are printed from line i on. */
  ghost predicate PrintedFrom(f: Floats, lines: seq<string>, i: nat, c: Card, fields: seq<Field>, k: nat) {
    forall j :: k <= j < |fields| ==> fields[j] in METADATA && PrintedAt(f, lines, i + (j - k), c, fields[j])
  }

  lemma PrintedNext(f: Floats, lines: seq<string>, i: nat, c: Card, fields: seq<Field>, k: nat)
    requires k < |fields| && PrintedFrom(f, lines, i, c, fields, k)
    ensures fields[k] in METADATA && PrintedAt(f, lines, i, c, fields[k])
    ensures PrintedFrom(f, lines, i + 1, c, fields, k + 1)
  {
    hide PrintedAt, METADATA;
    assert PrintedAt(f, lines, i + (k - k), c, fields[k]);
    forall j | k + 1 <= j < |fields|
      ensures fields[j] in METADATA && PrintedAt(f, lines, i + 1 + (j - (k + 1)), c, fields[j])
    {
      assert PrintedAt(f, lines, i + (j - k), c, fields[j]);
    }
  }

  /** The fields from the k-th on, whatever was read before. */
  lemma {:induction false} MetadataRest(f: Floats, lines: seq<string>, i: nat, fields: seq<Field>, k: nat, c: Card,
                                        known: map<Field, Json>, done: set<Field>)
    requires FloatsOk(f) && CardOk(f, c) && k <= |fields| && i + (|fields| - k) <= |lines|
    requires PrintedFrom(f, lines, i, c, fields, k) && Agrees(known, c, done)
    ensures var r := Metadata(f, lines, i, fields, k, known);
      r.Some? && r.value.1 == i + (|fields| - k) && Agrees(r.value.0, c, done + ToSet(fields[k..]))
    decreases |fields| - k
  {
    hide AsRaw, FloatsOk, PrintedAt, PrintedFrom, CardOk, Loads, Encoded, Agrees, METADATA, ToSet;
    RestOfFields(fields, k, done);
    if k < |fields| {
      var field := fields[k];
      PrintedNext(f, lines, i, c, fields, k);
      EncodedLoads(f, c, field);
      OneFieldReads(f, lines, i, fields, k, c, known);
      AgreesOneMore(known, c, done, field);
      MetadataRest(f, lines, i + 1, fields, k + 1, c, known[field := AsRaw(c).known[field]], done + {field});
    }
  }

  lemma RestOfFields(fields: seq<Field>, k: nat, done: set<Field>)
    requires k <= |fields|
    ensures k == |fields| ==> done + ToSet(fields[k..]) == done
    ensures k < |fields| ==> done + {fields[k]} + ToSet(fields[k + 1..]) == done + ToSet(fields[k..])
  {
    if k < |fields| {
      assert fields[k..] == [fields[k]] + fields[k + 1..];
    }
  }

  lemma AgreesOneMore(known: map<Field, Json>, c: Card, done: set<Field>, field: Field)
    requires Agrees(known, c, done) && field in AsRaw(c).known
    ensures Agrees(known[field := AsRaw(c).known[field]], c, done + {field})
  {
    hide AsRaw;
  }

  lemma NoScopeLine(f: Floats, lines: seq<string>, i: nat, c: Card, known: map<Field, Json>)
    requires PrintedAt(f, lines, i, c, Kind)
    ensures Metadata(f, lines, i, METADATA, 2, known) == Metadata(f, lines, i, METADATA, 3, known)
  {
    hide Encoded;
    var line := MetadataLine(f, c, Kind);
    assert line == "- kind: " + Encoded(f, c, Kind);
    assert line[2] == 'k' && Prefix(Scoping)[2] == 's';
  }

  ghost predicate PrintedWithoutScope(f: Floats, lines: seq<string>, i: nat, c: Card) {
    && i + 10 <= |lines| && PrintedAt(f, lines, i, c, Id) && PrintedAt(f, lines, i + 1, c, Status)
    && PrintedFrom(f, lines, i + 2, c, METADATA, 3)
  }

  lemma MetadataFields()
    ensures |METADATA| == 11 && METADATA[0] == Id && METADATA[1] == Status && METADATA[3] == Kind
  {
  }

  function FirstTwo(c: Card): map<Field, Json> {
    map[Id := Text(c.id), Status := Text(c.status)]
  }

  lemma FirstTwoRead(f: Floats, lines: seq<string>, i: nat, c: Card)
    requires FloatsOk(f) && CardOk(f, c) && PrintedWithoutScope(f, lines, i, c)
    ensures Metadata(f, lines, i, METADATA, 0, map[]) == Metadata(f, lines, i + 2, METADATA, 2, FirstTwo(c))
    ensures Agrees(FirstTwo(c), c, {Id, Status})
  {
    MetadataFields();
    hide AsRaw, FloatsOk, PrintedAt, PrintedFrom, CardOk, Loads, Encoded, Agrees, Metadata, METADATA;
    AsRawMembers(c);
    var none: map<Field, Json> := map[];
    EncodedLoads(f, c, METADATA[0]);
    EncodedLoads(f, c, METADATA[1]);
    OneFieldReads(f, lines, i, METADATA, 0, c, none);
    OneFieldReads(f, lines, i + 1, METADATA, 1, c, none[Id := Text(c.id)]);
    NoneAgrees(c);
    AgreesOneMore(none, c, {}, Id);
    AgreesOneMore(none[Id := Text(c.id)], c, {} + {Id}, Status);
    assert {} + {Id} + {Status} == {Id, Status};
  }

  lemma ScopelessMetadata(f: Floats, lines: seq<string>, i: nat, c: Card)
    requires FloatsOk(f) && CardOk(f, c) && PrintedWithoutScope(f, lines, i, c)
    ensures var r := Metadata(f, lines, i, METADATA, 0, map[]);
      r.Some? && r.value.1 == i + 10 && Agrees(r.value.0, c, {Id, Status} + ToSet(METADATA[3..]))
  {
    FirstTwoRead(f, lines, i, c);
    MetadataFields();
    hide AsRaw, FloatsOk, PrintedAt, PrintedFrom, CardOk, Agrees, Metadata, ToSet, METADATA, FirstTwo;
    PrintedNext(f, lines, i + 2, c, METADATA, 3);
    NoScopeLine(f, lines, i + 2, c, FirstTwo(c));
    MetadataRest(f, lines, i + 2, METADATA, 3, c, FirstTwo(c), {Id, Status});
  }

  lemma NoneAgrees(c: Card)
    ensures Agrees(map[], c, {})
  {
  }

  lemma ScopelessFields(c: Card, known: map<Field, Json>, done: set<Field>)
    requires Agrees(known, c, done) && done == {Id, Status} + ToSet(METADATA[3..])
    ensures var all := WithBlocks(known, c);
      && REQUIRED <= all.Keys && Scoping !in all
      && all[Id] == Text(c.id) && all[Status] == Text(c.status) && all[Kind] == Text(c.kind)
      && all[Risk] == Text(c.risk) && all[Strength] == Float(c.strength) && all[CreatedAt] == Text(c.createdAt)
      && all[SourceRunId] == OrNull(c.sourceRunId) && all[LastUsedAt] == OrNull(c.lastUsedAt)
      && all[SourceTurn] == CountJson(c.sourceTurn) && all[UsageCount] == Whole(c.usageCount)
      && all[Body] == Text(c.body) && all[QuotedSpan] == Text(c.quotedSpan) && all[Evidence] == Text(c.evidence)
  {
    LaterFields();
    hide AsRaw, OrNull, CountJson, METADATA, ToSet, WithBlocks, Agrees;
    AsRawMembers(c);
    WithBlocksIs(known, c);
    AgreesKeys(known, c, done);
    AgreesAt(known, c, done, Id);
    AgreesAt(known, c, done, Status);
    AgreesAt(known, c, done, Kind);
    AgreesAt(known, c, done, Risk);
    AgreesAt(known, c, done, Strength);
    AgreesAt(known, c, done, SourceRunId);
    AgreesAt(known, c, done, SourceTurn);
    AgreesAt(known, c, done, CreatedAt);
    AgreesAt(known, c, done, LastUsedAt);
    AgreesAt(known, c, done, UsageCount);
  }

  lemma AgreesKeys(known: map<Field, Json>, c: Card, fields: set<Field>)
    requires Agrees(known, c, fields)
    ensures known.Keys == fields
  {
  }

  lemma AgreesAt(known: map<Field, Json>, c: Card, fields: set<Field>, x: Field)
    requires Agrees(known, c, fields) && x in fields
    ensures x in known && x in AsRaw(c).known && known[x] == AsRaw(c).known[x]
  {
  }

  lemma WithBlocksIs(known: map<Field, Json>, c: Card)
    ensures WithBlocks(known, c).Keys == known.Keys + {Body, QuotedSpan, Evidence}
    ensures forall x :: x in known && x !in {Body, QuotedSpan, Evidence} ==> WithBlocks(known, c)[x] == known[x]
    ensures var all := WithBlocks(known, c);
      all[Body] == Text(c.body) && all[QuotedSpan] == Text(c.quotedSpan) && all[Evidence] == Text(c.evidence)
  {
  }

  /** What is read without a scope line stands for the card with global scope. */
  lemma ScopelessStands(f: Floats, c: Card, known: map<Field, Json>)
    requires FloatsOk(f) && CardOk(f, c) && Agrees(known, c, {Id, Status} + ToSet(METADATA[3..]))
    ensures Normalize(f, Raw(WithBlocks(known, c), {})) == Some(c.(scope := Everywhere))
  {
    ScopelessFields(c, known, {Id, Status} + ToSet(METADATA[3..]));
    hide Normalize, AsRaw, FloatsOk, SingleLine, Agrees, WithBlocks, METADATA, OrNull, CountJson;
    LfKeeps(c.body);
    LfKeeps(c.quotedSpan);
    LfKeeps(c.evidence);
    NoScopeOk();
    NormalizeExactly(f, Raw(WithBlocks(known, c), {}), c.(scope := Everywhere));
  }

  lemma LaterFields()
    ensures ToSet(METADATA[3..]) == {Kind, Risk, Strength, SourceRunId, SourceTurn, CreatedAt, LastUsedAt, UsageCount}
  {
    var rest := METADATA[3..];
    assert rest == [Kind, Risk, Strength, SourceRunId, SourceTurn, CreatedAt, LastUsedAt, UsageCount];
  }

  /** The lines of a card but for its scope. */
  function OlderLines(f: Floats, c: Card): seq<string> {
    [CARD, ""] + (MetadataLines(f, c)[..2] + (MetadataLines(f, c)[3..]
    + (BlockLines(c, Body) + (BlockLines(c, QuotedSpan) + BlockLines(c, Evidence)))))
  }

  lemma OlderMetadataAt(f: Floats, lines: seq<string>, i: nat, c: Card)
    requires At(lines, i, MetadataLines(f, c)[..2]) && At(lines, i + 2, MetadataLines(f, c)[3..])
    ensures PrintedWithoutScope(f, lines, i, c) && lines[i] != ""
  {
    hide MetadataLine;
    AtIndex(lines, i, MetadataLines(f, c)[..2], 0);
    AtIndex(lines, i, MetadataLines(f, c)[..2], 1);
    forall j | 3 <= j < |METADATA|
      ensures METADATA[j] in METADATA && PrintedAt(f, lines, i + 2 + (j - 3), c, METADATA[j])
    {
      AtIndex(lines, i + 2, MetadataLines(f, c)[3..], j - 3);
    }
    MetadataNotBlank(f, c, METADATA[0]);
  }

  /** Such a card reads as the same card with global scope. */
  lemma OlderCardReads(f: Floats, lines: seq<string>, i: nat, c: Card)
    requires FloatsOk(f) && CardOk(f, c) && At(lines, i, OlderLines(f, c))
    ensures i + |OlderLines(f, c)| <= |lines|
    ensures ParseCard(f, lines, i) == Some((c.(scope := Everywhere), i + |OlderLines(f, c)|))
  {
    hide BlockLines, MetadataLines, FloatsOk, CardOk, Metadata, Blocks, Normalize, ParseCard, Agrees, At,
      PrintedWithoutScope;
    var third := BlockLines(c, Evidence);
    var second := BlockLines(c, QuotedSpan) + third;
    var first := BlockLines(c, Body) + second;
    MetadataCount(f, c);
    var head, tail := MetadataLines(f, c)[..2], MetadataLines(f, c)[3..];
    AtSplit(lines, i, [CARD, ""], head + (tail + first));
    AtSplit(lines, i + 2, head, tail + first);
    AtSplit(lines, i + 4, tail, first);
    var a := i + 12;
    var b := a + |BlockLines(c, Body)|;
    var d := b + |BlockLines(c, QuotedSpan)|;
    AtSplit(lines, a, BlockLines(c, Body), second);
    AtSplit(lines, b, BlockLines(c, QuotedSpan), third);
    AtIndex(lines, i, [CARD, ""], 0);
    AtIndex(lines, i, [CARD, ""], 1);
    OlderMetadataAt(f, lines, i + 2, c);
    WithoutScopeRoom(f, lines, i + 2, c);
    SkipOne(lines, i + 1);
    ScopelessMetadata(f, lines, i + 2, c);
    var known := Metadata(f, lines, i + 2, METADATA, 0, map[]).value.0;
    BlocksRead(lines, a, c, known, b, d, d + |third|);
    ScopelessStands(f, c, known);
    CardStep(f, lines, i, i + 2, known, a, WithBlocks(known, c), c.(scope := Everywhere), d + |third|);
  }

  lemma MetadataCount(f: Floats, c: Card)
    ensures |MetadataLines(f, c)| == 11
  {
  }

  lemma WithoutScopeRoom(f: Floats, lines: seq<string>, i: nat, c: Card)
    requires PrintedWithoutScope(f, lines, i, c)
    ensures i + 10 <= |lines|
  {
  }

  lemma NothingYet(c: Card)
    ensures Agrees(map[], c, ToSet([]))
  {
  }

  lemma CardFirst(f: Floats, c: Card)
    ensures |CardLines(f, c)| > 0 && CardLines(f, c)[0] == CARD
  {
  }

  lemma Regroup(a: seq<string>, b: seq<string>, c: seq<string>, d: seq<string>)
    ensures a + b + c + d == a + (b + (c + d))
  {
  }

  lemma SectionParts(f: Floats, lines: seq<string>, i: nat, cards: seq<Card>, next: nat)
    requires cards != [] && At(lines, i, Sections(f, cards) + [""])
    requires next == i + 1 + |CardLines(f, cards[0])|
    ensures i + 1 < |lines| && lines[i] == "" && lines[i + 1] == CARD && At(lines, i + 1, CardLines(f, cards[0]))
    ensures At(lines, next, Sections(f, cards[1..]) + [""])
    ensures i + |Sections(f, cards)| == next + |Sections(f, cards[1..])|
  {
    hide At, CardLines;
    var rest := Sections(f, cards[1..]) + [""];
    CardFirst(f, cards[0]);
    Regroup([""], CardLines(f, cards[0]), Sections(f, cards[1..]), [""]);
    AtSplit(lines, i, [""], CardLines(f, cards[0]) + rest);
    AtOne(lines, i, "");
    AtSplit(lines, i + 1, CardLines(f, cards[0]), rest);
    AtIndex(lines, i + 1, CardLines(f, cards[0]), 0);
  }

  /** The printed sections up to the end of the document read as their cards. */
  lemma {:induction false} SectionsRead(f: Floats, lines: seq<string>, i: nat, cards: seq<Card>, before: seq<Card>)
    requires FloatsOk(f) && forall k :: 0 <= k < |cards| ==> CardOk(f, cards[k])
    requires At(lines, i, Sections(f, cards) + [""]) && i + |Sections(f, cards)| + 1 == |lines|
    requires |before| + |cards| <= MAX_CARDS
    ensures SkipBlank(lines, i) <= |lines|
    ensures ParseFrom(f, lines, SkipBlank(lines, i), before) == Some(before + cards)
    decreases |cards|
  {
    hide FloatsOk, CardOk, CardLines, ParseCard;
    if cards == [] {
      AtOne(lines, i, "");
      assert before + cards == before;
    } else {
      var next := i + 1 + |CardLines(f, cards[0])|;
      SectionParts(f, lines, i, cards, next);
      SkipOne(lines, i);
      CardReads(f, lines, i + 1, cards[0]);
      SectionsRead(f, lines, next, cards[1..], before + [cards[0]]);
      assert before + [cards[0]] + cards[1..] == before + cards;
    }
  }

  // ------------------------------------------------------------------ line breaks

  ghost predicate Unbroken(lines: seq<string>) {
    forall k :: 0 <= k < |lines| ==> SingleLine(lines[k])
  }

  lemma UnbrokenConcat(a: seq<string>, b: seq<string>)
    requires Unbroken(a) && Unbroken(b)
    ensures Unbroken(a + b)
  {
  }

  lemma Together(a: string, b: string)
    requires SingleLine(a) && SingleLine(b)
    ensures SingleLine(a + b)
  {
  }

  lemma PrintableLine(s: string)
    requires forall k :: 0 <= k < |s| ==> s[k] >= ' '
    ensures SingleLine(s)
  {
  }

  lemma QuoteUnbroken(t: string)
    ensures SingleLine(Quote(t))
  {
    EscapedPrintable(t);
    PrintableLine(Escaped(t));
  }

  lemma DecimalUnbroken(n: nat)
    ensures SingleLine(Decimal(n))
  {
    DecimalReads(n);
    PrintableLine(Decimal(n));
  }

  lemma {:induction false} MembersUnbroken(members: seq<(string, string)>)
    requires members != []
    ensures SingleLine(MembersText(members))
    decreases |members|
  {
    hide Quote;
    QuoteUnbroken(members[0].0);
    QuoteUnbroken(members[0].1);
    if |members| > 1 {
      MembersUnbroken(members[1..]);
    }
  }

  lemma FloatUnbroken(f: Floats, x: real)
    requires FloatsOk(f) && f.double(x)
    ensures SingleLine(f.show(x))
  {
    PrintableLine(f.show(x));
  }

  lemma OrNullUnbroken(s: Option<string>)
    ensures SingleLine(OrNullText(s))
  {
    hide Quote;
    if s.Some? {
      QuoteUnbroken(s.value);
    }
  }

  lemma CountUnbroken(n: Option<nat>)
    ensures SingleLine(if n.Some? then Decimal(n.value) else "null")
  {
    hide Decimal;
    if n.Some? {
      DecimalUnbroken(n.value);
    }
  }

  lemma ScopeUnbroken(scope: Scope)
    ensures SingleLine(ObjectText(ScopeMembers(scope)))
  {
    hide MembersText, ScopeMembers;
    MembersUnbroken(ScopeMembers(scope));
  }

  lemma EncodedUnbroken(f: Floats, c: Card, field: Field)
    requires FloatsOk(f) && CardOk(f, c)
    ensures SingleLine(MetadataLine(f, c, field))
  {
    hide Quote, Decimal, ObjectText, OrNullText, SingleLine, FloatsOk, Prefix;
    match field {
      case Id => QuoteUnbroken(c.id);
      case Status => QuoteUnbroken(c.status);
      case Scoping => ScopeUnbroken(c.scope);
      case Kind => QuoteUnbroken(c.kind);
      case Risk => QuoteUnbroken(c.risk);
      case Strength => FloatUnbroken(f, c.strength);
      case SourceRunId => OrNullUnbroken(c.sourceRunId);
      case SourceTurn => CountUnbroken(c.sourceTurn);
      case CreatedAt => QuoteUnbroken(c.createdAt);
      case LastUsedAt => OrNullUnbroken(c.lastUsedAt);
      case UsageCount => DecimalUnbroken(c.usageCount);
      case _ => PrintableLine([]);
    }
    PrefixUnbroken(field);
    Together(Prefix(field), Encoded(f, c, field));
  }

  lemma PrefixUnbroken(field: Field)
    ensures SingleLine(Prefix(field))
  {
    assert SingleLine(Name(field));
  }

  lemma FenceUnbroken(value: string, field: Field)
    ensures SingleLine(Fence(value)) && SingleLine(FenceLine(value, field)) && SingleLine(Heading(field))
  {
  }

  lemma BlockUnbroken(c: Card, field: Field)
    requires '\r' !in BlockOf(c, field)
    ensures Unbroken(BlockLines(c, field))
  {
    hide Fence, FenceLine, Heading, BlockOf;
    var value := BlockOf(c, field);
    FenceUnbroken(value, field);
    forall k | 0 <= k < |Split(value)| ensures SingleLine(Split(value)[k]) {
      SplitLacks(value, '\r', k);
    }
  }

  lemma CardUnbroken(f: Floats, c: Card)
    requires FloatsOk(f) && CardOk(f, c)
    ensures Unbroken([""] + CardLines(f, c))
  {
    hide MetadataLine, BlockLines, FloatsOk;
    forall k | 0 <= k < |METADATA| ensures SingleLine(MetadataLines(f, c)[k]) {
      EncodedUnbroken(f, c, METADATA[k]);
    }
    BlockUnbroken(c, Body);
    BlockUnbroken(c, QuotedSpan);
    BlockUnbroken(c, Evidence);
  }

  lemma {:induction false} SectionsUnbroken(f: Floats, cards: seq<Card>)
    requires FloatsOk(f) && forall k :: 0 <= k < |cards| ==> CardOk(f, cards[k])
    ensures Unbroken(Sections(f, cards))
    decreases |cards|
  {
    hide FloatsOk, CardOk, CardLines;
    if cards != [] {
      CardUnbroken(f, cards[0]);
      SectionsUnbroken(f, cards[1..]);
      UnbrokenConcat([""] + CardLines(f, cards[0]), Sections(f, cards[1..]));
    }
  }

  /** The lines of a printed document are those it was printed from. */
  lemma DocumentSplits(f: Floats, cards: seq<Card>)
    requires FloatsOk(f) && forall k :: 0 <= k < |cards| ==> CardOk(f, cards[k])
    ensures Split(WithoutMark(Lf(Document(f, cards)))) == DocumentLines(f, cards)
  {
    hide FloatsOk, CardOk, Sections, SingleLine;
    var lines := DocumentLines(f, cards);
    SectionsUnbroken(f, cards);
    assert Unbroken(lines) by {
      HeaderUnbroken();
      UnbrokenConcat(Sections(f, cards), [""]);
      UnbrokenConcat([MAGIC, HEADING], Sections(f, cards) + [""]);
    }
    LinesUnbroken(lines);
    JoinLacks(lines, '\r');
    LfKeeps(Document(f, cards));
    StartsWithMagic(f, cards);
    SplitJoin(lines);
  }

  lemma HeaderUnbroken()
    ensures Unbroken([MAGIC, HEADING]) && Unbroken([""])
  {
    assert SingleLine("<!-- clozn-memory-cards:");
    assert SingleLine(SCHEMA);
    assert SingleLine(" -->");
    Together("<!-- clozn-memory-cards:", SCHEMA);
    Together("<!-- clozn-memory-cards:" + SCHEMA, " -->");
    assert SingleLine(HEADING);
  }

  lemma LinesUnbroken(lines: seq<string>)
    requires Unbroken(lines)
    ensures forall k :: 0 <= k < |lines| ==> '\n' !in lines[k] && '\r' !in lines[k]
  {
  }

  lemma StartsWithMagic(f: Floats, cards: seq<Card>)
    ensures WithoutMark(Document(f, cards)) == Document(f, cards)
  {
    MagicFirst(f, cards);
  }

  lemma MagicFirst(f: Floats, cards: seq<Card>)
    ensures Document(f, cards) != [] && Document(f, cards)[0] == '<'
  {
    hide Sections, Join;
    var rest := [HEADING] + (Sections(f, cards) + [""]);
    assert DocumentLines(f, cards) == [MAGIC] + rest;
    JoinConcat("\n", [MAGIC], rest);
    JoinOne("\n", MAGIC);
    assert MAGIC[0] == '<';
  }

  // ----------------------------------------------------------------- round trips

  lemma {:induction false} AllValidated(f: Floats, raws: seq<Raw>)
    requires FloatsOk(f) && NormalizeAll(f, raws).Some?
    ensures |NormalizeAll(f, raws).value| == |raws|
    ensures forall k :: 0 <= k < |raws| ==> CardOk(f, NormalizeAll(f, raws).value[k])
  {
    hide FloatsOk, CardOk, Normalize;
    if raws != [] {
      AllValidated(f, raws[..|raws| - 1]);
      NormalizeValidates(f, raws[|raws| - 1]);
    }
  }

  /** Any validated cards with distinct ids come back from a document that is not too long. */
  lemma DocumentReads(f: Floats, cards: seq<Card>)
    requires FloatsOk(f) && (forall k :: 0 <= k < |cards| ==> CardOk(f, cards[k])) && DistinctIds(cards)
    requires |cards| <= MAX_CARDS && |Document(f, cards)| <= MAX_DOCUMENT_CHARS
    ensures Parse(f, Document(f, cards)) == Some(cards)
  {
    hide FloatsOk, CardOk, ParseFrom, Split, Lf, WithoutMark, Document, SkipBlank, Sections;
    DocumentSplits(f, cards);
    var lines := DocumentLines(f, cards);
    AtWhole(lines);
    AtSplit(lines, 0, [MAGIC, HEADING], Sections(f, cards) + [""]);
    SectionsRead(f, lines, 2, cards, []);
    assert [] + cards == cards;
  }

  /** Parsing what was formatted gives the normalised cards. */
  lemma FormatThenParse(f: Floats, raws: seq<Raw>)
    requires FloatsOk(f) && Format(f, raws).Some?
    ensures Parse(f, Format(f, raws).value) == NormalizeAll(f, raws)
  {
    hide FloatsOk, CardOk, Parse, Document, NormalizeAll;
    AllValidated(f, raws);
    DocumentReads(f, NormalizeAll(f, raws).value);
  }

  /** A printed document has no carriage return, and does not begin with a byte order mark. */
  lemma DocumentIsPlain(f: Floats, cards: seq<Card>)
    requires FloatsOk(f) && forall k :: 0 <= k < |cards| ==> CardOk(f, cards[k])
    ensures '\r' !in Document(f, cards)
    ensures Document(f, cards) != [] && Document(f, cards)[0] == '<'
  {
    hide FloatsOk, CardOk, Sections, SingleLine;
    var lines := DocumentLines(f, cards);
    SectionsUnbroken(f, cards);
    assert Unbroken(lines) by {
      HeaderUnbroken();
      UnbrokenConcat(Sections(f, cards), [""]);
      UnbrokenConcat([MAGIC, HEADING], Sections(f, cards) + [""]);
    }
    LinesUnbroken(lines);
    JoinLacks(lines, '\r');
    MagicFirst(f, cards);
  }

  /** Only what the document is after its line ends are normalised matters, and its length. */
  lemma SameLines(f: Floats, a: string, b: string)
    requires |a| <= MAX_DOCUMENT_CHARS && |b| <= MAX_DOCUMENT_CHARS
    requires WithoutMark(Lf(a)) == WithoutMark(Lf(b))
    ensures Parse(f, a) == Parse(f, b)
  {
    hide ParseFrom, Split, Lf, WithoutMark, SkipBlank;
  }

  /** A formatted document parses with the line ends of Windows too, unless it is too long then. */
  lemma WindowsDocumentReads(f: Floats, raws: seq<Raw>)
    requires FloatsOk(f) && Format(f, raws).Some?
    ensures var document := Windows(Format(f, raws).value);
      Parse(f, document) == if |document| <= MAX_DOCUMENT_CHARS then NormalizeAll(f, raws) else None
  {
    hide FloatsOk, CardOk, Document, NormalizeAll, ParseFrom, Lf, WithoutMark, Windows;
    FormatThenParse(f, raws);
    AllValidated(f, raws);
    var text := Format(f, raws).value;
    DocumentIsPlain(f, NormalizeAll(f, raws).value);
    LfOfWindows(text);
    LfKeeps(text);
    if |Windows(text)| <= MAX_DOCUMENT_CHARS {
      SameLines(f, Windows(text), text);
    }
  }

  /** And with a byte order mark in front. */
  lemma MarkedDocumentReads(f: Floats, raws: seq<Raw>)
    requires FloatsOk(f) && Format(f, raws).Some?
    ensures var document := [BYTE_ORDER_MARK] + Format(f, raws).value;
      Parse(f, document) == if |document| <= MAX_DOCUMENT_CHARS then NormalizeAll(f, raws) else None
  {
    hide FloatsOk, CardOk, Document, NormalizeAll, ParseFrom, Lf;
    FormatThenParse(f, raws);
    AllValidated(f, raws);
    var text := Format(f, raws).value;
    DocumentIsPlain(f, NormalizeAll(f, raws).value);
    LfKeeps(text);
    LfKeeps([BYTE_ORDER_MARK] + text);
    assert ([BYTE_ORDER_MARK] + text)[1..] == text;
    if |text| + 1 <= MAX_DOCUMENT_CHARS {
      SameLines(f, [BYTE_ORDER_MARK] + text, text);
    }
  }

  function AllRaw(cards: seq<Card>): seq<Raw> {
    seq(|cards|, k requires 0 <= k < |cards| => AsRaw(cards[k]))
  }

  lemma {:induction false} NormalizeAllAgain(f: Floats, cards: seq<Card>)
    requires forall k :: 0 <= k < |cards| ==> CardOk(f, cards[k])
    ensures NormalizeAll(f, AllRaw(cards)) == Some(cards)
  {
    hide CardOk, Normalize, AsRaw;
    if cards != [] {
      var init, last := cards[..|cards| - 1], cards[|cards| - 1];
      var raws := AllRaw(cards);
      assert raws[..|raws| - 1] == AllRaw(init);
      NormalizeAllAgain(f, init);
      NormalizeAgain(f, last);
      assert init + [last] == cards;
    }
  }

  lemma {:induction false} ParseValidates(f: Floats, lines: seq<string>, i: nat, before: seq<Card>)
    requires FloatsOk(f) && i <= |lines| && ParseFrom(f, lines, i, before).Some?
    requires |before| <= MAX_CARDS && forall k :: 0 <= k < |before| ==> CardOk(f, before[k])
    ensures var cards := ParseFrom(f, lines, i, before).value;
      |cards| <= MAX_CARDS && forall k :: 0 <= k < |cards| ==> CardOk(f, cards[k])
    decreases |lines| - i
  {
    hide FloatsOk, CardOk, ParseCard, SkipBlank;
    if i < |lines| {
      ParsedCardOk(f, lines, i);
      var next := ParseCard(f, lines, i).value;
      ParseValidates(f, lines, SkipBlank(lines, next.1), before + [next.0]);
    }
  }

  lemma ParsedCardOk(f: Floats, lines: seq<string>, i: nat)
    requires FloatsOk(f) && i < |lines| && ParseCard(f, lines, i).Some?
    ensures CardOk(f, ParseCard(f, lines, i).value.0)
  {
    hide FloatsOk, CardOk, Metadata, Blocks, SkipBlank, Normalize;
    var metadata := Metadata(f, lines, SkipBlank(lines, i + 1), METADATA, 0, map[]).value;
    var all := Blocks(lines, metadata.1, 0, metadata.0).value;
    NormalizeValidates(f, Raw(all.0, {}));
  }

  /**
   A parsed document formats again unless the result is too long, and then parses to the
   same cards.
   */
  lemma ParseThenFormat(f: Floats, document: string)
    requires FloatsOk(f) && Parse(f, document).Some?
    ensures var cards := Parse(f, document).value;
      && (Format(f, AllRaw(cards)).Some? <==> |Document(f, cards)| <= MAX_DOCUMENT_CHARS)
      && (Format(f, AllRaw(cards)).Some? ==> Parse(f, Format(f, AllRaw(cards)).value) == Some(cards))
  {
    hide FloatsOk, CardOk, ParseFrom, Split, Lf, WithoutMark, Document, SkipBlank, NormalizeAll;
    var lines := Split(WithoutMark(Lf(document)));
    ParseValidates(f, lines, SkipBlank(lines, 2), []);
    var cards := Parse(f, document).value;
    NormalizeAllAgain(f, cards);
    if Format(f, AllRaw(cards)).Some? {
      FormatThenParse(f, AllRaw(cards));
    }
  }

  /** Formatting is canonical: the parsed cards give the same text again. */
  lemma FormatIsCanonical(f: Floats, raws: seq<Raw>)
    requires FloatsOk(f) && Format(f, raws).Some?
    ensures Parse(f, Format(f, raws).value).Some?
    ensures Format(f, AllRaw(Parse(f, Format(f, raws).value).value)) == Format(f, raws)
  {
    hide FloatsOk, CardOk, Parse, Document, NormalizeAll;
    FormatThenParse(f, raws);
    AllValidated(f, raws);
    NormalizeAllAgain(f, NormalizeAll(f, raws).value);
  }

  // ---------------------------------------------------- the functions as they run

  /** A literal block as one text. */
  function LiteralBlock(field: Field, value: string): string {
    Heading(field) + "\n" + "" + "\n" + FenceLine(value, field) + "\n" + value + "\n" + Fence(value)
  }

  lemma BlockText(lines: seq<string>, c: Card, field: Field)
    requires lines != []
    ensures Join("\n", lines + ["", LiteralBlock(field, BlockOf(c, field))])
         == Join("\n", lines + BlockLines(c, field))
  {
    hide Heading, FenceLine, Fence, BlockOf, Join, Split;
    var value := BlockOf(c, field);
    var head := [Heading(field), "", FenceLine(value, field)];
    var tail := Split(value) + [Fence(value)];
    assert lines + ["", LiteralBlock(field, value)] == (lines + [""]) + [LiteralBlock(field, value)];
    assert lines + BlockLines(c, field) == (lines + [""]) + (head + tail);
    JoinConcat("\n", lines + [""], [LiteralBlock(field, value)]);
    JoinConcat("\n", lines + [""], head + tail);
    JoinOne("\n", LiteralBlock(field, value));
    BlockJoins(field, value, head, tail);
  }

  lemma BlockJoins(field: Field, value: string, head: seq<string>, tail: seq<string>)
    requires head == [Heading(field), "", FenceLine(value, field)] && tail == Split(value) + [Fence(value)]
    ensures Join("\n", head + tail) == LiteralBlock(field, value)
  {
    hide Heading, FenceLine, Fence, Join, Split;
    JoinConcat("\n", head, tail);
    JoinAppend("\n", Split(value), Fence(value));
    JoinSplit(value);
    assert head == [Heading(field)] + [""] + [FenceLine(value, field)];
    JoinAppend("\n", [Heading(field)] + [""], FenceLine(value, field));
    JoinAppend("\n", [Heading(field)], "");
    JoinOne("\n", Heading(field));
    assert Join("\n", head) == Heading(field) + "\n" + "" + "\n" + FenceLine(value, field);
  }

  lemma {:induction false} SectionsAppend(f: Floats, cards: seq<Card>, c: Card)
    ensures Sections(f, cards + [c]) == Sections(f, cards) + ([""] + CardLines(f, c))
  {
    hide CardLines;
    var all := cards + [c];
    if cards == [] {
      assert all[1..] == [] && all[0] == c;
    } else {
      assert all[0] == cards[0] && all[1..] == cards[1..] + [c];
      SectionsAppend(f, cards[1..], c);
      var first := [""] + CardLines(f, cards[0]);
      assert first + Sections(f, cards[1..]) + ([""] + CardLines(f, c))
          == first + (Sections(f, cards[1..]) + ([""] + CardLines(f, c)));
    }
  }

  /** One more section, joined to the others by a blank line. */
  lemma SectionText(f: Floats, cards: seq<Card>, c: Card, sections: seq<string>)
    requires sections != [] && Join("\n\n", sections) == Join("\n", [MAGIC, HEADING] + Sections(f, cards))
    ensures Join("\n\n", sections + [Join("\n", CardLines(f, c))])
         == Join("\n", [MAGIC, HEADING] + Sections(f, cards + [c]))
  {
    hide Join, Sections, CardLines;
    var before, section := [MAGIC, HEADING] + Sections(f, cards), CardLines(f, c);
    CardFirst(f, c);
    SectionsAppend(f, cards, c);
    JoinAppend("\n\n", sections, Join("\n", section));
    assert [MAGIC, HEADING] + Sections(f, cards + [c]) == before + ([""] + section);
    JoinConcat("\n", before, [""] + section);
    JoinConcat("\n", [""], section);
    JoinOne("\n", "");
    TwoBreaks(Join("\n", before), Join("\n", section));
  }

  lemma TwoBreaks(a: string, b: string)
    ensures a + "\n\n" + b == a + "\n" + ("" + "\n" + b)
  {
  }

  lemma {:induction false} NormalizeFails(f: Floats, raws: seq<Raw>, k: nat)
    requires k <= |raws| && NormalizeAll(f, raws[..k]).None?
    ensures NormalizeAll(f, raws).None?
    decreases |raws| - k
  {
    if k == |raws| {
      assert raws[..k] == raws;
    } else {
      assert raws[..k + 1][..k] == raws[..k];
      NormalizeFails(f, raws, k + 1);
    }
  }

  method NormalizeCards(f: Floats, raws: seq<Raw>) returns (r: Option<seq<Card>>)
    ensures r == NormalizeAll(f, raws)
  {
    hide Normalize;
    var cards: seq<Card> := [];
    for k := 0 to |raws|
      invariant NormalizeAll(f, raws[..k]) == Some(cards)
    {
      assert raws[..k + 1][..k] == raws[..k];
      var c := Normalize(f, raws[k]);
      if c.None? {
        NormalizeFails(f, raws, k + 1);
        return None;
      }
      cards := cards + [c.value];
    }
    assert raws[..|raws|] == raws;
    r := Some(cards);
  }

  /** One section of the document. */
  method FormatCard(f: Floats, c: Card) returns (section: string)
    ensures section == Join("\n", CardLines(f, c))
  {
    hide MetadataLine, LiteralBlock, BlockLines, Join;
    var lines: seq<string> := [CARD, ""];
    for k := 0 to |METADATA|
      invariant lines == [CARD, ""] + MetadataLines(f, c)[..k]
    {
      lines := lines + [MetadataLine(f, c, METADATA[k])];
    }
    ghost var flat := [CARD, ""] + MetadataLines(f, c);
    assert lines == flat;
    for k := 0 to |BLOCKS|
      invariant lines != [] && flat != [] && Join("\n", lines) == Join("\n", flat)
      invariant flat == [CARD, ""] + MetadataLines(f, c) + FirstBlocks(c, k)
    {
      var field := BLOCKS[k];
      BlockText(lines, c, field);
      BlockNotEmpty(c, field);
      SameStart(lines, flat, BlockLines(c, field));
      flat := flat + BlockLines(c, field);
      lines := lines + ["", LiteralBlock(field, BlockOf(c, field))];
    }
    AllBlocks(f, c);
    section := Join("\n", lines);
  }

  ghost function FirstBlocks(c: Card, k: nat): seq<string>
    requires k <= |BLOCKS|
  {
    if k == 0 then [] else FirstBlocks(c, k - 1) + BlockLines(c, BLOCKS[k - 1])
  }

  lemma BlockNotEmpty(c: Card, field: Field)
    ensures BlockLines(c, field) != []
  {
  }

  lemma AllBlocks(f: Floats, c: Card)
    ensures [CARD, ""] + MetadataLines(f, c) + FirstBlocks(c, |BLOCKS|) == CardLines(f, c)
  {
    hide BlockLines, MetadataLines;
    var first, second, third := BlockLines(c, Body), BlockLines(c, QuotedSpan), BlockLines(c, Evidence);
    assert FirstBlocks(c, 0) + first == first;
    assert FirstBlocks(c, 1) == first;
    assert FirstBlocks(c, 2) == first + second;
    assert FirstBlocks(c, 3) == (first + second) + third;
    Regroup([CARD, ""], MetadataLines(f, c), first, second + third);
    assert (first + second) + third == first + (second + third);
  }

  lemma SameStart(a: seq<string>, b: seq<string>, more: seq<string>)
    requires a != [] && b != [] && Join("\n", a) == Join("\n", b) && more != []
    ensures Join("\n", a + more) == Join("\n", b + more)
  {
    JoinConcat("\n", a, more);
    JoinConcat("\n", b, more);
  }

  method FormatCards(f: Floats, raws: seq<Raw>) returns (r: Option<string>)
    ensures r == Format(f, raws)
  {
    hide Normalize, NormalizeAll, Join, Sections, CardLines;
    if |raws| > MAX_CARDS {
      return None;
    }
    var normalized := NormalizeCards(f, raws);
    if normalized.None? || !DistinctIds(normalized.value) {
      return None;
    }
    var cards := normalized.value;
    var sections: seq<string> := [MAGIC + "\n" + HEADING];
    HeaderText(f);
    for k := 0 to |cards|
      invariant sections != []
      invariant Join("\n\n", sections) == Join("\n", [MAGIC, HEADING] + Sections(f, cards[..k]))
    {
      var section := FormatCard(f, cards[k]);
      SectionText(f, cards[..k], cards[k], sections);
      assert cards[..k + 1] == cards[..k] + [cards[k]];
      sections := sections + [section];
    }
    assert cards[..|cards|] == cards;
    var document := Join("\n\n", sections) + "\n";
    DocumentText(f, cards, document);
    r := if |document| <= MAX_DOCUMENT_CHARS then Some(document) else None;
  }

  lemma HeaderText(f: Floats)
    ensures Join("\n\n", [MAGIC + "\n" + HEADING]) == Join("\n", [MAGIC, HEADING] + Sections(f, []))
  {
    hide Join;
    JoinOne("\n\n", MAGIC + "\n" + HEADING);
    assert [MAGIC, HEADING] + Sections(f, []) == [MAGIC] + [HEADING];
    JoinAppend("\n", [MAGIC], HEADING);
    JoinOne("\n", MAGIC);
  }

  lemma DocumentText(f: Floats, cards: seq<Card>, document: string)
    requires document == Join("\n", [MAGIC, HEADING] + Sections(f, cards)) + "\n"
    ensures document == Document(f, cards)
  {
    hide Join, Sections;
    assert DocumentLines(f, cards) == ([MAGIC, HEADING] + Sections(f, cards)) + [""];
    JoinAppend("\n", [MAGIC, HEADING] + Sections(f, cards), "");
    assert document + "" == document;
  }

  method SkipBlankLines(lines: seq<string>, start: nat) returns (i: nat)
    ensures i == SkipBlank(lines, start)
  {
    i := start;
    while i < |lines| && lines[i] == ""
      invariant SkipBlank(lines, i) == SkipBlank(lines, start)
      decreases |lines| - i
    {
      i := i + 1;
    }
  }

  method ParseBlock(lines: seq<string>, start: nat, field: Field) returns (r: Option<(string, nat)>)
    ensures r == ParseLiteral(lines, start, field)
  {
    hide SkipBlank, Opening, Join, Fence, Heading, Tag;
    if start >= |lines| || lines[start] != Heading(field) {
      return None;
    }
    var index := SkipBlankLines(lines, start + 1);
    if index >= |lines| {
      return None;
    }
    var opening := Opening(lines[index], Tag(field));
    if opening.None? {
      return None;
    }
    var fence := opening.value;
    var first := index + 1;
    index := first;
    while index < |lines| && lines[index] != fence
      invariant first <= index <= |lines| && FindLine(lines, index, fence) == FindLine(lines, first, fence)
    {
      index := index + 1;
    }
    if index >= |lines| {
      return None;
    }
    var value := Join("\n", lines[first..index]);
    if fence != Fence(value) {
      return None;
    }
    r := Some((value, index + 1));
  }

  method ParseMetadata(f: Floats, lines: seq<string>, start: nat) returns (r: Option<(map<Field, Json>, nat)>)
    requires start <= |lines|
    ensures r == Metadata(f, lines, start, METADATA, 0, map[])
  {
    hide Loads, Prefix;
    var known: map<Field, Json> := map[];
    var index := start;
    for k := 0 to |METADATA|
      invariant start <= index <= |lines|
      invariant Metadata(f, lines, index, METADATA, k, known) == Metadata(f, lines, start, METADATA, 0, map[])
    {
      var field := METADATA[k];
      var prefix := Prefix(field);
      var present := index < |lines| && prefix <= lines[index];
      if field == Scoping && !present {
        continue;
      }
      if !present {
        return None;
      }
      var v := Loads(f, lines[index][|prefix|..]);
      if v.None? {
        return None;
      }
      known := known[field := v.value];
      index := index + 1;
    }
    r := Some((known, index));
  }

  method ParseOne(f: Floats, lines: seq<string>, start: nat) returns (r: Option<(Card, nat)>)
    requires start < |lines|
    ensures r == ParseCard(f, lines, start)
  {
    hide Metadata, SkipBlank, ParseLiteral, Normalize;
    if lines[start] != CARD {
      return None;
    }
    var first := SkipBlankLines(lines, start + 1);
    var metadata := ParseMetadata(f, lines, first);
    if metadata.None? {
      return None;
    }
    var (known, index) := metadata.value;
    for k := 0 to |BLOCKS|
      invariant metadata.value.1 <= index <= |lines|
      invariant Blocks(lines, index, k, known) == Blocks(lines, metadata.value.1, 0, metadata.value.0)
    {
      var at := SkipBlankLines(lines, index);
      var block := ParseBlock(lines, at, BLOCKS[k]);
      if block.None? {
        return None;
      }
      known := known[BLOCKS[k] := Text(block.value.0)];
      index := block.value.1;
    }
    var card := Normalize(f, Raw(known, {}));
    r := if card.None? then None else Some((card.value, index));
  }

  method ParseCards(f: Floats, document: string) returns (r: Option<seq<Card>>)
    ensures r == Parse(f, document)
  {
    hide Split, Lf, WithoutMark, SkipBlank, ParseCard;
    if |document| > MAX_DOCUMENT_CHARS {
      return None;
    }
    var lines := Split(WithoutMark(Lf(document)));
    if !HeaderOk(lines) {
      return None;
    }
    var cards: seq<Card> := [];
    var index := SkipBlankLines(lines, 2);
    while index < |lines|
      invariant SkipBlank(lines, 2) <= |lines| && index <= |lines|
      invariant ParseFrom(f, lines, index, cards) == ParseFrom(f, lines, SkipBlank(lines, 2), [])
      decreases |lines| - index
    {
      var next := ParseOne(f, lines, index);
      if next.None? || |cards| + 1 > MAX_CARDS {
        return None;
      }
      cards := cards + [next.value.0];
      index := SkipBlankLines(lines, next.value.1);
    }
    r := if DistinctIds(cards) then Some(cards) else None;
  }
}
