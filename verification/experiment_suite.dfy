/**
 The experiment matrix: running it, checking a saved result and summing it up
 (run_manifest, validate_result, _summarize and dial_state in clozn/experiments/suite.py).

 Generation and scoring are functions of the coordinate that may raise.
 */
module ExperimentSuite {
  import opened Common

  datatype Suite = Target | Guard

  datatype Coordinate = Coordinate(suite: Suite, name: string, variant: string, seed: int)

  /** A run record; only its id matters. */
  datatype Run = Run(id: Option<string>)

  /** A status is any string in a saved result. */
  datatype Cell = Cell(
    at: Coordinate,
    status: string,
    response: Option<string>,
    assertions: Option<seq<string>>,
    runId: Option<string>,
    run: Option<Run>)

  const STATUSES := {"pass", "fail", "error", "unscored"}

  datatype Manifest = Manifest(
    targets: seq<string>,
    guards: seq<string>,
    variants: seq<string>,
    baseline: string)

  /** What validate_manifest insists on, as far as it concerns the matrix. */
  predicate ManifestOk(m: Manifest) {
    && Distinct(m.targets) && m.targets != []
    && Distinct(m.guards) && m.guards != []
    && Distinct(m.variants) && |m.variants| >= 2 && m.baseline in m.variants
  }

  function CasesOf(m: Manifest, suite: Suite): seq<string> {
    if suite.Target? then m.targets else m.guards
  }

  predicate Expected(m: Manifest, seeds: seq<int>, c: Coordinate) {
    c.name in CasesOf(m, c.suite) && c.variant in m.variants && c.seed in seeds
  }

  // ------------------------------------------------------------ running the matrix

  /** What a generated cell holds; the statuses of a scored run are the allowed ones. */
  datatype Produced = Produced(status: string, response: Option<string>, assertions: seq<string>, run: Run)

  datatype Engine = Engine(dialsRaise: string -> bool, generate: Coordinate -> Option<Produced>)

  function ErrorCell(at: Coordinate): Cell {
    Cell(at, "error", None, Some([]), None, None)
  }

  function CellAt(e: Engine, at: Coordinate): Cell {
    if e.dialsRaise(at.variant) || e.generate(at).None? then ErrorCell(at)
    else
      var p := e.generate(at).value;
      Cell(at, p.status, p.response, Some(p.assertions), p.run.id, Some(p.run))
  }

  /** The coordinates of one case, in the order of the seeds. */
  function OfCase(suite: Suite, name: string, variant: string, seeds: seq<int>): seq<Coordinate> {
    seq(|seeds|, i requires 0 <= i < |seeds| => Coordinate(suite, name, variant, seeds[i]))
  }

  function OfSuite(suite: Suite, names: seq<string>, variant: string, seeds: seq<int>): seq<Coordinate> {
    if names == [] then []
    else OfSuite(suite, names[..|names| - 1], variant, seeds) + OfCase(suite, names[|names| - 1], variant, seeds)
  }

  function OfVariant(m: Manifest, variant: string, seeds: seq<int>): seq<Coordinate> {
    OfSuite(Target, m.targets, variant, seeds) + OfSuite(Guard, m.guards, variant, seeds)
  }

  function OfVariants(m: Manifest, variants: seq<string>, seeds: seq<int>): seq<Coordinate> {
    if variants == [] then []
    else OfVariants(m, variants[..|variants| - 1], seeds) + OfVariant(m, variants[|variants| - 1], seeds)
  }

  /** Every coordinate of the matrix, in the order in which it is run. */
  function Matrix(m: Manifest, seeds: seq<int>): seq<Coordinate> {
    OfVariants(m, m.variants, seeds)
  }

  function CellsAt(e: Engine, coordinates: seq<Coordinate>): seq<Cell> {
    seq(|coordinates|, i requires 0 <= i < |coordinates| => CellAt(e, coordinates[i]))
  }

  lemma CellsConcat(e: Engine, a: seq<Coordinate>, b: seq<Coordinate>)
    ensures CellsAt(e, a + b) == CellsAt(e, a) + CellsAt(e, b)
  {
  }

  /** The innermost loop, with its try and except. */
  method RunCase(e: Engine, suite: Suite, name: string, variant: string, seeds: seq<int>) returns (cells: seq<Cell>)
    requires !e.dialsRaise(variant)
    ensures cells == CellsAt(e, OfCase(suite, name, variant, seeds))
  {
    cells := [];
    for i := 0 to |seeds|
      invariant cells == CellsAt(e, OfCase(suite, name, variant, seeds)[..i])
    {
      var at := Coordinate(suite, name, variant, seeds[i]);
      match e.generate(at) {
        case None => cells := cells + [ErrorCell(at)];
        case Some(p) => cells := cells + [Cell(at, p.status, p.response, Some(p.assertions), p.run.id, Some(p.run))];
      }
    }
    assert OfCase(suite, name, variant, seeds)[..|seeds|] == OfCase(suite, name, variant, seeds);
  }

  method RunSuite(e: Engine, suite: Suite, names: seq<string>, variant: string, seeds: seq<int>)
    returns (cells: seq<Cell>)
    ensures cells == CellsAt(e, OfSuite(suite, names, variant, seeds))
  {
    cells := [];
    for i := 0 to |names|
      invariant cells == CellsAt(e, OfSuite(suite, names[..i], variant, seeds))
    {
      assert names[..i + 1][..i] == names[..i];
      CellsConcat(e, OfSuite(suite, names[..i], variant, seeds), OfCase(suite, names[i], variant, seeds));
      if e.dialsRaise(variant) {
        var failed := FailCase(e, suite, names[i], variant, seeds);
        cells := cells + failed;
      } else {
        var produced := RunCase(e, suite, names[i], variant, seeds);
        cells := cells + produced;
      }
    }
    assert names[..|names|] == names;
  }

  /** The loop of the outer except: the variant's dials could not be set. */
  method FailCase(e: Engine, suite: Suite, name: string, variant: string, seeds: seq<int>) returns (cells: seq<Cell>)
    requires e.dialsRaise(variant)
    ensures cells == CellsAt(e, OfCase(suite, name, variant, seeds))
  {
    cells := [];
    for i := 0 to |seeds|
      invariant cells == CellsAt(e, OfCase(suite, name, variant, seeds)[..i])
    {
      cells := cells + [ErrorCell(Coordinate(suite, name, variant, seeds[i]))];
    }
    assert OfCase(suite, name, variant, seeds)[..|seeds|] == OfCase(suite, name, variant, seeds);
  }

  method RunManifest(e: Engine, m: Manifest, seeds: seq<int>) returns (cells: seq<Cell>)
    ensures cells == CellsAt(e, Matrix(m, seeds))
  {
    cells := [];
    for i := 0 to |m.variants|
      invariant cells == CellsAt(e, OfVariants(m, m.variants[..i], seeds))
    {
      assert m.variants[..i + 1][..i] == m.variants[..i];
      var variant := m.variants[i];
      CellsConcat(e, OfSuite(Target, m.targets, variant, seeds), OfSuite(Guard, m.guards, variant, seeds));
      CellsConcat(e, OfVariants(m, m.variants[..i], seeds), OfVariant(m, variant, seeds));
      var targets := RunSuite(e, Target, m.targets, variant, seeds);
      var guards := RunSuite(e, Guard, m.guards, variant, seeds);
      cells := cells + (targets + guards);
    }
    assert m.variants[..|m.variants|] == m.variants;
  }

  // ------------------------------------------------------ one cell per coordinate

  lemma {:induction false} SuiteMembers(suite: Suite, names: seq<string>, variant: string, seeds: seq<int>,
                                        c: Coordinate)
    ensures c in OfSuite(suite, names, variant, seeds) <==>
      c.suite == suite && c.name in names && c.variant == variant && c.seed in seeds
  {
    if names != [] {
      var init, last := names[..|names| - 1], names[|names| - 1];
      assert names == init + [last];
      SuiteMembers(suite, init, variant, seeds, c);
      CaseMembers(suite, last, variant, seeds, c);
    }
  }

  lemma CaseMembers(suite: Suite, name: string, variant: string, seeds: seq<int>, c: Coordinate)
    ensures c in OfCase(suite, name, variant, seeds) <==>
      c.suite == suite && c.name == name && c.variant == variant && c.seed in seeds
  {
    if c.suite == suite && c.name == name && c.variant == variant && c.seed in seeds {
      var i :| 0 <= i < |seeds| && seeds[i] == c.seed;
      assert OfCase(suite, name, variant, seeds)[i] == c;
    }
  }

  lemma {:induction false} VariantsMembers(m: Manifest, variants: seq<string>, seeds: seq<int>, c: Coordinate)
    ensures c in OfVariants(m, variants, seeds) <==>
      c.name in CasesOf(m, c.suite) && c.variant in variants && c.seed in seeds
  {
    if variants != [] {
      var init, last := variants[..|variants| - 1], variants[|variants| - 1];
      assert variants == init + [last];
      VariantsMembers(m, init, seeds, c);
      SuiteMembers(Target, m.targets, last, seeds, c);
      SuiteMembers(Guard, m.guards, last, seeds, c);
    }
  }

  lemma {:induction false} SuiteDistinct(suite: Suite, names: seq<string>, variant: string, seeds: seq<int>)
    requires Distinct(names) && Distinct(seeds)
    ensures Distinct(OfSuite(suite, names, variant, seeds))
  {
    if names != [] {
      var init, last := names[..|names| - 1], names[|names| - 1];
      SuiteDistinct(suite, init, variant, seeds);
      forall c | c in OfSuite(suite, init, variant, seeds) ensures c !in OfCase(suite, last, variant, seeds) {
        SuiteMembers(suite, init, variant, seeds, c);
        CaseMembers(suite, last, variant, seeds, c);
      }
      DistinctConcat(OfSuite(suite, init, variant, seeds), OfCase(suite, last, variant, seeds));
    }
  }

  lemma VariantDistinct(m: Manifest, variant: string, seeds: seq<int>)
    requires Distinct(m.targets) && Distinct(m.guards) && Distinct(seeds)
    ensures Distinct(OfVariant(m, variant, seeds))
  {
    SuiteDistinct(Target, m.targets, variant, seeds);
    SuiteDistinct(Guard, m.guards, variant, seeds);
    forall c | c in OfSuite(Target, m.targets, variant, seeds) ensures c !in OfSuite(Guard, m.guards, variant, seeds) {
      SuiteMembers(Target, m.targets, variant, seeds, c);
      SuiteMembers(Guard, m.guards, variant, seeds, c);
    }
    DistinctConcat(OfSuite(Target, m.targets, variant, seeds), OfSuite(Guard, m.guards, variant, seeds));
  }

  lemma {:induction false} VariantsDistinct(m: Manifest, variants: seq<string>, seeds: seq<int>)
    requires Distinct(m.targets) && Distinct(m.guards) && Distinct(variants) && Distinct(seeds)
    ensures Distinct(OfVariants(m, variants, seeds))
  {
    if variants != [] {
      var init, last := variants[..|variants| - 1], variants[|variants| - 1];
      VariantsDistinct(m, init, seeds);
      VariantDistinct(m, last, seeds);
      forall c | c in OfVariants(m, init, seeds) ensures c !in OfVariant(m, last, seeds) {
        VariantsMembers(m, init, seeds, c);
        SuiteMembers(Target, m.targets, last, seeds, c);
        SuiteMembers(Guard, m.guards, last, seeds, c);
      }
      DistinctConcat(OfVariants(m, init, seeds), OfVariant(m, last, seeds));
    }
  }

  function Coordinates(cells: seq<Cell>): (r: seq<Coordinate>)
    ensures |r| == |cells|
  {
    seq(|cells|, i requires 0 <= i < |cells| => cells[i].at)
  }

  /** One cell for every coordinate of the matrix, and no other cell. */
  ghost predicate Complete(m: Manifest, seeds: seq<int>, cells: seq<Cell>) {
    Distinct(Coordinates(cells)) && forall c :: c in Coordinates(cells) <==> Expected(m, seeds, c)
  }

  /** Whichever calls raise, the matrix comes out complete. */
  lemma MatrixIsComplete(e: Engine, m: Manifest, seeds: seq<int>)
    requires ManifestOk(m) && Distinct(seeds)
    ensures Complete(m, seeds, CellsAt(e, Matrix(m, seeds)))
  {
    VariantsDistinct(m, m.variants, seeds);
    assert Coordinates(CellsAt(e, Matrix(m, seeds))) == Matrix(m, seeds);
    forall c ensures c in Matrix(m, seeds) <==> Expected(m, seeds, c) {
      VariantsMembers(m, m.variants, seeds, c);
    }
  }

  /** What the cell of a coordinate says: an error without evidence, or all that was generated for it. */
  predicate Says(e: Engine, cell: Cell) {
    if e.dialsRaise(cell.at.variant) || e.generate(cell.at).None? then
      cell.status == "error" && cell.response.None? && cell.runId.None? && cell.run.None? && cell.assertions == Some([])
    else
      var p := e.generate(cell.at).value;
      && cell.status == p.status && cell.response == p.response && cell.assertions == Some(p.assertions)
      && cell.run == Some(p.run) && cell.runId == p.run.id
  }

  /** Every coordinate has a cell, and only one, that tells of its own generation. */
  lemma MatrixTells(e: Engine, m: Manifest, seeds: seq<int>, c: Coordinate)
    requires ManifestOk(m) && Distinct(seeds)
    ensures var cells := CellsAt(e, Matrix(m, seeds));
      && (Expected(m, seeds, c) <==> exists i :: 0 <= i < |cells| && cells[i].at == c)
      && (forall i :: 0 <= i < |cells| ==> Says(e, cells[i]))
      && forall i, j :: 0 <= i < |cells| && 0 <= j < |cells| && cells[i].at == cells[j].at ==> i == j
  {
    MatrixIsComplete(e, m, seeds);
    var cells := CellsAt(e, Matrix(m, seeds));
    var all := Coordinates(cells);
    assert forall i :: 0 <= i < |cells| ==> all[i] == cells[i].at;
    if Expected(m, seeds, c) {
      assert c in all;
    }
    assert forall i, j :: 0 <= i < j < |cells| ==> all[i] != all[j];
  }

  // --------------------------------------------------------- checking a saved result

  function ExpectedSet(m: Manifest, seeds: seq<int>): (r: set<Coordinate>)
    ensures forall c :: c in r <==> Expected(m, seeds, c)
  {
    forall c ensures c in ToSet(Matrix(m, seeds)) <==> Expected(m, seeds, c) {
      VariantsMembers(m, m.variants, seeds, c);
    }
    ToSet(Matrix(m, seeds))
  }

  /** Evidence of a run in every cell but those of a failed generation. */
  predicate EvidenceOk(c: Cell) {
    c.status != "error" ==>
      c.runId.Some? && c.runId.value != "" && c.run.Some? && (c.run.value.id.Some? ==> c.run.value.id == c.runId)
  }

  predicate CellOk(c: Cell) {
    c.status in STATUSES && c.assertions.Some? && EvidenceOk(c)
  }

  /** The loop of validate_result over the cells and the test for missing ones. */
  method CellsValid(m: Manifest, seeds: seq<int>, cells: seq<Cell>) returns (ok: bool)
    ensures ok <==> Complete(m, seeds, cells) && forall i :: 0 <= i < |cells| ==> CellOk(cells[i])
  {
    hide CellOk;
    var expected := ExpectedSet(m, seeds);
    var seen: set<Coordinate> := {};
    for i := 0 to |cells|
      invariant seen == ToSet(Coordinates(cells)[..i]) && seen <= expected
      invariant Distinct(Coordinates(cells)[..i]) && forall j :: 0 <= j < i ==> CellOk(cells[j])
    {
      var at := cells[i].at;
      var all := Coordinates(cells);
      assert all[i] == at && at in all;
      if at !in expected {
        return false;
      }
      if at in seen {
        Repeated(all, i);
        return false;
      }
      assert all[..i + 1] == all[..i] + [at];
      DistinctAppend(all[..i], at);
      ToSetAppend(all[..i], at);
      seen := seen + {at};
      if !CellOk(cells[i]) {
        return false;
      }
    }
    assert Coordinates(cells)[..|cells|] == Coordinates(cells);
    ok := expected - seen == {};
    if ok {
      SameMembers(expected, seen);
    } else {
      var c :| c in expected - seen;
      assert c !in Coordinates(cells);
    }
  }

  lemma SameMembers(a: set<Coordinate>, b: set<Coordinate>)
    requires a - b == {} && b <= a
    ensures a == b
  {
    forall c | c in a ensures c in b {
      assert c in b || c in a - b;
    }
  }

  lemma DistinctAppend(xs: seq<Coordinate>, x: Coordinate)
    requires Distinct(xs) && x !in xs
    ensures Distinct(xs + [x])
  {
    DistinctConcat(xs, [x]);
  }

  lemma Repeated(xs: seq<Coordinate>, i: nat)
    requires i < |xs| && xs[i] in xs[..i]
    ensures !Distinct(xs)
  {
    var j :| 0 <= j < i && xs[..i][j] == xs[i];
    assert xs[j] == xs[i];
  }

  /**
   A result of run_manifest passes these checks if and only if every run that was generated
   has an id and an allowed status: a completion without a run id makes a result that the
   checks refuse.
   */
  lemma RunValidates(e: Engine, m: Manifest, seeds: seq<int>)
    requires ManifestOk(m) && Distinct(seeds)
    ensures var cells := CellsAt(e, Matrix(m, seeds));
      (Complete(m, seeds, cells) && forall i :: 0 <= i < |cells| ==> CellOk(cells[i])) <==>
      forall c :: Expected(m, seeds, c) ==> ProducesOk(e, c)
  {
    MatrixIsComplete(e, m, seeds);
    var matrix := Matrix(m, seeds);
    var cells := CellsAt(e, matrix);
    forall c ensures c in matrix <==> Expected(m, seeds, c) {
      VariantsMembers(m, m.variants, seeds, c);
    }
    forall c ensures CellOk(CellAt(e, c)) <==> ProducesOk(e, c) {
    }
    if forall i :: 0 <= i < |cells| ==> CellOk(cells[i]) {
      forall c | Expected(m, seeds, c) ensures ProducesOk(e, c) {
        var i :| 0 <= i < |matrix| && matrix[i] == c;
        assert CellOk(cells[i]);
      }
    } else {
      var i :| 0 <= i < |cells| && !CellOk(cells[i]);
      assert Expected(m, seeds, matrix[i]) && !ProducesOk(e, matrix[i]);
    }
  }

  predicate ProducesOk(e: Engine, c: Coordinate) {
    if e.dialsRaise(c.variant) || e.generate(c).None? then true
    else
      var p := e.generate(c).value;
      p.status in STATUSES && (p.status != "error" ==> p.run.id.Some? && p.run.id.value != "")
  }

  // ---------------------------------------------------------------- the summary

  datatype Label = Label(name: string, seed: int)

  datatype Change = Change(
    targetGains: seq<Label>,
    targetRegressions: seq<Label>,
    guardRegressions: seq<Label>,
    guardFixes: seq<Label>,
    changedUnscored: seq<(Suite, Label)>)

  /** by_key: of cells with the same coordinate the last one counts. */
  function ByKey(cells: seq<Cell>): (table: map<Coordinate, Cell>)
    ensures forall c :: c in table ==> table[c] in cells && table[c].at == c
    ensures forall c :: c in cells ==> c.at in table
  {
    if cells == [] then map[]
    else
      var init, last := cells[..|cells| - 1], cells[|cells| - 1];
      assert cells == init + [last];
      ByKey(init)[last.at := last]
  }

  /** The keys of that dictionary, in the order of their first cells. */
  function Keys(cells: seq<Cell>): (keys: seq<Coordinate>)
    ensures forall c :: c in keys <==> c in ByKey(cells)
  {
    if cells == [] then []
    else
      var init, last := cells[..|cells| - 1], cells[|cells| - 1];
      if last.at in Keys(init) then Keys(init) else Keys(init) + [last.at]
  }

  function Partner(c: Coordinate, variant: string): Coordinate {
    c.(variant := variant)
  }

  /** The baseline cell at this key went from one of these statuses to one of those. */
  predicate Moved(table: map<Coordinate, Cell>, c: Coordinate, baseline: string, variant: string,
                  from: set<string>, to: set<string>)
  {
    && c.variant == baseline && c in table && Partner(c, variant) in table
    && table[c].status in from && table[Partner(c, variant)].status in to
  }

  /** The labels of one suite that moved so, in the order of the keys. */
  function Moves(table: map<Coordinate, Cell>, keys: seq<Coordinate>, suite: Suite, baseline: string, variant: string,
                 from: set<string>, to: set<string>): seq<Label>
  {
    if keys == [] then []
    else
      var last := keys[|keys| - 1];
      Moves(table, keys[..|keys| - 1], suite, baseline, variant, from, to)
      + if last.suite == suite && Moved(table, last, baseline, variant, from, to)
        then [Label(last.name, last.seed)] else []
  }

  function Unscored(table: map<Coordinate, Cell>, keys: seq<Coordinate>, baseline: string, variant: string)
    : seq<(Suite, Label)>
  {
    if keys == [] then []
    else
      var last := keys[|keys| - 1];
      Unscored(table, keys[..|keys| - 1], baseline, variant)
      + if Moved(table, last, baseline, variant, {"unscored"}, {"unscored"})
           && table[last].response != table[Partner(last, variant)].response
        then [(last.suite, Label(last.name, last.seed))] else []
  }

  function ChangeOf(table: map<Coordinate, Cell>, keys: seq<Coordinate>, baseline: string, variant: string): Change {
    Change(
      Moves(table, keys, Target, baseline, variant, {"fail"}, {"pass"}),
      Moves(table, keys, Target, baseline, variant, {"pass"}, {"fail"}),
      Moves(table, keys, Guard, baseline, variant, {"pass"}, {"fail"}),
      Moves(table, keys, Guard, baseline, variant, {"fail"}, {"pass"}),
      Unscored(table, keys, baseline, variant))
  }

  function Count(cells: seq<Cell>, variant: string, suite: Suite, status: string): nat {
    if cells == [] then 0
    else
      var last := cells[|cells| - 1];
      Count(cells[..|cells| - 1], variant, suite, status)
      + if last.at.variant == variant && last.at.suite == suite && last.status == status then 1 else 0
  }

  lemma MovesStep(table: map<Coordinate, Cell>, keys: seq<Coordinate>, c: Coordinate, suite: Suite, baseline: string,
                  variant: string, from: set<string>, to: set<string>)
    ensures Moves(table, keys + [c], suite, baseline, variant, from, to)
         == Moves(table, keys, suite, baseline, variant, from, to)
            + if c.suite == suite && Moved(table, c, baseline, variant, from, to) then [Label(c.name, c.seed)] else []
  {
    assert (keys + [c])[..|keys|] == keys;
  }

  lemma ChangeStep(table: map<Coordinate, Cell>, keys: seq<Coordinate>, c: Coordinate, baseline: string,
                   variant: string)
    ensures ChangeOf(table, keys + [c], baseline, variant)
         == AfterKey(ChangeOf(table, keys, baseline, variant), table, c, baseline, variant)
  {
    hide Moves;
    MovesStep(table, keys, c, Target, baseline, variant, {"fail"}, {"pass"});
    MovesStep(table, keys, c, Target, baseline, variant, {"pass"}, {"fail"});
    MovesStep(table, keys, c, Guard, baseline, variant, {"pass"}, {"fail"});
    MovesStep(table, keys, c, Guard, baseline, variant, {"fail"}, {"pass"});
    assert (keys + [c])[..|keys|] == keys;
  }

  /** What the loop of _summarize does with one key. */
  function AfterKey(change: Change, table: map<Coordinate, Cell>, c: Coordinate, baseline: string, variant: string)
    : Change
  {
    if c.variant != baseline || c !in table || Partner(c, variant) !in table then change
    else
      var base, candidate, at := table[c], table[Partner(c, variant)], Label(c.name, c.seed);
      if base.status == "fail" && candidate.status == "pass" then
        if c.suite.Target? then change.(targetGains := change.targetGains + [at])
        else change.(guardFixes := change.guardFixes + [at])
      else if base.status == "pass" && candidate.status == "fail" then
        if c.suite.Target? then change.(targetRegressions := change.targetRegressions + [at])
        else change.(guardRegressions := change.guardRegressions + [at])
      else if base.status == candidate.status == "unscored" && base.response != candidate.response then
        change.(changedUnscored := change.changedUnscored + [(c.suite, at)])
      else change
  }

  lemma NoChange(table: map<Coordinate, Cell>, baseline: string, variant: string)
    ensures ChangeOf(table, [], baseline, variant) == Change([], [], [], [], [])
  {
  }

  /** The comparison of one variant with the baseline, as _summarize makes it. */
  method Compare(cells: seq<Cell>, baseline: string, variant: string) returns (change: Change)
    ensures change == ChangeOf(ByKey(cells), Keys(cells), baseline, variant)
  {
    hide AfterKey, ChangeOf, ByKey, Keys;
    var table, keys := ByKey(cells), Keys(cells);
    NoChange(table, baseline, variant);
    change := Change([], [], [], [], []);
    for i := 0 to |keys|
      invariant change == ChangeOf(table, keys[..i], baseline, variant)
    {
      assert keys[..i + 1] == keys[..i] + [keys[i]];
      ChangeStep(table, keys[..i], keys[i], baseline, variant);
      change := AfterKey(change, table, keys[i], baseline, variant);
    }
    assert keys[..|keys|] == keys;
  }

  // ---------------------------------------------------------------- conservation

  /** The labels of the passed cells of a variant in a suite. */
  ghost predicate Passed(cells: seq<Cell>, variant: string, suite: Suite, l: Label) {
    exists i :: 0 <= i < |cells| && PassesAt(cells[i], variant, suite, l)
  }

  predicate PassesAt(cell: Cell, variant: string, suite: Suite, l: Label) {
    cell.at == Coordinate(suite, l.name, variant, l.seed) && cell.status == "pass"
  }

  ghost function PassSet(cells: seq<Cell>, variant: string, suite: Suite): set<Label> {
    if cells == [] then {}
    else
      var last := cells[|cells| - 1];
      PassSet(cells[..|cells| - 1], variant, suite)
      + if last.at.variant == variant && last.at.suite == suite && last.status == "pass"
        then {Label(last.at.name, last.at.seed)} else {}
  }

  lemma {:induction false} PassSetMembers(cells: seq<Cell>, variant: string, suite: Suite, l: Label)
    ensures l in PassSet(cells, variant, suite) <==> Passed(cells, variant, suite, l)
  {
    if cells != [] {
      var init, last := cells[..|cells| - 1], cells[|cells| - 1];
      PassSetMembers(init, variant, suite, l);
      if Passed(cells, variant, suite, l) {
        var i :| 0 <= i < |cells| && PassesAt(cells[i], variant, suite, l);
        assert i < |init| ==> init[i] == cells[i];
      }
      if Passed(init, variant, suite, l) {
        var i :| 0 <= i < |init| && PassesAt(init[i], variant, suite, l);
        assert cells[i] == init[i];
      }
      assert cells[|init|] == last;
    }
  }

  lemma {:induction false} PassCount(cells: seq<Cell>, variant: string, suite: Suite)
    requires Distinct(Coordinates(cells))
    ensures |PassSet(cells, variant, suite)| == Count(cells, variant, suite, "pass")
  {
    if cells != [] {
      var init, last := cells[..|cells| - 1], cells[|cells| - 1];
      var all := Coordinates(cells);
      assert Coordinates(init) == all[..|init|];
      PassCount(init, variant, suite);
      if last.at.variant == variant && last.at.suite == suite && last.status == "pass" {
        var l := Label(last.at.name, last.at.seed);
        PassSetMembers(init, variant, suite, l);
        forall i | 0 <= i < |init| ensures init[i].at != last.at {
          assert all[i] != all[|init|];
        }
      }
    }
  }

  lemma {:induction false} ByKeyAt(cells: seq<Cell>, i: nat)
    requires Distinct(Coordinates(cells)) && i < |cells|
    ensures ByKey(cells)[cells[i].at] == cells[i]
  {
    var all, last := Coordinates(cells), |cells| - 1;
    if i < last {
      assert Coordinates(cells[..last]) == all[..last] && all[i] != all[last];
      ByKeyAt(cells[..last], i);
    }
  }

  lemma KeysStep(cells: seq<Cell>)
    requires cells != [] && cells[|cells| - 1].at !in Keys(cells[..|cells| - 1])
    ensures Keys(cells) == Keys(cells[..|cells| - 1]) + [cells[|cells| - 1].at]
  {
    hide ByKey;
  }

  lemma LastIsNew(all: seq<Coordinate>)
    requires Distinct(all) && all != []
    ensures Distinct(all[..|all| - 1]) && all[|all| - 1] !in all[..|all| - 1]
  {
  }

  lemma {:induction false} KeysInOrder(cells: seq<Cell>)
    requires Distinct(Coordinates(cells))
    ensures Keys(cells) == Coordinates(cells)
  {
    hide Keys, Distinct, ByKey;
    if cells == [] {
      NoKeys();
    } else {
      var init, all := cells[..|cells| - 1], Coordinates(cells);
      assert Coordinates(init) == all[..|init|];
      LastIsNew(all);
      KeysInOrder(init);
      KeysStep(cells);
      assert all == Coordinates(init) + [all[|init|]];
    }
  }

  lemma NoKeys()
    ensures Keys([]) == []
  {
  }

  /** Without repeated coordinates the dictionary is the list. */
  lemma KeysAreCoordinates(cells: seq<Cell>)
    requires Distinct(Coordinates(cells))
    ensures Keys(cells) == Coordinates(cells)
    ensures forall i :: 0 <= i < |cells| ==> cells[i].at in ByKey(cells) && ByKey(cells)[cells[i].at] == cells[i]
  {
    hide Keys;
    KeysInOrder(cells);
    forall i | 0 <= i < |cells| ensures cells[i].at in ByKey(cells) && ByKey(cells)[cells[i].at] == cells[i] {
      ByKeyAt(cells, i);
    }
  }

  lemma {:induction false} MovesMembers(table: map<Coordinate, Cell>, keys: seq<Coordinate>, suite: Suite,
                                        baseline: string,
                                        variant: string, from: set<string>, to: set<string>, l: Label)
    ensures var c := Coordinate(suite, l.name, baseline, l.seed);
      (c in keys && Moved(table, c, baseline, variant, from, to)) <==>
        l in Moves(table, keys, suite, baseline, variant, from, to)
  {
    if keys != [] {
      MovesMembers(table, keys[..|keys| - 1], suite, baseline, variant, from, to, l);
      assert keys == keys[..|keys| - 1] + [keys[|keys| - 1]];
    }
  }

  lemma {:induction false} MovesDistinct(table: map<Coordinate, Cell>, keys: seq<Coordinate>, suite: Suite,
                                         baseline: string,
                                         variant: string, from: set<string>, to: set<string>)
    requires Distinct(keys)
    ensures Distinct(Moves(table, keys, suite, baseline, variant, from, to))
  {
    if keys != [] {
      var init, last := keys[..|keys| - 1], keys[|keys| - 1];
      MovesDistinct(table, init, suite, baseline, variant, from, to);
      if last.suite == suite && Moved(table, last, baseline, variant, from, to) {
        MovesMembers(table, init, suite, baseline, variant, from, to, Label(last.name, last.seed));
        assert last !in init;
        DistinctConcat(Moves(table, init, suite, baseline, variant, from, to), [Label(last.name, last.seed)]);
      }
    }
  }

  /** The number of labels that moved is the size of their set. */
  lemma MovesSize(table: map<Coordinate, Cell>, keys: seq<Coordinate>, suite: Suite, baseline: string, variant: string,
                  from: set<string>, to: set<string>)
    requires Distinct(keys)
    ensures |Moves(table, keys, suite, baseline, variant, from, to)|
         == |ToSet(Moves(table, keys, suite, baseline, variant, from, to))|
  {
    MovesDistinct(table, keys, suite, baseline, variant, from, to);
    DistinctSize(Moves(table, keys, suite, baseline, variant, from, to));
  }

  /** Every compared cell has its partner, and every status is an allowed one. */
  ghost predicate Comparable(cells: seq<Cell>, baseline: string, variant: string) {
    && Distinct(Coordinates(cells))
    && (forall i :: 0 <= i < |cells| ==> cells[i].status in STATUSES)
    && (forall c :: c in Coordinates(cells) && (c.variant == baseline || c.variant == variant) ==>
          Partner(c, baseline) in Coordinates(cells) && Partner(c, variant) in Coordinates(cells))
  }

  lemma CompleteIsComparable(m: Manifest, seeds: seq<int>, cells: seq<Cell>, variant: string)
    requires ManifestOk(m) && Complete(m, seeds, cells) && variant in m.variants
    requires forall i :: 0 <= i < |cells| ==> CellOk(cells[i])
    ensures Comparable(cells, m.baseline, variant)
  {
    forall c | c in Coordinates(cells)
      ensures Partner(c, m.baseline) in Coordinates(cells) && Partner(c, variant) in Coordinates(cells)
    {
      assert Expected(m, seeds, c);
      assert Expected(m, seeds, Partner(c, m.baseline)) && Expected(m, seeds, Partner(c, variant));
    }
  }

  /** What a passed label of one variant looks like at the other. */
  lemma PassedAt(cells: seq<Cell>, baseline: string, variant: string, suite: Suite, l: Label)
    requires Comparable(cells, baseline, variant)
    ensures var table := ByKey(cells);
      var b, v := Coordinate(suite, l.name, baseline, l.seed), Coordinate(suite, l.name, variant, l.seed);
      && (l in PassSet(cells, baseline, suite) <==> b in table && table[b].status == "pass")
      && (l in PassSet(cells, variant, suite) <==> v in table && table[v].status == "pass")
      && (b in table <==> v in table) && (b in table <==> b in Keys(cells))
      && (b in table ==> table[b].status in STATUSES && table[v].status in STATUSES)
  {
    PassSetMembers(cells, baseline, suite, l);
    PassSetMembers(cells, variant, suite, l);
    KeysAreCoordinates(cells);
    var b, v := Coordinate(suite, l.name, baseline, l.seed), Coordinate(suite, l.name, variant, l.seed);
    assert Partner(b, variant) == v && Partner(v, baseline) == b;
    assert Partner(b, baseline) == b && Partner(v, variant) == v;
    var table := ByKey(cells);
    if b in table {
      var i :| 0 <= i < |cells| && cells[i] == table[b];
    }
    if v in table {
      var i :| 0 <= i < |cells| && cells[i] == table[v];
    }
  }

  const NOT_SCORED := {"error", "unscored"}

  /**
   Candidate passes less baseline passes are gains less regressions, plus the passes of
   cells that only the candidate scored, less those that only the baseline scored.
   */
  lemma PassesBalance(cells: seq<Cell>, baseline: string, variant: string, suite: Suite)
    requires Comparable(cells, baseline, variant)
    ensures var table, keys := ByKey(cells), Keys(cells);
      Count(cells, variant, suite, "pass") - Count(cells, baseline, suite, "pass")
        == |Moves(table, keys, suite, baseline, variant, {"fail"}, {"pass"})|
         - |Moves(table, keys, suite, baseline, variant, {"pass"}, {"fail"})|
         + |Moves(table, keys, suite, baseline, variant, NOT_SCORED, {"pass"})|
         - |Moves(table, keys, suite, baseline, variant, {"pass"}, NOT_SCORED)|
  {
    var table, keys := ByKey(cells), Keys(cells);
    var gains := ToSet(Moves(table, keys, suite, baseline, variant, {"fail"}, {"pass"}));
    var losses := ToSet(Moves(table, keys, suite, baseline, variant, {"pass"}, {"fail"}));
    var found := ToSet(Moves(table, keys, suite, baseline, variant, NOT_SCORED, {"pass"}));
    var gone := ToSet(Moves(table, keys, suite, baseline, variant, {"pass"}, NOT_SCORED));
    var before, after := PassSet(cells, baseline, suite), PassSet(cells, variant, suite);
    PassCount(cells, baseline, suite);
    PassCount(cells, variant, suite);
    KeysAreCoordinates(cells);
    MovesSize(table, keys, suite, baseline, variant, {"fail"}, {"pass"});
    MovesSize(table, keys, suite, baseline, variant, {"pass"}, {"fail"});
    MovesSize(table, keys, suite, baseline, variant, NOT_SCORED, {"pass"});
    MovesSize(table, keys, suite, baseline, variant, {"pass"}, NOT_SCORED);
    forall l: Label ensures l in after && l !in before <==> l in gains || l in found {
      AfterOnly(cells, baseline, variant, suite, l);
    }
    forall l: Label ensures l in before && l !in after <==> l in losses || l in gone {
      BeforeOnly(cells, baseline, variant, suite, l);
    }
    forall l: Label ensures !(l in gains && l in found) && !(l in losses && l in gone) {
      MovedApart(table, keys, suite, baseline, variant, l);
    }
    SplitSize(after, before, gains, found);
    SplitSize(before, after, losses, gone);
    assert before * after == after * before;
  }

  lemma SplitSize(a: set<Label>, b: set<Label>, x: set<Label>, y: set<Label>)
    requires forall l :: l in a && l !in b <==> l in x || l in y
    requires forall l :: !(l in x && l in y)
    ensures |a| == |a * b| + |x| + |y|
  {
    assert a == a * b + (x + y);
    assert (a * b) !! (x + y) && x !! y;
  }

  lemma AfterOnly(cells: seq<Cell>, baseline: string, variant: string, suite: Suite, l: Label)
    requires Comparable(cells, baseline, variant)
    ensures var table, keys := ByKey(cells), Keys(cells);
      (l in PassSet(cells, variant, suite) && l !in PassSet(cells, baseline, suite)) <==>
        (l in Moves(table, keys, suite, baseline, variant, {"fail"}, {"pass"})
         || l in Moves(table, keys, suite, baseline, variant, NOT_SCORED, {"pass"}))
  {
    hide Comparable, PassSet, ByKey, Keys, Moves;
    PassedAt(cells, baseline, variant, suite, l);
    var table, keys := ByKey(cells), Keys(cells);
    MovesMembers(table, keys, suite, baseline, variant, {"fail"}, {"pass"}, l);
    MovesMembers(table, keys, suite, baseline, variant, NOT_SCORED, {"pass"}, l);
  }

  lemma BeforeOnly(cells: seq<Cell>, baseline: string, variant: string, suite: Suite, l: Label)
    requires Comparable(cells, baseline, variant)
    ensures var table, keys := ByKey(cells), Keys(cells);
      (l in PassSet(cells, baseline, suite) && l !in PassSet(cells, variant, suite)) <==>
        (l in Moves(table, keys, suite, baseline, variant, {"pass"}, {"fail"})
         || l in Moves(table, keys, suite, baseline, variant, {"pass"}, NOT_SCORED))
  {
    hide Comparable, PassSet, ByKey, Keys, Moves;
    PassedAt(cells, baseline, variant, suite, l);
    var table, keys := ByKey(cells), Keys(cells);
    MovesMembers(table, keys, suite, baseline, variant, {"pass"}, {"fail"}, l);
    MovesMembers(table, keys, suite, baseline, variant, {"pass"}, NOT_SCORED, l);
  }

  lemma MovedApart(table: map<Coordinate, Cell>, keys: seq<Coordinate>, suite: Suite, baseline: string, variant: string,
                   l: Label)
    ensures !(l in Moves(table, keys, suite, baseline, variant, {"fail"}, {"pass"})
              && l in Moves(table, keys, suite, baseline, variant, NOT_SCORED, {"pass"}))
    ensures !(l in Moves(table, keys, suite, baseline, variant, {"pass"}, {"fail"})
              && l in Moves(table, keys, suite, baseline, variant, {"pass"}, NOT_SCORED))
  {
    hide Moves;
    MovesMembers(table, keys, suite, baseline, variant, {"fail"}, {"pass"}, l);
    MovesMembers(table, keys, suite, baseline, variant, NOT_SCORED, {"pass"}, l);
    MovesMembers(table, keys, suite, baseline, variant, {"pass"}, {"fail"}, l);
    MovesMembers(table, keys, suite, baseline, variant, {"pass"}, NOT_SCORED, l);
  }

  lemma {:induction false} NoneMoved(table: map<Coordinate, Cell>, keys: seq<Coordinate>, suite: Suite,
                                     baseline: string,
                                     variant: string, from: set<string>, to: set<string>)
    requires forall c :: c in keys && c.suite == suite ==> !Moved(table, c, baseline, variant, from, to)
    ensures Moves(table, keys, suite, baseline, variant, from, to) == []
  {
    if keys != [] {
      assert keys[|keys| - 1] in keys;
      NoneMoved(table, keys[..|keys| - 1], suite, baseline, variant, from, to);
    }
  }

  /** In a complete matrix whose compared cells all pass or fail, passes balance with gains and regressions. */
  lemma GainsAndRegressions(m: Manifest, seeds: seq<int>, cells: seq<Cell>, variant: string)
    requires ManifestOk(m) && Complete(m, seeds, cells) && variant in m.variants
    requires forall i :: 0 <= i < |cells| ==> CellOk(cells[i])
    requires forall i :: 0 <= i < |cells| && (cells[i].at.variant == m.baseline || cells[i].at.variant == variant) ==>
      cells[i].status == "pass" || cells[i].status == "fail"
    ensures var change := ChangeOf(ByKey(cells), Keys(cells), m.baseline, variant);
      && Count(cells, variant, Target, "pass") - Count(cells, m.baseline, Target, "pass")
           == |change.targetGains| - |change.targetRegressions|
      && Count(cells, variant, Guard, "pass") - Count(cells, m.baseline, Guard, "pass")
           == |change.guardFixes| - |change.guardRegressions|
  {
    hide Complete, CellOk, Comparable, Moves;
    CompleteIsComparable(m, seeds, cells, variant);
    var table, keys := ByKey(cells), Keys(cells);
    forall c: Coordinate
      ensures !Moved(table, c, m.baseline, variant, NOT_SCORED, {"pass"})
      ensures !Moved(table, c, m.baseline, variant, {"pass"}, NOT_SCORED)
    {
    }
    forall suite: Suite
      ensures Moves(table, keys, suite, m.baseline, variant, NOT_SCORED, {"pass"}) == []
      ensures Moves(table, keys, suite, m.baseline, variant, {"pass"}, NOT_SCORED) == []
    {
      NoneMoved(table, keys, suite, m.baseline, variant, NOT_SCORED, {"pass"});
      NoneMoved(table, keys, suite, m.baseline, variant, {"pass"}, NOT_SCORED);
    }
    PassesBalance(cells, m.baseline, variant, Target);
    PassesBalance(cells, m.baseline, variant, Guard);
  }
}
