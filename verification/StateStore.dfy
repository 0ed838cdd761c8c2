/** The SQLite state store: tables, the statements each operation issues one by one
    outside any transaction, and what they keep whatever statement fails. */
module StateStore {
  import opened Prelude
  import opened Calendar
  import opened Companions
  import opened Text

  datatype SpecRow = SpecRow(specPath: string, notes: Option<string>)
  datatype MoleculeRow = MoleculeRow(specLabel: string, baseCommit: Option<string>, iterationCount: int)

  datatype Tables = Tables(specs: map<string, SpecRow>, molecules: map<string, MoleculeRow>,
                           companions: set<(string, string)>, meta: map<string, string>)

  const EMPTY := Tables(map[], map[], {}, map["schema_version" := "1"])

  datatype Statement =
    | DropCompanions | DropMolecules | DropSpecs | DropMeta
    | InsertSchemaVersion
    | InsertSpec(spec: string, path: string)
    | UpsertSpec(spec: string, path: string)
    | InsertCompanion(spec: string, companion: string)
    | DeleteCompanions(spec: string)
    | InsertMolecule(id: string, spec: string, base: Option<string>)
    | BumpIteration(id: string)
    | SetMeta(key: string, value: string)

  /** One statement; a primary-key conflict without an `ON CONFLICT` clause fails. */
  function Apply(s: Statement, t: Tables): Option<Tables> {
    match s
    case DropCompanions => Some(t.(companions := {}))
    case DropMolecules => Some(t.(molecules := map[]))
    case DropSpecs => Some(t.(specs := map[]))
    case DropMeta => Some(t.(meta := map[]))
    case InsertSchemaVersion =>
      Some(if "schema_version" in t.meta then t else t.(meta := t.meta["schema_version" := "1"]))
    case InsertSpec(spec, path) =>
      if spec in t.specs then None else Some(t.(specs := t.specs[spec := SpecRow(path, None)]))
    case UpsertSpec(spec, path) =>
      var notes := if spec in t.specs then t.specs[spec].notes else None;
      Some(t.(specs := t.specs[spec := SpecRow(path, notes)]))
    case InsertCompanion(spec, companion) => Some(t.(companions := t.companions + {(spec, companion)}))
    case DeleteCompanions(spec) => Some(t.(companions := set c | c in t.companions && c.0 != spec))
    case InsertMolecule(id, spec, base) =>
      if id in t.molecules then None
      else Some(t.(molecules := t.molecules[id := MoleculeRow(spec, base, 0)]))
    case BumpIteration(id) =>
      if id !in t.molecules then Some(t)
      else
        var row := t.molecules[id];
        Some(t.(molecules := t.molecules[id := row.(iterationCount := row.iterationCount + 1)]))
    case SetMeta(key, value) => Some(t.(meta := t.meta[key := value]))
  }

  /** Which of the statements issued over the connection's life fail on their own. */
  type Faults = nat -> bool

  datatype Run = Run(tables: Tables, done: bool, issued: nat)

  /** Issue statements until one fails; what was done stays done. */
  function Exec(program: seq<Statement>, t: Tables, faults: Faults, issued: nat): Run {
    if program == [] then Run(t, true, issued)
    else if faults(issued) || Apply(program[0], t).None? then Run(t, false, issued + 1)
    else Exec(program[1..], Apply(program[0], t).value, faults, issued + 1)
  }

  // ------------------------------------------------------------------ programs

  datatype SpecFile = SpecFile(spec: string, path: string, content: string)
  datatype ActiveMolecule = ActiveMolecule(id: string, spec: string, base: Option<string>)

  function CompanionInserts(spec: string, paths: seq<string>): seq<Statement> {
    if paths == [] then [] else [InsertCompanion(spec, paths[0])] + CompanionInserts(spec, paths[1..])
  }

  function ReplaceProgram(spec: string, path: string, paths: seq<string>): seq<Statement> {
    [UpsertSpec(spec, path), DeleteCompanions(spec)] + CompanionInserts(spec, paths)
  }

  function SpecInserts(files: seq<SpecFile>): seq<Statement> {
    if files == [] then [] else
      var f := files[0];
      [InsertSpec(f.spec, f.path)] + CompanionInserts(f.spec, CompanionPaths(f.content)) + SpecInserts(files[1..])
  }

  predicate HasSpec(files: seq<SpecFile>, spec: string) {
    exists i :: 0 <= i < |files| && files[i].spec == spec
  }

  function MoleculeInserts(files: seq<SpecFile>, molecules: seq<ActiveMolecule>): seq<Statement> {
    if molecules == [] then []
    else
      var m := molecules[0];
      (if HasSpec(files, m.spec) then [InsertMolecule(m.id, m.spec, m.base)] else [])
        + MoleculeInserts(files, molecules[1..])
  }

  const RECREATE := [DropCompanions, DropMolecules, DropSpecs, DropMeta, InsertSchemaVersion]

  function RebuildProgram(files: seq<SpecFile>, molecules: seq<ActiveMolecule>): seq<Statement> {
    RECREATE + (SpecInserts(files) + MoleculeInserts(files, molecules))
  }

  lemma {:induction false} ExecConcat(a: seq<Statement>, b: seq<Statement>, t: Tables, faults: Faults, n: nat)
    ensures var first := Exec(a, t, faults, n);
            Exec(a + b, t, faults, n) == if first.done then Exec(b, first.tables, faults, first.issued) else first
    decreases |a|
  {
    hide Apply;
    if a == [] {
      assert a + b == b;
    } else {
      assert (a + b)[0] == a[0] && (a + b)[1..] == a[1..] + b;
      if !faults(n) && Apply(a[0], t).Some? { ExecConcat(a[1..], b, Apply(a[0], t).value, faults, n + 1); }
    }
  }

  // -------------------------------------------------------------- the invariant

  /** Every molecule and every companion row refers to a spec row. */
  predicate ReferencesHold(t: Tables) {
    && (forall id :: id in t.molecules ==> t.molecules[id].specLabel in t.specs)
    && (forall c :: c in t.companions ==> c.0 in t.specs)
  }

  datatype Operation =
    | SetCurrentSpec(spec: string)
    | ReplaceCompanions(spec: string, path: string, paths: seq<string>)
    | IncrementIteration(id: string)
    | Rebuild(files: seq<SpecFile>, molecules: seq<ActiveMolecule>)

  function Program(op: Operation): seq<Statement> {
    match op
    case SetCurrentSpec(spec) => [SetMeta("current_spec", spec)]
    case ReplaceCompanions(spec, path, paths) => ReplaceProgram(spec, path, paths)
    case IncrementIteration(id) => [BumpIteration(id)]
    case Rebuild(files, molecules) => RebuildProgram(files, molecules)
  }

  /** A whole life of the store: operations one after another, each possibly cut short. */
  function Life(ops: seq<Operation>, t: Tables, faults: Faults, issued: nat): Run {
    if ops == [] then Run(t, true, issued)
    else
      var run := Exec(Program(ops[0]), t, faults, issued);
      Life(ops[1..], run.tables, faults, run.issued)
  }

  lemma {:induction false} CompanionInsertsKeep(spec: string, paths: seq<string>, t: Tables, faults: Faults, n: nat)
    requires ReferencesHold(t) && spec in t.specs
    ensures var run := Exec(CompanionInserts(spec, paths), t, faults, n);
            ReferencesHold(run.tables) && run.tables.specs == t.specs && run.tables.molecules == t.molecules
    decreases |paths|
  {
    if paths != [] && !faults(n) {
      CompanionInsertsKeep(spec, paths[1..], t.(companions := t.companions + {(spec, paths[0])}), faults, n + 1);
    }
  }

  lemma {:induction false} SpecInsertsKeep(files: seq<SpecFile>, t: Tables, faults: Faults, n: nat)
    requires ReferencesHold(t)
    ensures var run := Exec(SpecInserts(files), t, faults, n);
            && ReferencesHold(run.tables) && t.specs.Keys <= run.tables.specs.Keys
            && (run.done ==> forall i :: 0 <= i < |files| ==> files[i].spec in run.tables.specs)
    decreases |files|
  {
    hide Exec, ReferencesHold, CompanionPaths, CompanionInserts;
    if files == [] {
      ExecNothing(t, faults, n);
    } else {
      var f, later := files[0], SpecInserts(files[1..]);
      var insert, inserts := InsertSpec(f.spec, f.path), CompanionInserts(f.spec, CompanionPaths(f.content));
      assert SpecInserts(files) == [insert] + (inserts + later);
      ExecCons(insert, inserts + later, t, faults, n);
      if !faults(n) && f.spec !in t.specs {
        var t1 := t.(specs := t.specs[f.spec := SpecRow(f.path, None)]);
        NewSpecKeeps(t, f.spec, SpecRow(f.path, None));
        CompanionInsertsKeep(f.spec, CompanionPaths(f.content), t1, faults, n + 1);
        ExecConcat(inserts, later, t1, faults, n + 1);
        var r2 := Exec(inserts, t1, faults, n + 1);
        if r2.done { SpecInsertsKeep(files[1..], r2.tables, faults, r2.issued); }
      }
    }
  }

  lemma NewSpecKeeps(t: Tables, spec: string, row: SpecRow)
    requires ReferencesHold(t)
    ensures ReferencesHold(t.(specs := t.specs[spec := row]))
  {
  }

  lemma ExecOne(s: Statement, t: Tables, faults: Faults, n: nat)
    ensures Exec([s], t, faults, n) ==
            if faults(n) || Apply(s, t).None? then Run(t, false, n + 1) else Run(Apply(s, t).value, true, n + 1)
  {
    hide Apply;
    var none: seq<Statement> := [];
    assert [s][1..] == none;
  }

  lemma {:induction false} MoleculeInsertsKeep(files: seq<SpecFile>, molecules: seq<ActiveMolecule>,
                                               t: Tables, faults: Faults, n: nat)
    requires ReferencesHold(t) && forall i :: 0 <= i < |files| ==> files[i].spec in t.specs
    ensures ReferencesHold(Exec(MoleculeInserts(files, molecules), t, faults, n).tables)
    decreases |molecules|
  {
    if molecules != [] {
      var m, later := molecules[0], MoleculeInserts(files, molecules[1..]);
      if HasSpec(files, m.spec) {
        var s := InsertMolecule(m.id, m.spec, m.base);
        ExecOne(s, t, faults, n);
        ExecConcat([s], later, t, faults, n);
        var r := Exec([s], t, faults, n);
        if r.done { MoleculeInsertsKeep(files, molecules[1..], r.tables, faults, r.issued); }
      } else {
        assert [] + later == later;
        MoleculeInsertsKeep(files, molecules[1..], t, faults, n);
      }
    }
  }

  lemma ExecCons(s: Statement, rest: seq<Statement>, t: Tables, faults: Faults, n: nat)
    ensures Exec([s] + rest, t, faults, n) ==
            if faults(n) || Apply(s, t).None? then Run(t, false, n + 1)
            else Exec(rest, Apply(s, t).value, faults, n + 1)
  {
    assert ([s] + rest)[1..] == rest;
  }

  lemma OperationKeeps(op: Operation, t: Tables, faults: Faults, n: nat)
    requires ReferencesHold(t)
    ensures ReferencesHold(Exec(Program(op), t, faults, n).tables)
  {
    hide Exec;
    match op {
      case SetCurrentSpec(spec) => ExecOne(SetMeta("current_spec", spec), t, faults, n);
      case IncrementIteration(id) => ExecOne(BumpIteration(id), t, faults, n);
      case ReplaceCompanions(spec, path, paths) =>
        var inserts := CompanionInserts(spec, paths);
        var first, second := UpsertSpec(spec, path), DeleteCompanions(spec);
        assert ReplaceProgram(spec, path, paths) == [first] + ([second] + inserts);
        ExecCons(first, [second] + inserts, t, faults, n);
        var t1 := Apply(first, t).value;
        ExecCons(second, inserts, t1, faults, n + 1);
        CompanionInsertsKeep(spec, paths, Apply(second, t1).value, faults, n + 2);
      case Rebuild(files, molecules) =>
        var specs, mols := SpecInserts(files), MoleculeInserts(files, molecules);
        RecreateRun(t, faults, n);
        ExecConcat(RECREATE, specs + mols, t, faults, n);
        var r1 := Exec(RECREATE, t, faults, n);
        ExecConcat(specs, mols, r1.tables, faults, r1.issued);
        SpecInsertsKeep(files, r1.tables, faults, r1.issued);
        var r2 := Exec(specs, r1.tables, faults, r1.issued);
        if r2.done { MoleculeInsertsKeep(files, molecules, r2.tables, faults, r2.issued); }
    }
  }

  /** Over any sequence of operations, with any statements failing, no molecule and no
      companion ever refers to a missing spec. */
  lemma {:induction false} ReferencesHoldForLife(ops: seq<Operation>, t: Tables, faults: Faults, n: nat)
    requires ReferencesHold(t)
    ensures ReferencesHold(Life(ops, t, faults, n).tables)
    decreases |ops|
  {
    hide Exec, ReferencesHold;
    if ops != [] {
      OperationKeeps(ops[0], t, faults, n);
      var run := Exec(Program(ops[0]), t, faults, n);
      ReferencesHoldForLife(ops[1..], run.tables, faults, run.issued);
    }
  }

  // --------------------------------------------------------- a successful rebuild

  function PairsOf(spec: string, paths: seq<string>): set<(string, string)> {
    set p | p in paths :: (spec, p)
  }

  function CompanionRows(files: seq<SpecFile>): set<(string, string)> {
    if files == [] then {}
    else PairsOf(files[0].spec, CompanionPaths(files[0].content)) + CompanionRows(files[1..])
  }

  function SpecRows(files: seq<SpecFile>): map<string, SpecRow> {
    if files == [] then map[]
    else SpecRows(files[1..])[files[0].spec := SpecRow(files[0].path, None)]
  }

  predicate DistinctSpecs(files: seq<SpecFile>) {
    forall i, j :: 0 <= i < j < |files| ==> files[i].spec != files[j].spec
  }

  /** The molecules whose spec has a file. */
  function Kept(files: seq<SpecFile>, molecules: seq<ActiveMolecule>): seq<ActiveMolecule> {
    if molecules == [] then []
    else (if HasSpec(files, molecules[0].spec) then [molecules[0]] else []) + Kept(files, molecules[1..])
  }

  function MoleculeRows(molecules: seq<ActiveMolecule>): map<string, MoleculeRow> {
    if molecules == [] then map[]
    else
      var m := molecules[0];
      MoleculeRows(molecules[1..])[m.id := MoleculeRow(m.spec, m.base, 0)]
  }

  predicate DistinctIds(molecules: seq<ActiveMolecule>) {
    forall i, j :: 0 <= i < j < |molecules| ==> molecules[i].id != molecules[j].id
  }

  /** The tables a rebuild leaves, as a function of its inputs alone. */
  function Rebuilt(files: seq<SpecFile>, molecules: seq<ActiveMolecule>): Tables {
    Tables(SpecRows(files), MoleculeRows(Kept(files, molecules)), CompanionRows(files), EMPTY.meta)
  }

  lemma {:induction false} CompanionInsertsRun(spec: string, paths: seq<string>, t: Tables, faults: Faults, n: nat)
    ensures var run := Exec(CompanionInserts(spec, paths), t, faults, n);
            && (run.done ==> run.tables == t.(companions := t.companions + PairsOf(spec, paths)))
            && ((forall i :: faults(i) == false) ==> run.done)
    decreases |paths|
  {
    hide Exec;
    if paths == [] {
      assert CompanionInserts(spec, paths) == [];
      ExecNothing(t, faults, n);
      assert t.companions + PairsOf(spec, paths) == t.companions;
    } else {
      var s, rest := InsertCompanion(spec, paths[0]), CompanionInserts(spec, paths[1..]);
      ExecCons(s, rest, t, faults, n);
      var t' := t.(companions := t.companions + {(spec, paths[0])});
      if !faults(n) { CompanionInsertsRun(spec, paths[1..], t', faults, n + 1); }
      assert paths == [paths[0]] + paths[1..];
      assert t.companions + PairsOf(spec, paths) == t.companions + {(spec, paths[0])} + PairsOf(spec, paths[1..]);
    }
  }

  lemma ExecNothing(t: Tables, faults: Faults, n: nat)
    ensures Exec([], t, faults, n) == Run(t, true, n)
  {
  }

  predicate NoneIn(files: seq<SpecFile>, specs: map<string, SpecRow>) {
    forall i :: 0 <= i < |files| ==> files[i].spec !in specs
  }

  lemma {:induction false} SpecInsertsRun(files: seq<SpecFile>, t: Tables, faults: Faults, n: nat)
    ensures var run := Exec(SpecInserts(files), t, faults, n);
            && (run.done ==>
                && run.tables == t.(specs := t.specs + SpecRows(files),
                                    companions := t.companions + CompanionRows(files))
                && DistinctSpecs(files) && NoneIn(files, t.specs))
            && ((forall i :: faults(i) == false) && DistinctSpecs(files) && NoneIn(files, t.specs) ==> run.done)
    decreases |files|
  {
    if files == [] {
      SpecInsertsNothing(t, faults, n);
    } else {
      hide *;
      var f, rest := files[0], files[1..];
      var t2 := WithFile(f, t);
      var r := FileInsertRun(f, rest, t, faults, n);
      if r.done { SpecInsertsRun(rest, t2, faults, r.issued); }
      assert files == [f] + rest;
      ExtendSpecs(f, rest, t);
      RowsOfFiles(f, rest, t);
    }
  }

  lemma SpecInsertsNothing(t: Tables, faults: Faults, n: nat)
    ensures Exec(SpecInserts([]), t, faults, n) == Run(t, true, n)
    ensures t == t.(specs := t.specs + SpecRows([]), companions := t.companions + CompanionRows([]))
    ensures DistinctSpecs([]) && NoneIn([], t.specs)
  {
    assert SpecInserts([]) == [];
  }

  /** The tables after one more spec file. */
  function WithFile(f: SpecFile, t: Tables): Tables {
    t.(specs := t.specs[f.spec := SpecRow(f.path, None)],
       companions := t.companions + PairsOf(f.spec, CompanionPaths(f.content)))
  }

  lemma FileInsertRun(f: SpecFile, rest: seq<SpecFile>, t: Tables, faults: Faults, n: nat) returns (r: Run)
    ensures r.done ==> f.spec !in t.specs && r.tables == WithFile(f, t)
    ensures r.done ==>
      Exec(SpecInserts([f] + rest), t, faults, n) == Exec(SpecInserts(rest), WithFile(f, t), faults, r.issued)
    ensures !r.done ==> Exec(SpecInserts([f] + rest), t, faults, n) == r
    ensures (forall i :: faults(i) == false) && f.spec !in t.specs ==> r.done
  {
    hide Exec, CompanionPaths, CompanionInserts;
    var s, paths := InsertSpec(f.spec, f.path), CompanionPaths(f.content);
    var inserts, later := CompanionInserts(f.spec, paths), SpecInserts(rest);
    assert ([f] + rest)[1..] == rest;
    assert SpecInserts([f] + rest) == [s] + (inserts + later);
    ExecCons(s, inserts + later, t, faults, n);
    if faults(n) || f.spec in t.specs { return Run(t, false, n + 1); }
    var t1 := t.(specs := t.specs[f.spec := SpecRow(f.path, None)]);
    ExecConcat(inserts, later, t1, faults, n + 1);
    CompanionInsertsRun(f.spec, paths, t1, faults, n + 1);
    r := Exec(inserts, t1, faults, n + 1);
  }

  lemma RowsOfFiles(f: SpecFile, rest: seq<SpecFile>, t: Tables)
    ensures DistinctSpecs([f] + rest) ==>
      var t2 := WithFile(f, t);
      t2.(specs := t2.specs + SpecRows(rest), companions := t2.companions + CompanionRows(rest))
        == t.(specs := t.specs + SpecRows([f] + rest), companions := t.companions + CompanionRows([f] + rest))
  {
    hide CompanionPaths;
    var files := [f] + rest;
    assert files[1..] == rest && files[0] == f;
    if DistinctSpecs(files) {
      DistinctHead(files);
      MergeSpecs(f, rest, t.specs);
    }
  }

  lemma MergeSpecs(f: SpecFile, rest: seq<SpecFile>, specs: map<string, SpecRow>)
    requires !HasSpec(rest, f.spec)
    ensures specs[f.spec := SpecRow(f.path, None)] + SpecRows(rest) == specs + SpecRows([f] + rest)
  {
    var later := SpecRows(rest);
    SpecRowsKeys(rest);
    assert ([f] + rest)[1..] == rest;
    assert SpecRows([f] + rest) == later[f.spec := SpecRow(f.path, None)];
    hide SpecRows;
    LateUpdate(specs, later, f.spec, SpecRow(f.path, None));
  }

  lemma DistinctHead(files: seq<SpecFile>)
    requires files != [] && DistinctSpecs(files)
    ensures DistinctSpecs(files[1..]) && !HasSpec(files[1..], files[0].spec)
  {
    assert forall i :: 0 <= i < |files| - 1 ==> files[1..][i] == files[i + 1];
  }

  /** Distinctness and absence, one file at a time. */
  lemma ExtendSpecs(f: SpecFile, rest: seq<SpecFile>, t: Tables)
    ensures (DistinctSpecs([f] + rest) && NoneIn([f] + rest, t.specs))
      <==> (f.spec !in t.specs && DistinctSpecs(rest) && NoneIn(rest, WithFile(f, t).specs))
  {
    var files := [f] + rest;
    assert files[0] == f && forall i :: 0 <= i < |rest| ==> files[i + 1] == rest[i];
    assert forall i :: 0 < i < |files| ==> files[i] == rest[i - 1];
  }

  lemma {:induction false} SpecRowsKeys(files: seq<SpecFile>)
    ensures forall spec :: spec in SpecRows(files) <==> HasSpec(files, spec)
  {
    if files != [] {
      SpecRowsKeys(files[1..]);
      forall spec ensures spec in SpecRows(files) <==> HasSpec(files, spec) {
        if HasSpec(files[1..], spec) {
          var i :| 0 <= i < |files[1..]| && files[1..][i].spec == spec;
          assert files[i + 1].spec == spec;
        }
        if HasSpec(files, spec) && spec != files[0].spec {
          var i :| 0 <= i < |files| && files[i].spec == spec;
          assert files[1..][i - 1].spec == spec;
        }
      }
    }
  }

  function Inserts(molecules: seq<ActiveMolecule>): seq<Statement> {
    if molecules == [] then []
    else [InsertMolecule(molecules[0].id, molecules[0].spec, molecules[0].base)] + Inserts(molecules[1..])
  }

  lemma {:induction false} OnlyKeptAreInserted(files: seq<SpecFile>, molecules: seq<ActiveMolecule>)
    ensures MoleculeInserts(files, molecules) == Inserts(Kept(files, molecules))
  {
    if molecules != [] {
      OnlyKeptAreInserted(files, molecules[1..]);
      var rest := Kept(files, molecules[1..]);
      assert ([molecules[0]] + rest)[1..] == rest && [] + rest == rest;
      assert [] + Inserts(rest) == Inserts(rest);
    }
  }

  predicate NoneOf(molecules: seq<ActiveMolecule>, rows: map<string, MoleculeRow>) {
    forall i :: 0 <= i < |molecules| ==> molecules[i].id !in rows
  }

  lemma {:induction false} MoleculeRowsKeys(molecules: seq<ActiveMolecule>)
    ensures forall id :: id in MoleculeRows(molecules) <==> exists i :: 0 <= i < |molecules| && molecules[i].id == id
  {
    if molecules != [] {
      var rest := molecules[1..];
      MoleculeRowsKeys(rest);
      forall id ensures id in MoleculeRows(molecules) <==> exists i :: 0 <= i < |molecules| && molecules[i].id == id {
        if i :| 0 <= i < |rest| && rest[i].id == id { assert molecules[i + 1].id == id; }
        if i :| 0 < i < |molecules| && molecules[i].id == id { assert rest[i - 1].id == id; }
      }
    }
  }

  lemma {:induction false} InsertsRun(molecules: seq<ActiveMolecule>, t: Tables, faults: Faults, n: nat)
    ensures var run := Exec(Inserts(molecules), t, faults, n);
            && (run.done ==>
                && run.tables == t.(molecules := t.molecules + MoleculeRows(molecules))
                && DistinctIds(molecules) && NoneOf(molecules, t.molecules))
            && ((forall i :: faults(i) == false) && DistinctIds(molecules) && NoneOf(molecules, t.molecules)
                ==> run.done)
    decreases |molecules|
  {
    hide Exec;
    if molecules == [] {
      assert Inserts(molecules) == [];
      ExecNothing(t, faults, n);
      assert t.molecules + MoleculeRows(molecules) == t.molecules;
    } else {
      var m, rest := molecules[0], molecules[1..];
      assert molecules == [m] + rest;
      var s, row := InsertMolecule(m.id, m.spec, m.base), MoleculeRow(m.spec, m.base, 0);
      ExecCons(s, Inserts(rest), t, faults, n);
      ExtendMolecules(m, rest, t.molecules, row);
      if !faults(n) && m.id !in t.molecules {
        InsertsRun(rest, t.(molecules := t.molecules[m.id := row]), faults, n + 1);
      }
    }
  }

  lemma ExtendMolecules(m: ActiveMolecule, rest: seq<ActiveMolecule>, rows: map<string, MoleculeRow>, row: MoleculeRow)
    requires row == MoleculeRow(m.spec, m.base, 0)
    ensures (DistinctIds([m] + rest) && NoneOf([m] + rest, rows))
      <==> (m.id !in rows && DistinctIds(rest) && NoneOf(rest, rows[m.id := row]))
    ensures DistinctIds([m] + rest) ==>
      rows[m.id := row] + MoleculeRows(rest) == rows + MoleculeRows([m] + rest)
  {
    var all := [m] + rest;
    assert all[0] == m && forall i :: 0 <= i < |rest| ==> all[i + 1] == rest[i];
    assert forall i :: 0 < i < |all| ==> all[i] == rest[i - 1];
    if DistinctIds(all) { MergeMolecules(m, rest, rows, row); }
  }

  lemma MergeMolecules(m: ActiveMolecule, rest: seq<ActiveMolecule>, rows: map<string, MoleculeRow>, row: MoleculeRow)
    requires row == MoleculeRow(m.spec, m.base, 0)
    requires forall i :: 0 <= i < |rest| ==> rest[i].id != m.id
    ensures rows[m.id := row] + MoleculeRows(rest) == rows + MoleculeRows([m] + rest)
  {
    var later := MoleculeRows(rest);
    MoleculeRowsKeys(rest);
    assert ([m] + rest)[1..] == rest;
    assert MoleculeRows([m] + rest) == later[m.id := row];
    hide MoleculeRows;
    LateUpdate(rows, later, m.id, row);
  }

  /** An update can be moved past a merge that does not touch its key. */
  lemma LateUpdate<V>(a: map<string, V>, b: map<string, V>, k: string, v: V)
    requires k !in b
    ensures a[k := v] + b == a + b[k := v]
  {
  }

  /** A rebuild that succeeds leaves tables that depend on the spec files and molecules
      alone, whatever was stored before; without faults it succeeds iff no two kept
      molecules share an id (spec files in one directory never share a label). */
  lemma RebuildForgetsThePast(files: seq<SpecFile>, molecules: seq<ActiveMolecule>, t: Tables, faults: Faults, n: nat)
    ensures var run := Exec(RebuildProgram(files, molecules), t, faults, n);
            && (run.done ==> run.tables == Rebuilt(files, molecules))
            && (run.done ==> DistinctSpecs(files) && DistinctIds(Kept(files, molecules)))
            && ((forall i :: faults(i) == false) ==>
                (run.done <==> DistinctSpecs(files) && DistinctIds(Kept(files, molecules))))
  {
    hide Exec, ReferencesHold, SpecInserts, Inserts, MoleculeInserts, SpecRows, MoleculeRows, CompanionRows,
      DistinctSpecs, DistinctIds;
    var specs, mols := SpecInserts(files), MoleculeInserts(files, molecules);
    RecreateRun(t, faults, n);
    ExecConcat(RECREATE, specs + mols, t, faults, n);
    var r1 := Exec(RECREATE, t, faults, n);
    ExecConcat(specs, mols, r1.tables, faults, r1.issued);
    SpecInsertsRun(files, r1.tables, faults, r1.issued);
    var r2 := Exec(specs, r1.tables, faults, r1.issued);
    OnlyKeptAreInserted(files, molecules);
    InsertsRun(Kept(files, molecules), r2.tables, faults, r2.issued);
    FromEmpty(files, molecules);
  }

  lemma RecreateRun(t: Tables, faults: Faults, n: nat)
    ensures Exec(RECREATE, t, faults, n).done ==> Exec(RECREATE, t, faults, n).tables == EMPTY
    ensures (forall i :: faults(i) == false) ==> Exec(RECREATE, t, faults, n).done
    ensures ReferencesHold(t) ==> ReferencesHold(Exec(RECREATE, t, faults, n).tables)
  {
    hide Exec;
    var r4 := [InsertSchemaVersion];
    var r3 := [DropMeta] + r4;
    var r2 := [DropSpecs] + r3;
    var r1 := [DropMolecules] + r2;
    assert RECREATE == [DropCompanions] + r1;
    ExecCons(DropCompanions, r1, t, faults, n);
    var t1 := t.(companions := {});
    ExecCons(DropMolecules, r2, t1, faults, n + 1);
    var t2 := t1.(molecules := map[]);
    ExecCons(DropSpecs, r3, t2, faults, n + 2);
    var t3 := t2.(specs := map[]);
    ExecCons(DropMeta, r4, t3, faults, n + 3);
    ExecOne(InsertSchemaVersion, t3.(meta := map[]), faults, n + 4);
  }

  lemma FromEmpty(files: seq<SpecFile>, molecules: seq<ActiveMolecule>)
    ensures EMPTY.specs + SpecRows(files) == SpecRows(files)
    ensures EMPTY.molecules + MoleculeRows(Kept(files, molecules)) == MoleculeRows(Kept(files, molecules))
    ensures EMPTY.companions + CompanionRows(files) == CompanionRows(files)
    ensures NoneIn(files, EMPTY.specs) && NoneOf(Kept(files, molecules), EMPTY.molecules)
  {
  }

  // ------------------------------------------------------------------ the report

  datatype Report = Report(specs: nat, molecules: nat, companions: nat)

  function ListedCompanions(files: seq<SpecFile>): nat {
    if files == [] then 0 else |CompanionPaths(files[0].content)| + ListedCompanions(files[1..])
  }

  function RebuildReport(files: seq<SpecFile>, molecules: seq<ActiveMolecule>): Report {
    Report(|files|, |Kept(files, molecules)|, ListedCompanions(files))
  }

  predicate NoDuplicates(paths: seq<string>) {
    forall i, j :: 0 <= i < j < |paths| ==> paths[i] != paths[j]
  }

  lemma {:induction false} PairsCount(spec: string, paths: seq<string>)
    ensures |PairsOf(spec, paths)| <= |paths|
    ensures |PairsOf(spec, paths)| == |paths| <==> NoDuplicates(paths)
  {
    if paths == [] {
      assert PairsOf(spec, paths) == {};
    } else {
      var p, rest := paths[0], paths[1..];
      PairsCount(spec, rest);
      assert paths == [p] + rest;
      assert PairsOf(spec, paths) == {(spec, p)} + PairsOf(spec, rest);
      if p in rest {
        assert (spec, p) in PairsOf(spec, rest);
        assert PairsOf(spec, paths) == PairsOf(spec, rest);
        var k :| 0 <= k < |rest| && rest[k] == p;
        assert paths[k + 1] == paths[0];
      } else {
        assert (spec, p) !in PairsOf(spec, rest);
        assert NoDuplicates(paths) <==> NoDuplicates(rest) by { NoDuplicatesCons(p, rest); }
      }
    }
  }

  lemma NoDuplicatesCons(p: string, rest: seq<string>)
    requires p !in rest
    ensures NoDuplicates([p] + rest) <==> NoDuplicates(rest)
  {
    var paths := [p] + rest;
    assert forall i :: 0 <= i < |rest| ==> paths[i + 1] == rest[i];
    assert forall i :: 0 < i < |paths| ==> paths[i] == rest[i - 1];
  }

  predicate EachListsOnce(files: seq<SpecFile>) {
    forall i :: 0 <= i < |files| ==> NoDuplicates(CompanionPaths(files[i].content))
  }

  lemma {:induction false} CompanionsCounted(files: seq<SpecFile>)
    requires DistinctSpecs(files)
    ensures |CompanionRows(files)| <= ListedCompanions(files)
    ensures |CompanionRows(files)| == ListedCompanions(files) <==> EachListsOnce(files)
    ensures forall c :: c in CompanionRows(files) ==> HasSpec(files, c.0)
  {
    hide CompanionPaths, NoDuplicates;
    if files != [] {
      var f, rest := files[0], files[1..];
      var own := PairsOf(f.spec, CompanionPaths(f.content));
      DistinctHead(files);
      CompanionsCounted(rest);
      PairsCount(f.spec, CompanionPaths(f.content));
      forall c | c in own ensures c !in CompanionRows(rest) {
        assert c.0 == f.spec;
      }
      assert own !! CompanionRows(rest);
      assert EachListsOnce(files) <==> NoDuplicates(CompanionPaths(f.content)) && EachListsOnce(rest) by {
        assert forall i :: 0 <= i < |rest| ==> files[i + 1] == rest[i];
        assert forall i :: 0 < i < |files| ==> files[i] == rest[i - 1];
      }
      forall c | c in CompanionRows(files) ensures HasSpec(files, c.0) {
        if c in CompanionRows(rest) {
          var i :| 0 <= i < |rest| && rest[i].spec == c.0;
          assert files[i + 1].spec == c.0;
        }
      }
    }
  }

  lemma {:induction false} SpecsCounted(files: seq<SpecFile>)
    requires DistinctSpecs(files)
    ensures |SpecRows(files)| == |files|
  {
    if files != [] {
      DistinctHead(files);
      SpecsCounted(files[1..]);
      SpecRowsKeys(files[1..]);
    }
  }

  lemma {:induction false} MoleculesCounted(molecules: seq<ActiveMolecule>)
    requires DistinctIds(molecules)
    ensures |MoleculeRows(molecules)| == |molecules|
  {
    if molecules != [] {
      var rest := molecules[1..];
      assert forall i :: 0 <= i < |rest| ==> rest[i] == molecules[i + 1];
      MoleculesCounted(rest);
      MoleculeRowsKeys(rest);
    }
  }

  /** The report counts the rows written, except that a companion listed twice in one
      spec is counted twice and stored once. */
  lemma ReportCountsRows(files: seq<SpecFile>, molecules: seq<ActiveMolecule>)
    requires DistinctSpecs(files) && DistinctIds(Kept(files, molecules))
    ensures var t, report := Rebuilt(files, molecules), RebuildReport(files, molecules);
            && |t.specs| == report.specs
            && |t.molecules| == report.molecules
            && |t.companions| <= report.companions
            && (|t.companions| == report.companions <==> EachListsOnce(files))
  {
    SpecsCounted(files);
    MoleculesCounted(Kept(files, molecules));
    CompanionsCounted(files);
  }

  // -------------------------------------------------------------- the live store

  ghost predicate Listing(out: seq<string>, paths: set<string>) {
    StrictlySorted(out) && Elements(out) == paths
  }

  function CurrentSpecOf(t: Tables): Option<string> {
    if "current_spec" in t.meta then Some(t.meta["current_spec"]) else None
  }

  function CompanionsOf(t: Tables, spec: string): set<string> {
    set c | c in t.companions && c.0 == spec :: c.1
  }

  class StateDb {
    const faults: Faults
    var tables: Tables
    var issued: nat

    /** `open` on a file that holds `existing` tables; a new file holds empty ones. */
    constructor Open(existing: Tables, faults: Faults)
      ensures this.faults == faults && issued == 0
      ensures Some(tables) == Apply(InsertSchemaVersion, existing)
    {
      this.faults, tables, issued := faults, Apply(InsertSchemaVersion, existing).value, 0;
    }

    /** What a successful or failed operation leaves behind. */
    ghost predicate Ran(program: seq<Statement>, before: Tables, from: nat, ok: bool)
      reads this
    {
      Exec(program, before, faults, from) == Run(tables, ok, issued)
    }

    method Execute(s: Statement) returns (ok: bool)
      modifies this
      ensures ok <==> !faults(old(issued)) && Apply(s, old(tables)).Some?
      ensures tables == if ok then Apply(s, old(tables)).value else old(tables)
      ensures issued == old(issued) + 1
    {
      var result := Apply(s, tables);
      ok := !faults(issued) && result.Some?;
      issued := issued + 1;
      if ok { tables := result.value; }
    }

    method SetCurrentSpec(spec: string) returns (ok: bool)
      modifies this
      ensures Ran(Program(Operation.SetCurrentSpec(spec)), old(tables), old(issued), ok)
      ensures ok ==> tables == old(tables).(meta := old(tables).meta["current_spec" := spec])
    {
      ExecOne(SetMeta("current_spec", spec), tables, faults, issued);
      ok := Execute(SetMeta("current_spec", spec));
    }

    method CurrentSpec() returns (r: Option<string>)
      ensures r == CurrentSpecOf(tables)
    {
      r := if "current_spec" in tables.meta then Some(tables.meta["current_spec"]) else None;
    }

    method InsertCompanions(spec: string, paths: seq<string>) returns (ok: bool)
      modifies this
      ensures Ran(CompanionInserts(spec, paths), old(tables), old(issued), ok)
    {
      hide Exec, Apply;
      var i := 0;
      ok := true;
      assert paths[0..] == paths;
      while i < |paths|
        invariant 0 <= i <= |paths| && ok
        invariant Exec(CompanionInserts(spec, paths[i..]), tables, faults, issued)
               == Exec(CompanionInserts(spec, paths), old(tables), faults, old(issued))
      {
        var s := InsertCompanion(spec, paths[i]);
        assert paths[i..] == [paths[i]] + paths[i + 1..];
        ExecCons(s, CompanionInserts(spec, paths[i + 1..]), tables, faults, issued);
        ok := Execute(s);
        if !ok { return; }
        i := i + 1;
      }
      assert paths[i..] == [];
      ExecNothing(tables, faults, issued);
    }

    method ReplaceCompanions(spec: string, path: string, paths: seq<string>) returns (ok: bool)
      modifies this
      ensures Ran(Program(Operation.ReplaceCompanions(spec, path, paths)), old(tables), old(issued), ok)
    {
      hide Exec;
      var first, second := UpsertSpec(spec, path), DeleteCompanions(spec);
      ghost var inserts := CompanionInserts(spec, paths);
      assert ReplaceProgram(spec, path, paths) == [first] + ([second] + inserts);
      ExecCons(first, [second] + inserts, tables, faults, issued);
      ok := Execute(first);
      if !ok { return; }
      ExecCons(second, inserts, tables, faults, issued);
      ok := Execute(second);
      if !ok { return; }
      ok := InsertCompanions(spec, paths);
    }

    /** The stored paths in order, each once. */
    method Companions(spec: string) returns (out: seq<string>)
      ensures Listing(out, CompanionsOf(tables, spec))
    {
      var rest := CompanionsOf(tables, spec);
      out := [];
      while rest != {}
        invariant rest <= CompanionsOf(tables, spec)
        invariant Listing(out, CompanionsOf(tables, spec) - rest)
        decreases |rest|
      {
        var p :| p in rest;
        InsertionPoint(out, p);
        out := InsertSorted(out, p);
        rest := rest - {p};
      }
    }

    /** The molecule `ORDER BY id ASC LIMIT 1` picks for a spec. */
    method ActiveMolecule(spec: string) returns (r: Option<string>)
      ensures r.None? <==> forall id :: id in tables.molecules ==> tables.molecules[id].specLabel != spec
      ensures r.Some? ==> r.value in tables.molecules && tables.molecules[r.value].specLabel == spec
      ensures r.Some? ==> forall id ::
        id in tables.molecules && tables.molecules[id].specLabel == spec && id != r.value ==> LexLess(r.value, id)
    {
      var all := set id | id in tables.molecules && tables.molecules[id].specLabel == spec;
      var rest := all;
      r := None;
      while rest != {}
        invariant rest <= all
        invariant r.None? ==> rest == all
        invariant r.Some? ==> r.value in all - rest
        invariant r.Some? ==> forall id :: id in all - rest && id != r.value ==> LexLess(r.value, id)
        decreases |rest|
      {
        var id :| id in rest;
        rest := rest - {id};
        if r.None? {
          r := Some(id);
        } else {
          LexTotal(id, r.value);
          if LexLess(id, r.value) {
            forall other | other in all - rest && other != id && other != r.value ensures LexLess(id, other) {
              LexTransitive(id, r.value, other);
            }
            r := Some(id);
          }
        }
      }
      assert r.None? ==> all == {};
      assert forall id :: id in tables.molecules && tables.molecules[id].specLabel == spec ==> id in all;
    }

    method IncrementIteration(id: string) returns (r: Result<int, string>)
      modifies this
      ensures Ran(Program(Operation.IncrementIteration(id)), old(tables), old(issued), !faults(old(issued)))
      ensures r.Ok? <==> id in old(tables).molecules && !faults(old(issued))
      ensures r.Ok? ==> id in tables.molecules && r.value == CountAsU32(tables.molecules[id].iterationCount)
    {
      ExecOne(BumpIteration(id), tables, faults, issued);
      var ok := Execute(BumpIteration(id));
      if !ok { return Err("statement failed"); }
      if id !in tables.molecules { return Err(id); }
      r := Ok(CountAsU32(tables.molecules[id].iterationCount));
    }

    method Rebuild(files: seq<SpecFile>, molecules: seq<ActiveMolecule>) returns (r: Option<Report>)
      modifies this
      ensures Ran(Program(Operation.Rebuild(files, molecules)), old(tables), old(issued), r.Some?)
      ensures r.Some? ==> r.value == RebuildReport(files, molecules)
    {
      hide Exec, Apply, SpecInserts, MoleculeInserts, ListedCompanions, Kept;
      ExecConcat(RECREATE, SpecInserts(files) + MoleculeInserts(files, molecules), tables, faults, issued);
      var ok := DropAndRecreate();
      if !ok { return None; }
      ExecConcat(SpecInserts(files), MoleculeInserts(files, molecules), tables, faults, issued);
      var companions := InsertSpecs(files);
      if companions.None? { return None; }
      var kept := InsertMolecules(files, molecules);
      if kept.None? { return None; }
      r := Some(Report(|files|, kept.value, companions.value));
    }

    method DropAndRecreate() returns (ok: bool)
      modifies this
      ensures Ran(RECREATE, old(tables), old(issued), ok)
    {
      hide Exec, Apply;
      var i := 0;
      ok := true;
      assert RECREATE[0..] == RECREATE;
      while i < |RECREATE|
        invariant 0 <= i <= |RECREATE| && ok
        invariant Exec(RECREATE[i..], tables, faults, issued) == Exec(RECREATE, old(tables), faults, old(issued))
      {
        assert RECREATE[i..] == [RECREATE[i]] + RECREATE[i + 1..];
        ExecCons(RECREATE[i], RECREATE[i + 1..], tables, faults, issued);
        ok := Execute(RECREATE[i]);
        if !ok { return; }
        i := i + 1;
      }
      assert RECREATE[i..] == [];
      ExecNothing(tables, faults, issued);
    }

    /** The spec loop of `rebuild`; the number of companions it counts. */
    method InsertSpecs(files: seq<SpecFile>) returns (r: Option<nat>)
      modifies this
      ensures Ran(SpecInserts(files), old(tables), old(issued), r.Some?)
      ensures r.Some? ==> r.value == ListedCompanions(files)
    {
      hide Exec, Apply, CompanionInserts, CompanionPaths;
      var i, companions := 0, 0;
      assert files[0..] == files;
      while i < |files|
        invariant 0 <= i <= |files|
        invariant companions + ListedCompanions(files[i..]) == ListedCompanions(files)
        invariant Exec(SpecInserts(files[i..]), tables, faults, issued)
               == Exec(SpecInserts(files), old(tables), faults, old(issued))
      {
        var f := files[i];
        var s, paths := InsertSpec(f.spec, f.path), CompanionPaths(f.content);
        ghost var later := SpecInserts(files[i + 1..]);
        assert files[i..][1..] == files[i + 1..];
        assert SpecInserts(files[i..]) == [s] + (CompanionInserts(f.spec, paths) + later);
        ExecCons(s, CompanionInserts(f.spec, paths) + later, tables, faults, issued);
        var ok := Execute(s);
        if !ok { return None; }
        ExecConcat(CompanionInserts(f.spec, paths), later, tables, faults, issued);
        ok := InsertCompanions(f.spec, paths);
        if !ok { return None; }
        companions := companions + |paths|;
        i := i + 1;
      }
      assert files[i..] == [];
      ExecNothing(tables, faults, issued);
      r := Some(companions);
    }

    method InsertMolecules(files: seq<SpecFile>, molecules: seq<ActiveMolecule>) returns (r: Option<nat>)
      modifies this
      ensures Ran(MoleculeInserts(files, molecules), old(tables), old(issued), r.Some?)
      ensures r.Some? ==> r.value == |Kept(files, molecules)|
    {
      hide Exec, Apply, HasSpec;
      var i, count := 0, 0;
      assert molecules[0..] == molecules;
      while i < |molecules|
        invariant 0 <= i <= |molecules|
        invariant count + |Kept(files, molecules[i..])| == |Kept(files, molecules)|
        invariant Exec(MoleculeInserts(files, molecules[i..]), tables, faults, issued)
               == Exec(MoleculeInserts(files, molecules), old(tables), faults, old(issued))
      {
        var m := molecules[i];
        ghost var later := MoleculeInserts(files, molecules[i + 1..]);
        assert molecules[i..][1..] == molecules[i + 1..];
        i := i + 1;
        if !HasSpec(files, m.spec) {
          assert [] + later == later;
          continue;
        }
        var s := InsertMolecule(m.id, m.spec, m.base);
        ExecCons(s, later, tables, faults, issued);
        var ok := Execute(s);
        if !ok { return None; }
        count := count + 1;
      }
      assert molecules[i..] == [];
      ExecNothing(tables, faults, issued);
      r := Some(count);
    }
  }

  /** `count.max(0) as u32` of the stored 64-bit counter. */
  function CountAsU32(count: int): (r: int)
    ensures 0 <= r < TWO32 && (count <= 0 ==> r == 0)
    ensures 0 <= count < TWO32 ==> r == count
  {
    AsU32(if count < 0 then 0 else count)
  }

  function InsertSorted(s: seq<string>, x: string): seq<string> {
    if s == [] || LexLess(x, s[0]) then [x] + s else [s[0]] + InsertSorted(s[1..], x)
  }

  lemma {:induction false} InsertionPoint(s: seq<string>, x: string)
    requires StrictlySorted(s) && x !in s
    ensures StrictlySorted(InsertSorted(s, x)) && Elements(InsertSorted(s, x)) == Elements(s) + {x}
  {
    var r := InsertSorted(s, x);
    if s == [] {
      assert r == [x];
    } else if LexLess(x, s[0]) {
      forall i | 0 <= i < |s| ensures LexLess(x, s[i]) {
        if i > 0 { LexTransitive(x, s[0], s[i]); }
      }
      assert r == [x] + s;
    } else {
      var rest := s[1..];
      InsertionPoint(rest, x);
      LexTotal(s[0], x);
      assert s[0] in s;
      var tail := InsertSorted(rest, x);
      assert r == [s[0]] + tail;
      forall i | 0 <= i < |tail| ensures LexLess(s[0], tail[i]) {
        assert tail[i] in Elements(tail);
        if tail[i] != x {
          var k :| 0 <= k < |rest| && rest[k] == tail[i];
          assert s[k + 1] == tail[i];
        }
      }
      assert s == [s[0]] + rest;
    }
  }

  // ----------------------------------------------------------- reading back

  lemma ReplaceRun(spec: string, path: string, paths: seq<string>, t: Tables, faults: Faults, n: nat)
    ensures var run := Exec(ReplaceProgram(spec, path, paths), t, faults, n);
            run.done ==>
              && run.tables.companions == (set c | c in t.companions && c.0 != spec) + PairsOf(spec, paths)
              && run.tables.molecules == t.molecules && run.tables.meta == t.meta
              && run.tables.specs
                 == t.specs[spec := SpecRow(path, if spec in t.specs then t.specs[spec].notes else None)]
  {
    hide Exec;
    var first, second, inserts := UpsertSpec(spec, path), DeleteCompanions(spec), CompanionInserts(spec, paths);
    assert ReplaceProgram(spec, path, paths) == [first] + ([second] + inserts);
    ExecCons(first, [second] + inserts, t, faults, n);
    var t1 := Apply(first, t).value;
    ExecCons(second, inserts, t1, faults, n + 1);
    CompanionInsertsRun(spec, paths, Apply(second, t1).value, faults, n + 2);
  }

  /** The distinct paths in ascending order. */
  function SortedDistinct(paths: seq<string>): seq<string> {
    if paths == [] then []
    else
      var rest := SortedDistinct(paths[1..]);
      if paths[0] in rest then rest else InsertSorted(rest, paths[0])
  }

  lemma {:induction false} SortedDistinctListing(paths: seq<string>)
    ensures StrictlySorted(SortedDistinct(paths)) && Elements(SortedDistinct(paths)) == Elements(paths)
  {
    hide StrictlySorted;
    if paths == [] {
      assert StrictlySorted([]) by { NothingToSort(); }
    } else {
      var first, rest := paths[0], paths[1..];
      assert paths == [first] + rest;
      SortedDistinctListing(rest);
      assert first in SortedDistinct(rest) <==> first in Elements(SortedDistinct(rest));
      if first !in SortedDistinct(rest) { InsertionPoint(SortedDistinct(rest), first); }
    }
  }

  lemma NothingToSort()
    ensures StrictlySorted([])
  {
  }

  /** `replace_companions` then `companions` gives the distinct paths in sorted order,
      and every other label's companions stay as they were. */
  lemma ReplacedCompanionsReadBack(spec: string, path: string, paths: seq<string>, t: Tables, faults: Faults, n: nat,
                                   out: seq<string>)
    requires Exec(ReplaceProgram(spec, path, paths), t, faults, n).done
    requires Listing(out, CompanionsOf(Exec(ReplaceProgram(spec, path, paths), t, faults, n).tables, spec))
    ensures out == SortedDistinct(paths)
    ensures forall other :: other != spec ==>
      CompanionsOf(Exec(ReplaceProgram(spec, path, paths), t, faults, n).tables, other) == CompanionsOf(t, other)
  {
    hide Exec, StrictlySorted;
    ReplaceRun(spec, path, paths, t, faults, n);
    var t' := Exec(ReplaceProgram(spec, path, paths), t, faults, n).tables;
    forall p | p in paths ensures p in CompanionsOf(t', spec) {
      assert (spec, p) in t'.companions;
    }
    SortedDistinctListing(paths);
    SortedListingUnique(out, SortedDistinct(paths));
    forall other, p | other != spec && p in CompanionsOf(t, other) ensures p in CompanionsOf(t', other) {
      assert (other, p) in t'.companions;
    }
    forall other, p | other != spec && p in CompanionsOf(t', other) ensures p in CompanionsOf(t, other) {
      assert (other, p) in t.companions;
    }
  }

  /** `set_current_spec` reads back until the next one or a rebuild: no replacement and no
      increment, however it ends, touches it, and a rebuild that succeeds drops it. */
  lemma {:induction false} CurrentSpecReadsBack(spec: string, later: seq<Operation>, t: Tables, faults: Faults, n: nat)
    requires forall i :: 0 <= i < |later| ==> later[i].ReplaceCompanions? || later[i].IncrementIteration?
    ensures var run := Exec(Program(SetCurrentSpec(spec)), t, faults, n);
            run.done ==> CurrentSpecOf(Life(later, run.tables, faults, run.issued).tables) == Some(spec)
    ensures forall files, molecules ::
      var run := Exec(RebuildProgram(files, molecules), t, faults, n);
      run.done ==> CurrentSpecOf(run.tables) == None
  {
    hide Exec, Life, RebuildProgram, Rebuilt;
    ExecOne(SetMeta("current_spec", spec), t, faults, n);
    var run := Exec(Program(SetCurrentSpec(spec)), t, faults, n);
    LifeKeepsMeta(later, run.tables, faults, run.issued);
    forall files, molecules
      ensures var rebuilt := Exec(RebuildProgram(files, molecules), t, faults, n);
              rebuilt.done ==> CurrentSpecOf(rebuilt.tables) == None
    {
      RebuildForgetsThePast(files, molecules, t, faults, n);
      RebuiltMeta(files, molecules);
    }
  }

  lemma RebuiltMeta(files: seq<SpecFile>, molecules: seq<ActiveMolecule>)
    ensures CurrentSpecOf(Rebuilt(files, molecules)) == None
  {
  }

  lemma {:induction false} LifeKeepsMeta(ops: seq<Operation>, t: Tables, faults: Faults, n: nat)
    requires forall i :: 0 <= i < |ops| ==> ops[i].ReplaceCompanions? || ops[i].IncrementIteration?
    ensures Life(ops, t, faults, n).tables.meta == t.meta
    decreases |ops|
  {
    hide Exec, Program;
    if ops != [] {
      OperationKeepsMeta(ops[0], t, faults, n);
      var run := Exec(Program(ops[0]), t, faults, n);
      LifeKeepsMeta(ops[1..], run.tables, faults, run.issued);
    }
  }

  lemma OperationKeepsMeta(op: Operation, t: Tables, faults: Faults, n: nat)
    requires op.ReplaceCompanions? || op.IncrementIteration?
    ensures Exec(Program(op), t, faults, n).tables.meta == t.meta
  {
    hide Exec;
    match op {
      case IncrementIteration(id) => ExecOne(BumpIteration(id), t, faults, n);
      case ReplaceCompanions(spec, path, paths) =>
        var first, second, inserts := UpsertSpec(spec, path), DeleteCompanions(spec), CompanionInserts(spec, paths);
        assert ReplaceProgram(spec, path, paths) == [first] + ([second] + inserts);
        ExecCons(first, [second] + inserts, t, faults, n);
        var t1 := Apply(first, t).value;
        ExecCons(second, inserts, t1, faults, n + 1);
        InsertsKeepMeta(spec, paths, Apply(second, t1).value, faults, n + 2);
    }
  }

  lemma {:induction false} InsertsKeepMeta(spec: string, paths: seq<string>, t: Tables, faults: Faults, n: nat)
    ensures Exec(CompanionInserts(spec, paths), t, faults, n).tables.meta == t.meta
    decreases |paths|
  {
    if paths != [] && !faults(n) {
      InsertsKeepMeta(spec, paths[1..], t.(companions := t.companions + {(spec, paths[0])}), faults, n + 1);
    }
  }

  function Bumps(id: string, k: nat): seq<Statement> {
    if k == 0 then [] else [BumpIteration(id)] + Bumps(id, k - 1)
  }

  /** k successful increments raise the stored counter by exactly k and change nothing
      else; the value read back is that counter modulo 2^32. */
  lemma {:induction false} IncrementsReadBack(id: string, k: nat, t: Tables, faults: Faults, n: nat)
    requires id in t.molecules && t.molecules[id].iterationCount >= 0
    ensures var run := Exec(Bumps(id, k), t, faults, n); var row := t.molecules[id];
            run.done ==>
              && run.tables == t.(molecules := t.molecules[id := row.(iterationCount := row.iterationCount + k)])
              && CountAsU32(run.tables.molecules[id].iterationCount) == (row.iterationCount + k) % TWO32
    decreases k
  {
    hide Exec;
    var row := t.molecules[id];
    if k == 0 {
      ExecNothing(t, faults, n);
      assert t.molecules[id := row] == t.molecules;
    } else {
      var bumped := row.(iterationCount := row.iterationCount + 1);
      var t' := t.(molecules := t.molecules[id := bumped]);
      ExecCons(BumpIteration(id), Bumps(id, k - 1), t, faults, n);
      IncrementsReadBack(id, k - 1, t', faults, n + 1);
      assert t'.molecules[id := bumped.(iterationCount := bumped.iterationCount + (k - 1))]
          == t.molecules[id := row.(iterationCount := row.iterationCount + k)];
    }
  }

  /** After a rebuild that succeeds, every kept molecule starts at 0: k increments of it read
      back k modulo 2^32. */
  lemma IncrementsAfterRebuild(files: seq<SpecFile>, molecules: seq<ActiveMolecule>, m: ActiveMolecule, k: nat,
                               t: Tables, faults: Faults, n: nat)
    requires m in Kept(files, molecules)
    ensures var rebuilt := Exec(RebuildProgram(files, molecules), t, faults, n);
            rebuilt.done ==>
              var run := Exec(Bumps(m.id, k), rebuilt.tables, faults, rebuilt.issued);
              run.done ==>
                && m.id in run.tables.molecules
                && CountAsU32(run.tables.molecules[m.id].iterationCount) == k % TWO32
  {
    hide Exec, RebuildProgram, Bumps, DistinctSpecs;
    RebuildForgetsThePast(files, molecules, t, faults, n);
    var rebuilt := Exec(RebuildProgram(files, molecules), t, faults, n);
    if rebuilt.done {
      RowOfMolecule(Kept(files, molecules), m);
      IncrementsReadBack(m.id, k, rebuilt.tables, faults, rebuilt.issued);
    }
  }

  lemma {:induction false} RowOfMolecule(molecules: seq<ActiveMolecule>, m: ActiveMolecule)
    requires DistinctIds(molecules) && m in molecules
    ensures m.id in MoleculeRows(molecules) && MoleculeRows(molecules)[m.id] == MoleculeRow(m.spec, m.base, 0)
  {
    var first, rest := molecules[0], molecules[1..];
    if m != first {
      assert forall i :: 0 <= i < |rest| ==> rest[i] == molecules[i + 1];
      var i :| 0 <= i < |molecules| && molecules[i] == m;
      assert rest[i - 1] == m && molecules[0].id != molecules[i].id;
      RowOfMolecule(rest, m);
    }
  }

  lemma {:induction false} RowsOfFile(files: seq<SpecFile>, f: SpecFile)
    requires DistinctSpecs(files) && f in files
    ensures forall p :: (f.spec, p) in CompanionRows(files) <==> p in CompanionPaths(f.content)
  {
    hide CompanionPaths;
    var first, rest := files[0], files[1..];
    DistinctHead(files);
    CompanionsCounted(files);
    CompanionsCounted(rest);
    if f == first {
      assert !HasSpec(rest, f.spec);
    } else {
      var i :| 0 <= i < |files| && files[i] == f;
      assert rest[i - 1] == f && files[0].spec != files[i].spec;
      RowsOfFile(rest, f);
    }
  }

  /** After a rebuild that succeeds, a label's companions are exactly the distinct paths its
      file lists, in ascending order. */
  lemma RebuiltCompanionsReadBack(files: seq<SpecFile>, molecules: seq<ActiveMolecule>, f: SpecFile, t: Tables,
                                  faults: Faults, n: nat, out: seq<string>)
    requires f in files && Exec(RebuildProgram(files, molecules), t, faults, n).done
    requires Listing(out, CompanionsOf(Exec(RebuildProgram(files, molecules), t, faults, n).tables, f.spec))
    ensures out == SortedDistinct(CompanionPaths(f.content))
  {
    hide Exec, RebuildProgram, CompanionPaths, StrictlySorted, DistinctIds;
    RebuildForgetsThePast(files, molecules, t, faults, n);
    RowsOfFile(files, f);
    var paths, rows := CompanionPaths(f.content), CompanionRows(files);
    var rebuilt := Rebuilt(files, molecules);
    forall p ensures p in CompanionsOf(rebuilt, f.spec) <==> p in paths {
      if p in paths { assert (f.spec, p) in rebuilt.companions; }
    }
    SortedDistinctListing(paths);
    SortedListingUnique(out, SortedDistinct(paths));
  }

  /** A path listed twice: the report counts two companions, the table holds one. */
  lemma CountedTwiceStoredOnce(spec: string, path: string, companion: string)
    requires Listable(companion)
    ensures var f := SpecFile(spec, path, Unlines([HEADING] + Bullets([companion, companion])));
            && RebuildReport([f], []).companions == 2
            && |Rebuilt([f], []).companions| == 1
  {
    hide Listable, Unlines, Bullets, Normalize, CompanionPaths;
    var none: seq<string> := [];
    var twice := [companion, companion];
    var f := SpecFile(spec, path, Unlines([HEADING] + Bullets(twice)));
    CompanionsRoundTrip([], twice, []);
    assert none + [HEADING] + (Bullets(twice) + []) == [HEADING] + Bullets(twice);
    TwoNormalized(companion);
    var p := Normalize(companion);
    assert CompanionPaths(f.content) == [p, p];
    var noFiles: seq<SpecFile> := [];
    assert [f][1..] == noFiles && ListedCompanions(noFiles) == 0;
    assert CompanionRows([f]) == {(spec, p)};
  }

  lemma TwoNormalized(companion: string)
    ensures Normalized([companion, companion]) == [Normalize(companion), Normalize(companion)]
  {
    hide Normalize;
    var none: seq<string> := [];
    assert [companion, companion][1..] == [companion] && [companion][1..] == none;
    assert Normalized(none) == [];
  }

  /** What a rebuild stores: every file's spec, without notes, and every molecule whose spec
      has a file, at iteration 0; nothing else. */
  lemma RebuiltRows(files: seq<SpecFile>, molecules: seq<ActiveMolecule>, f: SpecFile, m: ActiveMolecule)
    requires DistinctSpecs(files) && DistinctIds(Kept(files, molecules))
    ensures var t := Rebuilt(files, molecules);
      && (f in files ==> f.spec in t.specs && t.specs[f.spec] == SpecRow(f.path, None))
      && (m in molecules && HasSpec(files, m.spec) ==>
            m.id in t.molecules && t.molecules[m.id] == MoleculeRow(m.spec, m.base, 0))
      && (forall spec :: spec in t.specs ==> HasSpec(files, spec))
      && (forall id :: id in t.molecules ==> exists k :: k in molecules && k.id == id && HasSpec(files, k.spec))
  {
    SpecRowsKeys(files);
    if f in files { RowOfSpec(files, f); }
    KeptMembers(files, molecules);
    if m in molecules && HasSpec(files, m.spec) { RowOfMolecule(Kept(files, molecules), m); }
    MoleculeRowsKeys(Kept(files, molecules));
    forall id | id in Rebuilt(files, molecules).molecules
      ensures exists k :: k in molecules && k.id == id && HasSpec(files, k.spec)
    {
      var kept := Kept(files, molecules);
      var i :| 0 <= i < |kept| && kept[i].id == id;
      assert kept[i] in kept;
    }
  }

  lemma {:induction false} KeptMembers(files: seq<SpecFile>, molecules: seq<ActiveMolecule>)
    ensures forall m :: m in Kept(files, molecules) <==> m in molecules && HasSpec(files, m.spec)
  {
    hide HasSpec;
    if molecules != [] {
      KeptMembers(files, molecules[1..]);
      assert molecules == [molecules[0]] + molecules[1..];
    }
  }

  lemma {:induction false} RowOfSpec(files: seq<SpecFile>, f: SpecFile)
    requires DistinctSpecs(files) && f in files
    ensures f.spec in SpecRows(files) && SpecRows(files)[f.spec] == SpecRow(f.path, None)
  {
    if f != files[0] {
      var i :| 0 <= i < |files| && files[i] == f;
      DistinctHead(files);
      assert files[1..][i - 1] == f && files[0].spec != files[i].spec;
      RowOfSpec(files[1..], f);
    }
  }
}
