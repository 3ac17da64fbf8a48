/** The execution baseline: recording what every fixture does, and gating later runs
    against the record (`evaluate`, `expected_exit_of`, `known_timeout`, the loops of `main`). */
module ExecutionGate {
  import opened Wrappers

  /** The stable statuses of a pipeline. */
  datatype Status = Exit(code: int) | Timeout | StdoutMismatch | CompileFail

  datatype Mode = JitOnly | Both

  /** What a fixture was observed to do; the expected exit code is that of a sidecar. */
  datatype Case =
    | SkipCase(reason: string)
    | CompileCase(compile: Status)
    | ExecCase(expected: Option<int>, jit: Option<Status>, aot: Option<Status>)
    | ErrorCase

  /** What the baseline holds of a fixture. */
  datatype Entry =
    | SkipEntry(reason: string)
    | CompileEntry(compile: Status)
    | ExecEntry(expected: Option<int>, jit: Option<Status>, aot: Option<Status>)

  datatype Verdict = Pass | Warn | Fail | Skip

  predicate SameKind(c: Case, e: Entry) {
    (c.SkipCase? && e.SkipEntry?) || (c.CompileCase? && e.CompileEntry?) || (c.ExecCase? && e.ExecEntry?)
  }

  /** `exit_status_to_code` */
  function ExitCode(status: Option<Status>): Option<int> {
    if status.Some? && status.value.Exit? then Some(status.value.code) else None
  }

  function ExpectedExit(c: Case, e: Entry): int
    requires c.ExecCase? && e.ExecEntry?
  {
    if c.expected.Some? then c.expected.value
    else if e.expected.Some? then e.expected.value
    else 0
  }

  function CodeOr0(code: Option<int>): int {
    if code.Some? then code.value else 0
  }

  // ----- verdicts -----

  /** One pipeline of a baselined fixture reproduces its record. */
  predicate Reproduces(recorded: Option<Status>, observed: Option<Status>, expected: int) {
    recorded == Some(Timeout) || (observed == Some(Exit(expected)) && observed == recorded)
  }

  function EvaluateSkip(entry: Option<Entry>): Verdict {
    if entry.None? then Warn else if !entry.value.SkipEntry? then Fail else Skip
  }

  function EvaluateUpdate(c: Case, mode: Mode): Verdict {
    if c.ErrorCase? then Fail
    else if c.CompileCase? && c.compile != Exit(0) then Fail
    else if c.ExecCase? && mode == Both && c.aot == Some(CompileFail) then Fail
    else Pass
  }

  /** A fixture the baseline does not know must already meet its expectation. */
  function EvaluateNew(c: Case, mode: Mode): Verdict {
    match c
    case CompileCase(compile) => if compile == Exit(0) then Warn else Fail
    case ExecCase(expected, jit, aot) =>
      var wanted := Some(Exit(CodeOr0(expected)));
      if jit != wanted || (mode == Both && aot != wanted) then Fail else Warn
    case _ => Fail
  }

  function EvaluateKnown(c: Case, e: Entry, mode: Mode): Verdict {
    if !SameKind(c, e) then Fail
    else if c.CompileCase? then
      if c.compile == Timeout || c.compile != e.compile then Fail else Pass
    else if c.ExecCase? then
      var expected := ExpectedExit(c, e);
      if !Reproduces(e.jit, c.jit, expected) then Fail
      else if mode == Both && !Reproduces(e.aot, c.aot, expected) then Fail
      else Pass
    else Pass
  }

  /** `evaluate` without its notes. */
  function Evaluate(c: Case, entry: Option<Entry>, update: bool, mode: Mode): Verdict {
    if c.SkipCase? then EvaluateSkip(entry)
    else if update then EvaluateUpdate(c, mode)
    else if entry.None? then EvaluateNew(c, mode)
    else EvaluateKnown(c, entry.value, mode)
  }

  // ----- recording -----

  /** The record of an observation. */
  function Record(c: Case, mode: Mode): Option<Entry> {
    match c
    case SkipCase(reason) => Some(SkipEntry(reason))
    case CompileCase(compile) => Some(CompileEntry(compile))
    case ExecCase(expected, jit, aot) =>
      var code := if expected.Some? then expected.value else CodeOr0(ExitCode(jit));
      Some(ExecEntry(Some(code), jit, if mode == Both then aot else None))
    case ErrorCase => None
  }

  type Results = map<string, Case>
  type Baseline = map<string, Entry>

  function Lookup(baseline: Baseline, name: string): Option<Entry> {
    if name in baseline then Some(baseline[name]) else None
  }

  predicate Fails(results: Results, baseline: Baseline, update: bool, mode: Mode, name: string)
    requires name in results
  {
    Evaluate(results[name], Lookup(baseline, name), update, mode) == Fail
  }

  /** The fixtures with a failing verdict. */
  function Failures(results: Results, baseline: Baseline, update: bool, mode: Mode): set<string> {
    FailuresAmong(results, baseline, update, mode, results.Keys)
  }

  function FailuresAmong(results: Results, baseline: Baseline, update: bool, mode: Mode,
                         names: set<string>): set<string>
    requires names <= results.Keys
  {
    set name | name in names && Fails(results, baseline, update, mode, name)
  }

  lemma OneMoreVerdict(results: Results, baseline: Baseline, update: bool, mode: Mode, names: set<string>, name: string)
    requires names <= results.Keys && name in results
    ensures FailuresAmong(results, baseline, update, mode, names + {name})
         == FailuresAmong(results, baseline, update, mode, names)
            + if Fails(results, baseline, update, mode, name) then {name} else {}
  {
  }

  /** The records of the named observations that have one. */
  function RecordsAmong(results: Results, mode: Mode, names: set<string>): Baseline
    requires names <= results.Keys
  {
    map name | name in names && Record(results[name], mode).Some? :: Record(results[name], mode).value
  }

  lemma OneMoreRecord(results: Results, mode: Mode, names: set<string>, name: string)
    requires names <= results.Keys && name in results && name !in names
    ensures var record, before := Record(results[name], mode), RecordsAmong(results, mode, names);
            RecordsAmong(results, mode, names + {name}) == if record.Some? then before[name := record.value] else before
  {
  }

  /** `--update-baseline`: the new baseline, `None` where it refuses to write one. */
  function Update(results: Results, baseline: Baseline, mode: Mode): Option<Baseline> {
    if Failures(results, baseline, true, mode) != {} then None else Some(RecordsAmong(results, mode, results.Keys))
  }

  method Judge(results: Results, baseline: Baseline, update: bool, mode: Mode, name: string, failed: set<string>,
               ghost seen: set<string>) returns (r: set<string>)
    requires seen <= results.Keys && name in results
    requires failed == FailuresAmong(results, baseline, update, mode, seen)
    ensures r == FailuresAmong(results, baseline, update, mode, seen + {name})
  {
    OneMoreVerdict(results, baseline, update, mode, seen, name);
    r := if Fails(results, baseline, update, mode, name) then failed + {name} else failed;
  }

  method KeepRecord(results: Results, mode: Mode, name: string, records: Baseline, ghost seen: set<string>)
    returns (r: Baseline)
    requires seen <= results.Keys && name in results && name !in seen && records == RecordsAmong(results, mode, seen)
    ensures r == RecordsAmong(results, mode, seen + {name})
  {
    OneMoreRecord(results, mode, seen, name);
    var record := Record(results[name], mode);
    r := if record.Some? then records[name := record.value] else records;
  }

  method UpdateBaseline(results: Results, baseline: Baseline, mode: Mode) returns (r: Option<Baseline>)
    ensures r == Update(results, baseline, mode)
  {
    var left := results.Keys;
    var records: Baseline := map[];
    var failed: set<string> := {};
    ghost var seen: set<string> := {};
    while left != {}
      invariant seen !! left && seen + left == results.Keys
      invariant failed == FailuresAmong(results, baseline, true, mode, seen)
      invariant records == RecordsAmong(results, mode, seen)
      decreases |left|
    {
      var name :| name in left;
      failed := Judge(results, baseline, true, mode, name, failed, seen);
      records := KeepRecord(results, mode, name, records, seen);
      left := left - {name};
      seen := seen + {name};
    }
    assert seen == results.Keys;
    r := if failed != {} then None else Some(records);
  }

  // ----- gating -----

  /** `known_timeout` */
  predicate KnownTimeout(e: Entry) {
    e.ExecEntry? && (e.jit == Some(Timeout) || e.aot == Some(Timeout))
  }

  /** What a gating run works on: a recorded skip stays a skip, a known hang is not run again
      but carried forward from the record, everything else is observed. */
  function Gated(observed: Case, entry: Option<Entry>, only: bool): Case {
    if entry.None? then observed
    else if entry.value.SkipEntry? then SkipCase(entry.value.reason)
    else if !only && KnownTimeout(entry.value) && !observed.SkipCase? then
      ExecCase(Some(CodeOr0(entry.value.expected)), entry.value.jit, entry.value.aot)
    else observed
  }

  function GatedResults(observed: Results, baseline: Baseline, only: bool): Results {
    map name | name in observed :: Gated(observed[name], Lookup(baseline, name), only)
  }

  /** The fixtures a gating run reports as failed. */
  function Gate(observed: Results, baseline: Baseline, mode: Mode, only: bool): set<string> {
    Failures(GatedResults(observed, baseline, only), baseline, false, mode)
  }

  /** The gating run's verdict on one fixture is a failure. */
  predicate FailsGate(observed: Case, entry: Option<Entry>, mode: Mode, only: bool) {
    Evaluate(Gated(observed, entry, only), entry, false, mode) == Fail
  }

  lemma GateByFixture(observed: Results, baseline: Baseline, mode: Mode, only: bool)
    ensures Gate(observed, baseline, mode, only)
         == set name | name in observed && FailsGate(observed[name], Lookup(baseline, name), mode, only)
  {
    var gated := GatedResults(observed, baseline, only);
    forall name ensures name in Gate(observed, baseline, mode, only)
                   <==> name in observed && FailsGate(observed[name], Lookup(baseline, name), mode, only)
    {
      if name in observed {
        assert gated[name] == Gated(observed[name], Lookup(baseline, name), only);
      }
    }
  }

  method RunGate(observed: Results, baseline: Baseline, mode: Mode, only: bool) returns (failed: set<string>)
    ensures failed == Gate(observed, baseline, mode, only)
  {
    var results := GatedResults(observed, baseline, only);
    var left := results.Keys;
    ghost var seen: set<string> := {};
    failed := {};
    while left != {}
      invariant seen !! left && seen + left == results.Keys
      invariant failed == FailuresAmong(results, baseline, false, mode, seen)
      decreases |left|
    {
      var name :| name in left;
      failed := Judge(results, baseline, false, mode, name, failed, seen);
      left := left - {name};
      seen := seen + {name};
    }
    assert seen == results.Keys;
  }

  // ----- what a gating run reports -----

  /** The exit code an executable fixture has to end with: that of its sidecar, else the recorded one. */
  function Wanted(sidecar: Option<int>, recorded: Option<int>): int {
    match (sidecar, recorded)
    case (Some(code), _) => code
    case (None, Some(code)) => code
    case (None, None) => 0
  }

  /** A pipeline that is not recorded as hanging changed its status or does not exit as it should. */
  predicate Regressed(recorded: Option<Status>, observed: Option<Status>, wanted: int) {
    recorded != Some(Timeout) && (observed != recorded || observed != Some(Exit(wanted)))
  }

  /** An executable fixture that is run and has a record is reported exactly when a pipeline of the
      mode regressed. */
  lemma RegressionIsReported(observed: Results, baseline: Baseline, mode: Mode, only: bool, name: string)
    requires name in observed && observed[name].ExecCase? && name in baseline && baseline[name].ExecEntry?
    requires only || (baseline[name].jit != Some(Timeout) && baseline[name].aot != Some(Timeout))
    ensures var c, e := observed[name], baseline[name];
            var wanted := Wanted(c.expected, e.expected);
            name in Gate(observed, baseline, mode, only)
            <==> Regressed(e.jit, c.jit, wanted) || (mode == Both && Regressed(e.aot, c.aot, wanted))
  {
    GateByFixture(observed, baseline, mode, only);
  }

  /** A known hang is not run again: only its record counts. */
  lemma HangIsCarried(observed: Results, baseline: Baseline, mode: Mode, name: string)
    requires name in observed && !observed[name].SkipCase? && name in baseline && baseline[name].ExecEntry?
    requires baseline[name].jit == Some(Timeout) || baseline[name].aot == Some(Timeout)
    ensures var e := baseline[name];
            var kept := {Some(Timeout), Some(Exit(Wanted(None, e.expected)))};
            name in Gate(observed, baseline, mode, false) <==> e.jit !in kept || (mode == Both && e.aot !in kept)
  {
    GateByFixture(observed, baseline, mode, false);
  }

  /** A compile-only fixture is reported exactly when it timed out or ended otherwise than recorded. */
  lemma CompileRegression(observed: Results, baseline: Baseline, mode: Mode, only: bool, name: string)
    requires name in observed && observed[name].CompileCase? && name in baseline && baseline[name].CompileEntry?
    ensures name in Gate(observed, baseline, mode, only)
       <==> observed[name].compile == Timeout || observed[name].compile != baseline[name].compile
  {
    GateByFixture(observed, baseline, mode, only);
  }

  /** A fixture that changed its kind is reported, unless it is recorded as skipped or known to hang. */
  lemma ChangedKind(observed: Results, baseline: Baseline, mode: Mode, only: bool, name: string)
    requires name in observed && name in baseline && !baseline[name].SkipEntry?
    requires !(observed[name].CompileCase? && baseline[name].CompileEntry?)
    requires !(observed[name].ExecCase? && baseline[name].ExecEntry?)
    requires only || observed[name].SkipCase? || baseline[name].CompileEntry?
             || (baseline[name].jit != Some(Timeout) && baseline[name].aot != Some(Timeout))
    ensures name in Gate(observed, baseline, mode, only)
  {
    GateByFixture(observed, baseline, mode, only);
  }

  /** A fixture recorded as skipped is never reported. */
  lemma SkipIsKept(observed: Results, baseline: Baseline, mode: Mode, only: bool, name: string)
    requires name in baseline && baseline[name].SkipEntry?
    ensures name !in Gate(observed, baseline, mode, only)
  {
    GateByFixture(observed, baseline, mode, only);
  }

  /** A fixture without a record passes a gating run exactly when it is skipped, or compiles, or
      exits as its sidecar says, with zero where there is none. */
  predicate PassesNew(c: Case, mode: Mode) {
    match c
    case SkipCase(_) => true
    case CompileCase(compile) => compile == Exit(0)
    case ExecCase(expected, jit, aot) =>
      var wanted := Some(Exit(Wanted(expected, None)));
      jit == wanted && (mode == Both ==> aot == wanted)
    case ErrorCase => false
  }

  lemma NewFixture(observed: Results, baseline: Baseline, mode: Mode, only: bool, name: string)
    requires name in observed && name !in baseline
    ensures name in Gate(observed, baseline, mode, only) <==> !PassesNew(observed[name], mode)
  {
    GateByFixture(observed, baseline, mode, only);
  }

  /** A run that used to exit with 0 and exits with 1 is reported. */
  lemma RegressionExample()
    ensures var observed: Results := map["f" := ExecCase(None, Some(Exit(1)), None)];
            var baseline: Baseline := map["f" := ExecEntry(Some(0), Some(Exit(0)), None)];
            Gate(observed, baseline, JitOnly, false) == {"f"}
  {
    var observed: Results := map["f" := ExecCase(None, Some(Exit(1)), None)];
    var baseline: Baseline := map["f" := ExecEntry(Some(0), Some(Exit(0)), None)];
    RegressionIsReported(observed, baseline, JitOnly, false, "f");
    GateByFixture(observed, baseline, JitOnly, false);
  }

  // ----- record, then gate -----

  /** The exit code that is recorded for an executable fixture. */
  function RecordedExit(c: Case): int
    requires c.ExecCase?
  {
    if c.expected.Some? then c.expected.value else CodeOr0(ExitCode(c.jit))
  }

  /** A pipeline hung or exited with the code. */
  predicate HungOrExited(status: Option<Status>, code: int) {
    status == Some(Timeout) || status == Some(Exit(code))
  }

  predicate IsSteady(c: Case, mode: Mode) {
    c.ExecCase? ==> HungOrExited(c.jit, RecordedExit(c)) && (mode == Both ==> HungOrExited(c.aot, RecordedExit(c)))
  }

  /** One fixture: recorded and gated again, it fails exactly when a pipeline neither hung nor
      exited with the recorded code. */
  lemma RecordedThenGated(c: Case, before: Option<Entry>, mode: Mode, only: bool)
    requires Evaluate(c, before, true, mode) != Fail
    ensures var entry := Record(c, mode);
            && entry.Some?
            && (FailsGate(c, entry, mode, only) <==> !IsSteady(c, mode))
  {
  }

  /** After a successful update, gating the same observations in the same mode reports exactly
      the executable fixtures that are not steady. */
  lemma RecordThenGate(results: Results, before: Baseline, mode: Mode, only: bool)
    requires Update(results, before, mode).Some?
    ensures Gate(results, Update(results, before, mode).value, mode, only)
         == set name | name in results && !IsSteady(results[name], mode)
  {
    var records := Update(results, before, mode).value;
    forall name | name in results
      ensures FailsGate(results[name], Lookup(records, name), mode, only) <==> !IsSteady(results[name], mode)
    {
      assert name !in Failures(results, before, true, mode);
      RecordedThenGated(results[name], Lookup(before, name), mode, only);
    }
    GateByFixture(results, records, mode, only);
  }

  /** The gate stays silent exactly when every pipeline of every executable fixture hung or
      exited with the recorded code. */
  lemma GateIsSilent(results: Results, before: Baseline, mode: Mode, only: bool)
    requires Update(results, before, mode).Some?
    ensures Gate(results, Update(results, before, mode).value, mode, only) == {}
       <==> forall name :: name in results ==> IsSteady(results[name], mode)
  {
    RecordThenGate(results, before, mode, only);
    var failed := Gate(results, Update(results, before, mode).value, mode, only);
    if failed == {} {
      forall name | name in results ensures IsSteady(results[name], mode) {
        assert name !in failed;
      }
    }
  }

  /** No sidecar, no hang, no output mismatch: both pipelines exited on their own. */
  predicate IsPlain(c: Case) {
    c.ExecCase? ==> c.expected.None? && ExitCode(c.jit).Some? && ExitCode(c.aot).Some?
  }

  /** Without sidecars and hangs the gate stays silent exactly when both pipelines agree. */
  lemma PlainGateIsAgreement(results: Results, before: Baseline, only: bool)
    requires Update(results, before, Both).Some? && forall name :: name in results ==> IsPlain(results[name])
    ensures Gate(results, Update(results, before, Both).value, Both, only) == {}
       <==> forall name :: name in results && results[name].ExecCase? ==> results[name].jit == results[name].aot
  {
    GateIsSilent(results, before, Both, only);
    forall name | name in results && results[name].ExecCase?
      ensures IsSteady(results[name], Both) <==> results[name].jit == results[name].aot
    {
      assert IsPlain(results[name]);
    }
  }

  // ----- when an update is written -----

  /** What an update accepts: no internal error, compile-only fixtures that compile, executable
      ones that link if both pipelines run, and skips of fixtures that were new or skipped. */
  predicate IsRecordable(c: Case, entry: Option<Entry>, mode: Mode) {
    match c
    case ErrorCase => false
    case CompileCase(compile) => compile == Exit(0)
    case ExecCase(_, _, aot) => mode == Both ==> aot != Some(CompileFail)
    case SkipCase(_) => entry.Some? ==> entry.value.SkipEntry?
  }

  lemma RecordableCase(c: Case, entry: Option<Entry>, mode: Mode)
    ensures Evaluate(c, entry, true, mode) != Fail <==> IsRecordable(c, entry, mode)
  {
  }

  /** An update is written exactly when every observation is recordable, and then it holds
      exactly the observed fixtures. */
  lemma UpdateIsWritten(results: Results, before: Baseline, mode: Mode)
    ensures Update(results, before, mode).Some?
       <==> forall name :: name in results ==> IsRecordable(results[name], Lookup(before, name), mode)
    ensures Update(results, before, mode).Some? ==> Update(results, before, mode).value.Keys == results.Keys
  {
    var failed := Failures(results, before, true, mode);
    forall name | name in results
      ensures name in failed <==> !IsRecordable(results[name], Lookup(before, name), mode)
    {
      RecordableCase(results[name], Lookup(before, name), mode);
    }
    if name :| name in failed {
      assert !IsRecordable(results[name], Lookup(before, name), mode);
    }
  }

  /** What an update writes down of each fixture. */
  lemma UpdateRecords(results: Results, before: Baseline, mode: Mode, name: string)
    requires Update(results, before, mode).Some? && name in results
    ensures name in Update(results, before, mode).value
    ensures var c, e := results[name], Update(results, before, mode).value[name];
            match c
            case SkipCase(reason) => e == SkipEntry(reason)
            case CompileCase(_) => e == CompileEntry(Exit(0))
            case ExecCase(sidecar, jit, aot) =>
              && e.ExecEntry? && e.jit == jit && e.aot == (if mode == Both then aot else None)
              && (sidecar.Some? ==> e.expected == sidecar)
              && (sidecar.None? && jit.Some? && jit.value.Exit? ==> e.expected == Some(jit.value.code))
              && (sidecar.None? && !(jit.Some? && jit.value.Exit?) ==> e.expected == Some(0))
            case ErrorCase => false
  {
    UpdateIsWritten(results, before, mode);
    assert IsRecordable(results[name], Lookup(before, name), mode);
  }

  /** In jit mode an executable fixture whose run fails is recorded with its exit code. */
  lemma FailingRunIsRecorded()
    ensures Update(map["f" := ExecCase(None, Some(Exit(1)), None)], map[], JitOnly)
         == Some(map["f" := ExecEntry(Some(1), Some(Exit(1)), None)])
  {
    var results: Results := map["f" := ExecCase(None, Some(Exit(1)), None)];
    UpdateIsWritten(results, map[], JitOnly);
    assert RecordsAmong(results, JitOnly, results.Keys) == map["f" := ExecEntry(Some(1), Some(Exit(1)), None)];
  }

  /** A skip sidecar added to a recorded fixture: the gate reports the fixture and asks for an
      update, and every update is refused because of it. */
  lemma AddedSkipIsStuck(results: Results, before: Baseline, mode: Mode, only: bool, name: string)
    requires name in results && results[name].SkipCase? && name in before && !before[name].SkipEntry?
    ensures name in Gate(results, before, mode, only)
    ensures Update(results, before, mode).None?
  {
    GateByFixture(results, before, mode, only);
    UpdateIsWritten(results, before, mode);
    assert !IsRecordable(results[name], Lookup(before, name), mode);
  }

  lemma AddedSkipExample()
    ensures var results: Results, before: Baseline := map["f" := SkipCase("slow")], map["f" := CompileEntry(Exit(0))];
            Gate(results, before, Both, false) == {"f"} && Update(results, before, Both).None?
  {
    var results: Results, before: Baseline := map["f" := SkipCase("slow")], map["f" := CompileEntry(Exit(0))];
    AddedSkipIsStuck(results, before, Both, false, "f");
    GateByFixture(results, before, Both, false);
  }

  // ----- other sets of fixtures -----

  /** Every recorded fixture is observed and does what its record says. */
  predicate KeepsRecords(observed: Results, baseline: Baseline, mode: Mode, only: bool) {
    forall name :: name in baseline ==>
      name in observed && !FailsGate(observed[name], Some(baseline[name]), mode, only)
  }

  /** A run reports only fixtures it was given, so a recorded fixture that is gone is not missed: a
      silent gate means that every record is kept exactly when no recorded fixture is gone. */
  lemma GateSeesOnlyItsFixtures(observed: Results, baseline: Baseline, mode: Mode, only: bool)
    ensures Gate(observed, baseline, mode, only) <= observed.Keys
    ensures forall name :: name in baseline && name !in observed ==> name !in Gate(observed, baseline, mode, only)
    ensures Gate(observed, baseline, mode, only) == {} ==>
              (KeepsRecords(observed, baseline, mode, only) <==> baseline.Keys <= observed.Keys)
  {
    GateByFixture(observed, baseline, mode, only);
    if Gate(observed, baseline, mode, only) == {} && baseline.Keys <= observed.Keys {
      forall name | name in baseline
        ensures name in observed && !FailsGate(observed[name], Some(baseline[name]), mode, only)
      {
        assert name in baseline.Keys && name !in Gate(observed, baseline, mode, only);
      }
    }
  }

  lemma MissingFixtureExample()
    ensures var observed: Results := map["g" := CompileCase(Exit(0))];
            var baseline: Baseline := map["f" := CompileEntry(Exit(0)), "g" := CompileEntry(Exit(0))];
            Gate(observed, baseline, Both, false) == {} && !KeepsRecords(observed, baseline, Both, false)
  {
    var observed: Results := map["g" := CompileCase(Exit(0))];
    var baseline: Baseline := map["f" := CompileEntry(Exit(0)), "g" := CompileEntry(Exit(0))];
    GateByFixture(observed, baseline, Both, false);
    assert "f" in baseline && "f" !in observed;
  }

  /** After an update from some of the fixtures, a full gate judges those by their record and
      all others as new: their earlier records are gone. */
  lemma PartialUpdateForgets(all: Results, some: Results, before: Baseline, mode: Mode, only: bool)
    requires some.Keys <= all.Keys && (forall name :: name in some ==> some[name] == all[name])
    requires Update(some, before, mode).Some?
    ensures Gate(all, Update(some, before, mode).value, mode, only)
         == set name | name in all && (if name in some then !IsSteady(all[name], mode) else !PassesNew(all[name], mode))
  {
    var records := Update(some, before, mode).value;
    UpdateIsWritten(some, before, mode);
    forall name | name in all
      ensures FailsGate(all[name], Lookup(records, name), mode, only)
         <==> if name in some then !IsSteady(all[name], mode) else !PassesNew(all[name], mode)
    {
      if name in some {
        RecordableCase(some[name], Lookup(before, name), mode);
        RecordedThenGated(some[name], Lookup(before, name), mode, only);
        assert Lookup(records, name) == Record(some[name], mode);
      } else {
        assert Lookup(records, name) == None;
      }
    }
    GateByFixture(all, records, mode, only);
  }

  /** A fixture that exits with 1, as recorded, fails the gate once another one was updated alone. */
  lemma PartialUpdateExample()
    ensures var f, g := ExecCase(None, Some(Exit(1)), None), CompileCase(Exit(0));
            var before: Baseline := map["f" := ExecEntry(Some(1), Some(Exit(1)), None)];
            var after := Update(map["g" := g], before, JitOnly);
            && Gate(map["f" := f, "g" := g], before, JitOnly, false) == {}
            && after.Some? && Gate(map["f" := f, "g" := g], after.value, JitOnly, false) == {"f"}
  {
    var f, g := ExecCase(None, Some(Exit(1)), None), CompileCase(Exit(0));
    var before: Baseline := map["f" := ExecEntry(Some(1), Some(Exit(1)), None)];
    var all, some: Results := map["f" := f, "g" := g], map["g" := g];
    GateByFixture(all, before, JitOnly, false);
    UpdateIsWritten(some, before, JitOnly);
    PartialUpdateForgets(all, some, before, JitOnly, false);
  }
}
