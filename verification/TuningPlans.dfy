/** Tuning plans: crates/tuning/src/plan.rs, and the canonicality check that AuthorizedRequest::validate
    in crates/helper/src/protocol.rs applies to them. Paths are their encoded bytes. */
module TuningPlans {
  import opened Common

  type Path = seq<int>

  datatype Action = Apply | Backup | Restore | Verify

  datatype Profile = Safe | Measured

  datatype PowerPlan = Unchanged | HighPerformance

  datatype Config = Config(
    action: Action, profile: Profile, dscp: nat, ports: seq<nat>, includeApps: bool, apps: seq<Path>,
    power: PowerPlan, backupFolder: Option<Path>, allowUnsafe: bool, dryRun: bool)

  datatype Step =
    | ValidateBackupDestination | WriteAndVerifyBackup | EnableLocalQos
    | ReconcilePortPolicies(count: nat, dscp: nat) | ReconcileAppPolicies(count: nat, dscp: nat)
    | DisableNicPowerSaving | SetPowerPlan(plan: PowerPlan)
    | ValidateAndStageRestore | RestoreRegistry | RestoreQos | RestoreNicAdvanced | RestoreRsc | RestorePowerPlan
    | InspectManagedState

  datatype Plan = Plan(config: Config, steps: seq<Step>, mutating: bool, requiresHelper: bool)

  datatype Error = Validation

  const MAX_PORTS := 100
  const MAX_APPS := 100
  const MAX_PATH_BYTES := 32 * 1024

  // ---------------------------------------------------------------------------------------
  // Validation
  // ---------------------------------------------------------------------------------------

  function Bytes(s: string): Path {
    seq(|s|, i requires 0 <= i < |s| => s[i] as int)
  }

  predicate Separator(b: int) {
    b == '\\' as int || b == '/' as int
  }

  /** path.split(['\\', '/']) */
  function Parts(path: Path): (parts: seq<Path>)
    ensures parts != []
  {
    if path == [] then [[]]
    else
      var rest := Parts(path[1..]);
      if Separator(path[0]) then [[]] + rest else [[path[0]] + rest[0]] + rest[1..]
  }

  function Lower(b: int): int {
    if 'A' as int <= b <= 'Z' as int then b + 32 else b
  }

  function LowerAll(path: Path): Path {
    seq(|path|, i requires 0 <= i < |path| => Lower(path[i]))
  }

  predicate Traverses(path: Path) {
    Bytes("..") in Parts(path)
  }

  predicate ValidWindowsExe(path: Path) {
    && |path| >= 7
    && 'a' as int <= Lower(path[0]) <= 'z' as int
    && path[1] == ':' as int
    && Separator(path[2])
    && LowerAll(path)[|path| - 4..] == Bytes(".exe")
    && 0 !in path
  }

  function TrimSeparators(path: Path): Path {
    if path != [] && path[|path| - 1] == '\\' as int then TrimSeparators(path[..|path| - 1]) else path
  }

  predicate SensitiveBackupFolder(path: Path) {
    var slashes := seq(|path|, i requires 0 <= i < |path| => if path[i] == '/' as int then '\\' as int else path[i]);
    var normalized := LowerAll(TrimSeparators(slashes));
    var roots := ["c:\\windows", "c:\\windows\\system32", "c:\\program files", "c:\\program files (x86)"];
    || (exists i :: 0 <= i < |roots| && (normalized == Bytes(roots[i]) || Bytes(roots[i] + "\\") <= normalized))
    || Bytes("windows") in Parts(normalized) || Bytes("program files") in Parts(normalized)
    || Bytes("program files (x86)") in Parts(normalized)
  }

  predicate ValidApp(path: Path) {
    |path| <= MAX_PATH_BYTES && !Traverses(path) && ValidWindowsExe(path)
  }

  predicate Validated(c: Config) {
    && c.dscp <= 63
    && |c.ports| <= MAX_PORTS && 0 !in c.ports
    && |c.apps| <= MAX_APPS && (forall i :: 0 <= i < |c.apps| ==> ValidApp(c.apps[i]))
    && (c.action != Verify && c.backupFolder.Some? ==>
          && c.backupFolder.value != []
          && (c.allowUnsafe || !SensitiveBackupFolder(c.backupFolder.value))
          && !Traverses(c.backupFolder.value))
  }

  // ---------------------------------------------------------------------------------------
  // Normalisation
  // ---------------------------------------------------------------------------------------

  predicate Ascending(s: seq<nat>) {
    forall i, j :: 0 <= i < j < |s| ==> s[i] <= s[j]
  }

  predicate StrictlyAscending(s: seq<nat>) {
    forall i, j :: 0 <= i < j < |s| ==> s[i] < s[j]
  }

  function Insert(s: seq<nat>, x: nat): seq<nat> {
    if s == [] || x <= s[0] then [x] + s else [s[0]] + Insert(s[1..], x)
  }

  lemma {:induction false} InsertMultiset(s: seq<nat>, x: nat)
    ensures multiset(Insert(s, x)) == multiset(s) + multiset{x}
  {
    if s != [] && x > s[0] {
      InsertMultiset(s[1..], x);
      assert s == [s[0]] + s[1..];
    }
  }

  lemma {:induction false} InsertAscending(s: seq<nat>, x: nat)
    requires Ascending(s)
    ensures Ascending(Insert(s, x))
    ensures forall i :: 0 <= i < |Insert(s, x)| ==> Insert(s, x)[i] == x || (s != [] && s[0] <= Insert(s, x)[i])
  {
    if s != [] && x > s[0] {
      var rest := Insert(s[1..], x);
      InsertAscending(s[1..], x);
      assert forall i :: 0 <= i < |rest| ==> s[0] <= rest[i];
    }
  }

  /** sort_unstable */
  function Sort(s: seq<nat>): (r: seq<nat>)
    ensures Ascending(r) && multiset(r) == multiset(s)
  {
    if s == [] then []
    else
      assert s == s[..|s| - 1] + [s[|s| - 1]];
      InsertAscending(Sort(s[..|s| - 1]), s[|s| - 1]);
      InsertMultiset(Sort(s[..|s| - 1]), s[|s| - 1]);
      Insert(Sort(s[..|s| - 1]), s[|s| - 1])
  }

  /** dedup: drops every element equal to the one before it. */
  function Dedup(s: seq<nat>): (r: seq<nat>)
    ensures |r| <= |s| && (forall x :: x in r <==> x in s)
    ensures s != [] ==> r != [] && r[|r| - 1] == s[|s| - 1]
  {
    if |s| <= 1 then s
    else
      var init, last := s[..|s| - 1], s[|s| - 1];
      assert s == init + [last];
      if last == s[|s| - 2] then Dedup(init) else Dedup(init) + [last]
  }

  /** retain(|path| seen.insert(path)): keeps the first occurrence of every path. */
  function FirstOccurrences(paths: seq<Path>): (r: seq<Path>)
    ensures |r| <= |paths| && forall p :: p in r <==> p in paths
  {
    if paths == [] then []
    else
      var init, last := paths[..|paths| - 1], paths[|paths| - 1];
      assert paths == init + [last];
      var kept := FirstOccurrences(init);
      if last in init then kept else kept + [last]
  }

  /** retain(|path| !path.is_empty()) */
  function NonEmpty(paths: seq<Path>): seq<Path> {
    if paths == [] then []
    else NonEmpty(paths[..|paths| - 1]) + if paths[|paths| - 1] == [] then [] else [paths[|paths| - 1]]
  }

  function Normalised(c: Config): Config {
    c.(ports := Dedup(Sort(c.ports)), apps := FirstOccurrences(NonEmpty(c.apps)))
  }

  /** The two retains, as the loops they are. */
  method RetainApps(paths: seq<Path>) returns (kept: seq<Path>)
    ensures kept == FirstOccurrences(NonEmpty(paths))
  {
    var nonEmpty: seq<Path> := [];
    for i := 0 to |paths|
      invariant nonEmpty == NonEmpty(paths[..i])
    {
      assert paths[..i + 1][..i] == paths[..i];
      if paths[i] != [] {
        nonEmpty := nonEmpty + [paths[i]];
      }
    }
    assert paths[..|paths|] == paths;
    var seen: set<Path> := {};
    kept := [];
    for i := 0 to |nonEmpty|
      invariant forall p :: p in seen <==> p in nonEmpty[..i]
      invariant kept == FirstOccurrences(nonEmpty[..i])
    {
      assert nonEmpty[..i + 1] == nonEmpty[..i] + [nonEmpty[i]];
      if nonEmpty[i] !in seen {
        seen := seen + {nonEmpty[i]};
        kept := kept + [nonEmpty[i]];
      }
    }
    assert nonEmpty[..|nonEmpty|] == nonEmpty;
  }

  // ---------------------------------------------------------------------------------------
  // Planning
  // ---------------------------------------------------------------------------------------

  function EffectivePower(c: Config): PowerPlan {
    if c.power == Unchanged && c.profile == Measured then HighPerformance else c.power
  }

  /** The steps of a normalised configuration. */
  function Steps(c: Config): seq<Step> {
    match c.action
    case Apply =>
      [ValidateBackupDestination, WriteAndVerifyBackup, EnableLocalQos]
      + (if c.ports != [] then [ReconcilePortPolicies(|c.ports|, c.dscp)] else [])
      + (if c.includeApps && c.apps != [] then [ReconcileAppPolicies(|c.apps|, c.dscp)] else [])
      + (if c.profile == Measured then [DisableNicPowerSaving] else [])
      + (if EffectivePower(c) != Unchanged then [SetPowerPlan(EffectivePower(c))] else [])
    case Backup => [ValidateBackupDestination, WriteAndVerifyBackup]
    case Restore =>
      [ValidateAndStageRestore, RestoreRegistry, RestoreQos, RestoreNicAdvanced, RestoreRsc, RestorePowerPlan]
    case Verify => [InspectManagedState]
  }

  function MakePlan(c: Config): Result<Plan, Error> {
    if !Validated(c) then Err(Validation)
    else
      var n := Normalised(c);
      var mutating := n.action != Verify && !n.dryRun;
      Ok(Plan(n, Steps(n), mutating, mutating))
  }

  /** The helper's check: replanning the plan's own configuration must reproduce the plan. */
  predicate HelperAccepts(p: Plan) {
    MakePlan(p.config) == Ok(p)
  }

  // ---------------------------------------------------------------------------------------
  // Fixpoints
  // ---------------------------------------------------------------------------------------

  lemma {:induction false} InsertLast(s: seq<nat>, x: nat)
    requires Ascending(s) && forall i :: 0 <= i < |s| ==> s[i] < x
    ensures Insert(s, x) == s + [x]
  {
    if s != [] {
      InsertLast(s[1..], x);
      assert s + [x] == [s[0]] + (s[1..] + [x]);
    }
  }

  lemma {:induction false} SortFixpoint(s: seq<nat>)
    requires StrictlyAscending(s)
    ensures Sort(s) == s
  {
    if s != [] {
      var n := |s| - 1;
      SortFixpoint(s[..n]);
      InsertLast(s[..n], s[n]);
      assert s == s[..n] + [s[n]];
    }
  }

  lemma {:induction false} DedupStrict(s: seq<nat>)
    requires Ascending(s)
    ensures StrictlyAscending(Dedup(s))
  {
    if |s| > 1 {
      var init, last := s[..|s| - 1], s[|s| - 1];
      DedupStrict(init);
      var kept := Dedup(init);
      if last != s[|s| - 2] {
        forall i | 0 <= i < |kept| ensures kept[i] < last {
          assert kept[i] <= kept[|kept| - 1] == init[|init| - 1] <= last;
        }
      }
    }
  }

  lemma {:induction false} DedupFixpoint(s: seq<nat>)
    requires StrictlyAscending(s)
    ensures Dedup(s) == s
  {
    if |s| > 1 {
      var n := |s| - 1;
      assert s[n - 1] < s[n];
      DedupFixpoint(s[..n]);
      assert Dedup(s) == Dedup(s[..n]) + [s[n]];
      assert s == s[..n] + [s[n]];
    }
  }

  predicate Distinct(paths: seq<Path>) {
    forall i, j :: 0 <= i < j < |paths| ==> paths[i] != paths[j]
  }

  lemma {:induction false} FirstOccurrencesDistinct(paths: seq<Path>)
    ensures Distinct(FirstOccurrences(paths))
  {
    if paths != [] {
      FirstOccurrencesDistinct(paths[..|paths| - 1]);
    }
  }

  lemma {:induction false} FirstOccurrencesFixpoint(paths: seq<Path>)
    requires Distinct(paths)
    ensures FirstOccurrences(paths) == paths
  {
    if paths != [] {
      FirstOccurrencesFixpoint(paths[..|paths| - 1]);
      assert paths == paths[..|paths| - 1] + [paths[|paths| - 1]];
    }
  }

  lemma {:induction false} NonEmptyFixpoint(paths: seq<Path>)
    requires forall i :: 0 <= i < |paths| ==> paths[i] != []
    ensures NonEmpty(paths) == paths
  {
    if paths != [] {
      NonEmptyFixpoint(paths[..|paths| - 1]);
      assert paths == paths[..|paths| - 1] + [paths[|paths| - 1]];
    }
  }

  /** Normalising a validated configuration keeps it valid and changes nothing the second time. */
  lemma NormalisedIsFixpoint(c: Config)
    requires Validated(c)
    ensures Validated(Normalised(c)) && Normalised(Normalised(c)) == Normalised(c)
  {
    var n := Normalised(c);
    PortsFixpoint(c.ports);
    forall i | 0 <= i < |c.apps| ensures c.apps[i] != [] {
      assert ValidApp(c.apps[i]);
    }
    NonEmptyFixpoint(c.apps);
    forall i | 0 <= i < |n.apps| ensures ValidApp(n.apps[i]) && n.apps[i] != [] {
      assert n.apps[i] in n.apps;
      assert n.apps[i] in c.apps;
    }
    NonEmptyFixpoint(n.apps);
    FirstOccurrencesDistinct(c.apps);
    FirstOccurrencesFixpoint(n.apps);
  }

  lemma PortsFixpoint(ports: seq<nat>)
    ensures var n := Dedup(Sort(ports));
            && Dedup(Sort(n)) == n && |n| <= |ports|
            && StrictlyAscending(n) && forall p :: p in n <==> p in ports
  {
    var n := Dedup(Sort(ports));
    DedupStrict(Sort(ports));
    SortFixpoint(n);
    DedupFixpoint(n);
    assert |Sort(ports)| == |multiset(Sort(ports))| == |multiset(ports)| == |ports|;
    forall p ensures p in n <==> p in ports {
      assert p in multiset(Sort(ports)) <==> p in multiset(ports);
    }
  }

  /** Replanning the configuration of any plan gives the identical plan, so the helper accepts exactly
      the plans that planning can produce. */
  lemma HelperAcceptsExactlyProducedPlans(p: Plan)
    ensures HelperAccepts(p) <==> exists c :: MakePlan(c) == Ok(p)
  {
    forall c | MakePlan(c) == Ok(p) ensures HelperAccepts(p) {
      NormalisedIsFixpoint(c);
    }
  }

  /** A produced plan reconciles each requested port once, in ascending order. */
  lemma PlannedPortsAreTheRequestedOnes(c: Config)
    requires MakePlan(c).Ok?
    ensures var p := MakePlan(c).value;
            && StrictlyAscending(p.config.ports)
            && (forall port :: port in p.config.ports <==> port in c.ports)
            && (c.action == Apply && c.ports != [] ==>
                  ReconcilePortPolicies(|Elements(c.ports)|, c.dscp) in p.steps)
  {
    var n := Normalised(c);
    PortsFixpoint(c.ports);
    DistinctCount(n.ports);
    assert Elements(c.ports) == Elements(n.ports);
    if c.action == Apply && c.ports != [] {
      assert c.ports[0] in n.ports;
      PortStep(n);
    }
  }

  lemma PortStep(c: Config)
    requires c.action == Apply && c.ports != []
    ensures ReconcilePortPolicies(|c.ports|, c.dscp) in Steps(c)
  {
    assert Steps(c)[3] == ReconcilePortPolicies(|c.ports|, c.dscp);
  }

  /** The steps that change the machine. */
  predicate Changes(s: Step) {
    || s.EnableLocalQos? || s.ReconcilePortPolicies? || s.ReconcileAppPolicies? || s.DisableNicPowerSaving?
    || s.SetPowerPlan?
  }

  predicate Restores(s: Step) {
    s.RestoreRegistry? || s.RestoreQos? || s.RestoreNicAdvanced? || s.RestoreRsc? || s.RestorePowerPlan?
  }

  predicate Before(steps: seq<Step>, first: Step, i: nat)
    requires i <= |steps|
  {
    first in steps[..i]
  }

  lemma PrefixBefore(steps: seq<Step>, first: Step, j: nat, i: nat)
    requires j < i <= |steps| && steps[j] == first
    ensures Before(steps, first, i)
  {
    assert steps[..i][j] == first;
  }

  lemma ApplySteps(c: Config)
    requires c.action == Apply
    ensures |Steps(c)| >= 2 && Steps(c)[0] == ValidateBackupDestination && Steps(c)[1] == WriteAndVerifyBackup
    ensures forall s :: s in Steps(c) ==> !Restores(s)
  {
  }

  lemma OtherSteps(c: Config)
    requires c.action != Apply
    ensures forall s :: s in Steps(c) ==> !Changes(s)
    ensures c.action == Restore ==> Steps(c) != [] && Steps(c)[0] == ValidateAndStageRestore
    ensures c.action != Restore ==> forall s :: s in Steps(c) ==> !Restores(s)
  {
  }

  /** What comes before step i. */
  ghost predicate Safe(action: Action, steps: seq<Step>, i: nat)
    requires i < |steps|
  {
    && (Changes(steps[i]) ==>
          && action == Apply
          && Before(steps, ValidateBackupDestination, i) && Before(steps, WriteAndVerifyBackup, i))
    && (Restores(steps[i]) ==> action == Restore && Before(steps, ValidateAndStageRestore, i))
  }

  lemma ApplyIsSafe(steps: seq<Step>, i: nat)
    requires |steps| >= 2 && steps[0] == ValidateBackupDestination && steps[1] == WriteAndVerifyBackup
    requires (forall s :: s in steps ==> !Restores(s)) && i < |steps|
    ensures Safe(Apply, steps, i)
  {
    if Changes(steps[i]) {
      PrefixBefore(steps, ValidateBackupDestination, 0, i);
      PrefixBefore(steps, WriteAndVerifyBackup, 1, i);
    }
    assert steps[i] in steps;
  }

  lemma OtherIsSafe(action: Action, steps: seq<Step>, i: nat)
    requires (forall s :: s in steps ==> !Changes(s)) && i < |steps|
    requires action == Restore ==> steps[0] == ValidateAndStageRestore
    requires action != Restore ==> forall s :: s in steps ==> !Restores(s)
    ensures Safe(action, steps, i)
  {
    assert steps[i] in steps;
    if Restores(steps[i]) {
      PrefixBefore(steps, ValidateAndStageRestore, 0, i);
    }
  }

  lemma StepsAreSafe(c: Config, i: nat)
    requires i < |Steps(c)|
    ensures Safe(c.action, Steps(c), i)
  {
    if c.action == Apply {
      ApplySteps(c);
      ApplyIsSafe(Steps(c), i);
    } else {
      OtherSteps(c);
      OtherIsSafe(c.action, Steps(c), i);
    }
  }

  /** In every plan nothing is changed before the destination is validated and the backup is written and
      verified, nothing is restored before the backup is validated and staged, and only the actions that
      should do either. */
  lemma BackupComesFirst(c: Config, i: nat)
    requires MakePlan(c).Ok? && i < |MakePlan(c).value.steps|
    ensures Safe(c.action, MakePlan(c).value.steps, i)
  {
    StepsAreSafe(Normalised(c), i);
  }

  /** The bounds every plan keeps. */
  lemma PlansAreBounded(c: Config)
    requires MakePlan(c).Ok?
    ensures var p := MakePlan(c).value.config;
            && p.dscp <= 63 && |p.ports| <= 100 && |p.apps| <= 100
            && (forall port :: port in p.ports ==> port != 0)
            && (forall i, j :: 0 <= i < j < |p.apps| ==> p.apps[i] != p.apps[j])
            && (forall path :: path in p.apps <==> path in c.apps)
  {
    PortsFixpoint(c.ports);
    FirstOccurrencesDistinct(NonEmpty(c.apps));
    SameApps(c);
    NormalisedIsFixpoint(c);
  }

  /** A plan is mutating, and needs the helper, exactly if it is neither a check nor a dry run. */
  lemma MutatingPlans(c: Config)
    requires MakePlan(c).Ok?
    ensures MakePlan(c).value.mutating == MakePlan(c).value.requiresHelper == (c.action != Verify && !c.dryRun)
    ensures c.action == Verify ==> MakePlan(c).value.steps == [InspectManagedState]
  {
  }

  /** Which optional steps a plan that applies settings has. */
  lemma AppliedSteps(c: Config, power: PowerPlan)
    requires MakePlan(c).Ok? && c.action == Apply
    ensures var steps := MakePlan(c).value.steps;
            && EnableLocalQos in steps
            && ((exists s :: s in steps && s.ReconcilePortPolicies?) <==> c.ports != [])
            && ((exists s :: s in steps && s.ReconcileAppPolicies?) <==> c.includeApps && c.apps != [])
            && (DisableNicPowerSaving in steps <==> c.profile == Measured)
            && (SetPowerPlan(power) in steps <==>
                  power != Unchanged
                  && (power == c.power || (c.power == Unchanged && c.profile == Measured && power == HighPerformance)))
  {
    var n := Normalised(c);
    PortsFixpoint(c.ports);
    assert c.ports == [] <==> n.ports == [] by {
      assert c.ports != [] ==> c.ports[0] in n.ports;
      assert n.ports != [] ==> n.ports[0] in n.ports;
    }
    assert c.apps == [] <==> n.apps == [] by {
      SameApps(c);
    }
    OptionalSteps(n, power);
  }

  lemma SameApps(c: Config)
    requires Validated(c)
    ensures forall path :: path in Normalised(c).apps <==> path in c.apps
    ensures c.apps == [] <==> Normalised(c).apps == []
  {
    forall i | 0 <= i < |c.apps| ensures c.apps[i] != [] {
      assert ValidApp(c.apps[i]);
    }
    NonEmptyFixpoint(c.apps);
    assert c.apps != [] ==> c.apps[0] in Normalised(c).apps;
    assert Normalised(c).apps != [] ==> Normalised(c).apps[0] in c.apps;
  }

  lemma OptionalSteps(c: Config, power: PowerPlan)
    requires c.action == Apply
    ensures var steps := Steps(c);
            && EnableLocalQos in steps
            && ((exists s :: s in steps && s.ReconcilePortPolicies?) <==> c.ports != [])
            && ((exists s :: s in steps && s.ReconcileAppPolicies?) <==> c.includeApps && c.apps != [])
            && (DisableNicPowerSaving in steps <==> c.profile == Measured)
            && (SetPowerPlan(power) in steps <==> power == EffectivePower(c) != Unchanged)
  {
    var steps := Steps(c);
    assert steps[2] == EnableLocalQos;
    if c.ports != [] {
      assert ReconcilePortPolicies(|c.ports|, c.dscp) in steps;
    }
    if c.includeApps && c.apps != [] {
      assert ReconcileAppPolicies(|c.apps|, c.dscp) in steps;
    }
  }

  function Elements(s: seq<nat>): set<nat> {
    set x | x in s
  }

  lemma {:induction false} DistinctCount(s: seq<nat>)
    requires StrictlyAscending(s)
    ensures |Elements(s)| == |s|
  {
    if s != [] {
      var init, last := s[..|s| - 1], s[|s| - 1];
      DistinctCount(init);
      assert last !in init;
      AddElement(init, last);
      assert s == init + [last];
    }
  }

  lemma AddElement(s: seq<nat>, x: nat)
    requires x !in s
    ensures |Elements(s + [x])| == |Elements(s)| + 1
  {
    assert Elements(s + [x]) == Elements(s) + {x};
  }
}
