/**
 * BaselinePackageValidator: checks that a newer package still covers every
 * target framework and every (target framework, runtime identifier) pair of
 * a baseline package, and queues an API comparison for every baseline asset
 * that still has a counterpart.
 *
 * The functions below give the meaning of one validation run on the state the
 * validator can observe (its error log, the queries put to its diagnostic bag
 * and the comparison queue); the class runs the same walk step by step and is
 * proved to end in that state.
 */
module BaselineValidation {
  import opened Wrappers
  import opened Resources
  import opened Packages
  import opened Diagnostics
  import opened ApiCompat

  /** The three walks of Validate, in the order they run. */
  datatype Stage = CompileStage | RuntimeStage | RuntimeSpecificStage

  /** One error written through the logger: "<code> <message>". */
  datatype LogError = LogError(code: string, message: Text)

  /** What a validation run changes: the logged errors, the bag's queries, the comparison queue. */
  datatype Observed = Observed(log: seq<LogError>, consulted: seq<Query>, queue: seq<Request>)

  /** What the validator holds after construction and reads during Validate. */
  datatype Setup = Setup(baseline: Package, runApiCompat: bool, bag: BagConfig)

  /** The baseline assets a stage walks. */
  function BaselineAssets(baseline: Package, stage: Stage): seq<Asset>
  {
    match stage
    case CompileStage => baseline.compileAssets
    case RuntimeStage => baseline.runtimeAssets
    case RuntimeSpecificStage => baseline.runtimeSpecificAssets
  }

  /** The assets a stage walks can be looked up: runtime-specific ones carry a rid. */
  predicate Resolvable(stage: Stage, assets: seq<Asset>)
  {
    stage == RuntimeSpecificStage ==> HasRids(assets)
  }

  /** The new package's best match for a baseline asset, by the stage's lookup. */
  function FindBest(package: Package, stage: Stage, a: Asset): Option<Asset>
    requires stage == RuntimeSpecificStage ==> a.rid.Some?
  {
    match stage
    case CompileStage => package.findBestCompileAsset(a.tfm)
    case RuntimeStage => package.findBestRuntimeAsset(a.tfm)
    case RuntimeSpecificStage => package.findBestRuntimeSpecificAsset(a.tfm, a.rid.value)
  }

  /** The suppression qualifier: the framework, or "<framework>-<rid>" for runtime-specific assets. */
  function Qualifier(stage: Stage, a: Asset): string
    requires stage == RuntimeSpecificStage ==> a.rid.Some?
  {
    if stage == RuntimeSpecificStage then a.tfm + "-" + a.rid.value else a.tfm
  }

  /** Every stage asks the bag under TargetFrameworkDropped, the runtime-specific one included. */
  function DroppedQuery(stage: Stage, a: Asset): Query
    requires stage == RuntimeSpecificStage ==> a.rid.Some?
  {
    Query(TargetFrameworkDropped, Qualifier(stage, a))
  }

  /** The code an unmatched asset is logged under. */
  function ErrorCode(stage: Stage): string
  {
    if stage == RuntimeSpecificStage then TargetFrameworkAndRidPairDropped else TargetFrameworkDropped
  }

  /** The error logged for a baseline asset without a match. */
  function DroppedError(stage: Stage, a: Asset): LogError
    requires stage == RuntimeSpecificStage ==> a.rid.Some?
  {
    if stage == RuntimeSpecificStage then
      LogError(ErrorCode(stage), Formatted(MissingTargetFrameworkAndRid, [a.tfm, a.rid.value]))
    else
      LogError(ErrorCode(stage), Formatted(MissingTargetFramework, [a.tfm]))
  }

  /** The resource the comparison header is formatted from (the runtime-specific stage uses the title's). */
  function HeaderFormat(stage: Stage): ResourceId
  {
    if stage == RuntimeSpecificStage then BaselineVersionValidatorHeader else ApiCompatibilityBaselineHeader
  }

  /** The comparison queued for a baseline asset and its match in the new package. */
  function CompatRequest(baseline: Package, package: Package, stage: Stage, a: Asset, latest: Asset): Request
  {
    Request(baseline.packagePath, a.path, package.packagePath, latest.path,
            FileNameOf(package.packagePath),
            Resource(BaselineVersionValidatorHeader),
            Formatted(HeaderFormat(stage), [a.path, latest.path, baseline.version, package.version]))
  }

  /** One iteration of a stage's loop, on baseline asset `a`. */
  function Visit(setup: Setup, package: Package, stage: Stage, s: Observed, a: Asset): Observed
    requires stage == RuntimeSpecificStage ==> a.rid.Some?
  {
    match FindBest(package, stage, a)
    case None =>
      var q := DroppedQuery(stage, a);
      var log := if Suppresses(setup.bag, s.consulted, q) then s.log else s.log + [DroppedError(stage, a)];
      Observed(log, s.consulted + [q], s.queue)
    case Some(latest) =>
      if setup.runApiCompat then s.(queue := s.queue + [CompatRequest(setup.baseline, package, stage, a, latest)])
      else s
  }

  /** A stage's loop over `assets`, in order. */
  function Walk(setup: Setup, package: Package, stage: Stage, s: Observed, assets: seq<Asset>): Observed
    requires Resolvable(stage, assets)
    decreases |assets|
  {
    if |assets| == 0 then s
    else
      var n := |assets| - 1;
      Visit(setup, package, stage, Walk(setup, package, stage, s, assets[..n]), assets[n])
  }

  /** Validate(package): the compile stage only when the new package has reference assemblies, then the other two. */
  function Run(setup: Setup, package: Package, s: Observed): Observed
    requires RidsPresent(setup.baseline)
  {
    var afterCompile :=
      if package.hasRefAssemblies then Walk(setup, package, CompileStage, s, setup.baseline.compileAssets) else s;
    var afterRuntime := Walk(setup, package, RuntimeStage, afterCompile, setup.baseline.runtimeAssets);
    Walk(setup, package, RuntimeSpecificStage, afterRuntime, setup.baseline.runtimeSpecificAssets)
  }

  class BaselinePackageValidator {
    const baselinePackage: Package
    const runApiCompat: bool
    const diagnosticBag: DiagnosticBag
    const apiCompatRunner: ApiCompatRunner
    /** The errors written to the logger, oldest first. */
    var log: seq<LogError>

    function Config(): Setup
    {
      Setup(baselinePackage, runApiCompat, diagnosticBag.config)
    }

    function Observe(): Observed
      reads this, diagnosticBag, apiCompatRunner
    {
      Observed(log, diagnosticBag.consulted, apiCompatRunner.queue)
    }

    /**
     * The runner gets noWarn as it is; the bag gets only its coverage codes.
     * `filterRule` stands for the bag's decision procedure, which is not part of this model.
     */
    constructor (baselinePackage: Package, noWarn: Option<string>,
                 ignoredDifferences: Option<seq<(string, string)>>, runApiCompat: bool,
                 filterRule: FilterRule)
      ensures this.baselinePackage == baselinePackage && this.runApiCompat == runApiCompat
      ensures fresh(diagnosticBag) && fresh(apiCompatRunner)
      ensures apiCompatRunner.noWarn == noWarn && apiCompatRunner.ignoredDifferences == ignoredDifferences
      ensures diagnosticBag.config == BagConfig(NoWarnIds(noWarn), ignoredDifferences, filterRule)
      ensures Observe() == Observed([], [], []) && apiCompatRunner.runs == []
    {
      this.baselinePackage := baselinePackage;
      this.runApiCompat := runApiCompat;
      apiCompatRunner := new ApiCompatRunner(noWarn, ignoredDifferences);
      diagnosticBag := new DiagnosticBag(NoWarnIds(noWarn), ignoredDifferences, filterRule);
      log := [];
    }

    /** The body of each stage's loop for baseline asset `a`. */
    method VisitAsset(package: Package, stage: Stage, a: Asset)
      requires stage == RuntimeSpecificStage ==> a.rid.Some?
      modifies this, diagnosticBag, apiCompatRunner
      ensures Observe() == Visit(Config(), package, stage, old(Observe()), a)
      ensures apiCompatRunner.runs == old(apiCompatRunner.runs)
    {
      var latest := FindBest(package, stage, a);
      if latest.None? {
        var suppressed := diagnosticBag.Filter(TargetFrameworkDropped, Qualifier(stage, a));
        if !suppressed {
          log := log + [DroppedError(stage, a)];
        }
      } else if runApiCompat {
        apiCompatRunner.QueueApiCompat(baselinePackage.packagePath, a.path,
                                       package.packagePath, latest.value.path,
                                       FileNameOf(package.packagePath),
                                       Resource(BaselineVersionValidatorHeader),
                                       Formatted(HeaderFormat(stage), [a.path, latest.value.path, baselinePackage.version, package.version]));
      }
    }

    /** Validate(package): three walks over the baseline's assets, then one run of the queued comparisons. */
    method Validate(package: Package)
      requires RidsPresent(baselinePackage)
      modifies this, diagnosticBag, apiCompatRunner
      ensures Observe() == Run(Config(), package, old(Observe()))
      ensures apiCompatRunner.runs == old(apiCompatRunner.runs) + [Observe().queue]
    {
      var start := Observe();
      if package.hasRefAssemblies {
        var assets := baselinePackage.compileAssets;
        var i := 0;
        while i < |assets|
          invariant 0 <= i <= |assets|
          invariant Observe() == Walk(Config(), package, CompileStage, start, assets[..i])
          invariant apiCompatRunner.runs == old(apiCompatRunner.runs)
        {
          VisitAsset(package, CompileStage, assets[i]);
          assert assets[..i + 1][..i] == assets[..i];
          i := i + 1;
        }
        assert assets[..i] == assets;
      }

      var afterCompile := Observe();
      var assets := baselinePackage.runtimeAssets;
      var i := 0;
      while i < |assets|
        invariant 0 <= i <= |assets|
        invariant Observe() == Walk(Config(), package, RuntimeStage, afterCompile, assets[..i])
        invariant apiCompatRunner.runs == old(apiCompatRunner.runs)
      {
        VisitAsset(package, RuntimeStage, assets[i]);
        assert assets[..i + 1][..i] == assets[..i];
        i := i + 1;
      }
      assert assets[..i] == assets;

      var afterRuntime := Observe();
      assets := baselinePackage.runtimeSpecificAssets;
      i := 0;
      while i < |assets|
        invariant 0 <= i <= |assets|
        invariant Observe() == Walk(Config(), package, RuntimeSpecificStage, afterRuntime, assets[..i])
        invariant apiCompatRunner.runs == old(apiCompatRunner.runs)
      {
        VisitAsset(package, RuntimeSpecificStage, assets[i]);
        assert assets[..i + 1][..i] == assets[..i];
        i := i + 1;
      }
      assert assets[..i] == assets;

      apiCompatRunner.RunApiCompat();
    }
  }
}
