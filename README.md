# Baseline package validation

This project models `BaselinePackageValidator`, the regression check of .NET package
validation. The check compares a baseline (older) NuGet package with a newer one. The
validator walks the baseline's assets in three stages:

1. compile-time assets, only when the *new* package has reference assemblies;
2. runtime assets without a runtime identifier (rid);
3. runtime-specific assets, one per (target framework, rid) pair.

For each baseline asset it asks the new package for its best match.

- No match: it asks its diagnostic bag whether the "dropped" diagnostic is suppressed. If it is not, it logs
  `PKV006` (framework dropped) or, in the runtime-specific stage, `PKV007` (framework and
  rid pair dropped).
- A match, with API compatibility on: it queues one comparison request for the API compatibility runner.

After the three stages it calls `RunApiCompat` exactly once. The constructor passes the
`;`-separated `noWarn` tokens that are coverage codes to the diagnostic bag. The runner
gets `noWarn` unfiltered.

Files:

- `wrappers.dfy`: `Option`, which stands for a nullable reference.
- `resources.dfy`: resource strings and formatted messages, kept as values and not as text.
- `packages.dfy`: `Asset` (path, framework string, optional rid) and `Package`. A package has
  three asset sequences, `hasRefAssemblies`, its path and version. Its three `FindBest*`
  lookups are fields whose values are functions.
- `diagnostics.dfy`: the diagnostic codes, `string.Split`, the coverage-code filter of the
  constructor, and the `DiagnosticBag` class. Each call to `Filter` is recorded. The bag's
  answer comes from a rule given at construction. The rule sees the bag's configuration,
  the earlier queries and the new query.
- `api_compat.dfy`: the `ApiCompatRunner` class. It holds the request queue and the batch
  handed over by each `RunApiCompat` call.
- `baseline_validator.dfy`: the specification functions `Visit` (one loop iteration), `Walk`
  (one stage) and `Run` (all of `Validate`). They work on `Observed`: the error log, the
  bag's queries and the queue. The module also holds the `BaselinePackageValidator` class.
  Its `Validate` has three `while` loops and is proved to end in `Run` of the state it
  started from.
- `baseline_properties.dfy`: reference definitions of each stage's effects, the lemmas that
  tie `Walk` and `Run` to them, the "no framework dropped silently" property, and the
  repository's test scenario.

Behaviour of the code that is easy to miss, kept as written:

- The compile stage is guarded by the new package's `HasRefAssemblies`, not by the
  baseline having compile assets.
- The runtime-specific stage asks the bag under `TargetFrameworkDropped` but logs under
  `TargetFrameworkAndRidPairDropped`.
- `RunApiCompat` is called whether or not API compatibility is on.
- The comparison header of the runtime-specific stage is formatted from
  `BaselineVersionValidatorHeader`. The other two stages use `ApiCompatibilityBaselineHeader`.

## Model

| member | source | states |
|---|---|---|
| Diagnostics.SplitTokensHaveNoSeparator | src/Compatibility/Microsoft.DotNet.PackageValidation/BaselinePackageValidator.cs:34 | no token of `noWarn.Split(';')` contains `;` |
| Diagnostics.JoinSplit | src/Compatibility/Microsoft.DotNet.PackageValidation/BaselinePackageValidator.cs:34 | joining the split tokens with `;` gives back `noWarn`, so splitting loses and invents nothing (empty tokens included) |
| Diagnostics.SplitJoin | src/Compatibility/Microsoft.DotNet.PackageValidation/BaselinePackageValidator.cs:34 | splitting a `;`-join of `;`-free tokens gives back exactly those tokens |
| Diagnostics.KeepCoverageIds | src/Compatibility/Microsoft.DotNet.PackageValidation/BaselinePackageValidator.cs:24-34 | the `Where` filter keeps a token iff it is one of the two coverage codes, and never yields more tokens than it got |
| Diagnostics.KeepCoverageIdsDistributes | src/Compatibility/Microsoft.DotNet.PackageValidation/BaselinePackageValidator.cs:34 | filtering a concatenation filters each part, so the kept tokens stay in `noWarn` order |
| Diagnostics.NoWarnIdsOfOneCode | src/Compatibility/Microsoft.DotNet.PackageValidation/BaselinePackageValidator.cs:34 | a noWarn of one `;`-free code gives the bag that code if it is `PKV006` or `PKV007`, and no code otherwise |
| Diagnostics.NoWarnIdsKeepsCoverageCodes | src/Compatibility/Microsoft.DotNet.PackageValidation/BaselinePackageValidator.cs:24-34 | for a non-null `noWarn`, the bag gets exactly the `;`-tokens that are coverage codes, each free of `;` |
| Diagnostics.DiagnosticBag.constructor | src/Compatibility/Microsoft.DotNet.PackageValidation/BaselinePackageValidator.cs:34 | a new bag holds the given identifiers and ignored differences and has answered nothing |
| Diagnostics.DiagnosticBag.Filter | src/Compatibility/Microsoft.DotNet.PackageValidation/BaselinePackageValidator.cs:51 | each call records its (kind, qualifier) query; the answer is the bag's rule applied to the earlier queries and this one |
| ApiCompat.ApiCompatRunner.constructor | src/Compatibility/Microsoft.DotNet.PackageValidation/BaselinePackageValidator.cs:33 | the runner keeps `noWarn` and the ignored differences as given, with an empty queue and no runs |
| ApiCompat.ApiCompatRunner.QueueApiCompat | src/Compatibility/Microsoft.DotNet.PackageValidation/BaselinePackageValidator.cs:59-65 | appends one request carrying all seven arguments; nothing is run |
| ApiCompat.ApiCompatRunner.RunApiCompat | src/Compatibility/Microsoft.DotNet.PackageValidation/BaselinePackageValidator.cs:125 | records one run whose batch is the whole current queue |
| BaselineValidation.BaselinePackageValidator.constructor | src/Compatibility/Microsoft.DotNet.PackageValidation/BaselinePackageValidator.cs:29-35 | keeps the baseline and the API-compat flag; the runner gets `noWarn` unfiltered, the bag gets `NoWarnIds(noWarn)`; log, queries and queue start empty |
| BaselineValidation.BaselinePackageValidator.VisitAsset | src/Compatibility/Microsoft.DotNet.PackageValidation/BaselinePackageValidator.cs:47-66 | one loop iteration of any stage ends in `Visit` of the state before it and runs nothing |
| BaselineValidation.BaselinePackageValidator.Validate | src/Compatibility/Microsoft.DotNet.PackageValidation/BaselinePackageValidator.cs:41-126 | the three loops end in `Run` of the starting state, and `RunApiCompat` is called exactly once, on the whole queue, after all stages |
| BaselineProperties.MissedQueries | src/Compatibility/Microsoft.DotNet.PackageValidation/BaselinePackageValidator.cs:51 | the queries for a stage's unmatched assets are all under `TargetFrameworkDropped` |
| BaselineProperties.MissedErrors | src/Compatibility/Microsoft.DotNet.PackageValidation/BaselinePackageValidator.cs:104-107 | one candidate error per unmatched asset, paired with that asset's query, each under the stage's code (`PKV007` only for runtime-specific assets) |
| BaselineProperties.MissedErrorSource | src/Compatibility/Microsoft.DotNet.PackageValidation/BaselinePackageValidator.cs:49-54 | every candidate error is `DroppedError` of a baseline asset of the stage that has no match |
| BaselineProperties.UnsuppressedAppend | src/Compatibility/Microsoft.DotNet.PackageValidation/BaselinePackageValidator.cs:70-108 | the bag's answers to two batches asked in a row: the first batch's surviving errors, then the second's, answered with the first batch as history |
| BaselineProperties.UnsuppressedSubseq | src/Compatibility/Microsoft.DotNet.PackageValidation/BaselinePackageValidator.cs:51-55 | the errors that survive the bag are a selection of the candidate errors, in their order |
| BaselineProperties.NothingSuppressed | src/Compatibility/Microsoft.DotNet.PackageValidation/BaselinePackageValidator.cs:51-55 | when the bag suppresses none of the queries, every candidate error is logged |
| BaselineProperties.AllSuppressed | src/Compatibility/Microsoft.DotNet.PackageValidation/BaselinePackageValidator.cs:51-55 | when the bag suppresses every query, no error is logged |
| BaselineProperties.MatchedRequests | src/Compatibility/Microsoft.DotNet.PackageValidation/BaselinePackageValidator.cs:57-66 | matched and unmatched assets together are all of a stage's assets; every request pairs the baseline package path with the new package path |
| BaselineProperties.WalkConsults | src/Compatibility/Microsoft.DotNet.PackageValidation/BaselinePackageValidator.cs:70-81 | a stage asks the bag exactly once per unmatched asset, in baseline order, and about nothing else |
| BaselineProperties.WalkQueues | src/Compatibility/Microsoft.DotNet.PackageValidation/BaselinePackageValidator.cs:82-94 | a stage queues exactly the matched assets' requests in baseline order when API compat is on, and nothing when it is off |
| BaselineProperties.WalkLogs | src/Compatibility/Microsoft.DotNet.PackageValidation/BaselinePackageValidator.cs:74-80 | a stage appends to the log exactly the errors of its unmatched assets, in baseline order, for which `Filter` returned false, each answer given with every earlier query as history; nothing else is logged and nothing is removed |
| BaselineProperties.WalkExtends | src/Compatibility/Microsoft.DotNet.PackageValidation/BaselinePackageValidator.cs:70-95 | a stage never rewrites earlier log entries, queries or queue entries |
| BaselineProperties.VisitAccountsForAsset | src/Compatibility/Microsoft.DotNet.PackageValidation/BaselinePackageValidator.cs:99-122 | after one iteration the asset is accounted for: queried, and logged unless suppressed; or queued when matched and API compat is on |
| BaselineProperties.WalkAccountsForAsset | src/Compatibility/Microsoft.DotNet.PackageValidation/BaselinePackageValidator.cs:97-123 | after a stage, each of its baseline assets is accounted for |
| BaselineProperties.RunConsults | src/Compatibility/Microsoft.DotNet.PackageValidation/BaselinePackageValidator.cs:43-123 | a run's queries are the unmatched queries of the compile stage (only if the new package has reference assemblies), then the runtime stage, then the runtime-specific stage |
| BaselineProperties.RunQueues | src/Compatibility/Microsoft.DotNet.PackageValidation/BaselinePackageValidator.cs:57-122 | with API compat on, a run queues the matched requests of the walked stages in stage order; with it off, the queue is unchanged |
| BaselineProperties.RunLogsByStage | src/Compatibility/Microsoft.DotNet.PackageValidation/BaselinePackageValidator.cs:43-123 | a run's new log is the compile stage's unsuppressed errors (only with the new package's reference assemblies), then the runtime stage's, then the runtime-specific stage's, each stage answered with all earlier queries as history |
| BaselineProperties.RunLogs | src/Compatibility/Microsoft.DotNet.PackageValidation/BaselinePackageValidator.cs:49-108 | a run appends exactly the walked stages' unmatched errors, in stage order, for which `Filter` returned false, answered with every earlier query of the run as history |
| BaselineProperties.RunBounds | src/Compatibility/Microsoft.DotNet.PackageValidation/BaselinePackageValidator.cs:45-123 | a run adds at most one error and at most one request per baseline asset it visits |
| BaselineProperties.RunConsultsUnderTargetFrameworkDropped | src/Compatibility/Microsoft.DotNet.PackageValidation/BaselinePackageValidator.cs:104 | every query of a run is under `TargetFrameworkDropped`, including the runtime-specific stage's |
| BaselineProperties.LoggedErrorSource | src/Compatibility/Microsoft.DotNet.PackageValidation/BaselinePackageValidator.cs:49-54 | names the walked, unmatched baseline asset behind any one error of a run |
| BaselineProperties.RunErrorsNameDroppedAssets | src/Compatibility/Microsoft.DotNet.PackageValidation/BaselinePackageValidator.cs:49-108 | every error of a run is the error of a walked baseline asset with no match: `PKV007` for a runtime-specific asset, `PKV006` otherwise |
| BaselineProperties.NoTargetFrameworkDroppedSilently | src/Compatibility/Microsoft.DotNet.PackageValidation/BaselinePackageValidator.cs:16 | no baseline framework or (framework, rid) pair of a walked stage is passed over: unmatched means queried and logged unless suppressed; matched with API compat on means queued |
| BaselineProperties.DroppedNetStandard | src/Tests/Microsoft.DotNet.PackageValidation.Tests/BaseLineVersionValidatorTests.cs:20-38 | for the test's packages and any bag: exactly one query, for `.NETStandard,Version=v2.0` under `PKV006`; its error is logged iff the bag does not suppress it; nothing is queued |
| BaselineProperties.TfmDroppedButSuppressed | src/Compatibility/Microsoft.DotNet.PackageValidation/BaselinePackageValidator.cs:51-55 | the test's packages with noWarn `PKV006` and a bag that suppresses listed codes: the query is still made, nothing is logged, nothing is queued |
| BaselineProperties.TfmDroppedInLatestVersion | src/Tests/Microsoft.DotNet.PackageValidation.Tests/BaseLineVersionValidatorTests.cs:20-38 | baseline with netcoreapp3.1 and netstandard2.0, new package with netcoreapp3.1 only: the only error is `PKV006` for `.NETStandard,Version=v2.0`, and nothing is queued |

## Left out

- The NuGet lookups `FindBestCompileAssetForFramework`, `FindBestRuntimeAssetForFramework` and `FindBestRuntimeAssetForFrameworkAndRuntime`, with NuGet's framework and rid compatibility tables, are not part of this model. They are function-valued fields of `Package`, and every property holds for any lookup.
- Building a `Package` from file paths is not part of this model. `hasRefAssemblies` and the three asset sequences are given.
- Runtime-specific baseline assets must carry a rid. The source would throw reading a missing `rid` property, so `Validate` requires it (`RidsPresent` on the baseline); the constructor does not.
- Diagnostics.DiagnosticBag.Filter: how the bag matches `noWarn` codes and ignored differences, and how it de-duplicates, are not part of this model. Its answer is a rule given to the validator's constructor, applied to the bag's configuration, the earlier queries and the new query. No suppression or de-duplication property is claimed.
- ApiCompat.ApiCompatRunner.RunApiCompat: the comparison itself uses foreign libraries and is not part of this model. The model records the batch handed over and leaves the queue as it is; whether the real runner empties its queue is not modelled.
- Message text is not modelled. The text comes from `Resources.*` through `string.Format`, and the display name from `Path.GetFileName`. Each is kept as the resource and arguments it is built from, so only which resource and which arguments are checked.
- The logger is modelled as a sequence of (code, message) errors. Sink formatting beyond "code, space, message" is not modelled.
- The numeric value of `DiagnosticIds.TargetFrameworkAndRidPairDropped` is taken as `PKV007`. `DiagnosticIds` is not part of this model. `PKV006` comes from the repository's test, and the proofs only use that the two codes differ.
- `CompatibleTfmValidator`, exercised by `CompatibleFrameworkValidatorTests.cs`, is not part of this model; its source is not among the modelled files.
- The test's five-argument validator constructor (extra logger argument) is not modelled. The model follows the four-argument constructor, plus the bag's rule.
