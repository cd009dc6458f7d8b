/**
 * What one validation run promises, stated against reference definitions that
 * do not follow the loop: which queries reach the diagnostic bag, which errors
 * can be logged, which comparisons are queued, in which order, and that no
 * baseline framework or (framework, rid) pair is passed over silently.
 */
module BaselineProperties {
  import opened Wrappers
  import opened Resources
  import opened Packages
  import opened Diagnostics
  import opened ApiCompat
  import opened BaselineValidation

  // ---------------------------------------------------------------------------
  // Sequence helpers
  // ---------------------------------------------------------------------------

  predicate Prefix<T(==)>(a: seq<T>, b: seq<T>)
  {
    |a| <= |b| && b[..|a|] == a
  }

  /** `a` is `b` with some elements left out, order kept. */
  predicate Subseq<T(==)>(a: seq<T>, b: seq<T>)
    decreases |b|
  {
    |a| == 0 ||
    (|b| > 0 &&
     (Subseq(a, b[..|b| - 1]) ||
      (a[|a| - 1] == b[|b| - 1] && Subseq(a[..|a| - 1], b[..|b| - 1]))))
  }

  lemma {:induction false} SubseqBounds<T>(a: seq<T>, b: seq<T>)
    requires Subseq(a, b)
    ensures |a| <= |b|
    ensures forall x :: x in a ==> x in b
    decreases |b|
  {
    if |a| > 0 {
      var b' := b[..|b| - 1];
      if Subseq(a, b') {
        SubseqBounds(a, b');
      } else {
        SubseqBounds(a[..|a| - 1], b');
        assert a == a[..|a| - 1] + [a[|a| - 1]];
      }
    }
  }

  /** Matching one more element of `b`, with or without taking it into `a`. */
  lemma SubseqSnoc<T>(a: seq<T>, b: seq<T>, x: T, taken: bool)
    requires Subseq(a, b)
    ensures Subseq(a + (if taken then [x] else []), b + [x])
  {
    var b' := b + [x];
    assert b'[..|b'| - 1] == b;
    if taken {
      var a' := a + [x];
      assert a'[..|a'| - 1] == a;
    } else {
      assert a + [] == a;
    }
  }

  lemma AppendAssoc<T>(a: seq<T>, b: seq<T>, c: seq<T>)
    ensures a + (b + c) == a + b + c
  {
  }

  // ---------------------------------------------------------------------------
  // Reference definitions of a stage's effects
  // ---------------------------------------------------------------------------

  /** The queries for the assets without a match, in order; all under TargetFrameworkDropped. */
  function MissedQueries(package: Package, stage: Stage, assets: seq<Asset>): (r: seq<Query>)
    requires Resolvable(stage, assets)
    ensures forall k :: 0 <= k < |r| ==> r[k].kind == TargetFrameworkDropped
    decreases |assets|
  {
    if |assets| == 0 then []
    else
      var n := |assets| - 1;
      var earlier := MissedQueries(package, stage, assets[..n]);
      if FindBest(package, stage, assets[n]).None? then earlier + [DroppedQuery(stage, assets[n])] else earlier
  }

  /** The errors for the assets without a match, in order; each names such an asset under the stage's code. */
  function MissedErrors(package: Package, stage: Stage, assets: seq<Asset>): (r: seq<LogError>)
    requires Resolvable(stage, assets)
    ensures |r| == |MissedQueries(package, stage, assets)|
    ensures forall k :: 0 <= k < |r| ==> r[k].code == ErrorCode(stage)
    decreases |assets|
  {
    if |assets| == 0 then []
    else
      var n := |assets| - 1;
      var earlier := MissedErrors(package, stage, assets[..n]);
      if FindBest(package, stage, assets[n]).None? then earlier + [DroppedError(stage, assets[n])] else earlier
  }

  /** The unmatched baseline asset an error of `MissedErrors` names. */
  lemma {:induction false} MissedErrorSource(package: Package, stage: Stage, assets: seq<Asset>, e: LogError) returns (i: nat)
    requires Resolvable(stage, assets)
    requires e in MissedErrors(package, stage, assets)
    ensures i < |assets| && FindBest(package, stage, assets[i]).None? && e == DroppedError(stage, assets[i])
    decreases |assets|
  {
    var n := |assets| - 1;
    var earlier := MissedErrors(package, stage, assets[..n]);
    if e in earlier {
      i := MissedErrorSource(package, stage, assets[..n], e);
      assert assets[..n][i] == assets[i];
    } else {
      i := n;
    }
  }

  /** The comparisons for the assets with a match, in order, each pairing the asset with its match. */
  function MatchedRequests(baseline: Package, package: Package, stage: Stage, assets: seq<Asset>): (r: seq<Request>)
    requires Resolvable(stage, assets)
    ensures |r| + |MissedQueries(package, stage, assets)| == |assets|
    ensures forall q :: q in r ==> q.leftPackagePath == baseline.packagePath && q.rightPackagePath == package.packagePath
    decreases |assets|
  {
    if |assets| == 0 then []
    else
      var n := |assets| - 1;
      var earlier := MatchedRequests(baseline, package, stage, assets[..n]);
      match FindBest(package, stage, assets[n])
      case None => earlier
      case Some(latest) => earlier + [CompatRequest(baseline, package, stage, assets[n], latest)]
  }

  /**
   * The errors a bag lets through when, having answered `history`, it is asked
   * `queries` in turn and `errors[k]` is to be reported unless it suppresses
   * `queries[k]`: each answer sees the history and every earlier query.
   */
  function Unsuppressed(bag: BagConfig, history: seq<Query>, queries: seq<Query>, errors: seq<LogError>): (r: seq<LogError>)
    requires |queries| == |errors|
    ensures |r| <= |errors|
    decreases |queries|
  {
    if |queries| == 0 then []
    else
      var n := |queries| - 1;
      Unsuppressed(bag, history, queries[..n], errors[..n])
      + (if Suppresses(bag, history + queries[..n], queries[n]) then [] else [errors[n]])
  }

  /** One more query: its error is let through exactly when the bag, having seen the earlier ones, does not suppress it. */
  lemma UnsuppressedSnoc(bag: BagConfig, history: seq<Query>, queries: seq<Query>, errors: seq<LogError>, q: Query, e: LogError)
    requires |queries| == |errors|
    ensures Unsuppressed(bag, history, queries + [q], errors + [e])
            == Unsuppressed(bag, history, queries, errors) + (if Suppresses(bag, history + queries, q) then [] else [e])
  {
    var qs, es := queries + [q], errors + [e];
    assert qs[..|queries|] == queries && es[..|errors|] == errors;
  }

  /** Asking two batches in a row lets through the first batch's errors, then the second's with the first as history. */
  lemma {:induction false} UnsuppressedAppend(bag: BagConfig, history: seq<Query>,
                                              q1: seq<Query>, e1: seq<LogError>, q2: seq<Query>, e2: seq<LogError>)
    requires |q1| == |e1| && |q2| == |e2|
    ensures Unsuppressed(bag, history, q1 + q2, e1 + e2)
            == Unsuppressed(bag, history, q1, e1) + Unsuppressed(bag, history + q1, q2, e2)
    decreases |q2|
  {
    if |q2| == 0 {
      assert q1 + q2 == q1 && e1 + e2 == e1;
    } else {
      var n := |q2| - 1;
      UnsuppressedAppend(bag, history, q1, e1, q2[..n], e2[..n]);
      UnsuppressedSnoc(bag, history, q1 + q2[..n], e1 + e2[..n], q2[n], e2[n]);
      assert q1 + q2 == (q1 + q2[..n]) + [q2[n]];
      assert e1 + e2 == (e1 + e2[..n]) + [e2[n]];
      AppendAssoc(history, q1, q2[..n]);
    }
  }

  /** What is let through is a selection of the errors, in their order. */
  lemma {:induction false} UnsuppressedSubseq(bag: BagConfig, history: seq<Query>, queries: seq<Query>, errors: seq<LogError>)
    requires |queries| == |errors|
    ensures Subseq(Unsuppressed(bag, history, queries, errors), errors)
    decreases |queries|
  {
    if |queries| > 0 {
      var n := |queries| - 1;
      UnsuppressedSubseq(bag, history, queries[..n], errors[..n]);
      SubseqSnoc(Unsuppressed(bag, history, queries[..n], errors[..n]), errors[..n], errors[n],
                 !Suppresses(bag, history + queries[..n], queries[n]));
      assert errors[..n] + [errors[n]] == errors;
    }
  }

  /** A bag that suppresses none of the queries lets every error through. */
  lemma {:induction false} NothingSuppressed(bag: BagConfig, history: seq<Query>, queries: seq<Query>, errors: seq<LogError>)
    requires |queries| == |errors|
    requires forall k :: 0 <= k < |queries| ==> !Suppresses(bag, history + queries[..k], queries[k])
    ensures Unsuppressed(bag, history, queries, errors) == errors
    decreases |queries|
  {
    if |queries| > 0 {
      var n := |queries| - 1;
      assert forall k :: 0 <= k < n ==> queries[..n][..k] == queries[..k] && queries[..n][k] == queries[k];
      NothingSuppressed(bag, history, queries[..n], errors[..n]);
      assert errors[..n] + [errors[n]] == errors;
    }
  }

  /** A bag that suppresses every one of the queries lets no error through. */
  lemma {:induction false} AllSuppressed(bag: BagConfig, history: seq<Query>, queries: seq<Query>, errors: seq<LogError>)
    requires |queries| == |errors|
    requires forall k :: 0 <= k < |queries| ==> Suppresses(bag, history + queries[..k], queries[k])
    ensures Unsuppressed(bag, history, queries, errors) == []
    decreases |queries|
  {
    if |queries| > 0 {
      var n := |queries| - 1;
      assert forall k :: 0 <= k < n ==> queries[..n][..k] == queries[..k] && queries[..n][k] == queries[k];
      AllSuppressed(bag, history, queries[..n], errors[..n]);
    }
  }

  // ---------------------------------------------------------------------------
  // One stage
  // ---------------------------------------------------------------------------

  /** One asset's effect: an unmatched asset adds its query and possibly its error, a matched one possibly its comparison. */
  lemma VisitEffects(setup: Setup, package: Package, stage: Stage, s: Observed, a: Asset)
    requires stage == RuntimeSpecificStage ==> a.rid.Some?
    ensures var v := Visit(setup, package, stage, s, a);
      match FindBest(package, stage, a)
      case None =>
        && v.consulted == s.consulted + [DroppedQuery(stage, a)]
        && v.queue == s.queue
        && v.log == (if Suppresses(setup.bag, s.consulted, DroppedQuery(stage, a)) then s.log
                     else s.log + [DroppedError(stage, a)])
      case Some(latest) =>
        && v.consulted == s.consulted
        && v.log == s.log
        && v.queue == s.queue + (if setup.runApiCompat then [CompatRequest(setup.baseline, package, stage, a, latest)] else [])
  {
  }

  /** A stage asks the bag exactly once for every unmatched asset, in order, and about nothing else. */
  lemma {:induction false} WalkConsults(setup: Setup, package: Package, stage: Stage, s: Observed, assets: seq<Asset>)
    requires Resolvable(stage, assets)
    ensures Walk(setup, package, stage, s, assets).consulted == s.consulted + MissedQueries(package, stage, assets)
    decreases |assets|
  {
    if |assets| > 0 {
      var n := |assets| - 1;
      var a := assets[n];
      var w' := Walk(setup, package, stage, s, assets[..n]);
      var w := Walk(setup, package, stage, s, assets);
      assert w == Visit(setup, package, stage, w', a);
      WalkConsults(setup, package, stage, s, assets[..n]);
      VisitEffects(setup, package, stage, w', a);
      var added := if FindBest(package, stage, a).None? then [DroppedQuery(stage, a)] else [];
      assert MissedQueries(package, stage, assets) == MissedQueries(package, stage, assets[..n]) + added;
      AppendStep(true, s.consulted, w'.consulted, w.consulted, MissedQueries(package, stage, assets[..n]), added);
    }
  }

  /** A stage queues a comparison for every matched asset, in order, when API compat is on, and none when it is off. */
  lemma {:induction false} WalkQueues(setup: Setup, package: Package, stage: Stage, s: Observed, assets: seq<Asset>)
    requires Resolvable(stage, assets)
    ensures setup.runApiCompat ==>
      Walk(setup, package, stage, s, assets).queue == s.queue + MatchedRequests(setup.baseline, package, stage, assets)
    ensures !setup.runApiCompat ==> Walk(setup, package, stage, s, assets).queue == s.queue
    decreases |assets|
  {
    if |assets| > 0 {
      var n := |assets| - 1;
      var a := assets[n];
      var w' := Walk(setup, package, stage, s, assets[..n]);
      var w := Walk(setup, package, stage, s, assets);
      assert w == Visit(setup, package, stage, w', a);
      WalkQueues(setup, package, stage, s, assets[..n]);
      VisitEffects(setup, package, stage, w', a);
      var m' := MatchedRequests(setup.baseline, package, stage, assets[..n]);
      var m := MatchedRequests(setup.baseline, package, stage, assets);
      var added := match FindBest(package, stage, a)
        case None => []
        case Some(latest) => [CompatRequest(setup.baseline, package, stage, a, latest)];
      assert m == m' + added;
      assert setup.runApiCompat ==> w.queue == w'.queue + added;
      assert !setup.runApiCompat ==> w.queue == w'.queue;
      AppendStep(setup.runApiCompat, s.queue, w'.queue, w.queue, m', added);
    }
  }

  /** One more append, made only when `on` holds, to a sequence that so far grew by `m'` exactly when `on` holds. */
  lemma AppendStep<T>(on: bool, q0: seq<T>, q': seq<T>, q: seq<T>, m': seq<T>, added: seq<T>)
    requires on ==> q' == q0 + m' && q == q' + added
    requires !on ==> q' == q0 && q == q'
    ensures on ==> q == q0 + (m' + added)
    ensures !on ==> q == q0
  {
  }

  /**
   * A stage appends to the log exactly the errors of its unmatched assets that
   * the bag does not suppress, each answer given with the queries before it.
   */
  lemma {:induction false} WalkLogs(setup: Setup, package: Package, stage: Stage, s: Observed, assets: seq<Asset>)
    requires Resolvable(stage, assets)
    ensures Walk(setup, package, stage, s, assets).log
            == s.log + Unsuppressed(setup.bag, s.consulted, MissedQueries(package, stage, assets), MissedErrors(package, stage, assets))
    decreases |assets|
  {
    if |assets| > 0 {
      var n := |assets| - 1;
      var a := assets[n];
      var w' := Walk(setup, package, stage, s, assets[..n]);
      var w := Walk(setup, package, stage, s, assets);
      var queries', errs' := MissedQueries(package, stage, assets[..n]), MissedErrors(package, stage, assets[..n]);
      var kept' := Unsuppressed(setup.bag, s.consulted, queries', errs');
      var kept := Unsuppressed(setup.bag, s.consulted, MissedQueries(package, stage, assets), MissedErrors(package, stage, assets));
      assert w'.log == s.log + kept' && w'.consulted == s.consulted + queries' by {
        WalkLogs(setup, package, stage, s, assets[..n]);
        WalkConsults(setup, package, stage, s, assets[..n]);
      }
      assert w == Visit(setup, package, stage, w', a);
      if FindBest(package, stage, a).None? {
        var q, e := DroppedQuery(stage, a), DroppedError(stage, a);
        var added := if Suppresses(setup.bag, w'.consulted, q) then [] else [e];
        assert w.log == w'.log + added by {
          VisitEffects(setup, package, stage, w', a);
        }
        assert kept == kept' + added by {
          assert MissedQueries(package, stage, assets) == queries' + [q];
          assert MissedErrors(package, stage, assets) == errs' + [e];
          UnsuppressedSnoc(setup.bag, s.consulted, queries', errs', q, e);
        }
        AppendBoth(s.log, w'.log, w.log, kept', kept, added);
      } else {
        assert w.log == w'.log by {
          VisitEffects(setup, package, stage, w', a);
        }
        assert kept == kept' by {
          assert MissedQueries(package, stage, assets) == queries';
          assert MissedErrors(package, stage, assets) == errs';
        }
        AppendBoth(s.log, w'.log, w.log, kept', kept, []);
      }
    }
  }

  /** The same entries appended to a sequence and to its description. */
  lemma AppendBoth<T>(l0: seq<T>, l': seq<T>, l: seq<T>, u': seq<T>, u: seq<T>, added: seq<T>)
    requires l' == l0 + u' && l == l' + added && u == u' + added
    ensures l == l0 + u
  {
  }

  /** `t` is `s` with entries appended to its log, its queries and its queue. */
  predicate Extends(s: Observed, t: Observed)
  {
    Prefix(s.log, t.log) && Prefix(s.consulted, t.consulted) && Prefix(s.queue, t.queue)
  }

  /** Every state a stage passes through is extended, never rewritten. */
  lemma WalkExtends(setup: Setup, package: Package, stage: Stage, s: Observed, assets: seq<Asset>)
    requires Resolvable(stage, assets)
    ensures Extends(s, Walk(setup, package, stage, s, assets))
  {
    WalkConsults(setup, package, stage, s, assets);
    WalkQueues(setup, package, stage, s, assets);
    WalkLogs(setup, package, stage, s, assets);
    PrefixOfAppend(s.log, Unsuppressed(setup.bag, s.consulted, MissedQueries(package, stage, assets), MissedErrors(package, stage, assets)));
    PrefixOfAppend(s.consulted, MissedQueries(package, stage, assets));
    PrefixOfAppend(s.queue, MatchedRequests(setup.baseline, package, stage, assets));
  }

  lemma PrefixOfAppend<T>(a: seq<T>, b: seq<T>)
    ensures Prefix(a, a + b)
  {
    assert (a + b)[..|a|] == a;
  }

  /**
   * Between states `s` and `w`, baseline asset `a` was not passed over: without
   * a match, its query reached the bag at some position p, and its error was
   * logged unless the bag, having answered the queries before p, suppressed it;
   * with a match and API compat on, its comparison was queued.
   */
  predicate AccountedFor(setup: Setup, package: Package, stage: Stage, s: Observed, w: Observed, a: Asset)
    requires stage == RuntimeSpecificStage ==> a.rid.Some?
  {
    match FindBest(package, stage, a)
    case None =>
      exists p :: |s.consulted| <= p < |w.consulted| && w.consulted[p] == DroppedQuery(stage, a) &&
        (Suppresses(setup.bag, w.consulted[..p], DroppedQuery(stage, a)) ||
         exists j :: |s.log| <= j < |w.log| && w.log[j] == DroppedError(stage, a))
    case Some(latest) =>
      setup.runApiCompat ==>
        exists j :: |s.queue| <= j < |w.queue| && w.queue[j] == CompatRequest(setup.baseline, package, stage, a, latest)
  }

  /** What happened to an asset between two states stays true between an earlier and a later one. */
  lemma AccountedForWidens(setup: Setup, package: Package, stage: Stage, a: Asset,
                           s: Observed, before: Observed, after: Observed, r: Observed)
    requires stage == RuntimeSpecificStage ==> a.rid.Some?
    requires Extends(s, before) && Extends(after, r)
    requires AccountedFor(setup, package, stage, before, after, a)
    ensures AccountedFor(setup, package, stage, s, r, a)
  {
    match FindBest(package, stage, a)
    case None =>
      var q := DroppedQuery(stage, a);
      var p :| |before.consulted| <= p < |after.consulted| && after.consulted[p] == q &&
        (Suppresses(setup.bag, after.consulted[..p], q) ||
         exists j :: |before.log| <= j < |after.log| && after.log[j] == DroppedError(stage, a));
      assert r.consulted[p] == after.consulted[p];
      assert r.consulted[..p] == after.consulted[..p];
      if !Suppresses(setup.bag, after.consulted[..p], q) {
        var j :| |before.log| <= j < |after.log| && after.log[j] == DroppedError(stage, a);
        assert r.log[j] == after.log[j];
      }
    case Some(latest) =>
      if setup.runApiCompat {
        var j :| |before.queue| <= j < |after.queue| && after.queue[j] == CompatRequest(setup.baseline, package, stage, a, latest);
        assert r.queue[j] == after.queue[j];
      }
  }

  /** Visiting an asset accounts for it and only appends. */
  lemma VisitAccountsForAsset(setup: Setup, package: Package, stage: Stage, w: Observed, a: Asset)
    requires stage == RuntimeSpecificStage ==> a.rid.Some?
    ensures Extends(w, Visit(setup, package, stage, w, a))
    ensures AccountedFor(setup, package, stage, w, Visit(setup, package, stage, w, a), a)
  {
    var v := Visit(setup, package, stage, w, a);
    VisitEffects(setup, package, stage, w, a);
    match FindBest(package, stage, a)
    case None =>
      var p := |w.consulted|;
      assert v.consulted[p] == DroppedQuery(stage, a);
      assert v.consulted[..p] == w.consulted;
      if !Suppresses(setup.bag, w.consulted, DroppedQuery(stage, a)) {
        assert v.log[|w.log|] == DroppedError(stage, a);
      }
    case Some(latest) =>
      if setup.runApiCompat {
        assert v.queue[|w.queue|] == CompatRequest(setup.baseline, package, stage, a, latest);
      }
  }

  lemma ExtendsReflexive(s: Observed)
    ensures Extends(s, s)
  {
    assert s.log[..|s.log|] == s.log;
    assert s.consulted[..|s.consulted|] == s.consulted;
    assert s.queue[..|s.queue|] == s.queue;
  }

  /** A stage's walk passes over none of its assets. */
  lemma {:induction false} WalkAccountsForAsset(setup: Setup, package: Package, stage: Stage, s: Observed,
                                                assets: seq<Asset>, i: nat)
    requires Resolvable(stage, assets) && i < |assets|
    ensures AccountedFor(setup, package, stage, s, Walk(setup, package, stage, s, assets), assets[i])
    decreases |assets|
  {
    var n := |assets| - 1;
    var w' := Walk(setup, package, stage, s, assets[..n]);
    var w := Walk(setup, package, stage, s, assets);
    assert w == Visit(setup, package, stage, w', assets[n]);
    VisitAccountsForAsset(setup, package, stage, w', assets[n]);
    if i == n {
      WalkExtends(setup, package, stage, s, assets[..n]);
      ExtendsReflexive(w);
      AccountedForWidens(setup, package, stage, assets[i], s, w', w, w);
    } else {
      assert assets[..n][i] == assets[i];
      WalkAccountsForAsset(setup, package, stage, s, assets[..n], i);
      ExtendsReflexive(s);
      AccountedForWidens(setup, package, stage, assets[i], s, s, w', w);
    }
  }

  // ---------------------------------------------------------------------------
  // A whole run
  // ---------------------------------------------------------------------------

  /** Does Validate walk this stage for this new package? Only the compile stage is guarded. */
  predicate Walked(package: Package, stage: Stage)
  {
    stage != CompileStage || package.hasRefAssemblies
  }

  /** The baseline compile assets Validate walks: none unless the NEW package has reference assemblies. */
  function WalkedCompileAssets(setup: Setup, package: Package): seq<Asset>
  {
    if package.hasRefAssemblies then setup.baseline.compileAssets else []
  }

  /** The number of baseline assets Validate visits. */
  function VisitedCount(setup: Setup, package: Package): nat
  {
    |WalkedCompileAssets(setup, package)| + |setup.baseline.runtimeAssets| + |setup.baseline.runtimeSpecificAssets|
  }

  /** The three states a run passes through, named as the lemmas below use them. */
  lemma RunStages(setup: Setup, package: Package, s: Observed)
    requires RidsPresent(setup.baseline)
    ensures var b := setup.baseline;
      var s1 := Walk(setup, package, CompileStage, s, WalkedCompileAssets(setup, package));
      var s2 := Walk(setup, package, RuntimeStage, s1, b.runtimeAssets);
      Run(setup, package, s) == Walk(setup, package, RuntimeSpecificStage, s2, b.runtimeSpecificAssets)
  {
  }

  /** The bag is asked about the unmatched assets of the walked stages, stage by stage, in stage order. */
  lemma RunConsults(setup: Setup, package: Package, s: Observed)
    requires RidsPresent(setup.baseline)
    ensures Run(setup, package, s).consulted
            == s.consulted + (MissedQueries(package, CompileStage, WalkedCompileAssets(setup, package))
                              + MissedQueries(package, RuntimeStage, setup.baseline.runtimeAssets)
                              + MissedQueries(package, RuntimeSpecificStage, setup.baseline.runtimeSpecificAssets))
  {
    var b := setup.baseline;
    var compile := WalkedCompileAssets(setup, package);
    var s1 := Walk(setup, package, CompileStage, s, compile);
    var s2 := Walk(setup, package, RuntimeStage, s1, b.runtimeAssets);
    var r := Walk(setup, package, RuntimeSpecificStage, s2, b.runtimeSpecificAssets);
    RunStages(setup, package, s);
    WalkConsults(setup, package, CompileStage, s, compile);
    WalkConsults(setup, package, RuntimeStage, s1, b.runtimeAssets);
    WalkConsults(setup, package, RuntimeSpecificStage, s2, b.runtimeSpecificAssets);
    ConcatThree(true, s.consulted, s1.consulted, s2.consulted, r.consulted,
                MissedQueries(package, CompileStage, compile),
                MissedQueries(package, RuntimeStage, b.runtimeAssets),
                MissedQueries(package, RuntimeSpecificStage, b.runtimeSpecificAssets));
  }

  /** The comparisons for the walked stages' matched assets, all three stages in stage order. */
  function RunMatchedRequests(setup: Setup, package: Package): seq<Request>
    requires RidsPresent(setup.baseline)
  {
    MatchedRequests(setup.baseline, package, CompileStage, WalkedCompileAssets(setup, package))
    + MatchedRequests(setup.baseline, package, RuntimeStage, setup.baseline.runtimeAssets)
    + MatchedRequests(setup.baseline, package, RuntimeSpecificStage, setup.baseline.runtimeSpecificAssets)
  }

  /**
   * Comparisons are queued for the matched assets of the walked stages, stage
   * by stage, in stage order, when API compat is on; none when it is off.
   */
  lemma RunQueues(setup: Setup, package: Package, s: Observed)
    requires RidsPresent(setup.baseline)
    ensures setup.runApiCompat ==> Run(setup, package, s).queue == s.queue + RunMatchedRequests(setup, package)
    ensures !setup.runApiCompat ==> Run(setup, package, s).queue == s.queue
  {
    var b := setup.baseline;
    var compile := WalkedCompileAssets(setup, package);
    var s1 := Walk(setup, package, CompileStage, s, compile);
    var s2 := Walk(setup, package, RuntimeStage, s1, b.runtimeAssets);
    var r := Walk(setup, package, RuntimeSpecificStage, s2, b.runtimeSpecificAssets);
    RunStages(setup, package, s);
    WalkQueues(setup, package, CompileStage, s, compile);
    WalkQueues(setup, package, RuntimeStage, s1, b.runtimeAssets);
    WalkQueues(setup, package, RuntimeSpecificStage, s2, b.runtimeSpecificAssets);
    ConcatThree(setup.runApiCompat, s.queue, s1.queue, s2.queue, r.queue,
                MatchedRequests(b, package, CompileStage, compile),
                MatchedRequests(b, package, RuntimeStage, b.runtimeAssets),
                MatchedRequests(b, package, RuntimeSpecificStage, b.runtimeSpecificAssets));
  }

  /** Three appends in a row, each made only when `on` holds. */
  lemma ConcatThree<T>(on: bool, q0: seq<T>, q1: seq<T>, q2: seq<T>, q3: seq<T>, m1: seq<T>, m2: seq<T>, m3: seq<T>)
    requires on ==> q1 == q0 + m1 && q2 == q1 + m2 && q3 == q2 + m3
    requires !on ==> q1 == q0 && q2 == q1 && q3 == q2
    ensures on ==> q3 == q0 + (m1 + m2 + m3)
    ensures !on ==> q3 == q0
  {
  }

  /** The queries for the walked stages' unmatched assets, all three stages in stage order. */
  function RunMissedQueries(setup: Setup, package: Package): seq<Query>
    requires RidsPresent(setup.baseline)
  {
    MissedQueries(package, CompileStage, WalkedCompileAssets(setup, package))
    + MissedQueries(package, RuntimeStage, setup.baseline.runtimeAssets)
    + MissedQueries(package, RuntimeSpecificStage, setup.baseline.runtimeSpecificAssets)
  }

  /** The errors of the walked stages' unmatched assets, all three stages in stage order. */
  function RunMissedErrors(setup: Setup, package: Package): (r: seq<LogError>)
    requires RidsPresent(setup.baseline)
    ensures |r| == |RunMissedQueries(setup, package)|
  {
    MissedErrors(package, CompileStage, WalkedCompileAssets(setup, package))
    + MissedErrors(package, RuntimeStage, setup.baseline.runtimeAssets)
    + MissedErrors(package, RuntimeSpecificStage, setup.baseline.runtimeSpecificAssets)
  }

  /**
   * Stage by stage, a run appends to the log the errors of each walked stage's
   * unmatched assets that the bag does not suppress, each stage's answers given
   * with every earlier query as history.
   */
  lemma RunLogsByStage(setup: Setup, package: Package, s: Observed)
    requires RidsPresent(setup.baseline)
    ensures var b, bag, compile := setup.baseline, setup.bag, WalkedCompileAssets(setup, package);
      var q1 := MissedQueries(package, CompileStage, compile);
      var q2 := MissedQueries(package, RuntimeStage, b.runtimeAssets);
      Run(setup, package, s).log
      == s.log + Unsuppressed(bag, s.consulted, q1, MissedErrors(package, CompileStage, compile))
               + Unsuppressed(bag, s.consulted + q1, q2, MissedErrors(package, RuntimeStage, b.runtimeAssets))
               + Unsuppressed(bag, s.consulted + q1 + q2, MissedQueries(package, RuntimeSpecificStage, b.runtimeSpecificAssets),
                              MissedErrors(package, RuntimeSpecificStage, b.runtimeSpecificAssets))
  {
    var b := setup.baseline;
    var compile := WalkedCompileAssets(setup, package);
    var s1 := Walk(setup, package, CompileStage, s, compile);
    var s2 := Walk(setup, package, RuntimeStage, s1, b.runtimeAssets);
    RunStages(setup, package, s);
    WalkLogs(setup, package, CompileStage, s, compile);
    WalkConsults(setup, package, CompileStage, s, compile);
    WalkLogs(setup, package, RuntimeStage, s1, b.runtimeAssets);
    WalkConsults(setup, package, RuntimeStage, s1, b.runtimeAssets);
    WalkLogs(setup, package, RuntimeSpecificStage, s2, b.runtimeSpecificAssets);
  }

  /**
   * A run appends to the log exactly the errors of the walked stages' unmatched
   * assets, in stage order, that the bag does not suppress; each answer is given
   * with every query before it, across stages.
   */
  lemma RunLogs(setup: Setup, package: Package, s: Observed)
    requires RidsPresent(setup.baseline)
    ensures Run(setup, package, s).log
            == s.log + Unsuppressed(setup.bag, s.consulted, RunMissedQueries(setup, package), RunMissedErrors(setup, package))
  {
    var b, compile := setup.baseline, WalkedCompileAssets(setup, package);
    var q1, e1 := MissedQueries(package, CompileStage, compile), MissedErrors(package, CompileStage, compile);
    var q2, e2 := MissedQueries(package, RuntimeStage, b.runtimeAssets), MissedErrors(package, RuntimeStage, b.runtimeAssets);
    var q3 := MissedQueries(package, RuntimeSpecificStage, b.runtimeSpecificAssets);
    var e3 := MissedErrors(package, RuntimeSpecificStage, b.runtimeSpecificAssets);
    assert RunMissedQueries(setup, package) == q1 + q2 + q3;
    assert RunMissedErrors(setup, package) == e1 + e2 + e3;
    RunLogsByStage(setup, package, s);
    UnsuppressedThree(setup.bag, s.consulted, q1, e1, q2, e2, q3, e3);
    ConcatAssoc(s.log, Unsuppressed(setup.bag, s.consulted, q1, e1), Unsuppressed(setup.bag, s.consulted + q1, q2, e2),
                Unsuppressed(setup.bag, s.consulted + q1 + q2, q3, e3));
  }

  lemma ConcatAssoc<T>(a: seq<T>, b: seq<T>, c: seq<T>, d: seq<T>)
    ensures a + b + c + d == a + (b + c + d)
  {
  }

  /** Three batches asked in a row, each with the earlier ones as history. */
  lemma UnsuppressedThree(bag: BagConfig, h: seq<Query>, q1: seq<Query>, e1: seq<LogError>,
                          q2: seq<Query>, e2: seq<LogError>, q3: seq<Query>, e3: seq<LogError>)
    requires |q1| == |e1| && |q2| == |e2| && |q3| == |e3|
    ensures Unsuppressed(bag, h, q1 + q2 + q3, e1 + e2 + e3)
            == Unsuppressed(bag, h, q1, e1) + Unsuppressed(bag, h + q1, q2, e2) + Unsuppressed(bag, h + q1 + q2, q3, e3)
  {
    var u12 := Unsuppressed(bag, h, q1 + q2, e1 + e2);
    var u3 := Unsuppressed(bag, h + q1 + q2, q3, e3);
    assert u12 == Unsuppressed(bag, h, q1, e1) + Unsuppressed(bag, h + q1, q2, e2) by {
      UnsuppressedAppend(bag, h, q1, e1, q2, e2);
    }
    assert Unsuppressed(bag, h, q1 + q2 + q3, e1 + e2 + e3) == u12 + u3 by {
      UnsuppressedAppend(bag, h, q1 + q2, e1 + e2, q3, e3);
      AppendAssoc(h, q1, q2);
    }
  }

  /** A run logs at most one error and queues at most one comparison per baseline asset it visits. */
  lemma RunBounds(setup: Setup, package: Package, s: Observed)
    requires RidsPresent(setup.baseline)
    ensures var r := Run(setup, package, s);
      && |s.log| <= |r.log| <= |s.log| + VisitedCount(setup, package)
      && |s.queue| <= |r.queue| <= |s.queue| + VisitedCount(setup, package)
  {
    var r := Run(setup, package, s);
    var b := setup.baseline;
    RunLogs(setup, package, s);
    RunQueues(setup, package, s);
    var m1 := MissedQueries(package, CompileStage, WalkedCompileAssets(setup, package));
    var m2 := MissedQueries(package, RuntimeStage, b.runtimeAssets);
    var m3 := MissedQueries(package, RuntimeSpecificStage, b.runtimeSpecificAssets);
    assert |RunMissedErrors(setup, package)| == |m1| + |m2| + |m3|;
    var q1 := MatchedRequests(b, package, CompileStage, WalkedCompileAssets(setup, package));
    var q2 := MatchedRequests(b, package, RuntimeStage, b.runtimeAssets);
    var q3 := MatchedRequests(b, package, RuntimeSpecificStage, b.runtimeSpecificAssets);
    assert |m1| + |q1| + |m2| + |q2| + |m3| + |q3| == VisitedCount(setup, package);
    assert |r.queue| <= |s.queue| + |q1| + |q2| + |q3|;
  }

  /** Every query of a run is under TargetFrameworkDropped, the runtime-specific stage's included. */
  lemma RunConsultsUnderTargetFrameworkDropped(setup: Setup, package: Package, s: Observed)
    requires RidsPresent(setup.baseline)
    ensures var r := Run(setup, package, s);
      forall k :: |s.consulted| <= k < |r.consulted| ==> r.consulted[k].kind == TargetFrameworkDropped
  {
    var r := Run(setup, package, s);
    var b := setup.baseline;
    RunConsults(setup, package, s);
    var m := MissedQueries(package, CompileStage, WalkedCompileAssets(setup, package))
             + MissedQueries(package, RuntimeStage, b.runtimeAssets)
             + MissedQueries(package, RuntimeSpecificStage, b.runtimeSpecificAssets);
    forall k | |s.consulted| <= k < |r.consulted|
      ensures r.consulted[k].kind == TargetFrameworkDropped
    {
      assert r.consulted[k] == m[k - |s.consulted|];
    }
  }

  /** A baseline asset that Validate walks and the new package does not match. */
  predicate Dropped(setup: Setup, package: Package, stage: Stage, i: int)
  {
    && Walked(package, stage)
    && 0 <= i < |BaselineAssets(setup.baseline, stage)|
    && Resolvable(stage, BaselineAssets(setup.baseline, stage))
    && FindBest(package, stage, BaselineAssets(setup.baseline, stage)[i]).None?
  }

  /** The walked baseline asset without a match that the `j`-th error of a run names. */
  lemma LoggedErrorSource(setup: Setup, package: Package, s: Observed, j: nat) returns (stage: Stage, i: nat)
    requires RidsPresent(setup.baseline)
    requires |s.log| <= j < |Run(setup, package, s).log|
    ensures Dropped(setup, package, stage, i)
    ensures Run(setup, package, s).log[j] == DroppedError(stage, BaselineAssets(setup.baseline, stage)[i])
  {
    var r := Run(setup, package, s);
    var b := setup.baseline;
    var compile := WalkedCompileAssets(setup, package);
    RunLogs(setup, package, s);
    var kept := Unsuppressed(setup.bag, s.consulted, RunMissedQueries(setup, package), RunMissedErrors(setup, package));
    UnsuppressedSubseq(setup.bag, s.consulted, RunMissedQueries(setup, package), RunMissedErrors(setup, package));
    SubseqBounds(kept, RunMissedErrors(setup, package));
    assert r.log[j] == kept[j - |s.log|];
    var e := r.log[j];
    assert e in RunMissedErrors(setup, package);
    if e in MissedErrors(package, CompileStage, compile) {
      stage := CompileStage;
      i := MissedErrorSource(package, CompileStage, compile, e);
      assert package.hasRefAssemblies && compile == b.compileAssets;
    } else if e in MissedErrors(package, RuntimeStage, b.runtimeAssets) {
      stage := RuntimeStage;
      i := MissedErrorSource(package, RuntimeStage, b.runtimeAssets, e);
    } else {
      assert e in MissedErrors(package, RuntimeSpecificStage, b.runtimeSpecificAssets);
      stage := RuntimeSpecificStage;
      i := MissedErrorSource(package, RuntimeSpecificStage, b.runtimeSpecificAssets, e);
    }
  }

  /** `e` is the error of a walked baseline asset without a match. */
  ghost predicate NamesDroppedAsset(setup: Setup, package: Package, e: LogError)
  {
    exists stage, i :: Dropped(setup, package, stage, i) && e == DroppedError(stage, BaselineAssets(setup.baseline, stage)[i])
  }

  /**
   * Every error of a run names a walked baseline asset without a match, under
   * TargetFrameworkAndRidPairDropped for a runtime-specific asset and
   * TargetFrameworkDropped otherwise.
   */
  lemma RunErrorsNameDroppedAssets(setup: Setup, package: Package, s: Observed)
    requires RidsPresent(setup.baseline)
    ensures forall j :: |s.log| <= j < |Run(setup, package, s).log| ==>
      NamesDroppedAsset(setup, package, Run(setup, package, s).log[j])
  {
    forall j | |s.log| <= j < |Run(setup, package, s).log|
      ensures NamesDroppedAsset(setup, package, Run(setup, package, s).log[j])
    {
      var stage, i := LoggedErrorSource(setup, package, s, j);
    }
  }

  /**
   * The claim of the validator's documentation: no target framework or rid
   * support of the baseline is dropped silently. For every baseline asset of a
   * stage that Validate walks, either the new package has no match and the bag
   * is asked about it (and the error is logged unless the bag suppressed it),
   * or there is a match and, with API compat on, its comparison is queued.
   */
  lemma NoTargetFrameworkDroppedSilently(setup: Setup, package: Package, s: Observed, stage: Stage, i: nat)
    requires RidsPresent(setup.baseline)
    requires Walked(package, stage) && i < |BaselineAssets(setup.baseline, stage)|
    ensures AccountedFor(setup, package, stage, s, Run(setup, package, s), BaselineAssets(setup.baseline, stage)[i])
  {
    var b := setup.baseline;
    var s1 := Walk(setup, package, CompileStage, s, WalkedCompileAssets(setup, package));
    var s2 := Walk(setup, package, RuntimeStage, s1, b.runtimeAssets);
    var r := Walk(setup, package, RuntimeSpecificStage, s2, b.runtimeSpecificAssets);
    RunStages(setup, package, s);
    WalkExtends(setup, package, CompileStage, s, WalkedCompileAssets(setup, package));
    WalkExtends(setup, package, RuntimeStage, s1, b.runtimeAssets);
    WalkExtends(setup, package, RuntimeSpecificStage, s2, b.runtimeSpecificAssets);
    var a := BaselineAssets(b, stage)[i];
    match stage
    case CompileStage =>
      WalkAccountsForAsset(setup, package, stage, s, b.compileAssets, i);
      ExtendsTransitive(s1, s2, r);
      AccountedForWidens(setup, package, stage, a, s, s, s1, r);
    case RuntimeStage =>
      WalkAccountsForAsset(setup, package, stage, s1, b.runtimeAssets, i);
      AccountedForWidens(setup, package, stage, a, s, s1, s2, r);
    case RuntimeSpecificStage =>
      WalkAccountsForAsset(setup, package, stage, s2, b.runtimeSpecificAssets, i);
      ExtendsTransitive(s, s1, s2);
      AccountedForWidens(setup, package, stage, a, s, s2, r, r);
  }

  lemma ExtendsTransitive(s: Observed, t: Observed, u: Observed)
    requires Extends(s, t) && Extends(t, u)
    ensures Extends(s, u)
  {
    assert u.log[..|s.log|] == t.log[..|s.log|];
    assert u.consulted[..|s.consulted|] == t.consulted[..|s.consulted|];
    assert u.queue[..|s.queue|] == t.queue[..|s.queue|];
  }

  // ---------------------------------------------------------------------------
  // The repository's scenario: a framework dropped in the latest version
  // ---------------------------------------------------------------------------

  const NetCoreApp31: string := ".NETCoreApp,Version=v3.1"
  const NetStandard20: string := ".NETStandard,Version=v2.0"
  const CoreAsset: Asset := Asset("ref/netcoreapp3.1/TestPackage.dll", NetCoreApp31, None)
  const StandardAsset: Asset := Asset("ref/netstandard2.0/TestPackage.dll", NetStandard20, None)

  /** Version 1.0.0 has compile assets for netcoreapp3.1 and netstandard2.0. */
  const PreviousPackage: Package :=
    Package("", "1.0.0", true, [CoreAsset, StandardAsset], [], [], _ => None, _ => None, (_, _) => None)

  /** Version 2.0.0 has a compile asset for netcoreapp3.1 only. */
  const LatestPackage: Package :=
    Package("", "2.0.0", true, [CoreAsset], [], [],
            tfm => if tfm == NetCoreApp31 then Some(CoreAsset) else None, _ => None, (_, _) => None)

  /**
   * With API compat off and any bag, validating 2.0.0 against 1.0.0 asks the
   * bag once, about .NETStandard,Version=v2.0 under PKV006, logs the PKV006
   * error for it exactly when the bag does not suppress it, and queues nothing.
   */
  lemma DroppedNetStandard(bag: BagConfig)
    ensures var q := Query("PKV006", NetStandard20);
      var r := Run(Setup(PreviousPackage, false, bag), LatestPackage, Observed([], [], []));
      && r.consulted == [q]
      && r.log == (if Suppresses(bag, [], q) then [] else [LogError("PKV006", Formatted(MissingTargetFramework, [NetStandard20]))])
      && r.queue == []
  {
    var setup := Setup(PreviousPackage, false, bag);
    var s0 := Observed([], [], []);
    assert NetStandard20 != NetCoreApp31 by {
      assert NetStandard20[4] != NetCoreApp31[4];
    }
    assert [CoreAsset, StandardAsset][..1] == [CoreAsset];
    assert [CoreAsset][..0] == [];
    assert Walk(setup, LatestPackage, CompileStage, s0, []) == s0;
    var afterCore := Walk(setup, LatestPackage, CompileStage, s0, [CoreAsset]);
    assert afterCore == Visit(setup, LatestPackage, CompileStage, s0, CoreAsset) == s0;
    var afterStd := Walk(setup, LatestPackage, CompileStage, s0, [CoreAsset, StandardAsset]);
    assert afterStd == Visit(setup, LatestPackage, CompileStage, afterCore, StandardAsset);
    assert FindBest(LatestPackage, CompileStage, StandardAsset) == None;
    assert Run(setup, LatestPackage, s0) == afterStd;
  }

  /**
   * The repository's test: noWarn is empty and nothing is suppressed, so the
   * only error is PKV006 for .NETStandard,Version=v2.0 and, with API compat
   * off, nothing is queued.
   */
  lemma TfmDroppedInLatestVersion()
    ensures var setup := Setup(PreviousPackage, false, BagConfig(NoWarnIds(Some("")), None, (_, _, _, _) => false));
      var r := Run(setup, LatestPackage, Observed([], [], []));
      && r.log == [LogError("PKV006", Formatted(MissingTargetFramework, [NetStandard20]))]
      && r.consulted == [Query("PKV006", NetStandard20)]
      && r.queue == []
  {
    DroppedNetStandard(BagConfig(NoWarnIds(Some("")), None, (_, _, _, _) => false));
  }

  /** A bag rule that suppresses every query whose kind is among the bag's noWarn identifiers. */
  const SuppressListed: FilterRule :=
    (ids: Option<seq<string>>, ignored: Option<seq<(string, string)>>, seen: seq<Query>, q: Query) =>
      ids.Some? && q.kind in ids.value

  /**
   * The same packages with noWarn "PKV006" and a bag that suppresses listed
   * codes: the bag is still asked about .NETStandard,Version=v2.0, but nothing
   * is logged and nothing is queued.
   */
  lemma TfmDroppedButSuppressed()
    ensures var setup := Setup(PreviousPackage, false, BagConfig(NoWarnIds(Some("PKV006")), None, SuppressListed));
      var r := Run(setup, LatestPackage, Observed([], [], []));
      && r.log == []
      && r.consulted == [Query("PKV006", NetStandard20)]
      && r.queue == []
  {
    NoWarnIdsOfOneCode("PKV006");
    DroppedNetStandard(BagConfig(NoWarnIds(Some("PKV006")), None, SuppressListed));
  }

  /** The same scenario driven through the validator object itself. */
  method TfmDroppedThroughValidator()
  {
    var validator := new BaselinePackageValidator(PreviousPackage, Some(""), None, false, (_, _, _, _) => false);
    validator.Validate(LatestPackage);
    TfmDroppedInLatestVersion();
    assert validator.log == [LogError("PKV006", Formatted(MissingTargetFramework, [NetStandard20]))];
    assert validator.apiCompatRunner.runs == [[]];
  }

  /** The suppressed scenario driven through the validator object: the bag records the query, the logger stays empty. */
  method TfmSuppressedThroughValidator()
  {
    var validator := new BaselinePackageValidator(PreviousPackage, Some("PKV006"), None, false, SuppressListed);
    validator.Validate(LatestPackage);
    TfmDroppedButSuppressed();
    assert validator.log == [];
    assert validator.diagnosticBag.consulted == [Query("PKV006", NetStandard20)];
  }
}
