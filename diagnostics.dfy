/**
 * Diagnostic identifiers, the `noWarn` filtering done by the validator's
 * constructor, and the diagnostic bag the validator consults before it
 * reports a dropped framework.
 */
module Diagnostics {
  import opened Wrappers

  /** DiagnosticIds.TargetFrameworkDropped. */
  const TargetFrameworkDropped: string := "PKV006"
  /** DiagnosticIds.TargetFrameworkAndRidPairDropped. */
  const TargetFrameworkAndRidPairDropped: string := "PKV007"

  /** The only codes the validator passes on to its diagnostic bag (s_diagList). */
  const CoverageIds: set<string> := {TargetFrameworkDropped, TargetFrameworkAndRidPairDropped}

  /** One question put to the diagnostic bag: may a diagnostic of this kind and qualifier be reported? */
  datatype Query = Query(kind: string, qualifier: string)

  // ---------------------------------------------------------------------------
  // The constructor's noWarn filtering: split on ';', keep the coverage codes
  // ---------------------------------------------------------------------------

  /** string.Split(sep): every separator ends a token; empty tokens are kept. */
  function Split(s: string, sep: char): (r: seq<string>)
    ensures |r| >= 1
    decreases |s|
  {
    if |s| == 0 then [""]
    else
      var rest := Split(s[1..], sep);
      if s[0] == sep then [""] + rest
      else [[s[0]] + rest[0]] + rest[1..]
  }

  /** string.Join(sep, parts). */
  function Join(parts: seq<string>, sep: char): string
    requires |parts| >= 1
    decreases |parts|
  {
    if |parts| == 1 then parts[0] else parts[0] + [sep] + Join(parts[1..], sep)
  }

  /** No token of a split holds the separator. */
  lemma {:induction false} SplitTokensHaveNoSeparator(s: string, sep: char)
    ensures forall i :: 0 <= i < |Split(s, sep)| ==> sep !in Split(s, sep)[i]
    decreases |s|
  {
    if |s| > 0 {
      SplitTokensHaveNoSeparator(s[1..], sep);
      var rest := Split(s[1..], sep);
      if s[0] != sep {
        assert forall i :: 1 <= i < |rest| ==> Split(s, sep)[i] == rest[i];
      }
    }
  }

  /** Joining the tokens again gives back the string that was split. */
  lemma {:induction false} JoinSplit(s: string, sep: char)
    ensures Join(Split(s, sep), sep) == s
    decreases |s|
  {
    if |s| > 0 {
      JoinSplit(s[1..], sep);
      var rest := Split(s[1..], sep);
      if s[0] == sep {
        assert Split(s, sep)[1..] == rest;
      } else if |rest| == 1 {
        assert Split(s, sep) == [[s[0]] + rest[0]];
      } else {
        assert Split(s, sep)[1..] == rest[1..];
        assert [s[0]] + Join(rest, sep) == [s[0]] + (rest[0] + [sep] + Join(rest[1..], sep));
      }
    }
  }

  /** Splitting a join of separator-free tokens gives back the tokens. */
  lemma {:induction false} SplitJoin(parts: seq<string>, sep: char)
    requires |parts| >= 1
    requires forall i :: 0 <= i < |parts| ==> sep !in parts[i]
    ensures Split(Join(parts, sep), sep) == parts
    decreases |parts|
  {
    if |parts| == 1 {
      SplitWithoutSeparator(parts[0], sep);
    } else {
      SplitJoin(parts[1..], sep);
      SplitThroughToken(parts[0], Join(parts[1..], sep), sep);
      assert Join(parts, sep) == parts[0] + ([sep] + Join(parts[1..], sep));
      assert [parts[0]] + parts[1..] == parts;
    }
  }

  /** A string without the separator splits into itself alone. */
  lemma {:induction false} SplitWithoutSeparator(t: string, sep: char)
    requires sep !in t
    ensures Split(t, sep) == [t]
    decreases |t|
  {
    if |t| > 0 {
      assert sep !in t[1..] by {
        forall k | 0 <= k < |t[1..]| ensures t[1..][k] != sep {
          assert t[1..][k] == t[k + 1];
        }
      }
      SplitWithoutSeparator(t[1..], sep);
      assert [t[0]] + t[1..] == t;
    }
  }

  /** A separator-free token followed by a separator ends the first token there. */
  lemma {:induction false} SplitThroughToken(t: string, rest: string, sep: char)
    requires sep !in t
    ensures Split(t + [sep] + rest, sep) == [t] + Split(rest, sep)
    decreases |t|
  {
    var s := t + [sep] + rest;
    if |t| == 0 {
      assert s[1..] == rest;
    } else {
      assert sep !in t[1..] by {
        forall k | 0 <= k < |t[1..]| ensures t[1..][k] != sep {
          assert t[1..][k] == t[k + 1];
        }
      }
      SplitThroughToken(t[1..], rest, sep);
      assert s[1..] == t[1..] + [sep] + rest;
      assert [t[0]] + t[1..] == t;
    }
  }

  /** The Where(t => s_diagList.Contains(t)) step: keeps the coverage codes, in order. */
  function KeepCoverageIds(tokens: seq<string>): (r: seq<string>)
    ensures |r| <= |tokens|
    ensures forall t :: t in r <==> t in tokens && t in CoverageIds
    decreases |tokens|
  {
    if |tokens| == 0 then []
    else
      var kept := KeepCoverageIds(tokens[..|tokens| - 1]);
      var last := tokens[|tokens| - 1];
      assert tokens == tokens[..|tokens| - 1] + [last];
      if last in CoverageIds then kept + [last] else kept
  }

  /** Filtering a concatenation filters each part; with the singleton case this fixes the order. */
  lemma {:induction false} KeepCoverageIdsDistributes(a: seq<string>, b: seq<string>)
    ensures KeepCoverageIds(a + b) == KeepCoverageIds(a) + KeepCoverageIds(b)
    decreases |b|
  {
    if |b| == 0 {
      assert a + b == a;
    } else {
      var b' := b[..|b| - 1];
      var last := b[|b| - 1];
      KeepCoverageIdsDistributes(a, b');
      assert b == b' + [last];
      assert a + b == (a + b') + [last];
      KeepCoverageIdsSnoc(b', last);
      KeepCoverageIdsSnoc(a + b', last);
      ConcatSnoc(KeepCoverageIds(a + b), KeepCoverageIds(a + b'), KeepCoverageIds(a),
                 KeepCoverageIds(b), KeepCoverageIds(b'), if last in CoverageIds then [last] else []);
    }
  }

  /** Appending the same tail to a concatenation's last part. */
  lemma ConcatSnoc<T>(whole: seq<T>, whole': seq<T>, front: seq<T>, back: seq<T>, back': seq<T>, tail: seq<T>)
    requires whole' == front + back' && back == back' + tail && whole == whole' + tail
    ensures whole == front + back
  {
  }

  /** One more token is kept exactly when it is a coverage code. */
  lemma KeepCoverageIdsSnoc(tokens: seq<string>, t: string)
    ensures KeepCoverageIds(tokens + [t]) == KeepCoverageIds(tokens) + (if t in CoverageIds then [t] else [])
  {
    var s := tokens + [t];
    assert s[..|s| - 1] == tokens;
  }

  /**
   * The identifiers the constructor hands to its diagnostic bag: None when
   * noWarn is null, otherwise the `;`-separated tokens that are coverage codes.
   */
  function NoWarnIds(noWarn: Option<string>): Option<seq<string>>
  {
    match noWarn
    case None => None
    case Some(s) => Some(KeepCoverageIds(Split(s, ';')))
  }

  /** Only coverage codes reach the bag, and every coverage code listed in noWarn does. */
  lemma NoWarnIdsKeepsCoverageCodes(noWarn: string)
    ensures NoWarnIds(Some(noWarn)).Some?
    ensures forall t :: t in NoWarnIds(Some(noWarn)).value <==> t in Split(noWarn, ';') && t in CoverageIds
    ensures forall t :: t in NoWarnIds(Some(noWarn)).value ==> ';' !in t
  {
    SplitTokensHaveNoSeparator(noWarn, ';');
  }

  /** A noWarn holding one code and no separator hands the bag that code if it is a coverage code, and nothing otherwise. */
  lemma NoWarnIdsOfOneCode(code: string)
    requires ';' !in code
    ensures NoWarnIds(Some(code)) == Some(if code in CoverageIds then [code] else [])
  {
    SplitWithoutSeparator(code, ';');
    KeepCoverageIdsSnoc([], code);
    assert [] + [code] == [code];
  }

  // ---------------------------------------------------------------------------
  // DiagnosticBag
  // ---------------------------------------------------------------------------

  /**
   * How a diagnostic bag decides whether to suppress a diagnostic: from the
   * noWarn identifiers and ignored differences it was built with, the queries
   * it has answered before, and the new query. The bag's own matching and
   * de-duplication are not part of this model; whatever they are, they are a
   * function of these four.
   */
  type FilterRule = (Option<seq<string>>, Option<seq<(string, string)>>, seq<Query>, Query) -> bool

  datatype BagConfig = BagConfig(
    noWarn: Option<seq<string>>,
    ignoredDifferences: Option<seq<(string, string)>>,
    rule: FilterRule)

  /** The bag's answer to `q` after it has answered `seen`: true means "do not report". */
  function Suppresses(config: BagConfig, seen: seq<Query>, q: Query): bool
  {
    config.rule(config.noWarn, config.ignoredDifferences, seen, q)
  }

  class DiagnosticBag {
    const config: BagConfig
    /** Every query the bag has answered, oldest first. */
    var consulted: seq<Query>

    constructor (noWarn: Option<seq<string>>, ignoredDifferences: Option<seq<(string, string)>>, rule: FilterRule)
      ensures config == BagConfig(noWarn, ignoredDifferences, rule)
      ensures consulted == []
    {
      config := BagConfig(noWarn, ignoredDifferences, rule);
      consulted := [];
    }

    /** DiagnosticBag.Filter(kind, qualifier). */
    method Filter(kind: string, qualifier: string) returns (suppressed: bool)
      modifies this
      ensures suppressed == Suppresses(config, old(consulted), Query(kind, qualifier))
      ensures consulted == old(consulted) + [Query(kind, qualifier)]
    {
      suppressed := Suppresses(config, consulted, Query(kind, qualifier));
      consulted := consulted + [Query(kind, qualifier)];
    }
  }
}
