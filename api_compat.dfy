/**
 * The API compatibility runner as far as the baseline validator uses it:
 * comparison requests are queued during validation and the batch is handed
 * over once at the end. The comparison itself is not part of this model.
 */
module ApiCompat {
  import opened Wrappers
  import opened Resources

  /** The arguments of one QueueApiCompat call. */
  datatype Request = Request(
    leftPackagePath: string,
    leftAssetPath: string,
    rightPackagePath: string,
    rightAssetPath: string,
    displayName: Text,
    title: Text,
    header: Text)

  class ApiCompatRunner {
    /** The noWarn string as given to the validator, unfiltered. */
    const noWarn: Option<string>
    const ignoredDifferences: Option<seq<(string, string)>>
    /** The requests queued so far, oldest first. */
    var queue: seq<Request>
    /** The batch that each RunApiCompat call was asked to run, oldest first. */
    var runs: seq<seq<Request>>

    constructor (noWarn: Option<string>, ignoredDifferences: Option<seq<(string, string)>>)
      ensures this.noWarn == noWarn && this.ignoredDifferences == ignoredDifferences
      ensures queue == [] && runs == []
    {
      this.noWarn := noWarn;
      this.ignoredDifferences := ignoredDifferences;
      queue := [];
      runs := [];
    }

    method QueueApiCompat(leftPackagePath: string, leftAssetPath: string,
                          rightPackagePath: string, rightAssetPath: string,
                          displayName: Text, title: Text, header: Text)
      modifies this
      ensures queue == old(queue) + [Request(leftPackagePath, leftAssetPath, rightPackagePath, rightAssetPath, displayName, title, header)]
      ensures runs == old(runs)
    {
      queue := queue + [Request(leftPackagePath, leftAssetPath, rightPackagePath, rightAssetPath, displayName, title, header)];
    }

    method RunApiCompat()
      modifies this
      ensures runs == old(runs) + [old(queue)]
      ensures queue == old(queue)
    {
      runs := runs + [queue];
    }
  }
}
