/**
 * Text the validator hands to its logger and to the API compatibility runner.
 * The strings in the resource file are not part of this model, so a text is
 * kept as the resource it is formatted from together with its arguments.
 */
module Resources {

  /** The entries of the resource file that the baseline validator reads. */
  datatype ResourceId =
    | MissingTargetFramework
    | MissingTargetFrameworkAndRid
    | BaselineVersionValidatorHeader
    | ApiCompatibilityBaselineHeader

  datatype Text =
    | Resource(id: ResourceId)                         // a resource string used as is
    | Formatted(format: ResourceId, args: seq<string>) // string.Format(resource, args...)
    | FileNameOf(path: string)                         // Path.GetFileName(path)
}
