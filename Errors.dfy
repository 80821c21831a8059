/**
 * The error values parsePingOutput can hand back. FindIndexNotFound,
 * ConvertWrongType and ParseSplitError are package-level error variables
 * declared outside pingResult.go; their texts are not part of this model, so
 * the strings below are stand-ins and nothing proved here depends on them
 * beyond their being non-empty. ParseOutputError is the fresh value built by
 * errors.New("Parse Output Error") at pingResult.go:55.
 */
module Errors {

  datatype GoError = FindIndexNotFound | ConvertWrongType | ParseSplitError | ParseOutputError

  /** The text err.Error() gives; never empty. */
  function ErrorText(e: GoError): (t: string)
    ensures t != []
  {
    match e
    case FindIndexNotFound => "find index not found"
    case ConvertWrongType => "convert wrong type"
    case ParseSplitError => "parse split error"
    case ParseOutputError => "Parse Output Error"
  }
}
