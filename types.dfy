/** Values exchanged by the validation pipeline: the request and result
    records of validateInterface.go, the parts of the validation service's
    violation record that the pipeline reads, and the abstract libraries
    (regular expressions, base64) that the core calls. */
module Types {

  datatype Option<+T> = None | Some(value: T)

  datatype Result<+T, +E> = Success(value: T) | Failure(error: E)

  /** Identity of the manifest resource a violation is about. */
  datatype ResourceKey = ResourceKey(group: string, kind: string, name: string, version: string)

  /** One finding of the validation service. `resourceKey == None` stands
      for a nil key pointer. */
  datatype Violation = Violation(policyName: string, message: string, resourceKey: Option<ResourceKey>)

  /** A `*Violation` where the source accepts a nil pointer: `None` is nil. */
  type ViolationRef = Option<Violation>

  /** The standard base64 encoding (padded alphabet) of `raw`, kept symbolic:
      only its length is observable, through EncodedLen. */
  datatype Base64 = Base64Of(raw: string)

  /** The payload of one validation request. */
  datatype Content = Content(contentType: string, data: Base64)

  /** A named payload queued for submission. */
  datatype RequestObject = RequestObject(content: Content, resourceName: string)

  /** A resource's logical name with the violations found for it. */
  datatype ResultObject = ResultObject(violations: seq<Violation>, resourceName: string)

  /** Length of the standard base64 encoding of `n` bytes: four characters
      per started group of three bytes. */
  function EncodedLen(n: nat): (len: nat)
    ensures len % 4 == 0
    ensures 3 * len >= 4 * n && 3 * len < 4 * n + 12
  {
    (n + 2) / 3 * 4
  }

  /** The regular-expression library, kept abstract: whether a pattern
      compiles and whether a compiled pattern matches a string. */
  datatype RegexEngine = RegexEngine(compiles: string -> bool, matches: (string, string) -> bool) {
    /** regexp.MatchString: compile, then match; a pattern that does not
        compile yields an error, which callers treat as no match. */
    predicate MatchString(pattern: string, s: string)
    {
      compiles(pattern) && matches(pattern, s)
    }
  }
}
