/**
  The GraphQL error formatter: it reduces an error to a message and an
  `extensions.code`, the message coming from the wrapped original error when
  there is one.
*/
module FormatError {
  import opened Wrappers

  /** The error a resolver threw, as carried in `extensions.originalError`. */
  datatype OriginalError = OriginalError(message: string)

  /**
    The `extensions` object of a formatted error: its `code`, its
    `originalError`, and every other entry under `rest`.
  */
  datatype Extensions = Extensions(
    code: Option<string>,
    originalError: Option<OriginalError>,
    rest: map<string, string>)

  datatype Location = Location(line: int, column: int)

  /** A `GraphQLFormattedError`; `locations`, `path` and `extensions` are optional. */
  datatype FormattedError = FormattedError(
    message: string,
    locations: Option<seq<Location>>,
    path: Option<seq<string>>,
    extensions: Option<Extensions>)

  /** `error.extensions?.originalError`. */
  function OriginalErrorOf(e: FormattedError): Option<OriginalError> {
    if e.extensions.Some? then e.extensions.value.originalError else None
  }

  /** `error.extensions?.code`. */
  function CodeOf(e: FormattedError): Option<string> {
    if e.extensions.Some? then e.extensions.value.code else None
  }

  /** The message a client may see: the original error's when one is wrapped, the error's own otherwise. */
  function SurfacedMessage(e: FormattedError): string {
    match OriginalErrorOf(e)
    case Some(original) => original.message
    case None => e.message
  }

  /** An error already in the reduced shape: a message and an extensions object carrying only a code. */
  predicate Normalized(f: FormattedError) {
    && f.locations == None
    && f.path == None
    && f.extensions.Some?
    && f.extensions.value.originalError == None
    && f.extensions.value.rest == map[]
  }

  /** `formatError`. */
  function Format(e: FormattedError): (r: FormattedError)
    ensures OriginalErrorOf(e).None? ==> r.message == e.message
    ensures OriginalErrorOf(e).Some? ==> r.message == OriginalErrorOf(e).value.message
    ensures CodeOf(r) == CodeOf(e)
    ensures Normalized(r)
  {
    var code := if e.extensions.Some? then e.extensions.value.code else None;
    match if e.extensions.Some? then e.extensions.value.originalError else None
    case None => FormattedError(e.message, None, None, Some(Extensions(code, None, map[])))
    case Some(original) => FormattedError(original.message, None, None, Some(Extensions(code, None, map[])))
  }

  /** Formatting twice is formatting once: the first result no longer wraps an original error. */
  lemma FormatIdempotent(e: FormattedError)
    ensures Format(Format(e)) == Format(e)
  {
  }

  /** The formatter leaves exactly the normalized errors as they are. */
  lemma FormatFixedPoints(f: FormattedError)
    ensures Format(f) == f <==> Normalized(f)
  {
  }

  /**
    Nothing but the surfaced message and the code survives formatting: two
    errors that agree on those format identically, whatever locations, path,
    wrapped error or other extension entries they carry.
  */
  lemma FormatHidesInternals(e1: FormattedError, e2: FormattedError)
    requires SurfacedMessage(e1) == SurfacedMessage(e2)
    requires CodeOf(e1) == CodeOf(e2)
    ensures Format(e1) == Format(e2)
  {
  }
}
