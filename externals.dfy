/**
 * The collaborators config.go calls but does not define, kept abstract:
 * the regular-expression engine, the YAML serialiser, koanf's map merge and
 * the operating system's random source. Each is a total function value, so
 * nothing is assumed about it beyond its type.
 */
module Externals {
  import opened Wrappers
  import opened Hex

  /** A YAML value: a scalar, a sequence or a mapping. */
  datatype Value =
    | Scalar(text: string)
    | List(items: seq<Value>)
    | Mapping(fields: map<string, Value>)

  /** A YAML mapping at the top level, Go's map[string]any. */
  type Document = map<string, Value>

  /** A compiled pattern, the *regexp.Regexp that regexp.Compile returns for expr. */
  datatype Regexp = Regexp(expr: string)

  datatype Env = Env(
    /** regexp.Compile(p) returns no error */
    compiles: string -> bool,
    /** re.MatchString(s) for the regexp compiled from the first argument */
    matches: (string, string) -> bool,
    /** maps.Copy(template) followed by maps.Merge(replacements, copy) */
    mergeOverlay: (Document, Document) -> Document,
    /** yaml.Marshal, which may fail */
    marshal: Document -> Option<seq<byte>>)

  /** crypto/rand: either it fails, or it yields a stream of bytes. */
  datatype Entropy = Unavailable | Stream(next: nat -> byte)
}
