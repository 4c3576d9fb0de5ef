# nocloud-metadata-server: a Dafny model of config.go

nocloud-metadata-server answers cloud-init NoCloud requests over HTTP. A
YAML configuration lists routing rules (`serverConfigs`). Each rule has
regular-expression match patterns, an `instanceConfig` that says how to build
the metadata record, and optionally a named user-data template with
replacements merged over it.

config.go does three main jobs:
- it loads and validates that configuration, and reloads it so that a bad
  file leaves the installed one in place;
- it routes each request to the first rule whose patterns match its path;
- the rule answers for the last path segment: `meta-data` gives a freshly
  rendered record, `user-data` gives the pre-rendered user data, and
  `vendor-data` gives an empty body.

The model follows the source's own structure:

- `Hex` (hex.dfy): `hex.EncodeToString` and its inverse, used for the random
  suffix.
- `Paths` (paths.dfy): `strings.Split(path, "/")` and the two segments the
  handler reads from it.
- `Externals` (externals.dfy): the collaborators config.go calls but does not
  define.
  - The regular-expression engine, `yaml.Marshal` (which may fail) and
    koanf's copy-and-merge are fields of an `Env` value: total functions about
    which nothing is assumed.
  - `crypto/rand` is an `Entropy` input: either unavailable, or a stream of
    bytes.
- `Metadata` (metadata.dfy): `instanceConfig`, `instanceConfig.validate`,
  `genSuffix` and `RenderMetaData`. These are pure, so they are functions.
- `Rules` (rules.dfy): `serverConfig` as a class.
  - Its declared fields are constants.
  - `compiledMatchers` and `renderedUserData` are updated in place.
  - `LoadMatchers` is a loop that appends to `compiledMatchers`.
  - `Match` is a read-only loop.
  - The function `ServeHTTP` does the segment dispatch.
  - `RuleError`, `RenderUserData` and `StepRule` say what one pass of
    validate's loop body returns and leaves behind on a rule.
- `Configs` (configs.dfy): `config` as a class.
  - It covers validate (the loop is `ValidateRules`, the loop body
    `ValidateRule`), reload, `loadConfig` and first-match routing.
  - The functions `FailingRule`, `ValidationResult`, `ReloadOutcome` and
    `FirstMatch` are the specifications these methods are proved against.

Reading and parsing the file are collapsed into a `Source` input:
- `Unreadable` is the `os.ReadFile` error;
- `Malformed` is the `yaml.Unmarshal` error;
- `Parsed(decl)` carries the declared fields.

`yaml.Unmarshal` into a fresh `config` is the constructor `Config.FromDecl`. It
allocates one fresh `ServerConfig` per declared rule, with empty derived state.

## Model

| member | source | states |
|---|---|---|
| Hex.Encode | config.go:219 | the encoding has two lowercase hex digits per byte, high nibble first, digit 2i and 2i+1 being byte i's nibbles |
| Hex.DecodeEncode | config.go:219 | decoding the hex encoding of any byte string gives it back |
| Hex.EncodeDecode | config.go:219 | every string the decoder accepts is the encoding of what it decodes to |
| Hex.DigitValue | config.go:219 | each lowercase hex digit has a value below 16 that encodes back to it |
| Paths.Split | config.go:168 | splitting on '/' gives one more piece than there are slashes, none containing a slash |
| Paths.JoinSplit | config.go:168 | joining the pieces with '/' restores the path |
| Paths.SplitJoin | config.go:168 | splitting a join of slash-free pieces gives those pieces back |
| Paths.SlashesCount | config.go:168-171 | there is a second-to-last piece exactly when the path contains a slash |
| Paths.SplitLastIsTail | config.go:168-169 | the last piece of the split is a tail of the path, preceded by a slash when it is shorter than the path |
| Paths.SplitSnoc | config.go:168 | splitting front + "/" + a slash-free last piece gives the pieces of front followed by that piece |
| Paths.LastSegment | config.go:169 | the switch value is the slash-free text after the path's last slash, or the whole path when it has none |
| Paths.SerialSegment | config.go:171 | the serial exists when the path has a slash, and is the last segment of what precedes the last slash |
| Paths.SegmentsOfShort | config.go:168-171 | for serial/last with slash-free pieces (so "/meta-data" has serial ""), the switch value is last and the serial is serial |
| Paths.SegmentsOf | config.go:168-171 | for prefix/serial/last with slash-free serial and last, the switch value is last and the serial is serial |
| Metadata.ValidateInstanceConfig | config.go:222-227 | fails exactly when the hostname is empty, and then with the hostname error |
| Metadata.SuffixLength | config.go:211-214 | a positive size is used as is; zero or negative becomes 4 |
| Metadata.RandomBytes | config.go:215-216 | reading fails exactly when the random source is unavailable; otherwise n bytes, the first n of the stream |
| Metadata.GenSuffix | config.go:211-220 | fails exactly when the random source is unavailable (read error); otherwise a dash and 2·n lowercase hex digits that decode to the bytes read |
| Metadata.BuildMetaData | config.go:187-207 | fails exactly when a suffix flag is set and randomness is unavailable; otherwise instance-id is "i-"+serial and both hostnames are the configured hostname, each with a well-formed suffix exactly when its flag is set, that suffix being the one genSuffix returns for the bytes read, the same in both, local-hostname equal to hostname |
| Metadata.RenderMetaData | config.go:187-209 | fails exactly when the suffix cannot be generated (read error) or the record does not serialise (marshal error); on success the bytes are the serialised record |
| Metadata.NoFlagsIgnoresEntropy | config.go:193-200 | with neither flag set the random source is never consulted and the record is "i-"+serial, hostname, hostname |
| Metadata.SuffixSharedAndFromEntropy | config.go:193-207 | with both flags set, hostname, local-hostname and instance-id all end in the one suffix "-" + hex of the bytes read |
| Rules.CompilePrefix | config.go:148-154 | the matchers appended are the patterns in order up to the first that does not compile, which is named |
| Rules.MatchersError | config.go:144-156 | no patterns gives the no-matchers error; no error exactly when there are patterns and all compile; otherwise the first failing pattern is named |
| Rules.CompileAll | config.go:148-155 | when loadMatchers succeeds there is exactly one matcher per pattern, in order |
| Rules.RenderUserData | config.go:86-97 | nothing is rendered exactly when the template name is not a key of the templates; rendered bytes are what yaml.Marshal returns for the template, merged with the replacements when there are some; with a resolved template, rendering fails exactly when that document does not serialise |
| Rules.RuleError | config.go:74-97 | a rule passes exactly when its patterns all compile, it has an instanceConfig with a hostname, it has no replacements without a template, and its user data serialises; a failing rule gets the error of the first check it fails, in the order matchers, missing instanceConfig, empty hostname, replacements without a template, user-data render |
| Rules.StepRuleAppends | config.go:74-97 | one pass of the loop body keeps the rule's existing matchers and appends matchers for a prefix of its patterns in order; the user data is left alone when a check fails or the template is not found |
| Rules.StepGoodRule | config.go:73-97 | on a rule that passes, one matcher per pattern is appended and the user data is the serialised template, merged with the replacements when there are some, or left alone when the template is not found |
| Rules.ServerConfig.constructor | config.go:28-37 | a rule fresh from parsing has its declared fields and no derived state |
| Rules.ServerConfig.LoadMatchers | config.go:144-156 | returns MatchersError and appends exactly CompilePrefix to the existing matchers |
| Rules.ServerConfig.Match | config.go:158-165 | true exactly when some compiled matcher matches the string |
| Rules.ServerConfig.ServeHTTP | config.go:167-185 | not found exactly for a last segment other than meta-data, user-data and vendor-data; meta-data renders the metadata for the serial segment, a render error giving an internal error; user-data returns the rendered bytes; vendor-data returns an empty body |
| Rules.MetaDataUsesSerial | config.go:168-177 | a request for prefix/serial/meta-data renders the metadata for serial, a render error giving an internal error |
| Rules.ShortMetaData | config.go:168-177 | a request for serial/meta-data, such as /meta-data with the empty serial, renders the metadata for serial |
| Rules.UserDataVerbatim | config.go:178-179 | a request for prefix/serial/user-data returns the rendered user data |
| Configs.DefaultedAddress | config.go:99-101 | an unset address becomes 0.0.0.0 (defaultListenAddress, line 53) and a set address is kept |
| Configs.DefaultedPort | config.go:102-104 | a zero port becomes 8000 (defaultListenPort, line 54) and any other port is kept |
| Configs.FailingRule | config.go:73-98 | names a rule that fails a check with every earlier rule passing, or none when all pass |
| Configs.FirstFailure | config.go:73-98 | a failing rule preceded only by passing ones is the one validation stops at |
| Configs.NoFailure | config.go:73-98 | when every rule passes, validation stops at none |
| Configs.ValidationResult | config.go:70-98 | no rules gives the no-serving-configurations error naming the path; no error exactly when there are rules and every rule passes its checks |
| Configs.ValidationFailsIff | config.go:67-106 | validation succeeds exactly when there are rules and each passes; no rules gives the no-serving-configurations error with the path; otherwise the error is the first failing rule's first failing check |
| Configs.ValidatedRulesHaveInstanceConfig | config.go:74-82 | after a successful validation every rule has match patterns and an instanceConfig |
| Configs.ValidateRule | config.go:74-97 | the loop body returns the rule's RuleError and leaves its derived state as StepRule says |
| Configs.ValidateRules | config.go:73-98 | returns the first failing rule's error; every rule up to and including it is stepped, every later one unchanged |
| Configs.Config.Validate | config.go:67-106 | the error is ValidationResult; reached rules are stepped and the rest are untouched; the address and port defaults are applied only on success |
| Configs.Prepare | config.go:115-121 | a fresh config with an empty path, built from the declaration and validated; on success it is installed as reload promises |
| Configs.ReloadOutcome | config.go:111-121 | an unreadable file gives the read error and a malformed one the parse error; a parsed one with no rules gives the validation error naming the empty path; no error exactly when the file parses, has rules, and every rule passes |
| Configs.Config.Reload | config.go:108-127 | read, parse and validation errors in that order; on any error the four public fields are unchanged; on success they are the new declaration's, with defaults applied and every rule validated from scratch |
| Configs.LoadConfig | config.go:58-65 | no config exactly when reload fails; otherwise a fresh config for the path, installed from the source |
| Configs.FirstMatch | config.go:133-141 | the first rule in declared order that matches, or none exactly when no rule matches |
| Configs.EarlierRuleWins | config.go:133-138 | a matching rule is never passed over for a later one |
| Configs.Config.ServeHTTP | config.go:130-142 | the answer is the first matching rule's answer, or not found when no rule matches |
| Configs.Config.Empty | config.go:59 | loadConfig's config has only its path set, with no rules, templates, address or port |
| Configs.Config.FromDecl | config.go:115-116 | parsing builds distinct fresh rule objects with the declared fields and empty derived state |

## Left out

- Locking (`sync.RWMutex`) and concurrency are not modelled. Every operation runs to completion alone.
- main.go (flag handling, the HTTP listener, the reload signal loop) is not part of this model.
- File reading and `yaml.Unmarshal`: these are collapsed into the `Source` input. The text of each error is not modelled, only which error it is.
- The semantics of Go regular expressions, of `yaml.Marshal` and of koanf's `maps.Copy`/`maps.Merge` are not modelled. They are uninterpreted functions in `Env`.
- A YAML mapping is an unordered map, so the field order `yaml.Marshal` sees for the metaData struct is not modelled.
- The deep copy of the template is not modelled. It is a value, and the templates are never changed.
- Logging and the `http.ResponseWriter` details are not modelled. A response is `Ok(body)`, `NotFound` or `InternalError` with the failing step.
- `nil` entries in `ServerConfigs` are not modelled: every rule is an object.
- Configs.Config.Validate assumes that no two list entries are the same object (`Distinct`), as yaml.Unmarshal allocates each entry afresh. Aliased entries are not modelled.
- Configs.Config.ServeHTTP requires what the Go code would otherwise panic on: when a rule answers a meta-data request, the path contains a slash and that rule has an instanceConfig.
- Each validation error carries the rule's name only where config.go puts it in the message: matcher errors and a missing instanceConfig. The other per-rule errors say only which check failed.
- Rules.RenderUserData ties the rendered bytes to the merge function's output, which is uninterpreted, so nothing is said about which keys the merged document holds.
