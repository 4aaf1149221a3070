# x-request-id-middleware: request-id logging, modelled in Dafny

The library keeps one request id per request in a context variable, reports it
to the error tracker, and makes the standard `logging` package print it. This
project models that logic and proves what it promises. It covers
`x_request_id_middleware/logging_config.py` and `x_request_id_middleware/common.py`.

- `wrappers.dfy` (module `Wrappers`): `Option`, standing for Python's `Optional[...]`.
- `template.dfy` (module `Template`): the two templates that
  `OptionalXRequestIDFormatter` derives from a format string.
  - The regular expression `\[\s*%\(\w+\)s\s*\]` becomes an explicit matcher at one position (`MatchToken`).
  - `re.sub` becomes a left-to-right, non-overlapping scan that rewrites every match (`Sub`).
  - `str.strip`, `re.sub(r"\s+", " ", ...)` and the substring test `in` are written out too.
  - The shape of each result is proved against independent definitions:
    - the token layout `TokenParts.Spelling`;
    - positional occurrence `OccursAt`;
    - `" ".join(s.split())`.
- `pylogging.dfy` (module `PyLogging`): the part of the standard `logging` package the library changes.
  - Classes: records, formatters, handlers, filters, loggers, and the manager behind `logging.getLogger`.
  - `addHandler` and `addFilter` append an object only if it is not already in the list, as Python's do.
- `common.dfy` (module `Common`):
  - the request-id context cell and `set_request_id`;
  - the error-tracker tag, written only when a client is bound;
  - `generate_request_id` as the text of a version-4 UUID of RFC 4122;
  - `RequestIDLogFilter`;
  - the root-logger `configure_logging`.
- `loggingconfig.dfy` (module `LoggingConfig`):
  - `OptionalXRequestIDFormatter`, whose `format` switches the active template;
  - `XRequestIDLogFilter`;
  - `XRequestIDConfigLogging` with `run` and `configure_logging`.

Python's `logging.Formatter` base class is modelled as a separate `Formatter`
object, `OptionalXRequestIdFormatter.base`, by composition. Its `template`
field is the formatter's `_style._fmt`. Handlers point at that object, so
`format` switching the template is visible to every handler that uses the
formatter.

`run` calls `logging.getLogger` only on names already in `loggerDict`.
`logging.getLogger` answers the names `""` and `"root"` with the root logger,
and the registry never holds these two names (`LoggerRegistry.Valid`). For any
other registered name, `PyLogging.LoggerRegistry.GetLogger` returns the
registered logger and changes nothing. So `Run` reads each logger from the
registry's map directly and leaves the registry itself untouched.

The model follows the code where the code does something other than its
docstrings say, or other than one might expect:

- The docstring of `_fmt_with_request_id` (logging_config.py:43-46) says a
  given format gets the request id field appended. The code appends it only
  when the substring `request_id` does not occur. When it does occur, `re.sub`
  with no count (logging_config.py:53) rewrites every bracket token, not just
  the first one, and not only a token naming `request_id`.
  `Template.SubRewritesEveryToken` shows two tokens both rewritten.
- The docstring of `_fmt_without_request_id` (logging_config.py:66-67) says a
  given format is returned as it is. The code deletes every bracket token,
  strips the ends and collapses every whitespace run to one space
  (logging_config.py:72-74), even in a format that has no bracket token; see
  `Template.WithoutRequestIdOfTokenFree`.
- The same docstring promises a format without the request id
  (logging_config.py:70). An unbracketed `%(request_id)s` survives, so the
  model does not claim this.
- Deriving the templates is not idempotent, and the model claims no
  idempotence: `[[%(a)s]%(b)s]` loses one token per pass.
- Configuring a logger twice is not idempotent either. The second call adds
  no second stream handler, but it adds one more filter
  (`LoggingConfig.ConfigureTwice`).

## Model

| member | source | states |
|---|---|---|
| Template.MatchToken | x_request_id_middleware/logging_config.py:53 | the pattern `\[\s*%\(\w+\)s\s*\]` tried at the start of the string; `MatchTokenSound` and `MatchTokenComplete` show it finds exactly the well-formed tokens |
| Template.MatchTokenSound | x_request_id_middleware/logging_config.py:53 | a match of the token pattern is a well-formed token (whitespace, one or more word characters, whitespace) spelled at the start of the string |
| Template.MatchTokenComplete | x_request_id_middleware/logging_config.py:53 | whenever the string starts with a well-formed token, the matcher finds exactly that token |
| Template.Sub | x_request_id_middleware/logging_config.py:53 | `re.sub` of that pattern with no count; `SubAtToken`, `SubAtLiteral` and `SubWithoutTokens` pin it down position by position |
| Template.SubAtToken | x_request_id_middleware/logging_config.py:53 | a token at the scan position is replaced and the scan resumes right after it |
| Template.SubAtLiteral | x_request_id_middleware/logging_config.py:53 | a character where no token starts is copied unchanged |
| Template.SubWithoutTokens | x_request_id_middleware/logging_config.py:53 | a string in which no token starts comes out of the substitution unchanged |
| Template.SubKeepsBracketFreePrefix | x_request_id_middleware/logging_config.py:53 | text before the first `[` is copied unchanged |
| Template.SubRewritesEveryToken | x_request_id_middleware/logging_config.py:53 | two tokens separated by a space are both replaced: the substitution has no count limit |
| Template.SubKeepsSubstring | x_request_id_middleware/logging_config.py:52-53 | rewriting keeps an occurrence of `request_id` because the replacement holds it |
| Template.HasSubstring | x_request_id_middleware/logging_config.py:52 | Python's `in` on strings; `HasSubstringIff` shows it holds exactly when the text occurs at some index |
| Template.HasSubstringIff | x_request_id_middleware/logging_config.py:52 | the substring test holds exactly when the text occurs at some index |
| Template.Strip | x_request_id_middleware/logging_config.py:73 | `str.strip()`; `StripShape` gives its result in full |
| Template.StripShape | x_request_id_middleware/logging_config.py:73 | strip keeps the middle of the string, cuts only whitespace on either side, and leaves no whitespace at either end |
| Template.Collapse | x_request_id_middleware/logging_config.py:74 | `re.sub(r"\s+", " ", ...)`; `CollapseShape`, `CollapseKeepsNonSpace` and `CollapseIsJoinSplit` state its result |
| Template.CollapseShape | x_request_id_middleware/logging_config.py:74 | after collapsing, every whitespace character is a space, no two are adjacent, and each end is whitespace exactly when it was before |
| Template.CollapseKeepsNonSpace | x_request_id_middleware/logging_config.py:74 | collapsing keeps every non-whitespace character, in order |
| Template.SplitWords | x_request_id_middleware/logging_config.py:74 | the words the reference definition splits out are non-empty and hold no whitespace |
| Template.NormalizeIsJoinSplit | x_request_id_middleware/logging_config.py:73-74 | strip followed by collapse equals joining the string's words with single spaces |
| Template.WithRequestId | x_request_id_middleware/logging_config.py:41-61 | absent or empty format gives the default; without `request_id` the result is the format plus ` [%(request_id)s]`, so the format is a proper prefix; with it every token is rewritten; in every case the result contains `request_id` |
| Template.WithRequestIdKeepsTokenFree | x_request_id_middleware/logging_config.py:52-53 | a format that names `request_id` but has no bracket token is returned unchanged |
| Template.WithoutRequestId | x_request_id_middleware/logging_config.py:63-79 | absent or empty format gives the default; otherwise no whitespace at the ends, only single spaces, and no two adjacent |
| Template.WithoutRequestIdIsJoinSplit | x_request_id_middleware/logging_config.py:72-74 | for a given format, the result is the words left after every token is deleted, joined by single spaces |
| Template.WithoutRequestIdOfTokenFree | x_request_id_middleware/logging_config.py:72-74 | without bracket tokens, only the whitespace is normalised |
| Template.DefaultsDifferBySlot | x_request_id_middleware/logging_config.py:56-78 | with no format, the with-id default is the without-id default followed by ` [%(request_id)s]` |
| PyLogging.Formatter.constructor | x_request_id_middleware/logging_config.py:20 | the base formatter keeps the format, or `%(message)s` when the format is absent or empty |
| PyLogging.Handler.Stream | x_request_id_middleware/logging_config.py:120 | a new stream handler is a stream handler without a formatter |
| PyLogging.Handler.SetFormatter | x_request_id_middleware/logging_config.py:121 | the handler's formatter becomes the given one |
| PyLogging.Logger.SetLevel | x_request_id_middleware/logging_config.py:108 | the level changes; handlers and filters do not |
| PyLogging.Logger.AddHandler | x_request_id_middleware/logging_config.py:126 | the handler is appended unless already present; nothing else changes |
| PyLogging.Logger.AddFilter | x_request_id_middleware/logging_config.py:127 | the filter is appended unless already present; nothing else changes |
| PyLogging.LoggerRegistry.GetLogger | x_request_id_middleware/logging_config.py:111 | `""` and `"root"` give the root logger; any other registered name gives its logger; in both cases nothing changes; a new name registers a new logger at NOTSET with no handlers or filters; the registry stays well formed |
| Common.RequestIdContext.constructor | x_request_id_middleware/common.py:9-21 | before any set, the current request id is None |
| Common.GetRequestId | x_request_id_middleware/common.py:15-21 | the value in the request-id cell: None before any set (`RequestIdContext.constructor`), the given id after `SetRequestId` |
| Common.AddRequestIdToSentry | x_request_id_middleware/common.py:43-51 | the `request_id` tag is written exactly when a client is bound; otherwise the tags are unchanged |
| Common.SetRequestId | x_request_id_middleware/common.py:24-31 | afterwards the current id is the given one, and the tag is written exactly when a client is bound |
| Common.Uuid4Bytes | x_request_id_middleware/common.py:40 | version 4 in byte 6 and variant bits `10` in byte 8; every other random bit is kept |
| Common.GenerateRequestId | x_request_id_middleware/common.py:34-40 | `str(uuid.uuid4())` for the sixteen random bytes; `GenerateRequestIdIsUuid4` gives its layout and `ParseGeneratedRequestId` its round trip |
| Common.GenerateRequestIdIsUuid4 | x_request_id_middleware/common.py:34-40 | every generated id is 36 characters in the 8-4-4-4-12 layout, lowercase hexadecimal digits, version digit `4`, variant digit among `89ab` |
| Common.ParseGeneratedRequestId | x_request_id_middleware/common.py:34-40 | parsing a generated id gives back the sixteen bytes it encodes |
| Common.StampedRequestId | x_request_id_middleware/common.py:63 | the stamp is the current id when it is neither None nor empty, and `unknown` otherwise; it is never empty |
| Common.StampRequestId | x_request_id_middleware/common.py:63 | the record's `request_id` becomes the stamped current id |
| Common.ApplyRequestIdLogFilter | x_request_id_middleware/common.py:58-64 | the record gets the stamped request id and is kept |
| Common.ConfigureLogging | x_request_id_middleware/common.py:54-74 | the root logger gets exactly one new filter; its handlers and level are unchanged; every handler ends up with a new formatter whose template is `%(asctime)s %(levelname)s [%(request_id)s] %(message)s` |
| LoggingConfig.OptionalXRequestIdFormatter.constructor | x_request_id_middleware/logging_config.py:11-22 | the two derived templates are the with-id and without-id templates of the format, and the base formatter is built from the format |
| LoggingConfig.OptionalXRequestIdFormatter.Format | x_request_id_middleware/logging_config.py:24-39 | the active template becomes the with-id template exactly when the record has a request id, and the without-id one otherwise |
| LoggingConfig.ApplyXRequestIdLogFilter | x_request_id_middleware/logging_config.py:93-100 | the record gets the stamped request id and is kept |
| LoggingConfig.FilterThenFormat | x_request_id_middleware/logging_config.py:34-39 | a record that passed the filter is formatted with the with-id template, which contains `request_id` |
| LoggingConfig.HandlerStepEndsWithStreamHandler | x_request_id_middleware/logging_config.py:123-126 | after configuration the logger has a stream handler |
| LoggingConfig.ConfigureTwice | x_request_id_middleware/logging_config.py:114-127 | two configurations add at most one handler, which the second one leaves alone, and exactly two XRequestIDLogFilters |
| LoggingConfig.XRequestIdConfigLogging.ConfigureLogging | x_request_id_middleware/logging_config.py:114-127 | a new stream handler using the formatter is appended only if the logger has no stream handler; one new XRequestIDLogFilter is always appended; the level is unchanged |
| LoggingConfig.XRequestIdConfigLogging.Run | x_request_id_middleware/logging_config.py:102-112 | the root level becomes INFO and root handlers and filters are unchanged; each logger registered at the call is configured exactly once, from its state at the call: level kept, a new stream handler using the formatter appended only if it had none, one new XRequestIDLogFilter appended |
| LoggingConfig.XRequestIdConfigLogging.ConfigureEach | x_request_id_middleware/logging_config.py:110-112 | each of a list of distinct loggers is configured exactly once, from its state before the loop |
| LoggingConfig.XRequestIdConfigLogging.constructor | x_request_id_middleware/logging_config.py:83-91 | builds the formatter from the format string, then has the effect of Run |

## Left out

- `ContextVar` isolation between concurrent tasks, and inheritance into child tasks: the context is one mutable cell.
- The error tracker's internals (`Hub.current.client`, `configure_scope`): it is an object with a client-bound flag and a tag map.
- The randomness of `uuid.uuid4`: the sixteen bytes `os.urandom` would return are a parameter. The `uuid` module itself is not part of this model; its bit layout is the one RFC 4122 fixes.
- Rendering, in `logging.Formatter.format` and by the stream handler. This covers `%`-substitution, reading the clock for `asctime`, and writing to the stream. `Format` returns the chosen template instead of the rendered line.
- Template validation in the base `logging.Formatter` constructor, which raises `ValueError` for a template with no `%(field)` in it.
- `IsWordChar` accepts ASCII letters, digits and `_` only. Python's `\w` on `str` also accepts non-ASCII letters and digits.
- PyLogging.LoggerRegistry.GetLogger: `Valid` assumes `loggerDict` has no key `""` or `"root"`. `logging.getLogger` never registers them on Python 3.9 and later, but `Manager.getLogger` called directly, for instance by `logging.root.getChild("root")`, can.
- LoggingConfig.XRequestIdConfigLogging.Run: assumes, through `LoggerRegistry.Valid`, that `loggerDict` has no key `""` or `"root"`. For such a key `run` would configure the root logger, and its handlers and filters would change. It also assumes that `loggerDict` holds no `PlaceHolder` entries: `run` would replace each one by a new logger and configure that logger.
- LoggingConfig.XRequestIdConfigLogging.constructor: has the effect of `Run`, under the same two assumptions.
- The logger hierarchy, propagation, placeholders in `loggerDict`, `setLevel`'s cache clearing, and handler locks. The manager is a root logger plus a map from names to loggers, with the names in insertion order.
- Subclasses of `StreamHandler`: a handler carries an `isStreamHandler` flag that answers `isinstance(h, StreamHandler)`.
- The Django and FastAPI middleware adapters: they wrap framework request and response objects.
