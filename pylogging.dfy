/**
 * The parts of Python's `logging` package that the middleware reads and
 * changes: records, formatters, handlers, filters, loggers and the registry
 * behind `logging.getLogger`. Only the state the middleware touches is kept;
 * rendering and output are not modelled.
 */
module PyLogging {
  import opened Wrappers
  import Template

  /** The levels `logging.NOTSET`, `logging.INFO` and `logging.WARNING`. */
  const NOTSET: int := 0
  const INFO: int := 20
  const WARNING: int := 30

  /** `PercentStyle.default_format`, used when a formatter gets no template. */
  const DefaultFormat: string := "%(message)s"

  /** A `logging.LogRecord`. `requestId` is `Some(v)` exactly when the record
    * has a `request_id` attribute, whose value is then `v`. */
  class LogRecord {
    var requestId: Option<string>

    constructor()
      ensures requestId == None
    {
      requestId := None;
    }
  }

  /** A `logging.Formatter`; `template` is its `_style._fmt`. */
  class Formatter {
    var template: string

    /** `PercentStyle` keeps `fmt or "%(message)s"`. */
    constructor(fmt: Option<string>)
      ensures Template.Given(fmt) ==> template == fmt.value
      ensures !Template.Given(fmt) ==> template == DefaultFormat
    {
      template := if Template.Given(fmt) then fmt.value else DefaultFormat;
    }
  }

  /** A `logging.Handler`; `isStreamHandler` is `isinstance(h, StreamHandler)`. */
  class Handler {
    const isStreamHandler: bool
    var formatter: Formatter?

    /** `logging.StreamHandler()`: no formatter yet. */
    constructor Stream()
      ensures isStreamHandler && formatter == null
    {
      isStreamHandler := true;
      formatter := null;
    }

    method SetFormatter(f: Formatter?)
      modifies this
      ensures formatter == f
    {
      formatter := f;
    }
  }

  /** A `logging.Filter`, tagged with the name of its class. */
  class Filter {
    const className: string

    constructor(className: string)
      ensures this.className == className
    {
      this.className := className;
    }
  }

  /** `any(isinstance(h, StreamHandler) for h in handlers)`. */
  predicate HasStreamHandler(handlers: seq<Handler>) {
    exists i :: 0 <= i < |handlers| && handlers[i].isStreamHandler
  }

  /** A `logging.Logger`: its level and its handler and filter lists. */
  class Logger {
    var level: int
    var handlers: seq<Handler>
    var filters: seq<Filter>

    constructor(level: int)
      ensures this.level == level && handlers == [] && filters == []
    {
      this.level := level;
      handlers := [];
      filters := [];
    }

    method SetLevel(level: int)
      modifies this
      ensures this.level == level
      ensures handlers == old(handlers) && filters == old(filters)
    {
      this.level := level;
    }

    /** `addHandler` appends a handler that is not already in the list. */
    method AddHandler(h: Handler)
      modifies this
      ensures h in old(handlers) ==> handlers == old(handlers)
      ensures h !in old(handlers) ==> handlers == old(handlers) + [h]
      ensures level == old(level) && filters == old(filters)
    {
      if h !in handlers {
        handlers := handlers + [h];
      }
    }

    /** `addFilter` appends a filter that is not already in the list. */
    method AddFilter(f: Filter)
      modifies this
      ensures f in old(filters) ==> filters == old(filters)
      ensures f !in old(filters) ==> filters == old(filters) + [f]
      ensures level == old(level) && handlers == old(handlers)
    {
      if f !in filters {
        filters := filters + [f];
      }
    }
  }

  /** `root.name`, which `logging.getLogger` answers with the root logger. */
  const RootName: string := "root"

  /** The logger manager: the root logger and `loggerDict`, whose keys are
    * kept in insertion order in `names`. */
  class LoggerRegistry {
    const root: Logger
    var names: seq<string>
    var loggers: map<string, Logger>

    /** Every name is registered once, names and keys agree, each name has its
      * own logger, and the root logger is not in `loggerDict`, neither as a
      * value nor under the two names `logging.getLogger` reserves for it. */
    ghost predicate Valid()
      reads this
    {
      "" !in loggers && RootName !in loggers
      && (forall i, j :: 0 <= i < j < |names| ==> names[i] != names[j])
      && (forall n :: n in loggers <==> n in names)
      && (forall n :: n in loggers ==> loggers[n] != root)
      && (forall n, m :: n in loggers && m in loggers && n != m ==> loggers[n] != loggers[m])
    }

    /** A fresh manager: a root logger at WARNING and no named loggers. */
    constructor()
      ensures Valid() && fresh(root)
      ensures root.level == WARNING && root.handlers == [] && root.filters == []
      ensures names == [] && loggers == map[]
    {
      root := new Logger(WARNING);
      names := [];
      loggers := map[];
    }

    /** The loggers registered by name. */
    ghost function Loggers(): set<Logger>
      reads this
    {
      set n | n in loggers :: loggers[n]
    }

    /** `logging.getLogger(name)`: the root logger for the empty name (which
      * also stands for `None`) and for `"root"`; otherwise the registered
      * logger, or a new one at NOTSET that is registered under `name`. */
    method GetLogger(name: string) returns (l: Logger)
      requires Valid()
      modifies this
      ensures Valid()
      ensures name == "" || name == RootName ==>
        l == root && names == old(names) && loggers == old(loggers)
      ensures name != "" && name != RootName && name in old(loggers) ==>
        l == old(loggers[name]) && names == old(names) && loggers == old(loggers)
      ensures name != "" && name != RootName && name !in old(loggers) ==>
        fresh(l) && l.level == NOTSET && l.handlers == [] && l.filters == []
        && names == old(names) + [name] && loggers == old(loggers)[name := l]
    {
      if name == "" || name == RootName {
        l := root;
      } else if name in loggers {
        l := loggers[name];
      } else {
        l := new Logger(NOTSET);
        names := names + [name];
        loggers := loggers[name := l];
      }
    }
  }
}
