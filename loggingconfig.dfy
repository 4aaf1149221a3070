/**
 * x_request_id_middleware/logging_config.py: the formatter that switches
 * between a template with the request id and one without it, the filter
 * that stamps records, and the configuration of every registered logger.
 */
module LoggingConfig {
  import opened Wrappers
  import Template
  import opened PyLogging
  import Common

  // ---------------------------------------------------------------------
  // OptionalXRequestIDFormatter
  // ---------------------------------------------------------------------

  /** `OptionalXRequestIDFormatter`. The `logging.Formatter` it extends is
    * the object `base`, whose template is the `_style._fmt` that `format`
    * switches; the two derived templates are fixed at construction. */
  class OptionalXRequestIdFormatter {
    const base: Formatter
    const withRequestId: string
    const withoutRequestId: string
    /** The format string the formatter was built from. */
    ghost const fmt: Option<string>

    /** The derived templates are the ones `fmt` gives. */
    ghost predicate Valid() {
      withRequestId == Template.WithRequestId(fmt) && withoutRequestId == Template.WithoutRequestId(fmt)
    }

    constructor(fmt: Option<string>)
      ensures Valid() && this.fmt == fmt && fresh(base)
      ensures Template.Given(fmt) ==> base.template == fmt.value
      ensures !Template.Given(fmt) ==> base.template == DefaultFormat
      ensures withRequestId == Template.WithRequestId(fmt)
      ensures withoutRequestId == Template.WithoutRequestId(fmt)
    {
      this.fmt := fmt;
      base := new Formatter(fmt);
      withRequestId := Template.WithRequestId(fmt);
      withoutRequestId := Template.WithoutRequestId(fmt);
    }

    /** `format`: a record with a `request_id` attribute is rendered with the
      * with-id template, any other with the without-id template. The result
      * is the template the base formatter then renders the record with. */
    method Format(record: LogRecord) returns (template: string)
      modifies base
      ensures base.template == template
      ensures record.requestId.Some? ==> template == withRequestId
      ensures record.requestId.None? ==> template == withoutRequestId
    {
      if record.requestId.Some? {
        base.template := withRequestId;
      } else {
        base.template := withoutRequestId;
      }
      template := base.template;
    }
  }

  // ---------------------------------------------------------------------
  // XRequestIDLogFilter
  // ---------------------------------------------------------------------

  const XRequestIdLogFilterName: string := "XRequestIDLogFilter"

  /** `XRequestIDLogFilter.filter`: stamps the record with the current id,
    * or "unknown" when it is None or empty, and keeps the record. */
  method ApplyXRequestIdLogFilter(filter: Filter, record: LogRecord, ctx: Common.RequestIdContext)
    returns (keep: bool)
    requires filter.className == XRequestIdLogFilterName
    modifies record
    ensures keep
    ensures record.requestId == Some(Common.StampedRequestId(Common.GetRequestId(ctx)))
  {
    Common.StampRequestId(record, ctx);
    keep := true;
  }

  /** After the filter ran, the record carries a request id, so the
    * formatter renders it with the with-id template. */
  method FilterThenFormat(formatter: OptionalXRequestIdFormatter, filter: Filter,
                          record: LogRecord, ctx: Common.RequestIdContext)
    returns (template: string)
    requires formatter.Valid() && filter.className == XRequestIdLogFilterName
    modifies record, formatter.base
    ensures template == formatter.withRequestId
    ensures Template.HasSubstring(template, "request_id")
  {
    var _ := ApplyXRequestIdLogFilter(filter, record, ctx);
    template := formatter.Format(record);
  }

  // ---------------------------------------------------------------------
  // configure_logging and run
  // ---------------------------------------------------------------------

  /** How `configure_logging` changes a handler list: a stream handler is
    * appended only if the list holds none. */
  predicate HandlerStep(before: seq<Handler>, after: seq<Handler>) {
    if HasStreamHandler(before) then after == before
    else |after| == |before| + 1 && after[..|before|] == before && after[|before|].isStreamHandler
  }

  /** How `configure_logging` changes a filter list: one XRequestIDLogFilter
    * is appended. */
  predicate FilterStep(before: seq<Filter>, after: seq<Filter>) {
    |after| == |before| + 1 && after[..|before|] == before
    && after[|before|].className == XRequestIdLogFilterName
  }

  /** After one step the logger has a stream handler. */
  lemma HandlerStepEndsWithStreamHandler(before: seq<Handler>, after: seq<Handler>)
    requires HandlerStep(before, after)
    ensures HasStreamHandler(after)
  {
    if !HasStreamHandler(before) {
      assert after[|before|].isStreamHandler;
    }
  }

  /** Configuring a logger twice adds at most one handler, which the second
    * call leaves alone, and two filters. */
  lemma ConfigureTwice(h0: seq<Handler>, h1: seq<Handler>, h2: seq<Handler>,
                       f0: seq<Filter>, f1: seq<Filter>, f2: seq<Filter>)
    requires HandlerStep(h0, h1) && HandlerStep(h1, h2)
    requires FilterStep(f0, f1) && FilterStep(f1, f2)
    ensures h2 == h1 && |h0| <= |h2| <= |h0| + 1 && h2[..|h0|] == h0
    ensures |f2| == |f0| + 2 && f2[..|f0|] == f0
    ensures f2[|f0|].className == XRequestIdLogFilterName
    ensures f2[|f0| + 1].className == XRequestIdLogFilterName
  {
    HandlerStepEndsWithStreamHandler(h0, h1);
    assert f2[..|f0|] == f1[..|f0|];
    assert f2[|f0|] == f1[|f0|];
  }

  /** The last element of a non-empty sequence. */
  function Last<T>(s: seq<T>): T
    requires s != []
  {
    s[|s| - 1]
  }

  /** `l` holds what `configure_logging` makes of a logger whose level and
    * lists were `level0`, `handlers0` and `filters0`: the level is kept, a
    * stream handler was appended only if there was none, and one
    * XRequestIDLogFilter was appended. */
  ghost predicate ConfiguredFrom(l: Logger, level0: int, handlers0: seq<Handler>, filters0: seq<Filter>)
    reads l
  {
    l.level == level0 && HandlerStep(handlers0, l.handlers) && FilterStep(filters0, l.filters)
  }

  /** What `configure_logging` did to `l` since the earlier state; the
    * handler and filter it appended are new objects, and the handler uses
    * `base`. */
  twostate predicate Configured(l: Logger, new base: Formatter)
    reads l, if l.handlers == [] then {} else {Last(l.handlers)}
  {
    ConfiguredFrom(l, old(l.level), old(l.handlers), old(l.filters))
    && fresh(Last(l.filters))
    && (!HasStreamHandler(old(l.handlers)) ==>
          fresh(Last(l.handlers)) && Last(l.handlers).formatter == base)
  }

  /** `XRequestIDConfigLogging`: builds the formatter and configures every
    * registered logger at once. */
  class XRequestIdConfigLogging {
    const formatter: OptionalXRequestIdFormatter

    constructor(strFormat: Option<string>, registry: LoggerRegistry)
      requires registry.Valid()
      modifies registry.root, registry.Loggers()
      ensures fresh(formatter) && fresh(formatter.base)
      ensures formatter.Valid() && formatter.fmt == strFormat
      ensures registry.root.level == INFO
      ensures registry.root.handlers == old(registry.root.handlers)
      ensures registry.root.filters == old(registry.root.filters)
      ensures forall n :: n in registry.loggers ==> Configured(registry.loggers[n], formatter.base)
    {
      formatter := new OptionalXRequestIdFormatter(strFormat);
      new;
      Run(registry);
    }

    /** `configure_logging`: a new stream handler using the formatter is added
      * only if the logger has no stream handler; a new XRequestIDLogFilter is
      * always added. */
    method ConfigureLogging(logger: Logger)
      modifies logger
      ensures Configured(logger, formatter.base)
    {
      var handler := new Handler.Stream();
      handler.SetFormatter(formatter.base);
      if !HasStreamHandler(logger.handlers) {
        logger.AddHandler(handler);
      }
      var filter := new Filter(XRequestIdLogFilterName);
      logger.AddFilter(filter);
    }

    /** `run`: the root logger is set to INFO and every logger registered at
      * the time is configured once; the registry itself does not change. */
    method Run(registry: LoggerRegistry)
      requires registry.Valid()
      modifies registry.root, registry.Loggers()
      ensures registry.root.level == INFO
      ensures registry.root.handlers == old(registry.root.handlers)
      ensures registry.root.filters == old(registry.root.filters)
      ensures forall n :: n in registry.loggers ==> Configured(registry.loggers[n], formatter.base)
    {
      var names := registry.names;
      // The loggers registered at the call, in registration order.
      var loggers := seq(|names|, j requires 0 <= j < |names| && names[j] in registry.loggers reads registry =>
                           registry.loggers[names[j]]);
      assert forall j, k :: 0 <= j < k < |loggers| ==> loggers[j] != loggers[k] by {
        forall j, k | 0 <= j < k < |loggers| ensures loggers[j] != loggers[k] {
          assert names[j] in registry.loggers && names[k] in registry.loggers;
        }
      }
      assert forall j :: 0 <= j < |loggers| ==> loggers[j] in registry.Loggers() && loggers[j] != registry.root by {
        forall j | 0 <= j < |loggers| ensures loggers[j] in registry.Loggers() && loggers[j] != registry.root {
          assert names[j] in registry.loggers;
        }
      }
      registry.root.SetLevel(INFO);
      ConfigureEach(loggers);
      forall n | n in registry.loggers
        ensures Configured(registry.loggers[n], formatter.base)
      {
        assert n in names;
        var j :| 0 <= j < |names| && names[j] == n;
        assert loggers[j] == registry.loggers[n];
      }
    }

    /** The loop of `run`: each logger of `loggers`, all distinct, is
      * configured once, in order. */
    method ConfigureEach(loggers: seq<Logger>)
      requires forall j, k :: 0 <= j < k < |loggers| ==> loggers[j] != loggers[k]
      modifies set j | 0 <= j < |loggers| :: loggers[j]
      ensures forall j :: 0 <= j < |loggers| ==> Configured(loggers[j], formatter.base)
    {
      var i := 0;
      while i < |loggers|
        invariant 0 <= i <= |loggers|
        invariant forall j :: 0 <= j < i ==> Configured(loggers[j], formatter.base)
        invariant forall j :: i <= j < |loggers| ==>
          loggers[j].level == old(loggers[j].level) && loggers[j].handlers == old(loggers[j].handlers)
          && loggers[j].filters == old(loggers[j].filters)
      {
        ConfigureLogging(loggers[i]);
        i := i + 1;
      }
    }
  }
}
