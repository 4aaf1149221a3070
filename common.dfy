/**
 * x_request_id_middleware/common.py: the request-id context cell, its
 * error-reporting tag, request-id generation, the root-logger filter that
 * stamps records, and the root-logger setup.
 */
module Common {
  import opened Wrappers
  import Template
  import opened PyLogging

  // ---------------------------------------------------------------------
  // The request-id context and the error-reporting sink
  // ---------------------------------------------------------------------

  /** `request_id_context`: one optional string, `None` until first set. */
  class RequestIdContext {
    var value: Option<string>

    constructor()
      ensures GetRequestId(this) == None
    {
      value := None;
    }
  }

  /** `get_request_id()`. */
  function GetRequestId(ctx: RequestIdContext): Option<string>
    reads ctx
  {
    ctx.value
  }

  /** The error-reporting client: whether one is bound, and the tags of its
    * current scope. */
  class ErrorSink {
    var clientBound: bool
    var tags: map<string, string>

    constructor(clientBound: bool)
      ensures this.clientBound == clientBound && tags == map[]
    {
      this.clientBound := clientBound;
      tags := map[];
    }
  }

  /** The tag `_add_request_id_to_sentry` writes. */
  const RequestIdTag: string := "request_id"

  /** `_add_request_id_to_sentry`: tags the scope only when a client is bound;
    * otherwise nothing happens. */
  method AddRequestIdToSentry(sink: ErrorSink, requestId: string)
    modifies sink
    ensures sink.clientBound == old(sink.clientBound)
    ensures old(sink.clientBound) ==> sink.tags == old(sink.tags)[RequestIdTag := requestId]
    ensures !old(sink.clientBound) ==> sink.tags == old(sink.tags)
  {
    if sink.clientBound {
      sink.tags := sink.tags[RequestIdTag := requestId];
    }
  }

  /** `set_request_id`: stores the id, then reports it. */
  method SetRequestId(ctx: RequestIdContext, sink: ErrorSink, requestId: string)
    modifies ctx, sink
    ensures GetRequestId(ctx) == Some(requestId)
    ensures sink.clientBound == old(sink.clientBound)
    ensures old(sink.clientBound) ==> sink.tags == old(sink.tags)[RequestIdTag := requestId]
    ensures !old(sink.clientBound) ==> sink.tags == old(sink.tags)
  {
    ctx.value := Some(requestId);
    AddRequestIdToSentry(sink, requestId);
  }

  // ---------------------------------------------------------------------
  // generate_request_id: the text of a version-4 UUID
  // ---------------------------------------------------------------------

  newtype Byte = b: int | 0 <= b < 256

  const HexDigits: string := "0123456789abcdef"

  /** A lowercase hexadecimal digit, as `str(UUID)` writes them. */
  predicate IsHexDigit(c: char) {
    '0' <= c <= '9' || 'a' <= c <= 'f'
  }

  /** The two hexadecimal digits of a byte, high nibble first. */
  function HexByte(b: Byte): (r: string)
    ensures |r| == 2 && IsHexDigit(r[0]) && IsHexDigit(r[1])
    ensures HexValue(r[0]) == b as int / 16 && HexValue(r[1]) == b as int % 16
  {
    [HexDigits[b / 16], HexDigits[b % 16]]
  }

  /** The bytes in order, two lowercase digits each. */
  function Hex(bs: seq<Byte>): (r: string)
    ensures |r| == 2 * |bs|
    decreases |bs|
  {
    if bs == [] then [] else HexByte(bs[0]) + Hex(bs[1..])
  }

  lemma {:induction false} HexDigitsAll(bs: seq<Byte>)
    ensures forall i :: 0 <= i < |Hex(bs)| ==> IsHexDigit(Hex(bs)[i])
    decreases |bs|
  {
    if bs != [] {
      HexDigitsAll(bs[1..]);
      var r := Hex(bs);
      assert forall i :: 2 <= i < |r| ==> r[i] == Hex(bs[1..])[i - 2];
    }
  }

  /** The value of a lowercase hexadecimal digit. */
  function HexValue(c: char): (v: int)
    ensures 0 <= v < 16
    ensures IsHexDigit(c) ==> HexDigits[v] == c
  {
    if '0' <= c <= '9' then c as int - '0' as int
    else if 'a' <= c <= 'f' then c as int - 'a' as int + 10
    else 0
  }

  /** Reads pairs of hexadecimal digits back into bytes. */
  function ParseHex(s: string): (r: Option<seq<Byte>>)
    ensures r.Some? ==> |s| == 2 * |r.value|
    decreases |s|
  {
    if s == [] then Some([])
    else if |s| < 2 || !IsHexDigit(s[0]) || !IsHexDigit(s[1]) then None
    else match ParseHex(s[2..])
      case None => None
      case Some(rest) => Some([(HexValue(s[0]) * 16 + HexValue(s[1])) as Byte] + rest)
  }

  lemma {:induction false} ParseHexOfHex(bs: seq<Byte>)
    ensures ParseHex(Hex(bs)) == Some(bs)
    decreases |bs|
  {
    if bs != [] {
      var s := Hex(bs);
      assert s[2..] == Hex(bs[1..]);
      ParseHexOfHex(bs[1..]);
      assert (HexValue(s[0]) * 16 + HexValue(s[1])) as Byte == bs[0];
      assert [bs[0]] + bs[1..] == bs;
    }
  }

  /** Setting the version and variant bits of section 4.4 of RFC 4122 on
    * sixteen random bytes: version 4 in the high nibble of byte 6 and the
    * bits `10` at the top of byte 8, every other bit as drawn. */
  function Uuid4Bytes(random: seq<Byte>): (u: seq<Byte>)
    requires |random| == 16
    ensures |u| == 16
    ensures u[6] as int / 16 == 4 && u[6] as int % 16 == random[6] as int % 16
    ensures u[8] as int / 64 == 2 && u[8] as int % 64 == random[8] as int % 64
    ensures forall i :: 0 <= i < 16 && i != 6 && i != 8 ==> u[i] == random[i]
  {
    random[6 := (random[6] % 16) + 64][8 := (random[8] % 64) + 128]
  }

  /** Two groups of digits joined by `-`. */
  function Dashed(a: string, r: string): (s: string)
    ensures |s| == |a| + 1 + |r|
    ensures s[..|a|] == a && s[|a|] == '-' && s[|a| + 1..] == r
  {
    a + "-" + r
  }

  /** The canonical text of a UUID: 32 lowercase hexadecimal digits in groups
    * of 8, 4, 4, 4 and 12 separated by `-`. */
  function UuidText(u: seq<Byte>): (s: string)
    requires |u| == 16
    ensures |s| == 36
  {
    Dashed(Hex(u[..4]), Dashed(Hex(u[4..6]), Dashed(Hex(u[6..8]), Dashed(Hex(u[8..10]), Hex(u[10..])))))
  }

  /** The text of a version-4 UUID of RFC 4122: the canonical layout, the
    * version digit `4` and a variant digit among `8`, `9`, `a`, `b`. */
  predicate IsUuid4Text(s: string) {
    |s| == 36
    && (forall i :: 0 <= i < 36 && i != 8 && i != 13 && i != 18 && i != 23 ==> IsHexDigit(s[i]))
    && s[8] == '-' && s[13] == '-' && s[18] == '-' && s[23] == '-'
    && s[14] == '4' && s[19] in "89ab"
  }

  /** `UUID(s)` for the canonical layout: the sixteen bytes, or None. */
  function ParseUuid(s: string): Option<seq<Byte>> {
    if |s| == 36 && s[8] == '-' && s[13] == '-' && s[18] == '-' && s[23] == '-' then
      ParseHex(s[..8] + s[9..13] + s[14..18] + s[19..23] + s[24..])
    else None
  }

  /** `generate_request_id()`: `str(uuid.uuid4())`, with the sixteen bytes
    * the operating system would supply given as `random`. It reads and
    * changes no request-id context. */
  function GenerateRequestId(random: seq<Byte>): (id: string)
    requires |random| == 16
  {
    UuidText(Uuid4Bytes(random))
  }

  /** Where each of five groups joined by `-` lands, for the 8-4-4-4-12 layout. */
  lemma DashedGroups(g1: string, g2: string, g3: string, g4: string, g5: string)
    requires |g1| == 8 && |g2| == 4 && |g3| == 4 && |g4| == 4 && |g5| == 12
    ensures var s := Dashed(g1, Dashed(g2, Dashed(g3, Dashed(g4, g5))));
      s[..8] == g1 && s[9..13] == g2 && s[14..18] == g3 && s[19..23] == g4 && s[24..] == g5
      && s[8] == '-' && s[13] == '-' && s[18] == '-' && s[23] == '-'
  {
    var r4 := Dashed(g4, g5);
    var r3 := Dashed(g3, r4);
    var r2 := Dashed(g2, r3);
    var s := Dashed(g1, r2);
    assert s[9..13] == r2[..4] && s[13] == r2[4];
    assert s[14..] == r3;
    assert s[14..18] == r3[..4] && s[18] == r3[4];
    assert s[19..] == r4;
    assert s[19..23] == r4[..4] && s[23] == r4[4];
  }

  /** Where each group of the canonical text comes from. */
  lemma UuidTextGroups(u: seq<Byte>)
    requires |u| == 16
    ensures var s := UuidText(u);
      s[..8] == Hex(u[..4]) && s[9..13] == Hex(u[4..6]) && s[14..18] == Hex(u[6..8])
      && s[19..23] == Hex(u[8..10]) && s[24..] == Hex(u[10..])
      && s[8] == '-' && s[13] == '-' && s[18] == '-' && s[23] == '-'
  {
    DashedGroups(Hex(u[..4]), Hex(u[4..6]), Hex(u[6..8]), Hex(u[8..10]), Hex(u[10..]));
  }

  /** The hexadecimal text of a concatenation is the concatenation of texts. */
  lemma {:induction false} HexAppend(a: seq<Byte>, b: seq<Byte>)
    ensures Hex(a + b) == Hex(a) + Hex(b)
    decreases |a|
  {
    if a != [] {
      assert (a + b)[1..] == a[1..] + b;
      HexAppend(a[1..], b);
    } else {
      assert a + b == b;
    }
  }

  /** Every generated id is the text of a version-4 UUID. */
  lemma GenerateRequestIdIsUuid4(random: seq<Byte>)
    requires |random| == 16
    ensures IsUuid4Text(GenerateRequestId(random))
  {
    var u := Uuid4Bytes(random);
    var s := UuidText(u);
    UuidTextGroups(u);
    HexDigitsAll(u[..4]);
    HexDigitsAll(u[4..6]);
    HexDigitsAll(u[6..8]);
    HexDigitsAll(u[8..10]);
    HexDigitsAll(u[10..]);
    forall i | 0 <= i < 36 && i != 8 && i != 13 && i != 18 && i != 23
      ensures IsHexDigit(s[i])
    {
      if i < 8 { assert s[i] == s[..8][i]; }
      else if i < 13 { assert s[i] == s[9..13][i - 9]; }
      else if i < 18 { assert s[i] == s[14..18][i - 14]; }
      else if i < 23 { assert s[i] == s[19..23][i - 19]; }
      else { assert s[i] == s[24..][i - 24]; }
    }
    assert s[14] == Hex(u[6..8])[0] == HexDigits[4];
    assert s[19] == Hex(u[8..10])[0];
    assert s[19] == HexDigits[u[8] / 16];
  }

  /** Reading a generated id back gives the sixteen bytes it encodes. */
  lemma ParseGeneratedRequestId(random: seq<Byte>)
    requires |random| == 16
    ensures ParseUuid(GenerateRequestId(random)) == Some(Uuid4Bytes(random))
  {
    var u := Uuid4Bytes(random);
    var s := UuidText(u);
    UuidTextGroups(u);
    HexAppend(u[..4], u[4..6]);
    HexAppend(u[..6], u[6..8]);
    HexAppend(u[..8], u[8..10]);
    HexAppend(u[..10], u[10..]);
    assert u[..4] + u[4..6] == u[..6];
    assert u[..6] + u[6..8] == u[..8];
    assert u[..8] + u[8..10] == u[..10];
    assert u[..10] + u[10..] == u;
    ParseHexOfHex(u);
  }

  // ---------------------------------------------------------------------
  // RequestIDLogFilter and configure_logging
  // ---------------------------------------------------------------------

  /** `get_request_id() or "unknown"`: Python's `or` replaces both `None`
    * and the empty string. */
  function StampedRequestId(id: Option<string>): (s: string)
    ensures s != ""
    ensures Template.Given(id) ==> s == id.value
    ensures !Template.Given(id) ==> s == "unknown"
  {
    if Template.Given(id) then id.value else "unknown"
  }

  /** `record.request_id = get_request_id() or "unknown"`. */
  method StampRequestId(record: LogRecord, ctx: RequestIdContext)
    modifies record
    ensures record.requestId == Some(StampedRequestId(GetRequestId(ctx)))
  {
    record.requestId := Some(StampedRequestId(GetRequestId(ctx)));
  }

  const RequestIdLogFilterName: string := "RequestIDLogFilter"

  /** `RequestIDLogFilter.filter`: stamps the record and keeps it. */
  method ApplyRequestIdLogFilter(filter: Filter, record: LogRecord, ctx: RequestIdContext)
    returns (keep: bool)
    requires filter.className == RequestIdLogFilterName
    modifies record
    ensures keep
    ensures record.requestId == Some(StampedRequestId(GetRequestId(ctx)))
  {
    StampRequestId(record, ctx);
    keep := true;
  }

  /** The template `configure_logging` gives every root handler. */
  const RootTemplate: string := "%(asctime)s %(levelname)s [%(request_id)s] %(message)s"

  /** `configure_logging()`: adds one new RequestIDLogFilter to the root
    * logger and gives each of its handlers a new formatter with RootTemplate;
    * no handler is added or removed. */
  method ConfigureLogging(registry: LoggerRegistry)
    modifies registry.root, set h: Handler | h in registry.root.handlers
    ensures registry.root.level == old(registry.root.level)
    ensures registry.root.handlers == old(registry.root.handlers)
    ensures var fs, n := registry.root.filters, |old(registry.root.filters)|;
      |fs| == n + 1 && fs[..n] == old(registry.root.filters)
      && fresh(fs[n]) && fs[n].className == RequestIdLogFilterName
    ensures forall h :: h in registry.root.handlers ==>
      h.formatter != null && fresh(h.formatter) && h.formatter.template == RootTemplate
  {
    var logger := registry.root;
    var f := new Filter(RequestIdLogFilterName);
    logger.AddFilter(f);
    var i := 0;
    while i < |logger.handlers|
      invariant 0 <= i <= |logger.handlers|
      invariant logger.level == old(logger.level) && logger.handlers == old(logger.handlers)
      invariant logger.filters == old(logger.filters) + [f]
      invariant forall j :: 0 <= j < i ==>
        logger.handlers[j].formatter != null && fresh(logger.handlers[j].formatter)
        && logger.handlers[j].formatter.template == RootTemplate
    {
      var formatter := new Formatter(Some(RootTemplate));
      logger.handlers[i].SetFormatter(formatter);
      i := i + 1;
    }
  }
}
