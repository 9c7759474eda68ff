/** The broker's hand-rendered `/admin` v1 document, and what the admin client reads back from it. */
module AdminDocument {
  import opened Common
  import opened JsonText
  import opened AdminParser

  datatype Counters = Counters(produced: U64, producedBytes: U64, produceRejected: U64, delivered: U64,
                               redelivered: U64, deadLettered: U64, acks: U64, segmentsReaped: U64,
                               segmentsForceReaped: U64, truncations: U64, truncatedRecords: U64,
                               lastSkipOffset: U64, recordsSkipped: U64, bytesSkipped: U64,
                               counterCheckpointRepairs: U64)
  datatype Group = Group(name: string, committed: U64, inFlight: U64)
  datatype EngineConfig = EngineConfig(maxTotalBytes: U64, maxSegmentBytes: U64, maxRetainedBytes: U64,
                                       maxAgeMs: U64, maxMessages: U64, maxInFlight: U64, consumerCredit: U64,
                                       consumerCreditBytes: U64, maxDeliver: U64, maxGroups: U64,
                                       groupIdleEvictNanos: U64, visibilityNanos: U64, hardCapNanos: U64,
                                       dropOldest: bool, ramCeilingBytes: U64, dailyWriteBudgetBytes: U64)
  datatype Snapshot = Snapshot(healthy: bool, flushed: U64, committed: U64, earliestRetained: U64,
                               durableRecordBytes: U64, durableRecordCount: U64, segmentCount: U64,
                               recoveredTruncatedBytes: U64, lastDeadLettered: int, dlqRecords: U64,
                               counters: Counters, groups: seq<Group>, config: EngineConfig)

  // ----- rendering -----

  type Fields = seq<(string, Token)>

  /** Each field followed by a comma. */
  function Lead(fs: Fields): seq<Token> {
    if fs == [] then [] else [Key(fs[0].0), fs[0].1, Comma] + Lead(fs[1..])
  }

  /** The fields separated by commas. */
  function Body(fs: Fields): seq<Token> {
    if fs == [] then [] else Lead(fs[..|fs| - 1]) + [Key(fs[|fs| - 1].0), fs[|fs| - 1].1]
  }

  function Braced(fs: Fields): seq<Token> {
    [Open('{')] + Body(fs) + [Close('}')]
  }

  function BrokerSpan(s: Snapshot): Fields {
    [("healthy", Bool(s.healthy)), ("flushed_offset", Num(s.flushed)), ("committed_offset", Num(s.committed)),
     ("earliest_retained_offset", Num(s.earliestRetained)),
     ("consumer_lag", Num(SaturatingSub(s.flushed, s.committed)))]
  }

  function BrokerSizes(s: Snapshot): Fields {
    [("durable_record_bytes", Num(s.durableRecordBytes)), ("durable_record_count", Num(s.durableRecordCount)),
     ("segment_count", Num(s.segmentCount)), ("recovery_truncated_bytes", Num(s.recoveredTruncatedBytes))]
  }

  function BrokerTraffic(c: Counters): Fields {
    [("produced", Num(c.produced)), ("produced_bytes", Num(c.producedBytes)),
     ("produce_rejected", Num(c.produceRejected)), ("delivered", Num(c.delivered)),
     ("redelivered", Num(c.redelivered)), ("dead_lettered", Num(c.deadLettered))]
  }

  function BrokerReaps(c: Counters): Fields {
    [("acks", Num(c.acks)), ("segments_reaped", Num(c.segmentsReaped)),
     ("segments_force_reaped", Num(c.segmentsForceReaped)),
     ("truncations", Num(c.truncations)), ("truncated_records", Num(c.truncatedRecords))]
  }

  function BrokerFields(s: Snapshot): Fields {
    BrokerSpan(s) + BrokerSizes(s) + BrokerTraffic(s.counters) + BrokerReaps(s.counters)
  }

  function SegmentFields(s: Snapshot): Fields {
    [("count", Num(s.segmentCount)), ("earliest_retained_offset", Num(s.earliestRetained)),
     ("head_offset", Num(s.flushed)), ("durable_record_count", Num(s.durableRecordCount)),
     ("durable_record_bytes", Num(s.durableRecordBytes))]
  }

  function RowFields(flushed: U64, g: Group): Fields {
    [("name", Str(g.name)), ("committed_offset", Num(g.committed)),
     ("consumer_lag", Num(SaturatingSub(flushed, g.committed))), ("in_flight", Num(g.inFlight))]
  }

  function ResilienceFields(s: Snapshot): Fields {
    [("frozen", Bool(!s.healthy)), ("last_skip_offset", Num(s.counters.lastSkipOffset)),
     ("records_skipped", Num(s.counters.recordsSkipped)), ("bytes_skipped", Num(s.counters.bytesSkipped)),
     ("recovery_truncated_bytes", Num(s.recoveredTruncatedBytes)),
     ("counter_checkpoint_repairs", Num(s.counters.counterCheckpointRepairs))]
  }

  function DlqFields(s: Snapshot): Fields {
    [("records", Num(s.dlqRecords)), ("last_dead_lettered_offset", Num(s.lastDeadLettered))]
  }

  function ConfigBounds(c: EngineConfig): Fields {
    [("max_total_bytes", Num(c.maxTotalBytes)), ("max_segment_bytes", Num(c.maxSegmentBytes)),
     ("max_retained_bytes", Num(c.maxRetainedBytes)), ("max_age_ms", Num(c.maxAgeMs)),
     ("max_messages", Num(c.maxMessages)), ("max_in_flight", Num(c.maxInFlight))]
  }

  function ConfigConsumers(c: EngineConfig): Fields {
    [("consumer_credit", Num(c.consumerCredit)), ("consumer_credit_bytes", Num(c.consumerCreditBytes)),
     ("max_deliver", Num(c.maxDeliver)), ("max_groups", Num(c.maxGroups)),
     ("group_idle_evict_nanos", Num(c.groupIdleEvictNanos))]
  }

  function ConfigLimits(c: EngineConfig): Fields {
    [("visibility_nanos", Num(c.visibilityNanos)), ("hard_cap_nanos", Num(c.hardCapNanos)),
     ("disk_full_policy", Str(if c.dropOldest then "drop-oldest" else "drop-new")),
     ("ram_ceiling_bytes", Num(c.ramCeilingBytes)),
     ("daily_physical_write_budget_bytes", Num(c.dailyWriteBudgetBytes))]
  }

  function ConfigFields(c: EngineConfig): Fields {
    ConfigBounds(c) + ConfigConsumers(c) + ConfigLimits(c)
  }

  /** The consumer rows, separated by commas. */
  function Rows(flushed: U64, groups: seq<Group>): seq<Token> {
    if groups == [] then []
    else if |groups| == 1 then Braced(RowFields(flushed, groups[0]))
    else Braced(RowFields(flushed, groups[0])) + [Comma] + Rows(flushed, groups[1..])
  }

  function Object(key: string, fs: Fields): seq<Token> {
    [Key(key)] + Braced(fs)
  }

  function List(key: string, rows: seq<Token>): seq<Token> {
    [Key(key), Open('[')] + rows + [Close(']')]
  }

  /** The document in three parts around the values the admin client looks up. */
  function BeforeSegments(s: Snapshot): seq<Token> {
    [Open('{'), Key("schema_version"), Num(1), Comma] + Object("broker", BrokerFields(s)) + [Comma]
  }

  function Middle(s: Snapshot): seq<Token> {
    [Comma] + List("consumers", Rows(s.flushed, s.groups)) + [Comma] + List("groups", Rows(s.flushed, s.groups)) + [Comma]
  }

  function AfterResilience(s: Snapshot): seq<Token> {
    [Comma] + Object("dlq", DlqFields(s)) + [Comma] + Object("config", ConfigFields(s.config)) + [Close('}')]
  }

  function AdminTokens(s: Snapshot): seq<Token> {
    BeforeSegments(s) + Object("segments", SegmentFields(s)) + Middle(s)
    + Object("resilience", ResilienceFields(s)) + AfterResilience(s)
  }

  function AdminBody(s: Snapshot): string {
    Render(AdminTokens(s))
  }

  // ----- what the client sees of a name -----

  /** What unescaping gives back for one escaped character. */
  function SeenChar(c: char): (s: string)
    ensures |s| >= 1
    ensures SafeChar(c) ==> s == [c]
    ensures !SafeChar(c) ==> |s| >= 2
  {
    if c == '\n' || c == '\r' || c == '\t' then [c]
    else if c as int < 0x20 then "u00" + [HexDigit(c as int / 16), HexDigit(c as int % 16)]
    else Utf8(c)
  }

  function Seen(s: string): string {
    if s == [] then [] else SeenChar(s[0]) + Seen(s[1..])
  }

  /** The characters the client reads back as they were: ASCII other than the control characters without a
      short escape. */
  predicate SafeChar(c: char) {
    c == '\n' || c == '\r' || c == '\t' || 0x20 <= c as int < 0x80
  }

  ghost predicate SafeName(s: string) {
    forall i :: 0 <= i < |s| ==> SafeChar(s[i])
  }

  lemma {:induction false} SeenLength(s: string)
    ensures |Seen(s)| >= |s|
    ensures |Seen(s)| == |s| <==> SafeName(s)
  {
    if s != [] {
      SeenLength(s[1..]);
      assert s == [s[0]] + s[1..];
    }
  }

  /** Exactly the safe names come back unchanged. */
  lemma {:induction false} SeenIffSafe(s: string)
    ensures Seen(s) == s <==> SafeName(s)
  {
    SeenLength(s);
    if s != [] && SafeName(s) {
      SeenIffSafe(s[1..]);
    }
  }

  ghost predicate Literal(s: string) {
    forall i :: 0 <= i < |s| ==> s[i] != '"' && s[i] != '\\'
  }

  /** An escaped character is either literal text or a backslash, a selector and literal text. */
  lemma EscapeShape(c: char)
    ensures var e := EscapeChar(c);
            if e[0] == '\\' then |e| >= 2 && Literal(e[2..]) && SeenChar(c) == [Unescaped(e[1])] + e[2..]
            else Literal(e) && SeenChar(c) == e
  {
  }

  lemma UnescapeChar(c: char, rest: string)
    requires Unescape(rest).Some?
    ensures Unescape(EscapeChar(c) + rest) == Some(SeenChar(c) + Unescape(rest).value)
  {
    hide EscapeChar, SeenChar;
    EscapeShape(c);
    var e := EscapeChar(c);
    if e[0] == '\\' {
      UnescapePlain(e[2..], rest);
      assert (e + rest)[2..] == e[2..] + rest;
      AppendAssoc([Unescaped(e[1])], e[2..], Unescape(rest).value);
    } else {
      UnescapePlain(e, rest);
    }
  }

  lemma {:induction false} UnescapePlain(a: string, rest: string)
    requires Unescape(rest).Some? && Literal(a)
    ensures Unescape(a + rest) == Some(a + Unescape(rest).value)
  {
    if a == [] {
      assert a + rest == rest && [] + Unescape(rest).value == Unescape(rest).value;
    } else {
      UnescapePlain(a[1..], rest);
      assert (a + rest)[1..] == a[1..] + rest;
      assert [a[0]] + (a[1..] + Unescape(rest).value) == a + Unescape(rest).value;
    }
  }

  /** An escaped name is read back as what the client sees of it, and the scan stops at the closing quote. */
  lemma {:induction false} UnescapeEscape(s: string, rest: string)
    ensures Unescape(Escape(s) + "\"" + rest) == Some(Seen(s))
  {
    hide EscapeChar, SeenChar;
    if s == [] {
      assert Escape(s) + "\"" + rest == "\"" + rest;
    } else {
      UnescapeEscape(s[1..], rest);
      UnescapeChar(s[0], Escape(s[1..]) + "\"" + rest);
      assert Escape(s) + "\"" + rest == EscapeChar(s[0]) + (Escape(s[1..]) + "\"" + rest);
    }
  }
}
