/** The body codecs: what the broker reads from a request the client wrote, and what the client reads from a
    reply the broker wrote. */
module Bodies {
  import opened Common
  import opened Wire
  import opened Protocol
  import opened FetchWindow

  /** The wire-boundary cap on a stream name, subject or pattern, checked by the decoder only. */
  const MAX_STREAM_ID_LEN := 1024

  // ----- the reader -----

  function ReadU64(s: Bytes): (n: U64)
    requires |s| == 8
    ensures n == FromLittleEndian(s)
  {
    FromLittleEndianInjective(s);
    Pow256Eight();
    FromLittleEndian(s)
  }

  function ReadU32(s: Bytes): (n: U32)
    requires |s| == 4
    ensures n == FromLittleEndian(s)
  {
    FromLittleEndianInjective(s);
    Pow256Four();
    FromLittleEndian(s)
  }

  function TakeU64(s: Bytes): Option<(U64, Bytes)> {
    if |s| < 8 then None else Some((ReadU64(s[..8]), s[8..]))
  }

  /** A variable field no longer than a stream name may be. */
  function TakeCapped(s: Bytes): Option<(Bytes, Bytes)> {
    var field := TakeVar(s);
    if field.None? || |field.value.0| > MAX_STREAM_ID_LEN then None else field
  }

  /** A version-1 block and what follows it. */
  function TakeBlock(body: Bytes): Option<(Bytes, Bytes)> {
    if body == [] || body[0] != 1 then None else TakeVar(body[1..])
  }

  lemma TakeU64Of(n: U64, rest: Bytes)
    ensures TakeU64(LittleEndian(n, 8) + rest) == Some((n, rest))
  {
    Pow256Eight();
    LittleEndianRoundTrip(n, 8);
    Front(LittleEndian(n, 8), rest);
  }

  lemma TakeVarOf(field: Bytes, rest: Bytes)
    requires |field| <= 0xFFFF
    ensures TakeVar(Var(field) + rest) == Some((field, rest))
  {
    Pow256Two();
    LittleEndianRoundTrip(|field|, 2);
    var s := Var(field) + rest;
    assert s[..2] == LittleEndian(|field|, 2) && s[2..2 + |field|] == field && s[2 + |field|..] == rest;
  }

  lemma Pow256Two()
    ensures Pow256(2) == 0x1_0000
  {
  }

  lemma Front(a: Bytes, b: Bytes)
    ensures (a + b)[..|a|] == a && (a + b)[|a|..] == b
  {
  }

  // ----- requests -----

  function DecodeDedup(s: Bytes, hasSequence: bool): Option<(Dedup, Bytes)> {
    var producer := TakeVar(s);
    if producer.None? then None
    else
      var epoch := TakeU64(producer.value.1);
      if epoch.None? then None
      else
        var msgId := TakeVar(epoch.value.1);
        if msgId.None? then None
        else if !hasSequence then
          Some((Dedup(producer.value.0, epoch.value.0, msgId.value.0, None), msgId.value.1))
        else
          var sequence := TakeU64(msgId.value.1);
          if sequence.None? then None
          else Some((Dedup(producer.value.0, epoch.value.0, msgId.value.0, Some(sequence.value.0)), sequence.value.1))
  }

  /** What follows the flags, the time stamp, the key and the headers of a publish. */
  function DecodePubTail(flags: Byte, s: Bytes): Option<(Option<Dedup>, Bytes)> {
    if flags / 128 % 2 == 1 then
      var d := DecodeDedup(s, flags / 32 % 2 == 1);
      if d.None? then None else Some((Some(d.value.0), d.value.1))
    else if flags / 32 % 2 == 1 then None
    else Some((None, s))
  }

  function DecodePub(body: Bytes): Option<Publish> {
    if body == [] then None
    else
      var time := TakeU64(body[1..]);
      if time.None? then None
      else
        var key := TakeVar(time.value.1);
        if key.None? then None
        else
          var headers := TakeVar(key.value.1);
          if headers.None? then None
          else
            var tail := DecodePubTail(body[0], headers.value.1);
            if tail.None? then None
            else Some(Publish(Message(key.value.0, headers.value.0, tail.value.1, time.value.0), tail.value.0,
                              PubAckLevel(body[0]), body[0] / 64 % 2 == 1))
  }

  function DecodeName(body: Bytes): Option<(Bytes, Bytes)> {
    var block := TakeBlock(body);
    if block.None? then None
    else
      var name := TakeCapped(block.value.0);
      if name.None? then None else Some((name.value.0, block.value.1))
  }

  /** Two fields of one block; the second is capped too when it is a pattern. */
  function DecodeTwoFields(body: Bytes, capSecond: bool): Option<(Bytes, Bytes)> {
    var block := TakeBlock(body);
    if block.None? then None
    else
      var first := TakeCapped(block.value.0);
      if first.None? then None
      else
        var second := if capSecond then TakeCapped(first.value.1) else TakeVar(first.value.1);
        if second.None? then None else Some((first.value.0, second.value.0))
  }

  /** A fetch; fields a short block does not reach read as zero. */
  function DecodeFetch(body: Bytes): Option<Request> {
    var block := TakeBlock(body);
    if block.None? then None
    else
      var b := block.value.0;
      Some(Request.Fetch(if |b| >= 5 then ReadU32(b[1..5]) else 0,
                         if |b| >= 13 then ReadU64(b[5..13]) else 0,
                         if |b| >= 21 then ReadU64(b[13..21]) else 0,
                         b != [] && b[0] % 2 == 1))
  }

  /** The request the broker reads from a frame. */
  function DecodeRequest(f: Frame): Option<Request> {
    var b := f.body;
    if f.tag == TAG_CONNECT then Some(Request.Connect(b))
    else if f.tag == TAG_PING then Some(Ping)
    else if f.tag == TAG_SUB then Some(Sub(b))
    else if f.tag == TAG_UNSUB then Some(Unsub)
    else if f.tag == TAG_SUB_TO then
      var fields := DecodeTwoFields(b, false);
      if fields.None? then None else Some(SubTo(fields.value.0, fields.value.1))
    else if f.tag == TAG_SUB_SUBJECT then
      var fields := DecodeTwoFields(b, false);
      if fields.None? then None else Some(SubSubject(fields.value.0, fields.value.1))
    else if f.tag == TAG_BIND_SUBJECT then
      var fields := DecodeTwoFields(b, true);
      if fields.None? then None else Some(BindSubject(fields.value.0, fields.value.1))
    else if f.tag == TAG_STREAM_DECLARE then
      var name := DecodeName(b);
      if name.None? then None else Some(StreamDeclare(name.value.0))
    else if f.tag == TAG_STREAM_INFO then
      var name := DecodeName(b);
      if name.None? then None else Some(StreamInfo(name.value.0))
    else if f.tag == TAG_PUB then
      var p := DecodePub(b);
      if p.None? then None else Some(Pub(p.value))
    else if f.tag == TAG_PUB_TO || f.tag == TAG_PUB_SUBJECT then
      var name := DecodeName(b);
      if name.None? then None
      else
        var p := DecodePub(name.value.1);
        if p.None? then None
        else Some(if f.tag == TAG_PUB_TO then PubTo(name.value.0, p.value) else PubSubject(name.value.0, p.value))
    else if f.tag == TAG_ACK then
      if |b| == 25 && b[0] <= 3 then Some(Ack(b[0], ReadU64(b[1..9]), ReadU64(b[9..17]), ReadU64(b[17..25]))) else None
    else if f.tag == TAG_CUMULATIVE_ACK then
      var upTo := TakeU64(b);
      if upTo.None? then None else Some(CumulativeAck(upTo.value.0, upTo.value.1))
    else if f.tag == TAG_FLOW then
      if |b| == 4 then Some(Flow(ReadU32(b))) else None
    else if f.tag == TAG_FETCH then DecodeFetch(b)
    else None
  }

  /** Every name the decoder caps is within the cap. */
  predicate NamesFit(r: Request) {
    match r
    case SubTo(name, _) => |name| <= MAX_STREAM_ID_LEN
    case SubSubject(name, _) => |name| <= MAX_STREAM_ID_LEN
    case BindSubject(name, pattern) => |name| <= MAX_STREAM_ID_LEN && |pattern| <= MAX_STREAM_ID_LEN
    case StreamDeclare(name) => |name| <= MAX_STREAM_ID_LEN
    case StreamInfo(name) => |name| <= MAX_STREAM_ID_LEN
    case PubTo(name, _) => |name| <= MAX_STREAM_ID_LEN
    case PubSubject(name, _) => |name| <= MAX_STREAM_ID_LEN
    case _ => true
  }

  lemma DedupReads(d: Dedup, rest: Bytes)
    requires |d.producerId| <= 0xFFFF && |d.msgId| <= 0xFFFF
    ensures DecodeDedup(DedupBlock(d) + rest, d.sequence.Some?) == Some((d, rest))
  {
    hide LittleEndian, FromLittleEndian, Var, TakeVar, TakeU64;
    var sequence := if d.sequence.Some? then LittleEndian(d.sequence.value, 8) else [];
    var epoch := LittleEndian(d.epoch, 8);
    Regroup4(Var(d.producerId), epoch, Var(d.msgId), sequence, rest);
    TakeVarOf(d.producerId, epoch + (Var(d.msgId) + (sequence + rest)));
    TakeU64Of(d.epoch, Var(d.msgId) + (sequence + rest));
    TakeVarOf(d.msgId, sequence + rest);
    if d.sequence.Some? {
      TakeU64Of(d.sequence.value, rest);
    } else {
      assert sequence + rest == rest;
    }
  }

  lemma Regroup4(a: Bytes, b: Bytes, c: Bytes, d: Bytes, e: Bytes)
    ensures a + b + c + d + e == a + (b + (c + (d + e)))
  {
  }

  lemma Flags(p: Publish)
    ensures var f := PubFlags(p);
            && (f / 128 % 2 == 1 <==> p.dedup.Some?)
            && (f / 64 % 2 == 1 <==> p.fireAndForget)
            && (f / 32 % 2 == 1 <==> p.dedup.Some? && p.dedup.value.sequence.Some?)
  {
  }

  /** The broker reads back the very publish the client encoded: message, dedup block, ack level and all. */
  lemma PubReads(p: Publish)
    requires PubFits(p) && PubWellFormed(p)
    ensures DecodePub(PubBody(p)) == Some(p)
  {
    hide LittleEndian, FromLittleEndian, Var, TakeVar, TakeU64, DedupBlock, DecodeDedup, PubFlags;
    var time := LittleEndian(p.msg.timestampMs, 8);
    var dedup := if p.dedup.Some? then DedupBlock(p.dedup.value) else [];
    var tail := dedup + p.msg.payload;
    Regroup5([PubFlags(p)], time, Var(p.msg.key), Var(p.msg.headers), dedup, p.msg.payload);
    Front([PubFlags(p)], time + (Var(p.msg.key) + (Var(p.msg.headers) + tail)));
    TakeU64Of(p.msg.timestampMs, Var(p.msg.key) + (Var(p.msg.headers) + tail));
    TakeVarOf(p.msg.key, Var(p.msg.headers) + tail);
    TakeVarOf(p.msg.headers, tail);
    Flags(p);
    AckLevelReads(p);
    if p.dedup.Some? {
      DedupReads(p.dedup.value, p.msg.payload);
    } else {
      assert tail == p.msg.payload;
    }
  }

  lemma AckLevelReads(p: Publish)
    requires PubWellFormed(p)
    ensures PubAckLevel(PubFlags(p)) == p.level
  {
  }

  lemma Regroup5(a: Bytes, b: Bytes, c: Bytes, d: Bytes, e: Bytes, f: Bytes)
    ensures a + b + c + d + e + f == a + (b + (c + (d + (e + f))))
  {
  }

  lemma BlockReads(block: Bytes, rest: Bytes)
    requires |block| <= 0xFFFF
    ensures TakeBlock([1] + Var(block) + rest) == Some((block, rest))
  {
    hide TakeVar;
    TakeVarOf(block, rest);
    AppendAssoc([1], Var(block), rest);
    Front([1], Var(block) + rest);
  }

  lemma CappedReads(field: Bytes, rest: Bytes)
    requires |field| <= 0xFFFF
    ensures TakeCapped(Var(field) + rest) == if |field| <= MAX_STREAM_ID_LEN then Some((field, rest)) else None
  {
    TakeVarOf(field, rest);
  }

  /** A name is read back exactly when it is within the decoder's cap. */
  lemma NameReads(name: Bytes, rest: Bytes)
    requires |name| <= 0xFFFF - 2
    ensures DecodeName(NameBlock(name) + rest) == if |name| <= MAX_STREAM_ID_LEN then Some((name, rest)) else None
  {
    hide TakeVar, TakeCapped, TakeBlock;
    assert NameBlock(name) == [1] + Var(Var(name));
    BlockReads(Var(name), rest);
    CappedReads(name, []);
    assert Var(name) + [] == Var(name);
  }

  lemma TwoFieldsRead(first: Bytes, second: Bytes, capSecond: bool)
    requires 4 + |first| + |second| <= 0xFFFF
    ensures DecodeTwoFields(TwoFieldBlock(first, second), capSecond)
         == if |first| <= MAX_STREAM_ID_LEN && (capSecond ==> |second| <= MAX_STREAM_ID_LEN)
            then Some((first, second)) else None
  {
    hide TakeVar, TakeCapped, TakeBlock;
    var block := Var(first) + Var(second);
    assert TwoFieldBlock(first, second) == [1] + Var(block) + [];
    BlockReads(block, []);
    CappedReads(first, Var(second));
    CappedReads(second, []);
    TakeVarOf(second, []);
    assert Var(second) + [] == Var(second);
  }

  lemma AckReads(op: Byte, offset: U64, generation: U64, delayMs: U64)
    requires op <= 3
    ensures DecodeRequest(RequestFrame(Ack(op, offset, generation, delayMs))) == Some(Ack(op, offset, generation, delayMs))
  {
    hide LittleEndian, FromLittleEndian;
    var b := RequestFrame(Ack(op, offset, generation, delayMs)).body;
    assert b[1..9] == LittleEndian(offset, 8) && b[9..17] == LittleEndian(generation, 8);
    assert b[17..25] == LittleEndian(delayMs, 8);
    LittleEndian64(offset);
    LittleEndian64(generation);
    LittleEndian64(delayMs);
  }

  lemma LittleEndian64(n: U64)
    ensures FromLittleEndian(LittleEndian(n, 8)) == n
  {
    Pow256Eight();
    LittleEndianRoundTrip(n, 8);
  }

  lemma LittleEndian32(n: U32)
    ensures FromLittleEndian(LittleEndian(n, 4)) == n
  {
    Pow256Four();
    LittleEndianRoundTrip(n, 4);
  }

  lemma FetchReads(maxRecords: U32, maxBytes: U64, expiresMs: U64, noWait: bool)
    ensures var r := Request.Fetch(maxRecords, maxBytes, expiresMs, noWait); DecodeRequest(RequestFrame(r)) == Some(r)
  {
    hide LittleEndian, FromLittleEndian, TakeVar, TakeBlock;
    var flag: Byte := if noWait then 1 else 0;
    var block := [flag] + LittleEndian(maxRecords, 4) + LittleEndian(maxBytes, 8) + LittleEndian(expiresMs, 8);
    var body := RequestFrame(Request.Fetch(maxRecords, maxBytes, expiresMs, noWait)).body;
    assert body == [1] + Var(block) + [];
    BlockReads(block, []);
    assert block[1..5] == LittleEndian(maxRecords, 4) && block[5..13] == LittleEndian(maxBytes, 8);
    assert block[13..21] == LittleEndian(expiresMs, 8);
    LittleEndian32(maxRecords);
    LittleEndian64(maxBytes);
    LittleEndian64(expiresMs);
  }

  /** Every request the client can send is read back by the broker as that request, except one whose stream
      name, subject or pattern is over the decoder's cap; the encoder has no such cap. */
  lemma RequestReads(r: Request)
    requires BodyEncodes(r) && WellFormed(r)
    ensures DecodeRequest(RequestFrame(r)) == if NamesFit(r) then Some(r) else None
  {
    hide LittleEndian, FromLittleEndian, TakeVar, TakeCapped, TakeU64, DecodeName, DecodeTwoFields, DecodePub;
    hide NameBlock, TwoFieldBlock, PubBody, DecodeFetch;
    match r {
      case SubTo(a, b) => TwoFieldsRead(a, b, false);
      case SubSubject(a, b) => TwoFieldsRead(a, b, false);
      case BindSubject(a, b) => TwoFieldsRead(a, b, true);
      case StreamDeclare(a) => NameAlone(a);
      case StreamInfo(a) => NameAlone(a);
      case Pub(p) => PubReads(p);
      case PubTo(a, p) => NameReads(a, PubBody(p)); PubReads(p);
      case PubSubject(a, p) => NameReads(a, PubBody(p)); PubReads(p);
      case Ack(op, offset, generation, delayMs) => AckReads(op, offset, generation, delayMs);
      case CumulativeAck(upTo, group) => TakeU64Of(upTo, group);
      case Flow(credit) => LittleEndian32(credit);
      case Fetch(a, b, c, d) => FetchReads(a, b, c, d);
      case _ =>
    }
  }

  lemma NameAlone(name: Bytes)
    requires |name| <= 0xFFFF - 2
    ensures DecodeName(NameBlock(name)) == if |name| <= MAX_STREAM_ID_LEN then Some((name, [])) else None
  {
    hide DecodeName, NameBlock;
    NameReads(name, []);
    assert NameBlock(name) + [] == NameBlock(name);
  }
}
