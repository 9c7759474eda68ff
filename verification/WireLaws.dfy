/** Both directions of the wire: the broker reads the client's requests, the client reads the broker's replies. */
module WireLaws {
  import opened Common
  import opened Wire
  import opened Protocol
  import opened FetchWindow
  import opened Bodies
  import opened Client

  // ----- what the broker reads -----

  lemma {:induction false} FramesFit(rs: seq<Request>)
    requires AllSendable(rs)
    ensures AllFit(RequestFrames(rs))
  {
  }

  /** Two frame lists with the same bytes are the same list. */
  lemma SameBytesSameFrames(fs: seq<Frame>, gs: seq<Frame>)
    requires AllFit(fs) && AllFit(gs) && EncodeAll(fs) == EncodeAll(gs)
    ensures fs == gs
  {
    hide EncodeAll;
    var stream := EncodeAll(fs);
    assert stream + [] == stream;
    NoMoreFramesThanSent(fs, [], gs);
    NoMoreFramesThanSent(gs, [], fs);
    FramingIsUnique(fs, [], gs, [], stream);
    assert gs[..|fs|] == gs;
  }

  /** Over every run: whatever frames a broker cuts the client's written bytes into, it reads from them the very
      requests the client made, in order, save those whose names are over the decoder's cap. */
  lemma BrokerReadsRequests(c: Client, gs: seq<Frame>)
    requires c.Valid() && c.broken.None?
    requires AllFit(gs) && EncodeAll(gs) == c.conn.written
    ensures |gs| == |c.sent|
    ensures forall i :: 0 <= i < |gs| ==> DecodeRequest(gs[i]) == if NamesFit(c.sent[i]) then Some(c.sent[i]) else None
  {
    hide DecodeRequest, RequestFrame, EncodeAll;
    FramesFit(c.sent);
    SameBytesSameFrames(gs, RequestFrames(c.sent));
    forall i | 0 <= i < |gs|
      ensures DecodeRequest(gs[i]) == if NamesFit(c.sent[i]) then Some(c.sent[i]) else None
    {
      assert Sendable(c.sent[i]);
      RequestReads(c.sent[i]);
    }
  }

  // ----- what the client reads -----

  predicate Wide(d: Delivery) {
    && d.offset < 0x1_0000_0000_0000_0000 && d.generation < 0x1_0000_0000_0000_0000
    && d.timestampMs < 0x1_0000_0000_0000_0000 && |d.key| <= 0xFFFF && |d.headers| <= 0xFFFF
  }

  function DeliverBody(d: Delivery): Bytes {
    LittleEndian(d.offset, 8) + LittleEndian(d.generation, 8) + [d.flags] + LittleEndian(d.timestampMs, 8)
    + Var(d.key) + Var(d.headers) + d.payload
  }

  /** A delivery the broker encodes is the delivery the client decodes. */
  lemma DeliverReads(d: Delivery)
    requires Wide(d)
    ensures DecodeDeliver(DeliverBody(d)) == Some(d)
  {
    hide LittleEndian, FromLittleEndian, Var, TakeVar;
    var body := DeliverBody(d);
    var fixed := LittleEndian(d.offset, 8) + LittleEndian(d.generation, 8) + [d.flags] + LittleEndian(d.timestampMs, 8);
    var tail := Var(d.headers) + d.payload;
    Regroup2(fixed, Var(d.key), Var(d.headers), d.payload);
    Front(fixed, Var(d.key) + tail);
    TakeVarOf(d.key, tail);
    TakeVarOf(d.headers, d.payload);
    assert body[0..8] == LittleEndian(d.offset, 8) && body[8..16] == LittleEndian(d.generation, 8);
    assert body[16] == d.flags && body[17..25] == LittleEndian(d.timestampMs, 8);
    LittleEndian64(d.offset);
    LittleEndian64(d.generation);
    LittleEndian64(d.timestampMs);
  }

  lemma Regroup2(a: Bytes, b: Bytes, c: Bytes, d: Bytes)
    ensures a + b + c + d == a + (b + (c + d))
  {
  }

  lemma U64Reads(before: Bytes, n: U64, after: Bytes)
    ensures U64At(before + LittleEndian(n, 8) + after, |before|) == n
  {
    hide LittleEndian, FromLittleEndian;
    var s := before + LittleEndian(n, 8) + after;
    assert s[|before|..|before| + 8] == LittleEndian(n, 8);
    LittleEndian64(n);
  }

  /** Each advisory the broker encodes is added to the window's result as it was written, and to nothing else. */
  lemma DeadLetterReads(lz4: Lz4, cap: nat, d: Drain, offset: U64, reason: Byte)
    ensures var f := Frame(TAG_DEAD_LETTER, LittleEndian(offset, 8) + [reason]);
            BodyOk(f) && d.Feed(lz4, cap, f)
                      == d.(out := d.out.(deadLetters := d.out.deadLetters + [DeadLetter(offset, reason)]))
  {
    hide LittleEndian, FromLittleEndian, U64At;
    U64Reads([], offset, [reason]);
    assert [] + LittleEndian(offset, 8) + [reason] == LittleEndian(offset, 8) + [reason];
  }

  lemma TruncationReads(lz4: Lz4, cap: nat, d: Drain, earliest: U64, skipped: U64)
    ensures var f := Frame(TAG_TRUNCATED, LittleEndian(earliest, 8) + LittleEndian(skipped, 8));
            BodyOk(f) && d.Feed(lz4, cap, f)
                      == d.(out := d.out.(truncations := d.out.truncations + [Truncation(earliest, skipped)]))
  {
    hide LittleEndian, FromLittleEndian, U64At;
    TruncationFields(earliest, skipped);
  }

  lemma TruncationFields(earliest: U64, skipped: U64)
    ensures var s := LittleEndian(earliest, 8) + LittleEndian(skipped, 8);
            U64At(s, 0) == earliest && U64At(s, 8) == skipped
  {
    hide LittleEndian, FromLittleEndian, U64At;
    var a, b := LittleEndian(earliest, 8), LittleEndian(skipped, 8);
    U64Reads([], earliest, b);
    U64Reads(a, skipped, []);
    assert [] + a + b == a + b && a + b + [] == a + b;
  }

  lemma GapReads(lz4: Lz4, cap: nat, d: Drain, from: U64, to: U64, bytes: U64, reason: Byte)
    ensures var f := Frame(TAG_GAP_MARKER,
                           LittleEndian(from, 8) + LittleEndian(to, 8) + LittleEndian(bytes, 8) + [reason]);
            BodyOk(f) && d.Feed(lz4, cap, f) == d.(out := d.out.(gaps := d.out.gaps + [Gap(from, to, bytes, reason)]))
  {
    hide LittleEndian, FromLittleEndian, U64At;
    GapFields(from, to, bytes, reason);
  }

  lemma GapFields(from: U64, to: U64, bytes: U64, reason: Byte)
    ensures var s := LittleEndian(from, 8) + LittleEndian(to, 8) + LittleEndian(bytes, 8) + [reason];
            U64At(s, 0) == from && U64At(s, 8) == to && U64At(s, 16) == bytes
  {
    hide LittleEndian, FromLittleEndian, U64At;
    var a, b, c := LittleEndian(from, 8), LittleEndian(to, 8), LittleEndian(bytes, 8);
    U64Reads([], from, b + c + [reason]);
    U64Reads(a, to, c + [reason]);
    U64Reads(a + b, bytes, [reason]);
    assert [] + a + (b + c + [reason]) == a + b + c + [reason];
    assert a + b + (c + [reason]) == a + b + c + [reason];
  }

  /** Every publish reply the broker can give is told apart and read as it was written. */
  lemma PubRepliesRead(utf8Valid: Bytes -> bool, offset: U64, hint: Bytes, message: Bytes)
    requires |hint| <= 0xFFFF && utf8Valid(hint)
    ensures PubVerdict(utf8Valid, Frame(TAG_PUB_ACK, LittleEndian(offset, 8))) == Some(Ok(ProduceAck(offset, false)))
    ensures PubVerdict(utf8Valid, Frame(TAG_PUB_ACK_DUPLICATE, LittleEndian(offset, 8))) == Some(Ok(ProduceAck(offset, true)))
    ensures PubVerdict(utf8Valid, Frame(TAG_NOT_LEADER, [1] + Var(hint))) == Some(Err(NotLeader(hint)))
    ensures PubVerdict(utf8Valid, Frame(TAG_ERR, message)) == Some(Err(ServerError(message)))
  {
    hide LittleEndian, FromLittleEndian, Var, TakeVar;
    LittleEndian64(offset);
    TakeVarOf(hint, []);
    assert Var(hint) + [] == Var(hint);
    Front([1], Var(hint));
  }

  /** A stream status the broker encodes is the one the client returns. */
  lemma StreamStatusReads(status: StreamStatus)
    requires status.head < 0x1_0000_0000_0000_0000
    ensures var block := [if status.exists_ then 1 else 0] + LittleEndian(status.head, 8);
            StreamInfoVerdict(Frame(TAG_STREAM_INFO, [1] + LittleEndian(9, 2) + block)) == Some(Ok(status))
  {
    hide LittleEndian, FromLittleEndian, U64At;
    var flag: Byte := if status.exists_ then 1 else 0;
    var block := [flag] + LittleEndian(status.head, 8);
    var body := [1] + LittleEndian(9, 2) + block;
    Pow256Two();
    LittleEndianRoundTrip(9, 2);
    assert body[1..3] == LittleEndian(9, 2) && body[3..12] == block;
    U64Reads([flag], status.head, []);
    assert [flag] + LittleEndian(status.head, 8) + [] == block;
  }

  /** A stored payload with its compression descriptor is restored exactly when it is within the record cap,
      stored raw or compressed by whatever the LZ4 decoder inverts. */
  lemma StoredPayloadReads(lz4: Lz4, codec: Byte, stream: Bytes, raw: Bytes)
    requires |raw| < 0x1_0000_0000
    requires (codec == 0 && stream == raw) || (codec == 1 && lz4(stream, |raw|) == Some(raw))
    ensures DecompressPayload(lz4, [codec] + LittleEndian(0, 4) + LittleEndian(|raw|, 4) + stream)
         == if |raw| <= MAX_DECOMPRESSED then Some(raw) else None
  {
    hide LittleEndian, FromLittleEndian;
    DescriptorReads(codec, |raw|, stream);
  }

  lemma DescriptorReads(codec: Byte, length: U32, stream: Bytes)
    ensures var stored := [codec] + LittleEndian(0, 4) + LittleEndian(length, 4) + stream;
            && |stored| == 9 + |stream| && stored[0] == codec && stored[9..] == stream
            && FromLittleEndian(stored[1..5]) == 0 && FromLittleEndian(stored[5..9]) == length
  {
    hide FromLittleEndian;
    var zero, size := LittleEndian(0, 4), LittleEndian(length, 4);
    Fields([codec], zero, size, stream);
    LittleEndian32(0);
    LittleEndian32(length);
  }

  lemma Fields(a: Bytes, b: Bytes, c: Bytes, d: Bytes)
    requires |a| == 1 && |b| == 4 && |c| == 4
    ensures var s := a + b + c + d;
            |s| == 9 + |d| && s[0] == a[0] && s[1..5] == b && s[5..9] == c && s[9..] == d
  {
  }

  // ----- what the broker's frames offer the client -----

  ghost predicate AllKnown(fs: seq<Frame>) {
    forall i :: 0 <= i < |fs| ==> KnownTag(fs[i].tag)
  }

  lemma {:induction false} StripCons(f: Frame, fs: seq<Frame>)
    ensures Strip([f] + fs) == (if IsPush(f) then [] else [f]) + Strip(fs)
  {
    if fs == [] {
      assert ([f] + fs)[..0] == [];
    } else {
      StripCons(f, fs[..|fs| - 1]);
      assert ([f] + fs)[..|fs|] == [f] + fs[..|fs| - 1];
    }
  }

  /** The first reply of a stream that begins with a frame: that frame, or what follows a push. */
  lemma HeadOfStream(fs: seq<Frame>, rest: Bytes)
    requires fs != [] && AllFit(fs) && AllKnown(fs)
    ensures var stream, tail := EncodeAll(fs) + rest, EncodeAll(fs[1..]) + rest;
            if IsPush(fs[0]) then FirstReply(stream) == FirstReply(tail) && AfterReply(stream) == AfterReply(tail)
            else FirstReply(stream) == Some(fs[0]) && AfterReply(stream) == tail
  {
    hide EncodeAll, EncodeFrame, DecodeFrame;
    assert fs == [fs[0]] + fs[1..];
    EncodeAllCons(fs[0], fs[1..]);
    AppendAssoc(EncodeFrame(fs[0]), EncodeAll(fs[1..]), rest);
    DecodeEncode(fs[0], EncodeAll(fs[1..]) + rest);
    FirstReplyStep(EncodeAll(fs) + rest, fs[0], EncodeAll(fs[1..]) + rest);
  }

  function Singles(fs: seq<Frame>): (ws: seq<seq<Frame>>)
    ensures |ws| == |fs|
  {
    seq(|fs|, i requires 0 <= i < |fs| => [fs[i]])
  }

  lemma NoSingles()
    ensures Singles([]) == []
  {
  }

  lemma SinglesCons(f: Frame, fs: seq<Frame>)
    ensures Singles([f] + fs) == [[f]] + Singles(fs)
  {
  }

  /** Publish replies the broker wrote, with pushes anywhere between, are what a draining window finds ahead. */
  lemma {:induction false} PubsArrive(utf8Valid: Bytes -> bool, fs: seq<Frame>, rest: Bytes)
    requires AllFit(fs) && AllKnown(fs)
    requires forall f :: f in Strip(fs) ==> PubVerdict(utf8Valid, f).Some?
    ensures PubsAhead(utf8Valid, EncodeAll(fs) + rest, |Strip(fs)|) == Some(Singles(Strip(fs)))
  {
    hide EncodeAll, PubVerdict, FirstReply, AfterReply, PubsAhead, Singles;
    if fs == [] {
      PubsAheadStep(utf8Valid, EncodeAll(fs) + rest, 0);
      NoSingles();
    } else {
      var tail := EncodeAll(fs[1..]) + rest;
      HeadOfStream(fs, rest);
      assert fs == [fs[0]] + fs[1..];
      StripCons(fs[0], fs[1..]);
      if IsPush(fs[0]) {
        assert [] + Strip(fs[1..]) == Strip(fs[1..]);
        PubsArrive(utf8Valid, fs[1..], rest);
        SameReplySamePubs(utf8Valid, EncodeAll(fs) + rest, tail, |Strip(fs)|);
      } else {
        PubsArrive(utf8Valid, fs[1..], rest);
        assert fs[0] in Strip(fs);
        SinglesCons(fs[0], Strip(fs[1..]));
        PubsAheadStep(utf8Valid, EncodeAll(fs) + rest, |Strip(fs)|);
      }
    }
  }

  lemma SameReplySamePubs(utf8Valid: Bytes -> bool, s: Bytes, t: Bytes, n: nat)
    requires FirstReply(s) == FirstReply(t) && AfterReply(s) == AfterReply(t)
    ensures PubsAhead(utf8Valid, s, n) == PubsAhead(utf8Valid, t, n)
  {
  }

  lemma SameReplySameWindow(s: Bytes, t: Bytes, limit: nat)
    requires FirstReply(s) == FirstReply(t) && AfterReply(s) == AfterReply(t)
    ensures WindowAhead(s, limit) == WindowAhead(t, limit)
  {
  }

  /** A whole window: at most `limit` well-formed deliveries and advisories, then a well-formed terminator. */
  ghost predicate WholeWindow(w: seq<Frame>, limit: nat) {
    && w != [] && |w| - 1 <= limit && WindowBody(w[..|w| - 1])
    && Terminates(w[|w| - 1]) && BodyOk(w[|w| - 1])
  }

  lemma WholeWindowHead(f: Frame, after: seq<Frame>, limit: nat)
    requires WholeWindow([f] + after, limit)
    ensures BodyOk(f)
    ensures after == [] ==> Terminates(f)
    ensures after != [] ==> (f.tag == TAG_DELIVER || IsAdvisory(f)) && limit > 0 && WholeWindow(after, limit - 1)
  {
    hide BodyOk;
    var w := [f] + after;
    if after != [] {
      assert w[..|w| - 1] == [f] + after[..|after| - 1];
      assert w[..|w| - 1][0] == f && w[|w| - 1] == after[|after| - 1];
      forall i | 0 <= i < |after| - 1
        ensures (after[i].tag == TAG_DELIVER || IsAdvisory(after[i])) && BodyOk(after[i])
      {
        assert after[i] == w[..|w| - 1][i + 1];
      }
    }
  }

  /** A window the broker wrote, with pushes anywhere between, is what a fetch finds ahead, whether or not its
      records can be decompressed and whatever they add up to. */
  lemma {:induction false} WindowArrives(fs: seq<Frame>, rest: Bytes, limit: nat)
    requires AllFit(fs) && AllKnown(fs) && WholeWindow(Strip(fs), limit)
    ensures WindowAhead(EncodeAll(fs) + rest, limit) == Some(Strip(fs))
  {
    hide EncodeAll, BodyOk, FirstReply, AfterReply, WholeWindow;
    NoEmptyWindow(limit);
    assert fs != [];
    var tail, after := EncodeAll(fs[1..]) + rest, Strip(fs[1..]);
    HeadOfStream(fs, rest);
    assert fs == [fs[0]] + fs[1..];
    StripCons(fs[0], fs[1..]);
    if IsPush(fs[0]) {
      assert [] + after == after;
      WindowArrives(fs[1..], rest, limit);
      SameReplySameWindow(EncodeAll(fs) + rest, tail, limit);
    } else {
      WholeWindowHead(fs[0], after, limit);
      if after == [] {
        assert [fs[0]] + after == [fs[0]];
      } else {
        WindowArrives(fs[1..], rest, limit - 1);
      }
    }
  }

  lemma NoEmptyWindow(limit: nat)
    ensures !WholeWindow([], limit)
  {
  }
}
