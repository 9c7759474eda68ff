/** The request/reply vocabulary of the IronBus client connection: which requests are owed a reply,
    what a whole reply is, and which reply belongs to which request. */
module Protocol {
  import opened Common
  import opened Wire

  const TAG_CONNECT: Byte := 1
  const TAG_INFO: Byte := 2
  const TAG_PING: Byte := 3
  const TAG_PONG: Byte := 4
  const TAG_PUB: Byte := 5
  const TAG_SUB: Byte := 6
  const TAG_UNSUB: Byte := 7
  const TAG_ACK: Byte := 8
  const TAG_FLOW: Byte := 10
  const TAG_OK: Byte := 11
  const TAG_ERR: Byte := 12
  const TAG_DELIVER: Byte := 13
  const TAG_PUB_ACK: Byte := 14
  const TAG_ACK_STATUS: Byte := 15
  const TAG_FLOW_END: Byte := 16
  const TAG_DEAD_LETTER: Byte := 17
  const TAG_TRUNCATED: Byte := 18
  const TAG_CUMULATIVE_ACK: Byte := 19
  const TAG_PUB_ACK_DUPLICATE: Byte := 20
  const TAG_GAP_MARKER: Byte := 21
  const TAG_PRODUCE_CONFIRM: Byte := 22
  const TAG_FETCH: Byte := 23
  const TAG_STREAM_DECLARE: Byte := 28
  const TAG_STREAM_INFO: Byte := 29
  const TAG_PUB_TO: Byte := 30
  const TAG_SUB_TO: Byte := 31
  const TAG_BIND_SUBJECT: Byte := 34
  const TAG_PUB_SUBJECT: Byte := 35
  const TAG_SUB_SUBJECT: Byte := 36
  const TAG_NOT_LEADER: Byte := 42

  /** The tags the client recognizes; any other tag ends the connection. Flow (10) is send-only. */
  predicate KnownTag(tag: Byte) {
    (1 <= tag <= 9) || (11 <= tag <= 23) || (28 <= tag <= 31) || (34 <= tag <= 36) || tag == 42
  }

  datatype Error =
    | Closed
    | ServerError(message: Bytes)
    | NotLeader(hint: Bytes)
    | UnknownFrame(tag: Byte)
    | UnexpectedFrame(tag: Byte)
    | TooManyFrames
    | AggregateCapExceeded
    | BadRecord
    | BadFrame(len: nat)
    | BadBody(tag: Byte)
    | FieldTooLarge
    | FrameTooLarge
    | InvalidAckLevel(level: nat)
    | Io(code: int)
    | Cancelled(code: int)

  // ----- requests -----

  datatype Message = Message(key: Bytes, headers: Bytes, payload: Bytes, timestampMs: U64)
  datatype Dedup = Dedup(producerId: Bytes, epoch: U64, msgId: Bytes, sequence: Option<U64>)
  datatype Publish = Publish(msg: Message, dedup: Option<Dedup>, level: nat, fireAndForget: bool)

  datatype Request =
    | Connect(hello: Bytes)
    | Ping
    | Sub(group: Bytes)
    | Unsub
    | SubTo(stream: Bytes, group: Bytes)
    | SubSubject(subject: Bytes, group: Bytes)
    | BindSubject(stream: Bytes, pattern: Bytes)
    | StreamDeclare(stream: Bytes)
    | StreamInfo(stream: Bytes)
    | Pub(pub: Publish)
    | PubTo(stream: Bytes, pub: Publish)
    | PubSubject(subject: Bytes, pub: Publish)
    | Ack(op: Byte, offset: U64, generation: U64, delayMs: U64)
    | CumulativeAck(upTo: U64, group: Bytes)
    | Flow(credit: U32)
    | Fetch(maxRecords: U32, maxBytes: U64, expiresMs: U64, noWait: bool)

  function Var(field: Bytes): Bytes {
    LittleEndian(|field|, 2) + field
  }

  function PubFlags(p: Publish): Byte {
    (if p.dedup.Some? then 128 else 0)
    + (if p.fireAndForget then 64 else 0)
    + (if p.dedup.Some? && p.dedup.value.sequence.Some? then 32 else 0)
    + (if p.level == 2 then 16 else 0)
  }

  function DedupBlock(d: Dedup): Bytes {
    Var(d.producerId) + LittleEndian(d.epoch, 8) + Var(d.msgId)
    + (if d.sequence.Some? then LittleEndian(d.sequence.value, 8) else [])
  }

  function PubBody(p: Publish): Bytes {
    [PubFlags(p)] + LittleEndian(p.msg.timestampMs, 8) + Var(p.msg.key) + Var(p.msg.headers)
    + (if p.dedup.Some? then DedupBlock(p.dedup.value) else []) + p.msg.payload
  }

  predicate PubFits(p: Publish) {
    && |p.msg.key| <= 0xFFFF && |p.msg.headers| <= 0xFFFF
    && (p.dedup.Some? ==> |p.dedup.value.producerId| <= 0xFFFF && |p.dedup.value.msgId| <= 0xFFFF)
  }

  /** The ack levels the client publishes at; level 0 is fire-and-forget. */
  predicate PubWellFormed(p: Publish) {
    p.level <= 2 && (p.level == 0 <==> p.fireAndForget)
  }

  function NameBlock(name: Bytes): Bytes {
    [1] + LittleEndian(2 + |name|, 2) + Var(name)
  }

  function TwoFieldBlock(first: Bytes, second: Bytes): Bytes {
    [1] + LittleEndian(4 + |first| + |second|, 2) + Var(first) + Var(second)
  }

  /** Whether every variable field fits its u16 slot, so the body encoder succeeds. */
  predicate BodyEncodes(r: Request) {
    match r
    case SubTo(a, b) => 4 + |a| + |b| <= 0xFFFF
    case SubSubject(a, b) => 4 + |a| + |b| <= 0xFFFF
    case BindSubject(a, b) => 4 + |a| + |b| <= 0xFFFF
    case StreamDeclare(a) => |a| <= 0xFFFF - 2
    case StreamInfo(a) => |a| <= 0xFFFF - 2
    case Pub(p) => PubFits(p)
    case PubTo(a, p) => |a| <= 0xFFFF - 2 && PubFits(p)
    case PubSubject(a, p) => |a| <= 0xFFFF - 2 && PubFits(p)
    case _ => true
  }

  function RequestFrame(r: Request): Frame {
    match r
    case Connect(hello) => Frame(TAG_CONNECT, hello)
    case Ping => Frame(TAG_PING, [])
    case Sub(group) => Frame(TAG_SUB, group)
    case Unsub => Frame(TAG_UNSUB, [])
    case SubTo(stream, group) => Frame(TAG_SUB_TO, TwoFieldBlock(stream, group))
    case SubSubject(subject, group) => Frame(TAG_SUB_SUBJECT, TwoFieldBlock(subject, group))
    case BindSubject(stream, pattern) => Frame(TAG_BIND_SUBJECT, TwoFieldBlock(stream, pattern))
    case StreamDeclare(stream) => Frame(TAG_STREAM_DECLARE, NameBlock(stream))
    case StreamInfo(stream) => Frame(TAG_STREAM_INFO, NameBlock(stream))
    case Pub(p) => Frame(TAG_PUB, PubBody(p))
    case PubTo(stream, p) => Frame(TAG_PUB_TO, NameBlock(stream) + PubBody(p))
    case PubSubject(subject, p) => Frame(TAG_PUB_SUBJECT, NameBlock(subject) + PubBody(p))
    case Ack(op, offset, generation, delayMs) =>
      Frame(TAG_ACK, [op] + LittleEndian(offset, 8) + LittleEndian(generation, 8) + LittleEndian(delayMs, 8))
    case CumulativeAck(upTo, group) => Frame(TAG_CUMULATIVE_ACK, LittleEndian(upTo, 8) + group)
    case Flow(credit) => Frame(TAG_FLOW, LittleEndian(credit, 4))
    case Fetch(maxRecords, maxBytes, expiresMs, noWait) =>
      Frame(TAG_FETCH, [1] + LittleEndian(21, 2) + [if noWait then 1 else 0] + LittleEndian(maxRecords, 4)
                       + LittleEndian(maxBytes, 8) + LittleEndian(expiresMs, 8))
  }

  /** What the client's calls build: a publish at a known ack level, an acknowledgement with a known op. */
  predicate WellFormed(r: Request) {
    match r
    case Pub(p) => PubWellFormed(p)
    case PubTo(_, p) => PubWellFormed(p)
    case PubSubject(_, p) => PubWellFormed(p)
    case Ack(op, _, _, _) => op <= 3
    case _ => true
  }

  predicate Sendable(r: Request) {
    BodyEncodes(r) && WellFormed(r) && RequestFrame(r).Fits()
  }

  ghost predicate AllSendable(rs: seq<Request>) {
    forall i :: 0 <= i < |rs| ==> Sendable(rs[i])
  }

  lemma AllSendableAppend(rs: seq<Request>, more: seq<Request>)
    requires AllSendable(rs) && AllSendable(more)
    ensures AllSendable(rs + more)
  {
    hide Sendable;
  }

  lemma AllSendableOne(r: Request)
    requires Sendable(r)
    ensures AllSendable([r])
  {
    hide Sendable;
  }

  /** The broker answers every request except a fire-and-forget publish. */
  predicate BearsReply(r: Request) {
    !(r.Pub? && r.pub.fireAndForget)
  }

  /** The two consume verbs are answered by a run of frames, every other verb by one frame. */
  predicate Streams(r: Request) {
    r.Flow? || r.Fetch?
  }

  /** The ack level a broker reads from the flags byte of a PUB body. */
  function PubAckLevel(flags: Byte): nat {
    if flags / 64 % 2 == 1 then 0
    else match flags / 8 % 4 case 1 => 0 case 2 => 2 case _ => 1
  }

  /** The wire byte tells the broker to stay silent exactly for the requests the client awaits no reply to,
      and otherwise carries the requested level. */
  lemma AckLevelOnTheWire(p: Publish)
    requires PubWellFormed(p)
    ensures PubAckLevel(RequestFrame(Pub(p)).body[0]) == p.level
    ensures BearsReply(Pub(p)) <==> PubAckLevel(RequestFrame(Pub(p)).body[0]) != 0
  {
  }

  function RequestFrames(rs: seq<Request>): seq<Frame> {
    seq(|rs|, i requires 0 <= i < |rs| => RequestFrame(rs[i]))
  }

  lemma RequestFramesAppend(rs: seq<Request>, more: seq<Request>)
    ensures RequestFrames(rs + more) == RequestFrames(rs) + RequestFrames(more)
  {
  }

  lemma RequestFramesOne(r: Request)
    ensures EncodeAll(RequestFrames([r])) == EncodeFrame(RequestFrame(r))
  {
    assert RequestFrames([r]) == [] + [RequestFrame(r)];
    EncodeAllSnoc([], RequestFrame(r));
  }

  /** The requests among `sent` that are answered, in order. */
  function Owing(sent: seq<Request>): seq<Request> {
    if sent == [] then []
    else
      var last := sent[|sent| - 1];
      Owing(sent[..|sent| - 1]) + if BearsReply(last) then [last] else []
  }

  lemma {:induction false} OwingAppend(sent: seq<Request>, rs: seq<Request>)
    ensures Owing(sent + rs) == Owing(sent) + Owing(rs)
  {
    if rs == [] {
      assert sent + rs == sent;
    } else {
      OwingAppend(sent, rs[..|rs| - 1]);
      assert (sent + rs)[..|sent + rs| - 1] == sent + rs[..|rs| - 1];
    }
  }

  lemma {:induction false} OwingAll(rs: seq<Request>)
    requires forall i :: 0 <= i < |rs| ==> BearsReply(rs[i])
    ensures Owing(rs) == rs
  {
    if rs != [] {
      OwingAll(rs[..|rs| - 1]);
    }
  }

  lemma OwingOne(r: Request)
    ensures Owing([r]) == if BearsReply(r) then [r] else []
  {
    assert [r][..0] == [];
  }

  lemma OwingOfWindow(rs: seq<Request>)
    requires |rs| == 1 || forall i :: 0 <= i < |rs| ==> BearsReply(rs[i])
    ensures (forall i :: 0 <= i < |rs| ==> BearsReply(rs[i])) ==> Owing(rs) == rs
    ensures |rs| == 1 ==> Owing(rs) == if BearsReply(rs[0]) then rs else []
  {
    if |rs| == 1 {
      assert rs == [rs[0]];
      OwingOne(rs[0]);
    } else {
      OwingAll(rs);
    }
  }

  // ----- replies -----

  predicate IsPush(f: Frame) {
    f.tag == TAG_PRODUCE_CONFIRM
  }

  predicate Terminates(f: Frame) {
    f.tag == TAG_FLOW_END || f.tag == TAG_ERR
  }

  ghost predicate IsReply(r: Request, w: seq<Frame>) {
    && w != []
    && (forall i :: 0 <= i < |w| ==> !IsPush(w[i]))
    && if Streams(r)
       then Terminates(w[|w| - 1]) && forall i :: 0 <= i < |w| - 1 ==> !Terminates(w[i])
       else |w| == 1
  }

  /** `replies[k]` is a whole reply to `requests[k]`, for as many requests as have been answered. */
  ghost predicate Answers(requests: seq<Request>, replies: seq<seq<Frame>>) {
    && |replies| <= |requests|
    && forall k :: 0 <= k < |replies| ==> IsReply(requests[k], replies[k])
  }

  function Strip(fs: seq<Frame>): seq<Frame> {
    if fs == [] then []
    else
      var last := fs[|fs| - 1];
      Strip(fs[..|fs| - 1]) + if IsPush(last) then [] else [last]
  }

  lemma StripSnoc(fs: seq<Frame>, f: Frame)
    ensures Strip(fs + [f]) == Strip(fs) + if IsPush(f) then [] else [f]
  {
    assert (fs + [f])[..|fs|] == fs;
  }

  function Flatten<T>(ws: seq<seq<T>>): seq<T> {
    if ws == [] then [] else Flatten(ws[..|ws| - 1]) + ws[|ws| - 1]
  }

  lemma FlattenSnoc<T>(ws: seq<seq<T>>, w: seq<T>)
    ensures Flatten(ws + [w]) == Flatten(ws) + w
  {
    assert (ws + [w])[..|ws|] == ws;
  }

  lemma {:induction false} FlattenCons<T>(w: seq<T>, ws: seq<seq<T>>)
    ensures Flatten([w] + ws) == w + Flatten(ws)
  {
    if ws == [] {
      assert ([w] + ws)[..0] == [];
    } else {
      FlattenCons(w, ws[..|ws| - 1]);
      assert ([w] + ws)[..|ws|] == [w] + ws[..|ws| - 1];
    }
  }

  /** Whole replies to the same request are prefix-free. */
  lemma ReplyIsPrefixFree(r: Request, w: seq<Frame>, v: seq<Frame>, ws: seq<Frame>, vs: seq<Frame>)
    requires IsReply(r, w) && IsReply(r, v) && w + ws <= v + vs
    ensures w == v && ws <= vs
  {
    forall i | 0 <= i < |w| && i < |v|
      ensures w[i] == v[i]
    {
      assert w[i] == (w + ws)[i] && v[i] == (v + vs)[i];
    }
    assert |w| == |v|;
    assert w == (w + ws)[..|w|] == (v + vs)[..|v|] == v;
    assert ws == (w + ws)[|w|..];
    assert ws == (v + vs)[|v|..|v| + |ws|];
    assert ws == vs[..|ws|];
  }

  /** FIFO pairing. Let `server` be the broker's own answers in request order. If what the client consumed,
      pushes removed, is a prefix of what the broker answered, then the client attributed to every request
      the very answer the broker gave to it. */
  lemma {:induction false} FifoPairing(requests: seq<Request>, client: seq<seq<Frame>>, server: seq<seq<Frame>>)
    requires Answers(requests, client) && Answers(requests, server)
    requires Flatten(client) <= Flatten(server)
    ensures client <= server
  {
    if client != [] {
      assert client == [client[0]] + client[1..];
      FlattenCons(client[0], client[1..]);
      assert IsReply(requests[0], client[0]);
      assert server != [];
      assert server == [server[0]] + server[1..];
      FlattenCons(server[0], server[1..]);
      assert IsReply(requests[0], server[0]);
      ReplyIsPrefixFree(requests[0], client[0], server[0], Flatten(client[1..]), Flatten(server[1..]));
      FifoPairing(requests[1..], client[1..], server[1..]);
    }
  }

  lemma {:induction false} StripMonotone(fs: seq<Frame>, gs: seq<Frame>)
    requires fs <= gs
    ensures Strip(fs) <= Strip(gs)
  {
    if fs != gs {
      assert fs <= gs[..|gs| - 1];
      StripMonotone(fs, gs[..|gs| - 1]);
    }
  }

  /** End to end. The broker wrote the frames `broker`: its answers in request order with pushes anywhere
      between. The client has received some prefix of those bytes, however the socket cut them, and holds
      `frames` and the undecoded `buf`. Then the frames are the broker's, in order, and every reply the
      client attributed to a request is the broker's reply to that request. */
  lemma EndToEndPairing(requests: seq<Request>, frames: seq<Frame>, buf: Bytes, replies: seq<seq<Frame>>,
                        broker: seq<Frame>, server: seq<seq<Frame>>)
    requires AllFit(frames) && AllFit(broker) && EncodeAll(frames) + buf <= EncodeAll(broker)
    requires Strip(frames) == Flatten(replies) && Answers(requests, replies)
    requires Strip(broker) == Flatten(server) && Answers(requests, server)
    ensures frames <= broker && replies <= server
  {
    NoMoreFramesThanSent(frames, buf, broker);
    assert EncodeAll(broker) + [] == EncodeAll(broker);
    FramingIsUnique(frames, buf, broker, [], EncodeAll(broker));
    StripMonotone(frames, broker);
    FifoPairing(requests, replies, server);
  }

  lemma {:induction false} NoMoreFramesThanSent(fs: seq<Frame>, buf: Bytes, gs: seq<Frame>)
    requires AllFit(fs) && AllFit(gs) && EncodeAll(fs) + buf <= EncodeAll(gs)
    ensures |fs| <= |gs|
  {
    if fs != [] {
      var stream := EncodeAll(gs);
      HeadFrame(fs, buf, stream);
      assert gs != [];
      assert EncodeAll(gs) + [] == stream;
      HeadFrame(gs, [], stream);
      assert gs == [gs[0]] + gs[1..];
      EncodeAllCons(gs[0], gs[1..]);
      assert stream[|EncodeFrame(gs[0])|..] == EncodeAll(gs[1..]);
      NoMoreFramesThanSent(fs[1..], buf, gs[1..]);
    }
  }

  // ----- the consume binding -----

  /** The stream the broker has bound the connection to after answering `requests`; the empty name is the
      default stream. The broker changes the binding only when it replies Ok; `resolve(k)` is the stream it
      resolved the subject of request `k` to. */
  ghost function BoundStream(resolve: nat -> Bytes, requests: seq<Request>, replies: seq<seq<Frame>>): Bytes
    requires Answers(requests, replies)
    decreases |replies|
  {
    if replies == [] then []
    else
      var k := |replies| - 1;
      assert IsReply(requests[k], replies[k]);
      var before := BoundStream(resolve, requests, replies[..k]);
      if replies[k][0].tag != TAG_OK then before
      else match requests[k]
        case Sub(_) => []
        case Unsub => []
        case SubTo(stream, _) => stream
        case SubSubject(_, _) => resolve(k)
        case _ => before
  }

  /** The client's flag after an Ok reply to `r`. */
  predicate Rebind(r: Request, before: bool) {
    match r
    case Sub(_) => false
    case Unsub => false
    case SubTo(stream, _) => stream != []
    case SubSubject(_, _) => true
    case _ => before
  }

  /** Whether the binding may be a named stream, as far as the answers tell. */
  ghost predicate MayBeNamed(requests: seq<Request>, replies: seq<seq<Frame>>)
    requires Answers(requests, replies)
    decreases |replies|
  {
    if replies == [] then false
    else
      var k := |replies| - 1;
      assert IsReply(requests[k], replies[k]);
      var before := MayBeNamed(requests, replies[..k]);
      if replies[k][0].tag == TAG_OK then Rebind(requests[k], before) else before
  }

  lemma MayBeNamedSnoc(requests: seq<Request>, replies: seq<seq<Frame>>, w: seq<Frame>)
    requires Answers(requests, replies) && |replies| < |requests| && IsReply(requests[|replies|], w)
    ensures Answers(requests, replies + [w])
    ensures var before := MayBeNamed(requests, replies);
            MayBeNamed(requests, replies + [w])
              == if w[0].tag == TAG_OK then Rebind(requests[|replies|], before) else before
  {
    hide IsReply, Rebind, Answers;
    AnswersSnoc(requests, replies, w);
    var ws := replies + [w];
    assert ws[..|ws| - 1] == replies && ws[|ws| - 1] == w;
  }

  lemma AnswersSnoc(requests: seq<Request>, replies: seq<seq<Frame>>, w: seq<Frame>)
    requires Answers(requests, replies) && |replies| < |requests| && IsReply(requests[|replies|], w)
    ensures Answers(requests, replies + [w])
  {
    hide IsReply;
  }

  lemma {:induction false} MayBeNamedStable(requests: seq<Request>, more: seq<Request>, replies: seq<seq<Frame>>)
    requires Answers(requests, replies)
    ensures Answers(requests + more, replies)
    ensures MayBeNamed(requests + more, replies) == MayBeNamed(requests, replies)
    decreases |replies|
  {
    if replies != [] {
      MayBeNamedStable(requests, more, replies[..|replies| - 1]);
    }
  }

  /** Binding agreement: however subjects resolve, a connection the broker has bound to a named stream is
      one the client knows may be named. */
  lemma {:induction false} BindingAgreement(resolve: nat -> Bytes, requests: seq<Request>, replies: seq<seq<Frame>>)
    requires Answers(requests, replies)
    ensures BoundStream(resolve, requests, replies) != [] ==> MayBeNamed(requests, replies)
    decreases |replies|
  {
    if replies != [] {
      var k := |replies| - 1;
      assert IsReply(requests[k], replies[k]);
      BindingAgreement(resolve, requests, replies[..k]);
    }
  }
}
