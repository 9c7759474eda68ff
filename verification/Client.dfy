/** The Go SDK connection: one socket driven request-response FIFO. The socket, the broker and the context
    deadline are arbitrary scripts, so every contract here speaks about every run against every peer. */
module Client {
  import opened Common
  import opened Wire
  import opened Protocol
  import opened FetchWindow

  /** The smallest and the largest socket read while completing a frame. */
  const READ_WINDOW := 4096
  const READ_CAP := 256 * 1024

  const EOF := 0

  /** What one socket read does: deliver some bytes, or deliver some bytes and fail. */
  datatype ReadOutcome = Chunk(data: Bytes) | ReadFailed(data: Bytes, code: int)

  /** What one socket write does: complete, or fail after some bytes. */
  datatype WriteOutcome = WriteOk | WriteFailed(n: nat, code: int)

  /** The bytes the socket delivers before it fails or ends. */
  function Deliverable(script: seq<ReadOutcome>): Bytes {
    if script == [] || script[0].ReadFailed? then [] else script[0].data + Deliverable(script[1..])
  }

  /** What one read of at most `size` bytes takes from the first chunk, and what it leaves of the script. */
  ghost function Taken(script: seq<ReadOutcome>, size: nat): Bytes
    requires script != [] && script[0].Chunk?
  {
    var d := script[0].data;
    d[..if |d| <= size then |d| else size]
  }

  ghost function Remaining(script: seq<ReadOutcome>, size: nat): seq<ReadOutcome>
    requires script != [] && script[0].Chunk?
  {
    var d := script[0].data;
    (if |d| <= size then [] else [Chunk(d[size..])]) + script[1..]
  }

  class Conn {
    var script: seq<ReadOutcome>
    var writes: seq<WriteOutcome>
    var deadlines: seq<Option<int>>
    var written: Bytes
    var closed: bool
    ghost var readSizes: seq<nat>
    ghost var faults: nat                // deadlines found passed and writes that failed

    constructor (script: seq<ReadOutcome>, writes: seq<WriteOutcome>, deadlines: seq<Option<int>>)
      ensures this.script == script && this.writes == writes && this.deadlines == deadlines
      ensures written == [] && readSizes == [] && faults == 0 && !closed
    {
      this.script, this.writes, this.deadlines := script, writes, deadlines;
      written, readSizes, faults, closed := [], [], 0, false;
    }

    ghost function Incoming(): Bytes
      reads this
    {
      Deliverable(script)
    }

    /** No deadline passes and no write fails from here on. */
    ghost predicate Healthy()
      reads this`deadlines, this`writes
    {
      && (forall i :: 0 <= i < |deadlines| ==> deadlines[i].None?)
      && (forall i :: 0 <= i < |writes| ==> writes[i].WriteOk?)
    }

    /** The deadline the next check would find passed. */
    function Late(): Option<int>
      reads this`deadlines
    {
      if deadlines == [] then None else deadlines[0]
    }

    /** Faults only add up, and a healthy connection has none. */
    twostate predicate Endured()
      reads this`deadlines, this`writes, this`faults
    {
      old(faults) <= faults && (old(Healthy()) ==> Healthy() && faults == old(faults))
    }

    /** The context check that precedes an operation: an error when the deadline has passed. */
    method CheckDeadline() returns (err: Option<int>)
      modifies this`deadlines, this`faults
      ensures err == old(Late()) && Endured()
      ensures deadlines == if old(deadlines) == [] then [] else old(deadlines)[1..]
      ensures faults == old(faults) + if err.Some? then 1 else 0
    {
      err := Late();
      if deadlines != [] {
        deadlines := deadlines[1..];
      }
      if err.Some? {
        faults := faults + 1;
      }
    }

    /** One socket read of at most `size` bytes. An exhausted script is an end of file. */
    method Read(size: nat) returns (data: Bytes, err: Option<int>)
      requires size > 0
      modifies this`script, this`readSizes
      ensures readSizes == old(readSizes) + [size]
      ensures |data| <= size
      ensures err.None? ==> old(Incoming()) == data + Incoming()
      ensures err.None? ==> |Incoming()| + |script| < old(|Incoming()| + |script|)
      ensures err.Some? ==> old(Incoming()) == []
      ensures old(script) != [] && old(script)[0].Chunk? ==>
                err.None? && data == Taken(old(script), size) && script == Remaining(old(script), size)
    {
      readSizes := readSizes + [size];
      if script == [] {
        return [], Some(EOF);
      }
      match script[0]
      case ReadFailed(d, code) =>
        data, err := if |d| <= size then d else d[..size], Some(code);
        script := script[1..];
      case Chunk(d) =>
        err := None;
        if |d| <= size {
          data := d;
          script := script[1..];
        } else {
          data := d[..size];
          ghost var rest := script[1..];
          script := [Chunk(d[size..])] + script[1..];
          assert script[1..] == rest;
          assert d == data + d[size..];
        }
    }

    method Write(data: Bytes) returns (err: Option<int>)
      modifies this`written, this`writes, this`faults
      ensures old(written) <= written && Endured()
      ensures err.None? ==> written == old(written) + data
      ensures err.None? <==> old(writes) == [] || old(writes)[0].WriteOk?
      ensures faults == old(faults) + if err.Some? then 1 else 0
    {
      if writes == [] || writes[0].WriteOk? {
        written := written + data;
        err := None;
      } else {
        var n := if writes[0].n <= |data| then writes[0].n else |data|;
        written := written + data[..n];
        err := Some(writes[0].code);
        faults := faults + 1;
      }
      writes := if writes == [] then [] else writes[1..];
    }
  }

  /** The first frame of a byte stream that is not a push, if it is there whole and known. */
  ghost function FirstReply(stream: Bytes): Option<Frame>
    decreases |stream|
  {
    match DecodeFrame(stream)
    case Complete(f, consumed) =>
      if !KnownTag(f.tag) then None else if IsPush(f) then FirstReply(stream[consumed..]) else Some(f)
    case _ => None
  }

  /** What follows that frame. */
  ghost function AfterReply(stream: Bytes): Bytes
    decreases |stream|
  {
    match DecodeFrame(stream)
    case Complete(f, consumed) =>
      if !KnownTag(f.tag) then [] else if IsPush(f) then AfterReply(stream[consumed..]) else stream[consumed..]
    case _ => []
  }

  lemma FirstReplyStep(stream: Bytes, f: Frame, rest: Bytes)
    requires DecodeFrame(stream) == Complete(f, |EncodeFrame(f)|) && stream == EncodeFrame(f) + rest && KnownTag(f.tag)
    ensures FirstReply(stream) == if IsPush(f) then FirstReply(rest) else Some(f)
    ensures AfterReply(stream) == if IsPush(f) then AfterReply(rest) else rest
  {
    assert stream[|EncodeFrame(f)|..] == rest;
  }

  lemma NoFirstReply(stream: Bytes)
    ensures FirstReply(stream).Some? ==> DecodeFrame(stream).Complete? && KnownTag(DecodeFrame(stream).frame.tag)
  {
  }

  /** A whole frame at the front of the buffer leaves less than the smallest read behind it. */
  ghost predicate Lean(buf: Bytes) {
    DecodeFrame(buf).Complete? ==> |buf| < DecodeFrame(buf).consumed + READ_WINDOW
  }

  lemma LeanWhenSmall(buf: Bytes)
    ensures |buf| < READ_WINDOW ==> Lean(buf)
  {
    hide DecodeFrame;
    if DecodeFrame(buf).Complete? {
      NeedMoreBounds(buf);
    }
  }

  /** A read sized for an incomplete frame brings at most that frame and less than the smallest read more. */
  lemma LeanAfterRead(buf: Bytes, data: Bytes)
    requires DecodeFrame(buf).NeedMore? && |data| <= ReadSize(DecodeFrame(buf).needed, |buf|)
    ensures Lean(buf + data)
  {
    if |buf| >= LEN_PREFIX && |buf + data| >= LEN_PREFIX {
      assert (buf + data)[..LEN_PREFIX] == buf[..LEN_PREFIX];
    }
  }

  lemma NeedMoreBounds(buf: Bytes)
    ensures DecodeFrame(buf).NeedMore? ==> |buf| < DecodeFrame(buf).needed <= LEN_PREFIX + MAX_FRAME_LEN
  {
  }

  datatype Info = Info(credit: Option<U32>, creditBytes: Option<U64>)
  datatype ProduceAck = ProduceAck(offset: nat, duplicate: bool)
  datatype StreamStatus = StreamStatus(exists_: bool, head: nat)
  datatype FetchOptions = FetchOptions(maxRecords: U32, maxBytes: U64, expiresMs: U64, noWait: bool)

  /** The broker's own rejections. */
  predicate Soft(e: Error) {
    e.ServerError? || e.NotLeader?
  }

  /** Every error after which the connection can go on: a rejection, or a window with a poisoned record. */
  predicate Recoverable(e: Error) {
    Soft(e) || e.BadRecord? || e.AggregateCapExceeded?
  }

  function ErrorOf<T>(r: Result<T, Error>): Option<Error> {
    match r case Ok(_) => None case Err(e) => Some(e)
  }

  /** Next read size for an incomplete buffer of length `len` that needs `needed` bytes in all. */
  function ReadSize(needed: nat, len: nat): (n: nat)
    requires len < needed
    ensures READ_WINDOW <= n <= READ_CAP
  {
    if needed - len < READ_WINDOW then READ_WINDOW
    else if needed - len > READ_CAP then READ_CAP else needed - len
  }

  /** What a publish reply says; None when it is not a reply to a publish at all, which is terminal. */
  function PubVerdict(utf8Valid: Bytes -> bool, f: Frame): Option<Result<ProduceAck, Error>> {
    if f.tag == TAG_PUB_ACK || f.tag == TAG_PUB_ACK_DUPLICATE then
      if |f.body| == 8 then Some(Ok(ProduceAck(FromLittleEndian(f.body), f.tag == TAG_PUB_ACK_DUPLICATE))) else None
    else if f.tag == TAG_ERR then Some(Err(ServerError(f.body)))
    else if f.tag == TAG_NOT_LEADER && f.body != [] then
      var hint := TakeVar(f.body[1..]);
      if hint.Some? && utf8Valid(hint.value.0) then Some(Err(NotLeader(hint.value.0))) else None
    else None
  }

  /** The offset a publish reply acknowledges. */
  function OffsetVerdict(utf8Valid: Bytes -> bool, f: Frame): Option<Result<nat, Error>> {
    match PubVerdict(utf8Valid, f)
    case Some(Ok(ack)) => Some(Ok(ack.offset))
    case Some(Err(e)) => Some(Err(e))
    case None => None
  }

  const PUB_REPLIES := {TAG_PUB_ACK, TAG_PUB_ACK_DUPLICATE, TAG_NOT_LEADER}

  function SettleVerdict(f: Frame): Option<Result<Byte, Error>> {
    if f.tag == TAG_ACK_STATUS then (if |f.body| == 1 then Some(Ok(f.body[0])) else None)
    else if f.tag == TAG_ERR then Some(Err(ServerError(f.body)))
    else None
  }

  /** A versioned block; a short block reads as absent fields, never as an error. */
  function StreamInfoVerdict(f: Frame): Option<Result<StreamStatus, Error>> {
    if f.tag == TAG_STREAM_INFO then
      if |f.body| >= 3 && f.body[0] == 1 && FromLittleEndian(f.body[1..3]) <= |f.body| - 3 then
        var block := f.body[3..3 + FromLittleEndian(f.body[1..3])];
        Some(Ok(StreamStatus(block != [] && block[0] == 1, if |block| >= 9 then U64At(block, 1) else 0)))
      else None
    else if f.tag == TAG_ERR then Some(Err(ServerError(f.body)))
    else None
  }

  /** The terminal error for a reply with no verdict: a known tag with a bad body, or the wrong tag. */
  function NoVerdict(f: Frame, tags: set<Byte>): Error {
    if f.tag in tags then BadBody(f.tag) else UnexpectedFrame(f.tag)
  }

  /** The record limit of one fetch: what the caller asks for, capped at the negotiated credit. */
  function MaxRecords(opts: FetchOptions, credit: Option<U32>): (n: U32)
    ensures n <= opts.maxRecords && (credit.Some? ==> n <= credit.value)
    ensures n == opts.maxRecords || credit == Some(n)
  {
    if credit.Some? && opts.maxRecords > credit.value then credit.value else opts.maxRecords
  }

  function FetchRequest(named: bool, opts: FetchOptions, credit: Option<U32>): Request {
    if named then Flow(MaxRecords(opts, credit))
    else Request.Fetch(MaxRecords(opts, credit), opts.maxBytes, opts.expiresMs, opts.noWait)
  }

  lemma FetchSendable(named: bool, opts: FetchOptions, credit: Option<U32>)
    ensures var r := FetchRequest(named, opts, credit);
            BodyEncodes(r) && WellFormed(r) && RequestFrame(r).Fits() && BearsReply(r) && Streams(r)
  {
  }

  /** Why a frame cannot continue a window of which `count` frames were seen; each such fault is terminal. */
  function WindowFault(f: Frame, count: nat, limit: nat): Option<Error> {
    if !Terminates(f) && count >= limit then Some(TooManyFrames)
    else if !Terminates(f) && f.tag != TAG_DELIVER && !IsAdvisory(f) then Some(UnexpectedFrame(f.tag))
    else if !BodyOk(f) then Some(BadBody(f.tag))
    else None
  }

  ghost predicate InWindow(w: seq<Frame>) {
    forall i :: 0 <= i < |w| ==> !IsPush(w[i]) && !Terminates(w[i])
  }

  lemma EmptyWindow(lz4: Lz4, cap: nat, before: seq<Frame>)
    ensures WindowBody([]) && InWindow([]) && before + [] == before
    ensures Drained(lz4, cap, []) == Drain(None, 0, FetchResult([], [], [], []))
  {
  }

  lemma InWindowSnoc(w: seq<Frame>, f: Frame)
    requires InWindow(w) && !IsPush(f) && !Terminates(f)
    ensures InWindow(w + [f])
  {
  }

  /** The level-1 publishes of a window. */
  function Pubs(messages: seq<Message>): seq<Request> {
    seq(|messages|, i requires 0 <= i < |messages| => Pub(Publish(messages[i], None, 1, false)))
  }

  lemma EncodeNothing()
    ensures EncodeAll(RequestFrames(Pubs([]))) == []
  {
  }

  ghost predicate WindowEncodes(messages: seq<Message>) {
    forall i :: 0 <= i < |messages| ==>
      var r := Pub(Publish(messages[i], None, 1, false)); BodyEncodes(r) && RequestFrame(r).Fits()
  }

  /** The error of the first message of a window that does not encode. */
  ghost function EncodeFault(messages: seq<Message>): Option<Error> {
    if messages == [] then None
    else
      var before := EncodeFault(messages[..|messages| - 1]);
      var r := Pub(Publish(messages[|messages| - 1], None, 1, false));
      if before.Some? then before
      else if !BodyEncodes(r) then Some(FieldTooLarge)
      else if !RequestFrame(r).Fits() then Some(FrameTooLarge)
      else None
  }

  lemma {:induction false} EncodeFaultStays(messages: seq<Message>, n: nat)
    requires n <= |messages| && EncodeFault(messages[..n]).Some?
    ensures EncodeFault(messages) == EncodeFault(messages[..n])
    decreases |messages|
  {
    hide RequestFrame, BodyEncodes;
    if n == |messages| {
      assert messages[..n] == messages;
    } else {
      var init := messages[..|messages| - 1];
      assert init[..n] == messages[..n];
      EncodeFaultStays(init, n);
    }
  }

  lemma PubsSendable(messages: seq<Message>)
    requires WindowEncodes(messages)
    ensures AllSendable(Pubs(messages))
  {
  }

  /** What a window of publish replies says: all acks in order, or the first rejection. */
  ghost function WindowVerdict(utf8Valid: Bytes -> bool, ws: seq<seq<Frame>>): Result<seq<ProduceAck>, Error> {
    if ws == [] then Ok([])
    else
      var before := WindowVerdict(utf8Valid, ws[..|ws| - 1]);
      var last := ws[|ws| - 1];
      if before.Err? || last == [] then before
      else match PubVerdict(utf8Valid, last[0])
        case Some(Err(e)) => Err(e)
        case Some(Ok(ack)) => Ok(before.value + [ack])
        case None => before
  }

  lemma WindowVerdictEmpty(utf8Valid: Bytes -> bool, replies: seq<seq<Frame>>)
    ensures WindowVerdict(utf8Valid, replies[|replies|..]) == Ok([])
  {
  }

  lemma WindowVerdictSnoc(utf8Valid: Bytes -> bool, ws: seq<seq<Frame>>, f: Frame)
    ensures var before := WindowVerdict(utf8Valid, ws);
            WindowVerdict(utf8Valid, ws + [[f]])
              == if before.Err? then before
                 else match PubVerdict(utf8Valid, f)
                   case Some(Err(e)) => Err(e)
                   case Some(Ok(ack)) => Ok(before.value + [ack])
                   case None => before
  {
    assert (ws + [[f]])[..|ws|] == ws;
  }

  /** What the reply to one slot of a window says. */
  function Slot(utf8Valid: Bytes -> bool, w: seq<Frame>): Option<Result<ProduceAck, Error>> {
    if w == [] then None else PubVerdict(utf8Valid, w[0])
  }

  /** Slot i is rejected with `e` and no slot before it is. */
  ghost predicate FirstRejection(utf8Valid: Bytes -> bool, ws: seq<seq<Frame>>, i: nat, e: Error) {
    && i < |ws| && Slot(utf8Valid, ws[i]) == Some(Err(e))
    && forall j :: 0 <= j < i ==> Slot(utf8Valid, ws[j]).Some? && Slot(utf8Valid, ws[j]).value.Ok?
  }

  /** Slot by slot: a successful window has one ack per reply, the i-th read from the i-th reply; a failed one
      reports the rejection of the first rejected slot. */
  lemma {:induction false} WindowSlots(utf8Valid: Bytes -> bool, ws: seq<seq<Frame>>)
    requires forall i :: 0 <= i < |ws| ==> Slot(utf8Valid, ws[i]).Some?
    ensures var v := WindowVerdict(utf8Valid, ws);
            && (v.Ok? ==> |v.value| == |ws|
                          && forall i :: 0 <= i < |ws| ==> Slot(utf8Valid, ws[i]) == Some(Ok(v.value[i])))
            && (v.Err? ==> exists i :: FirstRejection(utf8Valid, ws, i, v.error))
  {
    hide Slot;
    if ws != [] {
      var init, last := ws[..|ws| - 1], ws[|ws| - 1];
      WindowSlots(utf8Valid, init);
      WindowVerdictLast(utf8Valid, ws);
      var before := WindowVerdict(utf8Valid, init);
      if before.Err? {
        var i :| FirstRejection(utf8Valid, init, i, before.error);
        assert FirstRejection(utf8Valid, ws, i, before.error);
      } else if Slot(utf8Valid, last).value.Err? {
        assert FirstRejection(utf8Valid, ws, |ws| - 1, Slot(utf8Valid, last).value.error);
      }
    }
  }

  lemma WindowVerdictLast(utf8Valid: Bytes -> bool, ws: seq<seq<Frame>>)
    requires ws != [] && Slot(utf8Valid, ws[|ws| - 1]).Some?
    ensures var before, last := WindowVerdict(utf8Valid, ws[..|ws| - 1]), Slot(utf8Valid, ws[|ws| - 1]).value;
            WindowVerdict(utf8Valid, ws)
              == if before.Err? then before else match last case Err(e) => Err(e) case Ok(ack) => Ok(before.value + [ack])
  {
    hide PubVerdict;
  }

  // ----- what a stream still has to offer -----

  ghost function Preceded<T>(a: seq<T>, rest: Option<seq<T>>): Option<seq<T>> {
    if rest.None? then None else Some(a + rest.value)
  }

  lemma PrecededLaws<T>(a: seq<T>, x: T, rest: Option<seq<T>>)
    ensures Preceded([], rest) == rest
    ensures Preceded(a, Preceded([x], rest)) == Preceded(a + [x], rest)
    ensures Preceded(a, Some([x])) == Some(a + [x]) && Preceded(a, Some([])) == Some(a)
  {
    assert a + [] == a;
    if rest.Some? {
      assert a + ([x] + rest.value) == a + [x] + rest.value && [] + rest.value == rest.value;
    }
  }

  lemma NothingAhead<T>(a: seq<T>)
    ensures Preceded(a, None) == None
  {
  }

  /** The next `n` replies of the stream, pushes passed over, if all are there and each answers a publish. */
  ghost function PubsAhead(utf8Valid: Bytes -> bool, stream: Bytes, n: nat): Option<seq<seq<Frame>>>
    decreases n
  {
    if n == 0 then Some([])
    else
      var f := FirstReply(stream);
      if f.None? || PubVerdict(utf8Valid, f.value).None? then None
      else Preceded([[f.value]], PubsAhead(utf8Valid, AfterReply(stream), n - 1))
  }

  /** The next whole window of the stream, pushes passed over: at most `limit` well-formed deliveries and
      advisories and a well-formed terminator. */
  ghost function WindowAhead(stream: Bytes, limit: nat): Option<seq<Frame>>
    decreases limit
  {
    var f := FirstReply(stream);
    if f.None? || !BodyOk(f.value) then None
    else if Terminates(f.value) then Some([f.value])
    else if limit == 0 || (f.value.tag != TAG_DELIVER && !IsAdvisory(f.value)) then None
    else Preceded([f.value], WindowAhead(AfterReply(stream), limit - 1))
  }

  lemma WindowAheadStep(stream: Bytes, count: nat, limit: nat)
    requires count <= limit && FirstReply(stream).Some?
    ensures var f := FirstReply(stream).value;
            WindowAhead(stream, limit - count) == if WindowFault(f, count, limit).Some? then None
                                                  else if Terminates(f) then Some([f])
                                                  else Preceded([f], WindowAhead(AfterReply(stream), limit - count - 1))
  {
  }

  lemma FaultIs(f: Frame, count: nat, limit: nat)
    ensures WindowFault(f, count, limit).Some? ==> !Recoverable(WindowFault(f, count, limit).value)
    ensures WindowFault(f, count, limit).None? ==>
              BodyOk(f) && (Terminates(f) || (count < limit && (f.tag == TAG_DELIVER || IsAdvisory(f))))
  {
    hide BodyOk;
  }

  lemma NoWindowAhead(stream: Bytes, limit: nat)
    ensures WindowAhead(stream, limit).Some? ==> FirstReply(stream).Some?
  {
  }

  lemma PubsAheadStep(utf8Valid: Bytes -> bool, stream: Bytes, n: nat)
    ensures n == 0 ==> PubsAhead(utf8Valid, stream, n) == Some([])
    ensures n > 0 ==>
              var f := FirstReply(stream);
              if f.None? || PubVerdict(utf8Valid, f.value).None? then PubsAhead(utf8Valid, stream, n).None?
              else PubsAhead(utf8Valid, stream, n) == Preceded([[f.value]], PubsAhead(utf8Valid, AfterReply(stream), n - 1))
  {
  }

  class Client {
    const conn: Conn
    const lz4: Lz4
    const utf8Valid: Bytes -> bool
    var info: Info
    var buf: Bytes
    var scratchCap: nat
    var wbuf: Bytes
    var broken: Option<Error>
    var namedBinding: bool

    ghost var received: Bytes            // every byte read from the socket
    ghost var frames: seq<Frame>         // every frame taken off the buffer
    ghost var sent: seq<Request>         // every request written whole
    ghost var replies: seq<seq<Frame>>   // the replies consumed, one entry per answered request

    // ----- invariants -----

    /** Bytes in are frames plus buffer, bytes out are whole requests, and the buffer is bounded. */
    ghost predicate Framed()
      reads this, conn
    {
      && received == EncodeAll(frames) + buf
      && AllFit(frames) && AllSendable(sent)
      && |buf| < LEN_PREFIX + MAX_FRAME_LEN + READ_WINDOW
      && (forall i :: 0 <= i < |conn.readSizes| ==> READ_WINDOW <= conn.readSizes[i] <= READ_CAP)
      && (broken.None? ==> conn.written == EncodeAll(RequestFrames(sent)))
      && (broken.Some? ==> !Recoverable(broken.value))
    }

    /** Between frames a usable client retains less than the smallest read. */
    ghost predicate Steady()
      reads this, conn
    {
      Framed() && (broken.None? ==> |buf| < READ_WINDOW)
    }

    /** Exactly `k` requests still await their reply, and everything consumed so far, pushes aside, is the
        whole replies to the requests before them. */
    ghost predicate Owes(k: nat)
      reads this
    {
      && Strip(frames) == Flatten(replies)
      && Answers(Owing(sent), replies)
      && |Owing(sent)| == |replies| + k
    }

    ghost predicate BindingKnown()
      requires Answers(Owing(sent), replies)
      reads this
    {
      namedBinding == MayBeNamed(Owing(sent), replies)
    }

    /** Between calls: a usable connection owes no reply and knows its binding. */
    ghost predicate Valid()
      reads this, conn
    {
      Steady() && (broken.None? ==> Owes(0) && BindingKnown())
    }

    ghost function Stream(): Bytes
      reads this, conn
    {
      buf + conn.Incoming()
    }

    ghost function History(): (Option<Error>, Bytes, seq<nat>, seq<ReadOutcome>, Bytes, Bytes, seq<Frame>, seq<Request>,
                               seq<seq<Frame>>, bool)
      reads this, conn
    {
      (broken, conn.written, conn.readSizes, conn.script, buf, received, frames, sent, replies, namedBinding)
    }

    /** What every call guarantees: the invariant and a sticky failure. A call on a broken client writes
        nothing and reads nothing; a call that breaks it reports that very error. */
    twostate predicate Settled(new err: Option<Error>)
      reads this, conn
    {
      && Valid() && info == old(info)
      && (old(broken).Some? ==> History() == old(History()))
      && (broken.Some? ==> err.Some? && !Recoverable(err.value))
      && (old(broken).None? && broken.Some? ==> err == broken)
    }

    /** A call that answered exactly one request `r` with the frames `w`. */
    twostate predicate Answered(new r: Request, new w: seq<Frame>)
      reads this, conn
    {
      sent == old(sent) + [r] && replies == old(replies) + [w] && broken.None?
    }

    // ----- construction and closing -----

    constructor (conn: Conn, lz4: Lz4, utf8Valid: Bytes -> bool)
      requires conn.written == [] && conn.readSizes == []
      ensures this.conn == conn && this.lz4 == lz4 && this.utf8Valid == utf8Valid
      ensures Valid() && broken.None? && !namedBinding
      ensures sent == [] && frames == [] && received == [] && replies == [] && buf == []
    {
      this.conn, this.lz4, this.utf8Valid, info := conn, lz4, utf8Valid, Info(None, None);
      buf, scratchCap, wbuf, broken, namedBinding := [], 0, [], None, false;
      received, frames, sent, replies := [], [], [], [];
    }

    method Close()
      requires Framed()
      modifies this`broken, conn`closed
      ensures Valid() && conn.closed
      ensures broken == if old(broken).Some? then old(broken) else Some(Closed)
    {
      if broken.None? {
        broken := Some(Closed);
      }
      conn.closed := true;
    }

    /** Marks the client terminally broken; the first failure sticks. */
    method Fail(err: Error)
      requires !Recoverable(err)
      modifies this`broken
      ensures broken == if old(broken).None? then Some(err) else old(broken)
      ensures old(Framed()) || old(Steady()) ==> Steady()
    {
      if broken.None? {
        broken := Some(err);
      }
    }

    // ----- sending -----

    /** The error with which a call that sends `r` is refused before any byte moves. */
    ghost function Refusal(r: Request): Option<Error>
      reads this, conn
    {
      if !BodyEncodes(r) then Some(FieldTooLarge)
      else if broken.Some? then broken
      else if conn.Late().Some? then Some(Cancelled(conn.Late().value))
      else if !RequestFrame(r).Fits() then Some(FrameTooLarge)
      else None
    }

    /** A refused request leaves everything as it was; any other is on the wire unless the write failed, and a
        failed write breaks the client. */
    method Send(r: Request) returns (res: Result<(), Error>)
      requires Valid() && BodyEncodes(r) && WellFormed(r)
      modifies this`wbuf, this`broken, this`sent, conn`written, conn`writes, conn`deadlines, conn`faults
      ensures Steady() && old(conn.written) <= conn.written && conn.Endured()
      ensures old(Refusal(r)).Some? ==> res == Err(old(Refusal(r)).value) && History() == old(History()) && Valid()
      ensures old(Refusal(r)).None? && res.Err? ==>
                broken == Some(res.error) && res.error.Io? && sent == old(sent) && conn.faults > old(conn.faults)
      ensures res.Ok? ==> broken.None? && sent == old(sent) + [r] && Owes(if BearsReply(r) then 1 else 0)
      ensures res.Ok? ==> BindingKnown() && Owing(sent) == old(Owing(sent)) + if BearsReply(r) then [r] else []
      ensures res.Ok? ==> conn.faults == old(conn.faults)
    {
      hide EncodeAll, RequestFrames, Owing, Strip, Flatten, MayBeNamed, Answers, RequestFrame, AllSendable;
      hide Conn.Healthy;
      if broken.Some? {
        return Err(broken.value);
      }
      var late := conn.CheckDeadline();
      if late.Some? {
        return Err(Cancelled(late.value));
      }
      var frame := RequestFrame(r);
      if !frame.Fits() {
        return Err(FrameTooLarge);
      }
      wbuf := EncodeFrame(frame);
      RequestFramesOne(r);
      AllSendableOne(r);
      res := Transmit([r]);
    }

    /** Writes the encoded requests `rs`. A short or failed write leaves the peer mid-frame: terminal. */
    method Transmit(ghost rs: seq<Request>) returns (res: Result<(), Error>)
      requires Valid() && broken.None? && wbuf == EncodeAll(RequestFrames(rs)) && AllSendable(rs)
      requires |rs| == 1 || forall i :: 0 <= i < |rs| ==> BearsReply(rs[i])
      modifies this`broken, this`sent, conn`written, conn`writes, conn`faults
      ensures Steady() && old(conn.written) <= conn.written
      ensures res.Ok? ==> broken.None? && sent == old(sent) + rs && Owes(|Owing(rs)|) && BindingKnown()
      ensures res.Ok? ==> Owing(sent) == old(Owing(sent)) + Owing(rs)
      ensures (forall i :: 0 <= i < |rs| ==> BearsReply(rs[i])) ==> Owing(rs) == rs
      ensures |rs| == 1 ==> Owing(rs) == if BearsReply(rs[0]) then rs else []
      ensures res.Err? ==> sent == old(sent) && broken == Some(res.error) && res.error.Io?
      ensures conn.Endured() && conn.faults == old(conn.faults) + if res.Err? then 1 else 0
    {
      hide EncodeAll, RequestFrames, Owing, Strip, Flatten, MayBeNamed, Answers, AllSendable, Conn.Healthy;
      OwingOfWindow(rs);
      var failed := conn.Write(wbuf);
      if failed.Some? {
        Fail(Io(failed.value));
        return Err(Io(failed.value));
      }
      RecordSent(rs);
      res := Ok(());
    }

    /** Book-keeping for requests just written whole. */
    ghost method RecordSent(rs: seq<Request>)
      requires broken.None? && Owes(0) && BindingKnown() && AllSendable(sent) && AllSendable(rs)
      requires conn.written == EncodeAll(RequestFrames(sent)) + EncodeAll(RequestFrames(rs))
      modifies this`sent
      ensures AllSendable(sent)
      ensures sent == old(sent) + rs && conn.written == EncodeAll(RequestFrames(sent))
      ensures Owing(sent) == old(Owing(sent)) + Owing(rs)
      ensures Owes(|Owing(rs)|) && BindingKnown()
    {
      AllSendableAppend(sent, rs);
      RequestFramesAppend(sent, rs);
      EncodeAllAppend(RequestFrames(sent), RequestFrames(rs));
      OwingAppend(sent, rs);
      MayBeNamedStable(Owing(sent), Owing(rs), replies);
      sent := sent + rs;
    }

    // ----- reading frames -----

    /** Takes the next frame off the connection. The result depends on the byte stream alone, not on how the
        socket cut it; every error is terminal. */
    method ReadFrame() returns (res: Result<Frame, Error>)
      requires Steady()
      modifies this`buf, this`scratchCap, this`broken, this`received, this`frames
      modifies conn`script, conn`readSizes, conn`deadlines, conn`faults
      ensures Steady() && old(received) <= received
      ensures old(broken).Some? ==> res == Err(old(broken).value) && History() == old(History())
      ensures res.Ok? ==> broken.None? && frames == old(frames) + [res.value] && KnownTag(res.value.tag)
      ensures res.Ok? ==> DecodeFrame(old(Stream())) == Complete(res.value, |EncodeFrame(res.value)|)
                          && old(Stream()) == EncodeFrame(res.value) + Stream()
      ensures res.Err? ==> frames == old(frames) && broken == Some(res.error)
      ensures res.Err? && old(broken).None? ==> !Recoverable(res.error)
      ensures var d := DecodeFrame(old(Stream()));
              old(broken).None? && old(conn.Late()).None? ==>
                && (d.Complete? && KnownTag(d.frame.tag) ==> res.Ok?)
                && (d.Complete? && !KnownTag(d.frame.tag) ==> res == Err(UnknownFrame(d.frame.tag)))
                && (d.Malformed? ==> res == Err(BadFrame(d.len)))
                && (d.NeedMore? ==> res.Err? && res.error.Io?)
      ensures old(broken).None? && old(conn.Late()).Some? ==> res == Err(Cancelled(old(conn.Late()).value))
      ensures conn.Endured()
      ensures conn.faults == old(conn.faults) + if old(broken).None? && old(conn.Late()).Some? then 1 else 0
    {
      hide EncodeAll, RequestFrames, Owing, Strip, Flatten, MayBeNamed, EncodeFrame, DecodeFrame, AllSendable;
      hide AllFit, KnownTag, Conn.Healthy;
      if broken.Some? {
        return Err(broken.value);
      }
      var late := conn.CheckDeadline();
      if late.Some? {
        // The request was already sent: giving up on its reply is terminal.
        Fail(Cancelled(late.value));
        return Err(Cancelled(late.value));
      }
      ghost var stream := Stream();
      LeanWhenSmall(buf);
      while true
        invariant broken.None? && frames == old(frames) && Framed() && Lean(buf)
        invariant old(received) <= received
        invariant Stream() == stream && conn.faults == old(conn.faults) && conn.Endured()
        decreases |conn.Incoming()| + |conn.script|
      {
        var d := DecodeFrame(buf);
        if !d.NeedMore? {
          DecodeStable(buf, conn.Incoming());
        }
        match d
        case Malformed(len) =>
          Fail(BadFrame(len));
          return Err(BadFrame(len));
        case Complete(frame, consumed) =>
          if !KnownTag(frame.tag) {
            // An unknown tag is terminal by the frozen-wire contract: never skipped.
            Fail(UnknownFrame(frame.tag));
            return Err(UnknownFrame(frame.tag));
          }
          TakeFrame(frame, consumed);
          return Ok(frame);
        case NeedMore(needed) =>
          var failed := FillBuffer(needed);
          if failed.Some? {
            Fail(Io(failed.value));
            return Err(Io(failed.value));
          }
      }
    }

    /** One socket read towards a frame that needs `needed` bytes: the bytes go into the persistent buffer. */
    method FillBuffer(needed: nat) returns (failed: Option<int>)
      requires Framed() && DecodeFrame(buf) == NeedMore(needed)
      modifies this`buf, this`scratchCap, this`received, conn`script, conn`readSizes
      ensures Framed() && old(received) <= received
      ensures failed.None? ==> Lean(buf)
      ensures failed.None? ==> Stream() == old(Stream())
      ensures failed.None? ==> |conn.Incoming()| + |conn.script| < old(|conn.Incoming()| + |conn.script|)
      ensures failed.Some? ==> old(Stream()) == old(buf)
      ensures old(conn.script) != [] && old(conn.script)[0].Chunk? ==>
                var size := ReadSize(needed, |old(buf)|);
                failed.None? && buf == old(buf) + Taken(old(conn.script), size) && conn.script == Remaining(old(conn.script), size)
    {
      hide EncodeAll, RequestFrames, Deliverable, AllSendable, DecodeFrame, Lean, Taken, Remaining, Conn.Healthy;
      NeedMoreBounds(buf);
      var readSize := ReadSize(needed, |buf|);
      if scratchCap < readSize {
        scratchCap := readSize;
      }
      var data;
      data, failed := conn.Read(readSize);
      AppendAssoc(EncodeAll(frames), buf, data);
      AppendAssoc(buf, data, conn.Incoming());
      LeanAfterRead(buf, data);
      buf := buf + data;
      received := received + data;
    }

    /** Compacts the buffer past a decoded frame. */
    method TakeFrame(frame: Frame, consumed: nat)
      requires Framed() && DecodeFrame(buf) == Complete(frame, consumed)
      modifies this`buf, this`frames
      ensures Framed() && frames == old(frames) + [frame] && old(buf) == EncodeFrame(frame) + buf
      ensures consumed == |EncodeFrame(frame)| && old(Stream()) == EncodeFrame(frame) + Stream()
    {
      hide EncodeAll, RequestFrames, Owing, Strip, Flatten, MayBeNamed, EncodeFrame, Conn.Healthy;
      TakeOff(frames, buf);
      AppendAssoc(EncodeFrame(frame), buf[consumed..], conn.Incoming());
      buf := buf[consumed..];
      frames := frames + [frame];
    }

    /** Book-keeping for a whole reply just consumed. */
    ghost method RecordReply(w: seq<Frame>)
      requires |replies| < |Owing(sent)| && Answers(Owing(sent), replies) && IsReply(Owing(sent)[|replies|], w)
      modifies this`replies
      ensures replies == old(replies) + [w] && Answers(Owing(sent), replies)
      ensures Flatten(replies) == Flatten(old(replies)) + w
      ensures var before := MayBeNamed(Owing(sent), old(replies));
              MayBeNamed(Owing(sent), replies)
                == if w[0].tag == TAG_OK then Rebind(Owing(sent)[|old(replies)|], before) else before
    {
      MayBeNamedSnoc(Owing(sent), replies, w);
      FlattenSnoc(replies, w);
      replies := replies + [w];
    }

    /** The next frame that is not an out-of-band ProduceConfirm push; pushes are drained. */
    method ReadPastPushes() returns (res: Result<Frame, Error>)
      requires Steady() && broken.None?
      modifies this`buf, this`scratchCap, this`broken, this`received, this`frames
      modifies conn`script, conn`readSizes, conn`deadlines, conn`faults
      ensures Steady()
      ensures res.Ok? ==> broken.None? && !IsPush(res.value) && Strip(frames) == old(Strip(frames)) + [res.value]
      ensures res.Ok? ==> |Stream()| < old(|Stream()|) && FirstReply(old(Stream())) == Some(res.value)
      ensures res.Ok? ==> Stream() == AfterReply(old(Stream()))
      ensures res.Err? ==> broken == Some(res.error) && !Recoverable(res.error)
      ensures conn.Endured() && (res.Ok? ==> conn.faults == old(conn.faults))
      ensures res.Err? && conn.faults == old(conn.faults) ==> FirstReply(old(Stream())).None?
    {
      hide EncodeAll, RequestFrames, Owing, Strip, Flatten, MayBeNamed, FirstReply, AfterReply, EncodeFrame;
      hide DecodeFrame, Stream, Conn.Healthy;
      while true
        invariant Steady() && broken.None? && Strip(frames) == old(Strip(frames))
        invariant |Stream()| <= old(|Stream()|) && FirstReply(Stream()) == FirstReply(old(Stream()))
        invariant AfterReply(Stream()) == AfterReply(old(Stream()))
        invariant conn.faults == old(conn.faults) && conn.Endured()
        decreases |Stream()|
      {
        ghost var seen, stream := frames, Stream();
        res := ReadFrame();
        if res.Err? {
          NoFirstReply(stream);
          return;
        }
        FirstReplyStep(stream, res.value, Stream());
        StripSnoc(seen, res.value);
        if !IsPush(res.value) {
          return;
        }
      }
    }

    /** Reads the one-frame reply to the oldest unanswered request. */
    method ReadReply(ghost k: nat) returns (res: Result<Frame, Error>)
      requires Steady() && broken.None? && k > 0 && Owes(k) && !Streams(Owing(sent)[|replies|])
      modifies this`buf, this`scratchCap, this`broken, this`received, this`frames, this`replies
      modifies conn`script, conn`readSizes, conn`deadlines, conn`faults
      ensures Steady()
      ensures res.Ok? ==> broken.None? && Owes(k - 1) && replies == old(replies) + [[res.value]]
      ensures res.Ok? ==> IsReply(Owing(sent)[|old(replies)|], [res.value])
      ensures res.Ok? ==> var before := MayBeNamed(Owing(sent), old(replies));
                          MayBeNamed(Owing(sent), replies)
                            == if res.value.tag == TAG_OK then Rebind(Owing(sent)[|old(replies)|], before) else before
      ensures res.Err? ==> broken == Some(res.error) && !Recoverable(res.error) && replies == old(replies)
      ensures res.Ok? ==> FirstReply(old(Stream())) == Some(res.value) && Stream() == AfterReply(old(Stream()))
      ensures conn.Endured() && (res.Ok? ==> conn.faults == old(conn.faults))
      ensures res.Err? && conn.faults == old(conn.faults) ==> FirstReply(old(Stream())).None?
    {
      hide EncodeAll, RequestFrames, Owing, Strip, Flatten, MayBeNamed, Conn.Healthy;
      res := ReadPastPushes();
      if res.Ok? {
        RecordReply([res.value]);
      }
    }

    /** Sends the Connect request and reads the next frame as its reply. */
    method Handshake(hello: Bytes) returns (res: Result<Frame, Error>)
      requires Valid() && broken.None?
      modifies this`buf, this`scratchCap, this`wbuf, this`broken, this`received, this`frames, this`sent, this`replies
      modifies conn`script, conn`readSizes, conn`deadlines, conn`faults, conn`written, conn`writes
      ensures Steady()
      ensures res.Ok? && !IsPush(res.value) ==> Valid() && Answered(Request.Connect(hello), [res.value])
      ensures var d := DecodeFrame(old(Stream()));
              old(Refusal(Request.Connect(hello))).None? && conn.faults == old(conn.faults) && d.Complete? ==>
                KnownTag(d.frame.tag) ==> res == Ok(d.frame)
      ensures old(Refusal(Request.Connect(hello))).Some? ==> res == Err(old(Refusal(Request.Connect(hello))).value)
      ensures conn.Endured()
    {
      hide EncodeAll, RequestFrames, Owing, Strip, Flatten, MayBeNamed, DecodeFrame, EncodeFrame;
      hide RequestFrame, Conn.Healthy;
      var ok := Send(Request.Connect(hello));
      if ok.Err? {
        return Err(ok.error);
      }
      ghost var seen := frames;
      res := ReadFrame();
      if res.Ok? {
        StripSnoc(seen, res.value);
        if !IsPush(res.value) {
          RecordReply([res.value]);
        }
      }
    }

    // ----- one request, one reply -----

    /** The one-frame reply `w` is the next reply of the stream, and it is all that was consumed. */
    twostate predicate ReplyRead(new w: seq<Frame>)
      reads this, conn
    {
      |w| == 1 && FirstReply(old(Stream())) == Some(w[0]) && Stream() == AfterReply(old(Stream()))
    }

    /** A call that sends `r` is refused with everything as it was, or its request is on the wire unless its write
        failed. */
    twostate predicate SentUnlessRefused(new r: Request, new err: Option<Error>)
      reads this, conn
    {
      && conn.Endured()
      && (old(Refusal(r)).Some? ==> err == old(Refusal(r)) && History() == old(History()))
      && (old(Refusal(r)).None? && conn.faults == old(conn.faults) ==> sent == old(sent) + [r])
      && (broken.None? && sent == old(sent) ==> old(Refusal(r)).Some?)
    }

    /** The outcome of a call that sends `r` and requires the reply tag `want`: refused, or sent and answered, the
        answer deciding between success and the broker's own rejection. It breaks the client only by a fault of
        the connection during the call, or for want of such an answer. */
    twostate predicate Exchanged(new r: Request, want: Byte, new err: Option<Error>)
      reads this, conn
    {
      && SentUnlessRefused(r, err)
      && (var f := FirstReply(old(Stream()));
          old(Refusal(r)).None? && conn.faults == old(conn.faults) && f.Some? && f.value.tag in {want, TAG_ERR} ==>
            broken.None? && replies == old(replies) + [[f.value]])
      && (broken.None? && sent != old(sent) ==>
             && sent == old(sent) + [r] && |replies| == |old(replies)| + 1 && old(replies) <= replies
             && IsReply(r, replies[|old(replies)|]) && ReplyRead(replies[|old(replies)|])
             && var f := replies[|old(replies)|][0];
                if err.None? then f.tag == want else f.tag == TAG_ERR && err.value == ServerError(f.body))
    }

    /** Sends `r` and reads its one-frame reply. */
    method RoundTrip(r: Request) returns (res: Result<Frame, Error>)
      requires Valid() && BodyEncodes(r) && WellFormed(r) && BearsReply(r) && !Streams(r)
      modifies this`buf, this`scratchCap, this`wbuf, this`broken, this`received, this`frames, this`sent, this`replies
      modifies conn
      ensures Steady() && SentUnlessRefused(r, ErrorOf(res))
      ensures res.Err? ==> !Recoverable(res.error) && (old(Refusal(r)).None? ==> broken == Some(res.error))
      ensures res.Ok? ==>
                && Answered(r, [res.value]) && IsReply(r, [res.value]) && Owes(0)
                && FirstReply(old(Stream())) == Some(res.value) && Stream() == AfterReply(old(Stream()))
                && MayBeNamed(Owing(sent), replies) == if res.value.tag == TAG_OK then Rebind(r, namedBinding) else namedBinding
      ensures old(Refusal(r)).None? && conn.faults == old(conn.faults) && FirstReply(old(Stream())).Some? ==> res.Ok?
    {
      hide EncodeAll, RequestFrames, Owing, Strip, Flatten, MayBeNamed, Answers, IsReply, FirstReply;
      hide AfterReply, Conn.Healthy;
      var ok := Send(r);
      if ok.Err? {
        return Err(ok.error);
      }
      res := ReadReply(1);
    }

    /** Sends `r` and requires the body-less reply `want`; an Err reply is the broker's soft rejection. */
    method Command(r: Request, want: Byte) returns (res: Result<(), Error>)
      requires Valid() && WellFormed(r) && BearsReply(r) && !Streams(r) && (want == TAG_OK || want == TAG_PONG)
      modifies this`buf, this`scratchCap, this`wbuf, this`broken, this`received, this`frames, this`sent, this`replies
      modifies conn
      ensures Steady()
      ensures old(broken).Some? ==> res.Err? && !Recoverable(res.error) && History() == old(History())
      ensures old(broken).None? && broken.Some? ==> ErrorOf(res) == broken
      ensures Exchanged(r, want, ErrorOf(res))
      ensures broken.None? ==>
                && Owes(0)
                && MayBeNamed(Owing(sent), replies) == if res.Ok? && want == TAG_OK then Rebind(r, namedBinding) else namedBinding
    {
      hide EncodeAll, RequestFrames, Owing, Strip, Flatten, MayBeNamed, Answers, IsReply, FirstReply;
      hide AfterReply, RequestFrame, Conn.Healthy;
      hide Framed, Steady, Stream, Sendable, PubFits;
      if !BodyEncodes(r) {
        return Err(FieldTooLarge);
      }
      var f := RoundTrip(r);
      if f.Err? {
        return Err(f.error);
      }
      if f.value.tag == want {
        return Ok(());
      }
      if f.value.tag == TAG_ERR {
        return Err(ServerError(f.value.body));
      }
      Fail(UnexpectedFrame(f.value.tag));
      return Err(UnexpectedFrame(f.value.tag));
    }

    method Ping() returns (res: Result<(), Error>)
      requires Valid()
      modifies this, conn
      ensures Settled(ErrorOf(res)) && Exchanged(Request.Ping, TAG_PONG, ErrorOf(res))
    {
      hide EncodeAll, RequestFrames, Owing, Strip, Flatten, MayBeNamed, Answers, IsReply, FirstReply;
      hide AfterReply, RequestFrame, Conn.Healthy;
      res := Command(Request.Ping, TAG_PONG);
    }

    method DeclareStream(stream: Bytes) returns (res: Result<(), Error>)
      requires Valid()
      modifies this, conn
      ensures Settled(ErrorOf(res)) && Exchanged(StreamDeclare(stream), TAG_OK, ErrorOf(res))
    {
      hide EncodeAll, RequestFrames, Owing, Strip, Flatten, MayBeNamed, Answers, IsReply, FirstReply;
      hide AfterReply, RequestFrame, Conn.Healthy;
      res := Command(StreamDeclare(stream), TAG_OK);
    }

    method BindSubject(stream: Bytes, pattern: Bytes) returns (res: Result<(), Error>)
      requires Valid()
      modifies this, conn
      ensures Settled(ErrorOf(res)) && Exchanged(Request.BindSubject(stream, pattern), TAG_OK, ErrorOf(res))
    {
      hide EncodeAll, RequestFrames, Owing, Strip, Flatten, MayBeNamed, Answers, IsReply, FirstReply;
      hide AfterReply, RequestFrame, Conn.Healthy;
      res := Command(Request.BindSubject(stream, pattern), TAG_OK);
    }

    method CumulativeAck(group: Bytes, upTo: U64) returns (res: Result<(), Error>)
      requires Valid()
      modifies this, conn
      ensures Settled(ErrorOf(res)) && Exchanged(Request.CumulativeAck(upTo, group), TAG_OK, ErrorOf(res))
    {
      hide EncodeAll, RequestFrames, Owing, Strip, Flatten, MayBeNamed, Answers, IsReply, FirstReply;
      hide AfterReply, RequestFrame, Conn.Healthy;
      res := Command(Request.CumulativeAck(upTo, group), TAG_OK);
    }

    // ----- the consume binding -----

    method Subscribe(group: Bytes) returns (res: Result<(), Error>)
      requires Valid()
      modifies this, conn
      ensures Settled(ErrorOf(res)) && Exchanged(Sub(group), TAG_OK, ErrorOf(res))
    {
      hide EncodeAll, RequestFrames, Owing, Strip, Flatten, MayBeNamed, Answers, IsReply, FirstReply;
      hide AfterReply, RequestFrame, Conn.Healthy;
      res := Command(Sub(group), TAG_OK);
      if res.Ok? {
        namedBinding := false;
      }
    }

    method Unsubscribe() returns (res: Result<(), Error>)
      requires Valid()
      modifies this, conn
      ensures Settled(ErrorOf(res)) && Exchanged(Unsub, TAG_OK, ErrorOf(res))
    {
      hide EncodeAll, RequestFrames, Owing, Strip, Flatten, MayBeNamed, Answers, IsReply, FirstReply;
      hide AfterReply, RequestFrame, Conn.Healthy;
      res := Command(Unsub, TAG_OK);
      if res.Ok? {
        namedBinding := false;
      }
    }

    method SubscribeTo(stream: Bytes, group: Bytes) returns (res: Result<(), Error>)
      requires Valid()
      modifies this, conn
      ensures Settled(ErrorOf(res)) && Exchanged(SubTo(stream, group), TAG_OK, ErrorOf(res))
    {
      hide EncodeAll, RequestFrames, Owing, Strip, Flatten, MayBeNamed, Answers, IsReply, FirstReply;
      hide AfterReply, RequestFrame, Conn.Healthy;
      res := Command(SubTo(stream, group), TAG_OK);
      if res.Ok? {
        namedBinding := stream != [];
      }
    }

    method SubscribeSubject(subject: Bytes, group: Bytes) returns (res: Result<(), Error>)
      requires Valid()
      modifies this, conn
      ensures Settled(ErrorOf(res)) && Exchanged(SubSubject(subject, group), TAG_OK, ErrorOf(res))
    {
      hide EncodeAll, RequestFrames, Owing, Strip, Flatten, MayBeNamed, Answers, IsReply, FirstReply;
      hide AfterReply, RequestFrame, Conn.Healthy;
      res := Command(SubSubject(subject, group), TAG_OK);
      if res.Ok? {
        // The broker binds the resolved stream, which may be the default one; Flow routes for both.
        namedBinding := true;
      }
    }

    // ----- requests whose reply carries a value -----

    /** The outcome of a call that sends `r` and reads a value: refused, or sent and judged by its own reply. It
        breaks the client only by a fault of the connection during the call, or for want of such a reply. */
    twostate predicate Judged<T>(new r: Request, new verdict: Frame -> Option<Result<T, Error>>, new res: Result<T, Error>)
      reads this, conn
    {
      && SentUnlessRefused(r, ErrorOf(res))
      && (var f := FirstReply(old(Stream()));
          old(Refusal(r)).None? && conn.faults == old(conn.faults) && f.Some? && verdict(f.value).Some? ==>
            broken.None? && replies == old(replies) + [[f.value]])
      && (broken.None? && sent != old(sent) ==>
             && sent == old(sent) + [r] && |replies| == |old(replies)| + 1 && old(replies) <= replies
             && IsReply(r, replies[|old(replies)|]) && ReplyRead(replies[|old(replies)|])
             && verdict(replies[|old(replies)|][0]) == Some(res))
    }

    method QueryStream(stream: Bytes) returns (res: Result<StreamStatus, Error>)
      requires Valid()
      modifies this, conn
      ensures Judged(StreamInfo(stream), f => StreamInfoVerdict(f), res) && Settled(ErrorOf(res))
    {
      hide EncodeAll, RequestFrames, Owing, Strip, Flatten, MayBeNamed, Answers, IsReply, FirstReply;
      hide AfterReply, RequestFrame, Conn.Healthy;
      if !BodyEncodes(StreamInfo(stream)) {
        return Err(FieldTooLarge);
      }
      var f := RoundTrip(StreamInfo(stream));
      if f.Err? {
        return Err(f.error);
      }
      var verdict := StreamInfoVerdict(f.value);
      if verdict.Some? {
        return verdict.value;
      }
      Fail(NoVerdict(f.value, {TAG_STREAM_INFO}));
      return Err(NoVerdict(f.value, {TAG_STREAM_INFO}));
    }

    /** Sends one Ack-frame op (ack, nack, term or progress) and reads its status. */
    method Settle(op: Byte, offset: U64, generation: U64, delayMs: U64) returns (res: Result<Byte, Error>)
      requires Valid() && op <= 3
      modifies this, conn
      ensures Judged(Ack(op, offset, generation, delayMs), f => SettleVerdict(f), res) && Settled(ErrorOf(res))
    {
      hide EncodeAll, RequestFrames, Owing, Strip, Flatten, MayBeNamed, Answers, IsReply, FirstReply;
      hide AfterReply, Conn.Healthy;
      hide RequestFrame, SettleVerdict;
      var f := RoundTrip(Ack(op, offset, generation, delayMs));
      if f.Err? {
        return Err(f.error);
      }
      var verdict := SettleVerdict(f.value);
      if verdict.Some? {
        return verdict.value;
      }
      Fail(NoVerdict(f.value, {TAG_ACK_STATUS}));
      return Err(NoVerdict(f.value, {TAG_ACK_STATUS}));
    }

    // ----- publishing -----

    /** Reads the reply to the oldest unanswered publish. */
    method ReadPubReply(ghost k: nat) returns (res: Result<ProduceAck, Error>)
      requires Steady() && broken.None? && k > 0 && Owes(k) && BindingKnown()
      requires !Streams(Owing(sent)[|replies|]) && !Owing(sent)[|replies|].Sub? && !Owing(sent)[|replies|].Unsub?
      requires !Owing(sent)[|replies|].SubTo? && !Owing(sent)[|replies|].SubSubject?
      modifies this`buf, this`scratchCap, this`broken, this`received, this`frames, this`replies
      modifies conn`script, conn`readSizes, conn`deadlines, conn`faults
      ensures Steady() && old(replies) <= replies
      ensures broken.Some? ==> res == Err(broken.value) && !Recoverable(res.error)
      ensures broken.None? ==>
                && Owes(k - 1) && BindingKnown() && |replies| == |old(replies)| + 1
                && IsReply(Owing(sent)[|old(replies)|], replies[|old(replies)|])
                && PubVerdict(utf8Valid, replies[|old(replies)|][0]) == Some(res)
                && (res.Err? ==> Soft(res.error))
                && ReplyRead(replies[|old(replies)|])
      ensures conn.Endured() && (broken.None? ==> conn.faults == old(conn.faults))
      ensures var f := FirstReply(old(Stream()));
              conn.faults == old(conn.faults) && f.Some? && PubVerdict(utf8Valid, f.value).Some? ==> broken.None?
    {
      hide EncodeAll, RequestFrames, Owing, Strip, Flatten, MayBeNamed, Answers, Conn.Healthy;
      var f := ReadReply(k);
      if f.Err? {
        return Err(f.error);
      }
      var verdict := PubVerdict(utf8Valid, f.value);
      if verdict.Some? {
        return verdict.value;
      }
      Fail(NoVerdict(f.value, PUB_REPLIES));
      return Err(NoVerdict(f.value, PUB_REPLIES));
    }

    /** Sends one awaited publish (Pub, PubTo or PubSubject) and reads its reply. */
    method ProduceBody(r: Request) returns (res: Result<ProduceAck, Error>)
      requires Valid() && (r.Pub? || r.PubTo? || r.PubSubject?) && WellFormed(r) && BearsReply(r)
      modifies this, conn
      ensures Judged(r, f => PubVerdict(utf8Valid, f), res) && Settled(ErrorOf(res))
    {
      hide EncodeAll, RequestFrames, Owing, Strip, Flatten, MayBeNamed, Answers, IsReply, FirstReply;
      hide AfterReply, RequestFrame, Conn.Healthy;
      if !BodyEncodes(r) {
        return Err(FieldTooLarge);
      }
      var f := RoundTrip(r);
      if f.Err? {
        return Err(f.error);
      }
      var verdict := PubVerdict(utf8Valid, f.value);
      if verdict.Some? {
        return verdict.value;
      }
      Fail(NoVerdict(f.value, PUB_REPLIES));
      return Err(NoVerdict(f.value, PUB_REPLIES));
    }

    method ProduceTo(stream: Bytes, m: Message) returns (res: Result<ProduceAck, Error>)
      requires Valid()
      modifies this, conn
      ensures Judged(PubTo(stream, Publish(m, None, 1, false)), f => PubVerdict(utf8Valid, f), res)
      ensures Settled(ErrorOf(res))
    {
      res := ProduceBody(PubTo(stream, Publish(m, None, 1, false)));
    }

    method ProduceSubject(subject: Bytes, m: Message) returns (res: Result<ProduceAck, Error>)
      requires Valid()
      modifies this, conn
      ensures Judged(PubSubject(subject, Publish(m, None, 1, false)), f => PubVerdict(utf8Valid, f), res)
      ensures Settled(ErrorOf(res))
    {
      res := ProduceBody(PubSubject(subject, Publish(m, None, 1, false)));
    }

    method ProduceDedup(m: Message, d: Dedup) returns (res: Result<ProduceAck, Error>)
      requires Valid()
      modifies this, conn
      ensures Judged(Pub(Publish(m, Some(d), 1, false)), f => PubVerdict(utf8Valid, f), res)
      ensures Settled(ErrorOf(res))
    {
      res := ProduceBody(Pub(Publish(m, Some(d), 1, false)));
    }

    /** Publishes at level 0: the broker never replies, so nothing becomes owed. */
    method ProduceFireAndForget(m: Message) returns (res: Result<(), Error>)
      requires Valid()
      modifies this, conn
      ensures Settled(ErrorOf(res))
      ensures frames == old(frames) && replies == old(replies) && received == old(received) && buf == old(buf)
      ensures conn.readSizes == old(conn.readSizes) && conn.script == old(conn.script)
      ensures res.Ok? <==> sent == old(sent) + [Pub(Publish(m, None, 0, true))]
      ensures res.Err? ==> sent == old(sent)
      ensures SentUnlessRefused(Pub(Publish(m, None, 0, true)), ErrorOf(res))
    {
      hide EncodeAll, RequestFrames, Owing, Strip, Flatten, MayBeNamed, Answers, RequestFrame, PubFits, Conn.Healthy;
      var r := Pub(Publish(m, None, 0, true));
      if !BodyEncodes(r) {
        return Err(FieldTooLarge);
      }
      res := Send(r);
    }

    /** Level 0 is fire-and-forget, levels 1 and 2 await the durability ack and return its offset, anything above
        is rejected before it touches the connection. */
    method ProduceWithAckLevel(m: Message, level: nat) returns (res: Result<nat, Error>)
      requires Valid()
      modifies this, conn
      ensures level <= 2 ==> Settled(ErrorOf(res))
      ensures level > 2 ==> res == Err(InvalidAckLevel(level)) && History() == old(History())
      ensures level == 0 ==> replies == old(replies) && received == old(received) && (res.Ok? ==> res.value == 0)
      ensures level == 0 ==> SentUnlessRefused(Pub(Publish(m, None, 0, true)), ErrorOf(res))
      ensures level == 0 ==> (res.Ok? <==> sent == old(sent) + [Pub(Publish(m, None, 0, true))])
      ensures 1 <= level <= 2 ==> Judged(Pub(Publish(m, None, level, false)), f => OffsetVerdict(utf8Valid, f), res)
    {
      hide EncodeAll, RequestFrames, Owing, Strip, Flatten, MayBeNamed, Answers, IsReply, FirstReply;
      hide AfterReply, Conn.Healthy;
      hide RequestFrame, PubFits, PubVerdict;
      if level > 2 {
        return Err(InvalidAckLevel(level));
      }
      if level == 0 {
        var ok := ProduceFireAndForget(m);
        return if ok.Ok? then Ok(0) else Err(ok.error);
      }
      var ack := ProduceBody(Pub(Publish(m, None, level, false)));
      if ack.Err? {
        return Err(ack.error);
      }
      return Ok(ack.value.offset);
    }

    // ----- the pipelined window -----

    /** Encodes a whole window into one buffer; nothing is written if a message does not encode. */
    method EncodeWindow(messages: seq<Message>) returns (res: Result<(), Error>)
      modifies this`wbuf
      ensures res.Ok? ==> wbuf == EncodeAll(RequestFrames(Pubs(messages)))
      ensures ErrorOf(res) == EncodeFault(messages)
      ensures res.Err? ==> !Recoverable(res.error)
      ensures res.Ok? <==> WindowEncodes(messages)
    {
      hide EncodeAll, RequestFrames, EncodeFrame, PubBody, PubFits, Conn.Healthy;
      EncodeNothing();
      wbuf := [];
      var i := 0;
      while i < |messages|
        invariant 0 <= i <= |messages|
        invariant messages[..0] == []
        invariant wbuf == EncodeAll(RequestFrames(Pubs(messages[..i])))
        invariant WindowEncodes(messages[..i]) && EncodeFault(messages[..i]).None?
      {
        var r := Pub(Publish(messages[i], None, 1, false));
        assert messages[..i + 1][..i] == messages[..i];
        if !BodyEncodes(r) {
          EncodeFaultStays(messages, i + 1);
          return Err(FieldTooLarge);
        }
        if !RequestFrame(r).Fits() {
          EncodeFaultStays(messages, i + 1);
          return Err(FrameTooLarge);
        }
        wbuf := wbuf + EncodeFrame(RequestFrame(r));
        assert messages[..i + 1] == messages[..i] + [messages[i]];
        assert Pubs(messages[..i + 1]) == Pubs(messages[..i]) + [r];
        RequestFramesAppend(Pubs(messages[..i]), [r]);
        EncodeAllAppend(RequestFrames(Pubs(messages[..i])), RequestFrames([r]));
        RequestFramesOne(r);
        i := i + 1;
      }
      assert messages[..i] == messages;
      res := Ok(());
    }

    /** The error with which a window is refused before any byte moves. */
    ghost function WindowRefusal(messages: seq<Message>): Option<Error>
      reads this, conn
    {
      if broken.Some? then broken
      else if EncodeFault(messages).Some? then EncodeFault(messages)
      else if conn.Late().Some? then Some(Cancelled(conn.Late().value))
      else None
    }

    /** Writes every publish before awaiting any reply, then drains one reply per message, in order.
        On success the i-th ack is the broker's answer to the i-th message. A rejected slot does not stop the
        drain: the first rejection is returned and the connection is owed nothing. A refused window leaves
        everything as it was. */
    method ProduceWindow(messages: seq<Message>) returns (res: Result<seq<ProduceAck>, Error>)
      requires Valid()
      modifies this, conn
      ensures Settled(ErrorOf(res)) && conn.Endured()
      ensures old(broken).None? && messages == [] ==> res == Ok([]) && History() == old(History())
      ensures old(broken).Some? ==> res == Err(old(broken).value)
      ensures messages != [] && old(WindowRefusal(messages)).Some? ==>
                ErrorOf(res) == old(WindowRefusal(messages)) && History() == old(History())
      ensures messages != [] && old(WindowRefusal(messages)).None? && conn.faults == old(conn.faults) ==>
                && sent == old(sent) + Pubs(messages)
                && (broken.None? <==> PubsAhead(utf8Valid, old(Stream()), |messages|).Some?)
      ensures broken.None? && sent == old(sent) && messages != [] ==> old(WindowRefusal(messages)).Some?
      ensures broken.None? && sent != old(sent) ==>
                && sent == old(sent) + Pubs(messages)
                && |replies| == |old(replies)| + |messages| && old(replies) <= replies
                && res == WindowVerdict(utf8Valid, replies[|old(replies)|..])
                && AllPubReplies(|old(replies)|)
                && PubsAhead(utf8Valid, old(Stream()), |messages|) == Some(replies[|old(replies)|..])
    {
      hide EncodeAll, RequestFrames, Owing, Strip, Flatten, MayBeNamed, Answers, IsReply, WindowVerdict;
      hide WindowEncodes, Conn.Healthy;
      hide AllPubReplies, PubBody, AllSendable, Sendable, RequestFrame, PubVerdict, PubsAhead, EncodeFault;
      if broken.Some? {
        return Err(broken.value);
      }
      if messages == [] {
        return Ok([]);
      }
      var encoded := EncodeWindow(messages);
      if encoded.Err? {
        return Err(encoded.error);
      }
      res := TransmitWindow(messages);
    }

    /** Writes the encoded window and drains its replies. */
    method TransmitWindow(messages: seq<Message>) returns (res: Result<seq<ProduceAck>, Error>)
      requires Valid() && broken.None? && messages != []
      requires WindowEncodes(messages) && wbuf == EncodeAll(RequestFrames(Pubs(messages)))
      modifies this, conn
      ensures Settled(ErrorOf(res)) && conn.Endured()
      ensures old(conn.Late()).Some? ==> res == Err(Cancelled(old(conn.Late()).value)) && History() == old(History())
      ensures old(conn.Late()).None? && conn.faults == old(conn.faults) ==>
                && sent == old(sent) + Pubs(messages)
                && (broken.None? <==> PubsAhead(utf8Valid, old(Stream()), |messages|).Some?)
      ensures broken.None? && sent == old(sent) ==> old(conn.Late()).Some?
      ensures broken.None? && sent != old(sent) ==>
                && sent == old(sent) + Pubs(messages)
                && |replies| == |old(replies)| + |messages| && old(replies) <= replies
                && res == WindowVerdict(utf8Valid, replies[|old(replies)|..])
                && AllPubReplies(|old(replies)|)
                && PubsAhead(utf8Valid, old(Stream()), |messages|) == Some(replies[|old(replies)|..])
    {
      hide EncodeAll, RequestFrames, Owing, Strip, Flatten, MayBeNamed, Answers, IsReply, WindowVerdict;
      hide WindowEncodes, Conn.Healthy;
      hide AllPubReplies, PubBody, AllSendable, Sendable, RequestFrame, PubVerdict, PubsAhead;
      var late := conn.CheckDeadline();
      if late.Some? {
        return Err(Cancelled(late.value));
      }
      PubsSendable(messages);
      var ok := Transmit(Pubs(messages));
      if ok.Err? {
        return Err(ok.error);
      }
      res := DrainWindow(|messages|);
    }

    ghost predicate AllPubReplies(base: nat)
      reads this
    {
      forall i :: base <= i < |replies| ==> replies[i] != [] && PubVerdict(utf8Valid, replies[i][0]).Some?
    }

    /** Drains exactly `n` publish replies, rejected slots included. The client survives exactly when the stream
        has `n` publish replies to give. */
    method DrainWindow(n: nat) returns (res: Result<seq<ProduceAck>, Error>)
      requires Steady() && broken.None? && Owes(n) && BindingKnown()
      requires forall i :: |replies| <= i < |Owing(sent)| ==> Owing(sent)[i].Pub?
      modifies this`buf, this`scratchCap, this`broken, this`received, this`frames, this`replies
      modifies conn`script, conn`readSizes, conn`deadlines, conn`faults
      ensures Steady()
      ensures broken.Some? ==> res == Err(broken.value)
      ensures broken.None? ==>
                && Owes(0) && BindingKnown() && |replies| == |old(replies)| + n && old(replies) <= replies
                && AllPubReplies(|old(replies)|)
                && res == WindowVerdict(utf8Valid, replies[|old(replies)|..])
                && PubsAhead(utf8Valid, old(Stream()), n) == Some(replies[|old(replies)|..])
      ensures conn.Endured() && (conn.faults == old(conn.faults) && PubsAhead(utf8Valid, old(Stream()), n).Some? ==> broken.None?)
    {
      hide EncodeAll, RequestFrames, Owing, Strip, Flatten, MayBeNamed, WindowVerdict, PubVerdict, Answers;
      hide Conn.Healthy;
      hide PubsAhead, FirstReply, AfterReply, Preceded, Stream, Framed, Steady;
      WindowVerdictEmpty(utf8Valid, replies);
      ghost var base, ahead := |replies|, PubsAhead(utf8Valid, Stream(), n);
      assert replies[base..] == [];
      PrecededLaws([], [], ahead);
      var acks: seq<ProduceAck> := [];
      var firstErr: Option<Error> := None;
      var i := 0;
      while i < n
        invariant 0 <= i <= n == |Owing(sent)| - base
        invariant Steady() && broken.None? && Owes(n - i) && BindingKnown()
        invariant old(replies) <= replies && |replies| == base + i && AllPubReplies(base)
        invariant WindowVerdict(utf8Valid, replies[base..]) == if firstErr.Some? then Err(firstErr.value) else Ok(acks)
        invariant conn.faults == old(conn.faults) && conn.Endured()
        invariant ahead == Preceded(replies[base..], PubsAhead(utf8Valid, Stream(), n - i))
      {
        ghost var before, stream := replies, Stream();
        PubsAheadStep(utf8Valid, stream, n - i);
        var ack := ReadPubReply(n - i);
        if ack.Err? && !Soft(ack.error) {
          NothingAhead(before[base..]);
          return Err(ack.error);
        }
        assert replies[base..] == before[base..] + [replies[base + i]];
        assert replies[base + i] == [replies[base + i][0]];
        WindowVerdictSnoc(utf8Valid, before[base..], replies[base + i][0]);
        PrecededLaws(before[base..], replies[base + i], PubsAhead(utf8Valid, Stream(), n - i - 1));
        if ack.Err? {
          if firstErr.None? {
            firstErr := Some(ack.error);
          }
          acks := acks + [ProduceAck(0, false)];
        } else {
          acks := acks + [ack.value];
        }
        i := i + 1;
      }
      PubsAheadStep(utf8Valid, Stream(), 0);
      PrecededLaws(replies[base..], [], Some([]));
      if firstErr.Some? {
        return Err(firstErr.value);
      }
      return Ok(acks);
    }

    // ----- consuming -----

    /** Drains one delivery window up to its terminator. A poisoned record or an exceeded aggregate cap does
        not stop the drain: the rest of the window is consumed and the error surfaces after it. */
    method ReadFetchResponse(limit: nat) returns (res: Result<FetchResult, Error>)
      requires Steady() && broken.None? && Owes(1) && BindingKnown() && Streams(Owing(sent)[|replies|])
      modifies this`buf, this`scratchCap, this`broken, this`received, this`frames, this`replies
      modifies conn`script, conn`readSizes, conn`deadlines, conn`faults
      ensures Steady()
      ensures broken.Some? ==> res == Err(broken.value)
      ensures broken.None? ==>
                && Owes(0) && BindingKnown() && |replies| == |old(replies)| + 1 && old(replies) <= replies
                && var w := replies[|old(replies)|];
                   && IsReply(Owing(sent)[|old(replies)|], w) && |w| - 1 <= limit && WindowBody(w[..|w| - 1])
                   && res == Verdict(lz4, FetchDecompressedCap(info.creditBytes), w)
                   && WindowAhead(old(Stream()), limit) == Some(w)
      ensures conn.Endured() && (conn.faults == old(conn.faults) && WindowAhead(old(Stream()), limit).Some? ==> broken.None?)
    {
      hide EncodeAll, RequestFrames, Owing, Strip, Flatten, MayBeNamed, Answers, Drained, Verdict, Drain.Feed;
      hide BodyOk, Conn.Healthy;
      hide WindowAhead, Stream;
      var end, poison, out; ghost var w;
      end, poison, out, w := CollectWindow(limit);
      if end.Err? {
        return Err(end.error);
      }
      FinishWindow(w, end.value);
      VerdictOf(lz4, FetchDecompressedCap(info.creditBytes), w, end.value);
      res := if end.value.tag == TAG_ERR then Err(ServerError(end.value.body))
             else if poison.Some? then Err(poison.value) else Ok(out);
    }

    /** Consumes frames up to and including the terminator of the window. */
    method CollectWindow(limit: nat)
      returns (res: Result<Frame, Error>, poison: Option<Error>, out: FetchResult, ghost w: seq<Frame>)
      requires Steady() && broken.None? && Strip(frames) == Flatten(replies)
      modifies this`buf, this`scratchCap, this`broken, this`received, this`frames
      modifies conn`script, conn`readSizes, conn`deadlines, conn`faults
      ensures Steady()
      ensures res.Err? ==> broken == Some(res.error)
      ensures res.Ok? ==>
                && broken.None? && Strip(frames) == Flatten(replies) + w + [res.value] && Terminates(res.value)
                && |w| <= limit && WindowBody(w) && InWindow(w)
                && var d := Drained(lz4, FetchDecompressedCap(info.creditBytes), w);
                   d.poison == poison && d.out == out
      ensures res.Ok? ==> WindowAhead(old(Stream()), limit) == Some(w + [res.value])
      ensures conn.Endured() && (conn.faults == old(conn.faults) && WindowAhead(old(Stream()), limit).Some? ==> res.Ok?)
    {
      hide WindowAhead, FirstReply, AfterReply, Preceded, WindowFault;
      hide EncodeAll, RequestFrames, Owing, Strip, Flatten, Drained, Drain.Feed, BodyOk, Framed, Steady;
      hide WindowBody, InWindow, Stream, Conn.Healthy;
      w := [];
      out := FetchResult([], [], [], []);
      poison := None;
      var count := 0;
      var bytes: nat := 0;
      var cap := FetchDecompressedCap(info.creditBytes);
      EmptyWindow(lz4, cap, Flatten(replies));
      ghost var ahead := WindowAhead(Stream(), limit);
      PrecededLaws([], Frame(0, []), ahead);
      while true
        invariant Steady() && broken.None? && Strip(frames) == Flatten(replies) + w && InWindow(w)
        invariant count == |w| <= limit && WindowBody(w)
        invariant Drained(lz4, cap, w) == Drain(poison, bytes, out)
        invariant ahead == Preceded(w, WindowAhead(Stream(), limit - count))
        invariant conn.faults == old(conn.faults) && conn.Endured()
        decreases |Stream()|
      {
        ghost var stream := Stream();
        NoWindowAhead(stream, limit - count);
        NothingAhead(w);
        res := ReadPastPushes();
        if res.Err? {
          return;
        }
        var f := res.value;
        WindowAheadStep(stream, count, limit);
        var bad := WindowFault(f, count, limit);
        FaultIs(f, count, limit);
        if bad.Some? {
          Fail(bad.value);
          res := Err(bad.value);
          return;
        }
        PrecededLaws(w, f, WindowAhead(Stream(), if count < limit then limit - count - 1 else 0));
        if Terminates(f) {
          return;
        }
        count := count + 1;
        poison, bytes, out := Absorb(f, cap, poison, bytes, out);
        DrainedSnoc(lz4, cap, w, f);
        AppendAssoc(Flatten(replies), w, [f]);
        InWindowSnoc(w, f);
        w := w + [f];
      }
    }

    /** One delivery or advisory of a window. */
    method Absorb(f: Frame, cap: nat, poison: Option<Error>, bytes: nat, out: FetchResult)
      returns (poison': Option<Error>, bytes': nat, out': FetchResult)
      requires (f.tag == TAG_DELIVER || IsAdvisory(f)) && BodyOk(f)
      ensures Drain(poison', bytes', out') == Drain(poison, bytes, out).Feed(lz4, cap, f)
    {
      poison', bytes', out' := poison, bytes, out;
      if f.tag == TAG_DELIVER {
        if poison.Some? {
          // Draining after a poison: consumed but dropped un-acked.
          return;
        }
        var d := Materialize(lz4, DecodeDeliver(f.body).value);
        if d.None? {
          poison' := Some(BadRecord);
          return;
        }
        bytes' := bytes + |d.value.payload|;
        if bytes' > cap {
          poison' := Some(AggregateCapExceeded);
          return;
        }
        out' := out.(messages := out.messages + [d.value]);
      } else if f.tag == TAG_DEAD_LETTER {
        out' := out.(deadLetters := out.deadLetters + [DeadLetter(U64At(f.body, 0), f.body[8])]);
      } else if f.tag == TAG_TRUNCATED {
        out' := out.(truncations := out.truncations + [Truncation(U64At(f.body, 0), U64At(f.body, 8))]);
      } else {
        out' := out.(gaps := out.gaps + [Gap(U64At(f.body, 0), U64At(f.body, 8), U64At(f.body, 16), f.body[24])]);
      }
    }

    /** Book-keeping for a window whose terminator `f` was just consumed. */
    ghost method FinishWindow(w: seq<Frame>, f: Frame)
      requires Strip(frames) == Flatten(replies) + w + [f] && Terminates(f)
      requires Answers(Owing(sent), replies) && |Owing(sent)| == |replies| + 1 && Streams(Owing(sent)[|replies|])
      requires InWindow(w) && BindingKnown()
      modifies this`replies
      ensures replies == old(replies) + [w + [f]] && (w + [f])[..|w|] == w
      ensures Owes(0) && BindingKnown() && IsReply(Owing(sent)[|old(replies)|], w + [f])
    {
      hide EncodeAll, RequestFrames, Owing, Strip, Flatten, MayBeNamed, Conn.Healthy;
      AppendAssoc(Flatten(replies), w, [f]);
      RecordReply(w + [f]);
    }

    /** Drains up to `opts.maxRecords` records in one round trip, capped at the negotiated credit. A connection
        that may be bound to a named stream is drained with Flow, never with the default-stream Fetch verb. */
    method Fetch(opts: FetchOptions) returns (res: Result<FetchResult, Error>)
      requires Valid()
      modifies this, conn
      ensures Settled(ErrorOf(res))
      ensures SentUnlessRefused(FetchRequest(old(namedBinding), opts, info.credit), ErrorOf(res))
      ensures old(Refusal(FetchRequest(namedBinding, opts, info.credit))).None? && conn.faults == old(conn.faults) ==>
                (broken.None? <==> WindowAhead(old(Stream()), MaxRecords(opts, info.credit)).Some?)
      ensures broken.None? && sent != old(sent) ==>
                && sent == old(sent) + [FetchRequest(old(namedBinding), opts, info.credit)]
                && |replies| == |old(replies)| + 1 && old(replies) <= replies
                && var w := replies[|old(replies)|];
                   && IsReply(sent[|old(sent)|], w) && WindowBody(w[..|w| - 1])
                   && |w| - 1 <= MaxRecords(opts, info.credit)
                   && res == Verdict(lz4, FetchDecompressedCap(info.creditBytes), w)
                   && WindowAhead(old(Stream()), MaxRecords(opts, info.credit)) == Some(w)
    {
      hide EncodeAll, RequestFrames, Owing, Strip, Flatten, MayBeNamed, Answers, IsReply, Verdict, WindowBody;
      hide Conn.Healthy;
      hide WindowAhead, RequestFrame, FetchRequest, FirstReply, AfterReply;
      FetchSendable(namedBinding, opts, info.credit);
      var r := FetchRequest(namedBinding, opts, info.credit);
      var ok := Send(r);
      if ok.Err? {
        return Err(ok.error);
      }
      res := ReadFetchResponse(MaxRecords(opts, info.credit));
    }
  }

  /** The Connect/Info handshake on a fresh socket. A client is returned only once the broker's Info reply was
      read and decoded; any other outcome closes the socket. Unlike later reads, a push here is not skipped. */
  method Connect(conn: Conn, hello: Bytes, defaultAckLevel: Option<nat>, decodeInfo: Bytes -> Option<Info>,
                 lz4: Lz4, utf8Valid: Bytes -> bool) returns (res: Result<Client, Error>)
    requires conn.written == [] && conn.readSizes == [] && !conn.closed
    modifies conn
    ensures res.Ok? ==>
              && fresh(res.value) && res.value.conn == conn && !conn.closed
              && res.value.Valid() && res.value.broken.None? && !res.value.namedBinding
              && res.value.sent == [Request.Connect(hello)]
              && exists f :: res.value.replies == [[f]] && f.tag == TAG_INFO && decodeInfo(f.body) == Some(res.value.info)
    ensures res.Err? && (defaultAckLevel.Some? ==> defaultAckLevel.value <= 2) ==> conn.closed
    ensures var d := DecodeFrame(old(conn.Incoming()));
            && (defaultAckLevel.Some? ==> defaultAckLevel.value <= 2)
            && old(conn.Late()).None? && conn.faults == old(conn.faults)
            && RequestFrame(Request.Connect(hello)).Fits() && d.Complete? && KnownTag(d.frame.tag) ==>
              if d.frame.tag == TAG_INFO then if decodeInfo(d.frame.body).Some? then res.Ok? else res == Err(BadBody(TAG_INFO))
              else if d.frame.tag == TAG_ERR then res == Err(ServerError(d.frame.body))
              else res == Err(UnexpectedFrame(d.frame.tag))
    ensures conn.Endured()
    ensures defaultAckLevel.Some? && defaultAckLevel.value > 2 ==>
              res == Err(InvalidAckLevel(defaultAckLevel.value)) && unchanged(conn)
  {
    hide EncodeAll, RequestFrames, Owing, Strip, Flatten, MayBeNamed, Answers, IsReply, DecodeFrame;
    hide RequestFrame, Conn.Healthy;
    if defaultAckLevel.Some? && defaultAckLevel.value > 2 {
      return Err(InvalidAckLevel(defaultAckLevel.value));
    }
    var c := new Client(conn, lz4, utf8Valid);
    assert c.Stream() == conn.Incoming();
    var f := c.Handshake(hello);
    if f.Err? {
      c.Close();
      return Err(f.error);
    }
    if f.value.tag == TAG_INFO {
      var info := decodeInfo(f.value.body);
      if info.Some? {
        c.info := info.value;
        assert c.replies == [[f.value]] && c.sent == [Request.Connect(hello)];
        return Ok(c);
      }
      c.Close();
      return Err(BadBody(TAG_INFO));
    }
    c.Close();
    return if f.value.tag == TAG_ERR then Err(ServerError(f.value.body)) else Err(UnexpectedFrame(f.value.tag));
  }

  // ----- over whole runs -----

  /** FIFO pairing over a whole run. Take any usable client in any reachable state, and any broker that answers
      reply-bearing requests in order, pushes inserted anywhere, whose bytes the socket cut arbitrarily. The
      replies the client handed to its calls are exactly the broker's replies to those calls, and none is owed. */
  lemma RunPairing(c: Client, broker: seq<Frame>, server: seq<seq<Frame>>)
    requires c.Valid() && c.broken.None?
    requires AllFit(broker) && c.received <= EncodeAll(broker)
    requires Strip(broker) == Flatten(server) && Answers(Owing(c.sent), server)
    ensures c.frames <= broker && c.replies <= server && |c.replies| == |Owing(c.sent)|
  {
    EndToEndPairing(Owing(c.sent), c.frames, c.buf, c.replies, broker, server);
  }

  /** Chunking independence over two runs: clients that received prefixes of the same stream, however their
      sockets cut it, took the same frames as far as the shorter one got. */
  lemma RunFraming(c: Client, d: Client, stream: Bytes)
    requires c.Valid() && d.Valid() && c.received <= stream && d.received <= stream
    requires |c.frames| <= |d.frames|
    ensures c.frames <= d.frames
  {
    FramingIsUnique(c.frames, c.buf, d.frames, d.buf, stream);
  }

  /** Binding agreement over a whole run: a connection the broker has bound to a named stream, however its
      subjects resolved, is drained with Flow. */
  lemma NamedStreamUsesFlow(c: Client, resolve: nat -> Bytes, opts: FetchOptions)
    requires c.Valid() && c.broken.None?
    requires BoundStream(resolve, Owing(c.sent), c.replies) != []
    ensures FetchRequest(c.namedBinding, opts, c.info.credit).Flow?
  {
    BindingAgreement(resolve, Owing(c.sent), c.replies);
  }

  /** The first bytes of the largest frame: its length prefix and all of it but the last byte. */
  function AlmostWhole(): (head: Bytes)
    ensures |head| == LEN_PREFIX + MAX_FRAME_LEN - 1
  {
    LittleEndian(MAX_FRAME_LEN, LEN_PREFIX) + seq(MAX_FRAME_LEN - 1, _ => 0)
  }

  lemma AlmostWholeNeedsMore(k: nat)
    requires k <= LEN_PREFIX + MAX_FRAME_LEN - 1
    ensures DecodeFrame(AlmostWhole()[..k])
         == NeedMore(if k < LEN_PREFIX then LEN_PREFIX else LEN_PREFIX + MAX_FRAME_LEN)
  {
    Pow256Four();
    LittleEndianRoundTrip(MAX_FRAME_LEN, LEN_PREFIX);
    if k >= LEN_PREFIX {
      assert AlmostWhole()[..k][..LEN_PREFIX] == LittleEndian(MAX_FRAME_LEN, LEN_PREFIX);
    }
  }

  lemma AlmostWholeLength()
    ensures |AlmostWhole()| == LEN_PREFIX + MAX_FRAME_LEN - 1
  {
  }

  lemma SplitAt(s: Bytes, k: nat, n: nat)
    requires k + n <= |s|
    ensures s[..k] + s[k..][..n] == s[..k + n] && s[k..][n..] == s[k + n..]
  {
  }

  /** The buffer bound is tight. A peer that sends all but the last byte of the largest frame, and then more,
      drives a fresh client through its own read loop to one byte below the bound, so the bound does not hold
      without the length prefix. */
  method ReachBufferBound(lz4: Lz4, utf8Valid: Bytes -> bool) returns (c: Client)
    ensures fresh(c) && c.Framed() && c.broken.None?
    ensures |c.buf| == LEN_PREFIX + MAX_FRAME_LEN + READ_WINDOW - 1
  {
    hide DecodeFrame, AlmostWhole, EncodeAll, RequestFrames, Deliverable, Strip, Flatten, Owing, MayBeNamed;
    hide Client.Framed;
    var head, extra := AlmostWhole(), seq(READ_WINDOW, _ => 0);
    AlmostWholeLength();
    var conn := new Conn([Chunk(head), Chunk(extra)], [], []);
    c := new Client(conn, lz4, utf8Valid);
    assert head[..0] == [] && head[0..] == head;
    while |c.buf| < |head|
      invariant c.Framed() && c.broken.None? && c.conn == conn && fresh(c) && fresh(conn)
      invariant |c.buf| <= |head| && c.buf == head[..|c.buf|]
      invariant conn.script == (if |c.buf| < |head| then [Chunk(head[|c.buf|..])] else []) + [Chunk(extra)]
      decreases |head| - |c.buf|
    {
      var k := |c.buf|;
      AlmostWholeNeedsMore(k);
      var failed := c.FillBuffer(if k < LEN_PREFIX then LEN_PREFIX else LEN_PREFIX + MAX_FRAME_LEN);
      SplitAt(head, k, |c.buf| - k);
    }
    AlmostWholeNeedsMore(|head|);
    assert head[..|head|] == head;
    var failed := c.FillBuffer(LEN_PREFIX + MAX_FRAME_LEN);
  }
}
