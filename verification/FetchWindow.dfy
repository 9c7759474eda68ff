/** What one fetch window means: the deliveries and advisories of a whole reply, and when it is poisoned. */
module FetchWindow {
  import opened Common
  import opened Wire
  import opened Protocol

  /** The per-record decompressed-size cap (8 MiB) and the aggregate floor for one window (256 MiB). */
  const MAX_DECOMPRESSED := 8 * 1024 * 1024
  const MAX_FETCH_DECOMPRESSED := 256 * 1024 * 1024
  const MAX_INT := 0x7FFF_FFFF_FFFF_FFFF

  datatype Delivery = Delivery(offset: nat, generation: nat, flags: Byte, timestampMs: nat,
                               key: Bytes, headers: Bytes, payload: Bytes)
  datatype DeadLetter = DeadLetter(offset: nat, reason: Byte)
  datatype Truncation = Truncation(earliestRetained: nat, skipped: nat)
  datatype Gap = Gap(from: nat, to: nat, bytesSkipped: nat, reason: Byte)
  datatype FetchResult = FetchResult(messages: seq<Delivery>, deadLetters: seq<DeadLetter>,
                                     truncations: seq<Truncation>, gaps: seq<Gap>) {
    function Count(): nat {
      |messages| + |deadLetters| + |truncations| + |gaps|
    }
  }

  /** An LZ4 block decoder: what it wrote into a buffer of the given size, if it succeeded. */
  type Lz4 = (Bytes, nat) -> Option<Bytes>

  function U64At(s: Bytes, i: nat): nat
    requires i + 8 <= |s|
  {
    FromLittleEndian(s[i..i + 8])
  }

  /** A u16-length-prefixed field at the front of `s`, and what follows it. */
  function TakeVar(s: Bytes): Option<(Bytes, Bytes)> {
    if |s| < 2 then None
    else
      var n := FromLittleEndian(s[..2]);
      if |s| - 2 < n then None else Some((s[2..2 + n], s[2 + n..]))
  }

  function DecodeDeliver(body: Bytes): Option<Delivery> {
    if |body| < 25 then None
    else match TakeVar(body[25..])
      case None => None
      case Some((key, rest)) =>
        match TakeVar(rest)
        case None => None
        case Some((headers, payload)) =>
          Some(Delivery(U64At(body, 0), U64At(body, 8), body[16], U64At(body, 17), key, headers, payload))
  }

  /** Decompresses a stored payload: descriptor checks, the claimed length capped before it is trusted. */
  function DecompressPayload(lz4: Lz4, stored: Bytes): (r: Option<Bytes>)
    ensures r.Some? ==> |r.value| <= MAX_DECOMPRESSED
  {
    if |stored| < 9 then None
    else
      var codec := stored[0];
      var dict := FromLittleEndian(stored[1..5]);
      var outLen := FromLittleEndian(stored[5..9]);
      var stream := stored[9..];
      if (codec != 0 && codec != 1) || dict != 0 || outLen > MAX_DECOMPRESSED then None
      else if codec == 0 then (if |stream| == outLen then Some(stream) else None)
      else
        var out := lz4(stream, outLen);
        if out.Some? && |out.value| == outLen then out else None
  }

  /** A wire delivery with its payload materialized and the compressed flag cleared. */
  function Materialize(lz4: Lz4, d: Delivery): Option<Delivery> {
    if d.flags % 2 == 1 then
      var raw := DecompressPayload(lz4, d.payload);
      if raw.Some? then Some(d.(flags := d.flags - 1, payload := raw.value)) else None
    else Some(d)
  }

  /** The body shapes the decoders accept. */
  predicate BodyOk(f: Frame) {
    (f.tag == TAG_DELIVER ==> DecodeDeliver(f.body).Some?)
    && (f.tag == TAG_DEAD_LETTER ==> |f.body| == 9)
    && (f.tag == TAG_TRUNCATED ==> |f.body| == 16)
    && (f.tag == TAG_GAP_MARKER ==> |f.body| == 25)
    && (f.tag == TAG_FLOW_END ==> |f.body| == 4)
  }

  predicate IsAdvisory(f: Frame) {
    f.tag == TAG_DEAD_LETTER || f.tag == TAG_TRUNCATED || f.tag == TAG_GAP_MARKER
  }

  ghost predicate WindowBody(p: seq<Frame>) {
    forall i :: 0 <= i < |p| ==> (p[i].tag == TAG_DELIVER || IsAdvisory(p[i])) && BodyOk(p[i])
  }

  /** The running state of a window drain over the frames seen so far. */
  datatype Drain = Drain(poison: Option<Error>, bytes: nat, out: FetchResult) {

    /** One delivery or advisory. After a poison, deliveries are consumed but dropped. */
    function Feed(lz4: Lz4, cap: nat, f: Frame): Drain
      requires (f.tag == TAG_DELIVER || IsAdvisory(f)) && BodyOk(f)
    {
      if f.tag == TAG_DELIVER then
        if poison.Some? then this
        else
          var d := Materialize(lz4, DecodeDeliver(f.body).value);
          if d.None? then this.(poison := Some(BadRecord))
          else if bytes + |d.value.payload| > cap then
            this.(poison := Some(AggregateCapExceeded), bytes := bytes + |d.value.payload|)
          else this.(bytes := bytes + |d.value.payload|, out := out.(messages := out.messages + [d.value]))
      else if f.tag == TAG_DEAD_LETTER then
        this.(out := out.(deadLetters := out.deadLetters + [DeadLetter(U64At(f.body, 0), f.body[8])]))
      else if f.tag == TAG_TRUNCATED then
        this.(out := out.(truncations := out.truncations + [Truncation(U64At(f.body, 0), U64At(f.body, 8))]))
      else
        this.(out := out.(gaps := out.gaps + [Gap(U64At(f.body, 0), U64At(f.body, 8), U64At(f.body, 16), f.body[24])]))
    }
  }

  const START := Drain(None, 0, FetchResult([], [], [], []))

  ghost function Drained(lz4: Lz4, cap: nat, p: seq<Frame>): Drain
    requires WindowBody(p)
  {
    if p == [] then START
    else Drained(lz4, cap, p[..|p| - 1]).Feed(lz4, cap, p[|p| - 1])
  }

  lemma DrainedSnoc(lz4: Lz4, cap: nat, p: seq<Frame>, f: Frame)
    requires WindowBody(p) && (f.tag == TAG_DELIVER || IsAdvisory(f)) && BodyOk(f)
    ensures WindowBody(p + [f]) && Drained(lz4, cap, p + [f]) == Drained(lz4, cap, p).Feed(lz4, cap, f)
  {
    assert (p + [f])[..|p|] == p;
  }

  /** What a whole fetch reply yields: the broker's rejection, the first poison, or the window's contents. */
  ghost function Verdict(lz4: Lz4, cap: nat, w: seq<Frame>): Result<FetchResult, Error>
    requires w != [] && WindowBody(w[..|w| - 1])
  {
    var last := w[|w| - 1];
    if last.tag == TAG_ERR then Err(ServerError(last.body))
    else
      var d := Drained(lz4, cap, w[..|w| - 1]);
      if d.poison.Some? then Err(d.poison.value) else Ok(d.out)
  }

  lemma VerdictOf(lz4: Lz4, cap: nat, p: seq<Frame>, f: Frame)
    requires WindowBody(p)
    ensures (p + [f])[..|p + [f]| - 1] == p
    ensures Verdict(lz4, cap, p + [f])
              == var d := Drained(lz4, cap, p);
                 if f.tag == TAG_ERR then Err(ServerError(f.body))
                 else if d.poison.Some? then Err(d.poison.value) else Ok(d.out)
  {
    assert (p + [f])[..|p + [f]| - 1] == p;
  }

  // ----- an independent reading of a clean window -----

  /** The deliveries a window carries, each materialized on its own; None if one cannot be. */
  ghost function Records(lz4: Lz4, p: seq<Frame>): Option<seq<Delivery>>
    requires WindowBody(p)
  {
    if p == [] then Some([])
    else
      var init := Records(lz4, p[..|p| - 1]);
      var last := p[|p| - 1];
      if init.None? || last.tag != TAG_DELIVER then init
      else
        var d := Materialize(lz4, DecodeDeliver(last.body).value);
        if d.None? then None else Some(init.value + [d.value])
  }

  function PayloadBytes(ds: seq<Delivery>): nat {
    if ds == [] then 0 else PayloadBytes(ds[..|ds| - 1]) + |ds[|ds| - 1].payload|
  }

  lemma PayloadBytesSnoc(ds: seq<Delivery>, d: Delivery)
    ensures PayloadBytes(ds + [d]) == PayloadBytes(ds) + |d.payload|
  {
    assert (ds + [d])[..|ds|] == ds;
  }

  /** A window is clean exactly when every delivery in it materializes and their payloads together stay
      within the cap; then its messages are those deliveries, in order, nothing lost. */
  lemma {:induction false} CleanWindow(lz4: Lz4, cap: nat, p: seq<Frame>)
    requires WindowBody(p)
    ensures var d, rs := Drained(lz4, cap, p), Records(lz4, p);
            && (d.poison.None? <==> rs.Some? && PayloadBytes(rs.value) <= cap)
            && (d.poison.None? ==> d.out.messages == rs.value && d.bytes == PayloadBytes(rs.value)
                                   && d.out.Count() == |p|)
            && (rs.Some? ==> d.out.messages <= rs.value)
  {
    if p != [] {
      var init, last := p[..|p| - 1], p[|p| - 1];
      CleanWindow(lz4, cap, init);
      if last.tag == TAG_DELIVER && Records(lz4, init).Some? {
        var d := Materialize(lz4, DecodeDeliver(last.body).value);
        if d.Some? {
          PayloadBytesSnoc(Records(lz4, init).value, d.value);
        }
      }
    }
  }

  /** The window's first trouble is frame `i`: everything before it is clean, and it is a delivery that cannot be
      materialized, or one whose payload takes the window over the cap. */
  ghost predicate FirstTrouble(lz4: Lz4, cap: nat, p: seq<Frame>, i: nat, e: Error)
    requires WindowBody(p)
  {
    && i < |p| && p[i].tag == TAG_DELIVER
    && Records(lz4, p[..i]).Some? && PayloadBytes(Records(lz4, p[..i]).value) <= cap
    && var d := Materialize(lz4, DecodeDeliver(p[i].body).value);
       if d.None? then e == BadRecord
       else e == AggregateCapExceeded && PayloadBytes(Records(lz4, p[..i]).value) + |d.value.payload| > cap
  }

  /** A poisoned window is poisoned with the error of its first trouble, whatever follows. */
  lemma {:induction false} PoisonIsFirstTrouble(lz4: Lz4, cap: nat, p: seq<Frame>)
    requires WindowBody(p) && Drained(lz4, cap, p).poison.Some?
    ensures exists i: nat :: FirstTrouble(lz4, cap, p, i, Drained(lz4, cap, p).poison.value)
  {
    hide Materialize, BodyOk, DecodeDeliver, PayloadBytes;
    var n := |p| - 1;
    var init, before := p[..n], Drained(lz4, cap, p[..n]);
    if before.poison.Some? {
      PoisonIsFirstTrouble(lz4, cap, init);
      var i: nat :| FirstTrouble(lz4, cap, init, i, before.poison.value);
      assert init[..i] == p[..i];
      assert FirstTrouble(lz4, cap, p, i, before.poison.value);
    } else {
      CleanWindow(lz4, cap, init);
      assert FirstTrouble(lz4, cap, p, n, Drained(lz4, cap, p).poison.value);
    }
  }

  /** Fetch bounds: a successful window holds one entry per streamed frame and at most `cap` payload bytes. */
  lemma WindowBounds(lz4: Lz4, cap: nat, w: seq<Frame>, limit: nat)
    requires w != [] && WindowBody(w[..|w| - 1]) && |w| - 1 <= limit
    requires Verdict(lz4, cap, w).Ok?
    ensures var out := Verdict(lz4, cap, w).value;
            out.Count() == |w| - 1 <= limit && PayloadBytes(out.messages) <= cap
  {
    CleanWindow(lz4, cap, w[..|w| - 1]);
  }

  /** The aggregate ceiling: the negotiated byte credit when it is larger than the floor and fits an int. */
  function FetchDecompressedCap(creditBytes: Option<U64>): (cap: nat)
    ensures MAX_FETCH_DECOMPRESSED <= cap <= MAX_INT
    ensures creditBytes.Some? && creditBytes.value <= MAX_INT ==> creditBytes.value <= cap
  {
    if creditBytes.Some? && creditBytes.value > MAX_FETCH_DECOMPRESSED && creditBytes.value <= MAX_INT
    then creditBytes.value else MAX_FETCH_DECOMPRESSED
  }
}
