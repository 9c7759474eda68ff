/** The open-loop load generator: a schedule fixed before the run, each message stamped with its intended send
    time, and latency measured from that stamp. Broker replies, clock readings and the random draws are arbitrary. */
module OpenLoop {
  import opened Common
  import opened Wire

  const U64_MAX := U64_LIMIT - 1
  const TOKEN_LEN := 16
  const HIST_LOW_NANOS := 1_000
  const HIST_HIGH_NANOS := 60_000_000_000

  function Capped(n: nat): nat {
    if n <= U64_MAX then n else U64_MAX
  }

  function SaturatingAdd(a: nat, b: nat): nat {
    Capped(a + b)
  }

  // ----- the token -----

  function Token(intended: nat, sequence: nat): (t: Bytes)
    ensures |t| == TOKEN_LEN
  {
    LittleEndian(intended, 8) + LittleEndian(sequence, 8)
  }

  /** Stamps the front of the payload in place; the body keeps its bytes. */
  method WriteToken(payload: array<Byte>, intended: nat, sequence: nat)
    requires payload.Length >= TOKEN_LEN
    modifies payload
    ensures payload[..] == Token(intended, sequence) + old(payload[TOKEN_LEN..])
  {
    hide LittleEndian, Pow256;
    ghost var body := payload[TOKEN_LEN..];
    var time, number := LittleEndian(intended, 8), LittleEndian(sequence, 8);
    for i := 0 to 8
      invariant payload[..i] == time[..i] && payload[TOKEN_LEN..] == body
    {
      payload[i] := time[i];
    }
    for i := 0 to 8
      invariant payload[..8] == time && payload[8..8 + i] == number[..i] && payload[TOKEN_LEN..] == body
    {
      payload[8 + i] := number[i];
    }
    assert payload[..] == payload[..8] + payload[8..16] + payload[TOKEN_LEN..];
  }

  /** The intended time a payload carries, if it is long enough to carry one. */
  function ReadTokenTime(payload: Bytes): Option<nat> {
    if |payload| < TOKEN_LEN then None else Some(FromLittleEndian(payload[..8]))
  }

  /** What the receiver reads back is the intended time the sender wrote, whatever the body. */
  lemma TokenRoundTrip(intended: nat, sequence: nat, body: Bytes)
    requires intended <= U64_MAX
    ensures ReadTokenTime(Token(intended, sequence) + body) == Some(intended)
  {
    Pow256Eight();
    LittleEndianRoundTrip(intended, 8);
    assert (Token(intended, sequence) + body)[..8] == LittleEndian(intended, 8);
  }

  // ----- the schedule -----

  /** When the k-th message is due: the start time plus the first k draws. No broker appears in it. */
  function Due(start: nat, draws: nat -> nat, k: nat): nat {
    if k == 0 then start else SaturatingAdd(Due(start, draws, k - 1), draws(k - 1))
  }

  lemma {:induction false} DueInRange(start: nat, draws: nat -> nat, k: nat)
    requires start <= U64_MAX
    ensures Due(start, draws, k) <= U64_MAX
  {
  }

  lemma {:induction false} DueMonotone(start: nat, draws: nat -> nat, i: nat, j: nat)
    requires start <= U64_MAX && i <= j
    ensures Due(start, draws, i) <= Due(start, draws, j)
  {
    if i < j {
      DueMonotone(start, draws, i, j - 1);
      DueInRange(start, draws, j - 1);
    }
  }

  // ----- the sender -----

  datatype Reply = Accepted | Shed | ConnectionEnded | Fatal {
    /** The replies that end the send loop. */
    predicate Ends() {
      ConnectionEnded? || Fatal?
    }
  }

  /** One send attempt: when it was due, its sequence number, when it went out, and the bytes that went out. */
  datatype Attempt = Attempt(intended: nat, sequence: nat, sentAt: nat, payload: Bytes)
  datatype SendOutcome = SendOutcome(sent: nat, payloadProduced: nat, failed: bool)

  /** The broker's k-th reply; past the end of the script the connection is gone. */
  function ReplyAt(broker: seq<Reply>, k: nat): Reply {
    if k < |broker| then broker[k] else ConnectionEnded
  }

  /** How many of the broker's first n replies accept a message. */
  function AcceptedIn(broker: seq<Reply>, n: nat): nat {
    if n == 0 then 0 else AcceptedIn(broker, n - 1) + if ReplyAt(broker, n - 1).Accepted? then 1 else 0
  }

  /** The k-th attempt carries the k-th due time and the number of messages accepted before it, and it goes out
      no earlier than it was due. */
  ghost predicate OnSchedule(a: seq<Attempt>, start: nat, draws: nat -> nat, broker: seq<Reply>) {
    forall k :: 0 <= k < |a| ==> AttemptIs(a[k], Due(start, draws, k), AcceptedIn(broker, k))
  }

  ghost predicate AttemptIs(a: Attempt, due: nat, sequence: nat) {
    && a.intended == due <= a.sentAt
    && a.sequence == sequence
    && Token(due, sequence) <= a.payload
    && ReadTokenTime(a.payload) == Some(due)
  }

  /** The attempts stop at n for a reason: the next message is due past the deadline, or the last reply ended
      the loop. Nothing before that reason. */
  ghost predicate StopsAt(n: nat, start: nat, draws: nat -> nat, deadline: nat, broker: seq<Reply>) {
    && (forall k :: 0 <= k < n ==> Due(start, draws, k) < deadline)
    && (forall k :: 0 <= k < n - 1 ==> !ReplyAt(broker, k).Ends())
    && (Due(start, draws, n) >= deadline || (n > 0 && ReplyAt(broker, n - 1).Ends()))
  }

  /** Stamps and sends one message; what goes out is determined by the due time and the sequence number. */
  method Emit(payload: array<Byte>, intended: nat, sequence: nat, clock: nat, lateness: nat) returns (a: Attempt)
    requires payload.Length >= TOKEN_LEN && intended <= U64_MAX
    modifies payload
    ensures AttemptIs(a, intended, sequence)
    ensures a.sentAt >= clock
  {
    hide LittleEndian, FromLittleEndian, Pow256;
    ghost var body := payload[TOKEN_LEN..];
    // The thread sleeps until the message is due; it may wake late, never early.
    var now := if intended > clock then intended else clock;
    WriteToken(payload, intended, sequence);
    TokenRoundTrip(intended, sequence, body);
    a := Attempt(intended, sequence, now + lateness, payload[..]);
  }

  lemma OnScheduleSnoc(a: seq<Attempt>, next: Attempt, start: nat, draws: nat -> nat, broker: seq<Reply>)
    requires OnSchedule(a, start, draws, broker)
    requires AttemptIs(next, Due(start, draws, |a|), AcceptedIn(broker, |a|))
    ensures OnSchedule(a + [next], start, draws, broker)
  {
    hide AttemptIs, Due, AcceptedIn;
  }

  lemma NextAttempt(start: nat, draws: nat -> nat, broker: seq<Reply>, k: nat)
    requires start <= U64_MAX
    ensures Due(start, draws, k + 1) == SaturatingAdd(Due(start, draws, k), draws(k)) <= U64_MAX
    ensures AcceptedIn(broker, k + 1) == AcceptedIn(broker, k) + if ReplyAt(broker, k).Accepted? then 1 else 0
    ensures k >= |broker| ==> ReplyAt(broker, k).ConnectionEnded?
  {
    DueInRange(start, draws, k + 1);
  }

  lemma CappedStep(n: nat, size: nat)
    ensures SaturatingAdd(Capped(n * size), size) == Capped((n + 1) * size)
  {
    assert (n + 1) * size == n * size + size;
  }

  lemma NothingSent(start: nat, draws: nat -> nat, broker: seq<Reply>, size: nat)
    ensures OnSchedule([], start, draws, broker) && Capped(0 * size) == 0
    ensures Due(start, draws, 0) == start && AcceptedIn(broker, 0) == 0
  {
  }

  /** The sender. A stall delays sends and a shed loses one, but neither moves the schedule; only the broker
      ending the connection or a fatal error cuts it short. */
  method SendLoop(payloadBytes: nat, start: nat, duration: nat, draws: nat -> nat, broker: seq<Reply>,
                  clock: nat -> nat, lateness: nat -> nat) returns (outcome: SendOutcome, attempts: seq<Attempt>)
    requires payloadBytes >= TOKEN_LEN && start <= U64_MAX
    ensures OnSchedule(attempts, start, draws, broker)
    ensures StopsAt(|attempts|, start, draws, SaturatingAdd(start, duration), broker)
    ensures outcome.sent == AcceptedIn(broker, |attempts|)
    ensures outcome.payloadProduced == Capped(outcome.sent * payloadBytes)
    ensures outcome.failed <==> attempts != [] && ReplyAt(broker, |attempts| - 1).Fatal?
  {
    hide AttemptIs, OnSchedule, Capped, ReplyAt, AcceptedIn, Due;
    var payload := new Byte[payloadBytes](_ => 0);
    var deadline := SaturatingAdd(start, duration);
    var intended := start;
    var k, sent, produced := 0, 0, 0;
    var failed, ended := false, false;
    attempts := [];
    NothingSent(start, draws, broker, payloadBytes);
    while intended < deadline && !ended
      invariant k == |attempts| && OnSchedule(attempts, start, draws, broker)
      invariant sent == AcceptedIn(broker, k) && produced == Capped(sent * payloadBytes)
      invariant !ended ==> k <= |broker| && intended == Due(start, draws, k) <= U64_MAX
      invariant forall j :: 0 <= j < k ==> Due(start, draws, j) < deadline
      invariant forall j :: 0 <= j < k - 1 ==> !ReplyAt(broker, j).Ends()
      invariant k > 0 ==> ended == ReplyAt(broker, k - 1).Ends() && failed == ReplyAt(broker, k - 1).Fatal?
      invariant k == 0 ==> !ended && !failed
      decreases |broker| - k, !ended
    {
      var a := Emit(payload, intended, sent, clock(k), lateness(k));
      OnScheduleSnoc(attempts, a, start, draws, broker);
      CappedStep(sent, payloadBytes);
      NextAttempt(start, draws, broker, k);
      attempts := attempts + [a];
      match ReplyAt(broker, k) {
        case Accepted =>
          produced, sent := SaturatingAdd(produced, payloadBytes), sent + 1;
        case Shed =>
        case ConnectionEnded =>
          ended := true;
        case Fatal =>
          ended, failed := true, true;
      }
      k := k + 1;
      if !ended {
        intended := SaturatingAdd(intended, draws(k - 1));
      }
    }
    outcome := SendOutcome(sent, produced, failed);
  }

  /** A run the broker did not cut short makes exactly the attempts due before the deadline. */
  lemma AttemptsAreExactlyTheDue(n: nat, start: nat, draws: nat -> nat, deadline: nat, broker: seq<Reply>, k: nat)
    requires start <= U64_MAX && StopsAt(n, start, draws, deadline, broker)
    requires n > 0 ==> !ReplyAt(broker, n - 1).Ends()
    ensures k < n <==> Due(start, draws, k) < deadline
  {
    if n <= k {
      DueMonotone(start, draws, n, k);
    }
  }

  /** Two runs with the same start, draws and deadline, against any two brokers and clocks: what they intend to
      send are prefixes of one schedule, and if neither was cut short they are the same. */
  lemma ScheduleIndependence(start: nat, draws: nat -> nat, deadline: nat, a: seq<Attempt>, brokerA: seq<Reply>,
                             b: seq<Attempt>, brokerB: seq<Reply>)
    requires start <= U64_MAX
    requires OnSchedule(a, start, draws, brokerA) && StopsAt(|a|, start, draws, deadline, brokerA)
    requires OnSchedule(b, start, draws, brokerB) && StopsAt(|b|, start, draws, deadline, brokerB)
    ensures forall k :: 0 <= k < |a| && k < |b| ==> a[k].intended == b[k].intended
    ensures |a| < |b| ==> a != [] && ReplyAt(brokerA, |a| - 1).Ends()
    ensures (a != [] ==> !ReplyAt(brokerA, |a| - 1).Ends()) && (b != [] ==> !ReplyAt(brokerB, |b| - 1).Ends())
            ==> |a| == |b|
  {
  }

  // ----- the receiver -----

  function Clamp(x: nat): (r: nat)
    ensures HIST_LOW_NANOS <= r <= HIST_HIGH_NANOS
  {
    if x < HIST_LOW_NANOS then HIST_LOW_NANOS else if x > HIST_HIGH_NANOS then HIST_HIGH_NANOS else x
  }

  datatype Ack = Acked | AckEnded | AckFatal

  /** A delivered message: the clock reading after its fetch, its payload, and how its acknowledgement goes. */
  datatype Arrival = Arrival(now: nat, payload: Bytes, ack: Ack)

  /** One fetch: its messages and what the receiver then sees of the sender, or the end of the connection. */
  datatype Fetch =
    | Batch(messages: seq<Arrival>, senderDone: bool, produced: nat)
    | FetchEnded
    | FetchFatal

  /** The latencies recorded for a run of arrivals: one for each that carries a token, in order. */
  function Histogram(arrivals: seq<Arrival>): seq<nat> {
    if arrivals == [] then []
    else
      var last := arrivals[|arrivals| - 1];
      Histogram(arrivals[..|arrivals| - 1]) +
      match ReadTokenTime(last.payload)
      case Some(intended) => [Clamp(SaturatingSub(last.now, intended))]
      case None => []
  }

  function Arrivals(fetches: seq<Fetch>): seq<Arrival> {
    if fetches == [] then []
    else
      var last := fetches[|fetches| - 1];
      Arrivals(fetches[..|fetches| - 1]) + if last.Batch? then last.messages else []
  }

  lemma ArrivalsSnoc(fetches: seq<Fetch>, i: nat)
    requires i < |fetches|
    ensures Arrivals(fetches[..i + 1])
         == Arrivals(fetches[..i]) + if fetches[i].Batch? then fetches[i].messages else []
  {
    assert fetches[..i + 1][..i] == fetches[..i];
  }

  lemma HistogramSnoc(before: seq<Arrival>, m: Arrival)
    ensures Histogram(before + [m]) == Histogram(before) +
            match ReadTokenTime(m.payload) case Some(t) => [Clamp(SaturatingSub(m.now, t))] case None => []
  {
    assert (before + [m])[..|before|] == before;
  }

  /** Coordinated omission does not happen: when the arrivals are messages of a sender's run, every one is in the
      histogram, at its latency from the scheduled time, which is at least its latency from the actual send. A
      stalled sender therefore cannot shorten what is recorded. */
  lemma {:induction false} HistogramIsHonest(attempts: seq<Attempt>, start: nat, draws: nat -> nat,
                                             broker: seq<Reply>, arrivals: seq<Arrival>, from: seq<nat>)
    requires OnSchedule(attempts, start, draws, broker)
    requires |from| == |arrivals|
    requires forall i :: 0 <= i < |from| ==>
               from[i] < |attempts| && arrivals[i].payload == attempts[from[i]].payload
    ensures |Histogram(arrivals)| == |arrivals|
    ensures forall i :: 0 <= i < |arrivals| ==>
              && Histogram(arrivals)[i] == Clamp(SaturatingSub(arrivals[i].now, Due(start, draws, from[i])))
              && Histogram(arrivals)[i] >= Clamp(SaturatingSub(arrivals[i].now, attempts[from[i]].sentAt))
  {
    hide Token, ReadTokenTime, Due, AcceptedIn;
    if arrivals != [] {
      var n := |arrivals| - 1;
      HistogramIsHonest(attempts, start, draws, broker, arrivals[..n], from[..n]);
      assert AttemptIs(attempts[from[n]], Due(start, draws, from[n]), AcceptedIn(broker, from[n]));
    }
  }

  datatype ReceiveOutcome = Drained(recorded: nat) | Ended(recorded: nat) | Failed

  /** Records and acknowledges one batch, up to the first acknowledgement that does not go through. */
  method Consume(batch: seq<Arrival>, histogram: seq<nat>, ghost before: seq<Arrival>)
      returns (after: seq<nat>, taken: nat)
    requires histogram == Histogram(before)
    ensures taken <= |batch| && after == Histogram(before + batch[..taken])
    ensures forall i :: 0 <= i < taken - 1 ==> batch[i].ack.Acked?
    ensures taken < |batch| ==> taken > 0 && !batch[taken - 1].ack.Acked?
  {
    hide ReadTokenTime, Histogram;
    after, taken := histogram, 0;
    assert before + batch[..0] == before;
    while taken < |batch|
      invariant taken <= |batch| && after == Histogram(before + batch[..taken])
      invariant forall i :: 0 <= i < taken ==> batch[i].ack.Acked?
    {
      var m := batch[taken];
      HistogramSnoc(before + batch[..taken], m);
      assert before + batch[..taken] + [m] == before + batch[..taken + 1];
      match ReadTokenTime(m.payload) {
        case Some(intended) => after := after + [Clamp(SaturatingSub(m.now, intended))];
        case None =>
      }
      taken := taken + 1;
      if !m.ack.Acked? {
        return;
      }
    }
  }

  /** The i-th fetch is empty, the sender is done, and everything it produced has been recorded by then. */
  ghost predicate Caught(fetches: seq<Fetch>, i: nat)
    requires i < |fetches|
  {
    && fetches[i].Batch? && fetches[i].messages == [] && fetches[i].senderDone
    && |Histogram(Arrivals(fetches[..i + 1]))| >= fetches[i].produced
  }

  /** The receiver goes on past the i-th fetch: it is a batch whose every acknowledgement goes through, and it does
      not find everything caught up. */
  ghost predicate GoesOn(fetches: seq<Fetch>, i: nat)
    requires i < |fetches|
  {
    && fetches[i].Batch? && !Caught(fetches, i)
    && forall k :: 0 <= k < |fetches[i].messages| ==> fetches[i].messages[k].ack.Acked?
  }

  /** The receiver over a script of fetches, after which the connection is gone. It goes on exactly as long as the
      connection lasts and it has not caught up: it stops at the first fetch or acknowledgement that ends or fails,
      or at the first empty fetch with the sender done and everything produced recorded. Everything fetched before
      the stop is in the histogram. */
  method ReceiveLoop(fetches: seq<Fetch>) returns (outcome: ReceiveOutcome, histogram: seq<nat>, used: nat, taken: nat)
    ensures used <= |fetches|
    ensures forall i :: 0 <= i < used - (if outcome.Drained? then 1 else 0) ==> GoesOn(fetches, i)
    ensures taken > 0 ==> used < |fetches| && fetches[used].Batch? && taken <= |fetches[used].messages|
    ensures taken > 0 ==> forall k :: 0 <= k < taken - 1 ==> fetches[used].messages[k].ack.Acked?
    ensures histogram == Histogram(Arrivals(fetches[..used])
                                   + if taken > 0 then fetches[used].messages[..taken] else [])
    ensures !outcome.Failed? ==> outcome.recorded == |histogram|
    ensures outcome.Drained? ==> taken == 0 && used > 0 && Caught(fetches, used - 1)
    ensures outcome.Ended? ==> || (taken > 0 && fetches[used].messages[taken - 1].ack.AckEnded?)
                               || (taken == 0 && (used == |fetches| || fetches[used].FetchEnded?))
    ensures outcome.Failed? ==> || (taken > 0 && fetches[used].messages[taken - 1].ack.AckFatal?)
                                || (taken == 0 && used < |fetches| && fetches[used].FetchFatal?)
  {
    hide Histogram, Arrivals;
    histogram, used, taken := [], 0, 0;
    NothingRecorded(fetches);
    while used < |fetches|
      invariant used <= |fetches| && taken == 0
      invariant histogram == Histogram(Arrivals(fetches[..used]))
      invariant forall i :: 0 <= i < used ==> GoesOn(fetches, i)
    {
      ghost var before := Arrivals(fetches[..used]);
      assert before + [] == before;
      match fetches[used] {
        case FetchEnded =>
          return Ended(|histogram|), histogram, used, 0;
        case FetchFatal =>
          return Failed, histogram, used, 0;
        case Batch(messages, done, produced) =>
          ArrivalsSnoc(fetches, used);
          assert messages[..|messages|] == messages;
          histogram, taken := Consume(messages, histogram, before);
          if taken > 0 && !messages[taken - 1].ack.Acked? {
            outcome := if messages[taken - 1].ack.AckEnded? then Ended(|histogram|) else Failed;
            return;
          }
          used, taken := used + 1, 0;
          if messages == [] && done && |histogram| >= produced {
            assert Arrivals(fetches[..used]) + [] == Arrivals(fetches[..used]);
            return Drained(|histogram|), histogram, used, 0;
          }
      }
    }
    assert Arrivals(fetches[..used]) + [] == Arrivals(fetches[..used]);
    outcome := Ended(|histogram|);
  }

  lemma NothingRecorded(fetches: seq<Fetch>)
    ensures Histogram(Arrivals(fetches[..0])) == []
  {
  }
}
