/** The multi-connection publish driver of the load generator: splitting a count over a fleet of legs, running
    each leg, and merging what they measured. The broker's replies and the clock are arbitrary. */
module Fleet {
  import opened Common
  import opened Percentiles

  const STRIDE := 0x100_0000_0000      // 2^40, the sequence space of one leg
  const MAX_LEGS := 0x100_0000         // 2^24, how many strides fit a u64

  /** The broker's answer to one client call, with the time the call took. A capacity shed is tolerated. */
  datatype Reply = Accepted(nanos: nat) | Shed(nanos: nat) | Refused
  /** What buffering one publish in the auto-pipelining handle did. */
  datatype Push = Buffered | Flushed(nanos: nat) | FlushShed(nanos: nat) | PushRefused

  datatype Leg = Leg(produced: nat, samples: seq<nat>, started: nat, finished: nat)

  /** `n` consecutive sequence numbers from `base`, as 64-bit values. */
  function Stamps(base: nat, n: nat): (s: seq<nat>)
    ensures |s| == n
  {
    seq(n, k => (base + k) % U64_LIMIT)
  }

  lemma StampsAppend(base: nat, a: nat, b: nat)
    ensures Stamps(base, a) + Stamps(base + a, b) == Stamps(base, a + b)
    ensures |Stamps(base, a)| == a && |Stamps(base + a, b)| == b && Stamps(base, 0) == []
  {
  }

  lemma StampsNext(base: nat, n: nat)
    ensures Stamps(base, n) + [(base + n) % U64_LIMIT] == Stamps(base, n + 1)
    ensures |Stamps(base, n)| == n && |Stamps(base, n + 1)| == n + 1 && Stamps(base, 0) == []
  {
  }

  function Repeat(x: nat, n: nat): (s: seq<nat>)
    ensures |s| == n
  {
    seq(n, _ => x)
  }

  function Min(a: nat, b: nat): nat {
    if a < b then a else b
  }

  /** The first of the first n calls that is refused, or n. */
  function FirstRefused(broker: nat -> Reply, n: nat): (k: nat)
    ensures k <= n && (forall i :: 0 <= i < k ==> !broker(i).Refused?) && (k < n ==> broker(k).Refused?)
  {
    if n == 0 then 0
    else
      var k := FirstRefused(broker, n - 1);
      if k < n - 1 || broker(n - 1).Refused? then k else n
  }

  lemma FirstRefusedIs(broker: nat -> Reply, n: nat, k: nat)
    requires k < n && broker(k).Refused? && forall i :: 0 <= i < k ==> !broker(i).Refused?
    ensures FirstRefused(broker, n) == k
  {
  }

  /** The first of the first n pushes that is refused, or n. */
  function FirstPushRefused(pipe: nat -> Push, n: nat): (k: nat)
    ensures k <= n && (forall i :: 0 <= i < k ==> !pipe(i).PushRefused?) && (k < n ==> pipe(k).PushRefused?)
  {
    if n == 0 then 0
    else
      var k := FirstPushRefused(pipe, n - 1);
      if k < n - 1 || pipe(n - 1).PushRefused? then k else n
  }

  lemma FirstPushRefusedIs(pipe: nat -> Push, n: nat, k: nat)
    requires k < n && pipe(k).PushRefused? && forall i :: 0 <= i < k ==> !pipe(i).PushRefused?
    ensures FirstPushRefused(pipe, n) == k
  {
  }

  // ----- one leg -----

  /** The plain awaited loop: one produce per message, one sample per produce. */
  method PublishPlain(count: nat, base: nat, broker: nat -> Reply) returns (r: Result<(nat, seq<nat>), ()>, stamps: seq<nat>)
    ensures r.Ok? ==> r.value.0 == count && |r.value.1| == count && stamps == Stamps(base, count)
    ensures r.Ok? <==> forall i :: 0 <= i < count ==> !broker(i).Refused?
    ensures r.Ok? ==> forall i :: 0 <= i < count ==> r.value.1[i] == broker(i).nanos
    ensures r.Err? ==> stamps == Stamps(base, FirstRefused(broker, count) + 1)
  {
    var produced := 0;
    var samples: seq<nat> := [];
    stamps := [];
    while produced < count
      invariant 0 <= produced <= count && |samples| == produced && stamps == Stamps(base, produced)
      invariant forall i :: 0 <= i < produced ==> !broker(i).Refused? && samples[i] == broker(i).nanos
    {
      stamps := stamps + [(base + produced) % U64_LIMIT];
      var reply := broker(produced);
      if reply.Refused? {
        FirstRefusedIs(broker, count, produced);
        return Err(()), stamps;
      }
      samples := samples + [reply.nanos];
      produced := produced + 1;
    }
    r := Ok((produced, samples));
  }

  /** One window's time in equal whole shares, one per publish it covered. */
  function Shares(nanos: nat, covered: nat): (s: seq<nat>)
    ensures |s| == covered
  {
    if covered == 0 then [] else Repeat(nanos / covered, covered)
  }

  lemma SharesLength(nanos: nat, covered: nat)
    ensures |Shares(nanos, covered)| == covered
  {
  }

  /** The samples of `count` messages sent `window` at a time from call `call` on: each call's time in equal
      whole shares, one per message. */
  ghost function WindowSamples(count: nat, window: nat, broker: nat -> Reply, call: nat): seq<nat>
    decreases count
  {
    if count == 0 || window == 0 || broker(call).Refused? then []
    else
      var want := Min(count, window);
      Shares(broker(call).nanos, want) + WindowSamples(count - want, window, broker, call + 1)
  }

  /** How many calls it takes to send `count` messages `window` at a time. */
  function WindowCalls(count: nat, window: nat): nat
    decreases count
  {
    if count == 0 || window == 0 then 0 else 1 + WindowCalls(count - Min(count, window), window)
  }

  /** How many messages the first `calls` calls carry. */
  function CallsCover(count: nat, window: nat, calls: nat): (n: nat)
    ensures n <= count
  {
    if calls == 0 then 0
    else
      var before := CallsCover(count, window, calls - 1);
      before + Min(count - before, window)
  }

  lemma CallStep(count: nat, window: nat, produced: nat, call: nat)
    requires produced <= count
    ensures CallsCover(count, window, 0) == 0 && CallsCover(count, window, call) <= count
    ensures CallsCover(count, window, call + 1)
         == CallsCover(count, window, call) + Min(count - CallsCover(count, window, call), window)
    ensures var left := count - produced;
            WindowCalls(left, window) == if left == 0 || window == 0 then 0 else 1 + WindowCalls(left - Min(left, window), window)
  {
  }

  lemma {:induction false} CallsCoverIs(count: nat, window: nat, calls: nat)
    ensures CallsCover(count, window, calls) == Min(count, calls * window)
  {
    if calls > 0 {
      CallsCoverIs(count, window, calls - 1);
      OneMore(calls - 1, window);
    }
  }

  lemma {:induction false} WindowCallsRoundUp(count: nat, window: nat)
    requires window > 0
    ensures var calls := WindowCalls(count, window);
            if count == 0 then calls == 0 else (calls - 1) * window < count <= calls * window
    decreases count
  {
    if count > 0 {
      WindowCallsRoundUp(count - Min(count, window), window);
      OneMore(WindowCalls(count - Min(count, window), window), window);
    }
  }

  lemma WindowStep(count: nat, window: nat, broker: nat -> Reply, call: nat, samples: seq<nat>)
    ensures count == 0 || window == 0 ==> samples + WindowSamples(count, window, broker, call) == samples
    ensures count > 0 && window > 0 && !broker(call).Refused? ==>
              var want := Min(count, window);
              var shares := Shares(broker(call).nanos, want);
              && |shares| == want
              && samples + WindowSamples(count, window, broker, call)
                 == samples + shares + WindowSamples(count - want, window, broker, call + 1)
  {
    hide Shares;
    if count > 0 && window > 0 && !broker(call).Refused? {
      var want := Min(count, window);
      SharesLength(broker(call).nanos, want);
      AppendAssoc(samples, Shares(broker(call).nanos, want), WindowSamples(count - want, window, broker, call + 1));
    } else {
      assert samples + [] == samples;
    }
  }

  /** The pipelined-window loop: up to `window` publishes per call, the call's time shared evenly among them. */
  method PublishWindowed(count: nat, window: nat, base: nat, broker: nat -> Reply)
    returns (r: Result<(nat, seq<nat>), ()>, stamps: seq<nat>)
    ensures r.Ok? && window > 0 ==> r.value.0 == count
    ensures r.Ok? ==> |r.value.1| == r.value.0 <= count && stamps == Stamps(base, r.value.0)
    ensures r.Ok? ==> r.value.1 == WindowSamples(count, window, broker, 0)
    ensures r.Ok? <==> forall c :: 0 <= c < WindowCalls(count, window) ==> !broker(c).Refused?
    ensures r.Err? ==>
              stamps == Stamps(base, CallsCover(count, window, FirstRefused(broker, WindowCalls(count, window)) + 1))
  {
    hide Stamps, WindowSamples, Shares, FirstRefused, WindowCalls, CallsCover;
    CallStep(count, window, 0, 0);
    var produced := 0;
    var samples: seq<nat> := [];
    var call := 0;
    StampsAppend(base, 0, 0);
    stamps := [];
    ghost var all := WindowSamples(count, window, broker, 0);
    assert [] + all == all;
    while produced < count
      invariant 0 <= produced <= count && |samples| == produced && stamps == Stamps(base, produced)
      invariant call + WindowCalls(count - produced, window) == WindowCalls(count, window)
      invariant forall c :: 0 <= c < call ==> !broker(c).Refused?
      invariant produced == CallsCover(count, window, call)
      invariant samples + WindowSamples(count - produced, window, broker, call) == all
    {
      WindowStep(count - produced, window, broker, call, samples);
      CallStep(count, window, produced, call);
      var want := Min(count - produced, window);
      if want == 0 {
        break;
      }
      StampsAppend(base, produced, want);
      stamps := stamps + Stamps(base + produced, want);
      var reply := broker(call);
      if reply.Refused? {
        FirstRefusedIs(broker, WindowCalls(count, window), call);
      }
      call := call + 1;
      if reply.Refused? {
        return Err(()), stamps;
      }
      samples := samples + Shares(reply.nanos, want);
      produced := produced + want;
    }
    WindowStep(count - produced, window, broker, call, samples);
    CallStep(count, window, produced, call);
    r := Ok((produced, samples));
  }

  /** One flushed window's time, shared evenly among the publishes it covered. */
  method AttributeWindow(samples: seq<nat>, nanos: nat, covered: nat) returns (samples': seq<nat>)
    ensures samples' == samples + Shares(nanos, covered)
  {
    if covered == 0 {
      return samples;
    }
    var share := nanos / covered;
    samples' := samples;
    for i := 0 to covered
      invariant samples' == samples + Repeat(share, i)
    {
      samples' := samples' + [share];
    }
  }

  /** The samples recorded and the publishes still buffered after `n` pushes. */
  ghost function PipeSamples(pipe: nat -> Push, n: nat): (r: (seq<nat>, nat))
    ensures |r.0| + r.1 == n
  {
    if n == 0 then ([], 0)
    else
      var (samples, pending) := PipeSamples(pipe, n - 1);
      match pipe(n - 1)
      case Flushed(nanos) => (samples + Shares(nanos, pending + 1), 0)
      case FlushShed(nanos) => (samples + Shares(nanos, pending + 1), 0)
      case _ => (samples, pending + 1)
  }

  /** The auto-pipelining loop: publishes are buffered and timed when their window flushes. */
  method PublishAutoPipe(count: nat, base: nat, pipe: nat -> Push, finish: Reply)
    returns (r: Result<(nat, seq<nat>), ()>, stamps: seq<nat>)
    ensures r.Ok? ==> r.value.0 == count && |r.value.1| == count && stamps == Stamps(base, count)
    ensures r.Ok? <==> !finish.Refused? && forall i :: 0 <= i < count ==> !pipe(i).PushRefused?
    ensures r.Ok? ==> var (samples, pending) := PipeSamples(pipe, count);
                      r.value.1 == samples + Shares(finish.nanos, pending)
    ensures r.Err? ==> var k := FirstPushRefused(pipe, count);
                       stamps == Stamps(base, if k < count then k + 1 else count)
  {
    hide Stamps, Shares, FirstPushRefused;
    StampsNext(base, 0);
    var produced := 0;
    var pending := 0;
    var samples: seq<nat> := [];
    stamps := [];
    while produced < count
      invariant 0 <= produced <= count && stamps == Stamps(base, produced)
      invariant (samples, pending) == PipeSamples(pipe, produced)
      invariant forall i :: 0 <= i < produced ==> !pipe(i).PushRefused?
    {
      StampsNext(base, produced);
      stamps := stamps + [(base + produced) % U64_LIMIT];
      pending := pending + 1;
      match pipe(produced) {
        case Buffered =>
        case Flushed(nanos) =>
          samples := AttributeWindow(samples, nanos, pending);
          pending := 0;
        case FlushShed(nanos) =>
          samples := AttributeWindow(samples, nanos, pending);
          pending := 0;
        case PushRefused =>
          FirstPushRefusedIs(pipe, count, produced);
          return Err(()), stamps;
      }
      produced := produced + 1;
    }
    if finish.Refused? {
      return Err(()), stamps;
    }
    SharesLength(finish.nanos, pending);
    samples := AttributeWindow(samples, finish.nanos, pending);
    r := Ok((produced, samples));
  }

  // ----- no time is invented or lost -----

  function Sum(s: seq<nat>): nat {
    if s == [] then 0 else Sum(s[..|s| - 1]) + s[|s| - 1]
  }

  lemma {:induction false} SumAppend(a: seq<nat>, b: seq<nat>)
    ensures Sum(a + b) == Sum(a) + Sum(b)
  {
    if b == [] {
      assert a + b == a;
    } else {
      SumAppend(a, b[..|b| - 1]);
      assert (a + b)[..|a + b| - 1] == a + b[..|b| - 1];
    }
  }

  lemma {:induction false} SumRepeat(x: nat, n: nat)
    ensures Sum(Repeat(x, n)) == n * x
  {
    if n > 0 {
      SumRepeat(x, n - 1);
      assert Repeat(x, n)[..n - 1] == Repeat(x, n - 1);
      OneMore(n - 1, x);
    }
  }

  /** The shares of a window add up to its time, less than one unit per publish lost to rounding. */
  lemma SharesAddUp(nanos: nat, covered: nat)
    requires covered > 0
    ensures Sum(Shares(nanos, covered)) <= nanos < Sum(Shares(nanos, covered)) + covered
    ensures |Shares(nanos, covered)| == covered
  {
    SumRepeat(nanos / covered, covered);
    Euclid(nanos, covered);
  }

  /** The time of all calls that carried a window. */
  ghost function WindowTime(count: nat, window: nat, broker: nat -> Reply, call: nat): nat
    decreases count
  {
    if count == 0 || window == 0 || broker(call).Refused? then 0
    else broker(call).nanos + WindowTime(count - Min(count, window), window, broker, call + 1)
  }

  /** The windowed samples add up to the time of the calls, to within one unit per message. */
  lemma {:induction false} WindowTimeConserved(count: nat, window: nat, broker: nat -> Reply, call: nat)
    ensures var s := WindowSamples(count, window, broker, call);
            Sum(s) <= WindowTime(count, window, broker, call) <= Sum(s) + |s|
    decreases count
  {
    hide Sum, Shares;
    assert Sum([]) == 0 by { SumRepeat(0, 0); }
    if count > 0 && window > 0 && !broker(call).Refused? {
      var want := Min(count, window);
      WindowTimeConserved(count - want, window, broker, call + 1);
      SharesAddUp(broker(call).nanos, want);
      SumAppend(Shares(broker(call).nanos, want), WindowSamples(count - want, window, broker, call + 1));
    }
  }

  /** The time of all flushes among the first `n` pushes. */
  ghost function FlushTime(pipe: nat -> Push, n: nat): nat {
    if n == 0 then 0
    else FlushTime(pipe, n - 1) + match pipe(n - 1) case Flushed(t) => t case FlushShed(t) => t case _ => 0
  }

  /** The auto-pipelined samples add up to the time of the flushes, to within one unit per message. */
  lemma {:induction false} FlushTimeConserved(pipe: nat -> Push, n: nat)
    ensures var s := PipeSamples(pipe, n).0;
            Sum(s) <= FlushTime(pipe, n) <= Sum(s) + |s|
  {
    hide Sum, Shares;
    if n == 0 {
      assert Sum([]) == 0 by { SumRepeat(0, 0); }
    } else {
      FlushTimeConserved(pipe, n - 1);
      var (samples, pending) := PipeSamples(pipe, n - 1);
      match pipe(n - 1) {
        case Flushed(t) => SharesAddUp(t, pending + 1); SumAppend(samples, Shares(t, pending + 1));
        case FlushShed(t) => SharesAddUp(t, pending + 1); SumAppend(samples, Shares(t, pending + 1));
        case _ =>
      }
    }
  }

  /** With the final flush: all samples of a leg add up to all the time it measured, to within one unit per
      message. A final flush with nothing buffered is not measured. */
  lemma AutoPipeTimeConserved(pipe: nat -> Push, count: nat, finish: nat)
    ensures var (samples, pending) := PipeSamples(pipe, count);
            var all := samples + Shares(finish, pending);
            var time := FlushTime(pipe, count) + if pending > 0 then finish else 0;
            |all| == count && Sum(all) <= time <= Sum(all) + count
  {
    hide Sum, Shares;
    var (samples, pending) := PipeSamples(pipe, count);
    FlushTimeConserved(pipe, count);
    SumAppend(samples, Shares(finish, pending));
    SharesLength(finish, pending);
    if pending > 0 {
      SharesAddUp(finish, pending);
    } else {
      assert Sum(Shares(finish, 0)) == 0 by { SumRepeat(0, 0); }
    }
  }

  // ----- the fleet -----

  /** A leg's share: an even split, the remainder on the first leg. */
  function Share(total: nat, producers: nat, i: nat): nat
    requires producers > 0
  {
    total / producers + if i == 0 then total % producers else 0
  }

  /** `n` equal shares, the remainder on the first. */
  function EvenShares(per: nat, rem: nat, n: nat): (shares: seq<nat>)
    ensures |shares| == n
  {
    seq(n, i => per + if i == 0 then rem else 0)
  }

  function SplitCount(total: nat, producers: nat): (shares: seq<nat>)
    ensures |shares| == if producers == 0 then 1 else producers
  {
    var n := if producers == 0 then 1 else producers;
    EvenShares(total / n, total % n, n)
  }

  lemma {:induction false} SumOfShares(per: nat, rem: nat, n: nat)
    requires n > 0
    ensures Sum(EvenShares(per, rem, n)) == n * per + rem
  {
    assert EvenShares(per, rem, n)[..n - 1] == EvenShares(per, rem, n - 1);
    if n > 1 {
      SumOfShares(per, rem, n - 1);
      OneMore(n - 1, per);
    }
  }

  lemma OneMore(k: nat, per: nat)
    ensures k * per + per == (k + 1) * per
  {
  }

  lemma Euclid(total: nat, n: nat)
    requires n > 0
    ensures n * (total / n) + total % n == total && total / n + total % n <= total
  {
    var per := total / n;
    assert n * per >= per by { OneMore(n - 1, per); }
  }

  /** The shares always add up to the requested count, and differ from an even split only on the first leg. */
  lemma SharesConserve(total: nat, producers: nat)
    requires producers > 0
    ensures Sum(SplitCount(total, producers)) == total
    ensures forall i :: 0 <= i < producers ==> SplitCount(total, producers)[i] == Share(total, producers, i)
  {
    hide Sum;
    SumOfShares(total / producers, total % producers, producers);
    Euclid(total, producers);
  }

  /** The first sequence number of leg `i`: `i << 40` in 64 bits. */
  function LegBase(i: nat): nat {
    i * STRIDE % U64_LIMIT
  }

  function Stamp(i: nat, k: nat): nat {
    (LegBase(i) + k) % U64_LIMIT
  }

  /** No two messages of the fleet carry the same sequence number. */
  ghost predicate NoCollision(total: nat, producers: nat)
    requires producers > 0
  {
    forall i: nat, j: nat, k: nat, l: nat ::
      (i < producers && j < producers && k < Share(total, producers, i) && l < Share(total, producers, j)
       && Stamp(i, k) == Stamp(j, l)) ==> (i == j && k == l)
  }

  /** A caller can tell: one leg does all the work, or the legs fit the number space and no share its stride. */
  predicate FleetFits(total: nat, producers: nat)
    requires producers > 0
  {
    || total / producers == 0
    || producers == 1
    || (producers <= MAX_LEGS && Share(total, producers, 0) <= STRIDE)
  }

  lemma StampInRange(i: nat, k: nat)
    requires i < MAX_LEGS && k < STRIDE
    ensures Stamp(i, k) == i * STRIDE + k
  {
    assert MAX_LEGS * STRIDE == U64_LIMIT;
    assert i * STRIDE + k < (i + 1) * STRIDE <= U64_LIMIT;
  }

  lemma StampInjective(i: nat, j: nat, k: nat, l: nat)
    requires k < STRIDE && l < STRIDE && i * STRIDE + k == j * STRIDE + l
    ensures i == j && k == l
  {
    assert (i - j) * STRIDE == l - k;
  }

  /** Fleet stamps are pairwise distinct exactly when the fleet fits. */
  lemma DistinctIffFits(total: U64, producers: nat)
    requires producers > 0
    ensures NoCollision(total, producers) <==> FleetFits(total, producers)
  {
    if FleetFits(total, producers) {
      forall i: nat, j: nat, k: nat, l: nat |
        i < producers && j < producers && k < Share(total, producers, i) && l < Share(total, producers, j)
        && Stamp(i, k) == Stamp(j, l)
        ensures i == j && k == l
      {
        NoTwoAlike(total, producers, i, j, k, l);
      }
    } else {
      TwoAlike(total, producers);
    }
  }

  lemma ShareBound(total: nat, producers: nat, i: nat)
    requires producers > 0
    ensures Share(total, producers, i) <= Share(total, producers, 0) <= total
    ensures total / producers == 0 && i > 0 ==> Share(total, producers, i) == 0
  {
    Euclid(total, producers);
  }

  lemma NoTwoAlike(total: U64, producers: nat, i: nat, j: nat, k: nat, l: nat)
    requires producers > 0 && FleetFits(total, producers) && i < producers && j < producers
    requires k < Share(total, producers, i) && l < Share(total, producers, j) && Stamp(i, k) == Stamp(j, l)
    ensures i == j && k == l
  {
    hide Stamp;
    ShareBound(total, producers, i);
    ShareBound(total, producers, j);
    if total / producers == 0 || producers == 1 {
      StampOfFirst(k);
      StampOfFirst(l);
    } else {
      StampInRange(i, k);
      StampInRange(j, l);
      StampInjective(i, j, k, l);
    }
  }

  lemma StampOfFirst(k: nat)
    requires k < U64_LIMIT
    ensures Stamp(0, k) == k
  {
  }

  lemma TwoAlike(total: U64, producers: nat)
    requires producers > 0 && !FleetFits(total, producers)
    ensures !NoCollision(total, producers)
  {
    assert total / producers > 0;
    if producers > MAX_LEGS {
      assert LegBase(MAX_LEGS) == 0 && Stamp(0, 0) == Stamp(MAX_LEGS, 0);
    } else {
      assert Stamp(0, STRIDE) == Stamp(1, 0);
    }
  }

  datatype Shape = Plain | Windowed(window: nat) | AutoPipe

  /** What a leg's connection answers, per call. */
  datatype Peer = Peer(broker: nat -> Reply, pipe: nat -> Push, finish: Reply)

  /** The peer refuses none of the calls a leg makes for its share. */
  ghost predicate Takes(peer: Peer, shape: Shape, share: nat) {
    match shape
    case Plain => forall i :: 0 <= i < share ==> !peer.broker(i).Refused?
    case Windowed(window) => forall c :: 0 <= c < WindowCalls(share, window) ==> !peer.broker(c).Refused?
    case AutoPipe => !peer.finish.Refused? && forall i :: 0 <= i < share ==> !peer.pipe(i).PushRefused?
  }

  /** How many sends a leg attempts: its share, or up to and including the call that is refused. */
  ghost function Attempted(peer: Peer, shape: Shape, share: nat): (n: nat)
    ensures n <= share
  {
    match shape
    case Plain =>
      var k := FirstRefused(peer.broker, share);
      if k < share then k + 1 else share
    case Windowed(window) =>
      var calls := WindowCalls(share, window);
      var k := FirstRefused(peer.broker, calls);
      if k < calls then CallsCover(share, window, k + 1) else share
    case AutoPipe =>
      var k := FirstPushRefused(peer.pipe, share);
      if k < share then k + 1 else share
  }

  /** Runs one leg in the configured shape. */
  method RunLeg(shape: Shape, share: nat, base: nat, peer: Peer) returns (r: Result<(nat, seq<nat>), ()>, stamps: seq<nat>)
    requires shape.Windowed? ==> shape.window > 1
    ensures r.Ok? <==> Takes(peer, shape, share)
    ensures r.Ok? ==> r.value.0 == share == |r.value.1|
    ensures stamps == Stamps(base, Attempted(peer, shape, share)) && (r.Ok? ==> Attempted(peer, shape, share) == share)
  {
    match shape
    case Plain => r, stamps := PublishPlain(share, base, peer.broker);
    case Windowed(window) => r, stamps := PublishWindowed(share, window, base, peer.broker);
    case AutoPipe => r, stamps := PublishAutoPipe(share, base, peer.pipe, peer.finish);
  }

  /** Runs the whole fleet. Every leg is run, and the run fails, once all have finished, exactly when some leg was
      refused. On success the fleet attempted exactly `count` sends: leg i the sequence numbers from its own base. */
  method RunFleet(shape: Shape, count: U64, producers: nat, peers: nat -> Peer)
    returns (r: Result<seq<(nat, seq<nat>)>, ()>, stamps: seq<seq<nat>>)
    requires producers > 0 && (shape.Windowed? ==> shape.window > 1)
    ensures |stamps| == producers
    ensures r.Ok? <==> forall i :: 0 <= i < producers ==> Takes(peers(i), shape, Share(count, producers, i))
    ensures forall i :: 0 <= i < producers ==>
              stamps[i] == Stamps(LegBase(i), Attempted(peers(i), shape, Share(count, producers, i)))
    ensures r.Ok? ==> |r.value| == producers && Sum(Counts(r.value)) == count
    ensures r.Ok? ==> forall i :: 0 <= i < producers ==>
                        && r.value[i].0 == |r.value[i].1| == |stamps[i]| == Share(count, producers, i)
                        && forall k :: 0 <= k < |stamps[i]| ==> stamps[i][k] == Stamp(i, k)
  {
    hide SplitCount, Share, Sum, Takes, Attempted;
    SharesConserve(count, producers);
    var shares := SplitCount(count, producers);
    var legs: seq<(nat, seq<nat>)> := [];
    var failed := false;
    stamps := [];
    for i := 0 to producers
      invariant |stamps| == i && (!failed ==> |legs| == i)
      invariant !failed <==> forall j :: 0 <= j < i ==> Takes(peers(j), shape, Share(count, producers, j))
      invariant forall j :: 0 <= j < i ==>
                  stamps[j] == Stamps(LegBase(j), Attempted(peers(j), shape, Share(count, producers, j)))
      invariant !failed ==> forall j :: 0 <= j < i ==>
                              && legs[j].0 == |legs[j].1| == |stamps[j]| == Share(count, producers, j)
                              && stamps[j] == Stamps(LegBase(j), Share(count, producers, j))
    {
      var leg, sent := RunLeg(shape, shares[i], LegBase(i), peers(i));
      stamps := stamps + [sent];
      if leg.Ok? {
        legs := legs + [leg.value];
      } else {
        failed := true;
      }
    }
    if failed {
      return Err(()), stamps;
    }
    assert Counts(legs) == shares;
    r := Ok(legs);
  }

  function Counts(legs: seq<(nat, seq<nat>)>): (s: seq<nat>)
    ensures |s| == |legs|
  {
    seq(|legs|, i requires 0 <= i < |legs| => legs[i].0)
  }

  // ----- aggregation -----

  function SampleSets(legs: seq<Leg>): (sets: seq<seq<nat>>)
    ensures |sets| == |legs|
  {
    seq(|legs|, i requires 0 <= i < |legs| => legs[i].samples)
  }

  lemma {:induction false} MergeSnoc(sets: seq<seq<nat>>, last: seq<nat>)
    ensures Merge(sets + [last]) == Merge(sets) + last
  {
    if sets == [] {
      assert ([] + [last])[1..] == [];
    } else {
      MergeSnoc(sets[1..], last);
      assert (sets + [last])[1..] == sets[1..] + [last];
    }
  }

  lemma MergeLegs(legs: seq<Leg>, i: nat)
    requires i < |legs|
    ensures Merge(SampleSets(legs[..i + 1])) == Merge(SampleSets(legs[..i])) + legs[i].samples
  {
    assert SampleSets(legs[..i + 1]) == SampleSets(legs[..i]) + [legs[i].samples];
    MergeSnoc(SampleSets(legs[..i]), legs[i].samples);
  }

  function TotalProduced(legs: seq<Leg>): nat {
    if legs == [] then 0 else TotalProduced(legs[..|legs| - 1]) + legs[|legs| - 1].produced
  }

  /** Merges the legs: total produced, concatenated samples, and the wall time from the first start to the last
      finish, so that no leg outlasts the phase. */
  method AggregateLegs(legs: seq<Leg>) returns (produced: nat, samples: seq<nat>, wall: nat)
    requires forall i :: 0 <= i < |legs| ==> legs[i].started <= legs[i].finished
    ensures produced == TotalProduced(legs) && samples == Merge(SampleSets(legs))
    ensures legs == [] ==> wall == 0
    ensures forall i, j :: 0 <= i < |legs| && 0 <= j < |legs| ==> legs[j].finished - legs[i].started <= wall
    ensures legs != [] ==> exists i, j :: 0 <= i < |legs| && 0 <= j < |legs| && wall == legs[j].finished - legs[i].started
  {
    hide Merge, SampleSets;
    produced, samples, wall := 0, [], 0;
    NothingMerged();
    assert legs[..0] == [];
    var first, last := 0, 0;
    for i := 0 to |legs|
      invariant produced == TotalProduced(legs[..i]) && samples == Merge(SampleSets(legs[..i]))
      invariant i > 0 ==> 0 <= first < i && 0 <= last < i
      invariant forall j :: 0 <= j < i ==> legs[first].started <= legs[j].started && legs[j].finished <= legs[last].finished
    {
      assert legs[..i + 1][..i] == legs[..i];
      MergeLegs(legs, i);
      produced := produced + legs[i].produced;
      samples := samples + legs[i].samples;
      if i == 0 || legs[i].started < legs[first].started {
        first := i;
      }
      if i == 0 || legs[i].finished > legs[last].finished {
        last := i;
      }
    }
    assert legs[..|legs|] == legs;
    if legs != [] {
      wall := legs[last].finished - legs[first].started;
    }
  }

  lemma NothingMerged()
    ensures Merge(SampleSets([])) == []
  {
  }

  /** The merged sample set is as long as the produced count when every leg's is. */
  lemma {:induction false} SamplesMatchProduced(legs: seq<Leg>)
    requires forall i :: 0 <= i < |legs| ==> |legs[i].samples| == legs[i].produced
    ensures |Merge(SampleSets(legs))| == TotalProduced(legs)
  {
    hide Merge, SampleSets;
    if legs == [] {
      NothingMerged();
    } else {
      var n := |legs| - 1;
      SamplesMatchProduced(legs[..n]);
      MergeLegs(legs, n);
      assert legs[..n + 1] == legs;
    }
  }

  /** Merged percentile law for what the fleet reports: every percentile of the aggregated samples lies between
      the smallest and the largest percentile of the legs that produced any. */
  lemma AggregatedQuantile(p: real, legs: seq<Leg>)
    requires 0.0 < p <= 1.0 && Merge(SampleSets(legs)) != []
    ensures exists i :: 0 <= i < |legs| && legs[i].samples != []
                        && Quantile(p, legs[i].samples) <= Quantile(p, Merge(SampleSets(legs)))
    ensures exists i :: 0 <= i < |legs| && legs[i].samples != []
                        && Quantile(p, Merge(SampleSets(legs))) <= Quantile(p, legs[i].samples)
  {
    hide Merge, Quantile;
    var sets := SampleSets(legs);
    MergedQuantile(p, sets);
    var i :| 0 <= i < |sets| && sets[i] != [] && Quantile(p, sets[i]) <= Quantile(p, Merge(sets));
    var j :| 0 <= j < |sets| && sets[j] != [] && Quantile(p, Merge(sets)) <= Quantile(p, sets[j]);
    assert sets[i] == legs[i].samples && sets[j] == legs[j].samples;
  }

  // ----- the reported run -----

  /** Each leg's result with the times it started and finished. */
  function Legs(results: seq<(nat, seq<nat>)>, started: nat -> nat, took: nat -> nat): (legs: seq<Leg>)
    ensures |legs| == |results|
  {
    seq(|results|, i requires 0 <= i < |results| => Leg(results[i].0, results[i].1, started(i), started(i) + took(i)))
  }

  /** A count-bounded run of a whole fleet, as reported. It succeeds exactly when no leg is refused. Then it reports
      exactly `count` messages and as many samples, those of its legs merged; the messages carry `count` sequence
      numbers, no two alike exactly when the fleet fits; and every leg ran within the reported wall time. */
  method RunPublishMulti(shape: Shape, count: U64, producers: nat, peers: nat -> Peer, started: nat -> nat, took: nat -> nat)
    returns (r: Result<(nat, seq<nat>, nat), ()>, legs: seq<Leg>, stamps: seq<seq<nat>>)
    requires producers > 0 && (shape.Windowed? ==> shape.window > 1)
    ensures r.Ok? <==> forall i :: 0 <= i < producers ==> Takes(peers(i), shape, Share(count, producers, i))
    ensures r.Ok? ==> r.value.0 == |r.value.1| == count && |legs| == |stamps| == producers
    ensures r.Ok? ==> r.value.1 == Merge(SampleSets(legs))
    ensures r.Ok? ==> forall i :: 0 <= i < producers ==>
                        |stamps[i]| == legs[i].produced == |legs[i].samples| == Share(count, producers, i)
    ensures r.Ok? ==> (AllDistinct(stamps) <==> FleetFits(count, producers))
    ensures r.Ok? ==> forall i :: 0 <= i < producers ==> legs[i].finished - legs[i].started == took(i) <= r.value.2
  {
    hide Takes, FleetFits, NoCollision, Stamp, Share, Merge, SampleSets, Sum;
    var results;
    results, stamps := RunFleet(shape, count, producers, peers);
    if results.Err? {
      return Err(()), [], stamps;
    }
    legs := Legs(results.value, started, took);
    var produced, samples, wall := AggregateLegs(legs);
    SamplesMatchProduced(legs);
    ProducedIsSum(legs, results.value);
    DistinctIffFits(count, producers);
    DistinctStamps(count, producers, stamps);
    r := Ok((produced, samples, wall));
  }

  /** No sequence number occurs twice among the legs. */
  ghost predicate AllDistinct(stamps: seq<seq<nat>>) {
    forall i, j, k, l ::
      (0 <= i < |stamps| && 0 <= j < |stamps| && 0 <= k < |stamps[i]| && 0 <= l < |stamps[j]|
       && stamps[i][k] == stamps[j][l]) ==> (i == j && k == l)
  }

  lemma {:induction false} ProducedIsSum(legs: seq<Leg>, results: seq<(nat, seq<nat>)>)
    requires |legs| == |results| && forall i :: 0 <= i < |legs| ==> legs[i].produced == results[i].0
    ensures TotalProduced(legs) == Sum(Counts(results))
  {
    if legs != [] {
      var n := |legs| - 1;
      ProducedIsSum(legs[..n], results[..n]);
      assert Counts(results)[..n] == Counts(results[..n]);
    }
  }

  lemma DistinctStamps(count: nat, producers: nat, stamps: seq<seq<nat>>)
    requires producers > 0 && |stamps| == producers
    requires forall i :: 0 <= i < producers ==>
               |stamps[i]| == Share(count, producers, i) && forall k :: 0 <= k < |stamps[i]| ==> stamps[i][k] == Stamp(i, k)
    ensures AllDistinct(stamps) <==> NoCollision(count, producers)
  {
    hide Stamp, Share;
  }
}
