/** The load generator's drain: fetch, time, acknowledge, until the queue has stayed empty. The broker is an
    arbitrary finite script of fetch replies, after which every fetch is empty. */
module Drain {
  import opened Common

  const DRAINED_GRACE_POLLS := 100
  const U32_MAX := 0xFFFF_FFFF

  datatype Lease = Lease(offset: nat, generation: nat)
  /** A delivered message: its lease and the send time its payload carries, if it is long enough to carry one. */
  datatype Message = Message(lease: Lease, sentAt: Option<nat>)
  datatype Gap = Gap(filtered: bool, from: nat, to: nat)
  datatype Fetched = Fetched(messages: seq<Message>, gaps: seq<Gap>) | FetchFailed
  datatype AckMode = Batched | PerMessage
  datatype GapTally = GapTally(markers: nat, offsets: nat)
  datatype Bound = Count | Duration(limit: nat)
  datatype Report = Report(recorded: nat, latencies: seq<nat>, gaps: GapTally)

  function ShouldStop(bound: Bound, recorded: nat, expected: nat, emptyStreak: nat, elapsed: nat): bool {
    match bound
    case Count => emptyStreak > 0 && (recorded >= expected || emptyStreak >= DRAINED_GRACE_POLLS)
    case Duration(limit) => elapsed >= limit
  }

  function FetchAt(script: seq<Fetched>, i: nat): Fetched {
    if i < |script| then script[i] else Fetched([], [])
  }

  function Leases(ms: seq<Message>): (s: seq<Lease>)
    ensures |s| == |ms|
  {
    seq(|ms|, i requires 0 <= i < |ms| => ms[i].lease)
  }

  // ----- what n successful polls deliver -----

  ghost predicate Healthy(script: seq<Fetched>) {
    forall i :: 0 <= i < |script| ==> script[i].Fetched?
  }

  /** The leases delivered by the first n polls, in delivery order. */
  ghost function Delivered(script: seq<Fetched>, n: nat): seq<Lease> {
    if n == 0 then []
    else Delivered(script, n - 1) + match FetchAt(script, n - 1) case Fetched(ms, _) => Leases(ms) case FetchFailed => []
  }

  /** How many of the polls up to n were empty in a row. */
  ghost function Streak(script: seq<Fetched>, n: nat): nat {
    if n == 0 then 0
    else match FetchAt(script, n - 1)
      case Fetched(ms, _) => if ms == [] then Streak(script, n - 1) + 1 else 0
      case FetchFailed => 0
  }

  /** The drain may stop after n polls: the last one was empty and either everything expected arrived or the
      queue has stayed empty for the whole grace period. */
  ghost predicate Stops(script: seq<Fetched>, expected: nat, n: nat) {
    n > 0 && ShouldStop(Count, |Delivered(script, n)|, expected, Streak(script, n), 0)
  }

  lemma {:induction false} StreakIsEmpty(script: seq<Fetched>, n: nat, i: nat)
    requires n - Streak(script, n) <= i < n
    ensures FetchAt(script, i).Fetched? && FetchAt(script, i).messages == []
  {
    if i < n - 1 {
      StreakIsEmpty(script, n - 1, i);
    }
  }

  lemma {:induction false} StreakBound(script: seq<Fetched>, n: nat)
    ensures Streak(script, n) <= n
  {
    if n > 0 {
      StreakBound(script, n - 1);
    }
  }

  /** Stopping short of the expected count means the last hundred polls were all empty. */
  lemma ShortStopIsDrained(script: seq<Fetched>, expected: nat, n: nat)
    requires Stops(script, expected, n) && |Delivered(script, n)| < expected
    ensures n >= DRAINED_GRACE_POLLS
    ensures forall i :: n - DRAINED_GRACE_POLLS <= i < n ==>
              FetchAt(script, i).Fetched? && FetchAt(script, i).messages == []
  {
    StreakBound(script, n);
    forall i | n - DRAINED_GRACE_POLLS <= i < n
      ensures FetchAt(script, i).Fetched? && FetchAt(script, i).messages == []
    {
      StreakIsEmpty(script, n, i);
    }
  }

  /** Every finite script is eventually drained: a stop comes at the latest a grace period after its end. */
  lemma DrainEnds(script: seq<Fetched>, expected: nat)
    ensures Stops(script, expected, |script| + DRAINED_GRACE_POLLS)
  {
    StreakPastEnd(script, DRAINED_GRACE_POLLS);
  }

  /** The poll the drain stops after, decided by the script and the expected count alone. */
  ghost function FirstStop(script: seq<Fetched>, expected: nat): (n: nat)
    ensures Stops(script, expected, n) && n <= |script| + DRAINED_GRACE_POLLS
    ensures forall k :: 0 <= k < n ==> !Stops(script, expected, k)
  {
    StopFrom(script, expected, 0)
  }

  ghost function StopFrom(script: seq<Fetched>, expected: nat, n: nat): (r: nat)
    requires n <= |script| + DRAINED_GRACE_POLLS && forall k :: 0 <= k < n ==> !Stops(script, expected, k)
    ensures Stops(script, expected, r) && r <= |script| + DRAINED_GRACE_POLLS
    ensures forall k :: 0 <= k < r ==> !Stops(script, expected, k)
    decreases |script| + DRAINED_GRACE_POLLS - n
  {
    DrainEnds(script, expected);
    if Stops(script, expected, n) then n else StopFrom(script, expected, n + 1)
  }

  lemma {:induction false} StreakPastEnd(script: seq<Fetched>, k: nat)
    ensures Streak(script, |script| + k) >= k
  {
    if k > 0 {
      StreakPastEnd(script, k - 1);
    }
  }

  // ----- the loop -----

  /** How many of the next `n` acknowledgements, counted from `base`, come before the first refused one. */
  function BeforeRefusal(base: nat, n: nat, refuse: nat -> bool): (k: nat)
    ensures k <= n && forall i :: base <= i < base + k ==> !refuse(i)
    ensures k < n ==> refuse(base + k)
    decreases n
  {
    if n == 0 || refuse(base) then 0 else 1 + BeforeRefusal(base + 1, n - 1, refuse)
  }

  /** How many leases of a batch of `n` the broker settles: batched, one answer decides for all of them; per
      message, those before the first refusal. */
  function Settled(mode: AckMode, base: nat, n: nat, refuse: nat -> bool): (k: nat)
    ensures k <= n
  {
    match mode
    case Batched => if n > 0 && refuse(base) then 0 else n
    case PerMessage => BeforeRefusal(base, n, refuse)
  }

  /** Settles one batch; `refuse` says which acknowledgement, counted from the start of the drain, fails. It goes
      through exactly when nothing the broker is asked is refused, and acknowledges what came before a refusal. */
  method Settle(mode: AckMode, ms: seq<Message>, acked: seq<Lease>, refuse: nat -> bool) returns (ok: bool, acked': seq<Lease>)
    ensures acked' == acked + Leases(ms)[..Settled(mode, |acked|, |ms|, refuse)]
    ensures ok <==> Settled(mode, |acked|, |ms|, refuse) == |ms|
    ensures ok <==> match mode
                    case Batched => ms == [] || !refuse(|acked|)
                    case PerMessage => forall i :: |acked| <= i < |acked| + |ms| ==> !refuse(i)
  {
    assert Leases(ms)[..|ms|] == Leases(ms);
    match mode
    case Batched =>
      // One pipelined round trip for the whole batch; an empty batch makes none.
      if ms != [] && refuse(|acked|) {
        return false, acked;
      }
      return true, acked + Leases(ms);
    case PerMessage =>
      ghost var k := BeforeRefusal(|acked|, |ms|, refuse);
      acked' := acked;
      for i := 0 to |ms|
        invariant i <= k && acked' == acked + Leases(ms)[..i]
      {
        if refuse(|acked| + i) {
          return false, acked';
        }
        assert Leases(ms)[..i + 1] == Leases(ms)[..i] + [ms[i].lease];
        acked' := acked' + [ms[i].lease];
      }
      return true, acked';
  }

  /** The first n polls all fetch, and everything they deliver is settled. */
  ghost predicate Clean(script: seq<Fetched>, mode: AckMode, refuse: nat -> bool, n: nat) {
    n == 0 ||
    (&& Clean(script, mode, refuse, n - 1)
     && match FetchAt(script, n - 1)
        case Fetched(ms, _) => Settled(mode, |Delivered(script, n - 1)|, |ms|, refuse) == |ms|
        case FetchFailed => false)
  }

  /** On a script without failures, with nothing refused, every poll is clean. */
  lemma {:induction false} AllClean(script: seq<Fetched>, mode: AckMode, refuse: nat -> bool, n: nat)
    requires Healthy(script) && forall i :: !refuse(i)
    ensures Clean(script, mode, refuse, n)
  {
    if n > 0 {
      AllClean(script, mode, refuse, n - 1);
    }
  }

  /** The latency samples of one batch fetched at `now`. */
  function Timed(ms: seq<Message>, now: nat): seq<nat> {
    if ms == [] then []
    else
      var last := ms[|ms| - 1].sentAt;
      Timed(ms[..|ms| - 1], now)
      + if last.Some? then [SaturatingSub(now, last.value)] else []
  }

  /** Only the filter's own markers are tallied. */
  function Tally(gaps: seq<Gap>): GapTally {
    if gaps == [] then GapTally(0, 0)
    else
      var t, g := Tally(gaps[..|gaps| - 1]), gaps[|gaps| - 1];
      if g.filtered then GapTally(t.markers + 1, t.offsets + SaturatingSub(g.to, g.from)) else t
  }

  ghost function AllTimed(script: seq<Fetched>, clock: nat -> nat, n: nat): seq<nat> {
    if n == 0 then []
    else AllTimed(script, clock, n - 1)
         + match FetchAt(script, n - 1) case Fetched(ms, _) => Timed(ms, clock(n - 1)) case FetchFailed => []
  }

  ghost function AllTallied(script: seq<Fetched>, n: nat): GapTally {
    if n == 0 then GapTally(0, 0)
    else
      var before := AllTallied(script, n - 1);
      match FetchAt(script, n - 1)
      case Fetched(_, gaps) => GapTally(before.markers + Tally(gaps).markers, before.offsets + Tally(gaps).offsets)
      case FetchFailed => before
  }

  /** Drains under a count bound. It ends for every finite script, and succeeds exactly when every poll up to the
      first stop fetches and settles. Then it acknowledged every fetched message once and in order, and timed
      every message that carries a send time. A failed drain stopped at the first poll that is not clean. */
  method RunDrain(expected: nat, mode: AckMode, script: seq<Fetched>, clock: nat -> nat, refuse: nat -> bool)
    returns (r: Result<Report, ()>, acked: seq<Lease>, polls: nat)
    ensures r.Ok? <==> Clean(script, mode, refuse, FirstStop(script, expected))
    ensures r.Ok? ==> polls == FirstStop(script, expected)
    ensures r.Ok? ==> acked == Delivered(script, polls) && r.value.recorded == |acked|
    ensures r.Ok? ==> r.value.latencies == AllTimed(script, clock, polls) && r.value.gaps == AllTallied(script, polls)
    ensures r.Err? ==> 0 < polls <= FirstStop(script, expected)
                       && Clean(script, mode, refuse, polls - 1) && !Clean(script, mode, refuse, polls)
    ensures r.Err? ==> var before := Delivered(script, polls - 1);
                       acked == before + match FetchAt(script, polls - 1)
                                         case Fetched(ms, _) => Leases(ms)[..Settled(mode, |before|, |ms|, refuse)]
                                         case FetchFailed => []
  {
    hide Timed, Tally, FirstStop, Settled, Leases, Delivered, Streak, AllTimed, AllTallied, Clean;
    PollNone(script, clock, mode, refuse);
    var latencies: seq<nat> := [];
    var recorded, emptyStreak := 0, 0;
    var gaps := GapTally(0, 0);
    acked, polls := [], 0;
    while true
      invariant acked == Delivered(script, polls) && recorded == |acked|
      invariant emptyStreak == Streak(script, polls) < DRAINED_GRACE_POLLS
      invariant latencies == AllTimed(script, clock, polls) && gaps == AllTallied(script, polls)
      invariant forall k :: 0 <= k <= polls ==> !Stops(script, expected, k)
      invariant Clean(script, mode, refuse, polls)
      decreases if polls < |script| then |script| - polls else 0, DRAINED_GRACE_POLLS - emptyStreak
    {
      var fetched := FetchAt(script, polls);
      var now := clock(polls);
      polls := polls + 1;
      Poll(script, clock, mode, refuse, polls - 1);
      NoLaterClean(script, expected, mode, refuse, polls);
      if fetched.FetchFailed? {
        assert acked + [] == acked;
        return Err(()), acked, polls;
      }
      var tally := Tally(fetched.gaps);
      gaps := GapTally(gaps.markers + tally.markers, gaps.offsets + tally.offsets);
      latencies := latencies + Timed(fetched.messages, now);
      recorded := recorded + |fetched.messages|;
      var ok;
      ok, acked := Settle(mode, fetched.messages, acked, refuse);
      if !ok {
        return Err(()), acked, polls;
      }
      WholeBatch(fetched.messages);
      emptyStreak := if fetched.messages != [] then 0 else if emptyStreak < U32_MAX then emptyStreak + 1 else U32_MAX;
      if ShouldStop(Count, recorded, expected, emptyStreak, 0) {
        break;
      }
    }
    StopIsFirst(script, expected, polls);
    r := Ok(Report(recorded, latencies, gaps));
  }

  lemma PollNone(script: seq<Fetched>, clock: nat -> nat, mode: AckMode, refuse: nat -> bool)
    ensures Delivered(script, 0) == [] && Streak(script, 0) == 0 && AllTimed(script, clock, 0) == []
    ensures AllTallied(script, 0) == GapTally(0, 0) && Clean(script, mode, refuse, 0)
  {
  }

  /** What poll n adds. */
  lemma Poll(script: seq<Fetched>, clock: nat -> nat, mode: AckMode, refuse: nat -> bool, n: nat)
    ensures var before := Delivered(script, n);
            match FetchAt(script, n)
            case Fetched(ms, gaps) =>
              && Delivered(script, n + 1) == before + Leases(ms) && |Leases(ms)| == |ms|
              && Streak(script, n + 1) == (if ms == [] then Streak(script, n) + 1 else 0)
              && AllTimed(script, clock, n + 1) == AllTimed(script, clock, n) + Timed(ms, clock(n))
              && AllTallied(script, n + 1).markers == AllTallied(script, n).markers + Tally(gaps).markers
              && AllTallied(script, n + 1).offsets == AllTallied(script, n).offsets + Tally(gaps).offsets
              && (Clean(script, mode, refuse, n + 1) <==>
                  Clean(script, mode, refuse, n) && Settled(mode, |before|, |ms|, refuse) == |ms|)
            case FetchFailed => !Clean(script, mode, refuse, n + 1)
  {
  }

  lemma WholeBatch(ms: seq<Message>)
    ensures Leases(ms)[..|ms|] == Leases(ms)
  {
  }

  /** The first stop is not before poll n if no earlier poll stops, and it is not clean if poll n is not. */
  lemma NoLaterClean(script: seq<Fetched>, expected: nat, mode: AckMode, refuse: nat -> bool, n: nat)
    requires forall k :: 0 <= k < n ==> !Stops(script, expected, k)
    ensures n <= FirstStop(script, expected)
    ensures !Clean(script, mode, refuse, n) ==> !Clean(script, mode, refuse, FirstStop(script, expected))
  {
    hide Clean, Stops;
    CleanPrefix(script, mode, refuse, n, FirstStop(script, expected));
  }

  lemma {:induction false} CleanPrefix(script: seq<Fetched>, mode: AckMode, refuse: nat -> bool, n: nat, m: nat)
    requires n <= m
    ensures Clean(script, mode, refuse, m) ==> Clean(script, mode, refuse, n)
  {
    if n < m {
      CleanPrefix(script, mode, refuse, n, m - 1);
    }
  }

  lemma StopIsFirst(script: seq<Fetched>, expected: nat, n: nat)
    requires Stops(script, expected, n) && forall k :: 0 <= k < n ==> !Stops(script, expected, k)
    ensures n == FirstStop(script, expected)
  {
    hide Stops;
  }

  /** Batched and per-message settlement of the same fetches acknowledge the same leases in the same order, after
      the same number of polls, whatever the clocks read. */
  method DrainBothWays(expected: nat, script: seq<Fetched>, clock: nat -> nat, clock': nat -> nat,
                       refuse: nat -> bool, refuse': nat -> bool)
    returns (batched: Result<Report, ()>, each: Result<Report, ()>, acked: seq<Lease>, acked': seq<Lease>)
    ensures batched.Ok? && each.Ok? ==>
              acked == acked' == Delivered(script, FirstStop(script, expected))
              && batched.value.recorded == each.value.recorded && batched.value.gaps == each.value.gaps
    ensures Healthy(script) && (forall i :: !refuse(i)) && (forall i :: !refuse'(i)) ==> batched.Ok? && each.Ok?
  {
    hide Clean, FirstStop;
    if Healthy(script) && (forall i :: !refuse(i)) && (forall i :: !refuse'(i)) {
      AllClean(script, Batched, refuse, FirstStop(script, expected));
      AllClean(script, PerMessage, refuse', FirstStop(script, expected));
    }
    var polls, polls';
    batched, acked, polls := RunDrain(expected, Batched, script, clock, refuse);
    each, acked', polls' := RunDrain(expected, PerMessage, script, clock', refuse');
  }
}
