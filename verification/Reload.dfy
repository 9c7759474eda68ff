/** The effective-config handle: readers take whole snapshots, and a reload checks a candidate against a snapshot
    and swaps it in. The check and the swap take the lock separately, so other threads run in between. */
module Reload {
  import opened Common

  type Entry = (string, string)

  /** A snapshot: the cold keys it lists with their values, and the rest of the resolved configuration. */
  datatype EffectiveConfig<R> = EffectiveConfig(coldKeys: seq<Entry>, resolved: R) {
    /** The value of the first entry for `key`, if one is listed. */
    function ColdValue(key: string): Option<string> {
      Lookup(coldKeys, key)
    }
  }

  datatype Verdict = Verdict(errors: seq<string>, warnings: seq<string>)

  const COLD_KEYS: seq<string> := ["storage.segment_size", "storage.data_dir", "storage.io_mode"]

  predicate IsCold(key: string) {
    key in COLD_KEYS
  }

  function Lookup(entries: seq<Entry>, key: string): Option<string> {
    if entries == [] then None
    else if entries[0].0 == key then Some(entries[0].1)
    else Lookup(entries[1..], key)
  }

  /** A lookup finds a listed entry for the key, and finds one whenever there is one. */
  lemma {:induction false} LookupFinds(entries: seq<Entry>, key: string)
    ensures Lookup(entries, key).Some? <==> exists i :: 0 <= i < |entries| && entries[i].0 == key
    ensures Lookup(entries, key).Some? ==> (key, Lookup(entries, key).value) in entries
  {
    if entries != [] && entries[0].0 != key {
      LookupFinds(entries[1..], key);
      if i :| 0 <= i < |entries| && entries[i].0 == key {
        assert entries[1..][i - 1] == entries[i];
      }
    } else if entries != [] {
      assert entries[0] == (key, Lookup(entries, key).value);
    }
  }

  // ----- one reload -----

  /** Why an entry of the candidate blocks a reload. */
  datatype Reason = ColdKeyChanged(key: string, was: Option<string>, now: string)

  function Reasons<R>(entries: seq<Entry>, current: EffectiveConfig<R>): seq<Reason> {
    if entries == [] then []
    else
      var last := entries[|entries| - 1];
      Reasons(entries[..|entries| - 1], current) +
      if IsCold(last.0) && current.ColdValue(last.0) != Some(last.1)
      then [ColdKeyChanged(last.0, current.ColdValue(last.0), last.1)]
      else []
  }

  /** Every cold entry the candidate lists has the current value. */
  ghost predicate ColdUnchanged<R>(entries: seq<Entry>, current: EffectiveConfig<R>) {
    forall e :: e in entries && IsCold(e.0) ==> current.ColdValue(e.0) == Some(e.1)
  }

  lemma {:induction false} NoReasonsIffUnchanged<R>(entries: seq<Entry>, current: EffectiveConfig<R>)
    ensures Reasons(entries, current) == [] <==> ColdUnchanged(entries, current)
  {
    if entries != [] {
      var front, last := entries[..|entries| - 1], entries[|entries| - 1];
      NoReasonsIffUnchanged(front, current);
      assert entries == front + [last];
    }
  }

  /** Every reason names a cold entry of the candidate, its running value and its new value, and every changed
      cold entry has its reason. */
  lemma {:induction false} ReasonsAreExact<R>(entries: seq<Entry>, current: EffectiveConfig<R>, r: Reason)
    ensures r in Reasons(entries, current) <==>
            (r.key, r.now) in entries && IsCold(r.key) && r.was == current.ColdValue(r.key) != Some(r.now)
  {
    hide IsCold, Lookup;
    if entries != [] {
      var front, last := entries[..|entries| - 1], entries[|entries| - 1];
      ReasonsAreExact(front, current, r);
      assert entries == front + [last];
    }
  }

  ghost predicate Accepts<R>(current: EffectiveConfig<R>, candidate: EffectiveConfig<R>, validate: R -> Verdict) {
    validate(candidate.resolved).errors == [] && ColdUnchanged(candidate.coldKeys, current)
  }

  datatype ReloadOutcome =
    | Applied(warnings: seq<string>)
    | Invalid(errors: seq<string>)
    | ColdRejected(reasons: seq<Reason>)

  class ConfigHandle<R> {
    var inner: EffectiveConfig<R>

    constructor (initial: EffectiveConfig<R>)
      ensures inner == initial
    {
      inner := initial;
    }

    method Current() returns (c: EffectiveConfig<R>)
      ensures c == inner
    {
      c := inner;
    }

    /** A reload with no other thread between its check and its swap: the candidate is installed whole when it
        is valid and changes no cold key it lists, and otherwise nothing changes. */
    method ReloadFrom(candidate: EffectiveConfig<R>, validate: R -> Verdict) returns (outcome: ReloadOutcome)
      modifies this
      ensures outcome.Applied? <==> Accepts(old(inner), candidate, validate)
      ensures inner == if outcome.Applied? then candidate else old(inner)
      ensures outcome.Invalid? <==> validate(candidate.resolved).errors != []
      ensures outcome.Invalid? ==> outcome.errors == validate(candidate.resolved).errors
      ensures outcome.ColdRejected? ==> outcome.reasons == Reasons(candidate.coldKeys, old(inner)) != []
      ensures outcome.Applied? ==> outcome.warnings == validate(candidate.resolved).warnings
    {
      var verdict := validate(candidate.resolved);
      if verdict.errors != [] {
        return Invalid(verdict.errors);
      }
      var current := Current();
      var entries := candidate.coldKeys;
      var reasons := [];
      for i := 0 to |entries|
        invariant reasons == Reasons(entries[..i], current)
      {
        assert entries[..i + 1][..i] == entries[..i];
        var key, value := entries[i].0, entries[i].1;
        if !IsCold(key) {
          continue;
        }
        if current.ColdValue(key) != Some(value) {
          reasons := reasons + [ColdKeyChanged(key, current.ColdValue(key), value)];
        }
      }
      assert entries[..|entries|] == entries;
      NoReasonsIffUnchanged(entries, current);
      if reasons != [] {
        return ColdRejected(reasons);
      }
      inner := candidate;
      outcome := Applied(verdict.warnings);
    }
  }

  // ----- many threads -----

  /** What a thread does while it holds the lock: take a snapshot, take one to check a candidate against, or
      store a candidate that passed. */
  datatype Event<R> = Read(thread: nat) | Check(thread: nat, candidate: EffectiveConfig<R>) | Swap(thread: nat)

  /** The shared snapshot, the candidates that passed their check and are not yet stored, and what was read. */
  datatype State<!R> = State(current: EffectiveConfig<R>, passed: map<nat, EffectiveConfig<R>>,
                             seen: seq<EffectiveConfig<R>>)

  ghost function Next<R>(s: State<R>, e: Event<R>, validate: R -> Verdict): State<R> {
    match e
    case Read(_) => s.(seen := s.seen + [s.current])
    case Check(t, candidate) =>
      if t in s.passed then s
      else if Accepts(s.current, candidate, validate) then s.(passed := s.passed[t := candidate])
      else s
    case Swap(t) =>
      if t in s.passed then s.(current := s.passed[t], passed := s.passed - {t}) else s
  }

  /** The state after any interleaving of the threads' events. */
  ghost function Run<R>(startup: EffectiveConfig<R>, events: seq<Event<R>>, validate: R -> Verdict): State<R> {
    if events == [] then State(startup, map[], [])
    else Next(Run(startup, events[..|events| - 1], validate), events[|events| - 1], validate)
  }

  /** Every cold key the snapshot gives a value, startup gives the same value. */
  ghost predicate AgreesWithStartup<R>(c: EffectiveConfig<R>, startup: EffectiveConfig<R>) {
    forall key :: IsCold(key) && c.ColdValue(key).Some? ==> c.ColdValue(key) == startup.ColdValue(key)
  }

  /** The snapshot is startup itself, or some thread submitted exactly it and it is valid. */
  ghost predicate IsWhole<R(!new)>(c: EffectiveConfig<R>, startup: EffectiveConfig<R>, events: seq<Event<R>>,
                                  validate: R -> Verdict) {
    c == startup || (Submitted(c, events) && validate(c.resolved).errors == [])
  }

  ghost predicate Submitted<R(!new)>(c: EffectiveConfig<R>, events: seq<Event<R>>) {
    exists e :: e in events && e.Check? && e.candidate == c
  }

  ghost predicate Safe<R(!new)>(c: EffectiveConfig<R>, startup: EffectiveConfig<R>, events: seq<Event<R>>,
                               validate: R -> Verdict) {
    IsWhole(c, startup, events, validate) && AgreesWithStartup(c, startup)
  }

  /** A candidate that passes against a snapshot agreeing with startup agrees with startup too, so a swap stays
      safe however stale the snapshot it was checked against. */
  lemma PassingAgrees<R>(current: EffectiveConfig<R>, candidate: EffectiveConfig<R>, startup: EffectiveConfig<R>)
    requires AgreesWithStartup(current, startup) && ColdUnchanged(candidate.coldKeys, current)
    ensures AgreesWithStartup(candidate, startup)
  {
    forall key | IsCold(key) && candidate.ColdValue(key).Some?
      ensures candidate.ColdValue(key) == startup.ColdValue(key)
    {
      LookupFinds(candidate.coldKeys, key);
    }
  }

  lemma SafeLater<R(!new)>(c: EffectiveConfig<R>, startup: EffectiveConfig<R>, events: seq<Event<R>>, e: Event<R>,
                           validate: R -> Verdict)
    requires Safe(c, startup, events, validate)
    ensures Safe(c, startup, events + [e], validate)
  {
    if c != startup {
      var check :| check in events && check.Check? && check.candidate == c;
      assert check in events + [e];
    }
  }

  /** Concurrent reload safety, over every interleaving of readers and reloads: each snapshot ever read, the
      current one, and every candidate about to be stored are the startup config or one whole validated
      candidate, and agree with startup on every cold key they list. */
  lemma {:induction false} SnapshotsAreSafe<R(!new)>(startup: EffectiveConfig<R>, events: seq<Event<R>>,
                                                     validate: R -> Verdict)
    ensures Safe(Run(startup, events, validate).current, startup, events, validate)
    ensures forall c :: c in Run(startup, events, validate).seen ==> Safe(c, startup, events, validate)
    ensures forall t :: t in Run(startup, events, validate).passed ==>
              Safe(Run(startup, events, validate).passed[t], startup, events, validate)
  {
    hide IsCold, Lookup, ColdUnchanged, AgreesWithStartup;
    StartupAgrees(startup);
    if events != [] {
      var front, e := events[..|events| - 1], events[|events| - 1];
      var before, after := Run(startup, front, validate), Run(startup, events, validate);
      SnapshotsAreSafe(startup, front, validate);
      assert events == front + [e];
      SafeLater(before.current, startup, front, e, validate);
      forall c | c in before.seen
        ensures Safe(c, startup, events, validate)
      {
        SafeLater(c, startup, front, e, validate);
      }
      forall t | t in before.passed
        ensures Safe(before.passed[t], startup, events, validate)
      {
        SafeLater(before.passed[t], startup, front, e, validate);
      }
      if e.Check? && Accepts(before.current, e.candidate, validate) {
        PassingAgrees(before.current, e.candidate, startup);
        assert e in events;
      }
    }
  }

  lemma StartupAgrees<R>(startup: EffectiveConfig<R>)
    ensures AgreesWithStartup(startup, startup)
  {
  }

  /** With no event in between, checking and swapping is the sequential reload. */
  lemma UndisturbedReload<R>(startup: EffectiveConfig<R>, events: seq<Event<R>>, validate: R -> Verdict, t: nat,
                             candidate: EffectiveConfig<R>)
    requires t !in Run(startup, events, validate).passed
    ensures Run(startup, events + [Check(t, candidate)] + [Swap(t)], validate).current
         == if Accepts(Run(startup, events, validate).current, candidate, validate) then candidate
            else Run(startup, events, validate).current
  {
    var checked := events + [Check(t, candidate)];
    assert checked[..|events|] == events;
    assert (checked + [Swap(t)])[..|checked|] == checked;
  }

  // ----- what the check does not see -----

  ghost predicate ListsAll<R>(candidate: EffectiveConfig<R>, current: EffectiveConfig<R>) {
    forall key :: IsCold(key) && current.ColdValue(key).Some? ==> candidate.ColdValue(key).Some?
  }

  ghost predicate SameCold<R>(a: EffectiveConfig<R>, b: EffectiveConfig<R>) {
    forall key :: IsCold(key) ==> a.ColdValue(key) == b.ColdValue(key)
  }

  /** The loop walks the candidate's entries only, so an accepted reload leaves every cold key as it was exactly
      when the candidate still lists every cold key the running config has. */
  lemma ColdKeptIffListed<R>(current: EffectiveConfig<R>, candidate: EffectiveConfig<R>, validate: R -> Verdict)
    requires Accepts(current, candidate, validate)
    ensures SameCold(candidate, current) <==> ListsAll(candidate, current)
  {
    if ListsAll(candidate, current) {
      forall key | IsCold(key)
        ensures candidate.ColdValue(key) == current.ColdValue(key)
      {
        LookupFinds(candidate.coldKeys, key);
      }
    }
  }

  /** The config the broker starts with lists every cold key. */
  function StartupConfig<R>(segmentSize: string, dataDir: string, ioMode: string, resolved: R): EffectiveConfig<R> {
    EffectiveConfig([(COLD_KEYS[0], segmentSize), (COLD_KEYS[1], dataDir), (COLD_KEYS[2], ioMode)], resolved)
  }

  /** The candidate a re-read of the config file submits lists two of the three. */
  function RereadCandidate<R>(segmentSize: string, dataDir: string, resolved: R): EffectiveConfig<R> {
    EffectiveConfig([(COLD_KEYS[0], segmentSize), (COLD_KEYS[1], dataDir)], resolved)
  }

  /** A re-read guards the segment size and the data directory but not the io mode: whether it is accepted does
      not depend on the io mode, and accepting it loses the io mode from the snapshot. */
  lemma IoModeIsNotGuarded<R>(segmentSize: string, dataDir: string, ioMode: string, resolved: R,
                              newSize: string, newDir: string, newResolved: R, validate: R -> Verdict)
    ensures var current := StartupConfig(segmentSize, dataDir, ioMode, resolved);
            var candidate := RereadCandidate(newSize, newDir, newResolved);
            && (Accepts(current, candidate, validate) <==>
                validate(newResolved).errors == [] && newSize == segmentSize && newDir == dataDir)
            && current.ColdValue(COLD_KEYS[2]) == Some(ioMode)
            && candidate.ColdValue(COLD_KEYS[2]).None?
  {
    var current := StartupConfig(segmentSize, dataDir, ioMode, resolved);
    var candidate := RereadCandidate(newSize, newDir, newResolved);
    DistinctColdKeys();
    StartupLookups(current.coldKeys);
    assert current.ColdValue(current.coldKeys[0].0) == Some(segmentSize);
    assert current.ColdValue(current.coldKeys[1].0) == Some(dataDir);
    assert current.ColdValue(current.coldKeys[2].0) == Some(ioMode);
    LookupFinds(candidate.coldKeys, COLD_KEYS[2]);
    assert IsCold(COLD_KEYS[0]) && IsCold(COLD_KEYS[1]);
    assert (COLD_KEYS[0], newSize) in candidate.coldKeys && (COLD_KEYS[1], newDir) in candidate.coldKeys;
    assert ColdUnchanged(candidate.coldKeys, current) <==> newSize == segmentSize && newDir == dataDir;
  }

  lemma DistinctColdKeys()
    ensures COLD_KEYS[0] != COLD_KEYS[1] && COLD_KEYS[0] != COLD_KEYS[2] && COLD_KEYS[1] != COLD_KEYS[2]
  {
    assert |COLD_KEYS[0]| == 20 && |COLD_KEYS[1]| == 16 && |COLD_KEYS[2]| == 15;
  }

  lemma StartupLookups(entries: seq<Entry>)
    requires |entries| == 3
    requires entries[0].0 != entries[1].0 && entries[0].0 != entries[2].0 && entries[1].0 != entries[2].0
    ensures forall i :: 0 <= i < 3 ==> Lookup(entries, entries[i].0) == Some(entries[i].1)
  {
    assert entries[1..][0] == entries[1] && entries[1..][1..][0] == entries[2];
    assert Lookup(entries, entries[2].0) == Lookup(entries[1..][1..], entries[2].0);
  }

  /** A candidate checked against a snapshot without a cold key can only pass without it. */
  lemma DroppedColdKeyStaysOut<R>(current: EffectiveConfig<R>, candidate: EffectiveConfig<R>, validate: R -> Verdict,
                                  key: string)
    requires IsCold(key) && current.ColdValue(key).None? && Accepts(current, candidate, validate)
    ensures candidate.ColdValue(key).None?
  {
    LookupFinds(candidate.coldKeys, key);
  }

  /** Neither the current snapshot nor any candidate that passed and is not yet stored lists the key. */
  ghost predicate Gone<R>(s: State<R>, key: string) {
    && s.current.ColdValue(key).None?
    && forall t :: t in s.passed ==> s.passed[t].ColdValue(key).None?
  }

  lemma GoneNext<R>(s: State<R>, e: Event<R>, validate: R -> Verdict, key: string)
    requires IsCold(key) && Gone(s, key)
    ensures Gone(Next(s, e, validate), key)
  {
    hide IsCold, Lookup, Accepts;
    if e.Check? && Accepts(s.current, e.candidate, validate) {
      DroppedColdKeyStaysOut(s.current, e.candidate, validate, key);
    }
  }

  lemma {:induction false} GoneForGood<R>(startup: EffectiveConfig<R>, events: seq<Event<R>>, more: seq<Event<R>>,
                                          validate: R -> Verdict, key: string)
    requires IsCold(key) && Gone(Run(startup, events, validate), key)
    ensures Gone(Run(startup, events + more, validate), key)
  {
    hide IsCold, Gone, Next;
    if more == [] {
      assert events + more == events;
    } else {
      var n := |more| - 1;
      GoneForGood(startup, events, more[..n], validate, key);
      assert (events + more)[..|events| + n] == events + more[..n];
      GoneNext(Run(startup, events + more[..n], validate), more[n], validate, key);
    }
  }

  /** A cold key the current snapshot has lost can come back in some continuation of the run exactly when a
      candidate that passed its check earlier, and is not yet stored, lists it. */
  lemma DroppedColdKeyReturnsIff<R(!new)>(startup: EffectiveConfig<R>, events: seq<Event<R>>, validate: R -> Verdict,
                                          key: string)
    requires IsCold(key) && Run(startup, events, validate).current.ColdValue(key).None?
    ensures (exists more :: Run(startup, events + more, validate).current.ColdValue(key).Some?)
            <==> (exists t :: t in Run(startup, events, validate).passed
                              && Run(startup, events, validate).passed[t].ColdValue(key).Some?)
  {
    hide IsCold, Lookup;
    var s := Run(startup, events, validate);
    if t :| t in s.passed && s.passed[t].ColdValue(key).Some? {
      var more := [Swap(t)];
      assert (events + more)[..|events|] == events;
      assert Run(startup, events + more, validate).current == s.passed[t];
    } else {
      forall more: seq<Event<R>>
        ensures Run(startup, events + more, validate).current.ColdValue(key).None?
      {
        GoneForGood(startup, events, more, validate, key);
      }
    }
  }

  /** It does come back: of two reloads checked against startup, the one without cold keys is stored first, and the
      snapshot loses the key until the other is stored. */
  lemma DroppedColdKeyReturns<R>(startup: EffectiveConfig<R>, a: EffectiveConfig<R>, b: EffectiveConfig<R>,
                                 validate: R -> Verdict, key: string)
    requires Accepts(startup, a, validate) && Accepts(startup, b, validate)
    requires a.ColdValue(key).Some? && b.ColdValue(key).None?
    ensures var events := [Check(0, a), Check(1, b), Swap(1)];
            && Run(startup, events, validate).current == b
            && Run(startup, events + [Swap(0)], validate).current == a
  {
    hide Accepts, Lookup;
    var e1, e2, e3 := [Check(0, a)], [Check(0, a), Check(1, b)], [Check(0, a), Check(1, b), Swap(1)];
    var e4 := e3 + [Swap(0)];
    assert e1[..0] == [] && e2[..1] == e1 && e3[..2] == e2 && e4[..3] == e3;
    assert Run(startup, e1, validate).passed == map[0 := a];
    assert Run(startup, e2, validate).passed == map[0 := a, 1 := b];
    assert Run(startup, e3, validate).passed == map[0 := a];
  }

  /** In any interleaving, a snapshot has startup's cold keys exactly when it lists them all. */
  lemma SnapshotColdIffListed<R(!new)>(startup: EffectiveConfig<R>, events: seq<Event<R>>, validate: R -> Verdict,
                                       c: EffectiveConfig<R>)
    requires c in Run(startup, events, validate).seen
    ensures SameCold(c, startup) <==> ListsAll(c, startup)
  {
    hide Run, Lookup;
    SnapshotsAreSafe(startup, events, validate);
    if ListsAll(c, startup) {
      assert forall key :: IsCold(key) && c.ColdValue(key).None? ==> startup.ColdValue(key).None?;
    }
  }

  /** If startup's cold keys are listed by every candidate any thread submits, no cold key ever changes in any
      interleaving. */
  lemma ColdNeverChanges<R(!new)>(startup: EffectiveConfig<R>, events: seq<Event<R>>, validate: R -> Verdict,
                                  c: EffectiveConfig<R>)
    requires forall e :: e in events && e.Check? ==> ListsAll(e.candidate, startup)
    requires c in Run(startup, events, validate).seen
    ensures SameCold(c, startup)
  {
    hide Run, Lookup;
    SnapshotsAreSafe(startup, events, validate);
  }
}
