/** Reading the rendered `/admin` document gives back the broker's state. */
module AdminRoundTrip {
  import opened Common
  import opened JsonText
  import opened AdminParser
  import opened AdminDocument

  // ----- token lists -----

  predicate GoodField(f: (string, Token)) {
    IsName(f.0) && (f.1.Num? || f.1.Bool? || f.1.Str?)
  }

  ghost predicate GoodFields(fs: Fields) {
    forall i :: 0 <= i < |fs| ==> GoodField(fs[i])
  }

  ghost predicate Lacks(fs: Fields, key: string) {
    forall i :: 0 <= i < |fs| ==> fs[i].0 != key
  }

  /** A list of complete tokens: well placed on its own, with no key `key`, and silent for the bracket scanner. */
  lemma WellPlacedAppend(a: seq<Token>, b: seq<Token>)
    requires WellPlaced(a) && WellPlaced(b)
    ensures WellPlaced(a + b)
  {
    forall i | 0 <= i < |a + b| && (a + b)[i].Str?
      ensures i + 1 < |a + b| && Ends((a + b)[i + 1])
    {
      if i < |a| {
        assert a[i].Str?;
      } else {
        assert b[i - |a|].Str?;
      }
    }
  }

  lemma KeysAppend(a: seq<Token>, b: seq<Token>, key: string)
    requires key !in Keys(a) && key !in Keys(b)
    ensures key !in Keys(a + b)
  {
  }

  lemma {:induction false} LeadPlaced(fs: Fields)
    requires GoodFields(fs)
    ensures WellPlaced(Lead(fs))
    ensures forall i :: 0 <= i < |Lead(fs)| ==> !Lead(fs)[i].Open? && !Lead(fs)[i].Close?
    ensures forall key :: Lacks(fs, key) ==> key !in Keys(Lead(fs))
  {
    if fs != [] {
      assert GoodField(fs[0]);
      LeadPlaced(fs[1..]);
      var head := [Key(fs[0].0), fs[0].1, Comma];
      WellPlacedAppend(head, Lead(fs[1..]));
      forall key | Lacks(fs, key)
        ensures key !in Keys(Lead(fs))
      {
        assert fs[0].0 != key;
        assert Lacks(fs[1..], key);
        KeysAppend(head, Lead(fs[1..]), key);
      }
    }
  }

  lemma BracedPlaced(fs: Fields)
    requires GoodFields(fs)
    ensures WellPlaced(Braced(fs))
    ensures AllQuiet(Body(fs), '{', '}') && AllQuiet(Braced(fs), '[', ']')
    ensures forall key :: Lacks(fs, key) ==> key !in Keys(Braced(fs))
  {
    if fs == [] {
      assert Braced(fs) == [Open('{'), Close('}')];
    } else {
      var init, last := fs[..|fs| - 1], fs[|fs| - 1];
      LeadPlaced(init);
      assert GoodField(last);
      var tail := [Key(last.0), last.1, Close('}')];
      assert Braced(fs) == [Open('{')] + (Lead(init) + tail);
      WellPlacedAppend(Lead(init), tail);
      WellPlacedAppend([Open('{')], Lead(init) + tail);
      QuietLead(init, '{', '}');
      QuietLead(init, '[', ']');
      assert Body(fs) == Lead(init) + [Key(last.0), last.1];
      forall key | Lacks(fs, key)
        ensures key !in Keys(Braced(fs))
      {
        assert last.0 != key;
        assert Lacks(init, key);
        KeysAppend(Lead(init), tail, key);
        KeysAppend([Open('{')], Lead(init) + tail, key);
      }
    }
  }

  lemma QuietLead(fs: Fields, open: char, close: char)
    requires GoodFields(fs)
    ensures AllQuiet(Lead(fs), open, close)
  {
    LeadPlaced(fs);
    forall i | 0 <= i < |Lead(fs)|
      ensures Quiet(Lead(fs)[i], open, close)
    {
      assert Shaped(Lead(fs)[i]);
    }
  }

  lemma {:induction false} LeadAppend(a: Fields, b: Fields)
    ensures Lead(a + b) == Lead(a) + Lead(b)
  {
    if a == [] {
      assert a + b == b;
    } else {
      LeadAppend(a[1..], b);
      assert (a + b)[1..] == a[1..] + b;
      AppendAssoc([Key(a[0].0), a[0].1, Comma], Lead(a[1..]), Lead(b));
    }
  }

  /** What follows the value of field `k`. */
  function TailTokens(fs: Fields, k: nat): (ts: seq<Token>)
    requires k < |fs|
    ensures ts != [] && Ends(ts[0]) && (ts[0].Close? ==> ts[0].c == '}')
  {
    if k == |fs| - 1 then [Close('}')] else [Comma] + Body(fs[k + 1..]) + [Close('}')]
  }

  lemma BracedSplit(fs: Fields, k: nat)
    requires k < |fs|
    ensures Braced(fs) == [Open('{')] + Lead(fs[..k]) + [Key(fs[k].0)] + ([fs[k].1] + TailTokens(fs, k))
  {
    hide Lead, Body;
    var n := |fs|;
    BodyFrom(fs, 0);
    assert fs[0..] == fs && fs[0..n - 1] == fs[..n - 1];
    if k == n - 1 {
      RegroupLast(Open('{'), Lead(fs[..k]), Key(fs[k].0), fs[k].1, Close('}'));
    } else {
      var mid, last := fs[k + 1..n - 1], fs[n - 1];
      LeadSplit(fs, k);
      BodyFrom(fs, k + 1);
      Regroup(Open('{'), Lead(fs[..k]), Key(fs[k].0), fs[k].1, Lead(mid), [Key(last.0), last.1], Close('}'));
    }
  }

  lemma BodyFrom(fs: Fields, k: nat)
    requires k < |fs|
    ensures var last := fs[|fs| - 1]; Body(fs[k..]) == Lead(fs[k..|fs| - 1]) + [Key(last.0), last.1]
  {
    hide Lead;
    var n := |fs| - k - 1;
    assert fs[k..][..n] == fs[k..|fs| - 1] && fs[k..][n] == fs[|fs| - 1];
  }

  lemma LeadSplit(fs: Fields, k: nat)
    requires k < |fs| - 1
    ensures Lead(fs[..|fs| - 1]) == Lead(fs[..k]) + ([Key(fs[k].0), fs[k].1, Comma] + Lead(fs[k + 1..|fs| - 1]))
  {
    var rest := [fs[k]] + fs[k + 1..|fs| - 1];
    assert fs[..|fs| - 1] == fs[..k] + rest;
    LeadAppend(fs[..k], rest);
    assert rest[1..] == fs[k + 1..|fs| - 1];
  }

  lemma Regroup(o: Token, a: seq<Token>, k: Token, v: Token, m: seq<Token>, l: seq<Token>, z: Token)
    ensures [o] + ((a + ([k, v, Comma] + m)) + l) + [z] == [o] + a + [k] + ([v] + ([Comma] + (m + l) + [z]))
  {
  }

  lemma RegroupLast(o: Token, a: seq<Token>, k: Token, v: Token, z: Token)
    ensures [o] + (a + [k, v]) + [z] == [o] + a + [k] + ([v] + [z])
  {
  }

  // ----- looking values up -----

  lemma SkipSpaceNone(s: string)
    requires s != [] && !IsAsciiSpace(s[0])
    ensures SkipSpace(s) == s
  {
  }

  lemma {:induction false} TakeDigitsExact(d: string, rest: string)
    requires (forall i :: 0 <= i < |d| ==> IsDigit(d[i])) && rest != [] && !IsDigit(rest[0])
    ensures TakeDigits(d + rest) == d
  {
    if d == [] {
      assert d + rest == rest;
    } else {
      TakeDigitsExact(d[1..], rest);
      assert (d + rest)[1..] == d[1..] + rest;
    }
  }

  /** Looking a key up in a well-placed document lands on its value. */
  lemma AfterKeyIs(pre: seq<Token>, key: string, post: seq<Token>)
    requires WellPlaced(pre + [Key(key)] + post) && key !in Keys(pre)
    ensures AfterKey(Render(pre + [Key(key)] + post), key) == Some(Render(post))
  {
    hide Render, Find, WellPlaced;
    FindKey(pre, key, post);
    DropPrefix(Render(pre), Needle(key), Render(post));
  }

  lemma DropPrefix(a: string, b: string, c: string)
    ensures (a + b + c)[|a| + |b|..] == c
  {
  }

  /** The text after field `k` of an object: its value, then a comma or the closing brace. */
  lemma FieldLookup(fs: Fields, k: nat) returns (rest: string)
    requires GoodFields(fs) && k < |fs| && Lacks(fs[..k], fs[k].0)
    ensures AfterKey(Render(Braced(fs)), fs[k].0) == Some(RenderToken(fs[k].1) + rest)
    ensures rest != [] && (rest[0] == ',' || rest[0] == '}')
  {
    var pre, post := [Open('{')] + Lead(fs[..k]), [fs[k].1] + TailTokens(fs, k);
    BracedSplit(fs, k);
    BracedPlaced(fs);
    LeadPlaced(fs[..k]);
    KeysAppend([Open('{')], Lead(fs[..k]), fs[k].0);
    AfterKeyIs(pre, fs[k].0, post);
    rest := Render(TailTokens(fs, k));
    assert post[1..] == TailTokens(fs, k);
    FirstChar(TailTokens(fs, k));
  }

  lemma FirstChar(ts: seq<Token>)
    requires ts != []
    ensures Render(ts) != [] && Render(ts)[0] == RenderToken(ts[0])[0]
  {
  }

  lemma FieldU64(fs: Fields, k: nat, n: U64)
    requires GoodFields(fs) && k < |fs| && Lacks(fs[..k], fs[k].0) && fs[k].1 == Num(n)
    ensures ExtractU64(Render(Braced(fs)), fs[k].0) == Some(n)
  {
    hide Render, Braced, AfterKey, Value, GoodFields, Lacks;
    var rest := FieldLookup(fs, k);
    NumberReads(n, rest);
  }

  lemma NumberReads(n: U64, rest: string)
    requires rest != [] && !IsDigit(rest[0])
    ensures var digits := TakeDigits(SkipSpace(RenderToken(Num(n)) + rest));
            digits != [] && Value(digits) == n
  {
    hide Value;
    assert IsDigit(Decimal(n)[0]);
    SkipSpaceNone(Decimal(n) + rest);
    TakeDigitsExact(Decimal(n), rest);
    DecimalRoundTrip(n);
  }

  lemma FieldBool(fs: Fields, k: nat, b: bool)
    requires GoodFields(fs) && k < |fs| && Lacks(fs[..k], fs[k].0) && fs[k].1 == Bool(b)
    ensures ExtractBool(Render(Braced(fs)), fs[k].0) == Some(b)
  {
    hide Render, Braced, AfterKey, GoodFields, Lacks;
    var rest := FieldLookup(fs, k);
    BoolReads(b, rest);
  }

  lemma BoolReads(b: bool, rest: string)
    ensures var text := SkipSpace(RenderToken(Bool(b)) + rest);
            if b then "true" <= text else "false" <= text && !("true" <= text)
  {
    var text := RenderToken(Bool(b)) + rest;
    assert text[0] == if b then 't' else 'f';
    SkipSpaceNone(text);
  }

  lemma FieldString(fs: Fields, k: nat, name: string)
    requires GoodFields(fs) && k < |fs| && Lacks(fs[..k], fs[k].0) && fs[k].1 == Str(name)
    ensures ExtractString(Render(Braced(fs)), fs[k].0) == Some(Seen(name))
  {
    hide Render, Braced, AfterKey, GoodFields, Lacks, Escape, Unescape, Seen;
    var rest := FieldLookup(fs, k);
    var text := RenderToken(Str(name)) + rest;
    SkipSpaceNone(text);
    assert text[1..] == Escape(name) + "\"" + rest;
    UnescapeEscape(name, rest);
  }

  /** A named object or array is cut out whole. */
  lemma SliceLookup(pre: seq<Token>, key: string, ts: seq<Token>, post: seq<Token>, open: char, close: char)
    requires WellPlaced(pre + [Key(key)] + ([Open(open)] + ts + [Close(close)] + post)) && key !in Keys(pre)
    requires AllQuiet(ts, open, close) && IsBracket(open) && IsBracket(close) && open != close
    ensures BracketedSlice(Render(pre + [Key(key)] + ([Open(open)] + ts + [Close(close)] + post)), key, open, close)
              == Some(Render([Open(open)] + ts + [Close(close)]))
  {
    var group := [Open(open)] + ts + [Close(close)];
    AfterKeyIs(pre, key, group + post);
    RenderAppend(group, post);
    RenderGroup(ts, open, close);
    MatchGroup(ts, Render(post), open, close);
    SkipSpaceNone(Render(group) + Render(post));
  }

  lemma RenderGroup(ts: seq<Token>, open: char, close: char)
    ensures Render([Open(open)] + ts + [Close(close)]) == [open] + Render(ts) + [close]
  {
    RenderAppend([Open(open)], ts);
    RenderAppend([Open(open)] + ts, [Close(close)]);
    RenderOne(Open(open));
    RenderOne(Close(close));
  }

  lemma RenderOne(t: Token)
    ensures Render([t]) == RenderToken(t)
  {
    assert [t][1..] == [];
  }

  // ----- the sections -----

  lemma LacksAppend(a: Fields, b: Fields, key: string)
    requires Lacks(a, key) && Lacks(b, key)
    ensures Lacks(a + b, key)
  {
  }

  lemma BrokerGood(s: Snapshot)
    ensures GoodFields(BrokerFields(s))
  {
    hide GoodField;
    SpanGood(s);
    SizesGood(s);
    TrafficGood(s.counters);
    ReapsGood(s.counters);
  }

  lemma SpanGood(s: Snapshot)
    ensures GoodFields(BrokerSpan(s))
  {
  }

  lemma SizesGood(s: Snapshot)
    ensures GoodFields(BrokerSizes(s))
  {
    hide IsName;
    RecordNames();
    RecoveryNames();
  }

  lemma RecordNames()
    ensures IsName("durable_record_bytes") && IsName("durable_record_count")
  {
  }

  lemma RecoveryNames()
    ensures IsName("segment_count") && IsName("recovery_truncated_bytes")
  {
  }

  lemma TrafficGood(c: Counters)
    ensures GoodFields(BrokerTraffic(c))
  {
  }

  lemma ReapsGood(c: Counters)
    ensures GoodFields(BrokerReaps(c))
  {
  }

  lemma ConfigGood(c: EngineConfig)
    ensures GoodFields(ConfigFields(c))
  {
    hide GoodField;
    BoundsGood(c);
    ConsumersGood(c);
    LimitsGood(c);
  }

  lemma BoundsGood(c: EngineConfig)
    ensures GoodFields(ConfigBounds(c))
  {
  }

  lemma ConsumersGood(c: EngineConfig)
    ensures GoodFields(ConfigConsumers(c))
  {
    hide IsName;
    CreditNames();
    GroupNames();
  }

  lemma CreditNames()
    ensures IsName("consumer_credit") && IsName("consumer_credit_bytes") && IsName("max_deliver")
  {
  }

  lemma GroupNames()
    ensures IsName("max_groups") && IsName("group_idle_evict_nanos")
  {
  }

  lemma LimitsGood(c: EngineConfig)
    ensures GoodFields(ConfigLimits(c))
  {
    hide IsName;
    NanosNames();
    BudgetNames();
  }

  lemma NanosNames()
    ensures IsName("visibility_nanos") && IsName("hard_cap_nanos") && IsName("disk_full_policy")
  {
  }

  lemma BudgetNames()
    ensures IsName("ram_ceiling_bytes") && IsName("daily_physical_write_budget_bytes")
  {
  }

  lemma SegmentsGood(s: Snapshot)
    ensures GoodFields(SegmentFields(s))
  {
  }

  lemma ResilienceGood(s: Snapshot)
    ensures GoodFields(ResilienceFields(s))
  {
  }

  lemma DlqGood(s: Snapshot)
    ensures GoodFields(DlqFields(s))
  {
  }

  lemma RowGood(flushed: U64, g: Group)
    ensures GoodFields(RowFields(flushed, g))
  {
  }

  /** The three names looked up in the whole document; none of them is a field of the broker, the segments or
      a consumer row. */
  predicate Section(key: string) {
    key == "segments" || key == "consumers" || key == "resilience"
  }

  lemma SectionsLack(s: Snapshot, g: Group, key: string)
    requires Section(key)
    ensures Lacks(BrokerFields(s), key) && Lacks(SegmentFields(s), key) && Lacks(RowFields(s.flushed, g), key)
  {
    LacksAppend(BrokerSpan(s), BrokerSizes(s), key);
    LacksAppend(BrokerSpan(s) + BrokerSizes(s), BrokerTraffic(s.counters), key);
    LacksAppend(BrokerSpan(s) + BrokerSizes(s) + BrokerTraffic(s.counters), BrokerReaps(s.counters), key);
  }

  lemma ObjectPlaced(key: string, fs: Fields)
    requires GoodFields(fs) && IsName(key)
    ensures WellPlaced(Object(key, fs))
    ensures forall k :: Lacks(fs, k) && k != key ==> k !in Keys(Object(key, fs))
  {
    BracedPlaced(fs);
    WellPlacedAppend([Key(key)], Braced(fs));
  }

  lemma {:induction false} RowsPlaced(s: Snapshot, groups: seq<Group>)
    ensures var rows := Rows(s.flushed, groups);
            && WellPlaced(rows) && AllQuiet(rows, '[', ']')
            && forall key :: Section(key) ==> key !in Keys(rows)
  {
    hide RowFields, Braced, Section, GoodFields, Lacks;
    if groups != [] {
      var row := Braced(RowFields(s.flushed, groups[0]));
      RowGood(s.flushed, groups[0]);
      BracedPlaced(RowFields(s.flushed, groups[0]));
      forall key | Section(key)
        ensures key !in Keys(row)
      {
        SectionsLack(s, groups[0], key);
      }
      if |groups| > 1 {
        RowsPlaced(s, groups[1..]);
        var tail := Rows(s.flushed, groups[1..]);
        WellPlacedAppend(row, [Comma]);
        WellPlacedAppend(row + [Comma], tail);
        forall key | Section(key)
          ensures key !in Keys(row + [Comma] + tail)
        {
          KeysAppend(row, [Comma], key);
          KeysAppend(row + [Comma], tail, key);
        }
      }
    }
  }

  lemma ListPlaced(s: Snapshot, key: string)
    requires IsName(key)
    ensures var list := List(key, Rows(s.flushed, s.groups));
            WellPlaced(list) && forall k :: Section(k) && k != key ==> k !in Keys(list)
  {
    hide Rows, Section;
    var rows := Rows(s.flushed, s.groups);
    RowsPlaced(s, s.groups);
    WellPlacedAppend([Key(key), Open('[')], rows);
    WellPlacedAppend([Key(key), Open('[')] + rows, [Close(']')]);
  }

  // ----- the whole document -----

  const VERSION_TOKENS := [Open('{'), Key("schema_version"), Num(1), Comma]

  lemma VersionPlaced(key: string)
    ensures WellPlaced(VERSION_TOKENS) && WellPlaced([Comma])
    ensures Section(key) ==> key !in Keys(VERSION_TOKENS)
    ensures key !in Keys([Comma])
  {
  }

  lemma BrokerPlaced(s: Snapshot)
    ensures WellPlaced(Object("broker", BrokerFields(s)))
    ensures forall key :: Section(key) ==> key !in Keys(Object("broker", BrokerFields(s)))
  {
    hide BrokerFields, GoodFields, Braced, SegmentFields, RowFields;
    BrokerGood(s);
    ObjectPlaced("broker", BrokerFields(s));
    forall key | Section(key)
      ensures key !in Keys(Object("broker", BrokerFields(s)))
    {
      SectionsLack(s, Group("", 0, 0), key);
    }
  }

  lemma BeforeSegmentsPlaced(s: Snapshot)
    ensures WellPlaced(BeforeSegments(s))
    ensures forall key :: Section(key) ==> key !in Keys(BeforeSegments(s))
  {
    hide BrokerFields, WellPlaced, Keys, Object, Section;
    BrokerPlaced(s);
    VersionPlaced("");
    var broker := Object("broker", BrokerFields(s));
    WellPlacedAppend(VERSION_TOKENS, broker);
    WellPlacedAppend(VERSION_TOKENS + broker, [Comma]);
    forall key | Section(key)
      ensures key !in Keys(BeforeSegments(s))
    {
      VersionPlaced(key);
      KeysAppend(VERSION_TOKENS, broker, key);
      KeysAppend(VERSION_TOKENS + broker, [Comma], key);
    }
  }

  lemma SegmentsPlaced(s: Snapshot)
    ensures WellPlaced(Object("segments", SegmentFields(s)))
    ensures forall key :: Section(key) && key != "segments" ==> key !in Keys(Object("segments", SegmentFields(s)))
  {
    hide SegmentFields, GoodFields, Braced;
    SegmentsGood(s);
    ObjectPlaced("segments", SegmentFields(s));
    forall key | Section(key) && key != "segments"
      ensures key !in Keys(Object("segments", SegmentFields(s)))
    {
      SectionsLack(s, Group("", 0, 0), key);
    }
  }

  lemma GroupsPlaced(s: Snapshot)
    ensures var list := [Comma] + List("groups", Rows(s.flushed, s.groups)) + [Comma];
            WellPlaced(list) && "resilience" !in Keys(list)
  {
    hide Rows;
    ListPlaced(s, "groups");
    var list := List("groups", Rows(s.flushed, s.groups));
    WellPlacedAppend([Comma], list);
    WellPlacedAppend([Comma] + list, [Comma]);
    KeysAppend([Comma], list, "resilience");
    KeysAppend([Comma] + list, [Comma], "resilience");
  }

  lemma AfterResiliencePlaced(s: Snapshot)
    ensures WellPlaced(AfterResilience(s))
  {
    hide DlqFields, ConfigFields, GoodFields, Braced;
    DlqGood(s);
    ConfigGood(s.config);
    var dlq, config := Object("dlq", DlqFields(s)), Object("config", ConfigFields(s.config));
    ObjectPlaced("dlq", DlqFields(s));
    ObjectPlaced("config", ConfigFields(s.config));
    WellPlacedAppend([Comma], dlq);
    WellPlacedAppend([Comma] + dlq, [Comma]);
    WellPlacedAppend([Comma] + dlq + [Comma], config);
    WellPlacedAppend([Comma] + dlq + [Comma] + config, [Close('}')]);
  }

  /** What stands before `"consumers":` and before `"resilience":`. */
  function BeforeConsumers(s: Snapshot): seq<Token> {
    BeforeSegments(s) + Object("segments", SegmentFields(s)) + [Comma]
  }

  function BeforeResilience(s: Snapshot): seq<Token> {
    BeforeConsumers(s) + List("consumers", Rows(s.flushed, s.groups))
    + ([Comma] + List("groups", Rows(s.flushed, s.groups)) + [Comma])
  }

  lemma PrefixesPlaced(s: Snapshot)
    ensures WellPlaced(BeforeConsumers(s)) && "consumers" !in Keys(BeforeConsumers(s))
    ensures WellPlaced(BeforeResilience(s)) && "resilience" !in Keys(BeforeResilience(s))
  {
    hide BeforeSegments, Object, List, WellPlaced, Rows, SegmentFields;
    BeforeSegmentsPlaced(s);
    SegmentsPlaced(s);
    ListPlaced(s, "consumers");
    GroupsPlaced(s);
    var a, b := BeforeSegments(s), Object("segments", SegmentFields(s));
    var c := List("consumers", Rows(s.flushed, s.groups));
    var d := [Comma] + List("groups", Rows(s.flushed, s.groups)) + [Comma];
    AppendPlaced(a, b, "consumers");
    AppendPlaced(a + b, [Comma], "consumers");
    AppendPlaced(a, b, "resilience");
    AppendPlaced(a + b, [Comma], "resilience");
    AppendPlaced(a + b + [Comma], c, "resilience");
    AppendPlaced(a + b + [Comma] + c, d, "resilience");
  }

  lemma AppendPlaced(a: seq<Token>, b: seq<Token>, key: string)
    requires WellPlaced(a) && (WellPlaced(b) || b == [Comma]) && key !in Keys(a) && key !in Keys(b)
    ensures WellPlaced(a + b) && key !in Keys(a + b)
  {
    WellPlacedAppend(a, b);
    KeysAppend(a, b, key);
  }

  lemma DocumentPlaced(s: Snapshot)
    ensures WellPlaced(AdminTokens(s))
    ensures AdminTokens(s) == BeforeResilience(s) + Object("resilience", ResilienceFields(s)) + AfterResilience(s)
  {
    hide BeforeSegments, Object, List, WellPlaced, AfterResilience, Rows, SegmentFields, ResilienceFields;
    PrefixesPlaced(s);
    ResilienceGood(s);
    ObjectPlaced("resilience", ResilienceFields(s));
    AfterResiliencePlaced(s);
    var a, r, z := BeforeResilience(s), Object("resilience", ResilienceFields(s)), AfterResilience(s);
    MiddleSplits(BeforeSegments(s) + Object("segments", SegmentFields(s)), List("consumers", Rows(s.flushed, s.groups)),
                 List("groups", Rows(s.flushed, s.groups)), r, z);
    WellPlacedAppend(a, r);
    WellPlacedAppend(a + r, z);
  }

  lemma MiddleSplits(a: seq<Token>, c: seq<Token>, g: seq<Token>, r: seq<Token>, z: seq<Token>)
    ensures a + ([Comma] + c + [Comma] + g + [Comma]) + r + z == a + [Comma] + c + ([Comma] + g + [Comma]) + r + z
  {
  }

  /** The two objects and the array the client cuts out of the document are the ones the broker rendered. */
  lemma Slices(s: Snapshot)
    ensures BracketedSlice(AdminBody(s), "segments", '{', '}') == Some(Render(Braced(SegmentFields(s))))
    ensures BracketedSlice(AdminBody(s), "resilience", '{', '}') == Some(Render(Braced(ResilienceFields(s))))
    ensures BracketedSlice(AdminBody(s), "consumers", '[', ']')
              == Some(Render([Open('[')] + Rows(s.flushed, s.groups) + [Close(']')]))
  {
    SegmentsSlice(s);
    ResilienceSlice(s);
    ConsumersSlice(s);
  }

  lemma SegmentsSlice(s: Snapshot)
    ensures BracketedSlice(AdminBody(s), "segments", '{', '}') == Some(Render(Braced(SegmentFields(s))))
  {
    hide BeforeSegments, Middle, AfterResilience, SegmentFields, Body, Rows, WellPlaced, Render, BracketedSlice, BeforeResilience;
    DocumentPlaced(s);
    BeforeSegmentsPlaced(s);
    SegmentsGood(s);
    BracedPlaced(SegmentFields(s));
    var r := Object("resilience", ResilienceFields(s));
    Cut(BeforeSegments(s), Key("segments"), Braced(SegmentFields(s)), Middle(s), r, AfterResilience(s));
    SliceLookup(BeforeSegments(s), "segments", Body(SegmentFields(s)), Middle(s) + r + AfterResilience(s), '{', '}');
  }

  lemma ResilienceSlice(s: Snapshot)
    ensures BracketedSlice(AdminBody(s), "resilience", '{', '}') == Some(Render(Braced(ResilienceFields(s))))
  {
    hide BeforeSegments, Middle, AfterResilience, ResilienceFields, Body, Rows, WellPlaced, Render, BracketedSlice, BeforeResilience;
    DocumentPlaced(s);
    PrefixesPlaced(s);
    ResilienceGood(s);
    BracedPlaced(ResilienceFields(s));
    CutLast(BeforeResilience(s), Key("resilience"), Braced(ResilienceFields(s)), AfterResilience(s));
    SliceLookup(BeforeResilience(s), "resilience", Body(ResilienceFields(s)), AfterResilience(s), '{', '}');
  }

  lemma ConsumersSlice(s: Snapshot)
    ensures BracketedSlice(AdminBody(s), "consumers", '[', ']')
              == Some(Render([Open('[')] + Rows(s.flushed, s.groups) + [Close(']')]))
  {
    hide BeforeSegments, AfterResilience, SegmentFields, Body, Rows, WellPlaced, Render, BracketedSlice;
    DocumentPlaced(s);
    PrefixesPlaced(s);
    RowsPlaced(s, s.groups);
    var rows := Rows(s.flushed, s.groups);
    var group := [Open('[')] + rows + [Close(']')];
    assert List("consumers", rows) == [Key("consumers")] + group;
    var d, r := [Comma] + List("groups", rows) + [Comma], Object("resilience", ResilienceFields(s));
    Cut(BeforeConsumers(s), Key("consumers"), group, d, r, AfterResilience(s));
    SliceLookup(BeforeConsumers(s), "consumers", rows, d + r + AfterResilience(s), '[', ']');
  }

  lemma Cut(pre: seq<Token>, k: Token, g: seq<Token>, a: seq<Token>, b: seq<Token>, c: seq<Token>)
    ensures pre + ([k] + g) + a + b + c == pre + [k] + (g + (a + b + c))
  {
  }

  lemma CutLast(pre: seq<Token>, k: Token, g: seq<Token>, a: seq<Token>)
    ensures pre + ([k] + g) + a == pre + [k] + (g + a)
  {
  }

  // ----- rows -----

  function RowOf(flushed: U64, g: Group): ConsumerRow {
    ConsumerRow(Seen(g.name), g.committed, SaturatingSub(flushed, g.committed), g.inFlight)
  }

  lemma RowReads(flushed: U64, g: Group)
    ensures ParseRow(Render(Braced(RowFields(flushed, g)))) == Ok(RowOf(flushed, g))
  {
    hide GoodFields, Render, Braced, ExtractU64, ExtractString;
    var fs := RowFields(flushed, g);
    RowGood(flushed, g);
    FieldString(fs, 0, g.name);
    FieldU64(fs, 1, g.committed);
    FieldU64(fs, 2, SaturatingSub(flushed, g.committed));
    FieldU64(fs, 3, g.inFlight);
  }

  function RowViews(flushed: U64, groups: seq<Group>): seq<ConsumerRow> {
    if groups == [] then [] else [RowOf(flushed, groups[0])] + RowViews(flushed, groups[1..])
  }

  lemma {:induction false} RowsRead(s: Snapshot, groups: seq<Group>)
    ensures ParseRows(Render(Rows(s.flushed, groups)) + "]") == Ok(RowViews(s.flushed, groups))
  {
    hide RowOf, Braced, RowFields, Render, ParseRows;
    ClosingBracket();
    if groups == [] {
      assert Render([]) + "]" == "]" by { RenderNothing(); }
    } else if |groups| == 1 {
      RowThenRest(s, groups[0], "]", []);
      assert groups[1..] == [];
    } else {
      var row, rows := Braced(RowFields(s.flushed, groups[0])), Rows(s.flushed, groups[1..]);
      RowsRead(s, groups[1..]);
      SkipComma(Render(rows) + "]");
      RowThenRest(s, groups[0], "," + (Render(rows) + "]"), RowViews(s.flushed, groups[1..]));
      RenderCommaSplit(row, rows);
      Regroup4(Render(row), ",", Render(rows), "]");
    }
  }

  lemma ClosingBracket()
    ensures ParseRows("]") == Ok([])
  {
    assert "]"[1..] == "";
  }

  lemma RenderNothing()
    ensures Render([]) == []
  {
  }

  lemma SkipComma(rest: string)
    ensures ParseRows("," + rest) == ParseRows(rest)
  {
    assert ("," + rest)[1..] == rest;
  }

  lemma RenderCommaSplit(a: seq<Token>, b: seq<Token>)
    ensures Render(a + [Comma] + b) == Render(a) + "," + Render(b)
  {
    RenderAppend(a, [Comma]);
    RenderAppend(a + [Comma], b);
    RenderOne(Comma);
  }

  lemma Regroup4(a: string, b: string, c: string, d: string)
    ensures a + b + c + d == a + (b + (c + d))
  {
  }

  lemma RowThenRest(s: Snapshot, g: Group, rest: string, views: seq<ConsumerRow>)
    requires ParseRows(rest) == Ok(views)
    ensures ParseRows(Render(Braced(RowFields(s.flushed, g))) + rest) == Ok([RowOf(s.flushed, g)] + views)
  {
    hide RowFields, Body, GoodFields, MatchLen, ParseRow, RowOf, Render;
    var fs := RowFields(s.flushed, g);
    RowGood(s.flushed, g);
    BracedPlaced(fs);
    RenderGroup(Body(fs), '{', '}');
    MatchGroup(Body(fs), rest, '{', '}');
    RowReads(s.flushed, g);
    var text := Render(Braced(fs)) + rest;
    assert text[..|Render(Braced(fs))|] == Render(Braced(fs)) && text[|Render(Braced(fs))|..] == rest;
  }

  // ----- the theorem -----

  /** The client's view of a broker state, names as the client sees them. */
  function ViewOf(s: Snapshot): AdminView {
    AdminView(1, !s.healthy, s.segmentCount, s.earliestRetained, s.flushed, s.counters.lastSkipOffset,
              s.counters.recordsSkipped,
              RowViews(s.flushed, s.groups))
  }

  lemma VersionReads(s: Snapshot)
    ensures ExtractU64(AdminBody(s), "schema_version") == Some(1)
  {
    hide AdminTokens, WellPlaced, ExtractU64;
    DocumentPlaced(s);
    TokensStart(s);
    VersionFirst(AdminTokens(s)[4..]);
  }

  lemma TokensStart(s: Snapshot)
    ensures |AdminTokens(s)| > 4
    ensures AdminTokens(s) == [Open('{')] + [Key("schema_version")] + ([Num(1)] + ([Comma] + AdminTokens(s)[4..]))
  {
    hide Object, Middle, AfterResilience;
    assert AdminTokens(s)[..4] == BeforeSegments(s)[..4] == [Open('{'), Key("schema_version"), Num(1), Comma];
  }

  lemma VersionFirst(rest: seq<Token>)
    requires WellPlaced([Open('{')] + [Key("schema_version")] + ([Num(1)] + ([Comma] + rest)))
    ensures ExtractU64(Render([Open('{')] + [Key("schema_version")] + ([Num(1)] + ([Comma] + rest))), "schema_version") == Some(1)
  {
    hide WellPlaced, Value, AfterKey;
    AfterKeyIs([Open('{')], "schema_version", [Num(1)] + ([Comma] + rest));
    RenderAppend([Num(1)], [Comma] + rest);
    RenderOne(Num(1));
    FirstChar([Comma] + rest);
    NumberReads(1, Render([Comma] + rest));
  }

  lemma SegmentReads(s: Snapshot)
    ensures var text := Render(Braced(SegmentFields(s)));
            && ExtractU64(text, "count") == Some(s.segmentCount)
            && ExtractU64(text, "earliest_retained_offset") == Some(s.earliestRetained)
            && ExtractU64(text, "head_offset") == Some(s.flushed)
  {
    hide GoodFields, Render, Braced, ExtractU64;
    var fs := SegmentFields(s);
    SegmentsGood(s);
    FieldU64(fs, 0, s.segmentCount);
    FieldU64(fs, 1, s.earliestRetained);
    FieldU64(fs, 2, s.flushed);
  }

  lemma ResilienceReads(s: Snapshot)
    ensures var text := Render(Braced(ResilienceFields(s)));
            && ExtractBool(text, "frozen") == Some(!s.healthy)
            && ExtractU64(text, "last_skip_offset") == Some(s.counters.lastSkipOffset)
            && ExtractU64(text, "records_skipped") == Some(s.counters.recordsSkipped)
  {
    hide GoodFields, Render, Braced, ExtractU64, ExtractBool;
    var fs := ResilienceFields(s);
    ResilienceGood(s);
    FieldBool(fs, 0, !s.healthy);
    FieldU64(fs, 1, s.counters.lastSkipOffset);
    FieldU64(fs, 2, s.counters.recordsSkipped);
  }

  lemma RowsArrayReads(s: Snapshot)
    ensures ParseRows(Render([Open('[')] + Rows(s.flushed, s.groups) + [Close(']')])) == Ok(ViewOf(s).consumers)
  {
    hide Rows, Render, RowViews;
    var rows := Rows(s.flushed, s.groups);
    RenderGroup(rows, '[', ']');
    RowsRead(s, s.groups);
    assert (['['] + Render(rows) + [']'])[1..] == Render(rows) + "]";
  }

  /** Round trip with no name confusion. For every broker state and every group name, whatever quotes, braces,
      backslashes or key-like text it contains, parsing the rendered document succeeds and returns exactly the
      broker's fields, one row per group in order. */
  lemma RoundTrip(s: Snapshot)
    ensures ParseAdminV1(AdminBody(s)) == Ok(ViewOf(s))
  {
    hide AdminBody, Render, ExtractU64, ExtractBool, BracketedSlice, ParseRows, Braced, Rows, SegmentFields, ResilienceFields;
    VersionReads(s);
    Slices(s);
    SegmentReads(s);
    ResilienceReads(s);
    RowsArrayReads(s);
  }

  /** The names in the view are the broker's own names exactly when every one of them is safe. */
  lemma NamesAreFaithful(s: Snapshot)
    ensures |ViewOf(s).consumers| == |s.groups|
    ensures (forall i :: 0 <= i < |s.groups| ==> ViewOf(s).consumers[i].name == s.groups[i].name)
              <==> (forall i :: 0 <= i < |s.groups| ==> SafeName(s.groups[i].name))
  {
    hide Seen, SafeName, RowViews;
    RowViewsAt(s.flushed, s.groups);
    forall i | 0 <= i < |s.groups|
      ensures ViewOf(s).consumers[i].name == s.groups[i].name <==> SafeName(s.groups[i].name)
    {
      SeenIffSafe(s.groups[i].name);
    }
  }

  lemma {:induction false} RowViewsAt(flushed: U64, groups: seq<Group>)
    ensures |RowViews(flushed, groups)| == |groups|
    ensures forall i :: 0 <= i < |groups| ==> RowViews(flushed, groups)[i] == RowOf(flushed, groups[i])
  {
    hide RowOf;
    if groups != [] {
      RowViewsAt(flushed, groups[1..]);
    }
  }
}
