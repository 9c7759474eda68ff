/** The admin client's dependency-free extractor for the `/admin` v1 document. */
module AdminParser {
  import opened Common
  import opened JsonText

  datatype AdminError = Missing(field: string) | UnsupportedVersion(version: nat) | Unterminated

  datatype ConsumerRow = ConsumerRow(name: string, committedOffset: nat, consumerLag: nat, inFlight: nat)
  datatype AdminView = AdminView(schemaVersion: nat, frozen: bool, segmentCount: nat, earliestRetainedOffset: nat,
                                 headOffset: nat, lastSkipOffset: nat, recordsSkipped: nat,
                                 consumers: seq<ConsumerRow>)

  // ----- scalars -----

  predicate IsAsciiSpace(c: char) {
    c == ' ' || c == '\t' || c == '\n' || c == '\r' || c == Ch(12)
  }

  /** Drops leading ASCII whitespace. */
  function SkipSpace(s: string): (r: string)
    ensures |r| <= |s| && r == s[|s| - |r|..]
    ensures r != [] ==> !IsAsciiSpace(r[0])
    ensures forall i :: 0 <= i < |s| - |r| ==> IsAsciiSpace(s[i])
  {
    if s != [] && IsAsciiSpace(s[0]) then SkipSpace(s[1..]) else s
  }

  /** What follows the first `"key":` of `scope`. */
  function AfterKey(scope: string, key: string): Option<string> {
    var at := Find(scope, Needle(key));
    if at.None? then None else Some(scope[at.value + |Needle(key)|..])
  }

  function TakeDigits(s: string): (r: string)
    ensures r <= s && forall i :: 0 <= i < |r| ==> IsDigit(r[i])
    ensures |r| < |s| ==> !IsDigit(s[|r|])
  {
    if s != [] && IsDigit(s[0]) then [s[0]] + TakeDigits(s[1..]) else []
  }

  function ExtractU64(scope: string, key: string): (r: Option<nat>)
    ensures r.Some? ==> r.value < U64_LIMIT
  {
    var rest := AfterKey(scope, key);
    if rest.None? then None
    else
      var digits := TakeDigits(SkipSpace(rest.value));
      if digits == [] || Value(digits) >= U64_LIMIT then None else Some(Value(digits))
  }

  function ExtractBool(scope: string, key: string): Option<bool> {
    var rest := AfterKey(scope, key);
    if rest.None? then None
    else
      var value := SkipSpace(rest.value);
      if "true" <= value then Some(true) else if "false" <= value then Some(false) else None
  }

  // ----- strings -----

  function Unescaped(c: char): char {
    if c == 'n' then '\n' else if c == 'r' then '\r' else if c == 't' then '\t' else c
  }

  /** The contents of a string literal whose opening quote was consumed; None when it does not end. */
  function Unescape(s: string): Option<string> {
    if s == [] then None
    else if s[0] == '"' then Some([])
    else if s[0] == '\\' then
      if |s| == 1 then None
      else
        var rest := Unescape(s[2..]);
        if rest.None? then None else Some([Unescaped(s[1])] + rest.value)
    else
      var rest := Unescape(s[1..]);
      if rest.None? then None else Some([s[0]] + rest.value)
  }

  function ExtractString(scope: string, key: string): Option<string> {
    var rest := AfterKey(scope, key);
    if rest.None? then None
    else
      var value := SkipSpace(rest.value);
      if value == [] || value[0] != '"' then None else Unescape(value[1..])
  }

  /** The scan as the client runs it: an index, an output string, one escape at a time. */
  method ScanString(rest: string) returns (r: Option<string>)
    ensures r == Unescape(rest)
  {
    var out: string := [];
    var i := 0;
    assert rest[0..] == rest;
    PrependLaws(out, '"', Unescape(rest));
    while i < |rest|
      invariant 0 <= i <= |rest|
      invariant Unescape(rest) == Prepend(out, Unescape(rest[i..]))
    {
      var c := rest[i];
      if c == '\\' {
        if i + 1 == |rest| {
          break;
        }
        assert rest[i..][2..] == rest[i + 2..];
        PrependLaws(out, Unescaped(rest[i + 1]), Unescape(rest[i + 2..]));
        out := out + [Unescaped(rest[i + 1])];
        i := i + 2;
      } else if c == '"' {
        assert out + [] == out;
        return Some(out);
      } else {
        assert rest[i..][1..] == rest[i + 1..];
        PrependLaws(out, c, Unescape(rest[i + 1..]));
        out := out + [c];
        i := i + 1;
      }
    }
    r := None;
  }

  ghost function Prepend(out: string, r: Option<string>): Option<string> {
    if r.None? then None else Some(out + r.value)
  }

  lemma PrependLaws(out: string, c: char, r: Option<string>)
    ensures Prepend([], r) == r
    ensures Prepend(out, if r.None? then None else Some([c] + r.value)) == Prepend(out + [c], r)
  {
    if r.Some? {
      assert [] + r.value == r.value;
      assert out + ([c] + r.value) == out + [c] + r.value;
    }
  }

  // ----- bracketed values -----

  /** The text of the object or array named `key`, from its opening bracket to the matching one. */
  function BracketedSlice(body: string, key: string, open: char, close: char): Option<string> {
    var rest := AfterKey(body, key);
    if rest.None? then None
    else
      var text := SkipSpace(rest.value);
      if text == [] || text[0] != open then None
      else
        var n := MatchLen(text, Outside(0), open, close);
        if n.None? then None else Some(text[..n.value])
  }

  /** The bracket scan as the client runs it, with its index, depth and string-state variables. */
  method ScanBrackets(text: string, open: char, close: char) returns (n: Option<nat>)
    requires open != '"' && close != '"' && open != close
    ensures n == MatchLen(text, Outside(0), open, close)
  {
    var depth, inString, escaped := 0, false, false;
    var i := 0;
    while i < |text|
      invariant 0 <= i <= |text|
      invariant MatchLen(text, Outside(0), open, close)
                  == Advance(i, MatchLen(text[i..], Scanner(depth, inString, escaped), open, close))
    {
      assert text[i..][1..] == text[i + 1..];
      var c := text[i];
      if inString {
        if escaped {
          escaped := false;
        } else if c == '\\' {
          escaped := true;
        } else if c == '"' {
          inString := false;
        }
      } else if c == '"' {
        inString := true;
      } else if c == open {
        depth := depth + 1;
      } else if c == close {
        depth := depth - 1;
        if depth == 0 {
          return Some(i + 1);
        }
      }
      i := i + 1;
    }
    n := None;
  }

  ghost function Advance(i: nat, n: Option<nat>): Option<nat> {
    if n.None? then None else Some(i + n.value)
  }

  // ----- the document -----

  function ParseRow(element: string): Result<ConsumerRow, AdminError> {
    var name := ExtractString(element, "name");
    if name.None? then Err(Missing("name")) else
    var committed := ExtractU64(element, "committed_offset");
    if committed.None? then Err(Missing("committed_offset")) else
    var lag := ExtractU64(element, "consumer_lag");
    if lag.None? then Err(Missing("consumer_lag")) else
    var inFlight := ExtractU64(element, "in_flight");
    if inFlight.None? then Err(Missing("in_flight")) else
    Ok(ConsumerRow(name.value, committed.value, lag.value, inFlight.value))
  }

  /** Every `{...}` element of an array text, in order; the first bad one is the error. */
  function ParseRows(s: string): Result<seq<ConsumerRow>, AdminError>
    decreases |s|
  {
    if s == [] then Ok([])
    else if s[0] != '{' then ParseRows(s[1..])
    else
      var n := MatchLen(s, Outside(0), '{', '}');
      if n.None? then Err(Unterminated)
      else
        var row := ParseRow(s[..n.value]);
        if row.Err? then Err(row.error)
        else
          var rest := ParseRows(s[n.value..]);
          if rest.Err? then rest else Ok([row.value] + rest.value)
  }

  /** The walk over the array as the client runs it. */
  method WalkRows(elements: string) returns (r: Result<seq<ConsumerRow>, AdminError>)
    ensures r == ParseRows(elements)
  {
    hide ParseRow, MatchLen;
    var rows: seq<ConsumerRow> := [];
    var i := 0;
    assert elements[0..] == elements;
    WithRowsLaws(rows, ConsumerRow("", 0, 0, 0), ParseRows(elements));
    while i < |elements|
      invariant 0 <= i <= |elements|
      invariant ParseRows(elements) == WithRows(rows, ParseRows(elements[i..]))
    {
      if elements[i] == '{' {
        var n := ScanBrackets(elements[i..], '{', '}');
        if n.None? {
          return Err(Unterminated);
        }
        assert elements[i..][n.value..] == elements[i + n.value..];
        var row := ParseRow(elements[i..][..n.value]);
        if row.Err? {
          return Err(row.error);
        }
        WithRowsLaws(rows, row.value, ParseRows(elements[i + n.value..]));
        rows := rows + [row.value];
        i := i + n.value;
      } else {
        assert elements[i..][1..] == elements[i + 1..];
        i := i + 1;
      }
    }
    WithRowsLaws(rows, ConsumerRow("", 0, 0, 0), Ok([]));
    r := Ok(rows);
  }

  ghost function WithRows(rows: seq<ConsumerRow>, r: Result<seq<ConsumerRow>, AdminError>): Result<seq<ConsumerRow>, AdminError> {
    if r.Err? then r else Ok(rows + r.value)
  }

  lemma WithRowsLaws(rows: seq<ConsumerRow>, row: ConsumerRow, r: Result<seq<ConsumerRow>, AdminError>)
    ensures WithRows([], r) == r && WithRows(rows, Ok([])) == Ok(rows)
    ensures WithRows(rows, if r.Err? then r else Ok([row] + r.value)) == WithRows(rows + [row], r)
  {
    assert rows + [] == rows;
    if r.Ok? {
      assert [] + r.value == r.value;
      assert rows + ([row] + r.value) == rows + [row] + r.value;
    }
  }

  function ParseAdminV1(body: string): Result<AdminView, AdminError> {
    var version := ExtractU64(body, "schema_version");
    if version.None? then Err(Missing("schema_version")) else
    if version.value != 1 then Err(UnsupportedVersion(version.value)) else
    var segments := BracketedSlice(body, "segments", '{', '}');
    if segments.None? then Err(Missing("segments")) else
    var resilience := BracketedSlice(body, "resilience", '{', '}');
    if resilience.None? then Err(Missing("resilience")) else
    var count := ExtractU64(segments.value, "count");
    if count.None? then Err(Missing("count")) else
    var earliest := ExtractU64(segments.value, "earliest_retained_offset");
    if earliest.None? then Err(Missing("earliest_retained_offset")) else
    var head := ExtractU64(segments.value, "head_offset");
    if head.None? then Err(Missing("head_offset")) else
    var frozen := ExtractBool(resilience.value, "frozen");
    if frozen.None? then Err(Missing("frozen")) else
    var lastSkip := ExtractU64(resilience.value, "last_skip_offset");
    if lastSkip.None? then Err(Missing("last_skip_offset")) else
    var skipped := ExtractU64(resilience.value, "records_skipped");
    if skipped.None? then Err(Missing("records_skipped")) else
    var elements := BracketedSlice(body, "consumers", '[', ']');
    if elements.None? then Err(Missing("consumers")) else
    var rows := ParseRows(elements.value);
    if rows.Err? then Err(rows.error) else
    Ok(AdminView(version.value, frozen.value, count.value, earliest.value, head.value, lastSkip.value,
                 skipped.value, rows.value))
  }
}
