/** JSON text as the broker renders it and as the admin client searches it. A text is a string of bytes, each
    byte held as the char of the same number. */
module JsonText {
  import opened Common

  // ----- rendering: strings -----

  function Ch(n: nat): (c: char)
    requires n < 256
    ensures c as int == n
  {
    n as char
  }

  /** The UTF-8 bytes of a character. */
  function Utf8(c: char): (s: string)
    ensures 1 <= |s| <= 4
    ensures c as int < 0x80 ==> s == [c]
    ensures c as int >= 0x80 ==> |s| >= 2 && forall i :: 0 <= i < |s| ==> 0x80 <= s[i] as int < 256
  {
    var n := c as int;
    if n < 0x80 then [c]
    else if n < 0x800 then [Ch(0xC0 + n / 64), Ch(0x80 + n % 64)]
    else if n < 0x10000 then [Ch(0xE0 + n / 4096), Ch(0x80 + n / 64 % 64), Ch(0x80 + n % 64)]
    else [Ch(0xF0 + n / 262144), Ch(0x80 + n / 4096 % 64), Ch(0x80 + n / 64 % 64), Ch(0x80 + n % 64)]
  }

  function HexDigit(n: nat): (c: char)
    requires n < 16
    ensures '0' <= c <= '9' || 'a' <= c <= 'f'
  {
    "0123456789abcdef"[n]
  }

  /** One character inside a JSON string: the two structural characters and the control characters escaped. */
  function EscapeChar(c: char): (s: string)
    ensures s != []
  {
    if c == '\\' then "\\\\"
    else if c == '"' then "\\\""
    else if c == '\n' then "\\n"
    else if c == '\r' then "\\r"
    else if c == '\t' then "\\t"
    else if c as int < 0x20 then "\\u00" + [HexDigit(c as int / 16), HexDigit(c as int % 16)]
    else Utf8(c)
  }

  function Escape(s: string): string {
    if s == [] then [] else EscapeChar(s[0]) + Escape(s[1..])
  }

  /** The escaper's loop, one character at a time. */
  method EscapeText(s: string) returns (out: string)
    ensures out == Escape(s)
  {
    hide EscapeChar;
    out := [];
    for i := 0 to |s|
      invariant out + Escape(s[i..]) == Escape(s)
    {
      assert s[i..][1..] == s[i + 1..];
      AppendAssoc(out, EscapeChar(s[i]), Escape(s[i + 1..]));
      out := out + EscapeChar(s[i]);
    }
  }

  // ----- rendering: numbers -----

  predicate IsDigit(c: char) {
    '0' <= c <= '9'
  }

  function Decimal(n: nat): (s: string)
    ensures s != [] && forall i :: 0 <= i < |s| ==> IsDigit(s[i])
  {
    if n < 10 then [Ch(48 + n)] else Decimal(n / 10) + [Ch(48 + n % 10)]
  }

  /** The value of a string of digits. */
  function Value(s: string): nat
    requires forall i :: 0 <= i < |s| ==> IsDigit(s[i])
  {
    if s == [] then 0
    else
      assert IsDigit(s[|s| - 1]);
      10 * Value(s[..|s| - 1]) + (s[|s| - 1] as int - 48)
  }

  lemma {:induction false} DecimalRoundTrip(n: nat)
    ensures Value(Decimal(n)) == n
  {
    if n < 10 {
      assert Decimal(n)[..0] == [];
    } else {
      DecimalRoundTrip(n / 10);
      assert Decimal(n)[..|Decimal(n)| - 1] == Decimal(n / 10);
    }
  }

  // ----- rendering: tokens -----

  datatype Token =
    | Open(c: char)
    | Close(c: char)
    | Comma
    | Key(name: string)
    | Num(n: int)
    | Bool(b: bool)
    | Str(s: string)

  function RenderToken(t: Token): (s: string)
    ensures s != []
  {
    match t
    case Open(c) => [c]
    case Close(c) => [c]
    case Comma => ","
    case Key(name) => "\"" + name + "\":"
    case Num(n) => if n < 0 then "-" + Decimal(-n) else Decimal(n)
    case Bool(b) => if b then "true" else "false"
    case Str(s) => "\"" + Escape(s) + "\""
  }

  function Render(ts: seq<Token>): string {
    if ts == [] then [] else RenderToken(ts[0]) + Render(ts[1..])
  }

  lemma {:induction false} RenderAppend(ts: seq<Token>, us: seq<Token>)
    ensures Render(ts + us) == Render(ts) + Render(us)
  {
    hide RenderToken;
    if ts == [] {
      assert ts + us == us;
    } else {
      RenderAppend(ts[1..], us);
      assert (ts + us)[1..] == ts[1..] + us;
      AppendAssoc(RenderToken(ts[0]), Render(ts[1..]), Render(us));
    }
  }

  predicate IsIdent(c: char) {
    'a' <= c <= 'z' || c == '_'
  }

  predicate IsName(key: string) {
    key != [] && forall c :: c in key ==> IsIdent(c)
  }

  lemma NameChars(key: string)
    requires IsName(key)
    ensures forall i :: 0 <= i < |key| ==> IsIdent(key[i])
  {
    forall i | 0 <= i < |key|
      ensures IsIdent(key[i])
    {
      assert key[i] in key;
    }
  }

  predicate IsBracket(c: char) {
    c == '{' || c == '}' || c == '[' || c == ']'
  }

  predicate Ends(t: Token) {
    t.Comma? || t.Close?
  }

  predicate Shaped(t: Token) {
    match t
    case Key(name) => IsName(name)
    case Open(c) => IsBracket(c)
    case Close(c) => IsBracket(c)
    case _ => true
  }

  /** Token lists as the renderer writes them: keys are names, brackets are brackets, and a string value is
      followed by a comma or a closing bracket. */
  ghost predicate WellPlaced(ts: seq<Token>) {
    && (forall i :: 0 <= i < |ts| ==> Shaped(ts[i]))
    && (forall i :: 0 <= i < |ts| && ts[i].Str? ==> i + 1 < |ts| && Ends(ts[i + 1]))
  }

  ghost function Keys(ts: seq<Token>): set<string> {
    set t | t in ts && t.Key? :: t.name
  }

  // ----- searching -----

  ghost predicate At(s: string, p: nat, needle: string) {
    p + |needle| <= |s| && s[p..p + |needle|] == needle
  }

  /** The position of the first occurrence of `needle`. */
  function Find(s: string, needle: string): (r: Option<nat>)
    ensures r.Some? ==> At(s, r.value, needle) && forall p: nat :: p < r.value ==> !At(s, p, needle)
    ensures r.None? ==> forall p: nat :: !At(s, p, needle)
  {
    if |needle| <= |s| && s[..|needle|] == needle then Some(0)
    else if s == [] then
      None
    else
      var r := Find(s[1..], needle);
      assert forall p: nat :: p > 0 && At(s, p, needle) ==> At(s[1..], p - 1, needle);
      assert r.Some? ==> At(s, r.value + 1, needle);
      if r.None? then None else Some(r.value + 1)
  }

  function Needle(key: string): string {
    "\"" + key + "\":"
  }

  lemma NeedleShape(s: string, p: nat, key: string)
    requires At(s, p, Needle(key)) && IsName(key)
    ensures s[p] == '"' && s[p + |key| + 1] == '"' && s[p + |key| + 2] == ':'
    ensures s[p + 1..p + 1 + |key|] == key
    ensures forall j :: p < j <= p + |key| ==> IsIdent(s[j])
  {
    NameChars(key);
    var n := Needle(key);
    var w := s[p..p + |n|];
    assert w[0] == s[p] && w[|key| + 1] == s[p + |key| + 1] && w[|key| + 2] == s[p + |key| + 2];
    assert s[p + 1..p + 1 + |key|] == w[1..1 + |key|] == n[1..1 + |key|] == key;
    forall j | p < j <= p + |key|
      ensures IsIdent(s[j])
    {
      assert s[j] == s[p + 1..p + 1 + |key|][j - p - 1] == key[j - p - 1];
    }
  }

  /** A quote inside escaped text is always preceded by a backslash. */
  lemma {:induction false} QuotesAreEscaped(s: string, q: nat)
    requires q < |Escape(s)| && Escape(s)[q] == '"'
    ensures q > 0 && Escape(s)[q - 1] == '\\'
  {
    var head := EscapeChar(s[0]);
    if q >= |head| {
      QuotesAreEscaped(s[1..], q - |head|);
    }
  }

  /** No occurrence of a key's needle starts inside any other token. */
  lemma NoStartInside(t: Token, rest: string, key: string, p: nat)
    requires IsName(key) && t != Key(key) && p < |RenderToken(t)|
    requires Shaped(t)
    requires t.Str? ==> rest != [] && rest[0] != ':' && !IsIdent(rest[0])
    ensures !At(RenderToken(t) + rest, p, Needle(key))
  {
    var s := RenderToken(t) + rest;
    match t
    case Key(name) => NoStartInKey(name, rest, key, p);
    case Str(v) => NoStartInString(v, rest, key, p);
    case _ =>
      assert s[p] == RenderToken(t)[p] != '"';
      if At(s, p, Needle(key)) {
        NeedleShape(s, p, key);
      }
  }

  lemma NoStartInKey(name: string, rest: string, key: string, p: nat)
    requires IsName(key) && IsName(name) && name != key && p < |name| + 3
    ensures !At(RenderToken(Key(name)) + rest, p, Needle(key))
  {
    var s := RenderToken(Key(name)) + rest;
    NameChars(name);
    assert s[|name| + 1] == '"' && s[|name| + 2] == ':';
    assert forall j :: 1 <= j <= |name| ==> s[j] == name[j - 1];
    assert s[1..1 + |name|] == name;
    if At(s, p, Needle(key)) {
      NeedleShape(s, p, key);
    }
  }

  lemma NoStartInString(v: string, rest: string, key: string, p: nat)
    requires IsName(key) && p < |Escape(v)| + 2
    requires rest != [] && rest[0] != ':' && !IsIdent(rest[0])
    ensures !At(RenderToken(Str(v)) + rest, p, Needle(key))
  {
    hide Escape;
    forall q | 0 <= q < |Escape(v)| && Escape(v)[q] == '"'
      ensures q > 0 && Escape(v)[q - 1] == '\\'
    {
      QuotesAreEscaped(v, q);
    }
    NoStartInQuoted(Escape(v), rest, key, p);
    AppendAssoc("\"" + Escape(v), "\"", rest);
  }

  lemma NoStartInQuoted(e: string, rest: string, key: string, p: nat)
    requires IsName(key) && p < |e| + 2
    requires forall q :: 0 <= q < |e| && e[q] == '"' ==> q > 0 && e[q - 1] == '\\'
    requires rest != [] && rest[0] != ':' && !IsIdent(rest[0])
    ensures !At("\"" + e + "\"" + rest, p, Needle(key))
  {
    var s := "\"" + e + "\"" + rest;
    assert s[|e| + 1] == '"' && s[|e| + 2] == rest[0];
    var q := p + |key| + 1;
    if q <= |e| {
      assert s[q] == e[q - 1] && s[q - 1] == e[q - 2];
    }
    if At(s, p, Needle(key)) {
      NeedleShape(s, p, key);
    }
  }

  /** No needle of a key that is not among `ts` starts anywhere inside the rendering of `ts`. */
  lemma {:induction false} NoEarlier(ts: seq<Token>, more: seq<Token>, key: string, p: nat)
    requires WellPlaced(ts + more) && IsName(key) && key !in Keys(ts) && p < |Render(ts)|
    ensures !At(Render(ts) + Render(more), p, Needle(key))
  {
    hide RenderToken, WellPlaced, At;
    var head, tail := RenderToken(ts[0]), Render(ts[1..]);
    var rest := tail + Render(more);
    AppendAssoc(head, tail, Render(more));
    WellPlacedTail(ts + more);
    assert (ts + more)[1..] == ts[1..] + more && (ts + more)[0] == ts[0];
    if p < |head| {
      RenderAppend(ts[1..], more);
      FirstCharAfterString(ts + more);
      NoStartInside(ts[0], rest, key, p);
    } else {
      assert Keys(ts[1..]) <= Keys(ts);
      NoEarlier(ts[1..], more, key, p - |head|);
      AtShift(head, rest, p, Needle(key));
    }
  }

  lemma AtShift(a: string, b: string, p: nat, needle: string)
    requires p >= |a|
    ensures At(a + b, p, needle) <==> At(b, p - |a|, needle)
  {
    if p + |needle| <= |a + b| {
      assert (a + b)[p..p + |needle|] == b[p - |a|..p - |a| + |needle|];
    }
  }

  lemma WellPlacedTail(ts: seq<Token>)
    requires WellPlaced(ts) && ts != []
    ensures WellPlaced(ts[1..])
  {
    forall i | 0 <= i < |ts[1..]| && ts[1..][i].Str?
      ensures i + 1 < |ts[1..]| && Ends(ts[1..][i + 1])
    {
      assert ts[1..][i] == ts[i + 1];
    }
  }

  lemma FirstCharAfterString(ts: seq<Token>)
    requires WellPlaced(ts) && ts != []
    ensures Shaped(ts[0])
    ensures ts[0].Str? ==> var rest := Render(ts[1..]); rest != [] && rest[0] != ':' && !IsIdent(rest[0])
  {
    if ts[0].Str? {
      assert Ends(ts[1]) && ts[1..][0] == ts[1];
      assert Shaped(ts[1]);
    }
  }

  /** The first `"key":` of a rendered document is where the first key token of that name stands, whatever the
      string values before it contain. */
  lemma FindKey(pre: seq<Token>, key: string, post: seq<Token>)
    requires WellPlaced(pre + [Key(key)] + post) && key !in Keys(pre)
    ensures Find(Render(pre + [Key(key)] + post), Needle(key)) == Some(|Render(pre)|)
    ensures Render(pre + [Key(key)] + post) == Render(pre) + Needle(key) + Render(post)
  {
    hide Render, RenderToken, At, Find, IsName, Needle, WellPlaced;
    var more := [Key(key)] + post;
    assert pre + [Key(key)] + post == pre + more;
    KeyIsName(pre, key, post);
    RenderAppend(pre, more);
    RenderKey(key, post);
    var s := Render(pre) + Render(more);
    AtHere(Render(pre), Needle(key), Render(post));
    forall p: nat | p < |Render(pre)|
      ensures !At(s, p, Needle(key))
    {
      NoEarlier(pre, more, key, p);
    }
    FindIs(s, |Render(pre)|, Needle(key));
    AppendAssoc(Render(pre), Needle(key), Render(post));
  }

  lemma KeyIsName(pre: seq<Token>, key: string, post: seq<Token>)
    requires WellPlaced(pre + [Key(key)] + post)
    ensures IsName(key)
  {
    hide IsName;
    assert Shaped((pre + [Key(key)] + post)[|pre|]);
  }

  lemma RenderKey(key: string, post: seq<Token>)
    ensures Render([Key(key)] + post) == Needle(key) + Render(post)
  {
    assert ([Key(key)] + post)[1..] == post;
  }

  lemma AtHere(a: string, needle: string, c: string)
    ensures At(a + (needle + c), |a|, needle)
  {
    assert (a + (needle + c))[|a|..|a| + |needle|] == needle;
  }

  lemma FindIs(s: string, p: nat, needle: string)
    requires At(s, p, needle) && forall q: nat :: q < p ==> !At(s, q, needle)
    ensures Find(s, needle) == Some(p)
  {
    hide At;
  }

  // ----- matching brackets -----

  /** The scanner that counts nesting and skips string contents. */
  datatype Scanner = Scanner(depth: int, inString: bool, escaped: bool) {

    function Step(c: char, open: char, close: char): Scanner {
      if inString then
        if escaped then this.(escaped := false)
        else if c == '\\' then this.(escaped := true)
        else if c == '"' then this.(inString := false)
        else this
      else if c == '"' then this.(inString := true)
      else if c == open then this.(depth := depth + 1)
      else if c == close then this.(depth := depth - 1)
      else this
    }

    /** Whether reading `c` closes the outermost bracket. */
    predicate Hits(c: char, open: char, close: char) {
      !inString && c != '"' && c != open && c == close && depth == 1
    }
  }

  function Outside(depth: int): Scanner {
    Scanner(depth, false, false)
  }

  /** How many characters of `s` run up to and including the bracket that closes the outermost one. */
  function MatchLen(s: string, st: Scanner, open: char, close: char): (r: Option<nat>)
    ensures r.Some? ==> 0 < r.value <= |s|
  {
    if s == [] then None
    else if st.Hits(s[0], open, close) then Some(1)
    else
      var r := MatchLen(s[1..], st.Step(s[0], open, close), open, close);
      if r.None? then None else Some(r.value + 1)
  }

  /** The scanner after reading all of `s` without closing the outermost bracket. */
  ghost function Run(s: string, st: Scanner, open: char, close: char): Option<Scanner> {
    if s == [] then Some(st)
    else if st.Hits(s[0], open, close) then None
    else Run(s[1..], st.Step(s[0], open, close), open, close)
  }

  lemma {:induction false} RunAppend(a: string, b: string, st: Scanner, open: char, close: char)
    requires Run(a, st, open, close).Some?
    ensures Run(a + b, st, open, close) == Run(b, Run(a, st, open, close).value, open, close)
  {
    if a == [] {
      assert a + b == b;
    } else {
      RunAppend(a[1..], b, st.Step(a[0], open, close), open, close);
      assert (a + b)[1..] == a[1..] + b;
    }
  }

  lemma {:induction false} RunMatch(a: string, b: string, st: Scanner, open: char, close: char)
    requires Run(a, st, open, close).Some?
    ensures var r := MatchLen(b, Run(a, st, open, close).value, open, close);
            MatchLen(a + b, st, open, close) == if r.None? then None else Some(|a| + r.value)
  {
    if a == [] {
      assert a + b == b;
    } else {
      RunMatch(a[1..], b, st.Step(a[0], open, close), open, close);
      assert (a + b)[1..] == a[1..] + b;
    }
  }

  ghost predicate Plain(s: string, open: char, close: char) {
    forall i :: 0 <= i < |s| ==> s[i] != '"' && s[i] != '\\' && s[i] != open && s[i] != close
  }

  lemma {:induction false} RunPlain(s: string, st: Scanner, open: char, close: char)
    requires Plain(s, open, close) && !st.escaped
    ensures Run(s, st, open, close) == Some(st)
  {
    if s != [] {
      assert s[0] != '"';
      RunPlain(s[1..], st, open, close);
    }
  }

  lemma RunEscapeChar(c: char, depth: int, open: char, close: char)
    ensures Run(EscapeChar(c), Scanner(depth, true, false), open, close) == Some(Scanner(depth, true, false))
  {
    var st := Scanner(depth, true, false);
    var s := EscapeChar(c);
    if s[0] == '\\' {
      assert st.Step(s[0], open, close).Step(s[1], open, close) == st;
      assert s[1..][1..] == s[2..];
      RunInString(s[2..], st, open, close);
    } else {
      RunInString(s, st, open, close);
    }
  }

  lemma {:induction false} RunInString(s: string, st: Scanner, open: char, close: char)
    requires forall i :: 0 <= i < |s| ==> s[i] != '"' && s[i] != '\\'
    requires st.inString && !st.escaped
    ensures Run(s, st, open, close) == Some(st)
  {
    if s != [] {
      assert s[0] != '"';
      RunInString(s[1..], st, open, close);
    }
  }

  lemma {:induction false} RunEscape(s: string, depth: int, open: char, close: char)
    ensures Run(Escape(s), Scanner(depth, true, false), open, close) == Some(Scanner(depth, true, false))
  {
    hide EscapeChar;
    if s != [] {
      RunEscapeChar(s[0], depth, open, close);
      RunEscape(s[1..], depth, open, close);
      RunAppend(EscapeChar(s[0]), Escape(s[1..]), Scanner(depth, true, false), open, close);
    }
  }

  predicate Quiet(t: Token, open: char, close: char) {
    (t.Open? || t.Close? ==> t.c != open && t.c != close && t.c != '"' && t.c != '\\') && (t.Key? ==> IsName(t.name))
  }

  /** A token other than the counted brackets leaves the scanner where it was. */
  lemma RunToken(t: Token, depth: int, open: char, close: char)
    requires Quiet(t, open, close) && IsBracket(open) && IsBracket(close)
    ensures Run(RenderToken(t), Outside(depth), open, close) == Some(Outside(depth))
  {
    match t
    case Str(s) =>
      RunEscape(s, depth, open, close);
      RunQuoted(Escape(s), depth, open, close);
    case Key(name) =>
      NameChars(name);
      RunInString(name, Scanner(depth, true, false), open, close);
      RunQuoted(name, depth, open, close);
      RunAppend("\"" + name + "\"", ":", Outside(depth), open, close);
      RunPlain(":", Outside(depth), open, close);
      assert RenderToken(t) == "\"" + name + "\"" + ":";
    case _ =>
      RunPlain(RenderToken(t), Outside(depth), open, close);
  }

  lemma RunQuoted(e: string, depth: int, open: char, close: char)
    requires Run(e, Scanner(depth, true, false), open, close) == Some(Scanner(depth, true, false))
    ensures Run("\"" + e + "\"", Outside(depth), open, close) == Some(Outside(depth))
  {
    var s := "\"" + e + "\"";
    assert s[1..] == e + "\"";
    RunAppend(e, "\"", Scanner(depth, true, false), open, close);
    assert "\""[1..] == "";
    assert Run("\"", Scanner(depth, true, false), open, close) == Some(Outside(depth));
  }

  ghost predicate AllQuiet(ts: seq<Token>, open: char, close: char) {
    forall i :: 0 <= i < |ts| ==> Quiet(ts[i], open, close)
  }

  lemma {:induction false} RunTokens(ts: seq<Token>, depth: int, open: char, close: char)
    requires AllQuiet(ts, open, close) && IsBracket(open) && IsBracket(close)
    ensures Run(Render(ts), Outside(depth), open, close) == Some(Outside(depth))
  {
    hide RenderToken;
    if ts != [] {
      RunToken(ts[0], depth, open, close);
      RunTokens(ts[1..], depth, open, close);
      RunAppend(RenderToken(ts[0]), Render(ts[1..]), Outside(depth), open, close);
    }
  }

  /** The bracket that opens a flat group is matched by the bracket that ends it. */
  lemma MatchGroup(ts: seq<Token>, rest: string, open: char, close: char)
    requires AllQuiet(ts, open, close) && IsBracket(open) && IsBracket(close) && open != close
    ensures var g := [open] + Render(ts) + [close];
            MatchLen(g + rest, Outside(0), open, close) == Some(|g|)
  {
    hide Render;
    RunTokens(ts, 1, open, close);
    MatchBracketed(Render(ts), rest, open, close);
  }

  lemma MatchBracketed(body: string, rest: string, open: char, close: char)
    requires Run(body, Outside(1), open, close) == Some(Outside(1))
    requires IsBracket(open) && IsBracket(close) && open != close
    ensures MatchLen([open] + body + [close] + rest, Outside(0), open, close) == Some(|body| + 2)
  {
    var s := [open] + body + [close] + rest;
    assert s[0] == open && s[1..] == body + ([close] + rest);
    RunMatch(body, [close] + rest, Outside(1), open, close);
  }
}
