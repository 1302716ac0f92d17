/** Which memory a selector names: the canonical JSON text of its criteria, whose hash names the memory
    (agency/memory/selectors.py).  Objects, strings and literals follow sections 3, 4, 6 and 7 of RFC 8259. */
module Selectors {
  import opened MemoryDisk

  // ----- JSON text of flat objects -----

  datatype Value = Text(text: string) | Integer(digits: string) | Word(word: string)

  datatype Member = Member(key: string, value: Value)

  const HEX: string := "0123456789abcdef"

  function Escape(c: char): string {
    if c == '"' then "\\\"" else if c == '\\' then "\\\\"
    else if c == '\n' then "\\n" else if c == '\r' then "\\r" else if c == '\t' then "\\t"
    else if c == '\U{0008}' then "\\b" else if c == '\U{000C}' then "\\f"
    else if c < ' ' then "\\u00" + [HEX[c as int / 16], HEX[c as int % 16]]
    else [c]
  }

  function Escaped(s: string): string {
    if s == "" then "" else Escape(s[0]) + Escaped(s[1..])
  }

  function Quote(s: string): string { "\"" + Escaped(s) + "\"" }

  function HexDigit(c: char): int {
    if '0' <= c <= '9' then c as int - '0' as int
    else if 'a' <= c <= 'f' then c as int - 'a' as int + 10
    else if 'A' <= c <= 'F' then c as int - 'A' as int + 10
    else -1
  }

  /** The character an escape stands for, and how much text it takes; `s` starts behind the backslash. */
  function Unescape(s: string): Option<(char, nat)> {
    if s == "" then None
    else if s[0] in {'"', '\\', '/'} then Some((s[0], 1))
    else if s[0] == 'n' then Some(('\n', 1)) else if s[0] == 'r' then Some(('\r', 1))
    else if s[0] == 't' then Some(('\t', 1)) else if s[0] == 'b' then Some(('\U{0008}', 1))
    else if s[0] == 'f' then Some(('\U{000C}', 1))
    else if s[0] == 'u' && |s| >= 5 && (forall i | 1 <= i < 5 :: HexDigit(s[i]) >= 0) then
      var code := ((HexDigit(s[1]) * 16 + HexDigit(s[2])) * 16 + HexDigit(s[3])) * 16 + HexDigit(s[4]);
      if 0xD800 <= code < 0xE000 then None else Some((code as char, 5))
    else None
  }

  /** How each character is printed: quote, backslash and the control characters with a short form by two characters,
      the other control characters by six, everything else by itself. */
  lemma EscapeExactly(c: char)
    ensures Escape('"') == "\\\"" && Escape('\\') == "\\\\" && Escape('\n') == "\\n" && Escape('\r') == "\\r"
    ensures Escape('\t') == "\\t" && Escape('\U{0008}') == "\\b" && Escape('\U{000C}') == "\\f"
    ensures c < ' ' && c !in {'\n', '\r', '\t', '\U{0008}', '\U{000C}'} ==>
              Escape(c) == "\\u00" + [if c < '\U{0010}' then '0' else '1', HEX[c as int % 16]]
    ensures c >= ' ' && c !in {'"', '\\'} ==> Escape(c) == [c]
  {}

  lemma HexExactly(i: nat)
    requires i < 16
    ensures HexDigit("0123456789abcdef"[i]) == i && HexDigit("0123456789ABCDEF"[i]) == i && HEX == "0123456789abcdef"
  {}

  /** Which escapes are read, and as what: the eight short ones, and four hexadecimal digits of no surrogate. */
  lemma UnescapeExactly(s: string)
    ensures Unescape(s).Some? ==> s != "" && s[0] in {'"', '\\', '/', 'n', 'r', 't', 'b', 'f', 'u'}
    ensures s != "" && s[0] in {'"', '\\', '/'} ==> Unescape(s) == Some((s[0], 1))
    ensures s != "" && s[0] == 'n' ==> Unescape(s) == Some(('\n', 1))
    ensures s != "" && s[0] == 'r' ==> Unescape(s) == Some(('\r', 1))
    ensures s != "" && s[0] == 't' ==> Unescape(s) == Some(('\t', 1))
    ensures s != "" && s[0] == 'b' ==> Unescape(s) == Some(('\U{0008}', 1))
    ensures s != "" && s[0] == 'f' ==> Unescape(s) == Some(('\U{000C}', 1))
  {}

  lemma UnescapeCode(s: string)
    requires s != "" && s[0] == 'u'
    ensures
      if |s| < 5 || exists i :: 1 <= i < 5 && HexDigit(s[i]) < 0 then Unescape(s).None?
      else
        var code := 4096 * HexDigit(s[1]) + 256 * HexDigit(s[2]) + 16 * HexDigit(s[3]) + HexDigit(s[4]);
        if 0xD800 <= code <= 0xDFFF then Unescape(s).None?
        else 0 <= code < 0x10000 && (code < 0xD800 || code > 0xDFFF) && Unescape(s) == Some((code as char, 5))
  {}

  /** Reads a string up to its closing quote; `s` starts behind the opening one. */
  function Unquote(s: string): (r: Option<(string, string)>)
    ensures r.Some? ==> |r.value.1| < |s|
    decreases |s|
  {
    if s == "" || s[0] < ' ' then None
    else if s[0] == '"' then Some(("", s[1..]))
    else if s[0] == '\\' then
      var e := Unescape(s[1..]);
      if e.None? then None else
        var rest := Unquote(s[1 + e.value.1..]);
        if rest.None? then None else Some(([e.value.0] + rest.value.0, rest.value.1))
    else
      var rest := Unquote(s[1..]);
      if rest.None? then None else Some(([s[0]] + rest.value.0, rest.value.1))
  }

  predicate Digits(s: string) { forall c | c in s :: '0' <= c <= '9' }

  predicate BareChar(c: char) { '0' <= c <= '9' || 'a' <= c <= 'z' || 'A' <= c <= 'Z' || c in {'-', '+', '.'} }

  /** The text of an integer as it is printed. */
  predicate IntegerText(s: string) {
    var d := if s != "" && s[0] == '-' then s[1..] else s;
    d != "" && Digits(d) && (d[0] == '0' ==> s == "0")
  }

  /** Zero, or a sign at most and digits of which the first is none: section 6 of RFC 8259 without fraction, exponent
      and minus zero. */
  lemma IntegerTextExactly(s: string)
    ensures IntegerText(s) <==>
      || s == "0"
      || exists sign, d :: sign in {"", "-"} && s == sign + d && d != "" && d[0] in "123456789" && Decimal(d)
  {
    DigitsExactly(s);
    if IntegerText(s) {
      var sign := if s[0] == '-' then "-" else "";
      var d := s[|sign|..];
      assert s == sign + d && Digits(d);
      DigitsExactly(d);
      assert d[0] in d;
      DigitExactly(d[0]);
    }
    if sign, d :| sign in {"", "-"} && s == sign + d && d != "" && d[0] in "123456789" && Decimal(d) {
      DigitsExactly(d);
      DigitExactly(d[0]);
      assert sign == "-" ==> s[0] == '-' && s[1..] == d;
      assert sign == "" ==> s == d;
    }
  }

  ghost predicate Decimal(s: string) { forall c | c in s :: c in "0123456789" }

  lemma DigitExactly(c: char)
    ensures c in "0123456789" <==> '0' <= c <= '9'
    ensures c in "123456789" <==> '1' <= c <= '9'
  {
    if '0' <= c <= '9' { assert "0123456789"[c as int - '0' as int] == c; }
    if '1' <= c <= '9' { assert "123456789"[c as int - '1' as int] == c; }
  }

  lemma DigitsExactly(s: string)
    ensures Digits(s) <==> Decimal(s)
  {
    forall c: char ensures c in "0123456789" <==> '0' <= c <= '9' { DigitExactly(c); }
  }

  predicate ValidValue(v: Value) {
    match v
    case Text(_) => true
    case Integer(digits) => IntegerText(digits)
    case Word(word) => word in {"true", "false", "null"}
  }

  /** A control character must not stand for itself in a string, nor may a string end without its quote. */
  lemma UnquoteRefuses(s: string)
    ensures s == "" || s[0] < ' ' ==> Unquote(s).None?
    ensures s != "" && s[0] == '"' ==> Unquote(s) == Some(("", s[1..]))
  {}

  function EncodeValue(v: Value): string {
    match v
    case Text(text) => Quote(text)
    case Integer(digits) => digits
    case Word(word) => word
  }

  function Head(m: Member): string { Quote(m.key) + ":" + EncodeValue(m.value) }

  /** The members of an object, up to and including the closing brace. */
  function EncodeMembers(ms: seq<Member>): string
    requires ms != []
  {
    Head(ms[0]) + if |ms| == 1 then "}" else "," + EncodeMembers(ms[1..])
  }

  function Encode(ms: seq<Member>): string { "{" + if ms == [] then "}" else EncodeMembers(ms) }

  function BareLength(s: string): (n: nat)
    ensures n <= |s|
  {
    if s == "" || !BareChar(s[0]) then 0 else 1 + BareLength(s[1..])
  }

  function ParseValue(s: string): (r: Option<(Value, string)>)
    ensures r.Some? ==> |r.value.1| < |s| && ValidValue(r.value.0)
  {
    if s == "" then None
    else if s[0] == '"' then
      var t := Unquote(s[1..]);
      if t.None? then None else Some((Text(t.value.0), t.value.1))
    else
      var n := BareLength(s);
      if s[..n] in {"true", "false", "null"} then Some((Word(s[..n]), s[n..]))
      else if IntegerText(s[..n]) then Some((Integer(s[..n]), s[n..]))
      else None
  }

  function ParseMembers(s: string): (r: Option<seq<Member>>)
    ensures r.Some? ==> forall m | m in r.value :: ValidValue(m.value)
    decreases |s|
  {
    if s == "" || s[0] != '"' then None else
      var k := Unquote(s[1..]);
      if k.None? || k.value.1 == "" || k.value.1[0] != ':' then None else
        var v := ParseValue(k.value.1[1..]);
        if v.None? || v.value.1 == "" then None
        else if v.value.1 == "}" then Some([Member(k.value.0, v.value.0)])
        else if v.value.1[0] != ',' then None
        else
          var rest := ParseMembers(v.value.1[1..]);
          if rest.None? then None else Some([Member(k.value.0, v.value.0)] + rest.value)
  }

  function Parse(s: string): (r: Option<seq<Member>>)
    ensures r.Some? ==> forall m | m in r.value :: ValidValue(m.value)
  {
    if s == "" || s[0] != '{' then None
    else if s == "{}" then Some([])
    else ParseMembers(s[1..])
  }

  // ----- parsing undoes printing -----

  lemma UnescapeEscape(c: char, rest: string)
    requires Escape(c)[0] == '\\'
    ensures var e := Unescape((Escape(c) + rest)[1..]);
            e.Some? && e.value.0 == c && 1 + e.value.1 == |Escape(c)|
  {
    var s := (Escape(c) + rest)[1..];
    assert s == Escape(c)[1..] + rest;
    if c < ' ' && c !in {'\n', '\r', '\t', '\U{0008}', '\U{000C}'} {
      assert s[0] == 'u' && s[1] == '0' && s[2] == '0';
      assert s[3] == HEX[c as int / 16] && s[4] == HEX[c as int % 16];
      HexRoundTrip(c as int / 16);
      HexRoundTrip(c as int % 16);
      var code := ((HexDigit(s[1]) * 16 + HexDigit(s[2])) * 16 + HexDigit(s[3])) * 16 + HexDigit(s[4]);
      assert code == c as int;
    }
  }

  lemma HexRoundTrip(d: nat)
    requires d < 16
    ensures HexDigit(HEX[d]) == d
  {}

  lemma UnquoteOne(c: char, tail: string, text: string, rest: string)
    requires Unquote(tail) == Some((text, rest))
    ensures Unquote(Escape(c) + tail) == Some(([c] + text, rest))
  {
    var all := Escape(c) + tail;
    assert all[|Escape(c)|..] == tail;
    assert all[0] == Escape(c)[0];
    if Escape(c)[0] == '\\' {
      UnescapeEscape(c, tail);
    }
  }

  lemma {:induction false} UnquoteQuote(s: string, rest: string)
    ensures Unquote(Escaped(s) + "\"" + rest) == Some((s, rest))
  {
    var all := Escaped(s) + "\"" + rest;
    if s == "" {
      assert all == "\"" + rest && all[1..] == rest;
    } else {
      var tail := Escaped(s[1..]) + "\"" + rest;
      assert all == Escape(s[0]) + tail;
      UnquoteQuote(s[1..], rest);
      UnquoteOne(s[0], tail, s[1..], rest);
      assert [s[0]] + s[1..] == s;
    }
  }

  lemma {:induction false} BareStops(s: string, rest: string)
    requires (forall c | c in s :: BareChar(c)) && rest != "" && !BareChar(rest[0])
    ensures BareLength(s + rest) == |s|
  {
    if s == "" {
      assert s + rest == rest;
    } else {
      assert (s + rest)[1..] == s[1..] + rest;
      BareStops(s[1..], rest);
    }
  }

  lemma IntegerTextIsBare(s: string)
    requires IntegerText(s)
    ensures forall c | c in s :: BareChar(c)
    ensures s[0] == '-' || '0' <= s[0] <= '9'
  {
    var d := if s[0] == '-' then s[1..] else s;
    assert d[0] in d;
    forall c | c in s ensures BareChar(c) {
      assert c == '-' || c in d;
    }
  }

  lemma ParseText(text: string, rest: string)
    ensures ParseValue(Quote(text) + rest) == Some((Text(text), rest))
  {
    var s := Quote(text) + rest;
    assert s[1..] == Escaped(text) + "\"" + rest;
    UnquoteQuote(text, rest);
  }

  lemma ParseBare(v: Value, bare: string, rest: string)
    requires ValidValue(v) && !v.Text? && bare == EncodeValue(v) && rest != "" && !BareChar(rest[0])
    ensures ParseValue(bare + rest) == Some((v, rest))
  {
    var s := bare + rest;
    if v.Integer? { IntegerTextIsBare(bare); }
    assert s[0] == bare[0] && bare[0] != '"';
    BareStops(bare, rest);
    assert s[..|bare|] == bare && s[|bare|..] == rest;
    assert v.Integer? ==> bare[0] !in {'t', 'f', 'n'};
  }

  lemma ParseEncodeValue(v: Value, rest: string)
    requires ValidValue(v) && rest != "" && !BareChar(rest[0])
    ensures ParseValue(EncodeValue(v) + rest) == Some((v, rest))
  {
    if v.Text? { ParseText(v.text, rest); } else { ParseBare(v, EncodeValue(v), rest); }
  }

  lemma KeyParses(key: string, rest: string)
    ensures (Quote(key) + rest)[0] == '"' && Unquote((Quote(key) + rest)[1..]) == Some((key, rest))
  {
    assert (Quote(key) + rest)[1..] == Escaped(key) + "\"" + rest;
    UnquoteQuote(key, rest);
  }

  lemma Regroup(q: string, e: string, end: string)
    ensures q + ":" + e + end == q + (":" + e + end)
    ensures (":" + e + end)[1..] == e + end
  {}

  lemma HeadParses(m: Member, end: string)
    requires ValidValue(m.value) && end != "" && !BareChar(end[0])
    ensures
      var s, afterKey := Head(m) + end, ":" + EncodeValue(m.value) + end;
      && s != "" && s[0] == '"' && Unquote(s[1..]) == Some((m.key, afterKey))
      && ParseValue(afterKey[1..]) == Some((m.value, end))
  {
    var e := EncodeValue(m.value);
    Regroup(Quote(m.key), e, end);
    KeyParses(m.key, ":" + e + end);
    ParseEncodeValue(m.value, end);
  }

  lemma {:induction false} ParseEncodeMembers(ms: seq<Member>)
    requires ms != [] && forall m | m in ms :: ValidValue(m.value)
    ensures ParseMembers(EncodeMembers(ms)) == Some(ms)
  {
    var m := ms[0];
    assert m in ms;
    var end := if |ms| == 1 then "}" else "," + EncodeMembers(ms[1..]);
    assert EncodeMembers(ms) == Head(m) + end;
    HeadParses(m, end);
    if |ms| > 1 {
      assert end[1..] == EncodeMembers(ms[1..]);
      ParseEncodeMembers(ms[1..]);
    }
    assert ms == [m] + ms[1..] && m == Member(m.key, m.value);
    assert |ms| == 1 ==> end == "}" && ms == [m];
    assert |ms| > 1 ==> end[0] == ',' && end != "}";
  }

  lemma ParseEncode(ms: seq<Member>)
    requires forall m | m in ms :: ValidValue(m.value)
    ensures Parse(Encode(ms)) == Some(ms)
  {
    if ms != [] {
      assert Encode(ms)[1..] == EncodeMembers(ms);
      ParseEncodeMembers(ms);
      assert |EncodeMembers(ms)| > 1;
    }
  }

  /** Printing is injective, so equal texts mean equal members. */
  lemma EncodeInjective(a: seq<Member>, b: seq<Member>)
    requires forall m | m in a :: ValidValue(m.value)
    requires forall m | m in b :: ValidValue(m.value)
    requires Encode(a) == Encode(b)
    ensures a == b
  {
    ParseEncode(a);
    ParseEncode(b);
  }

  // ----- sorted keys -----

  /** Python's order of strings. */
  predicate Less(a: string, b: string) {
    b != "" && (a == "" || a[0] < b[0] || (a[0] == b[0] && Less(a[1..], b[1..])))
  }

  lemma {:induction false} LessIrreflexive(a: string)
    ensures !Less(a, a)
  {
    if a != "" { LessIrreflexive(a[1..]); }
  }

  lemma {:induction false} LessTransitive(a: string, b: string, c: string)
    requires Less(a, b) && Less(b, c)
    ensures Less(a, c)
  {
    if a != "" && a[0] == b[0] && b[0] == c[0] { LessTransitive(a[1..], b[1..], c[1..]); }
  }

  predicate Increasing(ks: seq<string>) {
    forall i, j | 0 <= i < j < |ks| :: Less(ks[i], ks[j])
  }

  lemma {:induction false} IncreasingUnique(a: seq<string>, b: seq<string>)
    requires Increasing(a) && Increasing(b)
    requires forall k :: k in a <==> k in b
    ensures a == b
  {
    assert b != [] ==> b[0] in a;
    if a != [] {
      assert a[0] in b;
      if a[0] != b[0] {
        LessTransitive(a[0], b[0], a[0]);
        LessIrreflexive(a[0]);
        assert false;
      }
      LessIrreflexive(a[0]);
      forall k ensures k in a[1..] <==> k in b[1..] {
        assert k in a <==> k == a[0] || k in a[1..];
        assert k in b <==> k == b[0] || k in b[1..];
      }
      IncreasingUnique(a[1..], b[1..]);
    }
  }

  // ----- selectors -----

  datatype Scope = RunScope | RoutineScope | AgentScope | GroupScope | ChannelScope

  datatype Selector = Selector(scope: Scope, channel: Option<string>)

  /** What a selector is resolved against; `channels` are the configured ones. */
  datatype Context = Context(job: string, group: string, agent: string, routine: Option<string>, channels: set<string>)

  datatype Reason =
    | ChannelMisplaced | RoutineMissing | UnknownChannel | NotCanonical | WrongCriteria | WrongKeys | WrongChannel

  /** SHA-256 is taken to be injective, so a memory is named by the canonical text itself. */
  datatype Resolution = Resolved(canonical: string) | Refused(reason: Reason)

  function ScopeName(scope: Scope): string {
    match scope
    case RunScope => "run"
    case RoutineScope => "routine"
    case AgentScope => "agent"
    case GroupScope => "group"
    case ChannelScope => "channel"
  }

  predicate WellShaped(sel: Selector) { sel.scope.ChannelScope? || sel.channel.None? }

  function EffectiveMemory(manual: Option<Selector>, routine: Option<Selector>, agent: Option<Selector>): Selector {
    if manual.Some? then manual.value
    else if routine.Some? then routine.value
    else if agent.Some? then agent.value
    else Selector(RunScope, None)
  }

  /** The keys of a scope, in order. */
  function OwnKeys(scope: Scope): seq<string> {
    match scope
    case RunScope => ["job"]
    case RoutineScope => ["agent", "group", "routine"]
    case AgentScope => ["agent", "group"]
    case GroupScope => ["group"]
    case ChannelScope => ["channel"]
  }

  function SortedKeys(scope: Scope): seq<string> { OwnKeys(scope) + ["scope", "version"] }

  function OwnValues(sel: Selector, ctx: Context): (vs: seq<Value>)
    requires sel.scope.RoutineScope? ==> ctx.routine.Some?
    requires sel.scope.ChannelScope? ==> sel.channel.Some?
    ensures |vs| == |OwnKeys(sel.scope)| && forall v | v in vs :: v.Text?
  {
    match sel.scope
    case RunScope => [Text(ctx.job)]
    case RoutineScope => [Text(ctx.agent), Text(ctx.group), Text(ctx.routine.value)]
    case AgentScope => [Text(ctx.agent), Text(ctx.group)]
    case GroupScope => [Text(ctx.group)]
    case ChannelScope => [Text(sel.channel.value)]
  }

  function Zip(ks: seq<string>, vs: seq<Value>): seq<Member>
    requires |ks| == |vs|
  {
    seq(|ks|, i requires 0 <= i < |ks| => Member(ks[i], vs[i]))
  }

  /** The criteria in key order, as they are printed. */
  function Criteria(sel: Selector, ctx: Context): seq<Member>
    requires sel.scope.RoutineScope? ==> ctx.routine.Some?
    requires sel.scope.ChannelScope? ==> sel.channel.Some?
  {
    Zip(SortedKeys(sel.scope), OwnValues(sel, ctx) + [Text(ScopeName(sel.scope)), Integer("1")])
  }

  /** When resolving succeeds. */
  predicate Resolvable(sel: Selector, ctx: Context) {
    && WellShaped(sel) && (sel.scope.RoutineScope? ==> ctx.routine.Some?)
    && (sel.scope.ChannelScope? ==> sel.channel.Some? && sel.channel.value in ctx.channels)
  }

  /** `resolve_memory_selector` */
  function Resolve(sel: Selector, ctx: Context): (r: Resolution)
    ensures r.Resolved? <==> Resolvable(sel, ctx)
  {
    if !WellShaped(sel) then Refused(ChannelMisplaced)
    else if sel.scope.RoutineScope? && ctx.routine.None? then Refused(RoutineMissing)
    else if sel.scope.ChannelScope? && (sel.channel.None? || sel.channel.value !in ctx.channels)
    then Refused(UnknownChannel)
    else Resolved(Encode(Criteria(sel, ctx)))
  }

  function ExpectedKeys(scope: Scope): set<string> {
    {"version", "scope"} +
    match scope
    case RunScope => {"job"}
    case RoutineScope => {"group", "agent", "routine"}
    case AgentScope => {"group", "agent"}
    case GroupScope => {"group"}
    case ChannelScope => {"channel"}
  }

  function Keys(ms: seq<Member>): seq<string> { seq(|ms|, i requires 0 <= i < |ms| => ms[i].key) }

  /** `dict.get` */
  function Get(ms: seq<Member>, key: string): Option<Value> {
    if ms == [] then None else if ms[0].key == key then Some(ms[0].value) else Get(ms[1..], key)
  }

  /** What compares equal to the number one, and to an optional channel. */
  predicate IsOne(v: Value) { v == Integer("1") || v == Word("true") }
  predicate IsChannel(v: Value, channel: Option<string>) {
    v == if channel.Some? then Text(channel.value) else Word("null")
  }

  /** The checks on the decoded object. */
  function Check(sel: Selector, ms: seq<Member>): Option<Reason> {
    var version, scope, channel := Get(ms, "version"), Get(ms, "scope"), Get(ms, "channel");
    if version.None? || !IsOne(version.value) || scope != Some(Text(ScopeName(sel.scope))) then Some(WrongCriteria)
    else if (set m | m in ms :: m.key) != ExpectedKeys(sel.scope) then Some(WrongKeys)
    else if sel.scope.ChannelScope? && (channel.None? || !IsChannel(channel.value, sel.channel)) then Some(WrongChannel)
    else None
  }

  /** `resolved_memory_from_canonical` */
  function FromCanonical(sel: Selector, text: string): Resolution {
    if !WellShaped(sel) then Refused(ChannelMisplaced)
    else
      var parsed := Parse(text);
      if parsed.None? || !Increasing(Keys(parsed.value)) || Encode(parsed.value) != text then Refused(NotCanonical)
      else
        var problem := Check(sel, parsed.value);
        if problem.Some? then Refused(problem.value) else Resolved(text)
  }

  lemma {:induction false} LettersAreKept(s: string)
    requires forall i | 0 <= i < |s| :: 'a' <= s[i] <= 'z'
    ensures Escaped(s) == s
  {
    if s != "" {
      LettersAreKept(s[1..]);
      assert Escape(s[0]) == [s[0]] && s == [s[0]] + s[1..];
    }
  }

  /** `"key":value` */
  function Item(key: string, value: string): string { "\"" + key + "\"" + ":" + value }

  lemma HeadText(key: string, v: Value)
    requires forall i | 0 <= i < |key| :: 'a' <= key[i] <= 'z'
    ensures Head(Member(key, v)) == Item(key, EncodeValue(v))
  {
    LettersAreKept(key);
  }

  /** One more member in front. */
  lemma MemberText(key: string, text: string, rest: seq<Member>)
    requires rest != [] && forall i | 0 <= i < |key| :: 'a' <= key[i] <= 'z'
    ensures EncodeMembers([Member(key, Text(text))] + rest) == Item(key, Quote(text)) + ("," + EncodeMembers(rest))
    ensures Encode([Member(key, Text(text))] + rest) == "{" + (Item(key, Quote(text)) + ("," + EncodeMembers(rest)))
  {
    HeadText(key, Text(text));
    assert ([Member(key, Text(text))] + rest)[1..] == rest;
  }

  /** The members every text ends with. */
  function Tail(name: string): seq<Member> { [Member("scope", Text(name)), Member("version", Integer("1"))] }

  function Ending(name: string): string { Item("scope", "\"" + name + "\"") + ("," + (Item("version", "1") + "}")) }

  lemma TailText(name: string)
    requires forall i | 0 <= i < |name| :: 'a' <= name[i] <= 'z'
    ensures EncodeMembers(Tail(name)) == Ending(name)
  {
    LettersAreKept(name);
    HeadText("version", Integer("1"));
    MemberText("scope", name, [Member("version", Integer("1"))]);
    assert Tail(name) == [Member("scope", Text(name))] + [Member("version", Integer("1"))];
  }

  /** What comes before it. */
  lemma CriteriaParts(sel: Selector, ctx: Context)
    requires Resolvable(sel, ctx)
    ensures Criteria(sel, ctx) ==
      match sel.scope
      case RunScope => [Member("job", Text(ctx.job))] + Tail("run")
      case RoutineScope =>
        [Member("agent", Text(ctx.agent))] +
        ([Member("group", Text(ctx.group))] + ([Member("routine", Text(ctx.routine.value))] + Tail("routine")))
      case AgentScope => [Member("agent", Text(ctx.agent))] + ([Member("group", Text(ctx.group))] + Tail("agent"))
      case GroupScope => [Member("group", Text(ctx.group))] + Tail("group")
      case ChannelScope => [Member("channel", Text(sel.channel.value))] + Tail("channel")
  {}

  /** A member, and the text of those behind it. */
  function Joined(key: string, text: string, rest: string): string { Item(key, Quote(text)) + ("," + rest) }

  lemma Join(key: string, text: string, rest: seq<Member>, restText: string) returns (ms: seq<Member>)
    requires rest != [] && EncodeMembers(rest) == restText && forall i | 0 <= i < |key| :: 'a' <= key[i] <= 'z'
    ensures ms == [Member(key, Text(text))] + rest && ms != []
    ensures EncodeMembers(ms) == Joined(key, text, restText)
  {
    ms := [Member(key, Text(text))] + rest;
    MemberText(key, text, rest);
  }

  /** The text a memory is named by, written out. */
  function WrittenOut(sel: Selector, ctx: Context): string
    requires Resolvable(sel, ctx)
  {
    "{" +
    match sel.scope
    case RunScope => Joined("job", ctx.job, Ending("run"))
    case RoutineScope =>
      Joined("agent", ctx.agent, Joined("group", ctx.group, Joined("routine", ctx.routine.value, Ending("routine"))))
    case AgentScope => Joined("agent", ctx.agent, Joined("group", ctx.group, Ending("agent")))
    case GroupScope => Joined("group", ctx.group, Ending("group"))
    case ChannelScope => Joined("channel", sel.channel.value, Ending("channel"))
  }

  predicate Letters(s: string) { forall i | 0 <= i < |s| :: 'a' <= s[i] <= 'z' }

  lemma OneField(key: string, text: string, name: string) returns (ms: seq<Member>)
    requires Letters(key) && Letters(name)
    ensures ms == [Member(key, Text(text))] + Tail(name) && Encode(ms) == "{" + Joined(key, text, Ending(name))
    ensures EncodeMembers(ms) == Joined(key, text, Ending(name))
  {
    TailText(name);
    ms := Join(key, text, Tail(name), Ending(name));
  }

  lemma TwoFields(key: string, text: string, next: string, other: string, name: string) returns (ms: seq<Member>)
    requires Letters(key) && Letters(next) && Letters(name)
    ensures ms == [Member(key, Text(text))] + ([Member(next, Text(other))] + Tail(name))
    ensures Encode(ms) == "{" + Joined(key, text, Joined(next, other, Ending(name)))
    ensures EncodeMembers(ms) == Joined(key, text, Joined(next, other, Ending(name)))
  {
    var rest := OneField(next, other, name);
    ms := Join(key, text, rest, Joined(next, other, Ending(name)));
  }

  lemma ThreeFields(key: string, text: string, next: string, other: string, third: string, last: string, name: string)
      returns (ms: seq<Member>)
    requires Letters(key) && Letters(next) && Letters(third) && Letters(name)
    ensures ms == [Member(key, Text(text))] + ([Member(next, Text(other))] + ([Member(third, Text(last))] + Tail(name)))
    ensures Encode(ms) == "{" + Joined(key, text, Joined(next, other, Joined(third, last, Ending(name))))
  {
    var rest := TwoFields(next, other, third, last, name);
    ms := Join(key, text, rest, Joined(next, other, Joined(third, last, Ending(name))));
  }

  lemma RoutineText(sel: Selector, ctx: Context)
    requires Resolvable(sel, ctx) && sel.scope.RoutineScope?
    ensures Resolve(sel, ctx) == Resolved(WrittenOut(sel, ctx))
  {
    CriteriaParts(sel, ctx);
    var _ := ThreeFields("agent", ctx.agent, "group", ctx.group, "routine", ctx.routine.value, "routine");
  }

  lemma AgentText(sel: Selector, ctx: Context)
    requires Resolvable(sel, ctx) && sel.scope.AgentScope?
    ensures Resolve(sel, ctx) == Resolved(WrittenOut(sel, ctx))
  {
    CriteriaParts(sel, ctx);
    var _ := TwoFields("agent", ctx.agent, "group", ctx.group, "agent");
  }

  lemma ShortText(sel: Selector, ctx: Context)
    requires Resolvable(sel, ctx) && !sel.scope.RoutineScope? && !sel.scope.AgentScope?
    ensures Resolve(sel, ctx) == Resolved(WrittenOut(sel, ctx))
  {
    CriteriaParts(sel, ctx);
    match sel.scope
    case RunScope => var _ := OneField("job", ctx.job, "run");
    case GroupScope => var _ := OneField("group", ctx.group, "group");
    case ChannelScope => var _ := OneField("channel", sel.channel.value, "channel");
  }

  /** A memory is named by exactly the fields of its scope. */
  lemma CanonicalText(sel: Selector, ctx: Context)
    requires Resolvable(sel, ctx)
    ensures Resolve(sel, ctx) == Resolved(WrittenOut(sel, ctx))
  {
    if sel.scope.RoutineScope? { RoutineText(sel, ctx); }
    else if sel.scope.AgentScope? { AgentText(sel, ctx); }
    else { ShortText(sel, ctx); }
  }

  // ----- what the two functions have to do with each other -----

  lemma SortedKeysAreExpected(scope: Scope)
    ensures Increasing(SortedKeys(scope))
    ensures forall k :: k in SortedKeys(scope) <==> k in ExpectedKeys(scope)
  {}

  /** The members an accepted text prints. */
  ghost predicate Acceptable(sel: Selector, ms: seq<Member>) {
    && WellShaped(sel) && (forall m | m in ms :: ValidValue(m.value)) && Keys(ms) == SortedKeys(sel.scope)
    && IsOne(ms[|ms| - 1].value) && ms[|ms| - 2].value == Text(ScopeName(sel.scope))
    && (sel.scope.ChannelScope? ==> IsChannel(ms[0].value, sel.channel))
  }

  lemma GetSorted(scope: Scope, ms: seq<Member>)
    requires Keys(ms) == SortedKeys(scope)
    ensures Get(ms, "version") == Some(ms[|ms| - 1].value) && Get(ms, "scope") == Some(ms[|ms| - 2].value)
    ensures scope.ChannelScope? ==> Get(ms, "channel") == Some(ms[0].value)
  {
    SortedKeysAreExpected(scope);
    GetAt(ms, |ms| - 1, "version");
    GetAt(ms, |ms| - 2, "scope");
    assert scope.ChannelScope? ==> Keys(ms)[0] == "channel";
    GetAt(ms, 0, ms[0].key);
  }

  lemma {:induction false} GetAt(ms: seq<Member>, i: nat, key: string)
    requires i < |ms| && Increasing(Keys(ms)) && Keys(ms)[i] == key
    ensures Get(ms, key) == Some(ms[i].value)
  {
    if i > 0 {
      assert Less(Keys(ms)[0], Keys(ms)[i]);
      LessIrreflexive(key);
      assert Keys(ms[1..]) == Keys(ms)[1..];
      GetAt(ms[1..], i - 1, key);
    }
  }

  lemma KeysAsSet(ms: seq<Member>)
    ensures forall k :: k in (set m | m in ms :: m.key) <==> k in Keys(ms)
  {
    forall k ensures k in (set m | m in ms :: m.key) <==> k in Keys(ms) {
      if k in (set m | m in ms :: m.key) {
        var m :| m in ms && m.key == k;
        var i :| 0 <= i < |ms| && ms[i] == m;
        assert Keys(ms)[i] == k;
      }
      if k in Keys(ms) {
        var i :| 0 <= i < |ms| && Keys(ms)[i] == k;
        assert ms[i] in ms;
      }
    }
  }

  lemma CheckExactly(sel: Selector, ms: seq<Member>)
    requires WellShaped(sel) && Increasing(Keys(ms)) && forall m | m in ms :: ValidValue(m.value)
    ensures Check(sel, ms) == None <==> Acceptable(sel, ms)
  {
    KeysAsSet(ms);
    SortedKeysAreExpected(sel.scope);
    if (set m | m in ms :: m.key) == ExpectedKeys(sel.scope) {
      IncreasingUnique(Keys(ms), SortedKeys(sel.scope));
    }
    if Keys(ms) == SortedKeys(sel.scope) {
      assert (set m | m in ms :: m.key) == ExpectedKeys(sel.scope);
      GetSorted(sel.scope, ms);
    }
  }

  lemma AcceptsAcceptable(sel: Selector, ms: seq<Member>)
    requires Acceptable(sel, ms)
    ensures FromCanonical(sel, Encode(ms)) == Resolved(Encode(ms))
  {
    ParseEncode(ms);
    SortedKeysAreExpected(sel.scope);
    CheckExactly(sel, ms);
  }

  lemma AcceptedIsAcceptable(sel: Selector, text: string)
    requires FromCanonical(sel, text).Resolved?
    ensures Parse(text).Some? && Acceptable(sel, Parse(text).value) && Encode(Parse(text).value) == text
  {
    CheckExactly(sel, Parse(text).value);
  }

  /** A stored text is accepted exactly when it prints the expected keys in order, with a scope, a version and a
      channel that match; nothing is asked of the other values. */
  lemma AcceptedExactly(sel: Selector, text: string)
    ensures FromCanonical(sel, text).Resolved? <==> exists ms :: Acceptable(sel, ms) && text == Encode(ms)
    ensures FromCanonical(sel, text).Resolved? ==> FromCanonical(sel, text).canonical == text
  {
    if FromCanonical(sel, text).Resolved? { AcceptedIsAcceptable(sel, text); }
    if ms :| Acceptable(sel, ms) && text == Encode(ms) { AcceptsAcceptable(sel, ms); }
  }

  lemma CriteriaShape(sel: Selector, ctx: Context)
    requires Resolvable(sel, ctx)
    ensures
      var ms, own := Criteria(sel, ctx), OwnValues(sel, ctx);
      && Keys(ms) == SortedKeys(sel.scope)
      && (forall i | 0 <= i < |own| :: ms[i].value == own[i])
      && |ms| == |own| + 2
      && ms[|own|].value == Text(ScopeName(sel.scope)) && ms[|own| + 1].value == Integer("1")
  {}

  lemma CriteriaAreAcceptable(sel: Selector, ctx: Context)
    requires Resolvable(sel, ctx)
    ensures Acceptable(sel, Criteria(sel, ctx))
  {
    CriteriaShape(sel, ctx);
    var ms := Criteria(sel, ctx);
    forall m | m in ms ensures ValidValue(m.value) {
      var i :| 0 <= i < |ms| && ms[i] == m;
      if i < |ms| - 2 { assert OwnValues(sel, ctx)[i] in OwnValues(sel, ctx); }
    }
  }

  /** Reading back what was stored names the same memory. */
  lemma RoundTrip(sel: Selector, ctx: Context)
    requires Resolvable(sel, ctx)
    ensures FromCanonical(sel, Resolve(sel, ctx).canonical) == Resolve(sel, ctx)
  {
    CriteriaAreAcceptable(sel, ctx);
    AcceptsAcceptable(sel, Criteria(sel, ctx));
  }

  /** The fields of the scope, and only those. */
  predicate Agree(sel: Selector, ctx: Context, other: Selector, otherCtx: Context) {
    && sel.scope == other.scope
    && match sel.scope
       case RunScope => ctx.job == otherCtx.job
       case RoutineScope => ctx.group == otherCtx.group && ctx.agent == otherCtx.agent &&
         ctx.routine == otherCtx.routine
       case AgentScope => ctx.group == otherCtx.group && ctx.agent == otherCtx.agent
       case GroupScope => ctx.group == otherCtx.group
       case ChannelScope => sel.channel == other.channel
  }

  lemma SameMemoryAgrees(sel: Selector, ctx: Context, other: Selector, otherCtx: Context)
    requires Resolvable(sel, ctx) && Resolvable(other, otherCtx)
    requires Encode(Criteria(sel, ctx)) == Encode(Criteria(other, otherCtx))
    ensures Agree(sel, ctx, other, otherCtx)
  {
    CriteriaAreAcceptable(sel, ctx);
    CriteriaAreAcceptable(other, otherCtx);
    CriteriaShape(sel, ctx);
    CriteriaShape(other, otherCtx);
    EncodeInjective(Criteria(sel, ctx), Criteria(other, otherCtx));
    ScopeNameInjective(sel.scope, other.scope);
    assert OwnValues(sel, ctx) == OwnValues(other, otherCtx);
    OwnValuesExactly(sel, ctx, other, otherCtx);
  }

  lemma AgreementIsSameMemory(sel: Selector, ctx: Context, other: Selector, otherCtx: Context)
    requires Resolvable(sel, ctx) && Resolvable(other, otherCtx) && Agree(sel, ctx, other, otherCtx)
    ensures Criteria(sel, ctx) == Criteria(other, otherCtx)
  {
    CriteriaShape(sel, ctx);
    CriteriaShape(other, otherCtx);
    OwnValuesExactly(sel, ctx, other, otherCtx);
  }

  /** Two selectors name the same memory exactly when they have one scope and agree on its fields. */
  lemma SameMemoryExactly(sel: Selector, ctx: Context, other: Selector, otherCtx: Context)
    requires Resolvable(sel, ctx) && Resolvable(other, otherCtx)
    ensures Resolve(sel, ctx) == Resolve(other, otherCtx) <==> Agree(sel, ctx, other, otherCtx)
  {
    if Encode(Criteria(sel, ctx)) == Encode(Criteria(other, otherCtx)) { SameMemoryAgrees(sel, ctx, other, otherCtx); }
    if Agree(sel, ctx, other, otherCtx) { AgreementIsSameMemory(sel, ctx, other, otherCtx); }
  }

  lemma ScopeNameInjective(a: Scope, b: Scope)
    requires ScopeName(a) == ScopeName(b)
    ensures a == b
  {
    assert ScopeName(a)[1] == ScopeName(b)[1] && ScopeName(a)[0] == ScopeName(b)[0];
  }

  lemma OwnValuesExactly(sel: Selector, ctx: Context, other: Selector, otherCtx: Context)
    requires Resolvable(sel, ctx) && Resolvable(other, otherCtx) && sel.scope == other.scope
    ensures OwnValues(sel, ctx) == OwnValues(other, otherCtx) <==> Agree(sel, ctx, other, otherCtx)
  {
    var a, b := OwnValues(sel, ctx), OwnValues(other, otherCtx);
    if a == b {
      assert a[0] == b[0];
      if sel.scope.RoutineScope? || sel.scope.AgentScope? { assert a[1] == b[1]; }
      if sel.scope.RoutineScope? { assert a[2] == b[2]; }
    }
  }

  /** Only strings before the version, which is the number one. */
  predicate Plain(ms: seq<Member>) {
    && ms != [] && ms[|ms| - 1].value == Integer("1")
    && forall i | 0 <= i < |ms| - 1 :: ms[i].value.Text?
  }

  lemma CriteriaArePlain(sel: Selector, ctx: Context)
    requires Resolvable(sel, ctx)
    ensures Plain(Criteria(sel, ctx))
  {
    CriteriaShape(sel, ctx);
    var ms, own := Criteria(sel, ctx), OwnValues(sel, ctx);
    forall i | 0 <= i < |ms| - 1 ensures ms[i].value.Text? {
      if i < |own| { assert own[i] in own; }
    }
  }

  /** Which accepted texts some context resolves to. */
  lemma ResolvableExactly(sel: Selector, text: string)
    ensures (exists ctx :: Resolve(sel, ctx) == Resolved(text)) <==>
              FromCanonical(sel, text).Resolved? && Plain(Parse(text).value)
  {
    if ctx :| Resolve(sel, ctx) == Resolved(text) {
      RoundTrip(sel, ctx);
      CriteriaAreAcceptable(sel, ctx);
      CriteriaArePlain(sel, ctx);
      ParseEncode(Criteria(sel, ctx));
    }
    if FromCanonical(sel, text).Resolved? && Plain(Parse(text).value) {
      AcceptedIsAcceptable(sel, text);
      var ctx := ContextOf(sel, Parse(text).value);
      assert Resolve(sel, ctx) == Resolved(text);
    }
  }

  lemma SameMembers(a: seq<Member>, b: seq<Member>)
    requires Keys(a) == Keys(b) && forall i | 0 <= i < |a| && i < |b| :: a[i].value == b[i].value
    ensures a == b
  {
    assert |Keys(a)| == |Keys(b)|;
    forall i | 0 <= i < |a| ensures a[i] == b[i] {
      assert Keys(a)[i] == Keys(b)[i];
    }
  }

  lemma ContextHasFields(sel: Selector, fields: seq<string>)
    requires WellShaped(sel) && |fields| == |OwnKeys(sel.scope)|
    requires sel.scope.ChannelScope? ==> sel.channel == Some(fields[0])
    ensures Resolve(sel, ContextWith(sel.scope, fields)).Resolved?
    ensures forall i | 0 <= i < |fields| :: OwnValues(sel, ContextWith(sel.scope, fields))[i] == Text(fields[i])
  {}

  /** The own values of plain members, as strings. */
  function FieldsOf(ms: seq<Member>): seq<string>
    requires Plain(ms) && |ms| >= 2
  {
    seq(|ms| - 2, i requires 0 <= i < |ms| - 2 => ms[i].value.text)
  }

  lemma FieldsFit(sel: Selector, ms: seq<Member>)
    requires Acceptable(sel, ms) && Plain(ms)
    ensures |ms| >= 2 && |FieldsOf(ms)| == |OwnKeys(sel.scope)|
    ensures sel.scope.ChannelScope? ==> sel.channel == Some(FieldsOf(ms)[0])
  {
    assert |Keys(ms)| == |SortedKeys(sel.scope)|;
    assert ms[0].value.Text?;
  }

  lemma ContextOf(sel: Selector, ms: seq<Member>) returns (ctx: Context)
    requires Acceptable(sel, ms) && Plain(ms)
    ensures Resolve(sel, ctx) == Resolved(Encode(ms))
  {
    FieldsFit(sel, ms);
    ctx := ContextWith(sel.scope, FieldsOf(ms));
    ContextHasFields(sel, FieldsOf(ms));
    CriteriaShape(sel, ctx);
    ValuesFit(sel, ctx, ms);
    SameMembers(Criteria(sel, ctx), ms);
  }

  lemma ValuesFit(sel: Selector, ctx: Context, ms: seq<Member>)
    requires Acceptable(sel, ms) && Plain(ms) && |ms| >= 2 && Resolvable(sel, ctx)
    requires |FieldsOf(ms)| == |OwnValues(sel, ctx)|
    requires forall i | 0 <= i < |FieldsOf(ms)| :: OwnValues(sel, ctx)[i] == Text(FieldsOf(ms)[i])
    ensures forall i | 0 <= i < |ms| && i < |Criteria(sel, ctx)| :: Criteria(sel, ctx)[i].value == ms[i].value
  {
    CriteriaShape(sel, ctx);
    PointwiseFit(Criteria(sel, ctx), OwnValues(sel, ctx), ms);
  }

  lemma PointwiseFit(made: seq<Member>, own: seq<Value>, ms: seq<Member>)
    requires Plain(ms) && |ms| == |own| + 2 == |made|
    requires forall i | 0 <= i < |own| :: made[i].value == own[i] == Text(FieldsOf(ms)[i])
    requires made[|own|].value == ms[|own|].value && made[|own| + 1].value == ms[|own| + 1].value
    ensures forall i | 0 <= i < |ms| :: made[i].value == ms[i].value
  {
    forall i | 0 <= i < |own| ensures made[i].value == ms[i].value {
      assert FieldsOf(ms)[i] == ms[i].value.text;
    }
  }

  function ContextWith(scope: Scope, fields: seq<string>): Context
    requires |fields| == |OwnKeys(scope)|
  {
    match scope
    case RunScope => Context(fields[0], "", "", None, {})
    case RoutineScope => Context("", fields[1], fields[0], Some(fields[2]), {})
    case AgentScope => Context("", fields[1], fields[0], None, {})
    case GroupScope => Context("", fields[0], "", None, {})
    case ChannelScope => Context("", "", "", None, {fields[0]})
  }

  /** `true` compares equal to one, so this text is accepted though no selector ever resolves to it. */
  lemma TrueIsAcceptedAsVersion(job: string)
    ensures
      var sel := Selector(RunScope, None);
      var text := Encode([Member("job", Text(job)), Member("scope", Text("run")), Member("version", Word("true"))]);
      FromCanonical(sel, text) == Resolved(text) && forall ctx :: Resolve(sel, ctx) != Resolved(text)
  {
    var sel := Selector(RunScope, None);
    var ms := [Member("job", Text(job)), Member("scope", Text("run")), Member("version", Word("true"))];
    assert Keys(ms) == SortedKeys(RunScope);
    AcceptsAcceptable(sel, ms);
    ParseEncode(ms);
    assert !Plain(ms);
    ResolvableExactly(sel, Encode(ms));
  }
}
