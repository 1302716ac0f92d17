/** The names of dispatch markers (agency/dispatch/run.py:54-55, 95-96, 115, 121), for the identifiers a config accepts
    (agency/configuration/models.py:17, 445-456). */
module Markers {

  predicate SafeChar(c: char) {
    'a' <= c <= 'z' || 'A' <= c <= 'Z' || '0' <= c <= '9' || c in {'.', '_', '-'}
  }

  /** Each run of other characters becomes one hyphen. */
  function Hyphenated(s: string, inRun: bool): string {
    if s == "" then ""
    else if SafeChar(s[0]) then [s[0]] + Hyphenated(s[1..], false)
    else (if inRun then "" else "-") + Hyphenated(s[1..], true)
  }

  function StripLeft(s: string): string {
    if s != "" && s[0] in {'.', '-'} then StripLeft(s[1..]) else s
  }

  function StripRight(s: string): string {
    if s != "" && s[|s| - 1] in {'.', '-'} then StripRight(s[..|s| - 1]) else s
  }

  /** `_marker_safe` */
  function MarkerSafe(value: string): string {
    var safe := StripRight(StripLeft(Hyphenated(value, false)));
    if safe == "" then "item" else safe
  }

  /** What tells the marker files of one day, or the interval markers, apart. */
  function MarkerOf(agent: string, routine: string): string { MarkerSafe(agent) + "-" + MarkerSafe(routine) }

  // ----- identifiers -----

  predicate Alphanumeric(c: char) { 'a' <= c <= 'z' || '0' <= c <= '9' }

  /** Alphanumeric words joined by single hyphens. */
  predicate Slug(s: string) {
    && s != "" && s[0] != '-' && s[|s| - 1] != '-'
    && (forall c | c in s :: Alphanumeric(c) || c == '-')
    && forall i | 0 <= i < |s| - 1 :: s[i] != '-' || s[i + 1] != '-'
  }

  lemma AlphanumericExactly(c: char)
    ensures Alphanumeric(c) <==> c in "abcdefghijklmnopqrstuvwxyz" || c in "0123456789"
  {
    LowerExactly(c);
    DigitExactly(c);
  }

  lemma SafeCharExactly(c: char)
    ensures SafeChar(c) <==> Alphanumeric(c) || c in "ABCDEFGHIJKLMNOPQRSTUVWXYZ" || c == '.' || c == '_' || c == '-'
  {
    UpperExactly(c);
  }

  lemma LowerExactly(c: char)
    ensures 'a' <= c <= 'z' <==> c in "abcdefghijklmnopqrstuvwxyz"
  {
    var letters := "abcdefghijklmnopqrstuvwxyz";
    if 'a' <= c <= 'z' { assert letters[c as int - 'a' as int] == c; }
  }

  lemma UpperExactly(c: char)
    ensures 'A' <= c <= 'Z' <==> c in "ABCDEFGHIJKLMNOPQRSTUVWXYZ"
  {
    var letters := "ABCDEFGHIJKLMNOPQRSTUVWXYZ";
    if 'A' <= c <= 'Z' { assert letters[c as int - 'A' as int] == c; }
  }

  lemma DigitExactly(c: char)
    ensures '0' <= c <= '9' <==> c in "0123456789"
  {
    var digits := "0123456789";
    if '0' <= c <= '9' { assert digits[c as int - '0' as int] == c; }
  }

  function Joined(words: seq<string>): string
    requires words != []
  {
    if |words| == 1 then words[0] else words[0] + "-" + Joined(words[1..])
  }

  ghost predicate Words(words: seq<string>) {
    words != [] && forall i | 0 <= i < |words| :: words[i] != "" && forall c | c in words[i] :: Alphanumeric(c)
  }

  /** `[a-z0-9]+(?:-[a-z0-9]+)*` */
  lemma SlugExactly(s: string)
    ensures Slug(s) <==> exists words :: Words(words) && s == Joined(words)
  {
    if Slug(s) { var words := WordsOf(s); }
    if words :| Words(words) && s == Joined(words) { JoinedIsSlug(words); }
  }

  lemma WordsOf(s: string) returns (words: seq<string>)
    requires Slug(s)
    ensures Words(words) && s == Joined(words)
    decreases |s|
  {
    assert s[0] in s;
    if |s| == 1 {
      words := [s];
    } else if s[1] == '-' {
      assert |s| > 2 && s[2] != '-';
      TailIsSlug(s, 2);
      var rest := WordsOf(s[2..]);
      words := [[s[0]]] + rest;
      assert s == [s[0]] + "-" + s[2..] && words[1..] == rest;
    } else {
      TailIsSlug(s, 1);
      var rest := WordsOf(s[1..]);
      words := [[s[0]] + rest[0]] + rest[1..];
      assert s == [s[0]] + s[1..] && words[1..] == rest[1..];
      if |rest| > 1 { assert s == [s[0]] + rest[0] + "-" + Joined(rest[1..]); }
    }
  }

  lemma TailIsSlug(s: string, i: nat)
    requires Slug(s) && i < |s| && s[i] != '-'
    ensures Slug(s[i..])
  {
    var t := s[i..];
    assert forall k | 0 <= k < |t| :: t[k] == s[i + k];
  }

  lemma {:induction false} JoinedIsSlug(words: seq<string>)
    requires Words(words)
    ensures Slug(Joined(words))
  {
    var w := words[0];
    assert w[0] in w && w[|w| - 1] in w;
    if |words| == 1 {
      assert forall i | 0 <= i < |w| :: w[i] in w;
    } else {
      JoinedIsSlug(words[1..]);
      SlugAfterWord(w, Joined(words[1..]));
    }
  }

  lemma SlugAfterWord(w: string, t: string)
    requires w != "" && (forall c | c in w :: Alphanumeric(c)) && Slug(t)
    ensures Slug(w + "-" + t)
  {
    var s := w + "-" + t;
    assert forall i | 0 <= i < |w| :: s[i] == w[i] && w[i] in w;
    assert s[|w|] == '-';
    assert forall i | 0 <= i < |t| :: s[|w| + 1 + i] == t[i];
    forall c | c in s ensures Alphanumeric(c) || c == '-' {
      var i :| 0 <= i < |s| && s[i] == c;
      if i > |w| { assert c == t[i - |w| - 1]; }
    }
    forall i | 0 <= i < |s| - 1 ensures s[i] != '-' || s[i + 1] != '-' {
      if i > |w| { assert s[i] == t[i - |w| - 1] && s[i + 1] == t[i - |w|]; }
    }
  }

  /** What `re.match` accepts: the `$` of the pattern also matches before a final newline. */
  predicate Identifier(s: string) {
    Slug(s) || (s != "" && s[|s| - 1] == '\n' && Slug(s[..|s| - 1]))
  }

  function Core(s: string): string {
    if s != "" && s[|s| - 1] == '\n' then s[..|s| - 1] else s
  }

  lemma {:induction false} HyphenatedSafe(s: string, rest: string)
    requires forall c | c in s :: SafeChar(c)
    ensures Hyphenated(s + rest, false) == s + Hyphenated(rest, false)
  {
    if s == "" {
      assert s + rest == rest;
    } else {
      assert (s + rest)[1..] == s[1..] + rest;
      HyphenatedSafe(s[1..], rest);
      assert s == [s[0]] + s[1..];
    }
  }

  /** An identifier is its core, with at most a newline behind it. */
  lemma CoreAndRest(s: string) returns (rest: string)
    requires Identifier(s)
    ensures Slug(Core(s)) && s == Core(s) + rest && rest in {"", "\n"}
  {
    var core := Core(s);
    assert Slug(s) ==> s[|s| - 1] in s;
    rest := s[|core|..];
    assert s == core + rest && (rest == "" || (|rest| == 1 && rest[0] == '\n'));
    assert rest == "" || rest == "\n";
  }

  lemma StrippedSlug(core: string)
    requires Slug(core)
    ensures StripLeft(core) == core && StripLeft(core + "-") == core + "-"
    ensures StripRight(core) == core && StripRight(core + "-") == core
  {
    assert core[0] in core && core[|core| - 1] in core;
    assert (core + "-")[..|core|] == core;
  }

  /** On an identifier `_marker_safe` only drops the newline. */
  lemma MarkerSafeIsCore(s: string)
    requires Identifier(s)
    ensures Slug(Core(s)) && MarkerSafe(s) == Core(s)
  {
    var rest := CoreAndRest(s);
    HyphenatedSafe(Core(s), rest);
    assert Hyphenated("\n", false) == "-" + Hyphenated("", true);
    StrippedSlug(Core(s));
    if rest == "" {
      assert Hyphenated(s, false) == Core(s) + "" == Core(s);
    } else {
      assert Hyphenated(s, false) == Core(s) + "-";
    }
  }

  // ----- which identifiers share a marker -----

  /** The longer agent name is the shorter one with a tail that the routine of the shorter one begins with. */
  ghost predicate Shifted(a: string, r: string, b: string, s: string) {
    exists k :: k != "" && b == a + "-" + k && r == k + "-" + s
  }

  /** Two routines of a config that get one marker. */
  ghost predicate Rivals(a: string, r: string, b: string, s: string) {
    && (a, r) != (b, s)
    && (|| (Core(a) == Core(b) && Core(r) == Core(s))
        || Shifted(Core(a), Core(r), Core(b), Core(s)) || Shifted(Core(b), Core(s), Core(a), Core(r)))
  }

  lemma LongerIsShifted(a: string, r: string, b: string, s: string)
    requires Slug(b) && a + "-" + r == b + "-" + s && |a| < |b|
    ensures Shifted(a, r, b, s)
  {
    var whole := a + "-" + r;
    assert whole[..|a|] == a && whole[|a|] == '-' && whole[|a| + 1..] == r;
    assert whole[..|b|] == b && whole[|b|] == '-' && whole[|b| + 1..] == s;
    assert b[|a|] == '-';
    assert |b| > |a| + 1;
    var k := b[|a| + 1..];
    assert b == a + "-" + k;
    assert r == whole[|a| + 1..|b|] + [whole[|b|]] + whole[|b| + 1..];
    assert whole[|a| + 1..|b|] == k;
    assert r == k + "-" + s;
  }

  lemma ShiftedIsSame(a: string, r: string, b: string, s: string)
    requires Shifted(a, r, b, s)
    ensures a + "-" + r == b + "-" + s
  {
    var k :| k != "" && b == a + "-" + k && r == k + "-" + s;
    assert a + "-" + (k + "-" + s) == a + "-" + k + "-" + s;
  }

  lemma SameLengthIsSame(a: string, r: string, b: string, s: string)
    requires a + "-" + r == b + "-" + s && |a| == |b|
    ensures a == b && r == s
  {
    var whole := a + "-" + r;
    assert whole[..|a|] == a && whole[|a| + 1..] == r;
    assert whole[..|b|] == b && whole[|b| + 1..] == s;
  }

  /** For all identifiers: one marker means one routine or rivals, and rivals have one marker. */
  lemma MarkersCollideExactly(a: string, r: string, b: string, s: string)
    requires Identifier(a) && Identifier(r) && Identifier(b) && Identifier(s)
    ensures MarkerOf(a, r) == MarkerOf(b, s) <==> (a, r) == (b, s) || Rivals(a, r, b, s)
  {
    MarkerSafeIsCore(a);
    MarkerSafeIsCore(r);
    MarkerSafeIsCore(b);
    MarkerSafeIsCore(s);
    CoresCollideExactly(Core(a), Core(r), Core(b), Core(s));
  }

  lemma CoresCollideExactly(a: string, r: string, b: string, s: string)
    requires Slug(a) && Slug(b)
    ensures a + "-" + r == b + "-" + s <==> (a == b && r == s) || Shifted(a, r, b, s) || Shifted(b, s, a, r)
  {
    if a + "-" + r == b + "-" + s {
      if |a| < |b| { LongerIsShifted(a, r, b, s); }
      else if |b| < |a| { LongerIsShifted(b, s, a, r); }
      else { SameLengthIsSame(a, r, b, s); }
    }
    if Shifted(a, r, b, s) { ShiftedIsSame(a, r, b, s); }
    if Shifted(b, s, a, r) { ShiftedIsSame(b, s, a, r); }
  }
}
