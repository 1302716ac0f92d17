/** The markdown files of one memory directory, and the revision that identifies their content
    (agency/memory/store.py). */
module MemoryFiles {
  import opened Bytes

  type Name = Bytes      // a file name, as UTF-8
  type Payload = Bytes
  type Files = map<Name, Payload>

  const NUL: byte := 0
  const DOT_MD: Bytes := [46, 109, 100]

  /** "agency-memory-content:v1" followed by a NUL. */
  const REVISION_DOMAIN: Bytes :=
    [97, 103, 101, 110, 99, 121, 45, 109, 101, 109, 111, 114, 121, 45, 99, 111, 110, 116, 101, 110, 116, 58, 118, 49, 0]

  predicate NulFree(b: Bytes) { NUL !in b }

  function Upper(b: Bytes): Bytes {
    seq(|b|, i requires 0 <= i < |b| => if 97 <= b[i] <= 122 then b[i] - 32 else b[i])
  }

  function Lower(b: Bytes): Bytes {
    seq(|b|, i requires 0 <= i < |b| => if 65 <= b[i] <= 90 then b[i] + 32 else b[i])
  }

  /** CON, PRN, AUX, NUL, COM1-COM9 and LPT1-LPT9. */
  predicate ReservedStem(stem: Bytes) {
    var s := Upper(stem);
    || s in {[67, 79, 78], [80, 82, 78], [65, 85, 88], [78, 85, 76]}
    || (|s| == 4 && s[..3] in {[67, 79, 77], [76, 80, 84]} && 49 <= s[3] <= 57)
  }

  /** The rules of `_validate_filename`, together with the fact that no file system name holds a NUL. */
  predicate ValidName(n: Name) {
    && NulFree(n)
    && 3 < |n| && n[|n| - 3..] == DOT_MD
    && n[0] != 46                             // not hidden
    && 47 !in n && 92 !in n                   // a direct name: neither '/' nor '\'
    && !ReservedStem(n[..|n| - 3])
  }

  predicate ValidNames(files: Files) {
    forall n | n in files :: ValidName(n)
  }

  /** Whether `_read_canonical_files` accepts a directory with these entries. */
  predicate Readable(files: Files) {
    ValidNames(files) && forall a, b | a in files && b in files && Lower(a) == Lower(b) :: a == b
  }

  /** ASCII text as bytes. */
  function Ascii(s: string): Bytes
    requires forall i | 0 <= i < |s| :: s[i] < '\U{0080}'
  {
    seq(|s|, i requires 0 <= i < |s| => var b: byte := s[i] as int; b)
  }

  ghost predicate Device(name: Bytes) {
    || name in {Ascii("CON"), Ascii("PRN"), Ascii("AUX"), Ascii("NUL")}
    || exists digit: byte :: '1' as int <= digit <= '9' as int
                             && (name == Ascii("COM") + [digit] || name == Ascii("LPT") + [digit])
  }

  /** The same byte, or a letter of the alphabet in both cases. */
  predicate SameLetter(a: byte, b: byte) {
    || a == b
    || ('A' as int <= a <= 'Z' as int && b == a + 32) || ('A' as int <= b <= 'Z' as int && a == b + 32)
  }

  predicate SameSpelling(a: Bytes, b: Bytes) {
    |a| == |b| && forall i | 0 <= i < |a| :: SameLetter(a[i], b[i])
  }

  lemma LowerExactly(a: Bytes, b: Bytes)
    ensures Lower(a) == Lower(b) <==> SameSpelling(a, b)
  {
    if Lower(a) == Lower(b) {
      forall i | 0 <= i < |a| ensures SameLetter(a[i], b[i]) {
        assert Lower(a)[i] == Lower(b)[i];
      }
    }
  }

  lemma UpperExactly(a: Bytes, b: Bytes)
    ensures Upper(a) == Upper(b) <==> SameSpelling(a, b)
  {
    if Upper(a) == Upper(b) {
      forall i | 0 <= i < |a| ensures SameLetter(a[i], b[i]) {
        assert Upper(a)[i] == Upper(b)[i];
      }
    }
  }

  lemma ThreeLetters(s: string)
    requires |s| == 3 && forall i | 0 <= i < |s| :: s[i] < '\U{0080}'
    ensures Ascii(s) == [s[0] as int, s[1] as int, s[2] as int]
  {}

  lemma DeviceBytes()
    ensures Ascii("COM") == [67, 79, 77] && Ascii("LPT") == [76, 80, 84] && Ascii("CON") == [67, 79, 78]
    ensures Ascii("PRN") == [80, 82, 78] && Ascii("AUX") == [65, 85, 88] && Ascii("NUL") == [78, 85, 76]
  {
    ThreeLetters("COM");
    ThreeLetters("LPT");
    ThreeLetters("CON");
    ThreeLetters("PRN");
    ThreeLetters("AUX");
    ThreeLetters("NUL");
  }

  lemma DevicesExactly(s: Bytes)
    ensures Device(s) <==>
      || s in {[67, 79, 78], [80, 82, 78], [65, 85, 88], [78, 85, 76]}
      || (|s| == 4 && s[..3] in {[67, 79, 77], [76, 80, 84]} && 49 <= s[3] <= 57)
  {
    DeviceBytes();
    if |s| == 4 { assert s == s[..3] + [s[3]]; }
    forall digit: byte, kind: Bytes | |kind| == 3
      ensures (kind + [digit])[..3] == kind && (kind + [digit])[3] == digit {}
  }

  /** Device names are written in capitals. */
  lemma DevicesAreCapitals(name: Bytes)
    requires Device(name)
    ensures Upper(name) == name
  {
    DeviceBytes();
  }

  /** A stem is reserved when it spells the name of a device, in whatever case. */
  ghost predicate SpellsDevice(stem: Bytes) { exists name :: Device(name) && SameSpelling(stem, name) }

  lemma ReservedExactly(stem: Bytes)
    ensures ReservedStem(stem) <==> SpellsDevice(stem)
  {
    DevicesExactly(Upper(stem));
    assert Upper(Upper(stem)) == Upper(stem);
    UpperExactly(stem, Upper(stem));
    if name :| Device(name) && SameSpelling(stem, name) {
      UpperExactly(stem, name);
      DevicesAreCapitals(name);
    }
  }

  /** A stem that is not hidden and no device, all in one segment. */
  ghost predicate FileStem(stem: Bytes) {
    && stem != [] && stem[0] != '.' as int && !SpellsDevice(stem)
    && forall i | 0 <= i < |stem| :: stem[i] !in {0, '/' as int, '\\' as int}
  }

  lemma StemIsValid(stem: Bytes)
    ensures ValidName(stem + DOT_MD) <==> FileStem(stem)
  {
    var n := stem + DOT_MD;
    assert n[..|n| - 3] == stem && n[|n| - 3..] == DOT_MD;
    ReservedExactly(stem);
    assert forall i | 0 <= i < |stem| :: n[i] == stem[i];
    assert forall c :: c in n <==> c in stem || c in DOT_MD;
    assert forall c :: c in stem <==> exists i :: 0 <= i < |stem| && stem[i] == c;
  }

  /** A name of a memory file is such a stem in front of `.md`. */
  lemma ValidNameExactly(n: Name)
    ensures ValidName(n) <==> exists stem :: n == stem + Ascii(".md") && FileStem(stem)
  {
    assert Ascii(".md") == DOT_MD;
    if ValidName(n) {
      assert n == n[..|n| - 3] + DOT_MD;
      StemIsValid(n[..|n| - 3]);
    }
    if stem :| n == stem + DOT_MD && FileStem(stem) { StemIsValid(stem); }
  }

  /** Which directories the store reads: valid names of which no two differ in the case of letters alone. */
  lemma ReadableExactly(files: Files)
    ensures Readable(files) <==>
      ValidNames(files) && forall a, b | a in files && b in files && SameSpelling(a, b) :: a == b
  {
    forall a: Name, b: Name ensures Lower(a) == Lower(b) <==> SameSpelling(a, b) { LowerExactly(a, b); }
  }

  // ----- the revision pre-image -----

  function Record(n: Name, p: Payload): Bytes { n + [NUL] + p + [NUL] }

  ghost function Body(names: seq<Name>, files: Files): Bytes
    requires forall n | n in names :: n in files
  {
    if names == [] then [] else Record(names[0], files[names[0]]) + Body(names[1..], files)
  }

  /** What is hashed.  SHA-256 is taken to be injective, so a revision is identified with its pre-image. */
  ghost function Revision(files: Files): Bytes {
    SortedIsListing(files.Keys);
    REVISION_DOMAIN + Body(Sorted(files.Keys), files)
  }

  lemma {:induction false} BodyAppend(names: seq<Name>, n: Name, files: Files)
    requires n in files && forall m | m in names :: m in files
    ensures Body(names + [n], files) == Body(names, files) + Record(n, files[n])
  {
    if names == [] {
      assert [] + [n] == [n];
      assert Body([n], files) == Record(n, files[n]) + Body([], files);
    } else {
      assert (names + [n])[1..] == names[1..] + [n];
      BodyAppend(names[1..], n, files);
    }
  }

  /** What the digest has consumed once the files `names` are hashed. */
  ghost function Hashed(names: seq<Name>, files: Files): Bytes
    requires forall n | n in names :: n in files
  {
    REVISION_DOMAIN + Body(names, files)
  }

  lemma NextName(done: seq<Name>, name: Name, pending: set<Name>, files: Files)
    requires pending <= files.Keys && IsLeast(name, pending) && forall n | n in done :: n in files
    ensures done + Sorted(pending) == (done + [name]) + Sorted(pending - {name})
    ensures Hashed(done + [name], files) == Hashed(done, files) + Record(name, files[name])
  {
    LeastUnique(name, Least(pending), pending);
    HashedAppend(done, name, files);
  }

  lemma HashedAppend(names: seq<Name>, n: Name, files: Files)
    requires n in files && forall m | m in names :: m in files
    ensures Hashed(names + [n], files) == Hashed(names, files) + Record(n, files[n])
  {
    BodyAppend(names, n, files);
  }

  /** The four `digest.update` calls made for one file. */
  function Update(digest: Bytes, name: Name, payload: Payload): (r: Bytes)
    ensures r == digest + Record(name, payload)
  {
    digest + name + [NUL] + payload + [NUL]
  }

  method NextSorted(pending: set<Name>) returns (name: Name)
    requires pending != {}
    ensures IsLeast(name, pending)
  {
    var smallest := LeastExists(pending);
    name :| name in pending && forall x | x in pending :: x == name || Less(name, x);
  }

  /** The digest loop, over the names in sorted order. */
  method MemoryContentRevision(files: Files) returns (digest: Bytes)
    ensures digest == Revision(files)
  {
    digest := REVISION_DOMAIN;
    var pending := files.Keys;
    ghost var done: seq<Name> := [];
    while pending != {}
      invariant pending <= files.Keys
      invariant forall n | n in done :: n in files
      invariant done + Sorted(pending) == Sorted(files.Keys)
      invariant digest == Hashed(done, files)
      decreases pending
    {
      var name := NextSorted(pending);
      NextName(done, name, pending, files);
      digest := Update(digest, name, files[name]);
      done := done + [name];
      pending := pending - {name};
    }
    assert done == Sorted(files.Keys);
  }

  // ----- equal revisions mean equal contents, for NUL-free payloads -----

  lemma {:induction false} CutAtNul(a: Bytes, x: Bytes, b: Bytes, y: Bytes)
    requires NulFree(a) && NulFree(b)
    requires a + [NUL] + x == b + [NUL] + y
    ensures a == b && x == y
  {
    var l, r := a + [NUL] + x, b + [NUL] + y;
    assert l[|a|] == NUL && r[|b|] == NUL;
    assert forall i | 0 <= i < |a| :: l[i] == a[i];
    assert forall i | 0 <= i < |b| :: r[i] == b[i];
    assert |a| == |b|;
    assert a == l[..|a|] && b == r[..|b|] && x == l[|a| + 1..] && y == r[|b| + 1..];
  }

  lemma RecordShape(n: Name, p: Payload, rest: Bytes)
    ensures Record(n, p) + rest == n + [NUL] + (p + [NUL] + rest)
  {}

  lemma {:induction false} BodyInjective(ns: seq<Name>, f: Files, ms: seq<Name>, g: Files)
    requires forall n | n in ns :: n in f && NulFree(n) && NulFree(f[n])
    requires forall n | n in ms :: n in g && NulFree(n) && NulFree(g[n])
    requires Body(ns, f) == Body(ms, g)
    ensures ns == ms
    ensures forall n | n in ns :: f[n] == g[n]
  {
    assert ns != [] ==> |Body(ns, f)| > 0;
    assert ms != [] ==> |Body(ms, g)| > 0;
    if ns != [] && ms != [] {
      var n, m := ns[0], ms[0];
      var restF, restG := Body(ns[1..], f), Body(ms[1..], g);
      RecordShape(n, f[n], restF);
      RecordShape(m, g[m], restG);
      CutAtNul(n, f[n] + [NUL] + restF, m, g[m] + [NUL] + restG);
      CutAtNul(f[n], restF, g[m], restG);
      BodyInjective(ns[1..], f, ms[1..], g);
      assert ns == [n] + ns[1..] && ms == [m] + ms[1..];
    }
  }

  ghost predicate NulFreeFiles(files: Files) {
    forall n | n in files :: NulFree(n) && NulFree(files[n])
  }

  /** Only the empty memory has the revision of the empty memory. */
  lemma NoRevisionIsEmpty(f: Files)
    ensures Revision(f) == Revision(map[]) ==> f == map[]
  {
    if f != map[] {
      var none: Files := map[];
      SortedIsListing(f.Keys);
      var n :| n in f;
      assert n in Sorted(f.Keys);
      assert Sorted(none.Keys) == [] && |Revision(none)| == |REVISION_DOMAIN|;
    }
  }

  lemma RevisionInjective(f: Files, g: Files)
    requires NulFreeFiles(f) && NulFreeFiles(g)
    requires Revision(f) == Revision(g)
    ensures f == g
  {
    SortedIsListing(f.Keys);
    SortedIsListing(g.Keys);
    var ns, ms := Sorted(f.Keys), Sorted(g.Keys);
    assert Body(ns, f) == Revision(f)[|REVISION_DOMAIN|..];
    assert Body(ms, g) == Revision(g)[|REVISION_DOMAIN|..];
    BodyInjective(ns, f, ms, g);
    forall n ensures n in f <==> n in g { assert n in ns <==> n in ms; }
    forall n | n in f ensures f[n] == g[n] { assert n in ns; }
  }

  // ----- exactly which contents a revision identifies once payloads may hold a NUL -----

  /** The payload holds, between two NULs, a valid name that sorts after `n` and is not `n` in another case. */
  ghost predicate HidesRecord(n: Name, v: Payload) {
    exists i, j :: Hides(n, v, i, j)
  }

  ghost predicate Hides(n: Name, v: Payload, i: int, j: int) {
    && 0 <= i < j < |v| && v[i] == NUL && v[j] == NUL
    && var k := v[i + 1..j];
       ValidName(k) && Less(n, k) && Lower(n) != Lower(k)
  }

  /** No other content that the store would read has the revision of `f`. */
  ghost predicate Identified(f: Files) {
    forall g: Files :: Readable(g) && Revision(g) == Revision(f) ==> g == f
  }

  /** A condition a caller can read off the files themselves. */
  ghost predicate Unambiguous(f: Files) {
    f == map[] || exists n :: n in f && f.Keys == {n} && !HidesRecord(n, f[n])
  }

  lemma RevisionIdentifiesExactly(f: Files)
    requires Readable(f)
    ensures Identified(f) <==> Unambiguous(f)
  {
    if Unambiguous(f) {
      forall g: Files | Readable(g) && Revision(g) == Revision(f) ensures g == f {
        UnambiguousIsIdentified(f, g);
      }
    } else {
      var g := OtherReading(f);
      assert g != f && Readable(g) && Revision(g) == Revision(f);
    }
  }

  lemma SortedSingleton(n: Name)
    ensures Sorted({n}) == [n]
  {
    SortedUnique([n], {n});
  }

  lemma RevisionOfOne(f: Files, n: Name)
    requires n in f && f.Keys == {n}
    ensures Revision(f) == REVISION_DOMAIN + Record(n, f[n])
  {
    SortedSingleton(n);
    assert Body([n], f) == Record(n, f[n]) + Body([], f);
  }

  lemma UnambiguousIsIdentified(f: Files, g: Files)
    requires Readable(f) && Readable(g) && Unambiguous(f) && Revision(g) == Revision(f)
    ensures g == f
  {
    SortedIsListing(g.Keys);
    var ms := Sorted(g.Keys);
    assert Body(ms, g) == Revision(g)[|REVISION_DOMAIN|..];
    assert ms != [] ==> |Body(ms, g)| > 0;
    if f == map[] {
      assert Revision(f) == REVISION_DOMAIN;
      assert forall x :: x !in g by { assert ms == []; }
    } else {
      var n :| n in f && f.Keys == {n} && !HidesRecord(n, f[n]);
      RevisionOfOne(f, n);
      assert Body(ms, g) == Record(n, f[n]);
      FirstRecord(n, f[n], ms, g);
      if |ms| == 1 {
        assert g.Keys == {n} by { forall x ensures x in g <==> x == n { assert x in ms <==> x == ms[0]; } }
      } else {
        SecondRecordIsHidden(n, f[n], ms, g);
      }
    }
  }

  lemma SameBeforeNul(a: Bytes, b: Bytes)
    requires a + [NUL] == b + [NUL]
    ensures a == b
  {
    assert a == (a + [NUL])[..|a|] && b == (b + [NUL])[..|b|];
  }

  lemma FirstRecord(n: Name, v: Payload, ms: seq<Name>, g: Files)
    requires ms != [] && NulFree(n) && forall m | m in ms :: m in g && NulFree(m)
    requires Body(ms, g) == Record(n, v)
    ensures ms[0] == n && v + [NUL] == g[n] + [NUL] + Body(ms[1..], g)
    ensures |ms| == 1 ==> v == g[n]
  {
    var m, rest := ms[0], Body(ms[1..], g);
    assert Body(ms, g) == Record(m, g[m]) + rest;
    RecordShape(n, v, []);
    RecordShape(m, g[m], rest);
    assert Record(n, v) + [] == Record(n, v) && v + [NUL] + [] == v + [NUL];
    CutAtNul(n, v + [NUL], m, g[m] + [NUL] + rest);
    if |ms| == 1 {
      assert rest == [] && g[m] + [NUL] + rest == g[m] + [NUL];
      SameBeforeNul(v, g[m]);
    }
  }

  lemma SecondRecordIsHidden(n: Name, v: Payload, ms: seq<Name>, g: Files)
    requires |ms| > 1 && Increasing(ms) && ms[0] == n && Readable(g) && forall m | m in ms :: m in g
    requires v + [NUL] == g[n] + [NUL] + Body(ms[1..], g)
    ensures HidesRecord(n, v)
  {
    var k := ms[1];
    assert k in ms;
    assert ms[1..][0] == k;
    var last := Body(ms[1..][1..], g);
    var u := v + [NUL];
    var i := |g[n]|;
    var j := i + 1 + |k|;
    assert u == g[n] + [NUL] + (k + [NUL] + (g[k] + [NUL] + last));
    assert |u| == j + 2 + |g[k]| + |last|;
    assert u[i] == NUL && u[j] == NUL && u[i + 1..j] == k;
    LessIrreflexive(n);
    assert Less(ms[0], ms[1]) && n in ms && Lower(n) != Lower(k);
    assert v == u[..|v|];
    assert v[i + 1..j] == k;
    assert Hides(n, v, i, j);
  }

  /** A different map with the same revision, whenever the condition fails. */
  lemma OtherReading(f: Files) returns (g: Files)
    requires Readable(f) && !Unambiguous(f)
    ensures Readable(g) && g != f && Revision(g) == Revision(f)
  {
    SortedIsListing(f.Keys);
    var ns := Sorted(f.Keys);
    var some :| some in f;
    assert some in ns;
    var n := ns[0];
    assert n in ns;
    if |ns| == 1 {
      assert f.Keys == {n} by { forall x ensures x in f <==> x == n { assert x in ns <==> x == ns[0]; } }
      var i, j :| Hides(n, f[n], i, j);
      g := SplitRecord(f, n, i, j);
    } else {
      g := MergeFirstTwo(f, ns);
    }
  }

  lemma SplitRecord(f: Files, n: Name, i: int, j: int) returns (g: Files)
    requires Readable(f) && n in f && f.Keys == {n} && Hides(n, f[n], i, j)
    ensures g == map[n := f[n][..i], f[n][i + 1..j] := f[n][j + 1..]]
    ensures Readable(g) && g != f && Revision(g) == Revision(f)
  {
    var v := f[n];
    var k := v[i + 1..j];
    LessIrreflexive(n);
    g := map[n := v[..i], k := v[j + 1..]];
    SortedUnique([n, k], g.Keys);
    assert [n, k][1..] == [k];
    assert Body([k], g) == Record(k, v[j + 1..]) + Body([], g);
    assert Body([n, k], g) == Record(n, v[..i]) + Record(k, v[j + 1..]);
    RevisionOfOne(f, n);
    HiddenRecord(n, v, i, j);
    assert k in g && k !in f;
  }

  lemma HiddenRecord(n: Name, v: Bytes, i: int, j: int)
    requires Hides(n, v, i, j)
    ensures Record(n, v) == Record(n, v[..i]) + Record(v[i + 1..j], v[j + 1..])
  {
    assert v == v[..i] + [NUL] + v[i + 1..j] + [NUL] + v[j + 1..];
  }

  lemma MergeFirstTwo(f: Files, ns: seq<Name>) returns (g: Files)
    requires Readable(f) && ns == Sorted(f.Keys) && |ns| >= 2
    ensures Readable(g) && g != f && Revision(g) == Revision(f)
  {
    SortedIsListing(f.Keys);
    var n, k, rest := ns[0], ns[1], ns[2..];
    assert n in ns && k in ns;
    var merged := f[n] + [NUL] + k + [NUL] + f[k];
    g := map x | x in f && x != k :: if x == n then merged else f[x];
    DropSecond(ns);
    SortedUnique([n] + rest, g.Keys) by {
      assert ns == [n, k] + rest;
      forall x ensures x in [n] + rest <==> x in g.Keys {
        assert x in f <==> x in [n, k] + rest;
      }
    }
    forall x | x in rest ensures x in f && x in g && f[x] == g[x] { assert x in ns; }
    MergedBody(n, k, rest, f, g);
    assert ns == [n] + ([k] + rest);
    assert k in f && k !in g;
  }

  lemma MergedBody(n: Name, k: Name, rest: seq<Name>, f: Files, g: Files)
    requires n in f && k in f && n in g && g[n] == f[n] + [NUL] + k + [NUL] + f[k]
    requires forall x | x in rest :: x in f && x in g && f[x] == g[x]
    ensures Body([n] + ([k] + rest), f) == Body([n] + rest, g)
  {
    BodyAgrees(rest, f, g);
    assert ([n] + ([k] + rest))[1..] == [k] + rest && ([k] + rest)[1..] == rest && ([n] + rest)[1..] == rest;
    assert Record(n, g[n]) == Record(n, f[n]) + Record(k, f[k]);
    assert Body([k] + rest, f) == Record(k, f[k]) + Body(rest, f);
  }

  lemma DropSecond(ns: seq<Name>)
    requires Increasing(ns) && |ns| >= 2
    ensures Increasing([ns[0]] + ns[2..])
    ensures ns[0] !in ns[2..] && ns[1] !in ns[2..] && ns[0] != ns[1]
  {
    LessIrreflexive(ns[0]);
    LessIrreflexive(ns[1]);
    var ms := [ns[0]] + ns[2..];
    forall a, b | 0 <= a < b < |ms| ensures Less(ms[a], ms[b]) {
      assert ms[b] == ns[b + 1] && ms[a] == if a == 0 then ns[0] else ns[a + 1];
    }
  }

  /** A concrete pair: `a.md` holding "x NUL b.md NUL y" against `a.md` holding "x" and `b.md` holding "y". */
  lemma NulPayloadsCollide()
    ensures
      var a: Name, b: Name := [97, 46, 109, 100], [98, 46, 109, 100];
      var one, two := map[a := [120, 0] + b + [0, 121]], map[a := [120], b := [121]];
      Readable(one) && Readable(two) && one != two && Revision(one) == Revision(two)
  {
    var a: Name, b: Name := [97, 46, 109, 100], [98, 46, 109, 100];
    var v := [120, 0] + b + [0, 121];
    var one, two := map[a := v], map[a := [120], b := [121]];
    assert ValidName(a) && ValidName(b);
    assert v[2..6] == b && v[..1] == [120] && v[7..] == [121];
    assert Less(a, b) && Lower(a)[0] == 97 && Lower(b)[0] == 98;
    assert Hides(a, v, 1, 6);
    var g := SplitRecord(one, a, 1, 6);
    assert g == two;
  }

  lemma {:induction false} BodyAgrees(ns: seq<Name>, f: Files, g: Files)
    requires forall n | n in ns :: n in f && n in g && f[n] == g[n]
    ensures Body(ns, f) == Body(ns, g)
  {
    if ns != [] { BodyAgrees(ns[1..], f, g); }
  }
}
