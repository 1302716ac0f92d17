/** The digest of a blueprint source tree, and the double scan that captures the tree
    (agency/fs/snapshot.py:182-212). */
module SourceDigest {
  import opened Bytes
  import opened MemoryDisk

  /** The path is its POSIX text as UTF-8. */
  datatype SourceFile = SourceFile(path: Bytes, content: Bytes)

  /** "agency-blueprint-source:v1" followed by a NUL. */
  const PATH_PREFIX: Bytes :=
    [97, 103, 101, 110, 99, 121, 45, 98, 108, 117, 101, 112, 114, 105, 110, 116, 45,
     115, 111, 117, 114, 99, 101, 58, 118, 49, 0]

  const LENGTH_LIMIT: nat := 0x1_0000_0000_0000_0000

  // ----- eight bytes, big-endian -----

  function Power256(width: nat): nat { if width == 0 then 1 else 256 * Power256(width - 1) }

  function BigEndian(n: nat, width: nat): (r: Bytes)
    ensures |r| == width
  {
    if width == 0 then [] else BigEndian(n / 256, width - 1) + [n % 256]
  }

  function Value(bs: Bytes): nat {
    if bs == [] then 0 else 256 * Value(bs[..|bs| - 1]) + bs[|bs| - 1]
  }

  lemma {:induction false} ValueBigEndian(n: nat, width: nat)
    requires n < Power256(width)
    ensures Value(BigEndian(n, width)) == n
  {
    if width > 0 {
      var bs := BigEndian(n, width);
      assert bs[..width - 1] == BigEndian(n / 256, width - 1);
      ValueBigEndian(n / 256, width - 1);
    }
  }

  lemma EightBytesHoldLengths()
    ensures Power256(8) == LENGTH_LIMIT
  {
    assert Power256(4) == 0x1_0000_0000;
    assert Power256(8) == 256 * (256 * (256 * (256 * Power256(4))));
  }

  // ----- sorted by path, stable -----

  function Insert(f: SourceFile, files: seq<SourceFile>): seq<SourceFile> {
    if files == [] || !Less(files[0].path, f.path) then [f] + files
    else [files[0]] + Insert(f, files[1..])
  }

  /** `sorted(files, key=path)`: later files go behind earlier ones of the same path. */
  function SortedByPath(files: seq<SourceFile>): seq<SourceFile> {
    if files == [] then [] else Insert(files[0], SortedByPath(files[1..]))
  }

  ghost predicate Ordered(files: seq<SourceFile>) {
    forall i, j | 0 <= i < j < |files| :: !Less(files[j].path, files[i].path)
  }

  ghost predicate DistinctPaths(files: seq<SourceFile>) {
    forall i, j | 0 <= i < |files| && 0 <= j < |files| && files[i].path == files[j].path :: i == j
  }

  /** In front of a list whose files do not sort before it. */
  lemma OrderedInFront(f: SourceFile, files: seq<SourceFile>)
    requires Ordered(files) && (files != [] ==> !Less(files[0].path, f.path))
    ensures Ordered([f] + files)
  {
    var r := [f] + files;
    forall j | 0 < j < |r| ensures !Less(r[j].path, f.path) {
      assert r[j] == files[j - 1];
      if j > 1 { NotLessTransitive(files[j - 1].path, files[0].path, f.path); }
    }
  }

  /** The first file of an ordered list does not sort behind anything a rearrangement of the rest and `f` holds. */
  lemma FirstStaysFirst(f: SourceFile, files: seq<SourceFile>, rest: seq<SourceFile>)
    requires Ordered(files) && files != [] && Less(files[0].path, f.path)
    requires multiset(rest) == multiset(files[1..]) + multiset{f}
    ensures forall j | 0 <= j < |rest| :: !Less(rest[j].path, files[0].path)
  {
    forall j | 0 <= j < |rest| ensures !Less(rest[j].path, files[0].path) {
      assert rest[j] in multiset(rest);
      if rest[j] == f {
        if Less(f.path, files[0].path) { LessTransitive(f.path, files[0].path, f.path); LessIrreflexive(f.path); }
      } else {
        assert rest[j] in multiset(files[1..]);
        var k :| 0 <= k < |files[1..]| && files[1..][k] == rest[j];
        assert files[k + 1] == rest[j];
      }
    }
  }

  lemma OrderedTail(files: seq<SourceFile>)
    requires Ordered(files) && files != []
    ensures Ordered(files[1..])
  {}

  lemma OrderedBehind(first: SourceFile, rest: seq<SourceFile>)
    requires Ordered(rest) && forall j | 0 <= j < |rest| :: !Less(rest[j].path, first.path)
    ensures Ordered([first] + rest)
  {
    var r := [first] + rest;
    forall i, j | 0 <= i < j < |r| ensures !Less(r[j].path, r[i].path) {
      assert r[j] == rest[j - 1];
      if i > 0 { assert r[i] == rest[i - 1]; }
    }
  }

  lemma {:induction false} InsertKeeps(f: SourceFile, files: seq<SourceFile>)
    requires Ordered(files)
    ensures Ordered(Insert(f, files)) && multiset(Insert(f, files)) == multiset(files) + multiset{f}
  {
    if files == [] || !Less(files[0].path, f.path) {
      OrderedInFront(f, files);
    } else {
      OrderedTail(files);
      InsertKeeps(f, files[1..]);
      FirstStaysFirst(f, files, Insert(f, files[1..]));
      OrderedBehind(files[0], Insert(f, files[1..]));
      assert files == [files[0]] + files[1..];
    }
  }

  lemma NotLessTransitive(a: Bytes, b: Bytes, c: Bytes)
    requires !Less(a, b) && !Less(b, c)
    ensures !Less(a, c)
  {
    if Less(a, c) {
      if a != b {
        LessTotal(a, b);
        LessTransitive(b, a, c);
      }
    }
  }

  lemma {:induction false} SortIsOrdered(files: seq<SourceFile>)
    ensures Ordered(SortedByPath(files)) && multiset(SortedByPath(files)) == multiset(files)
  {
    if files != [] {
      SortIsOrdered(files[1..]);
      InsertKeeps(files[0], SortedByPath(files[1..]));
      assert files == [files[0]] + files[1..];
    }
  }

  // ----- the digest -----

  function Field(b: Bytes): Bytes { BigEndian(|b|, 8) + b }

  function Record(f: SourceFile): Bytes { Field(f.path) + Field(f.content) }

  function Records(files: seq<SourceFile>): Bytes {
    if files == [] then [] else Record(files[0]) + Records(files[1..])
  }

  predicate Encodable(files: seq<SourceFile>) {
    forall f | f in files :: |f.path| < LENGTH_LIMIT && |f.content| < LENGTH_LIMIT
  }

  /** What is hashed; SHA-256 is taken to be injective.  `int.to_bytes` raises on a length that takes nine bytes. */
  function Digest(files: seq<SourceFile>): Option<Bytes> {
    if Encodable(files) then Some(PATH_PREFIX + Records(SortedByPath(files))) else None
  }

  lemma {:induction false} RecordsAppend(files: seq<SourceFile>, f: SourceFile)
    ensures Records(files + [f]) == Records(files) + Record(f)
  {
    if files == [] {
      assert [] + [f] == [f] && [f][1..] == [];
      assert Records([f]) == Record(f) + Records([]);
    } else {
      assert (files + [f])[1..] == files[1..] + [f];
      RecordsAppend(files[1..], f);
    }
  }

  lemma EncodableInAnyOrder(files: seq<SourceFile>)
    ensures Encodable(files) <==> Encodable(SortedByPath(files))
  {
    SortIsOrdered(files);
    var items := SortedByPath(files);
    assert forall f :: f in items <==> f in multiset(items);
    assert forall f :: f in files <==> f in multiset(files);
  }

  lemma OneMoreItem(digest: Bytes, items: seq<SourceFile>, i: nat)
    requires i < |items| && digest == PATH_PREFIX + Records(items[..i])
    requires Encodable(items[..i]) && |items[i].path| < LENGTH_LIMIT && |items[i].content| < LENGTH_LIMIT
    ensures digest + Field(items[i].path) + Field(items[i].content) == PATH_PREFIX + Records(items[..i + 1])
    ensures Encodable(items[..i + 1])
  {
    assert items[..i + 1] == items[..i] + [items[i]];
    RecordsAppend(items[..i], items[i]);
    Regroup(PATH_PREFIX, Records(items[..i]), Field(items[i].path), Field(items[i].content));
  }

  lemma Regroup(a: Bytes, b: Bytes, c: Bytes, d: Bytes)
    ensures a + b + c + d == a + (b + (c + d))
  {}

  /** `compute_source_digest` */
  method ComputeSourceDigest(files: seq<SourceFile>) returns (r: Option<Bytes>)
    ensures r == Digest(files)
  {
    var items := SortedByPath(files);
    EncodableInAnyOrder(files);
    var digest := PATH_PREFIX;
    var i := 0;
    while i < |items|
      invariant 0 <= i <= |items| && digest == PATH_PREFIX + Records(items[..i]) && Encodable(items[..i])
    {
      var item := items[i];
      if |item.path| >= LENGTH_LIMIT || |item.content| >= LENGTH_LIMIT {
        assert item in items;
        return None;
      }
      OneMoreItem(digest, items, i);
      digest := digest + (BigEndian(|item.path|, 8) + item.path);
      digest := digest + (BigEndian(|item.content|, 8) + item.content);
      i := i + 1;
    }
    assert items[..i] == items;
    r := Some(digest);
  }

  // ----- the decoder -----

  function ReadField(d: Bytes): Option<(Bytes, Bytes)> {
    if |d| < 8 || |d| - 8 < Value(d[..8]) then None
    else Some((d[8..8 + Value(d[..8])], d[8 + Value(d[..8])..]))
  }

  function ReadRecords(d: Bytes): Option<seq<SourceFile>>
    decreases |d|
  {
    if d == [] then Some([]) else
      var path := ReadField(d);
      if path.None? then None else
        var content := ReadField(path.value.1);
        if content.None? then None else
          var rest := ReadRecords(content.value.1);
          if rest.None? then None else Some([SourceFile(path.value.0, content.value.0)] + rest.value)
  }

  lemma ReadsField(b: Bytes, rest: Bytes)
    requires |b| < LENGTH_LIMIT
    ensures ReadField(Field(b) + rest) == Some((b, rest))
  {
    EightBytesHoldLengths();
    ValueBigEndian(|b|, 8);
    var d := Field(b) + rest;
    assert d[..8] == BigEndian(|b|, 8);
    assert d[8..8 + |b|] == b && d[8 + |b|..] == rest;
  }

  lemma {:induction false} ReadsRecords(files: seq<SourceFile>)
    requires Encodable(files)
    ensures ReadRecords(Records(files)) == Some(files)
  {
    if files != [] {
      var f, rest := files[0], Records(files[1..]);
      assert f in files;
      assert Records(files) == Field(f.path) + (Field(f.content) + rest);
      ReadsField(f.path, Field(f.content) + rest);
      ReadsField(f.content, rest);
      ReadsRecords(files[1..]);
      assert files == [f] + files[1..];
    }
  }

  /** The digest can be decoded to the files in order. */
  lemma DigestDecodes(files: seq<SourceFile>)
    requires Encodable(files)
    ensures ReadRecords(Digest(files).value[|PATH_PREFIX|..]) == Some(SortedByPath(files))
  {
    SortIsOrdered(files);
    var items := SortedByPath(files);
    assert forall f :: f in items ==> f in multiset(items) && f in multiset(files);
    ReadsRecords(items);
    assert Digest(files).value[|PATH_PREFIX|..] == Records(items);
  }

  /** For trees without two files at one path, in whatever order they are listed: equal digests exactly when the
      files are the same. */
  lemma DigestIdentifiesTree(a: seq<SourceFile>, b: seq<SourceFile>)
    requires Encodable(a) && Encodable(b) && DistinctPaths(a) && DistinctPaths(b)
    ensures Digest(a) == Digest(b) <==> multiset(a) == multiset(b)
  {
    SortIsOrdered(a);
    SortIsOrdered(b);
    if Digest(a) == Digest(b) {
      DigestDecodes(a);
      DigestDecodes(b);
    }
    if multiset(a) == multiset(b) {
      DistinctSurvives(a, SortedByPath(a));
      OrderedUnique(SortedByPath(a), SortedByPath(b));
    }
  }

  lemma DistinctSurvives(a: seq<SourceFile>, b: seq<SourceFile>)
    requires DistinctPaths(a) && multiset(a) == multiset(b)
    ensures DistinctPaths(b)
  {
    forall i, j | 0 <= i < j < |b| ensures b[i].path != b[j].path {
      if b[i].path == b[j].path {
        TwoIn(b, i, j);
        assert b[i] in multiset(a) && b[j] in multiset(a);
        var k :| 0 <= k < |a| && a[k] == b[i];
        var m :| 0 <= m < |a| && a[m] == b[j];
        assert k == m && b[i] == b[j];
        assert multiset(a)[b[i]] >= 2;
        OnceIn(a, k);
      }
    }
  }

  lemma TwoIn(b: seq<SourceFile>, i: nat, j: nat)
    requires i < j < |b|
    ensures b[i] == b[j] ==> multiset(b)[b[i]] >= 2
  {
    assert b == b[..i] + [b[i]] + b[i + 1..j] + [b[j]] + b[j + 1..];
  }

  lemma OnceIn(a: seq<SourceFile>, k: nat)
    requires DistinctPaths(a) && k < |a|
    ensures multiset(a)[a[k]] == 1
  {
    assert a == a[..k] + [a[k]] + a[k + 1..];
    assert a[k] !in a[..k] && a[k] !in a[k + 1..];
  }

  lemma SameFirst(a: seq<SourceFile>, b: seq<SourceFile>)
    requires Ordered(a) && Ordered(b) && multiset(a) == multiset(b) && DistinctPaths(a) && a != [] && b != []
    ensures a[0] == b[0]
  {
    assert a[0] in multiset(b) && b[0] in multiset(a);
    var i :| 0 <= i < |b| && b[i] == a[0];
    var j :| 0 <= j < |a| && a[j] == b[0];
    assert i > 0 ==> !Less(b[i].path, b[0].path);
    assert j > 0 ==> !Less(a[j].path, a[0].path);
    LessIrreflexive(a[0].path);
    if a[0].path != b[0].path { LessTotal(a[0].path, b[0].path); }
  }

  lemma {:induction false} OrderedUnique(a: seq<SourceFile>, b: seq<SourceFile>)
    requires Ordered(a) && Ordered(b) && multiset(a) == multiset(b) && DistinctPaths(a)
    ensures a == b
  {
    assert |a| == |multiset(a)| == |multiset(b)| == |b|;
    if a != [] {
      SameFirst(a, b);
      assert a == [a[0]] + a[1..] && b == [b[0]] + b[1..];
      assert multiset(a[1..]) == multiset(a) - multiset{a[0]};
      assert multiset(b[1..]) == multiset(b) - multiset{b[0]};
      OrderedUnique(a[1..], b[1..]);
    }
  }

  /** Two files at one path: the order of the list shows in the digest. */
  lemma OrderMattersForOnePath(path: Bytes)
    requires |path| < LENGTH_LIMIT
    ensures
      var f, g := SourceFile(path, [0]), SourceFile(path, [1]);
      Digest([f, g]) != Digest([g, f])
  {
    var f, g := SourceFile(path, [0]), SourceFile(path, [1]);
    LessIrreflexive(path);
    DigestDecodes([f, g]);
    DigestDecodes([g, f]);
    assert SortedByPath([g]) == [g] && SortedByPath([f]) == [f];
    assert [f, g][1..] == [g] && [g, f][1..] == [f];
    assert SortedByPath([f, g]) == [f, g];
    assert SortedByPath([g, f]) == [g, f];
    assert [f, g][0] != [g, f][0];
  }

  // ----- the double scan -----

  /** One scan: the files and what was noted about them (sizes, times, identities). */
  datatype Scan = Scan(files: seq<SourceFile>, inventory: Bytes)

  /** `_scan_tree`: a tree that cannot be read, or that breaks a rule for assets, raises. */
  datatype ScanResult = Saw(scan: Scan) | Raised(issue: Bytes)

  datatype Capture = Captured(files: seq<SourceFile>, digest: Option<Bytes>) | Unstable | BadAttempts
    | Failed(issue: Bytes)

  /** Both scans of an attempt went through and saw different things: the only reason to try again. */
  predicate Differ(attempt: (ScanResult, ScanResult)) {
    attempt.0.Saw? && attempt.1.Saw? && attempt.0.scan.inventory != attempt.1.scan.inventory
  }

  /** The first scan that raises. */
  predicate FailsWith(attempt: (ScanResult, ScanResult), issue: Bytes) {
    attempt.0 == Raised(issue) || (attempt.0.Saw? && attempt.1 == Raised(issue))
  }

  predicate Agree(attempt: (ScanResult, ScanResult)) {
    attempt.0.Saw? && attempt.1.Saw? && attempt.0.scan.inventory == attempt.1.scan.inventory
  }

  /** `capture_tree`; `scans` are what the two scans of each attempt see.  Attempts go on while the scans differ; the
      first attempt that does not differ decides. */
  method CaptureTree(attempts: int, scans: seq<(ScanResult, ScanResult)>) returns (r: Capture, ghost round: nat)
    requires attempts <= |scans|
    ensures r.BadAttempts? <==> attempts < 1
    ensures r.Unstable? <==> attempts >= 1 && forall i | 0 <= i < attempts :: Differ(scans[i])
    ensures r.Captured? || r.Failed? ==> round < attempts && forall i | 0 <= i < round :: Differ(scans[i])
    ensures r.Captured? ==>
      Agree(scans[round]) && r.files == scans[round].1.scan.files && r.digest == Digest(r.files)
    ensures r.Failed? ==> FailsWith(scans[round], r.issue)
  {
    round := 0;
    if attempts < 1 { return BadAttempts, 0; }
    for i := 0 to attempts
      invariant forall k | 0 <= k < i :: Differ(scans[k])
    {
      var (first, second) := scans[i];
      if first.Raised? { return Capture.Failed(first.issue), i; }
      if second.Raised? { return Capture.Failed(second.issue), i; }
      if first.scan.inventory == second.scan.inventory {
        var digest := ComputeSourceDigest(second.scan.files);
        return Captured(second.scan.files, digest), i;
      }
    }
    return Unstable, 0;
  }
}
