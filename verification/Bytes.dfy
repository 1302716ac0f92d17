/** Byte strings, their lexicographic order, and the sorted listing of a finite set of them. */
module Bytes {

  type byte = b: int | 0 <= b < 256
  type Bytes = seq<byte>

  /** Lexicographic order.  For names stored as UTF-8 it is the order Python's `sorted` uses on the text. */
  predicate Less(a: Bytes, b: Bytes) {
    b != [] && (a == [] || a[0] < b[0] || (a[0] == b[0] && Less(a[1..], b[1..])))
  }

  lemma {:induction false} LessIrreflexive(a: Bytes)
    ensures !Less(a, a)
  {
    if a != [] { LessIrreflexive(a[1..]); }
  }

  lemma {:induction false} LessTransitive(a: Bytes, b: Bytes, c: Bytes)
    requires Less(a, b) && Less(b, c)
    ensures Less(a, c)
  {
    if a != [] && a[0] == b[0] && b[0] == c[0] {
      LessTransitive(a[1..], b[1..], c[1..]);
    }
  }

  lemma {:induction false} LessTotal(a: Bytes, b: Bytes)
    requires a != b
    ensures Less(a, b) || Less(b, a)
  {
    if a != [] && b != [] && a[0] == b[0] {
      assert a == [a[0]] + a[1..] && b == [b[0]] + b[1..];
      LessTotal(a[1..], b[1..]);
    }
  }

  ghost predicate IsLeast(m: Bytes, s: set<Bytes>) {
    m in s && forall x | x in s :: x == m || Less(m, x)
  }

  lemma {:induction false} LeastExists(s: set<Bytes>) returns (m: Bytes)
    requires s != {}
    ensures IsLeast(m, s)
  {
    var x :| x in s;
    if s == {x} {
      m := x;
    } else {
      var y := LeastExists(s - {x});
      assert forall z | z in s :: z == x || z in s - {x};
      if Less(x, y) {
        m := x;
        forall z | z in s ensures z == x || Less(x, z) {
          if z != x && z != y { LessTransitive(x, y, z); }
        }
      } else {
        LessTotal(x, y);
        m := y;
      }
    }
  }

  lemma LeastUnique(a: Bytes, b: Bytes, s: set<Bytes>)
    requires IsLeast(a, s) && IsLeast(b, s)
    ensures a == b
  {
    if a != b {
      LessTransitive(a, b, a);
      LessIrreflexive(a);
    }
  }

  ghost function Least(s: set<Bytes>): (m: Bytes)
    requires s != {}
    ensures IsLeast(m, s)
  {
    assert exists m :: IsLeast(m, s) by { var m := LeastExists(s); }
    var m :| IsLeast(m, s);
    m
  }

  /** The elements of `s` in increasing order. */
  ghost function Sorted(s: set<Bytes>): seq<Bytes> {
    if s == {} then [] else [Least(s)] + Sorted(s - {Least(s)})
  }

  ghost predicate Increasing(names: seq<Bytes>) {
    forall i, j | 0 <= i < j < |names| :: Less(names[i], names[j])
  }

  lemma {:induction false} SortedIsListing(s: set<Bytes>)
    ensures Increasing(Sorted(s))
    ensures forall x :: x in Sorted(s) <==> x in s
  {
    if s != {} {
      var m := Least(s);
      var rest := Sorted(s - {m});
      SortedIsListing(s - {m});
      forall j | 0 <= j < |rest| ensures Less(m, rest[j]) {
        assert rest[j] in rest;
      }
    }
  }

  /** An increasing listing is determined by its elements. */
  lemma {:induction false} SortedUnique(names: seq<Bytes>, s: set<Bytes>)
    requires Increasing(names)
    requires forall x :: x in names <==> x in s
    ensures Sorted(s) == names
  {
    if names == [] {
      assert s == {} by { if x :| x in s { assert x in names; } }
    } else {
      var m, rest := names[0], names[1..];
      assert m in names;
      assert IsLeast(m, s);
      LeastUnique(m, Least(s), s);
      LessIrreflexive(m);
      assert m !in rest;
      forall x ensures x in rest <==> x in s - {m} {
        assert x in names <==> x == m || x in rest;
      }
      SortedUnique(rest, s - {m});
    }
  }
}
