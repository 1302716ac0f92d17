/** What a runtime sees of a blueprint: the source tree mapped to the instruction file and the skills directory of an
    integration (agency/blueprints/projectors.py:36-107). */
module Projection {
  import opened Bytes

  /** A path in segments; a directory is its segments as a prefix of the paths of its files. */
  type Path = seq<string>

  datatype Item = Item(path: Path, content: Bytes)

  /** A file on disk; the mode is whatever the system gave it. */
  datatype Stored = Stored(content: Bytes, mode: nat)

  type Tree = map<Path, Stored>

  datatype Capabilities = Capabilities(instruction: Path, skills: Path)

  const AGENTS_MD: Path := ["AGENTS.md"]
  const SOURCE_SKILLS: Path := [".agents", "skills"]

  /** The registered projectors. */
  function Projector(integration: string): Capabilities
    requires integration in {"copilot", "claude-code", "gemini"}
  {
    if integration == "copilot" then Capabilities(["AGENTS.md"], [".agents", "skills"])
    else if integration == "claude-code" then Capabilities(["CLAUDE.md"], [".claude", "skills"])
    else Capabilities(["GEMINI.md"], [".agents", "skills"])
  }

  /** The instruction file and the skills directory of each integration. */
  lemma ProjectorsExactly()
    ensures Projector("copilot") == Capabilities(["AGENTS.md"], [".agents", "skills"])
    ensures Projector("claude-code") == Capabilities(["CLAUDE.md"], [".claude", "skills"])
    ensures Projector("gemini") == Capabilities(["GEMINI.md"], [".agents", "skills"])
  {}

  /** Neither target lies under the other. */
  predicate Apart(caps: Capabilities) { !(caps.instruction <= caps.skills) && !(caps.skills <= caps.instruction) }

  lemma ProjectorsAreApart(integration: string)
    requires integration in {"copilot", "claude-code", "gemini"}
    ensures Apart(Projector(integration))
  {
    var caps := Projector(integration);
    assert caps.instruction[0] != caps.skills[0];
  }

  // ----- the mapping -----

  predicate Relevant(path: Path) { path == AGENTS_MD || SOURCE_SKILLS <= path }

  function Target(path: Path, caps: Capabilities): Path
    requires Relevant(path)
  {
    if path == AGENTS_MD then caps.instruction else caps.skills + path[2..]
  }

  /** `_mapped_paths` of the items so far; a later item of the same target wins. */
  function Mapped(items: seq<Item>, caps: Capabilities): map<Path, Bytes> {
    if items == [] then map[]
    else
      var last := items[|items| - 1];
      var before := Mapped(items[..|items| - 1], caps);
      if Relevant(last.path) then before[Target(last.path, caps) := last.content] else before
  }

  method MappedPaths(items: seq<Item>, caps: Capabilities) returns (mapped: map<Path, Bytes>)
    ensures mapped == Mapped(items, caps)
  {
    mapped := map[];
    for i := 0 to |items|
      invariant mapped == Mapped(items[..i], caps)
    {
      assert items[..i + 1][..i] == items[..i];
      if items[i].path == AGENTS_MD {
        mapped := mapped[caps.instruction := items[i].content];
      } else if SOURCE_SKILLS <= items[i].path {
        mapped := mapped[caps.skills + items[i].path[2..] := items[i].content];
      }
    }
    assert items[..|items|] == items;
  }

  ghost predicate DistinctPaths(items: seq<Item>) {
    forall i, j | 0 <= i < |items| && 0 <= j < |items| && items[i].path == items[j].path :: i == j
  }

  /** Which files agents get, and where: `AGENTS.md` at the top as the instruction file, and everything under
      `.agents/skills`, by its path from there, under the skills directory. */
  lemma TargetsExactly(path: Path, caps: Capabilities)
    ensures Relevant(path) <==> path == ["AGENTS.md"] || exists rest :: path == [".agents", "skills"] + rest
    ensures Relevant(["AGENTS.md"]) && Target(["AGENTS.md"], caps) == caps.instruction
    ensures forall rest ::
      Relevant([".agents", "skills"] + rest) && Target([".agents", "skills"] + rest, caps) == caps.skills + rest
  {
    if SOURCE_SKILLS <= path { assert path == [".agents", "skills"] + path[2..]; }
    forall rest
      ensures Relevant([".agents", "skills"] + rest) && Target([".agents", "skills"] + rest, caps) == caps.skills + rest
    {
      var p := [".agents", "skills"] + rest;
      assert p[2..] == rest && |p| >= 2;
      assert p != AGENTS_MD;
    }
  }

  lemma TargetInjective(p: Path, q: Path, caps: Capabilities)
    requires Relevant(p) && Relevant(q) && Apart(caps) && Target(p, caps) == Target(q, caps)
    ensures p == q
  {
    if p != AGENTS_MD && q != AGENTS_MD {
      assert p[2..] == Target(p, caps)[|caps.skills|..];
      assert q[2..] == Target(q, caps)[|caps.skills|..];
      assert p == SOURCE_SKILLS + p[2..] && q == SOURCE_SKILLS + q[2..];
    }
  }

  /** The mapping holds every relevant item under its target, unchanged, and nothing else. */
  lemma {:induction false} MappedExactly(items: seq<Item>, caps: Capabilities)
    requires DistinctPaths(items) && Apart(caps)
    ensures forall i | 0 <= i < |items| && Relevant(items[i].path) ::
              Target(items[i].path, caps) in Mapped(items, caps)
              && Mapped(items, caps)[Target(items[i].path, caps)] == items[i].content
    ensures forall t | t in Mapped(items, caps) ::
              exists i :: 0 <= i < |items| && Relevant(items[i].path) && t == Target(items[i].path, caps)
  {
    if items != [] {
      var n := |items| - 1;
      MappedExactly(items[..n], caps);
      forall i | 0 <= i < |items| && Relevant(items[i].path)
        ensures Target(items[i].path, caps) in Mapped(items, caps)
        ensures Mapped(items, caps)[Target(items[i].path, caps)] == items[i].content
      {
        if i < n {
          assert items[..n][i] == items[i];
          if Relevant(items[n].path) && Target(items[i].path, caps) == Target(items[n].path, caps) {
            TargetInjective(items[i].path, items[n].path, caps);
          }
        }
      }
      forall t | t in Mapped(items, caps)
        ensures exists i :: 0 <= i < |items| && Relevant(items[i].path) && t == Target(items[i].path, caps)
      {
        if t in Mapped(items[..n], caps) {
          var i :| 0 <= i < n && Relevant(items[..n][i].path) && t == Target(items[..n][i].path, caps);
          assert items[i] == items[..n][i];
        } else {
          assert t == Target(items[n].path, caps);
        }
      }
    }
  }

  // ----- files on disk -----

  /** No file lies under another file. */
  ghost predicate TreeLike(paths: set<Path>) {
    forall p, q | p in paths && q in paths && p <= q :: p == q
  }

  predicate IsDirectory(files: set<Path>, p: Path) { exists q :: q in files && p < q }

  /** A source that was a real directory tree maps to one. */
  lemma MappedIsTreeLike(items: seq<Item>, caps: Capabilities)
    requires DistinctPaths(items) && Apart(caps)
    requires TreeLike(set i | 0 <= i < |items| :: items[i].path)
    ensures TreeLike(Mapped(items, caps).Keys)
  {
    MappedExactly(items, caps);
    var m := Mapped(items, caps);
    var paths := set i | 0 <= i < |items| :: items[i].path;
    forall s, t | s in m && t in m && s <= t ensures s == t {
      var i :| 0 <= i < |items| && Relevant(items[i].path) && s == Target(items[i].path, caps);
      var j :| 0 <= j < |items| && Relevant(items[j].path) && t == Target(items[j].path, caps);
      assert items[i].path in paths && items[j].path in paths;
      TargetsNest(items[i].path, items[j].path, caps);
    }
  }

  /** One target lies under another only where the sources do. */
  lemma TargetsNest(p: Path, q: Path, caps: Capabilities)
    requires Relevant(p) && Relevant(q) && Apart(caps) && Target(p, caps) <= Target(q, caps)
    ensures p <= q
  {
    var s, t := Target(p, caps), Target(q, caps);
    assert p != AGENTS_MD ==> caps.skills <= s;
    assert caps.skills <= s ==> caps.skills <= t;
    if p == AGENTS_MD && q != AGENTS_MD {
      PrefixesCompare(caps.instruction, caps.skills, t);
    } else if p != AGENTS_MD && q != AGENTS_MD {
      SuffixPrefix(caps.skills, p[2..], q[2..]);
      assert p == SOURCE_SKILLS + p[2..] && q == SOURCE_SKILLS + q[2..];
    }
  }

  lemma PrefixesCompare(a: Path, b: Path, t: Path)
    requires a <= t && b <= t
    ensures a <= b || b <= a
  {
    if |a| <= |b| {
      assert a == b[..|a|] by { assert t[..|b|][..|a|] == t[..|a|]; }
    } else {
      assert b == a[..|b|] by { assert t[..|a|][..|b|] == t[..|b|]; }
    }
  }

  lemma SuffixPrefix(root: Path, a: Path, b: Path)
    requires root + a <= root + b
    ensures a <= b
  {
    assert forall i | 0 <= i < |a| :: a[i] == (root + a)[|root| + i] == (root + b)[|root| + i] == b[i];
  }

  datatype Code = MissingPath | ByteMismatch | UnexpectedPath

  datatype Issue = Issue(code: Code, path: Path)

  /** The part of a runtime tree that agents read: what lies at or under the two targets. */
  function View(tree: Tree, caps: Capabilities): map<Path, Bytes> {
    map p | p in tree && (caps.instruction <= p || caps.skills <= p) :: tree[p].content
  }

  lemma FewerAreTreeLike(fewer: set<Path>, paths: set<Path>)
    requires fewer <= paths
    ensures TreeLike(paths) ==> TreeLike(fewer)
  {}

  class Runtime {
    var tree: Tree

    constructor ()
      ensures tree == map[]
    {
      tree := map[];
    }

    /** Parents are made as needed; a file in the way, or a directory at the place itself, is an error. */
    method WriteFile(p: Path, content: Bytes, faults: bool) returns (ok: bool)
      modifies this
      ensures ok ==> p in tree && tree[p].content == content && tree.Keys == old(tree.Keys) + {p}
      ensures forall q | q in old(tree) && q != p :: q in tree && tree[q] == old(tree[q])
      ensures !ok ==> tree == old(tree)
      ensures ok ==> forall q | q in old(tree) :: !(q < p) && !(p < q)
      ensures !faults && TreeLike(old(tree.Keys) + {p}) ==> ok
    {
      if exists q :: q in tree.Keys && q < p { return false; }
      if IsDirectory(tree.Keys, p) { return false; }
      ok := true;
      if faults { ok := *; }
      if ok {
        var mode: nat := *;
        tree := tree[p := Stored(content, mode)];
      }
    }

    /** `project` into a directory that is empty so far. */
    method Project(items: seq<Item>, caps: Capabilities, faults: bool) returns (ok: bool)
      requires tree == map[]
      modifies this
      ensures ok ==> tree.Keys == Mapped(items, caps).Keys
      ensures ok ==> forall p | p in tree :: tree[p].content == Mapped(items, caps)[p]
      ensures ok ==> TreeLike(Mapped(items, caps).Keys)
      ensures !faults && TreeLike(Mapped(items, caps).Keys) ==> ok
    {
      var mapped := MappedPaths(items, caps);
      var pending := mapped.Keys;
      ok := true;
      while pending != {}
        invariant pending <= mapped.Keys && tree.Keys == mapped.Keys - pending && ok
        invariant forall p | p in tree :: tree[p].content == mapped[p]
        invariant TreeLike(tree.Keys)
        decreases pending
      {
        var p :| p in pending;
        FewerAreTreeLike(tree.Keys + {p}, mapped.Keys);
        ghost var before := tree;
        ok := WriteFile(p, mapped[p], faults);
        if !ok { return; }
        pending := pending - {p};
        assert forall q | q in tree && q != p :: q in before;
      }
    }

    /** `validate_output`: the expected files one by one, then whatever else lies at the two targets. */
    method ValidateOutput(items: seq<Item>, caps: Capabilities) returns (issues: seq<Issue>)
      ensures issues == [] <==> Complies(tree, items, caps)
      ensures forall x | x in issues :: Justified(x, tree, items, caps)
    {
      var expected := MappedPaths(items, caps);
      issues := [];
      var pending := expected.Keys;
      while pending != {}
        invariant pending <= expected.Keys
        invariant issues == [] <==>
          forall p | p in expected && p !in pending :: p in tree && tree[p].content == expected[p]
        invariant forall x | x in issues :: Justified(x, tree, items, caps)
        decreases pending
      {
        var p :| p in pending;
        pending := pending - {p};
        if p !in tree {
          issues := issues + [Issue(MissingPath, p)];
        } else if tree[p].content != expected[p] {
          issues := issues + [Issue(ByteMismatch, p)];
        }
      }
      var actual := set p | p in tree && (caps.instruction <= p || caps.skills <= p);
      ghost var unexpected := actual - expected.Keys;
      var extra := actual - expected.Keys;
      while extra != {}
        invariant extra <= unexpected
        invariant issues == [] <==>
          (forall p | p in expected :: p in tree && tree[p].content == expected[p]) && extra == unexpected
        invariant forall x | x in issues :: Justified(x, tree, items, caps)
        decreases extra
      {
        var p :| p in extra;
        extra := extra - {p};
        issues := issues + [Issue(UnexpectedPath, p)];
      }
    }
  }

  ghost predicate Complies(tree: Tree, items: seq<Item>, caps: Capabilities) {
    && (forall p | p in Mapped(items, caps) :: p in tree && tree[p].content == Mapped(items, caps)[p])
    && forall p | p in tree && (caps.instruction <= p || caps.skills <= p) :: p in Mapped(items, caps)
  }

  ghost predicate Justified(x: Issue, tree: Tree, items: seq<Item>, caps: Capabilities) {
    var m := Mapped(items, caps);
    match x.code
    case MissingPath => x.path in m && x.path !in tree
    case ByteMismatch => x.path in m && x.path in tree && tree[x.path].content != m[x.path]
    case UnexpectedPath => x.path in tree && x.path !in m && x.path in View(tree, caps)
  }

  /** Validation passes exactly when what agents read is the mapped source, no more and no less. */
  lemma CompliesExactly(tree: Tree, items: seq<Item>, caps: Capabilities)
    ensures Complies(tree, items, caps) <==> View(tree, caps) == Mapped(items, caps)
  {
    MappedUnderTargets(items, caps);
    var v, m := View(tree, caps), Mapped(items, caps);
    if Complies(tree, items, caps) {
      assert forall p :: p in v <==> p in m;
      assert v == m;
    }
    if v == m {
      forall p | p in m ensures p in tree && tree[p].content == m[p] { assert p in v; }
      forall p | p in tree && (caps.instruction <= p || caps.skills <= p) ensures p in m { assert p in v; }
    }
  }

  lemma {:induction false} MappedUnderTargets(items: seq<Item>, caps: Capabilities)
    ensures forall p | p in Mapped(items, caps) :: caps.instruction <= p || caps.skills <= p
  {
    if items != [] { MappedUnderTargets(items[..|items| - 1], caps); }
  }

  /** A projection complies: the two methods agree on every source. */
  lemma ProjectedComplies(tree: Tree, items: seq<Item>, caps: Capabilities)
    requires tree.Keys == Mapped(items, caps).Keys
    requires forall p | p in tree :: tree[p].content == Mapped(items, caps)[p]
    ensures Complies(tree, items, caps) && View(tree, caps) == Mapped(items, caps)
  {
    CompliesExactly(tree, items, caps);
  }
}
