/** The cache of compiled blueprints (agency/blueprints/cache.py:170-304): whatever was in an entry before, what comes
    back agrees with a direct projection of the source. */
module CompilationCache {
  import opened Bytes
  import opened MemoryDisk
  import opened Projection

  datatype Ref = Ref(integration: string, version: string, digest: Bytes)

  /** A manifest as text: the deterministic print of a reference and an inventory, another spelling of the same, or
      something that does not decode to one.  An inventory lists path, size, hash and mode, so it is the tree itself. */
  datatype Manifest = Printed(ref: Ref, inventory: Tree) | Respelled(ref: Ref, inventory: Tree) | Garbage

  datatype Entry = Entry(runtime: Option<Tree>, manifest: Option<Manifest>)

  /** What `validate_artifact` accepts. */
  ghost predicate Valid(e: Entry, ref: Ref, items: seq<Item>, caps: Capabilities) {
    && e.runtime.Some? && View(e.runtime.value, caps) == Mapped(items, caps)
    && e.manifest == Some(Printed(ref, e.runtime.value))
  }

  datatype Result = Compiled(entry: Entry) | Raised

  class Cache {
    var entries: map<Ref, Entry>
    var quarantine: seq<Entry>

    /** `validate_artifact`; a missing runtime directory fails at the inventory at the latest. */
    method ValidateArtifact(entry: Option<Entry>, ref: Ref, items: seq<Item>, caps: Capabilities) returns (ok: bool)
      ensures ok <==> entry.Some? && Valid(entry.value, ref, items, caps)
    {
      if entry.None? || entry.value.manifest.None? { return false; }
      var runtime := new Runtime();
      if entry.value.runtime.Some? { runtime.tree := entry.value.runtime.value; }
      var issues := runtime.ValidateOutput(items, caps);
      CompliesExactly(runtime.tree, items, caps);
      if issues != [] { return false; }
      if entry.value.runtime.None? { return false; }
      var manifest := entry.value.manifest.value;
      if manifest.Garbage? || manifest.ref != ref || manifest.inventory != entry.value.runtime.value { return false; }
      return manifest.Printed?;
    }

    /** Projection, validation and manifest of a fresh temporary directory. */
    method Build(ref: Ref, items: seq<Item>, caps: Capabilities, faults: bool) returns (r: Result)
      ensures r.Compiled? ==> Valid(r.entry, ref, items, caps) && r.entry.runtime.value.Keys == Mapped(items, caps).Keys
      ensures !faults && TreeLike(Mapped(items, caps).Keys) ==> r.Compiled?
    {
      var runtime := new Runtime();
      var ok := runtime.Project(items, caps, faults);
      if !ok { return Raised; }
      ProjectedComplies(runtime.tree, items, caps);
      var issues := runtime.ValidateOutput(items, caps);
      if issues != [] { return Raised; }
      if faults { ok := *; }
      if !ok { return Raised; }
      var entry := Entry(Some(runtime.tree), Some(Printed(ref, runtime.tree)));
      ok := ValidateArtifact(Some(entry), ref, items, caps);
      if !ok { return Raised; }
      return Compiled(entry);
    }

    /** `ensure_compiled`.  `left` is what the entry holds once the lock is taken: until then other processes, and
        anybody else, may leave anything there.  An invalid one is moved aside, not dropped. */
    method EnsureCompiled(ref: Ref, items: seq<Item>, caps: Capabilities, left: Option<Entry>, faults: bool)
        returns (r: Result)
      modifies this`entries, this`quarantine
      ensures entries - {ref} == old(entries) - {ref}
      ensures !faults && TreeLike(Mapped(items, caps).Keys) ==> r.Compiled?
      ensures
        if old(Found(ref)).Some? && Valid(old(Found(ref)).value, ref, items, caps)
        then r == Compiled(old(entries)[ref]) && entries == old(entries) && quarantine == old(quarantine)
        else if left.Some? && Valid(left.value, ref, items, caps)
        then r == Compiled(left.value) && Found(ref) == left && quarantine == old(quarantine)
        else
          var aside := if left.Some? then [left.value] else [];
          if r.Compiled?
          then Found(ref) == Some(r.entry) && Valid(r.entry, ref, items, caps) && quarantine == old(quarantine) + aside
          else || (Found(ref).None? && quarantine == old(quarantine) + aside)
               || (Found(ref) == left && quarantine == old(quarantine))
    {
      var ok := ValidateArtifact(Found(ref), ref, items, caps);
      if ok { return Compiled(entries[ref]); }
      entries := if left.Some? then entries[ref := left.value] else entries - {ref};
      ok := ValidateArtifact(Found(ref), ref, items, caps);
      if ok { return Compiled(entries[ref]); }
      if ref in entries {
        ok := true;
        if faults { ok := *; }
        if !ok { return Raised; }
        quarantine := quarantine + [entries[ref]];
        entries := entries - {ref};
      }
      r := Build(ref, items, caps, faults);
      if r.Raised? { return; }
      if faults { ok := *; } else { ok := true; }
      if !ok { return Raised; }
      entries := entries[ref := r.entry];
      ok := ValidateArtifact(Found(ref), ref, items, caps);
      if !ok { return Raised; }
    }

    function Found(ref: Ref): Option<Entry>
      reads this`entries
    {
      if ref in entries then Some(entries[ref]) else None
    }
  }

  /** What the cache shows agents is exactly the instruction file and the skills of the source. */
  lemma ServedIsTheSource(e: Entry, ref: Ref, items: seq<Item>, integration: string)
    requires integration in {"copilot", "claude-code", "gemini"} && DistinctPaths(items)
    requires Valid(e, ref, items, Projector(integration))
    ensures forall i | 0 <= i < |items| && Relevant(items[i].path) ::
              var t := Target(items[i].path, Projector(integration));
              t in e.runtime.value && e.runtime.value[t].content == items[i].content
    ensures forall t | t in e.runtime.value ::
              Projector(integration).instruction <= t || Projector(integration).skills <= t ==>
                exists i :: 0 <= i < |items| && Relevant(items[i].path) &&
                  t == Target(items[i].path, Projector(integration))
  {
    var caps := Projector(integration);
    ProjectorsAreApart(integration);
    MappedExactly(items, caps);
    var v := View(e.runtime.value, caps);
    forall i | 0 <= i < |items| && Relevant(items[i].path)
      ensures
        var t := Target(items[i].path, caps);
        t in e.runtime.value && e.runtime.value[t].content == items[i].content
    {
      assert Target(items[i].path, caps) in v;
    }
    forall t | t in e.runtime.value && (caps.instruction <= t || caps.skills <= t)
      ensures exists i :: 0 <= i < |items| && Relevant(items[i].path) && t == Target(items[i].path, caps)
    {
      assert t in v;
    }
  }

  /** A file beside the two targets is not looked at: an entry that lists it in its manifest stays in use as it is. */
  lemma StrayFileIsAccepted(e: Entry, ref: Ref, items: seq<Item>, caps: Capabilities, p: Path, f: Stored)
    requires Valid(e, ref, items, caps) && p !in e.runtime.value && !(caps.instruction <= p) && !(caps.skills <= p)
    ensures
      var more := e.runtime.value[p := f];
      Valid(Entry(Some(more), Some(Printed(ref, more))), ref, items, caps)
  {
    var more := e.runtime.value[p := f];
    assert View(more, caps) == View(e.runtime.value, caps);
  }
}
