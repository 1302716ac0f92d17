/** Moving an agent instance with its memories from one group to another (agency/instances.py:208-328, 500-657,
    agency/configuration/store.py:126-147). */
module InstanceMove {
  import opened Bytes
  import opened MemoryFiles
  import opened MemoryDisk
  import opened Selectors
  import opened Execution

  datatype Routine = Routine(id: string, memory: Option<Selector>)

  /** One agent of the config. */
  datatype Entry = Entry(name: string, defaultMemory: Option<Selector>, routines: seq<Routine>)

  type Groups = map<string, seq<Entry>>

  predicate UniqueNames(es: seq<Entry>) {
    forall i, j | 0 <= i < |es| && 0 <= j < |es| && es[i].name == es[j].name :: i == j
  }

  /** `_validate_memory_selector` (agency/configuration/models.py:481-525), but for the channel being declared. */
  predicate ValidSelector(sel: Option<Selector>, allowRoutine: bool) {
    sel.Some? ==>
      && (sel.value.scope.RoutineScope? ==> allowRoutine)
      && (sel.value.scope.ChannelScope? <==> sel.value.channel.Some?)
  }

  /** Only a routine may use a memory of routine scope (agency/configuration/models.py:805-856). */
  predicate ValidEntry(e: Entry) {
    ValidSelector(e.defaultMemory, false) && forall r | r in e.routines :: ValidSelector(r.memory, true)
  }

  predicate ValidEntries(es: seq<Entry>) { UniqueNames(es) && forall e | e in es :: ValidEntry(e) }

  /** A config that was parsed.  Its revision is identified with its content. */
  predicate ValidConfig(groups: Groups) {
    forall g | g in groups :: ValidEntries(groups[g])
  }

  predicate Lists(es: seq<Entry>, name: string) {
    exists i :: 0 <= i < |es| && es[i].name == name
  }

  // ----- the change of the config -----

  function IndexOf(es: seq<Entry>, name: string): (i: nat)
    ensures i <= |es| && (i < |es| <==> Lists(es, name))
    ensures i < |es| ==> es[i].name == name
    ensures forall j | 0 <= j < i :: es[j].name != name
  {
    if es == [] then 0
    else if es[0].name == name then 0
    else
      assert forall j | 0 < j < |es| :: es[j] == es[1..][j - 1];
      1 + IndexOf(es[1..], name)
  }

  /** The agent leaves the one list and joins the end of the other. */
  function Transferred(groups: Groups, source: string, target: string, name: string): Option<Groups> {
    if source !in groups || target !in groups || Lists(groups[target], name) || !Lists(groups[source], name) then None
    else
      var es := groups[source];
      var i := IndexOf(es, name);
      Some(groups[source := es[..i] + es[i + 1..]][target := groups[target] + [es[i]]])
  }

  /** The decoded config a patch works on. */
  class Raw {
    var groups: Groups

    constructor (groups: Groups)
      ensures this.groups == groups
    {
      this.groups := groups;
    }

    /** `_apply_move_patch` */
    method ApplyMovePatch(source: string, target: string, name: string) returns (ok: bool)
      modifies this
      ensures ok == Transferred(old(groups), source, target, name).Some?
      ensures groups == if ok then Transferred(old(groups), source, target, name).value else old(groups)
    {
      if source !in groups || target !in groups { return false; }
      var i := 0;
      while i < |groups[target]|
        invariant groups == old(groups) && 0 <= i <= |groups[target]|
        invariant forall j | 0 <= j < i :: groups[target][j].name != name
      {
        if groups[target][i].name == name { return false; }
        i := i + 1;
      }
      i := 0;
      while i < |groups[source]|
        invariant groups == old(groups) && 0 <= i <= |groups[source]|
        invariant forall j | 0 <= j < i :: groups[source][j].name != name
      {
        var es := groups[source];
        if es[i].name == name {
          assert IndexOf(es, name) == i;
          groups := groups[source := es[..i] + es[i + 1..]];
          groups := groups[target := groups[target] + [es[i]]];
          return true;
        }
        i := i + 1;
      }
      return false;
    }
  }

  lemma CutOne(es: seq<Entry>, i: nat)
    requires i < |es|
    ensures multiset(es[..i] + es[i + 1..]) + multiset{es[i]} == multiset(es)
  {
    assert es == es[..i] + [es[i]] + es[i + 1..];
  }

  function Shift(i: nat, j: nat): nat { if j < i then j else j + 1 }

  lemma CutAt(es: seq<Entry>, i: nat, j: nat)
    requires i < |es| && j < |es| - 1
    ensures (es[..i] + es[i + 1..])[j] == es[Shift(i, j)]
  {}

  lemma CutKeepsValid(es: seq<Entry>, i: nat)
    requires ValidEntries(es) && i < |es|
    ensures ValidEntries(es[..i] + es[i + 1..])
  {
    var rest := es[..i] + es[i + 1..];
    forall j, k | 0 <= j < |rest| && 0 <= k < |rest| && rest[j].name == rest[k].name ensures j == k {
      CutAt(es, i, j);
      CutAt(es, i, k);
      assert Shift(i, j) == Shift(i, k);
    }
    forall e | e in rest ensures ValidEntry(e) { assert e in es; }
  }

  lemma CutLists(es: seq<Entry>, i: nat)
    requires UniqueNames(es) && i < |es|
    ensures !Lists(es[..i] + es[i + 1..], es[i].name)
  {
    var rest := es[..i] + es[i + 1..];
    forall j | 0 <= j < |rest| ensures rest[j].name != es[i].name {
      CutAt(es, i, j);
      assert Shift(i, j) != i;
    }
  }

  lemma WithoutOne(es: seq<Entry>, name: string)
    requires ValidEntries(es) && Lists(es, name)
    ensures
      var i := IndexOf(es, name);
      var rest := es[..i] + es[i + 1..];
      ValidEntries(rest) && !Lists(rest, name) && multiset(rest) + multiset{es[i]} == multiset(es)
  {
    var i := IndexOf(es, name);
    CutOne(es, i);
    CutKeepsValid(es, i);
    CutLists(es, i);
  }

  lemma WithOneMore(es: seq<Entry>, e: Entry)
    requires ValidEntries(es) && ValidEntry(e) && !Lists(es, e.name)
    ensures ValidEntries(es + [e]) && Lists(es + [e], e.name) && multiset(es + [e]) == multiset(es) + multiset{e}
  {
    assert (es + [e])[|es|].name == e.name;
    assert forall m | 0 <= m < |es| :: es[m].name != e.name;
  }

  /** The group an agent leaves. */
  lemma TransferSource(groups: Groups, source: string, target: string, name: string)
    requires ValidConfig(groups) && Transferred(groups, source, target, name).Some?
    ensures
      var es, left := groups[source], Transferred(groups, source, target, name).value[source];
      && source != target && ValidEntries(left) && !Lists(left, name)
      && multiset(left) + multiset{es[IndexOf(es, name)]} == multiset(es)
  {
    WithoutOne(groups[source], name);
  }

  /** The group it joins. */
  lemma TransferTarget(groups: Groups, source: string, target: string, name: string)
    requires ValidConfig(groups) && Transferred(groups, source, target, name).Some?
    ensures
      var es, joined := groups[source], Transferred(groups, source, target, name).value[target];
      && ValidEntries(joined) && Lists(joined, name)
      && multiset(joined) == multiset(groups[target]) + multiset{es[IndexOf(es, name)]}
  {
    var moved := groups[source][IndexOf(groups[source], name)];
    assert moved in groups[source] && ValidEntries(groups[source]) && ValidEntries(groups[target]);
    WithOneMore(groups[target], moved);
  }

  lemma TransferOthers(groups: Groups, source: string, target: string, name: string)
    requires Transferred(groups, source, target, name).Some?
    ensures
      var after := Transferred(groups, source, target, name).value;
      after.Keys == groups.Keys && forall g | g in groups && g != source && g != target :: after[g] == groups[g]
  {}

  /** No agent is lost, duplicated or renamed, and the config stays valid. */
  lemma TransferConserves(groups: Groups, source: string, target: string, name: string)
    requires ValidConfig(groups) && Transferred(groups, source, target, name).Some?
    ensures
      var after := Transferred(groups, source, target, name).value;
      && source != target && after.Keys == groups.Keys && ValidConfig(after)
      && multiset(after[source]) + multiset(after[target]) == multiset(groups[source]) + multiset(groups[target])
      && (forall g | g in groups && g != source && g != target :: after[g] == groups[g])
      && Lists(after[target], name) && !Lists(after[source], name)
  {
    TransferSource(groups, source, target, name);
    TransferTarget(groups, source, target, name);
    TransferOthers(groups, source, target, name);
    forall g | g in Transferred(groups, source, target, name).value
      ensures ValidEntries(Transferred(groups, source, target, name).value[g])
    {
      assert g != source && g != target ==> ValidEntries(groups[g]);
    }
  }

  // ----- the memories an agent owns -----

  datatype Spec = Spec(selector: Selector, routine: Option<string>)

  predicate OwnedScope(scope: Scope) { scope.AgentScope? || scope.RoutineScope? }

  /** What a routine's jobs use: its own memory, else the agent's default, else one of the run alone. */
  predicate UsedBy(r: Routine, default: Option<Selector>, selector: Selector) {
    || r.memory == Some(selector)
    || (r.memory.None? && default == Some(selector))
    || (r.memory.None? && default.None? && selector == Selector(RunScope, None))
  }

  /** The memories that are the agent's own: its default of agent scope, and those of agent or routine scope that its
      routines use. */
  ghost predicate Owns(agent: Entry, selector: Selector, routine: Option<string>) {
    || (agent.defaultMemory == Some(selector) && selector.scope in {AgentScope, RoutineScope} && routine.None?)
    || OwnedByRoutine(agent.routines, agent.defaultMemory, selector, routine)
  }

  ghost predicate OwnedByRoutine(routines: seq<Routine>, default: Option<Selector>, selector: Selector,
                                 routine: Option<string>) {
    exists r :: r in routines && UsedBy(r, default, selector)
      && ((selector.scope == AgentScope && routine.None?) || (selector.scope == RoutineScope && routine == Some(r.id)))
  }

  function RoutineSpecs(routines: seq<Routine>, default: Option<Selector>): (specs: seq<Spec>)
    ensures forall s | s in specs :: OwnedScope(s.selector.scope)
  {
    if routines == [] then [] else
      var selected := EffectiveMemory(None, routines[0].memory, default);
      (if !OwnedScope(selected.scope) then []
       else [Spec(selected, if selected.scope.RoutineScope? then Some(routines[0].id) else None)])
      + RoutineSpecs(routines[1..], default)
  }

  lemma {:induction false} RoutineSpecsExactly(routines: seq<Routine>, default: Option<Selector>, s: Spec)
    ensures s in RoutineSpecs(routines, default) <==> OwnedByRoutine(routines, default, s.selector, s.routine)
  {
    if routines != [] {
      RoutineSpecsExactly(routines[1..], default, s);
      assert forall r :: r in routines <==> r == routines[0] || r in routines[1..];
      assert UsedBy(routines[0], default, s.selector) <==>
        s.selector == EffectiveMemory(None, routines[0].memory, default);
    }
  }

  /** `_owned_memory_specs` */
  function OwnedSpecs(agent: Entry): (specs: seq<Spec>)
    ensures forall s | s in specs :: OwnedScope(s.selector.scope)
  {
    (if agent.defaultMemory.Some? && OwnedScope(agent.defaultMemory.value.scope)
     then [Spec(agent.defaultMemory.value, None)] else [])
    + RoutineSpecs(agent.routines, agent.defaultMemory)
  }

  /** What the move lists as owned is exactly that. */
  lemma OwnedSpecsExactly(agent: Entry, s: Spec)
    ensures s in OwnedSpecs(agent) <==> Owns(agent, s.selector, s.routine)
  {
    RoutineSpecsExactly(agent.routines, agent.defaultMemory, s);
  }

  /** A memory under its old and its new name. */
  datatype Pair = Pair(source: string, target: string)

  function ContextIn(group: string, agent: string, s: Spec): Context {
    Context("instance-preview", group, agent, s.routine, {})
  }

  function PairOf(s: Spec, agent: string, source: string, target: string): Option<Pair> {
    var a, b := Resolve(s.selector, ContextIn(source, agent, s)), Resolve(s.selector, ContextIn(target, agent, s));
    if a.Resolved? && b.Resolved? then Some(Pair(a.canonical, b.canonical)) else None
  }

  /** `_resolve_owned_memory_pairs`; the order of the result, by hash, is not modelled. */
  function OwnedPairs(specs: seq<Spec>, agent: string, source: string, target: string): (r: Option<seq<Pair>>)
    ensures r.Some? ==> forall p | p in r.value :: exists s :: s in specs && PairOf(s, agent, source, target) == Some(p)
    ensures r.Some? ==>
      forall s | s in specs ::
        PairOf(s, agent, source, target).Some? && PairOf(s, agent, source, target).value in r.value
    ensures r.Some? ==> forall i, j | 0 <= i < j < |r.value| :: r.value[i] != r.value[j]
    ensures r.None? <==> exists s :: s in specs && PairOf(s, agent, source, target).None?
  {
    if specs == [] then Some([]) else
      var n := |specs| - 1;
      assert forall s :: s in specs <==> s in specs[..n] || s == specs[n];
      var rest, p := OwnedPairs(specs[..n], agent, source, target), PairOf(specs[n], agent, source, target);
      if rest.None? || p.None? then None
      else if p.value in rest.value then rest else Some(rest.value + [p.value])
  }

  predicate Separate(pairs: seq<Pair>) {
    && (forall i, j | 0 <= i < |pairs| && 0 <= j < |pairs| :: pairs[i].source != pairs[j].target)
    && forall i, j | 0 <= i < j < |pairs| :: pairs[i].target != pairs[j].target
  }

  lemma OnePair(s: Spec, t: Spec, agent: string, source: string, target: string)
    requires source != target && OwnedScope(s.selector.scope) && OwnedScope(t.selector.scope)
    requires PairOf(s, agent, source, target).Some? && PairOf(t, agent, source, target).Some?
    ensures PairOf(s, agent, source, target).value.source != PairOf(t, agent, source, target).value.target
    ensures PairOf(s, agent, source, target).value.target == PairOf(t, agent, source, target).value.target ==>
              PairOf(s, agent, source, target) == PairOf(t, agent, source, target)
  {
    SameMemoryExactly(s.selector, ContextIn(source, agent, s), t.selector, ContextIn(target, agent, t));
    SameMemoryExactly(s.selector, ContextIn(target, agent, s), t.selector, ContextIn(target, agent, t));
    SameMemoryExactly(s.selector, ContextIn(source, agent, s), t.selector, ContextIn(source, agent, t));
  }

  /** The new names are all different, and none of them is an old name. */
  lemma OwnedPairsAreSeparate(specs: seq<Spec>, agent: string, source: string, target: string)
    requires source != target && forall s | s in specs :: OwnedScope(s.selector.scope)
    requires OwnedPairs(specs, agent, source, target).Some?
    ensures Separate(OwnedPairs(specs, agent, source, target).value)
  {
    var pairs := OwnedPairs(specs, agent, source, target).value;
    forall i, j | 0 <= i < |pairs| && 0 <= j < |pairs|
      ensures pairs[i].source != pairs[j].target && (i < j ==> pairs[i].target != pairs[j].target)
    {
      assert pairs[i] in pairs && pairs[j] in pairs;
      var s :| s in specs && PairOf(s, agent, source, target) == Some(pairs[i]);
      var t :| t in specs && PairOf(t, agent, source, target) == Some(pairs[j]);
      OnePair(s, t, agent, source, target);
    }
  }

  /** Every memory an agent of a valid config owns can be resolved, in every group. */
  lemma OwnedMemoriesResolve(agent: Entry, name: string, source: string, target: string)
    requires ValidEntry(agent)
    ensures OwnedPairs(OwnedSpecs(agent), name, source, target).Some?
  {
    RoutineSpecsResolve(agent.routines, agent.defaultMemory);
    forall s | s in OwnedSpecs(agent) ensures PairOf(s, name, source, target).Some? {
      assert Resolvable(s.selector, ContextIn(source, name, s)) && Resolvable(s.selector, ContextIn(target, name, s));
    }
  }

  lemma {:induction false} RoutineSpecsResolve(routines: seq<Routine>, default: Option<Selector>)
    requires ValidSelector(default, false) && forall r | r in routines :: ValidSelector(r.memory, true)
    ensures forall s | s in RoutineSpecs(routines, default) ::
              WellShaped(s.selector) && (s.selector.scope.RoutineScope? ==> s.routine.Some?)
  {
    if routines != [] {
      assert routines[0] in routines;
      RoutineSpecsResolve(routines[1..], default);
    }
  }

  // ----- the move -----

  datatype Block = TargetExists | ActiveJobs | DestinationExists | SourceChanged

  datatype Outcome =
    | Done
    | AlreadyBlocked
    | ConfigChanged
    | Blocked(reason: Block)
    | Raised
    | RollbackFailed(left: set<string>)

  /** What `preview_move` handed out; `revisions` goes with the sources in order. */
  datatype Preview = Preview(source: string, target: string, agent: string, copy: bool, blocked: bool,
                             config: Groups, revisions: seq<Option<Bytes>>)

  ghost function RevisionIn(memories: map<string, Files>, m: string): Option<Bytes> {
    if m in memories then Some(Revision(memories[m])) else None
  }

  /** What a destination holds after a move. */
  function Destination(memories: map<string, Files>, p: Pair, copy: bool): Files {
    if copy && p.source in memories then memories[p.source] else Ensured(map[])
  }

  ghost predicate Untouched(before: map<string, Files>, after: map<string, Files>, except: set<string>) {
    forall m | m !in except :: (m in before <==> m in after) && (m in before ==> after[m] == before[m])
  }

  function Targets(pairs: seq<Pair>): set<string> { set p | p in pairs :: p.target }

  /** The memories the move holds the locks of. */
  function Locked(pairs: seq<Pair>): set<string> { Targets(pairs) + set p | p in pairs :: p.source }

  ghost predicate Kept(before: map<string, Files>, after: map<string, Files>, on: set<string>, except: set<string>) {
    forall m | m in on && m !in except :: (m in before <==> m in after) && (m in before ==> after[m] == before[m])
  }

  ghost predicate Delivered(before: map<string, Files>, after: map<string, Files>, pairs: seq<Pair>, copy: bool) {
    forall i | 0 <= i < |pairs| ::
      pairs[i].target in after && after[pairs[i].target] == Destination(before, pairs[i], copy)
  }

  lemma NotCreatedYet(pairs: seq<Pair>, created: seq<string>, i: nat)
    requires Separate(pairs) && i < |pairs| && |created| == i
    requires forall k | 0 <= k < i :: created[k] == pairs[k].target
    ensures pairs[i].target !in created && pairs[i].source !in created
    ensures forall c | c in created :: c in Targets(pairs)
    ensures pairs[i].target in Targets(pairs)
  {
    assert pairs[i] in pairs;
    forall c | c in created ensures c in Targets(pairs) {
      var k :| 0 <= k < i && created[k] == c;
      assert pairs[k] in pairs;
    }
  }

  lemma UntouchedGrows(start: map<string, Files>, before: map<string, Files>, after: map<string, Files>,
                       created: seq<string>, target: string)
    requires Untouched(start, before, set c | c in created) && Untouched(before, after, {target})
    ensures Untouched(start, after, set c | c in created + [target])
  {
    var wider := set c | c in created + [target];
    forall m | m !in wider ensures m !in created && m != target {
      assert target in created + [target];
      assert m in created ==> m in created + [target];
    }
  }

  lemma DeliveredGrows(start: map<string, Files>, before: map<string, Files>, after: map<string, Files>,
                       pairs: seq<Pair>, i: nat, copy: bool)
    requires Separate(pairs) && i < |pairs|
    requires Delivered(start, before, pairs[..i], copy) && Untouched(before, after, {pairs[i].target})
    requires pairs[i].target in after && after[pairs[i].target] == Destination(start, pairs[i], copy)
    ensures Delivered(start, after, pairs[..i + 1], copy)
  {
    forall k | 0 <= k < i + 1
      ensures pairs[k].target in after && after[pairs[k].target] == Destination(start, pairs[k], copy)
    {
      if k < i { assert pairs[..i][k] == pairs[k]; }
    }
  }

  function AgentIn(es: seq<Entry>, name: string): (e: Entry)
    requires Lists(es, name)
    ensures e in es && e.name == name
  {
    es[IndexOf(es, name)]
  }

  ghost predicate AsPreviewed(memories: map<string, Files>, pairs: seq<Pair>, revisions: seq<Option<Bytes>>) {
    |revisions| == |pairs| && forall i | 0 <= i < |pairs| :: revisions[i] == RevisionIn(memories, pairs[i].source)
  }

  ghost predicate SourcesReadable(memories: map<string, Files>, pairs: seq<Pair>) {
    forall i | 0 <= i < |pairs| && pairs[i].source in memories :: Readable(memories[pairs[i].source])
  }

  /** What the memories must be like for the move to go through. */
  ghost predicate MayMove(memories: map<string, Files>, pairs: seq<Pair>, revisions: seq<Option<Bytes>>) {
    && (forall p | p in pairs :: p.target !in memories)
    && SourcesReadable(memories, pairs) && AsPreviewed(memories, pairs, revisions)
  }

  predicate Names(preview: Preview) {
    && preview.source in preview.config && preview.target in preview.config
    && Lists(preview.config[preview.source], preview.agent)
  }

  function Owned(preview: Preview): Option<seq<Pair>>
    requires Names(preview)
  {
    var agent := AgentIn(preview.config[preview.source], preview.agent);
    OwnedPairs(OwnedSpecs(agent), preview.agent, preview.source, preview.target)
  }

  /** The answer that is clear before any memory is looked at. */
  function Refusal(preview: Preview, config: Groups, activeJobs: bool): Option<Outcome> {
    if preview.blocked then Some(AlreadyBlocked)
    else if config != preview.config then Some(ConfigChanged)
    else if !Names(preview) then Some(Raised)
    else if Lists(config[preview.target], preview.agent) then Some(Blocked(TargetExists))
    else if activeJobs then Some(Blocked(ActiveJobs))
    else None
  }

  /** The pairs of the agent; in a valid config there always are some, or none to move. */
  function PairsOf(preview: Preview): (pairs: seq<Pair>)
    requires Names(preview) && ValidConfig(preview.config)
    ensures Owned(preview) == Some(pairs)
  {
    var agent := AgentIn(preview.config[preview.source], preview.agent);
    OwnedMemoriesResolve(agent, preview.agent, preview.source, preview.target);
    Owned(preview).value
  }

  /** The name of an owned memory under a group. */
  function NameUnder(group: string, agent: string, selector: Selector, routine: Option<string>): Resolution {
    Resolve(selector, Context("instance-preview", group, agent, routine, {}))
  }

  /** What the agent uses as its own memory under the new group is what it used under the old one, or blank. */
  ghost predicate TakenAlong(preview: Preview, before: map<string, Files>, after: map<string, Files>,
                             selector: Selector, routine: Option<string>) {
    var was := NameUnder(preview.source, preview.agent, selector, routine);
    var now := NameUnder(preview.target, preview.agent, selector, routine);
    && was.Resolved? && now.Resolved? && was.canonical != now.canonical
    && now.canonical !in before && now.canonical in after
    && after[now.canonical] ==
         (if preview.copy && was.canonical in before then before[was.canonical] else Ensured(map[]))
    && (was.canonical in after <==> was.canonical in before)
    && (was.canonical in before ==> after[was.canonical] == before[was.canonical])
  }

  /** Every memory the agent owns is taken along; the sources are as previewed and unchanged. */
  ghost predicate MovedMemories(preview: Preview, before: map<string, Files>, after: map<string, Files>) {
    && Names(preview) && ValidConfig(preview.config)
    && var pairs := PairsOf(preview);
       && Kept(before, after, Locked(pairs), Targets(pairs))
       && AsPreviewed(before, pairs, preview.revisions)
       && forall selector, routine | Owns(AgentIn(preview.config[preview.source], preview.agent), selector, routine) ::
            TakenAlong(preview, before, after, selector, routine)
  }

  /** It is enough that the pairs are delivered. */
  lemma PairsTakeAlong(preview: Preview, before: map<string, Files>, after: map<string, Files>, selector: Selector,
                       routine: Option<string>)
    requires Names(preview) && ValidConfig(preview.config) && preview.source != preview.target
    requires Owns(AgentIn(preview.config[preview.source], preview.agent), selector, routine)
    requires
      var pairs := PairsOf(preview);
      && Separate(pairs) && Delivered(before, after, pairs, preview.copy)
      && Kept(before, after, Locked(pairs), Targets(pairs)) && forall p | p in pairs :: p.target !in before
    ensures TakenAlong(preview, before, after, selector, routine)
  {
    var agent := AgentIn(preview.config[preview.source], preview.agent);
    var s := Spec(selector, routine);
    OwnedSpecsExactly(agent, s);
    var p := PairOf(s, preview.agent, preview.source, preview.target).value;
    var pairs := PairsOf(preview);
    var i :| 0 <= i < |pairs| && pairs[i] == p;
    SourceIsNoTarget(pairs, i);
  }

  lemma SourceIsNoTarget(pairs: seq<Pair>, i: nat)
    requires Separate(pairs) && i < |pairs|
    ensures pairs[i].source in Locked(pairs) && pairs[i].source !in Targets(pairs)
  {
    assert pairs[i] in pairs;
    forall p | p in pairs ensures p.target != pairs[i].source {
      var j :| 0 <= j < |pairs| && pairs[j] == p;
    }
  }

  class Agency {
    var config: Groups
    var memories: map<string, Files>
    ghost var written: seq<Groups>        // the configs this process has saved
    ghost var disturbed: bool             // a fault was met, or another process saved the config in between
    ghost var torn: bool                  // an error followed the rename that saved the config

    twostate predicate Disturbs(ok: bool) reads this { disturbed == (old(disturbed) || !ok) }

    /** Other processes save valid configs. */
    method OthersChangeConfig()
      requires ValidConfig(config)
      modifies this`config, this`disturbed
      ensures ValidConfig(config) && Disturbs(config == old(config))
    {
      var other: Groups := *;
      if ValidConfig(other) && other != config {
        config := other;
        disturbed := true;
      }
    }

    /** Memories whose locks are held stay as they are. */
    method OthersChangeMemories(locked: set<string>)
      modifies this`memories
      ensures Kept(old(memories), memories, locked, {})
    {
      var others: map<string, Files> := *;
      memories := (map m | m in others && m !in locked :: others[m]) +
        map m | m in memories && m in locked :: memories[m];
    }

    /** `ConfigStore.patch` with `_apply_move_patch`: whatever is on disk by then, compare and swap.  The directory is
        synchronized after the rename (agency/fs/atomic.py:22-35), so an error may come when the config is already
        saved. */
    method Patch(expected: Groups, preview: Preview) returns (ok: bool)
      requires ValidConfig(config) && !torn
      modifies this`config, this`written, this`disturbed, this`torn
      ensures ValidConfig(config)
      ensures old(disturbed) ==> disturbed
      ensures old(config) == expected && !disturbed ==>
        ok == Transferred(expected, preview.source, preview.target, preview.agent).Some?
      ensures ok || torn ==> Transferred(expected, preview.source, preview.target, preview.agent) == Some(config)
      ensures written == if ok || torn then old(written) + [config] else old(written)
      ensures torn ==> !ok && disturbed
    {
      OthersChangeConfig();
      if config != expected { return false; }
      var raw := new Raw(config);
      ok := raw.ApplyMovePatch(preview.source, preview.target, preview.agent);
      if !ok { return; }
      TransferConserves(config, preview.source, preview.target, preview.agent);
      ok := *;                            // path validation, storage directories, the atomic write
      var saved: bool := *;
      disturbed := disturbed || !ok;
      torn := !ok && saved;
      if ok || saved {
        config := raw.groups;
        written := written + [config];
      }
    }

    /** One destination: made, blank, then overwritten with a copy.  A failure may leave anything there. */
    method CreateTarget(p: Pair, sourceFiles: Option<Files>) returns (ok: bool)
      requires p.target !in memories
      modifies this`memories, this`disturbed
      ensures Disturbs(ok)
      ensures Untouched(old(memories), memories, {p.target})
      ensures ok ==> p.target in memories
      ensures ok ==> memories[p.target] == if sourceFiles.Some? then sourceFiles.value else Ensured(map[])
    {
      ok := *;
      disturbed := disturbed || !ok;
      if !ok { return; }
      memories := memories[p.target := map[]];
      ok := *;
      disturbed := disturbed || !ok;
      if !ok { return; }
      memories := memories[p.target := Ensured(map[])];
      if sourceFiles.Some? {
        var partial: Files := *;
        memories := memories[p.target := partial];
        ok := *;
        disturbed := disturbed || !ok;
        if ok { memories := memories[p.target := sourceFiles.value]; }
      }
    }

    method CreateTargets(pairs: seq<Pair>, copy: bool) returns (ok: bool, created: seq<string>)
      requires Separate(pairs) && forall p | p in pairs :: p.target !in memories
      modifies this`memories, this`disturbed
      ensures Disturbs(ok)
      ensures forall c | c in created :: c in Targets(pairs)
      ensures Untouched(old(memories), memories, set c | c in created)
      ensures ok ==> Delivered(old(memories), memories, pairs, copy)
    {
      created := [];
      ghost var start := memories;
      var i := 0;
      while i < |pairs|
        invariant Disturbs(true)
        invariant 0 <= i <= |pairs| && |created| == i && forall k | 0 <= k < i :: created[k] == pairs[k].target
        invariant Untouched(start, memories, set c | c in created)
        invariant Delivered(start, memories, pairs[..i], copy)
      {
        var p := pairs[i];
        assert p in pairs;
        NotCreatedYet(pairs, created, i);
        ghost var before, created' := memories, created;
        created := created + [p.target];
        var sourceFiles := if copy && p.source in memories then Some(memories[p.source]) else None;
        ok := CreateTarget(p, sourceFiles);
        UntouchedGrows(start, before, memories, created', p.target);
        if !ok { return; }
        DeliveredGrows(start, before, memories, pairs, i, copy);
        i := i + 1;
      }
      assert pairs[..i] == pairs;
      ok := true;
    }

    /** The compensation: every created destination is deleted again, the last one first. */
    method Undo(created: seq<string>) returns (left: set<string>)
      modifies this`memories
      ensures Untouched(old(memories), memories, set c | c in created)
      ensures left <= set c | c in created
      ensures forall c | c in created && c !in left :: c !in memories
    {
      left := {};
      var i := |created|;
      while i > 0
        invariant 0 <= i <= |created|
        invariant Untouched(old(memories), memories, set c | c in created)
        invariant left <= set c | c in created
        invariant forall k | i <= k < |created| && created[k] !in left :: created[k] !in memories
      {
        i := i - 1;
        if created[i] in memories {
          var works: bool := *;
          if works {
            memories := memories - {created[i]};
          } else {
            var partial: Files := *;
            memories := memories[created[i] := partial];
            left := left + {created[i]};
          }
        }
      }
    }

    /** The sources as they are now, in order; reading a directory with an unacceptable name raises. */
    method SourcesAsPreviewed(pairs: seq<Pair>, revisions: seq<Option<Bytes>>) returns (readable: bool, same: bool)
      ensures readable <==> SourcesReadable(memories, pairs)
      ensures readable ==> (same <==> AsPreviewed(memories, pairs, revisions))
    {
      var i := 0;
      readable, same := true, |revisions| == |pairs|;
      while i < |pairs|
        invariant 0 <= i <= |pairs| && readable && (same ==> |revisions| == |pairs|)
        invariant forall k | 0 <= k < i && pairs[k].source in memories :: Readable(memories[pairs[k].source])
        invariant same <==>
          |revisions| == |pairs| && forall k | 0 <= k < i :: revisions[k] == RevisionIn(memories, pairs[k].source)
      {
        var current: Option<Bytes> := None;
        if pairs[i].source in memories {
          readable := Readable(memories[pairs[i].source]);
          if !readable { return; }
          var digest := MemoryContentRevision(memories[pairs[i].source]);
          current := Some(digest);
        }
        same := same && revisions[i] == current;
        i := i + 1;
      }
    }

    method AnyExists(pairs: seq<Pair>) returns (found: bool)
      ensures found <==> exists p :: p in pairs && p.target in memories
    {
      var i := 0;
      found := false;
      while i < |pairs|
        invariant 0 <= i <= |pairs| && !found
        invariant forall k | 0 <= k < i :: pairs[k].target !in memories
      {
        if pairs[i].target in memories { return true; }
        i := i + 1;
      }
    }

    /** `move_instance` from the copying of memories on: all or nothing, unless an error follows the saving of the
        config. */
    method Transfer(preview: Preview, pairs: seq<Pair>, refreshed: Groups) returns (r: Outcome)
      requires ValidConfig(config) && Separate(pairs) && !torn && forall p | p in pairs :: p.target !in memories
      modifies this`config, this`memories, this`written, this`disturbed, this`torn
      ensures r.Done? || r.Raised? || r.RollbackFailed?
      ensures
        var possible := Transferred(refreshed, preview.source, preview.target, preview.agent).Some?;
        old(config) == refreshed && possible && !disturbed ==> r.Done?
      ensures r.Done? || torn ==> Transferred(refreshed, preview.source, preview.target, preview.agent) == Some(config)
      ensures written == if r.Done? || torn then old(written) + [config] else old(written)
      ensures torn ==> !r.Done? && disturbed
      ensures r.Done? ==> Delivered(old(memories), memories, pairs, preview.copy)
      ensures r.Done? ==> Kept(old(memories), memories, Locked(pairs), Targets(pairs))
      ensures r.Raised? ==> Kept(old(memories), memories, Locked(pairs), {})
      ensures r.RollbackFailed? ==> r.left <= Targets(pairs) && Kept(old(memories), memories, Locked(pairs), r.left)
    {
      ghost var start := memories;
      var ok, created := CreateTargets(pairs, preview.copy);
      ghost var made := memories;
      OthersChangeMemories(Locked(pairs));
      DeliveredStays(start, made, memories, pairs, preview.copy);
      if ok {
        ok := Patch(refreshed, preview);
        if ok { return Done; }
      }
      ghost var middle := memories;
      var left := Undo(created);
      UndoneIsKept(start, made, middle, memories, Locked(pairs), created, left);
      return if left != {} then RollbackFailed(left) else Raised;
    }

    /** `move_instance` once the group and memory locks are held; `atLock` is what the memories hold then. */
    method MoveUnderLocks(preview: Preview, pairs: seq<Pair>, atLock: map<string, Files>) returns (r: Outcome)
      requires ValidConfig(config) && !torn && Separate(pairs)
      modifies this`config, this`memories, this`written, this`disturbed, this`torn
      ensures
        if !SourcesReadable(atLock, pairs) then r == Raised
        else if !AsPreviewed(atLock, pairs, preview.revisions) then r == Blocked(SourceChanged)
        else if exists p :: p in pairs && p.target in atLock then r == Blocked(DestinationExists)
        else r.Done? || r.Raised? || r.RollbackFailed?
      ensures
        var possible := Transferred(old(config), preview.source, preview.target, preview.agent).Some?;
        !disturbed && possible && MayMove(atLock, pairs, preview.revisions) ==> r.Done?
      ensures r.Done? || torn ==>
        Transferred(old(config), preview.source, preview.target, preview.agent) == Some(config)
      ensures written == if r.Done? || torn then old(written) + [config] else old(written)
      ensures torn ==> !r.Done? && disturbed
      ensures r.Done? ==>
        && MayMove(atLock, pairs, preview.revisions)
        && Delivered(atLock, memories, pairs, preview.copy) && Kept(atLock, memories, Locked(pairs), Targets(pairs))
      ensures r.RollbackFailed? ==>
        && r.left <= Targets(pairs) && Kept(atLock, memories, Locked(pairs), r.left)
        && forall m | m in r.left :: m !in atLock
      ensures !r.Done? && !r.RollbackFailed? ==> Kept(atLock, memories, Locked(pairs), {})
    {
      var refreshed := config;
      memories := atLock;
      var readable, same := SourcesAsPreviewed(pairs, preview.revisions);
      if !readable { return Raised; }
      if !same { return Blocked(SourceChanged); }
      var found := AnyExists(pairs);
      if found { return Blocked(DestinationExists); }
      r := Transfer(preview, pairs, refreshed);
      forall m | r.RollbackFailed? && m in r.left ensures m !in atLock { assert m in Targets(pairs); }
    }

    /** `move_instance`: which answer it gives, and what it has done by then.  Other processes change memories that are
        not locked: `atPreview` is what they hold at the first look, `atLock` once every lock is taken. */
    method MoveInstance(preview: Preview, activeJobs: bool, atPreview: map<string, Files>, atLock: map<string, Files>)
        returns (r: Outcome)
      requires ValidConfig(config) && !torn
      modifies this`config, this`memories, this`written, this`disturbed, this`torn
      ensures Refusal(preview, old(config), activeJobs).Some? ==> r == Refusal(preview, old(config), activeJobs).value
      ensures Refusal(preview, old(config), activeJobs).None? ==>
        var pairs := PairsOf(preview);
        && (if exists p :: p in pairs && p.target in atPreview then r == Blocked(DestinationExists)
            else if !SourcesReadable(atLock, pairs) then r == Raised
            else if !AsPreviewed(atLock, pairs, preview.revisions) then r == Blocked(SourceChanged)
            else if exists p :: p in pairs && p.target in atLock then r == Blocked(DestinationExists)
            else (r.Done? || r.Raised? || r.RollbackFailed?) && (!disturbed ==> r.Done?))
        && (r.Done? ==> MovedMemories(preview, atLock, memories))
        && (r.RollbackFailed? ==> r.left <= Targets(pairs) && Kept(atLock, memories, Locked(pairs), r.left))
        && (r.RollbackFailed? ==> forall m | m in r.left :: m !in atLock)
        && (r.Raised? || r == Blocked(SourceChanged) ==> Kept(atLock, memories, Locked(pairs), {}))
      ensures r.Done? || torn ==>
        Transferred(preview.config, preview.source, preview.target, preview.agent) == Some(config)
      ensures written == if r.Done? || torn then old(written) + [config] else old(written)
      ensures torn ==> !r.Done? && disturbed
    {
      memories := atPreview;
      if preview.blocked { return AlreadyBlocked; }
      if config != preview.config { return ConfigChanged; }
      if !Names(preview) { return Raised; }
      var pairs := PairsOf(preview);
      if Lists(config[preview.target], preview.agent) { return Blocked(TargetExists); }
      if activeJobs { return Blocked(ActiveJobs); }
      var found := AnyExists(pairs);
      if found { return Blocked(DestinationExists); }
      var specs := OwnedSpecs(AgentIn(config[preview.source], preview.agent));
      OwnedPairsAreSeparate(specs, preview.agent, preview.source, preview.target);
      r := MoveUnderLocks(preview, pairs, atLock);
      if r.Done? { AllTakenAlong(preview, atLock, memories); }
    }
  }

  lemma AllTakenAlong(preview: Preview, before: map<string, Files>, after: map<string, Files>)
    requires Names(preview) && ValidConfig(preview.config) && preview.source != preview.target
    requires
      var pairs := PairsOf(preview);
      && Separate(pairs) && Delivered(before, after, pairs, preview.copy)
      && Kept(before, after, Locked(pairs), Targets(pairs)) && MayMove(before, pairs, preview.revisions)
    ensures MovedMemories(preview, before, after)
  {
    forall selector, routine | Owns(AgentIn(preview.config[preview.source], preview.agent), selector, routine)
      ensures TakenAlong(preview, before, after, selector, routine)
    {
      PairsTakeAlong(preview, before, after, selector, routine);
    }
  }

  lemma DeliveredStays(start: map<string, Files>, made: map<string, Files>, after: map<string, Files>,
                       pairs: seq<Pair>, copy: bool)
    requires Kept(made, after, Locked(pairs), {})
    ensures Delivered(start, made, pairs, copy) ==> Delivered(start, after, pairs, copy)
    ensures Untouched(start, made, Targets(pairs)) ==> Kept(start, after, Locked(pairs), Targets(pairs))
  {
    forall i | 0 <= i < |pairs| ensures pairs[i].target in Locked(pairs) { assert pairs[i] in pairs; }
  }

  lemma UndoneIsKept(start: map<string, Files>, made: map<string, Files>, middle: map<string, Files>,
                     end: map<string, Files>, locked: set<string>, created: seq<string>, left: set<string>)
    requires forall c | c in created :: c !in start
    requires Untouched(start, made, set c | c in created) && Kept(made, middle, locked, {})
    requires Untouched(middle, end, set c | c in created)
    requires forall c | c in created && c !in left :: c !in end
    ensures Kept(start, end, locked, left)
  {}
}
