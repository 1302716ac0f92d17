/** Every interleaving of job publications, direct saves and reads on one memory (agency/memory/store.py:104-222,
    agency/memory/publication.py:96-200, 224-254, 341-391).  Steps of one writer are as fine as other writers can
    observe them: `prepare_publication` without a lease reads while another writer may be half way through. */
module NoLostUpdate {
  import opened Bytes
  import opened MemoryFiles
  import opened MemoryDisk
  import opened Execution

  /** `base` is what the edit started from, `old` what prepare read, `next` what is to be published. */
  datatype Progress =
    | Idle
    | Based(base: Files)
    | Ready(base: Files, was: Files, next: Files)
    | Replacing(base: Files, was: Files, next: Files)
    | Undoing(was: Files)                 // without a lease: the lock is gone, the old content not yet put back
    | Ended(committed: bool)
    | Torn                                // ended in the middle of a replacement

  /** `leased`: the lock has been held without interruption since the edit was based. */
  datatype Writer = Writer(progress: Progress, leased: bool)

  /** One change of the settled content: who made it, what its edit started from, what it replaced and by what.  A
      replacement that a crash or a failed rollback tears is a change to what is left of it. */
  datatype Commit = Commit(author: nat, base: Files, before: Files, after: Files)

  datatype Step =
    | Acquire(w: nat)
    | Release(w: nat)
    | Ensure(w: nat)                      // `_ensure_memory_locked` makes a missing memory blank
    | Base(w: nat)                        // stage or read under the lock
    | Prepare(w: nat, edited: Files)      // the first comparison; `edited` is what the stage or the updater holds
    | Begin(w: nat, partial: Files)       // the second comparison, then files are replaced one by one
    | More(w: nat, partial: Files)
    | Finish(w: nat)
    | Restore(w: nat)                     // a failure in the middle, with a successful rollback
    | Tear(w: nat)                        // a failure in the middle, and of the rollback too
    | Crash(w: nat)                       // the process ends, wherever it is, and its lock with it
    | LetGo(w: nat, partial: Files)       // `apply_publication` without a lease fails and leaves its lock
    | RollBack(w: nat)                    // and takes it again to put the old content back, whatever is there

  datatype Memory = Memory(canonical: Files, holder: Option<nat>, writers: map<nat, Writer>, history: seq<Commit>) {
    function At(w: nat): Writer { if w in writers then writers[w] else Writer(Idle, false) }

    function Go(w: nat, p: Progress): Memory { this.(writers := writers[w := At(w).(progress := p)]) }

    /** What the memory holds for anybody who takes the lock: the middle of a replacement is not visible. */
    function Settled(): Files {
      if holder.Some? && At(holder.value).progress.Replacing? then At(holder.value).progress.was else canonical
    }

    /** A change that leaves everything as it was is none. */
    function Left(c: Commit): Memory { if c.after == c.before then this.(canonical := c.after) else Commits(c) }

    function Commits(c: Commit): Memory { this.(canonical := c.after, history := history + [c]) }
  }

  ghost function Next(m: Memory, s: Step): Memory {
    var me := m.At(s.w);
    var p := me.progress;
    var mine := m.holder == Some(s.w);
    match s
    case Acquire(w) => if m.holder.None? then m.(holder := Some(w)) else m
    case Release(w) =>
      if mine && !p.Replacing? then m.(holder := None, writers := m.writers[w := Writer(p, false)]) else m
    case Ensure(w) =>
      if mine && !p.Replacing? && !me.leased && m.canonical == map[]
      then m.Commits(Commit(w, map[], map[], Ensured(map[]))) else m
    case Base(w) =>
      if mine && !p.Replacing? then m.(writers := m.writers[w := Writer(Based(m.canonical), true)]) else m
    case Prepare(w, edited) =>
      if !p.Based? then m
      else if Revision(m.canonical) != Revision(p.base) || edited == map[] then m.Go(w, Ended(false))
      else m.Go(w, Ready(p.base, m.canonical, edited))
    case Begin(w, partial) =>
      if !p.Ready? || !mine then m
      else if Revision(m.canonical) != Revision(p.was) then m.Go(w, Ended(false))
      else if p.was == p.next then m.Go(w, Ended(true))
      else m.Go(w, Replacing(p.base, p.was, p.next)).(canonical := partial)
    case More(w, partial) => if p.Replacing? && mine then m.(canonical := partial) else m
    case Finish(w) =>
      if p.Replacing? && mine then m.Commits(Commit(w, p.base, m.Settled(), p.next)).Go(w, Ended(true)) else m
    case Restore(w) =>
      if p.Replacing? && mine then m.Go(w, Ended(false)).(canonical := p.was) else m
    case Tear(w) => if p.Replacing? && mine then m.Left(Commit(w, p.base, p.was, m.canonical)).Go(w, Torn) else m
    case Crash(w) =>
      var left := if p.Replacing? && mine then m.Left(Commit(w, p.base, p.was, m.canonical)) else m;
      left.(writers := m.writers[w := Writer(Torn, false)], holder := if mine then None else m.holder)
    case LetGo(w, partial) =>
      if p.Replacing? && mine && !me.leased
      then m.Left(Commit(w, p.base, p.was, partial)).Go(w, Undoing(p.was)).(holder := None)
      else m
    case RollBack(w) =>
      if p.Undoing? && m.holder.None?
      then m.Left(Commit(w, p.was, m.canonical, p.was)).Go(w, Ended(false))
      else m
  }

  ghost function Run(m: Memory, steps: seq<Step>): Memory
    decreases |steps|
  {
    if steps == [] then m else Run(Next(m, steps[0]), steps[1..])
  }

  ghost predicate Init(m: Memory) {
    m.holder.None? && m.history == [] && forall w | w in m.writers :: m.writers[w] == Writer(Idle, false)
  }

  /** Each commit replaced what the one before it left; the last one is the content now. */
  ghost predicate Chain(first: Files, history: seq<Commit>, last: Files) {
    && (history == [] ==> last == first)
    && (history != [] ==> history[0].before == first && history[|history| - 1].after == last)
    && forall i | 0 < i < |history| :: history[i].before == history[i - 1].after
  }

  ghost predicate NoneLost(history: seq<Commit>) {
    forall i | 0 <= i < |history| :: history[i].base == history[i].before
  }

  /** Among `contents`, the revision tells which one it is. */
  ghost predicate Distinct(contents: iset<Files>) {
    forall one, two | one in contents && two in contents && Revision(one) == Revision(two) :: one == two
  }

  ghost predicate ProgressWithin(contents: iset<Files>, p: Progress) {
    && (p.Based? ==> p.base in contents)
    && (p.Ready? || p.Replacing? ==> p.base in contents && p.was in contents && p.next in contents)
    && (p.Undoing? ==> p.was in contents)
  }

  /** The step puts nothing but one of `contents` into the memory or into an edit. */
  ghost predicate Within(contents: iset<Files>, s: Step) {
    && (s.Ensure? ==> Ensured(map[]) in contents)
    && (s.Prepare? && s.edited != map[] ==> s.edited in contents)
    && (s.Begin? || s.More? || s.LetGo? ==> s.partial in contents)
  }

  ghost predicate AllWithin(contents: iset<Files>, steps: seq<Step>) {
    forall s | s in steps :: Within(contents, s)
  }

  /** There is only one content, so nothing that is put back can be anything else. */
  ghost predicate Single(contents: iset<Files>) {
    forall one, two | one in contents && two in contents :: one == two
  }

  /** No writer fails without a lease, or it does not matter. */
  ghost predicate Allowed(contents: iset<Files>, s: Step) {
    Within(contents, s) && (s.LetGo? ==> Single(contents))
  }

  predicate Leased(steps: seq<Step>) { forall s | s in steps :: !s.LetGo? }

  ghost predicate WriterOk(contents: iset<Files>, m: Memory, w: nat) {
    var p := m.At(w).progress;
    && ProgressWithin(contents, p)
    && (p.Replacing? ==> m.holder == Some(w))
    && (p.Undoing? ==> Single(contents))
    && (m.At(w).leased ==> m.holder == Some(w))
    && (m.At(w).leased && (p.Based? || p.Ready?) ==> p.base == m.canonical)
    && (p.Ready? || p.Replacing? ==> p.was == p.base)
  }

  ghost predicate Inv(contents: iset<Files>, first: Files, m: Memory) {
    && Distinct(contents) && m.canonical in contents && NoneLost(m.history)
    && (forall w: nat :: WriterOk(contents, m, w))
    && Chain(first, m.history, m.Settled())
  }

  lemma ChainExtends(first: Files, history: seq<Commit>, c: Commit)
    requires Chain(first, history, c.before) && NoneLost(history) && c.base == c.before
    ensures Chain(first, history + [c], c.after) && NoneLost(history + [c])
  {}

  /** The settled content stays, or one change of it is recorded, from what its edit had started from. */
  ghost predicate Changes(m: Memory, t: Memory) {
    if t.history == m.history then t.Settled() == m.Settled()
    else
      exists c :: t.history == m.history + [c] && c.base == c.before == m.Settled() && c.after == t.Settled()
  }

  /** The steps that end a replacement, and the rollback. */
  predicate Ends(s: Step) { s.Finish? || s.Restore? || s.Tear? || s.Crash? || s.LetGo? || s.RollBack? }

  lemma EndChanges(contents: iset<Files>, first: Files, m: Memory, s: Step)
    requires Inv(contents, first, m) && Allowed(contents, s) && Ends(s)
    ensures Changes(m, Next(m, s))
  {
    var p := m.At(s.w).progress;
    assert WriterOk(contents, m, s.w);
    if m.holder.Some? { assert WriterOk(contents, m, m.holder.value); }
    if Next(m, s).history != m.history {
      var c := Next(m, s).history[|m.history|];
      assert Next(m, s).history == m.history + [c];
    }
  }

  lemma OtherChanges(contents: iset<Files>, first: Files, m: Memory, s: Step)
    requires Inv(contents, first, m) && Allowed(contents, s) && !Ends(s)
    ensures Changes(m, Next(m, s))
  {
    assert WriterOk(contents, m, s.w);
    if m.holder.Some? { assert WriterOk(contents, m, m.holder.value); }
    if Next(m, s).history != m.history {
      var c := Commit(s.w, map[], map[], Ensured(map[]));
      assert Next(m, s).history == m.history + [c];
    }
  }

  lemma StepChanges(contents: iset<Files>, first: Files, m: Memory, s: Step)
    requires Inv(contents, first, m) && Allowed(contents, s)
    ensures Changes(m, Next(m, s))
  {
    if Ends(s) { EndChanges(contents, first, m, s); } else { OtherChanges(contents, first, m, s); }
  }

  lemma StepKeepsChain(contents: iset<Files>, first: Files, m: Memory, s: Step)
    requires Inv(contents, first, m) && Allowed(contents, s)
    ensures Chain(first, Next(m, s).history, Next(m, s).Settled()) && NoneLost(Next(m, s).history)
  {
    StepChanges(contents, first, m, s);
    var t := Next(m, s);
    if t.history != m.history {
      var c :| t.history == m.history + [c] && c.base == c.before == m.Settled() && c.after == t.Settled();
      ChainExtends(first, m.history, c);
    }
  }

  lemma StepStaysWithin(contents: iset<Files>, first: Files, m: Memory, s: Step)
    requires Inv(contents, first, m) && Allowed(contents, s)
    ensures Next(m, s).canonical in contents
  {
    assert WriterOk(contents, m, s.w);
  }

  lemma EndingActorKept(contents: iset<Files>, first: Files, m: Memory, s: Step)
    requires Inv(contents, first, m) && Allowed(contents, s) && Ends(s)
    ensures WriterOk(contents, Next(m, s), s.w)
  {
    assert WriterOk(contents, m, s.w);
  }

  lemma OtherActorKept(contents: iset<Files>, first: Files, m: Memory, s: Step)
    requires Inv(contents, first, m) && Allowed(contents, s) && !Ends(s)
    ensures WriterOk(contents, Next(m, s), s.w)
  {
    assert WriterOk(contents, m, s.w);
  }

  lemma BystanderKept(contents: iset<Files>, first: Files, m: Memory, s: Step, w: nat)
    requires Inv(contents, first, m) && Allowed(contents, s) && w != s.w
    ensures WriterOk(contents, Next(m, s), w)
  {
    assert WriterOk(contents, m, w) && WriterOk(contents, m, s.w);
  }

  lemma StepKeepsInv(contents: iset<Files>, first: Files, m: Memory, s: Step)
    requires Inv(contents, first, m) && Allowed(contents, s)
    ensures Inv(contents, first, Next(m, s))
  {
    StepKeepsChain(contents, first, m, s);
    StepStaysWithin(contents, first, m, s);
    forall w: nat ensures WriterOk(contents, Next(m, s), w) {
      if w == s.w {
        if Ends(s) { EndingActorKept(contents, first, m, s); } else { OtherActorKept(contents, first, m, s); }
      } else {
        BystanderKept(contents, first, m, s, w);
      }
    }
  }

  lemma {:induction false} RunKeepsInv(contents: iset<Files>, first: Files, m: Memory, steps: seq<Step>)
    requires Inv(contents, first, m) && forall s | s in steps :: Allowed(contents, s)
    ensures Inv(contents, first, Run(m, steps))
    decreases |steps|
  {
    if steps != [] {
      assert steps[0] in steps;
      StepKeepsInv(contents, first, m, steps[0]);
      RunKeepsInv(contents, first, Next(m, steps[0]), steps[1..]);
    }
  }

  /** Whatever the interleaving, crashes and failed rollbacks included, the changes form one chain from the first
      content to the present one, and each replaced exactly the content its own edit had started from. */
  lemma NoUpdateIsLost(contents: iset<Files>, m: Memory, steps: seq<Step>)
    requires Distinct(contents) && (Leased(steps) || Single(contents))
    requires Init(m) && m.canonical in contents && AllWithin(contents, steps)
    ensures Chain(m.canonical, Run(m, steps).history, Run(m, steps).Settled())
    ensures NoneLost(Run(m, steps).history)
    ensures Inv(contents, m.canonical, Run(m, steps))
  {
    RunKeepsInv(contents, m.canonical, m, steps);
  }

  /** A writer that ends without committing has changed nothing, and so has every step that adds no commit. */
  lemma OnlyCommitsChange(contents: iset<Files>, first: Files, m: Memory, s: Step)
    requires Inv(contents, first, m) && Allowed(contents, s)
    ensures Next(m, s).history == m.history ==> Next(m, s).Settled() == m.Settled()
    ensures m.At(s.w).progress != Ended(false) && Next(m, s).At(s.w).progress == Ended(false) ==>
              Next(m, s).Settled() == m.Settled()
  {
    StepChanges(contents, first, m, s);
    assert WriterOk(contents, m, s.w);
  }

  /** A writer that kept the lock since it based its edit never meets a conflict. */
  lemma LeaseNeverConflicts(contents: iset<Files>, first: Files, m: Memory, w: nat, content: Files)
    requires Inv(contents, first, m) && m.At(w).leased
    ensures m.At(w).progress.Based? && content != map[] ==> Next(m, Prepare(w, content)).At(w).progress.Ready?
    ensures m.At(w).progress.Ready? ==> Next(m, Begin(w, content)).At(w).progress != Ended(false)
  {
    assert WriterOk(contents, m, w);
  }

  lemma {:induction false} RunOneMore(m: Memory, steps: seq<Step>, s: Step)
    ensures Run(m, steps + [s]) == Next(Run(m, steps), s)
    decreases |steps|
  {
    if steps == [] {
      assert [s][1..] == [];
      assert Run(Next(m, s), []) == Next(m, s);
    } else {
      assert (steps + [s])[1..] == steps[1..] + [s];
      RunOneMore(Next(m, steps[0]), steps[1..], s);
    }
  }

  lemma Extend(contents: iset<Files>, start: Memory, steps: seq<Step>, s: Step, m: Memory)
    returns (more: seq<Step>, n: Memory)
    requires m == Run(start, steps) && AllWithin(contents, steps) && Within(contents, s)
    ensures more == steps + [s] && n == Next(m, s) && n == Run(start, more) && AllWithin(contents, more)
    ensures Leased(steps) && !s.LetGo? ==> Leased(more)
  {
    more, n := steps + [s], Next(m, s);
    RunOneMore(start, steps, s);
  }

  /** One writer bases an edit on `seen` and lets go of the lock. */
  lemma BaseAndLeave(contents: iset<Files>, seen: Files) returns (steps: seq<Step>, m: Memory)
    ensures m == Run(Memory(seen, None, map[], []), steps)
    ensures m == Memory(seen, None, map[1 := Writer(Based(seen), false)], [])
    ensures AllWithin(contents, steps) && Leased(steps)
  {
    var start := Memory(seen, None, map[], []);
    steps, m := Extend(contents, start, [], Acquire(1), start);
    steps, m := Extend(contents, start, steps, Base(1), m);
    steps, m := Extend(contents, start, steps, Release(1), m);
    assert m.writers == map[1 := Writer(Based(seen), false)];
  }

  /** A writer takes the free lock, bases an edit on the content and has it prepared. */
  lemma OvertakerReady(contents: iset<Files>, start: Memory, before: seq<Step>, now: Memory, other: Files)
      returns (steps: seq<Step>, m: Memory)
    requires now == Run(start, before) && AllWithin(contents, before) && other != map[] && other in contents
    requires now.holder.None? && 0 !in now.writers
    ensures m == Run(start, steps) && AllWithin(contents, steps) && (Leased(before) ==> Leased(steps))
    ensures
      var ready := Writer(Ready(now.canonical, now.canonical, other), true);
      m == now.(holder := Some(0), writers := now.writers[0 := ready])
  {
    steps, m := Extend(contents, start, before, Acquire(0), now);
    steps, m := Extend(contents, start, steps, Base(0), m);
    assert m.writers == now.writers[0 := Writer(Based(now.canonical), true)];
    steps, m := Extend(contents, start, steps, Prepare(0, other), m);
    assert m.writers == now.writers[0 := Writer(Ready(now.canonical, now.canonical, other), true)];
  }

  /** A writer that is ready and holds the lock commits and releases it. */
  lemma CommitAndRelease(contents: iset<Files>, start: Memory, before: seq<Step>, now: Memory, seen: Files,
                         other: Files)
      returns (steps: seq<Step>, m: Memory)
    requires now == Run(start, before) && AllWithin(contents, before) && other in contents && seen != other
    requires now.holder == Some(0) && now.canonical == seen
    requires 0 in now.writers && now.writers[0] == Writer(Ready(seen, seen, other), true)
    ensures m == Run(start, steps) && AllWithin(contents, steps) && (Leased(before) ==> Leased(steps))
    ensures m == Memory(other, None, now.writers[0 := Writer(Ended(true), false)],
                        now.history + [Commit(0, seen, seen, other)])
  {
    steps, m := Extend(contents, start, before, Begin(0, other), now);
    assert m == now.(canonical := other, writers := now.writers[0 := Writer(Replacing(seen, seen, other), true)]);
    steps, m := Extend(contents, start, steps, Finish(0), m);
    assert m.writers == now.writers[0 := Writer(Ended(true), true)];
    steps, m := Extend(contents, start, steps, Release(0), m);
    assert m.writers == now.writers[0 := Writer(Ended(true), false)];
  }

  /** Both together: another writer's update, from the free lock to the free lock. */
  lemma Overtake(contents: iset<Files>, start: Memory, before: seq<Step>, now: Memory, other: Files)
      returns (steps: seq<Step>, m: Memory)
    requires now == Run(start, before) && AllWithin(contents, before) && other != map[] && other in contents
    requires now.holder.None? && 0 !in now.writers && now.canonical != other
    ensures m == Run(start, steps) && AllWithin(contents, steps) && (Leased(before) ==> Leased(steps))
    ensures m == Memory(other, None, now.writers[0 := Writer(Ended(true), false)],
                        now.history + [Commit(0, now.canonical, now.canonical, other)])
  {
    steps, m := OvertakerReady(contents, start, before, now, other);
    var ready := m.writers;
    steps, m := CommitAndRelease(contents, start, steps, m, now.canonical, other);
    assert ready[0 := Writer(Ended(true), false)] == now.writers[0 := Writer(Ended(true), false)];
  }

  lemma LateWriterReady(contents: iset<Files>, one: Files, two: Files, edited: Files)
      returns (steps: seq<Step>, m: Memory)
    requires one != two && Revision(one) == Revision(two) && two != map[] && edited != map[]
    requires two in contents && edited in contents
    ensures m == Run(Memory(one, None, map[], []), steps)
    ensures m.canonical == two && m.holder == Some(1) && m.At(1).progress == Ready(one, two, edited)
    ensures m.history == [Commit(0, one, one, two)]
    ensures AllWithin(contents, steps) && Leased(steps)
  {
    var start := Memory(one, None, map[], []);
    steps, m := BaseAndLeave(contents, one);
    steps, m := Overtake(contents, start, steps, m, two);
    steps, m := Extend(contents, start, steps, Prepare(1, edited), m);
    steps, m := Extend(contents, start, steps, Acquire(1), m);
  }

  /** Any two contents that share a revision lose an update: writer 1 based its edit on one of them, writer 0 has
      committed the other since, and writer 1 still replaces it, by whatever its edit holds. */
  lemma SharedRevisionLosesAnUpdate(one: Files, two: Files, edited: Files) returns (steps: seq<Step>)
    requires one != two && Revision(one) == Revision(two)
    requires edited != map[] && edited != two
    ensures AllWithin(iset{one, two, edited}, steps) && Leased(steps)
    ensures
      var end := Run(Memory(one, None, map[], []), steps);
      end.canonical == edited && end.history == [Commit(0, one, one, two), Commit(1, one, two, edited)]
  {
    NoRevisionIsEmpty(one);
    NoRevisionIsEmpty(two);
    var contents := iset{one, two, edited};
    var start := Memory(one, None, map[], []);
    var m: Memory;
    steps, m := LateWriterReady(contents, one, two, edited);
    steps, m := Extend(contents, start, steps, Begin(1, edited), m);
    steps, m := Extend(contents, start, steps, Finish(1), m);
  }

  /** A writer without a lease is about to replace the content. */
  lemma OneReady(contents: iset<Files>, one: Files, two: Files) returns (steps: seq<Step>, m: Memory)
    requires two != map[] && one in contents && two in contents
    ensures m == Run(Memory(one, None, map[], []), steps)
    ensures m == Memory(one, Some(1), map[1 := Writer(Ready(one, one, two), false)], [])
    ensures AllWithin(contents, steps)
  {
    var start := Memory(one, None, map[], []);
    steps, m := BaseAndLeave(contents, one);
    steps, m := Extend(contents, start, steps, Prepare(1, two), m);
    assert m.writers == map[1 := Writer(Ready(one, one, two), false)];
    steps, m := Extend(contents, start, steps, Acquire(1), m);
  }

  lemma OneFailing(contents: iset<Files>, one: Files, two: Files) returns (steps: seq<Step>, m: Memory)
    requires one != two && two != map[] && one in contents && two in contents
    ensures m == Run(Memory(one, None, map[], []), steps)
    ensures m == Memory(one, None, map[1 := Writer(Undoing(one), false)], [])
    ensures AllWithin(contents, steps)
  {
    var start := Memory(one, None, map[], []);
    steps, m := OneReady(contents, one, two);
    steps, m := Extend(contents, start, steps, Begin(1, two), m);
    assert m.writers == map[1 := Writer(Replacing(one, one, two), false)];
    steps, m := Extend(contents, start, steps, LetGo(1, one), m);
    assert m.writers == map[1 := Writer(Undoing(one), false)];
  }

  /** A writer without a lease fails and lets go of the lock; another commits; the first then puts back what it had
      read. */
  lemma RollbackWithoutLeaseLosesAnUpdate(one: Files, two: Files) returns (steps: seq<Step>)
    requires one != two && two != map[]
    ensures AllWithin(iset{one, two}, steps)
    ensures
      var end := Run(Memory(one, None, map[], []), steps);
      end.canonical == one && end.history == [Commit(0, one, one, two), Commit(1, one, two, one)]
  {
    var contents := iset{one, two};
    var start := Memory(one, None, map[], []);
    var m: Memory;
    steps, m := OneFailing(contents, one, two);
    steps, m := Overtake(contents, start, steps, m, two);
    steps, m := Extend(contents, start, steps, RollBack(1), m);
  }

  /** No run among `contents` ever loses an update; `unleased` runs may have writers that fail without a lease. */
  ghost predicate NothingIsLost(contents: iset<Files>, unleased: bool) {
    forall m, steps | Init(m) && m.canonical in contents && AllWithin(contents, steps) && (unleased || Leased(steps)) ::
      NoneLost(Run(m, steps).history)
  }

  lemma LosingRun(contents: iset<Files>, unleased: bool, one: Files, steps: seq<Step>)
    requires one in contents && AllWithin(contents, steps) && (unleased || Leased(steps))
    requires
      var h := Run(Memory(one, None, map[], []), steps).history;
      |h| == 2 && h[1].base != h[1].before
    ensures !NothingIsLost(contents, unleased)
  {
    assert Init(Memory(one, None, map[], []));
  }

  /** The comparison of revisions protects every update exactly when no two contents that occur share a revision, and
      no writer fails without a lease while there is more than one content. */
  lemma SafeExactly(contents: iset<Files>, unleased: bool)
    ensures NothingIsLost(contents, unleased) <==> Distinct(contents) && (unleased ==> Single(contents))
  {
    if !Distinct(contents) {
      var one, two :| one in contents && two in contents && Revision(one) == Revision(two) && one != two;
      NoRevisionIsEmpty(one);
      NoRevisionIsEmpty(two);
      var steps := SharedRevisionLosesAnUpdate(one, two, one);
      LosingRun(contents, unleased, one, steps);
    } else if unleased && !Single(contents) {
      var some, other :| some in contents && other in contents && some != other;
      var one, two := if other == map[] then other else some, if other == map[] then some else other;
      var steps := RollbackWithoutLeaseLosesAnUpdate(one, two);
      LosingRun(contents, unleased, one, steps);
    } else {
      forall m, steps | Init(m) && m.canonical in contents && AllWithin(contents, steps) && (unleased || Leased(steps))
        ensures NoneLost(Run(m, steps).history)
      {
        NoUpdateIsLost(contents, m, steps);
      }
    }
  }

  /** Contents without a NUL in a name or a payload are safe ... */
  lemma NulFreeContentsAreSafe()
    ensures NothingIsLost(iset f: Files | NulFreeFiles(f), false)
  {
    var contents := iset f: Files | NulFreeFiles(f);
    forall one, two | one in contents && two in contents && Revision(one) == Revision(two)
      ensures one == two
    {
      RevisionInjective(one, two);
    }
    SafeExactly(contents, false);
  }

  /** ... and with NULs allowed in payloads, as the files of a memory may hold them, an update can be lost. */
  lemma NulLosesAnUpdate()
    ensures !NothingIsLost(iset f: Files | Readable(f), false)
  {
    NulPayloadsCollide();
    var a: Name, b: Name := [97, 46, 109, 100], [98, 46, 109, 100];
    var one: Files, two: Files := map[a := [120, 0] + b + [0, 121]], map[a := [120], b := [121]];
    assert b in two && b !in one;
    SafeExactly(iset f: Files | Readable(f), false);
  }
}
