/** Which journals recovery takes at their word: the payload a publication writes, and the checks that tie it to its
    path, to exactly one job record and to the memory that job resolves to (agency/memory/publication.py:507-530,
    agency/memory/recovery.py:153-169, 239-423). */
module JournalIdentity {
  import opened Bytes
  import opened MemoryDisk
  import opened Selectors

  /** A decoded value; `Strange` is anything of another type, with what `str` makes of it. */
  datatype PayloadValue = PText(text: string) | PBool(flag: bool) | PSelector(selector: Selector)
    | Strange(shown: string)

  type Payload = map<string, PayloadValue>

  /** A journal lies in the directory of its memory under the name of its operation.  A memory hash is identified with
      the canonical text it is the hash of. */
  datatype Address = Address(memory: string, operation: string)

  /** The immutable part of a job record. */
  datatype JobSpec = JobSpec(jobId: string, group: string, groupRoot: string, agent: string, routine: Option<string>,
                             selector: Selector, canonical: string, memory: string)

  /** A configured group: its root, when known, and the job records in its store. */
  datatype Owner = Owner(root: Option<string>, jobs: map<string, JobSpec>)

  type Owners = map<string, Owner>

  /** What both sides know about an operation. */
  datatype Operation = Operation(kind: Kind, id: string, selector: Selector, canonical: string, memory: string,
                                 oldRevision: string, newRevision: string, phase: Phase, noChange: bool)

  /** Whether a text equals its own NFKC normal form and case folding. */
  type Folding = string -> bool

  function Stem(name: string): string {
    if exists i :: 0 < i < |name| && name[i] == '.' then name[..LastDot(name)] else name
  }

  function LastDot(name: string): (i: nat)
    requires exists i :: 0 < i < |name| && name[i] == '.'
    ensures 0 < i < |name| && name[i] == '.' && '.' !in name[i + 1..]
  {
    if name[|name| - 1] == '.' then |name| - 1 else LastDot(name[..|name| - 1])
  }

  /** The device names of Windows, as a folded text may spell them. */
  predicate Reserved(stem: string) {
    stem in {"con", "prn", "aux", "nul"} || (|stem| == 4 && stem[..3] in {"com", "lpt"} && '1' <= stem[3] <= '9')
  }

  /** `_validate_job_id` (agency/memory/store.py:486-511) */
  predicate SafeId(id: string, folded: Folding) {
    && id !in {"", ".", ".."} && id[|id| - 1] != ' ' && id[|id| - 1] != '.'
    && '/' !in id && '\\' !in id
    && folded(id) && !Reserved(Stem(id))
  }

  ghost predicate Device(name: string) {
    || name in {"con", "prn", "aux", "nul"}
    || exists digit :: '1' <= digit <= '9' && (name == "com" + [digit] || name == "lpt" + [digit])
  }

  lemma ReservedExactly(stem: string)
    ensures Reserved(stem) <==> Device(stem)
  {
    if |stem| == 4 { assert stem == stem[..3] + [stem[3]]; }
    forall digit: char, kind: string | |kind| == 3
      ensures (kind + [digit])[..3] == kind && (kind + [digit])[3] == digit {}
  }

  /** The stem is the id without what follows its last dot; a leading dot is no such dot. */
  lemma StemExactly(id: string, stem: string)
    requires stem != "" && '.' !in stem && (id != "" ==> id[|id| - 1] != '.')
    ensures Stem(id) == stem <==> id == stem || exists ext :: id == stem + "." + ext && '.' !in ext
  {
    if i :| 0 < i < |id| && id[i] == '.' {
      var d := LastDot(id);
      assert id == id[..d] + "." + id[d + 1..];
      if ext :| id == stem + "." + ext && '.' !in ext {
        assert id[|stem|] == '.';
      }
    } else {
      forall ext: string ensures id != stem + "." + ext {
        var dotted := stem + "." + ext;
        assert dotted[|stem|] == '.';
      }
    }
  }

  /** Which ids are refused: those that are not one plain file name everywhere. */
  lemma UnsafeExactly(id: string, folded: Folding)
    ensures !SafeId(id, folded) <==>
      || id in {"", ".", ".."}
      || id[|id| - 1] in {' ', '.'}
      || (exists i :: 0 <= i < |id| && id[i] in {'/', '\\'})
      || !folded(id)
      || exists device | Device(device) ::
           id == device || exists ext :: id == device + "." + ext && '.' !in ext
  {
    if id != "" && id[|id| - 1] != '.' {
      ReservedExactly(Stem(id));
      forall device | Device(device)
        ensures device != "" && '.' !in device
        ensures Stem(id) == device <==> id == device || exists ext :: id == device + "." + ext && '.' !in ext
      {
        StemExactly(id, device);
      }
    }
  }

  function KindText(kind: Kind): string { match kind case Job => "job" case DirectSave => "direct-save" }

  function PhaseText(phase: Phase): string {
    match phase
    case Prepared => "prepared"
    case BackedUp => "backed_up"
    case Published => "published"
  }

  function PhaseOf(text: string): Option<Phase> {
    if text == "prepared" then Some(Prepared)
    else if text == "backed_up" then Some(BackedUp)
    else if text == "published" then Some(Published)
    else None
  }

  lemma PhaseRoundTrip(phase: Phase)
    ensures PhaseOf(PhaseText(phase)) == Some(phase)
  {
    assert PhaseText(phase)[1] in {'r', 'a', 'u'};
  }

  /** 64 lower-case hexadecimal digits. */
  predicate RevisionText(s: string) {
    |s| == 64 && forall c | c in s :: '0' <= c <= '9' || 'a' <= c <= 'f'
  }

  lemma HexLetter(c: char)
    ensures c in "0123456789abcdef" <==> '0' <= c <= '9' || 'a' <= c <= 'f'
  {
    var hex := "0123456789abcdef";
    if '0' <= c <= '9' { assert hex[c as int - '0' as int] == c; }
    if 'a' <= c <= 'f' { assert hex[c as int - 'a' as int + 10] == c; }
  }

  lemma RevisionTextExactly(s: string)
    ensures RevisionText(s) <==> |s| == 64 && forall c | c in s :: c in "0123456789abcdef"
  {
    forall c: char ensures c in "0123456789abcdef" <==> '0' <= c <= '9' || 'a' <= c <= 'f' { HexLetter(c); }
  }

  /** `_write_transaction_journal` */
  function Written(op: Operation): Payload {
    var common := map[
      "kind" := PText(KindText(op.kind)), "operation_id" := PText(op.id), "selector" := PSelector(op.selector),
      "canonical_json" := PText(op.canonical), "memory_hash" := PText(op.memory),
      "old_revision" := PText(op.oldRevision), "new_revision" := PText(op.newRevision),
      "stage_directory" := PText(op.id), "backup_directory" := PText(op.id),
      "phase" := PText(PhaseText(op.phase)), "no_change" := PBool(op.noChange)];
    if op.kind.Job? then common["job_id" := PText(op.id)] else common
  }

  const SCHEMA: set<string> := {"kind", "operation_id", "selector", "canonical_json", "memory_hash", "old_revision",
                                "new_revision", "stage_directory", "backup_directory", "phase", "no_change"}

  predicate IsText(p: Payload, key: string, text: string) { key in p && p[key] == PText(text) }

  /** The value is shown as `text`: the ids go through `str` before they are compared. */
  predicate Shows(p: Payload, key: string, text: string) {
    key in p && (p[key] == PText(text) || p[key] == Strange(text))
  }

  /** The closed schema, and what the payload says about its own path. */
  predicate WellFormed(p: Payload, at: Address, kind: Kind, folded: Folding) {
    && p.Keys == SCHEMA + (if kind.Job? then {"job_id"} else {})
    && IsText(p, "kind", KindText(kind))
    && Shows(p, "memory_hash", at.memory) && Shows(p, "operation_id", at.operation)
    && (kind.Job? ==> Shows(p, "job_id", at.operation))
    && SafeId(at.operation, folded)
    && p["selector"].PSelector? && p["canonical_json"].PText? && p["canonical_json"].text != ""
    && p["phase"].PText? && PhaseOf(p["phase"].text).Some? && p["no_change"].PBool?
    && p["old_revision"].PText? && RevisionText(p["old_revision"].text)
    && p["new_revision"].PText? && RevisionText(p["new_revision"].text)
    && IsText(p, "stage_directory", at.operation) && IsText(p, "backup_directory", at.operation)
  }

  function Decoded(p: Payload, at: Address, kind: Kind): Operation
    requires p.Keys >= SCHEMA && p["selector"].PSelector? && p["canonical_json"].PText?
    requires p["old_revision"].PText? && p["new_revision"].PText?
    requires p["phase"].PText? && PhaseOf(p["phase"].text).Some? && p["no_change"].PBool?
  {
    Operation(kind, at.operation, p["selector"].selector, p["canonical_json"].text, at.memory,
              p["old_revision"].text, p["new_revision"].text, PhaseOf(p["phase"].text).value, p["no_change"].flag)
  }

  /** `_matching_job_paths` */
  function Matches(owners: Owners, id: string): set<string> {
    set g | g in owners && id in owners[g].jobs
  }

  function ContextOfJob(spec: JobSpec): Context {
    Context(spec.jobId, spec.group, spec.agent, spec.routine,
            if spec.selector.channel.Some? then {spec.selector.channel.value} else {})
  }

  /** `_validate_job_ownership` */
  predicate OwnedBy(op: Operation, group: string, owner: Owner, spec: JobSpec) {
    && spec.jobId == op.id && spec.group == group && owner.root == Some(spec.groupRoot)
    && var recomputed := Resolve(spec.selector, ContextOfJob(spec));
       && recomputed.Resolved? && op.selector == spec.selector
       && spec.canonical == recomputed.canonical && op.canonical == recomputed.canonical
       && spec.memory == recomputed.canonical && op.memory == recomputed.canonical
  }

  /** `_validate_direct_identity` */
  predicate DirectIdentity(op: Operation) { FromCanonical(op.selector, op.canonical) == Resolved(op.memory) }

  function KindOf(p: Payload): Option<Kind> {
    if "kind" !in p then None
    else if p["kind"] == PText("job") then Some(Job)
    else if p["kind"] == PText("direct-save") then Some(DirectSave)
    else None
  }

  lemma KindTextsDiffer()
    ensures KindText(Job) != KindText(DirectSave)
  {
    assert |KindText(Job)| == 3 && |KindText(DirectSave)| == 11;
  }

  ghost predicate Accepts(p: Payload, at: Address, owners: Owners, kind: Kind, folded: Folding) {
    && WellFormed(p, at, kind, folded)
    && var op := Decoded(p, at, kind);
       if kind.DirectSave? then DirectIdentity(op)
       else exists g :: Matches(owners, op.id) == {g} && OwnedBy(op, g, owners[g], owners[g].jobs[op.id])
  }

  lemma AcceptedKind(p: Payload, at: Address, owners: Owners, kind: Kind, folded: Folding)
    requires Accepts(p, at, owners, kind, folded)
    ensures KindOf(p) == Some(kind)
  {
    KindTextsDiffer();
  }

  /** The group whose job record answers for the operation, when there is exactly one and it owns it. */
  method OwnerOf(op: Operation, owners: Owners) returns (group: Option<string>)
    ensures group.Some? <==>
      exists g :: Matches(owners, op.id) == {g} && OwnedBy(op, g, owners[g], owners[g].jobs[op.id])
    ensures group.Some? ==> Matches(owners, op.id) == {group.value}
  {
    var matches := Matches(owners, op.id);
    if matches == {} { return None; }
    var g :| g in matches;
    if matches != {g} {
      assert forall h :: matches != {h};
      return None;
    }
    assert forall h :: matches == {h} ==> h in {g};
    return if OwnedBy(op, g, owners[g], owners[g].jobs[op.id]) then Some(g) else None;
  }

  /** `_operation_from_payload`: the operation, and the group that owns its job. */
  method OperationFromPayload(p: Payload, at: Address, owners: Owners, folded: Folding)
    returns (r: Option<(Operation, Option<string>)>)
    ensures r.Some? <==> exists kind :: Accepts(p, at, owners, kind, folded)
    ensures r.Some? ==> forall kind | Accepts(p, at, owners, kind, folded) :: r.value.0 == Decoded(p, at, kind)
    ensures r.Some? && r.value.0.kind.Job? ==> r.value.1.Some? && Matches(owners, at.operation) == {r.value.1.value}
  {
    forall kind | Accepts(p, at, owners, kind, folded) ensures KindOf(p) == Some(kind) {
      AcceptedKind(p, at, owners, kind, folded);
    }
    var kind := KindOf(p);
    if kind.None? || !WellFormed(p, at, kind.value, folded) { return None; }
    var op := Decoded(p, at, kind.value);
    if op.kind.DirectSave? {
      return if DirectIdentity(op) then Some((op, None)) else None;
    }
    var group := OwnerOf(op, owners);
    return if group.Some? then Some((op, group)) else None;
  }

  // ----- what writer and reader have to do with each other -----

  /** An operation as the publication makes it: its memory is what its selector resolves to, and its id passed the
      check before its journal got a path. */
  ghost predicate Genuine(op: Operation, ctx: Context, folded: Folding) {
    && Resolve(op.selector, ctx) == Resolved(op.canonical) && op.memory == op.canonical
    && RevisionText(op.oldRevision) && RevisionText(op.newRevision) && SafeId(op.id, folded)
  }

  lemma WrittenIsWellFormed(op: Operation, folded: Folding)
    requires op.canonical != "" && RevisionText(op.oldRevision) && RevisionText(op.newRevision)
    requires SafeId(op.id, folded)
    ensures WellFormed(Written(op), Address(op.memory, op.id), op.kind, folded)
    ensures Decoded(Written(op), Address(op.memory, op.id), op.kind) == op
  {
    PhaseRoundTrip(op.phase);
    assert Written(op).Keys == SCHEMA + (if op.kind.Job? then {"job_id"} else {});
  }

  lemma ResolvedIsNotEmpty(sel: Selector, ctx: Context)
    requires Resolve(sel, ctx).Resolved?
    ensures Resolve(sel, ctx).canonical != ""
  {
    assert Encode(Criteria(sel, ctx))[0] == '{';
  }

  /** The same payload, but for ids that are no texts and only shown as such. */
  predicate Alike(p: Payload, q: Payload) {
    p.Keys == q.Keys && forall k | k in p :: AlikeAt(k, p[k], q[k])
  }

  predicate AlikeAt(key: string, v: PayloadValue, written: PayloadValue) {
    || v == written
    || (key in {"operation_id", "job_id", "memory_hash"} && written.PText? && v == Strange(written.text))
  }

  function KeysOf(kind: Kind): set<string> { SCHEMA + if kind.Job? then {"job_id"} else {} }

  /** What the writer puts under each key. */
  function ValueAt(op: Operation, k: string): PayloadValue {
    if k == "kind" then PText(KindText(op.kind))
    else if k == "selector" then PSelector(op.selector)
    else if k == "canonical_json" then PText(op.canonical)
    else if k == "memory_hash" then PText(op.memory)
    else if k == "old_revision" then PText(op.oldRevision)
    else if k == "new_revision" then PText(op.newRevision)
    else if k == "phase" then PText(PhaseText(op.phase))
    else if k == "no_change" then PBool(op.noChange)
    else PText(op.id)
  }

  lemma WrittenKeys(op: Operation)
    ensures Written(op).Keys == KeysOf(op.kind)
  {}

  lemma WrittenValues(op: Operation)
    ensures Written(op).Keys == KeysOf(op.kind)
    ensures forall k | k in KeysOf(op.kind) :: Written(op)[k] == ValueAt(op, k)
  {
    WrittenKeys(op);
    forall k | k in KeysOf(op.kind) ensures Written(op)[k] == ValueAt(op, k) { WrittenValue(op, k); }
  }

  lemma WrittenValue(op: Operation, k: string)
    requires k in Written(op) && k in KeysOf(op.kind)
    ensures Written(op)[k] == ValueAt(op, k)
  {}

  /** The keys whose value the address decides. */
  const ADDRESSED: set<string> := {"operation_id", "job_id", "memory_hash", "stage_directory", "backup_directory"}

  lemma AddressedAlike(p: Payload, at: Address, kind: Kind, folded: Folding, k: string)
    requires WellFormed(p, at, kind, folded) && k in KeysOf(kind) && k in ADDRESSED
    ensures k in p && AlikeAt(k, p[k], ValueAt(Decoded(p, at, kind), k))
  {}

  lemma OthersAlike(p: Payload, at: Address, kind: Kind, folded: Folding, k: string)
    requires WellFormed(p, at, kind, folded) && k in KeysOf(kind) && k !in ADDRESSED
    ensures k in p && p[k] == ValueAt(Decoded(p, at, kind), k)
  {
    PhaseTexts(p["phase"].text);
  }

  lemma DecodedIsAlike(p: Payload, at: Address, kind: Kind, folded: Folding)
    requires WellFormed(p, at, kind, folded)
    ensures WrittenFor(p, Decoded(p, at, kind), folded)
  {
    var op := Decoded(p, at, kind);
    WrittenValues(op);
    forall k | k in p ensures AlikeAt(k, p[k], Written(op)[k]) {
      if k in ADDRESSED { AddressedAlike(p, at, kind, folded, k); } else { OthersAlike(p, at, kind, folded, k); }
    }
  }

  lemma AlikeIsWellFormed(p: Payload, op: Operation, folded: Folding)
    requires WrittenFor(p, op, folded)
    ensures WellFormed(p, Address(op.memory, op.id), op.kind, folded)
  {
    WrittenValues(op);
    PhaseRoundTrip(op.phase);
    assert forall k | k in KeysOf(op.kind) :: k in p && AlikeAt(k, p[k], ValueAt(op, k));
  }

  lemma AlikeDecodes(p: Payload, op: Operation, folded: Folding)
    requires WrittenFor(p, op, folded) && WellFormed(p, Address(op.memory, op.id), op.kind, folded)
    ensures Decoded(p, Address(op.memory, op.id), op.kind) == op
  {
    WrittenValues(op);
    PhaseRoundTrip(op.phase);
    assert forall k | k in KeysOf(op.kind) :: k in p && AlikeAt(k, p[k], ValueAt(op, k));
  }

  /** The schema accepts what the publication writes, and nothing else: a payload that fits it at its address is the
      one written for some operation of that kind, with a safe id and well-formed revisions. */
  lemma WellFormedExactly(p: Payload, at: Address, kind: Kind, folded: Folding)
    ensures WellFormed(p, at, kind, folded) <==>
      exists op :: WrittenFor(p, op, folded) && op.kind == kind && op.id == at.operation && op.memory == at.memory
  {
    if WellFormed(p, at, kind, folded) { DecodedIsAlike(p, at, kind, folded); }
    if op :| WrittenFor(p, op, folded) && op.kind == kind && op.id == at.operation && op.memory == at.memory {
      AlikeIsWellFormed(p, op, folded);
    }
  }

  predicate WrittenFor(p: Payload, op: Operation, folded: Folding) {
    && Alike(p, Written(op)) && SafeId(op.id, folded) && op.canonical != ""
    && RevisionText(op.oldRevision) && RevisionText(op.newRevision)
  }

  lemma PhaseTexts(text: string)
    ensures PhaseOf(text).Some? <==> text in {"prepared", "backed_up", "published"}
    ensures PhaseOf(text).Some? ==> PhaseText(PhaseOf(text).value) == text
  {}

  /** The journal of a direct save is accepted, whatever it was resolved from, and decodes to the same operation. */
  lemma DirectSaveIsAccepted(op: Operation, ctx: Context, owners: Owners, folded: Folding)
    requires op.kind.DirectSave? && Genuine(op, ctx, folded)
    ensures Accepts(Written(op), Address(op.memory, op.id), owners, DirectSave, folded)
    ensures Decoded(Written(op), Address(op.memory, op.id), DirectSave) == op
  {
    ResolvedIsNotEmpty(op.selector, ctx);
    WrittenIsWellFormed(op, folded);
    RoundTrip(op.selector, ctx);
  }

  /** The job's record is the only one of its id, in its own group, and names the memory the job resolves to. */
  ghost predicate Answers(op: Operation, owners: Owners, group: string) {
    && Matches(owners, op.id) == {group}
    && var spec := owners[group].jobs[op.id];
       && spec.jobId == op.id && spec.group == group && owners[group].root == Some(spec.groupRoot)
       && spec.selector == op.selector && spec.canonical == op.canonical && spec.memory == op.memory
       && Resolve(op.selector, ContextOfJob(spec)) == Resolved(op.canonical) && op.memory == op.canonical
  }

  /** The journal of a job is accepted as long as its record is the only one of that id, unchanged in its group. */
  lemma JobIsAccepted(op: Operation, owners: Owners, group: string, folded: Folding)
    requires op.kind.Job? && Answers(op, owners, group)
    requires Genuine(op, ContextOfJob(owners[group].jobs[op.id]), folded)
    ensures Accepts(Written(op), Address(op.memory, op.id), owners, Job, folded)
    ensures Decoded(Written(op), Address(op.memory, op.id), Job) == op
  {
    ResolvedIsNotEmpty(op.selector, ContextOfJob(owners[group].jobs[op.id]));
    WrittenIsWellFormed(op, folded);
    assert OwnedBy(op, group, owners[group], owners[group].jobs[op.id]);
  }

  /** And no other: what recovery accepts as a job's journal is what the publication of that job writes. */
  lemma JobAcceptedExactly(p: Payload, at: Address, owners: Owners, folded: Folding)
    ensures Accepts(p, at, owners, Job, folded) <==>
      exists op, group :: WrittenFor(p, op, folded) && op.kind.Job? && op.id == at.operation && op.memory == at.memory
                          && Answers(op, owners, group)
  {
    if Accepts(p, at, owners, Job, folded) {
      DecodedIsAlike(p, at, Job, folded);
      var op := Decoded(p, at, Job);
      var g :| Matches(owners, op.id) == {g} && OwnedBy(op, g, owners[g], owners[g].jobs[op.id]);
      assert Answers(op, owners, g);
    }
    if op, group :| WrittenFor(p, op, folded) && op.kind.Job? && op.id == at.operation && op.memory == at.memory
                    && Answers(op, owners, group) {
      AlikeIsWellFormed(p, op, folded);
      AlikeDecodes(p, op, folded);
      assert OwnedBy(op, group, owners[group], owners[group].jobs[op.id]);
    }
  }

  /** Whatever is in an accepted job journal, recovery works on the one memory its own job resolves to: two accepted
      journals for one job id can only name one memory. */
  lemma AcceptedNamesItsOwnMemory(p: Payload, at: Address, q: Payload, other: Address, owners: Owners, folded: Folding)
    requires Accepts(p, at, owners, Job, folded) && Accepts(q, other, owners, Job, folded)
    requires at.operation == other.operation
    ensures at == other
  {
    var g :| Matches(owners, at.operation) == {g}
             && OwnedBy(Decoded(p, at, Job), g, owners[g], owners[g].jobs[at.operation]);
    var h :| Matches(owners, other.operation) == {h}
             && OwnedBy(Decoded(q, other, Job), h, owners[h], owners[h].jobs[other.operation]);
    assert g in {h};
  }

  /** An accepted direct save works on the memory its own canonical text names. */
  lemma AcceptedDirectNamesItsText(p: Payload, at: Address, owners: Owners, folded: Folding)
    requires Accepts(p, at, owners, DirectSave, folded)
    ensures Decoded(p, at, DirectSave).canonical == at.memory
    ensures exists ms :: Acceptable(p["selector"].selector, ms) && at.memory == Encode(ms)
  {
    AcceptedExactly(p["selector"].selector, p["canonical_json"].text);
  }
}
