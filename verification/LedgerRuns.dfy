/** Whole runs of the ledger: effects begin, are attempted, observed and completed, snapshots
    are taken, the compactor prunes.  Key by key, the pruned tables answer as the table would
    if no row had ever been deleted. */
module LedgerRuns {
  import opened Common
  import opened Ledger
  import opened Compaction

  /** `full` is the effect table with every deletion ignored.  `late` holds the rows whose
      external reference was attached after a snapshot last captured them. */
  datatype World = World(db: Db, full: map<Key, Effect>, late: set<Key>, now: int)

  /** What the counterparty said about an effect. */
  datatype Resolution = ResConfirmed | ResFailed | ResAbsent | ResDuplicate | ResStuck

  datatype Observation = Observation(
    resolution: Resolution, externalRef: string, response: Option<string>, error: Option<string>)

  datatype Step =
    | Tick(later: int)
    | Begin(k: Key, draft: Effect, fb: Fallback)
    | Complete(k: Key, status: EffectStatus, response: Option<string>, error: Option<string>)
    | Attempt(k: Key, nextAt: int)
    | Observe(k: Key, o: Observation)
    | AttachRef(k: Key, ref: string)
    | Others(obligations: map<int, Obligation>, timers: map<Key, Timer>)
    | Snap(s: Session, w: int)
    | Compact(policy: Policy, archived: set<Session>)

  // ---------------------------------------------------------------- the writers of an effect row

  /** The (connector, business key) pair is unique among live rows, NULLs apart. */
  predicate Clash(effects: map<Key, Effect>, draft: Effect) {
    draft.connector != "" && draft.businessKey != "" &&
    exists k :: k in effects && effects[k].connector == draft.connector && effects[k].businessKey == draft.businessKey
  }

  function Fresh(draft: Effect, now: int): Effect {
    draft.(status := Pending, externalRef := "", response := None, error := None, tsMs := now)
  }

  /** Completion moves only PENDING rows. */
  function Completed(e: Effect, st: EffectStatus, response: Option<string>, error: Option<string>, now: int): Effect {
    if e.status.Pending? then e.(status := st, response := response, error := error, tsMs := now) else e
  }

  /** A recorded dispatch attempt, whatever the row's status. */
  function Attempted(e: Effect, nextAt: int, now: int): Effect {
    e.(status := if nextAt <= 0 then Unknown else e.status, tsMs := now)
  }

  const NON_IDEMPOTENT := "non_idempotent"
  const UNRESOLVED := "{\"detail\":\"reconciler couldn't resolve\",\"resolution\":\"stuck\"}"

  function OrText(ref: string, previous: string): string {
    if ref != "" then ref else previous
  }

  function OrJson(json: Option<string>, previous: Option<string>): Option<string> {
    if json.Some? then json else previous
  }

  /** A recorded observation, whatever the row's status. */
  function Observed(e: Effect, o: Observation, now: int): Effect {
    match o.resolution
    case ResConfirmed | ResDuplicate =>
      e.(status := Confirmed, externalRef := OrText(o.externalRef, e.externalRef), response := o.response, tsMs := now)
    case ResFailed => e.(status := Failed, error := o.error, tsMs := now)
    case ResAbsent =>
      e.(status := if e.semantics == NON_IDEMPOTENT then Unknown else e.status,
         error := OrJson(o.error, e.error), tsMs := now)
    case ResStuck => e.(status := Failed, error := OrJson(o.error, Some(UNRESOLVED)), tsMs := now)
  }

  /** A step that updates one existing row. */
  predicate Updates(step: Step) {
    step.Complete? || step.Attempt? || step.Observe? || step.AttachRef?
  }

  function Rewritten(step: Step, e: Effect, now: int): Effect
    requires Updates(step)
  {
    match step
    case Complete(_, st, response, error) => Completed(e, st, response, error, now)
    case Attempt(_, nextAt) => Attempted(e, nextAt, now)
    case Observe(_, o) => Observed(e, o, now)
    case AttachRef(_, ref) => e.(externalRef := ref)
  }

  function Update(m: map<Key, Effect>, step: Step, now: int): map<Key, Effect>
    requires Updates(step)
  {
    if step.k in m then m[step.k := Rewritten(step, m[step.k], now)] else m
  }

  // ---------------------------------------------------------------- runs

  function EffectCutoff(w: World, policy: Policy): int {
    w.now - policy.effectTtlMs
  }

  function SessionCutoff(w: World, policy: Policy): int {
    w.now - policy.sessionTtlMs
  }

  ghost predicate Enabled(w: World, step: Step) {
    match step
    case Tick(later) => w.now <= later
    case Complete(_, status, _, _) => !status.Pending?
    case Compact(policy, archived) => Archivable(w.db, archived, SessionCutoff(w, policy), Limit(policy))
    case _ => true
  }

  /** The reference differs from what the row holds. */
  predicate NewRef(w: World, k: Key, ref: string) {
    k in w.db.effects && w.db.effects[k].externalRef != ref
  }

  function Apply(w: World, step: Step): World {
    match step
    case Tick(later) => w.(now := later)
    case Begin(k, draft, fb) =>
      if Lookup(w.db, k, fb).Some? || Clash(w.db.effects, draft) then w
      else w.(db := w.db.(effects := w.db.effects[k := Fresh(draft, w.now)]), full := w.full[k := Fresh(draft, w.now)])
    case Complete(_, _, _, _) | Attempt(_, _) | Observe(_, _) | AttachRef(_, _) =>
      World(w.db.(effects := Update(w.db.effects, step, w.now)), Update(w.full, step, w.now),
            if step.AttachRef? && NewRef(w, step.k, step.ref) then w.late + {step.k} else w.late, w.now)
    case Others(obligations, timers) => w.(db := w.db.(obligations := obligations, timers := timers))
    case Snap(s, upTo) =>
      w.(db := AfterSnapshot(w.db, s, upTo, w.now),
         late := set k | k in w.late && !(k.session == s && IsCaptured(w.db, s, upTo, k.id)))
    case Compact(policy, archived) => w.(db := AfterCompaction(w.db, archived, policy, EffectCutoff(w, policy)))
  }

  ghost predicate Initial(w: World) {
    w.db.effects == map[] && w.db.snapshots == map[] && w.full == map[] && w.late == {}
  }

  ghost predicate IsRun(run: seq<World>, steps: seq<Step>) {
    && |run| == |steps| + 1 && Initial(run[0])
    && forall i :: 0 <= i < |steps| ==> Enabled(run[i], steps[i]) && run[i + 1] == Apply(run[i], steps[i])
  }

  // ---------------------------------------------------------------- the writers in plain terms

  /** A key that neither table knows becomes a PENDING row with the caller's identity and
      request and without outcome; a known one changes nothing. */
  lemma BeginCreatesPending(w: World, k: Key, draft: Effect, fb: Fallback)
    ensures k in w.db.effects || k.id in Entries(w.db, k.session) ==> Apply(w, Begin(k, draft, fb)) == w
    ensures k !in w.db.effects && k.id !in Entries(w.db, k.session) && !Clash(w.db.effects, draft) ==>
              var t := Apply(w, Begin(k, draft, fb)).db.effects;
              && k in t && t[k].status == Pending && t[k].tsMs == w.now
              && t[k].request == draft.request && t[k].toolName == draft.toolName && t[k].callIndex == draft.callIndex
              && t[k].connector == draft.connector && t[k].businessKey == draft.businessKey
              && t[k].response == None && t[k].error == None && t[k].externalRef == ""
              && t - {k} == w.db.effects
  {
    if k !in w.db.effects && k.id !in Entries(w.db, k.session) && !Clash(w.db.effects, draft) {
      assert w.db.effects[k := Fresh(draft, w.now)] - {k} == w.db.effects;
    }
  }

  /** Completion writes a PENDING row's outcome and leaves every other row alone. */
  lemma CompletionWrites(e: Effect, st: EffectStatus, response: Option<string>, error: Option<string>, now: int)
    ensures e.status == Pending ==>
              var t := Completed(e, st, response, error, now);
              t.status == st && t.response == response && t.error == error && t.tsMs == now
              && t.externalRef == e.externalRef && t.request == e.request
    ensures e.status != Pending ==> Completed(e, st, response, error, now) == e
  {
  }

  /** What each observation makes of a row, of whatever status. */
  lemma ObservationWrites(e: Effect, o: Observation, now: int)
    ensures var t := Observed(e, o, now);
            && t.tsMs == now && t.request == e.request
            && (o.resolution == ResConfirmed || o.resolution == ResDuplicate ==>
                  t.status == Confirmed && t.response == o.response && t.error == e.error
                  && t.externalRef == if o.externalRef == "" then e.externalRef else o.externalRef)
            && (o.resolution == ResFailed ==> t.status == Failed && t.error == o.error)
            && (o.resolution == ResAbsent ==>
                  t.status == if e.semantics == "non_idempotent" then Unknown else e.status)
            && (o.resolution == ResStuck ==> t.status == Failed && t.error != None)
            && (o.resolution == ResFailed || o.resolution == ResAbsent || o.resolution == ResStuck ==>
                  t.response == e.response && t.externalRef == e.externalRef)
  {
  }

  // ---------------------------------------------------------------- what keeps a key safe

  /** An attempt, an observation or a late reference: written without looking at the status. */
  predicate WritesBlindly(step: Step, k: Key) {
    (step.Attempt? || step.Observe? || step.AttachRef?) && step.k == k
  }

  /** The step does not put the key's answer at risk: a watermark is in the past, a row is
      pruned only if it is terminal, within its session's watermark and without a late
      reference, and nothing is written to a row that is already pruned. */
  predicate Safe(w: World, step: Step, k: Key) {
    match step
    case Snap(s, upTo) => s == k.session ==> upTo <= w.now
    case Compact(policy, archived) =>
      k in w.db.effects && EffectGoes(w.db, archived, EffectCutoff(w, policy), k) ==>
        && Terminal(w.db.effects[k].status) && k !in w.late
        && k.session in w.db.snapshots
        && (if k.session in archived then SessionCutoff(w, policy) else EffectCutoff(w, policy))
           <= w.db.snapshots[k.session].upToTsMs
    case _ => WritesBlindly(step, k) && k in w.full ==> k in w.db.effects
  }

  ghost predicate SafeTo(run: seq<World>, steps: seq<Step>, n: nat, k: Key)
    requires n <= |steps| <= |run|
  {
    forall i :: 0 <= i < n ==> Safe(run[i], steps[i], k)
  }

  // ---------------------------------------------------------------- the invariant, one key at a time

  /** The snapshot entry of the key is that of its row. */
  predicate CapturedNow(w: World, k: Key)
    requires k in w.full
  {
    k.id in Entries(w.db, k.session) && Entries(w.db, k.session)[k.id] == Wire(EffectToCaptured(w.full[k]))
  }

  predicate Below(w: World, k: Key)
    requires k in w.full
  {
    Terminal(w.full[k].status) && k.session in w.db.snapshots && w.full[k].tsMs < w.db.snapshots[k.session].upToTsMs
  }

  /** A live row is the full table's; a row that is gone is terminal and captured; strictly
      below the watermark a row is captured, late references apart. */
  predicate Agree(w: World, k: Key) {
    && (k in w.db.effects ==> k in w.full && w.full[k] == w.db.effects[k])
    && (k in w.full && k !in w.db.effects ==> Terminal(w.full[k].status) && CapturedNow(w, k))
    && (k in w.full && Below(w, k) && k !in w.late ==> CapturedNow(w, k))
    && (k.id in Entries(w.db, k.session) ==> k in w.full)
    && (k.session in w.db.snapshots ==> w.db.snapshots[k.session].upToTsMs <= w.now)
  }

  /** One row is written in both tables: afresh and stamped now, or with only its reference
      changed and noted as late, or as it was. */
  lemma WriteKeeps(w: World, t: World, k: Key, e: Effect, j: Key)
    requires Agree(w, j) && t.now == w.now && t.db.snapshots == w.db.snapshots
    requires k == j && k in w.full ==> k in w.db.effects
    requires t.full == w.full[k := e] && t.db.effects == w.db.effects[k := e]
    requires w.late <= t.late <= w.late + {k}
    requires e.tsMs == w.now || k in t.late || (k in w.full && e == w.full[k])
    ensures Agree(t, j)
  {
    assert Entries(t.db, j.session) == Entries(w.db, j.session);
  }

  lemma BeginKeeps(w: World, k: Key, draft: Effect, fb: Fallback, j: Key)
    requires Agree(w, j)
    ensures Agree(Apply(w, Begin(k, draft, fb)), j)
  {
    if Lookup(w.db, k, fb).None? && !Clash(w.db.effects, draft) {
      WriteKeeps(w, Apply(w, Begin(k, draft, fb)), k, Fresh(draft, w.now), j);
    }
  }

  /** What an update makes of a row: stamped now, or the same, or with another reference only. */
  lemma RewrittenStamp(step: Step, e: Effect, now: int)
    requires Updates(step)
    ensures Rewritten(step, e, now).tsMs == now || Rewritten(step, e, now) == e
         || (step.AttachRef? && e.externalRef != step.ref)
  {
  }

  lemma UpdateKeeps(w: World, step: Step, j: Key)
    requires Agree(w, j) && Updates(step) && Safe(w, step, j)
    ensures Agree(Apply(w, step), j)
  {
    var k, t := step.k, Apply(w, step);
    if k == j {
      UpdateKeepsKey(w, step);
    } else {
      assert Entries(t.db, j.session) == Entries(w.db, j.session);
    }
  }

  lemma UpdateKeepsKey(w: World, step: Step)
    requires Updates(step) && Agree(w, step.k) && Safe(w, step, step.k)
    ensures Agree(Apply(w, step), step.k)
  {
    var k, t := step.k, Apply(w, step);
    if k in w.db.effects {
      RewrittenStamp(step, w.full[k], w.now);
      WriteKeeps(w, t, k, Rewritten(step, w.full[k], w.now), k);
    } else {
      assert step.Complete? || k !in w.full;
      assert Entries(t.db, k.session) == Entries(w.db, k.session) && t.full == w.full;
    }
  }

  /** The entry of a key after a snapshot of its session. */
  lemma SnapEntry(w: World, upTo: int, k: Key)
    requires Agree(w, k)
    ensures var entries := Merged(w.db, k.session, upTo, w.now).entries;
            if IsCaptured(w.db, k.session, upTo, k.id)
            then k.id in entries && k in w.full && entries[k.id] == Wire(EffectToCaptured(w.full[k]))
            else (k.id in entries <==> k.id in Entries(w.db, k.session))
                 && (k.id in entries ==> entries[k.id] == Entries(w.db, k.session)[k.id])
  {
    CollectedIds(w.db, k.session, upTo, k.id);
    assert k == Key(k.session, k.id);
    assert Merged(w.db, k.session, upTo, w.now).entries == Entries(w.db, k.session) + Collected(w.db, k.session, upTo);
  }

  lemma SnapKeeps(w: World, s: Session, upTo: int, k: Key)
    requires Agree(w, k) && Safe(w, Snap(s, upTo), k)
    ensures Agree(Apply(w, Snap(s, upTo)), k)
  {
    if s == k.session {
      SnapEntry(w, upTo, k);
      SnapWatermark(w, upTo, k);
    } else {
      assert Entries(Apply(w, Snap(s, upTo)).db, k.session) == Entries(w.db, k.session);
    }
  }

  lemma SnapWatermark(w: World, upTo: int, k: Key)
    requires Agree(w, k) && upTo <= w.now
    ensures var t := Apply(w, Snap(k.session, upTo));
            && t.db.snapshots[k.session].upToTsMs <= w.now
            && (k in w.full && Below(t, k) && !IsCaptured(w.db, k.session, upTo, k.id) ==>
                  k !in w.db.effects || Below(w, k))
  {
    assert k == Key(k.session, k.id);
  }

  lemma CompactKeeps(w: World, policy: Policy, archived: set<Session>, k: Key)
    requires Agree(w, k) && Enabled(w, Compact(policy, archived)) && Safe(w, Compact(policy, archived), k)
    ensures Agree(Apply(w, Compact(policy, archived)), k)
  {
    ArchivedAreUndisturbed(w.db, archived, SessionCutoff(w, policy), Limit(policy));
  }

  lemma StepKeeps(w: World, step: Step, k: Key)
    requires Agree(w, k) && Enabled(w, step) && Safe(w, step, k)
    ensures Agree(Apply(w, step), k)
  {
    match step {
      case Tick(_) =>
      case Others(_, _) =>
      case Begin(j, draft, fb) => BeginKeeps(w, j, draft, fb, k);
      case Snap(s, upTo) => SnapKeeps(w, s, upTo, k);
      case Compact(policy, archived) => CompactKeeps(w, policy, archived, k);
      case _ => UpdateKeeps(w, step, k);
    }
  }

  lemma {:induction false} RunAgrees(run: seq<World>, steps: seq<Step>, n: nat, k: Key)
    requires IsRun(run, steps) && n < |run| && SafeTo(run, steps, n, k)
    ensures Agree(run[n], k)
  {
    if n > 0 {
      RunAgrees(run, steps, n - 1, k);
      assert run[n - 1 + 1] == Apply(run[n - 1], steps[n - 1]);
      StepKeeps(run[n - 1], steps[n - 1], k);
    }
  }

  // ---------------------------------------------------------------- the pruned tables answer like the full one

  /** In every run, a key that only safe steps touched is found exactly when the full table
      has it, with the same status, and with the very same row when that row is live or
      recoverable. */
  lemma PrunedAnswersLikeFull(run: seq<World>, steps: seq<Step>, n: nat, k: Key, fb: Fallback)
    requires IsRun(run, steps) && n < |run| && SafeTo(run, steps, n, k)
    ensures var w := run[n];
            && (Lookup(w.db, k, fb).Some? <==> k in w.full)
            && (k in w.full ==> Lookup(w.db, k, fb).value.status == w.full[k].status)
            && (k in w.full && (k in w.db.effects || Recoverable(w.full[k], fb)) ==>
                 Lookup(w.db, k, fb).value == w.full[k])
  {
    var w := run[n];
    RunAgrees(run, steps, n, k);
    if k in w.full && k !in w.db.effects {
      EntryRecoversIff(w.full[k], fb);
    }
  }

  /** So no key is ever dispatched twice: once a key is in the full table, beginning it
      again creates no row. */
  lemma NoKeyBeginsTwice(run: seq<World>, steps: seq<Step>, n: nat, k: Key, draft: Effect, fb: Fallback)
    requires IsRun(run, steps) && n < |run| && SafeTo(run, steps, n, k) && k in run[n].full
    ensures Apply(run[n], Begin(k, draft, fb)) == run[n]
  {
    PrunedAnswersLikeFull(run, steps, n, k, fb);
  }

  /** A terminal row never changes unless an attempt, an observation or a late reference is
      written to it. */
  lemma {:induction false} TerminalIsForever(run: seq<World>, steps: seq<Step>, m: nat, n: nat, k: Key)
    requires IsRun(run, steps) && m <= n < |run| && SafeTo(run, steps, n, k)
    requires k in run[m].full && Terminal(run[m].full[k].status)
    requires forall i :: m <= i < n ==> !WritesBlindly(steps[i], k)
    ensures k in run[n].full && run[n].full[k] == run[m].full[k]
  {
    if m < n {
      TerminalIsForever(run, steps, m, n - 1, k);
      assert run[n - 1 + 1] == Apply(run[n - 1], steps[n - 1]);
      if steps[n - 1].Begin? && steps[n - 1].k == k {
        NoKeyBeginsTwice(run, steps, n - 1, k, steps[n - 1].draft, steps[n - 1].fb);
      }
    }
  }

  /** The resolution leaves the status as it is. */
  predicate Confirms(e: Effect, r: Resolution) {
    match r
    case ResConfirmed | ResDuplicate => e.status.Confirmed?
    case ResFailed | ResStuck => e.status.Failed?
    case ResAbsent => e.semantics != NON_IDEMPOTENT
  }

  /** Exactly which step changes the status of a terminal row: an attempt that gives up, or
      an observation that says otherwise. */
  lemma TerminalStatusChangesIff(run: seq<World>, steps: seq<Step>, n: nat, k: Key)
    requires IsRun(run, steps) && n < |steps| && SafeTo(run, steps, n, k)
    requires k in run[n].full && Terminal(run[n].full[k].status)
    ensures k in run[n + 1].full
    ensures run[n + 1].full[k].status != run[n].full[k].status <==>
            || (steps[n].Attempt? && steps[n].k == k && steps[n].nextAt <= 0)
            || (steps[n].Observe? && steps[n].k == k && !Confirms(run[n].full[k], steps[n].o.resolution))
  {
    var step := steps[n];
    assert run[n + 1] == Apply(run[n], step);
    if step.Begin? && step.k == k {
      NoKeyBeginsTwice(run, steps, n, k, step.draft, step.fb);
    }
  }

  // ---------------------------------------------------------------- the conditions are needed

  /** A row that a pass removes and no snapshot has is forgotten, and beginning it again starts afresh. */
  lemma UncapturedRowIsForgotten(
    db: Db, after: Db, archived: set<Session>, policy: Policy, now: int, k: Key, fb: Fallback)
    requires PassDone(db, after, archived, policy, now)
    requires k in db.effects && k !in after.effects && k.id !in Entries(db, k.session)
    ensures Lookup(db, k, fb) == Some(db.effects[k]) && Lookup(after, k, fb) == None
  {
    assert Entries(after, k.session) == Entries(db, k.session);
  }

  /** A ledger with one row and no obligation or timer. */
  function OneRow(k: Key, e: Effect, snapshots: map<Session, Snapshot>): Db {
    Db(map[k := e], map[], map[], snapshots)
  }

  /** A pass archives the session of an old lone row, whatever the row's status. */
  lemma OneRowPass(k: Key, e: Effect, snapshots: map<Session, Snapshot>, policy: Policy, now: int) returns (after: Db)
    requires e.tsMs < now - policy.sessionTtlMs
    ensures PassDone(OneRow(k, e, snapshots), after, {k.session}, policy, now)
    ensures after == Db(map[], map[], map[], snapshots)
  {
    var db, archived := OneRow(k, e, snapshots), {k.session};
    after := Db(map[], map[], map[], snapshots);
    assert Sessions(db) == archived;
    assert Candidates(db, archived, now - policy.sessionTtlMs, Limit(policy)) && Filtered(db, archived, archived);
    var cutoff := now - policy.effectTtlMs;
    assert after.obligations == SettledRemoved(ObligationsOutside(db.obligations, archived), policy, cutoff);
    assert after.timers == FiredRemoved(Outside(db.timers, archived), policy, cutoff);
    assert after.effects == UnpinnedRemoved(Outside(db.effects, archived), after.obligations, cutoff);
  }

  /** So a pass can make the ledger forget an effect that is still PENDING or UNKNOWN. */
  lemma UnfinishedRowIsForgotten(k: Key, e: Effect, policy: Policy, now: int, fb: Fallback) returns (after: Db)
    requires e.tsMs < now - policy.sessionTtlMs && (e.status == Pending || e.status == Unknown)
    ensures PassDone(OneRow(k, e, map[]), after, {k.session}, policy, now)
    ensures Lookup(OneRow(k, e, map[]), k, fb) == Some(e) && Lookup(after, k, fb) == None
  {
    after := OneRowPass(k, e, map[], policy, now);
  }

  /** A snapshot misses a row that is not terminal yet, even if the row then completes at
      the watermark's own instant: that is why completeness is exclusive of the watermark. */
  lemma SnapshotMissesUnfinished(db: Db, s: Session, w: int, at: int, id: string)
    requires Key(s, id) in db.effects && !Terminal(db.effects[Key(s, id)].status) && id !in Entries(db, s)
    ensures id !in Entries(AfterSnapshot(db, s, w, at), s)
  {
    CollectedIds(db, s, w, id);
    assert Entries(AfterSnapshot(db, s, w, at), s) == Entries(db, s) + Collected(db, s, w);
  }

  /** Snapshots keep idempotency keys only: once a pass has removed a row, another effect with
      its connector and business key is no longer refused. */
  lemma BusinessKeyIsForgotten(
    db: Db, after: Db, archived: set<Session>, policy: Policy, now: int, k: Key, draft: Effect)
    requires PassDone(db, after, archived, policy, now) && k in db.effects && k !in after.effects
    requires draft.connector != "" && draft.businessKey != ""
    requires db.effects[k].connector == draft.connector && db.effects[k].businessKey == draft.businessKey
    requires forall j :: j in db.effects && j != k ==> db.effects[j].businessKey != draft.businessKey
    ensures Clash(db.effects, draft) && !Clash(after.effects, draft)
  {
    PassIsOneDeletion(db, after, archived, policy, now);
  }

  /** A pruned row is out of reach of attempts, observations and references: they change the
      full table and nothing that a lookup sees. */
  lemma WriteToPrunedRowIsLost(w: World, step: Step, fb: Fallback)
    requires Updates(step) && step.k !in w.db.effects
    ensures Lookup(Apply(w, step).db, step.k, fb) == Lookup(w.db, step.k, fb)
    ensures step.k in w.full ==> Apply(w, step).full[step.k] == Rewritten(step, w.full[step.k], w.now)
  {
    assert Entries(Apply(w, step).db, step.k.session) == Entries(w.db, step.k.session);
  }

  /** A reference attached to a captured terminal row, which a pass removes after a further
      snapshot up to `upTo`: the lookup gives it exactly when that snapshot reaches the row. */
  lemma LateReferenceSurvivesIff(
    db: Db, k: Key, ref: string, upTo: int, at: int, after: Db, archived: set<Session>, policy: Policy, now: int,
    fb: Fallback)
    requires k in db.effects && Terminal(db.effects[k].status) && ref != db.effects[k].externalRef
    requires k.id in Entries(db, k.session)
    requires Entries(db, k.session)[k.id] == Wire(EffectToCaptured(db.effects[k]))
    requires PassDone(AfterSnapshot(WithRef(db, k, ref), k.session, upTo, at), after, archived, policy, now)
    requires k !in after.effects
    ensures var answer := Lookup(after, k, fb);
            answer.Some? && (answer.value.externalRef == ref <==> db.effects[k].tsMs <= upTo)
  {
    var attached := WithRef(db, k, ref);
    EntryAfterSnapshot(attached, k, upTo, at);
    assert Entries(after, k.session) == Entries(AfterSnapshot(attached, k.session, upTo, at), k.session);
    LookupIsEntry(after, k, fb);
  }

  function WithRef(db: Db, k: Key, ref: string): Db
    requires k in db.effects
  {
    db.(effects := db.effects[k := db.effects[k].(externalRef := ref)])
  }

  lemma LookupIsEntry(db: Db, k: Key, fb: Fallback)
    requires k !in db.effects && k.id in Entries(db, k.session)
    ensures Lookup(db, k, fb) == Some(FromSnapshot(Entries(db, k.session)[k.id], fb))
  {
  }

  /** Without a further snapshot the reference is lost: the lookup falls back to the old one. */
  lemma LateReferenceIsLost(
    db: Db, k: Key, ref: string, after: Db, archived: set<Session>, policy: Policy, now: int, fb: Fallback)
    requires k in db.effects && k.id in Entries(db, k.session)
    requires Entries(db, k.session)[k.id] == Wire(EffectToCaptured(db.effects[k]))
    requires PassDone(WithRef(db, k, ref), after, archived, policy, now) && k !in after.effects
    ensures var answer := Lookup(after, k, fb);
            answer.Some? && answer.value.externalRef == db.effects[k].externalRef
  {
    assert Entries(after, k.session) == Entries(db, k.session);
    LookupIsEntry(after, k, fb);
  }

  /** It happens: an old row that a snapshot has captured gets its reference and is archived. */
  lemma LateReferenceExample(
    k: Key, e: Effect, ref: string, snapshots: map<Session, Snapshot>, policy: Policy, now: int, fb: Fallback)
    returns (after: Db)
    requires e.tsMs < now - policy.sessionTtlMs && ref != e.externalRef
    requires var db := OneRow(k, e, snapshots);
             k.id in Entries(db, k.session) && Entries(db, k.session)[k.id] == Wire(EffectToCaptured(e))
    ensures var db := WithRef(OneRow(k, e, snapshots), k, ref);
            && PassDone(db, after, {k.session}, policy, now)
            && Lookup(db, k, fb).value.externalRef == ref
            && Lookup(after, k, fb).Some? && Lookup(after, k, fb).value.externalRef != ref
  {
    var attached := WithRef(OneRow(k, e, snapshots), k, ref);
    assert attached.effects == OneRow(k, e.(externalRef := ref), snapshots).effects;
    after := OneRowPass(k, e.(externalRef := ref), snapshots, policy, now);
    assert Entries(after, k.session) == Entries(OneRow(k, e, snapshots), k.session);
    LookupIsEntry(after, k, fb);
  }

  /** A late attempt reopens a confirmed effect: a run in which a row is CONFIRMED and then UNKNOWN. */
  lemma LateAttemptReopens(k: Key, draft: Effect, fb: Fallback) returns (run: seq<World>, steps: seq<Step>)
    ensures IsRun(run, steps) && |run| == 4 && SafeTo(run, steps, 3, k)
    ensures k in run[2].full && run[2].full[k].status == Confirmed
    ensures k in run[3].full && run[3].full[k].status == Unknown
  {
    var w0 := World(Db(map[], map[], map[], map[]), map[], {}, 0);
    var w1 := Apply(w0, Begin(k, draft, fb));
    var w2 := Apply(w1, Complete(k, Confirmed, None, None));
    steps := [Begin(k, draft, fb), Complete(k, Confirmed, None, None), Attempt(k, 0)];
    run := [w0, w1, w2, Apply(w2, Attempt(k, 0))];
    assert w1.full[k].status == Pending && k in w1.db.effects;
  }
}
