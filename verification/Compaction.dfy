/** One pass of the compactor over the ledger tables, and what it can and cannot remove. */
module Compaction {
  import opened Common
  import opened Ledger

  datatype Policy = Policy(
    effectTtlMs: int, sessionTtlMs: int, archiveTerminalObligations: bool, archiveFiredTimers: bool, maxPerTick: int)

  datatype Result = Result(effectsPruned: nat, obligationsPruned: nat, timersPruned: nat, sessionsArchived: nat)

  predicate ActiveStatus(st: ObligationStatus) {
    st.ObPending? || st.ObCommitted?
  }

  // ---------------------------------------------------------------- which sessions go

  function Sessions(db: Db): set<Session> {
    set k | k in db.effects :: k.session
  }

  /** The latest effect of the session, of whatever status, is older than the cutoff. */
  predicate AllOld(db: Db, s: Session, cutoff: int) {
    forall k :: k in db.effects && k.session == s ==> db.effects[k].tsMs < cutoff
  }

  predicate Undisturbed(db: Db, s: Session) {
    && (forall o :: o in db.obligations && db.obligations[o].session == s ==> db.obligations[o].status.ObCompensated?)
    && (forall k :: k in db.timers && k.session == s ==> db.timers[k].fired)
  }

  /** A possible answer of the candidate query: it returns at most `limit` sessions, in no stated order. */
  ghost predicate Candidates(db: Db, candidates: set<Session>, cutoff: int, limit: nat) {
    && candidates <= Sessions(db) && |candidates| <= limit
    && (forall s :: s in candidates ==> AllOld(db, s, cutoff))
    && (|candidates| < limit ==> forall s :: s in Sessions(db) && AllOld(db, s, cutoff) ==> s in candidates)
  }

  ghost predicate Filtered(db: Db, candidates: set<Session>, archived: set<Session>) {
    forall s :: s in archived <==> s in candidates && Undisturbed(db, s)
  }

  /** `archived` is a possible choice of sessions; obligations and timers are looked at
      only after the limit has been applied. */
  ghost predicate Archivable(db: Db, archived: set<Session>, cutoff: int, limit: nat) {
    FromCandidates(db, archived, cutoff, limit)
  }

  ghost predicate FromCandidates(db: Db, archived: set<Session>, cutoff: int, limit: nat) {
    exists candidates: set<Session> :: Candidates(db, candidates, cutoff, limit) && Filtered(db, candidates, archived)
  }

  // ---------------------------------------------------------------- which rows go

  /** An active obligation refers to the effect; only the session id is compared. */
  predicate Pinned(obligations: map<int, Obligation>, k: Key) {
    exists o :: o in obligations && obligations[o].session.sid == k.session.sid
                && obligations[o].effectKey == k.id && ActiveStatus(obligations[o].status)
  }

  predicate EffectGoes(db: Db, archived: set<Session>, cutoff: int, k: Key)
    requires k in db.effects
  {
    || k.session in archived
    || (Terminal(db.effects[k].status) && db.effects[k].tsMs < cutoff && !Pinned(db.obligations, k))
  }

  predicate ObligationGoes(db: Db, archived: set<Session>, policy: Policy, cutoff: int, o: int)
    requires o in db.obligations
  {
    || db.obligations[o].session in archived
    || (policy.archiveTerminalObligations && db.obligations[o].status.ObCompensated? && db.obligations[o].tsMs < cutoff)
  }

  predicate TimerGoes(db: Db, archived: set<Session>, policy: Policy, cutoff: int, k: Key)
    requires k in db.timers
  {
    || k.session in archived
    || (policy.archiveFiredTimers && db.timers[k].fired && db.timers[k].createdAtMs < cutoff)
  }

  /** The tables after the pass, all conditions read in the tables before it. */
  function AfterCompaction(db: Db, archived: set<Session>, policy: Policy, cutoff: int): Db {
    db.(effects := map k | k in db.effects && !EffectGoes(db, archived, cutoff, k) :: db.effects[k],
        obligations :=
          map o | o in db.obligations && !ObligationGoes(db, archived, policy, cutoff, o) :: db.obligations[o],
        timers := map k | k in db.timers && !TimerGoes(db, archived, policy, cutoff, k) :: db.timers[k])
  }

  /** The steps run in order, but deleting settled obligations first never unpins an
      effect: what pins it before the obligation steps pins it after them. */
  lemma PinsSurvive(db: Db, archived: set<Session>, policy: Policy, cutoff: int, k: Key)
    requires forall s :: s in archived ==> Undisturbed(db, s)
    ensures Pinned(AfterCompaction(db, archived, policy, cutoff).obligations, k) <==> Pinned(db.obligations, k)
  {
    var after := AfterCompaction(db, archived, policy, cutoff).obligations;
    if Pinned(db.obligations, k) {
      var o :| o in db.obligations && db.obligations[o].session.sid == k.session.sid
               && db.obligations[o].effectKey == k.id && ActiveStatus(db.obligations[o].status);
      assert o in after && after[o] == db.obligations[o];
    }
    if Pinned(after, k) {
      var o :| o in after && after[o].session.sid == k.session.sid
               && after[o].effectKey == k.id && ActiveStatus(after[o].status);
      assert o in db.obligations && after[o] == db.obligations[o];
    }
  }

  // ---------------------------------------------------------------- deleting rows

  /** A table without the rows of some sessions. */
  function Outside<T>(m: map<Key, T>, gone: set<Session>): map<Key, T> {
    map k | k in m && k.session !in gone :: m[k]
  }

  function ObligationsOutside(m: map<int, Obligation>, gone: set<Session>): map<int, Obligation> {
    map o | o in m && m[o].session !in gone :: m[o]
  }

  lemma Delete<K, T>(m: map<K, T>, doomed: set<K>)
    requires doomed <= m.Keys
    ensures |m - doomed| + |doomed| == |m|
  {
    assert (m - doomed).Keys == m.Keys - doomed;
  }

  function SessionKeys<T>(m: map<Key, T>, s: Session): set<Key> {
    set k | k in m && k.session == s
  }

  lemma DropSession<T>(m: map<Key, T>, s: Session)
    ensures m - SessionKeys(m, s) == Outside(m, {s})
    ensures |Outside(m, {s})| + |SessionKeys(m, s)| == |m|
  {
    Delete(m, SessionKeys(m, s));
    assert m - SessionKeys(m, s) == Outside(m, {s});
  }

  function SessionObligations(m: map<int, Obligation>, s: Session): set<int> {
    set o | o in m && m[o].session == s
  }

  lemma DropObligations(m: map<int, Obligation>, s: Session)
    ensures m - SessionObligations(m, s) == ObligationsOutside(m, {s})
    ensures |ObligationsOutside(m, {s})| + |SessionObligations(m, s)| == |m|
  {
    Delete(m, SessionObligations(m, s));
    assert m - SessionObligations(m, s) == ObligationsOutside(m, {s});
  }

  /** The tables as the compactor rewrites them, statement by statement. */
  class LedgerDb {
    var effects: map<Key, Effect>
    var obligations: map<int, Obligation>
    var timers: map<Key, Timer>
    var snapshots: map<Session, Snapshot>

    constructor (db: Db)
      ensures Value() == db
    {
      effects, obligations, timers, snapshots := db.effects, db.obligations, db.timers, db.snapshots;
    }

    ghost function Value(): Db
      reads this
    {
      Db(effects, obligations, timers, snapshots)
    }

    /** The session's terminal effects up to `w`, read row by row. */
    method CollectTerminal(s: Session, w: int) returns (collected: map<string, Captured>)
      ensures collected == Collected(Value(), s, w)
    {
      collected := map[];
      var todo := effects.Keys;
      while todo != {}
        invariant todo <= effects.Keys
        invariant forall id :: id in collected <==> IsCaptured(Value(), s, w, id) && Key(s, id) !in todo
        invariant forall id :: id in collected ==> collected[id] == Wire(EffectToCaptured(effects[Key(s, id)]))
      {
        var k :| k in todo;
        todo := todo - {k};
        if k.session == s && Terminal(effects[k].status) && effects[k].tsMs <= w {
          collected := collected[k.id := Wire(EffectToCaptured(effects[k]))];
        }
      }
      SameCollection(Value(), s, w, collected);
    }

    /** Merge the session's terminal effects up to `w` into its snapshot row. */
    method TakeSnapshot(s: Session, w: int, now: int) returns (captured: nat, mergedTotal: nat)
      modifies this`snapshots
      ensures Value() == AfterSnapshot(old(Value()), s, w, now)
      ensures s in snapshots && snapshots[s].upToTsMs >= w && snapshots[s].updatedAtMs == now
      ensures s in old(snapshots) ==>
                && snapshots[s].upToTsMs >= old(snapshots)[s].upToTsMs
                && snapshots[s].createdAtMs == old(snapshots)[s].createdAtMs
      ensures s in old(snapshots) ==> snapshots[s].upToTsMs == w || snapshots[s].upToTsMs == old(snapshots)[s].upToTsMs
      ensures s !in old(snapshots) ==> snapshots[s].upToTsMs == w && snapshots[s].createdAtMs == now
      ensures captured == |Collected(old(Value()), s, w)|
      ensures mergedTotal == |Entries(Value(), s)|
    {
      var collected := CollectTerminal(s, w);
      captured := |collected|;
      var existing := if s in snapshots then snapshots[s].entries else map[];
      var merged := existing + collected;
      if s !in snapshots {
        snapshots := snapshots[s := Snapshot(merged, w, |merged|, now, now)];
      } else {
        var newWatermark := w;
        if snapshots[s].upToTsMs > newWatermark {
          newWatermark := snapshots[s].upToTsMs;
        }
        snapshots := snapshots[s := Snapshot(merged, newWatermark, |merged|, snapshots[s].createdAtMs, now)];
      }
      mergedTotal := |merged|;
    }

    /** The candidate query: sessions whose latest effect is old, up to the limit. */
    method FindCandidates(cutoff: int, limit: nat) returns (candidates: set<Session>)
      ensures Candidates(Value(), candidates, cutoff, limit)
    {
      var sessions := set k | k in effects :: k.session;
      var todo := set s | s in sessions && forall k :: k in effects && k.session == s ==> effects[k].tsMs < cutoff;
      candidates := {};
      while todo != {} && |candidates| < limit
        invariant candidates !! todo && |candidates| <= limit
        invariant forall s :: s in candidates || s in todo <==> s in Sessions(Value()) && AllOld(Value(), s, cutoff)
        decreases todo
      {
        var c :| c in todo;
        todo := todo - {c};
        candidates := candidates + {c};
      }
    }

    /** The candidates with no unsettled obligation and no unfired timer. */
    method FindArchivableSessions(cutoff: int, limit: nat) returns (out: set<Session>)
      ensures Archivable(Value(), out, cutoff, limit)
    {
      var candidates := FindCandidates(cutoff, limit);
      out := {};
      var rest := candidates;
      while rest != {}
        invariant rest <= candidates
        invariant forall s :: s in out <==> s in candidates && s !in rest && Undisturbed(Value(), s)
      {
        var c :| c in rest;
        rest := rest - {c};
        var busy := exists o ::
          o in obligations && obligations[o].session == c && !obligations[o].status.ObCompensated?;
        var live := exists k :: k in timers && k.session == c && !timers[k].fired;
        assert Undisturbed(Value(), c) <==> !busy && !live;
        if !busy && !live {
          out := out + {c};
        }
      }
      assert Filtered(Value(), candidates, out);
    }

    /** Wipe one session's rows from the three tables. */
    method ArchiveSession(s: Session, r: Result) returns (r': Result)
      modifies this`effects, this`obligations, this`timers
      ensures effects == Outside(old(effects), {s}) && timers == Outside(old(timers), {s})
      ensures obligations == ObligationsOutside(old(obligations), {s})
      ensures r'.effectsPruned + |effects| == r.effectsPruned + old(|effects|)
      ensures r'.obligationsPruned + |obligations| == r.obligationsPruned + old(|obligations|)
      ensures r'.timersPruned + |timers| == r.timersPruned + old(|timers|)
      ensures r'.sessionsArchived == r.sessionsArchived + 1
    {
      var es, os, ts := SessionKeys(effects, s), SessionObligations(obligations, s), SessionKeys(timers, s);
      DropSession(effects, s);
      DropObligations(obligations, s);
      DropSession(timers, s);
      effects := effects - es;
      obligations := obligations - os;
      timers := timers - ts;
      r' := Result(r.effectsPruned + |es|, r.obligationsPruned + |os|, r.timersPruned + |ts|, r.sessionsArchived + 1);
    }

    /** Wipe the rows of all archivable sessions. */
    method ArchiveSessions(archivable: set<Session>) returns (r: Result)
      modifies this`effects, this`obligations, this`timers
      ensures effects == Outside(old(effects), archivable) && timers == Outside(old(timers), archivable)
      ensures obligations == ObligationsOutside(old(obligations), archivable)
      ensures r.effectsPruned + |effects| == old(|effects|)
      ensures r.obligationsPruned + |obligations| == old(|obligations|)
      ensures r.timersPruned + |timers| == old(|timers|)
      ensures r.sessionsArchived == |archivable|
    {
      r := Result(0, 0, 0, 0);
      var rest := archivable;
      ghost var done: set<Session> := {};
      while rest != {}
        invariant done + rest == archivable && done !! rest
        invariant effects == Outside(old(effects), done) && timers == Outside(old(timers), done)
        invariant obligations == ObligationsOutside(old(obligations), done)
        invariant r.effectsPruned + |effects| == old(|effects|)
        invariant r.obligationsPruned + |obligations| == old(|obligations|)
        invariant r.timersPruned + |timers| == old(|timers|)
        invariant r.sessionsArchived == |done|
        decreases rest
      {
        var s :| s in rest;
        OutsideTwice(old(effects), done, s);
        OutsideTwice(old(timers), done, s);
        ObligationsOutsideTwice(old(obligations), done, s);
        r := ArchiveSession(s, r);
        rest := rest - {s};
        done := done + {s};
      }
      assert done == archivable;
    }

    /** Compensated obligations past the cutoff; stuck ones are kept. */
    method PruneObligations(policy: Policy, cutoff: int) returns (n: nat)
      modifies this`obligations
      ensures obligations == SettledRemoved(old(obligations), policy, cutoff)
      ensures n + |obligations| == old(|obligations|)
    {
      n := 0;
      if policy.archiveTerminalObligations {
        var doomed := set o | o in obligations && obligations[o].status.ObCompensated? && obligations[o].tsMs < cutoff;
        Delete(obligations, doomed);
        obligations := obligations - doomed;
        n := |doomed|;
      }
      assert obligations == SettledRemoved(old(obligations), policy, cutoff);
    }

    method PruneTimers(policy: Policy, cutoff: int) returns (n: nat)
      modifies this`timers
      ensures timers == FiredRemoved(old(timers), policy, cutoff)
      ensures n + |timers| == old(|timers|)
    {
      n := 0;
      if policy.archiveFiredTimers {
        var doomed := set k | k in timers && timers[k].fired && timers[k].createdAtMs < cutoff;
        Delete(timers, doomed);
        timers := timers - doomed;
        n := |doomed|;
      }
      assert timers == FiredRemoved(old(timers), policy, cutoff);
    }

    /** Terminal effects past the cutoff that no active obligation pins. */
    method PruneEffects(cutoff: int) returns (n: nat)
      modifies this`effects
      ensures effects == UnpinnedRemoved(old(effects), obligations, cutoff)
      ensures n + |effects| == old(|effects|)
    {
      var doomed := set k |
        k in effects && Terminal(effects[k].status) && effects[k].tsMs < cutoff && !Pinned(obligations, k);
      Delete(effects, doomed);
      effects := effects - doomed;
      n := |doomed|;
      assert effects == UnpinnedRemoved(old(effects), obligations, cutoff);
    }

    /** The three row-level statements. */
    method PruneRows(policy: Policy, cutoff: int, r: Result) returns (r': Result)
      modifies this`effects, this`obligations, this`timers
      ensures obligations == SettledRemoved(old(obligations), policy, cutoff)
      ensures timers == FiredRemoved(old(timers), policy, cutoff)
      ensures effects == UnpinnedRemoved(old(effects), obligations, cutoff)
      ensures r'.effectsPruned + |effects| == r.effectsPruned + old(|effects|)
      ensures r'.obligationsPruned + |obligations| == r.obligationsPruned + old(|obligations|)
      ensures r'.timersPruned + |timers| == r.timersPruned + old(|timers|)
      ensures r'.sessionsArchived == r.sessionsArchived
    {
      var nOb := PruneObligations(policy, cutoff);
      var nTimers := PruneTimers(policy, cutoff);
      var nEffects := PruneEffects(cutoff);
      r' := Result(r.effectsPruned + nEffects, r.obligationsPruned + nOb, r.timersPruned + nTimers, r.sessionsArchived);
    }

    /** The deletions of one pass, in their order. */
    method DeleteRows(archived: set<Session>, policy: Policy, cutoff: int) returns (r: Result)
      modifies this`effects, this`obligations, this`timers
      ensures obligations == SettledRemoved(ObligationsOutside(old(obligations), archived), policy, cutoff)
      ensures timers == FiredRemoved(Outside(old(timers), archived), policy, cutoff)
      ensures effects == UnpinnedRemoved(Outside(old(effects), archived), obligations, cutoff)
      ensures r.effectsPruned + |effects| == old(|effects|)
      ensures r.obligationsPruned + |obligations| == old(|obligations|)
      ensures r.timersPruned + |timers| == old(|timers|)
      ensures r.sessionsArchived == |archived|
    {
      r := ArchiveSessions(archived);
      r := PruneRows(policy, cutoff, r);
    }

    /** One pass: archive whole sessions, then prune obligations, timers and effects, each
        statement reading what the ones before it left.  The counters are the rows and
        sessions removed.  The clauses on the tables are those of `PassDone`. */
    method CompactOnce(policy: Policy, now: int) returns (r: Result, archived: set<Session>)
      modifies this`effects, this`obligations, this`timers
      ensures Archivable(old(Value()), archived, now - policy.sessionTtlMs, Limit(policy))
      ensures obligations
           == SettledRemoved(ObligationsOutside(old(obligations), archived), policy, now - policy.effectTtlMs)
      ensures timers == FiredRemoved(Outside(old(timers), archived), policy, now - policy.effectTtlMs)
      ensures effects == UnpinnedRemoved(Outside(old(effects), archived), obligations, now - policy.effectTtlMs)
      ensures r.effectsPruned + |effects| == old(|effects|)
      ensures r.obligationsPruned + |obligations| == old(|obligations|)
      ensures r.timersPruned + |timers| == old(|timers|)
      ensures r.sessionsArchived == |archived|
    {
      archived := FindArchivableSessions(now - policy.sessionTtlMs, Limit(policy));
      r := DeleteRows(archived, policy, now - policy.effectTtlMs);
    }
  }

  lemma ArchivedAreUndisturbed(db: Db, archived: set<Session>, cutoff: int, limit: nat)
    requires Archivable(db, archived, cutoff, limit)
    ensures forall s :: s in archived ==> Undisturbed(db, s) && AllOld(db, s, cutoff)
  {
    var candidates :| Candidates(db, candidates, cutoff, limit) && Filtered(db, candidates, archived);
  }

  function Limit(policy: Policy): nat {
    if policy.maxPerTick <= 0 then 1000 else policy.maxPerTick
  }

  function SettledRemoved(m: map<int, Obligation>, policy: Policy, cutoff: int): map<int, Obligation> {
    map o | o in m && !(policy.archiveTerminalObligations && m[o].status.ObCompensated? && m[o].tsMs < cutoff) :: m[o]
  }

  function FiredRemoved(m: map<Key, Timer>, policy: Policy, cutoff: int): map<Key, Timer> {
    map k | k in m && !(policy.archiveFiredTimers && m[k].fired && m[k].createdAtMs < cutoff) :: m[k]
  }

  function UnpinnedRemoved(m: map<Key, Effect>, obligations: map<int, Obligation>, cutoff: int): map<Key, Effect> {
    map k | k in m && !(Terminal(m[k].status) && m[k].tsMs < cutoff && !Pinned(obligations, k)) :: m[k]
  }

  lemma ObligationsCompose(db: Db, archived: set<Session>, policy: Policy, cutoff: int)
    ensures SettledRemoved(ObligationsOutside(db.obligations, archived), policy, cutoff)
         == AfterCompaction(db, archived, policy, cutoff).obligations
  {
  }

  lemma TimersCompose(db: Db, archived: set<Session>, policy: Policy, cutoff: int)
    ensures FiredRemoved(Outside(db.timers, archived), policy, cutoff)
         == AfterCompaction(db, archived, policy, cutoff).timers
  {
  }

  /** The last statement reads the obligations that the earlier ones left; the pins are the same. */
  lemma EffectsCompose(
    db: Db, archived: set<Session>, policy: Policy, cutoff: int, obligations: map<int, Obligation>)
    requires forall s :: s in archived ==> Undisturbed(db, s)
    requires obligations == AfterCompaction(db, archived, policy, cutoff).obligations
    ensures UnpinnedRemoved(Outside(db.effects, archived), obligations, cutoff)
         == AfterCompaction(db, archived, policy, cutoff).effects
  {
    forall k ensures Pinned(obligations, k) <==> Pinned(db.obligations, k) {
      PinsSurvive(db, archived, policy, cutoff, k);
    }
    SamePins(db, archived, policy, cutoff, obligations);
  }

  lemma SamePins(db: Db, archived: set<Session>, policy: Policy, cutoff: int, obligations: map<int, Obligation>)
    requires forall k :: Pinned(obligations, k) <==> Pinned(db.obligations, k)
    ensures UnpinnedRemoved(Outside(db.effects, archived), obligations, cutoff)
         == AfterCompaction(db, archived, policy, cutoff).effects
  {
  }

  /** `after` is what a pass of `CompactOnce` at `now` makes of `before`. */
  ghost predicate PassDone(before: Db, after: Db, archived: set<Session>, policy: Policy, now: int) {
    var cutoff := now - policy.effectTtlMs;
    && Archivable(before, archived, now - policy.sessionTtlMs, Limit(policy))
    && after.snapshots == before.snapshots
    && after.obligations == SettledRemoved(ObligationsOutside(before.obligations, archived), policy, cutoff)
    && after.timers == FiredRemoved(Outside(before.timers, archived), policy, cutoff)
    && after.effects == UnpinnedRemoved(Outside(before.effects, archived), after.obligations, cutoff)
  }

  /** A pass deletes, at once, what its conditions select in the tables before it. */
  lemma PassIsOneDeletion(before: Db, after: Db, archived: set<Session>, policy: Policy, now: int)
    requires PassDone(before, after, archived, policy, now)
    ensures var all := AfterCompaction(before, archived, policy, now - policy.effectTtlMs);
            && after.effects == all.effects && after.obligations == all.obligations
            && after.timers == all.timers && after.snapshots == all.snapshots
  {
    TimersOfPass(before, after, archived, policy, now);
    EffectsOfPass(before, after, archived, policy, now);
  }

  lemma ObligationsOfPass(before: Db, after: Db, archived: set<Session>, policy: Policy, now: int)
    requires PassDone(before, after, archived, policy, now)
    ensures after.obligations == AfterCompaction(before, archived, policy, now - policy.effectTtlMs).obligations
    ensures forall s :: s in archived ==> Undisturbed(before, s)
  {
    ArchivedAreUndisturbed(before, archived, now - policy.sessionTtlMs, Limit(policy));
    ObligationsCompose(before, archived, policy, now - policy.effectTtlMs);
  }

  lemma TimersOfPass(before: Db, after: Db, archived: set<Session>, policy: Policy, now: int)
    requires PassDone(before, after, archived, policy, now)
    ensures var all := AfterCompaction(before, archived, policy, now - policy.effectTtlMs);
            after.timers == all.timers && after.snapshots == all.snapshots
  {
    TimersCompose(before, archived, policy, now - policy.effectTtlMs);
  }

  lemma EffectsOfPass(before: Db, after: Db, archived: set<Session>, policy: Policy, now: int)
    requires PassDone(before, after, archived, policy, now)
    ensures var all := AfterCompaction(before, archived, policy, now - policy.effectTtlMs);
            after.effects == all.effects && after.obligations == all.obligations
  {
    ObligationsOfPass(before, after, archived, policy, now);
    EffectsCompose(before, archived, policy, now - policy.effectTtlMs, after.obligations);
  }

  // ---------------------------------------------------------------- what survives

  /** In plain terms: a pin is an obligation of the session id and key that is neither
      compensated nor stuck. */
  lemma PinnedIff(obligations: map<int, Obligation>, k: Key)
    ensures Pinned(obligations, k) <==>
            exists o :: o in obligations && obligations[o].session.sid == k.session.sid
                        && obligations[o].effectKey == k.id
                        && obligations[o].status != ObCompensated && obligations[o].status != ObStuck
  {
    if o :| o in obligations && obligations[o].session.sid == k.session.sid && obligations[o].effectKey == k.id
            && obligations[o].status != ObCompensated && obligations[o].status != ObStuck {
      assert ActiveStatus(obligations[o].status);
    }
  }

  /** Everything that still needs someone's attention survives any pass: obligations that are
      not compensated, timers that have not fired, and effects that an obligation of their
      session and key, neither compensated nor stuck, may still have to undo. */
  lemma UnsettledWorkSurvives(db: Db, after: Db, archived: set<Session>, policy: Policy, now: int)
    requires PassDone(db, after, archived, policy, now)
    ensures forall o :: o in db.obligations && db.obligations[o].status != ObCompensated ==>
              o in after.obligations && after.obligations[o] == db.obligations[o]
    ensures forall k :: k in db.timers && !db.timers[k].fired ==> k in after.timers && after.timers[k] == db.timers[k]
    ensures forall k, o ::
              && k in db.effects && o in db.obligations
              && db.obligations[o].status != ObCompensated && db.obligations[o].status != ObStuck
              && db.obligations[o].session == k.session && db.obligations[o].effectKey == k.id
              ==> k in after.effects && after.effects[k] == db.effects[k]
  {
    PassIsOneDeletion(db, after, archived, policy, now);
    ArchivedAreUndisturbed(db, archived, now - policy.sessionTtlMs, Limit(policy));
    forall k, o | k in db.effects && o in db.obligations
                  && db.obligations[o].status != ObCompensated && db.obligations[o].status != ObStuck
                  && db.obligations[o].session == k.session && db.obligations[o].effectKey == k.id
      ensures k in after.effects && after.effects[k] == db.effects[k]
    {
      PinnedIff(db.obligations, k);
      assert Pinned(db.obligations, k);
      assert !EffectGoes(db, archived, now - policy.effectTtlMs, k);
    }
  }

  /** Nobody may still have to undo the effect. */
  predicate Unneeded(obligations: map<int, Obligation>, k: Key) {
    forall o :: o in obligations && obligations[o].session.sid == k.session.sid && obligations[o].effectKey == k.id ==>
      obligations[o].status == ObCompensated || obligations[o].status == ObStuck
  }

  /** An effect vanishes in a pass exactly if its whole session is archived, or it is CONFIRMED
      or FAILED, past the cutoff, and every obligation of its session id and key is compensated
      or stuck.  So a PENDING or UNKNOWN effect vanishes only with its session, which is then
      old and undisturbed, whatever its effects' statuses. */
  lemma EffectVanishesIff(db: Db, after: Db, archived: set<Session>, policy: Policy, now: int, k: Key)
    requires PassDone(db, after, archived, policy, now) && k in db.effects
    ensures k !in after.effects <==>
            || k.session in archived
            || ((db.effects[k].status == Confirmed || db.effects[k].status == Failed)
                && db.effects[k].tsMs < now - policy.effectTtlMs && Unneeded(db.obligations, k))
    ensures k in after.effects ==> after.effects[k] == db.effects[k]
  {
    PassIsOneDeletion(db, after, archived, policy, now);
    PinnedIff(db.obligations, k);
  }

  /** An archived session has only effects past the session cutoff, only compensated
      obligations and only fired timers. */
  lemma ArchivedSessionIsQuiet(db: Db, after: Db, archived: set<Session>, policy: Policy, now: int, s: Session)
    requires PassDone(db, after, archived, policy, now) && s in archived
    ensures forall k :: k in db.effects && k.session == s ==> db.effects[k].tsMs < now - policy.sessionTtlMs
    ensures forall o ::
              o in db.obligations && db.obligations[o].session == s ==> db.obligations[o].status == ObCompensated
    ensures forall k :: k in db.timers && k.session == s ==> db.timers[k].fired
    ensures forall k :: k in after.effects || k in after.timers ==> k.session != s
  {
    PassIsOneDeletion(db, after, archived, policy, now);
    ArchivedAreUndisturbed(db, archived, now - policy.sessionTtlMs, Limit(policy));
  }

  /** The sessions with effects, all of them past the cutoff. */
  ghost function OldSessions(db: Db, cutoff: int): set<Session> {
    set s | s in Sessions(db) && AllOld(db, s, cutoff)
  }

  lemma {:induction false} SubsetOfSameSize(a: set<Session>, b: set<Session>)
    requires a <= b && |b| <= |a|
    ensures a == b
  {
    if x :| x in b && x !in a {
      SubsetSize(a, b - {x});
    }
  }

  lemma {:induction false} SubsetSize(a: set<Session>, b: set<Session>)
    requires a <= b
    ensures |a| <= |b|
  {
    if a != {} {
      var x :| x in a;
      SubsetSize(a - {x}, b - {x});
    }
  }

  /** A pass archives at most its limit of sessions (1000 if none is set).  When no more sessions
      than that are old, it archives exactly the old ones with only compensated obligations and
      only fired timers; when more are, which of them it looks at is the store's choice. */
  lemma QuietSessionsGo(db: Db, after: Db, archived: set<Session>, policy: Policy, now: int)
    requires PassDone(db, after, archived, policy, now)
    ensures var limit := if policy.maxPerTick <= 0 then 1000 else policy.maxPerTick;
            var stale := OldSessions(db, now - policy.sessionTtlMs);
            && |archived| <= limit && archived <= stale
            && (|stale| <= limit ==> forall s :: s in stale ==>
                  (s in archived <==>
                    && (forall o ::
                          o in db.obligations && db.obligations[o].session == s ==>
                            db.obligations[o].status == ObCompensated)
                    && (forall k :: k in db.timers && k.session == s ==> db.timers[k].fired)))
  {
    var cutoff := now - policy.sessionTtlMs;
    var stale := OldSessions(db, cutoff);
    var candidates :| Candidates(db, candidates, cutoff, Limit(policy)) && Filtered(db, candidates, archived);
    SubsetSize(archived, candidates);
    if |stale| <= Limit(policy) && |candidates| == Limit(policy) {
      SubsetOfSameSize(candidates, stale);
    }
  }

  /** An obligation or a timer vanishes exactly if its session is archived, or the policy says
      so and it is compensated, or fired, and past the effect cutoff. */
  lemma SettledRowsVanishIff(db: Db, after: Db, archived: set<Session>, policy: Policy, now: int)
    requires PassDone(db, after, archived, policy, now)
    ensures forall o :: o in db.obligations ==>
              (o !in after.obligations <==>
                 || db.obligations[o].session in archived
                 || (policy.archiveTerminalObligations && db.obligations[o].status == ObCompensated
                     && db.obligations[o].tsMs < now - policy.effectTtlMs))
    ensures forall k :: k in db.timers ==>
              (k !in after.timers <==>
                 || k.session in archived
                 || (policy.archiveFiredTimers && db.timers[k].fired
                     && db.timers[k].createdAtMs < now - policy.effectTtlMs))
  {
    PassIsOneDeletion(db, after, archived, policy, now);
  }

  // ---------------------------------------------------------------- snapshot, then prune

  /** Whether the lookup of `k` still gives the answer it gave before. */
  ghost predicate AnswersAlike(db: Db, after: Db, k: Key, fb: Fallback) {
    Lookup(after, k, fb) == Lookup(db, k, fb)
  }

  /** The entry of a terminal row after a snapshot: fresh within the watermark, else the earlier one. */
  lemma EntryAfterSnapshot(db: Db, k: Key, w: int, at: int)
    requires k in db.effects && Terminal(db.effects[k].status)
    ensures var entries := Entries(AfterSnapshot(db, k.session, w, at), k.session);
            if db.effects[k].tsMs <= w
            then k.id in entries && entries[k.id] == Wire(EffectToCaptured(db.effects[k]))
            else (k.id in entries <==> k.id in Entries(db, k.session))
                 && (k.id in entries ==> entries[k.id] == Entries(db, k.session)[k.id])
  {
    assert k == Key(k.session, k.id);
    CollectedIds(db, k.session, w, k.id);
    EntriesAdded(db, k.session, w, at);
  }

  lemma EntriesAdded(db: Db, s: Session, w: int, at: int)
    ensures Entries(AfterSnapshot(db, s, w, at), s) == Entries(db, s) + Collected(db, s, w)
  {
  }

  /** Snapshot, then prune at once: a terminal key of the session keeps its answer exactly
      when its row survives, or is recoverable and lies within the watermark, or the earlier
      snapshot already gave that answer. */
  lemma SnapshotThenPruneIff(
    db: Db, w: int, at: int, archived: set<Session>, policy: Policy, cutoff: int, k: Key, fb: Fallback)
    requires k in db.effects && Terminal(db.effects[k].status)
    ensures var snapped := AfterSnapshot(db, k.session, w, at);
            var after := AfterCompaction(snapped, archived, policy, cutoff);
            AnswersAlike(db, after, k, fb) <==>
              || k in after.effects
              || (db.effects[k].tsMs <= w && Recoverable(db.effects[k], fb))
              || (db.effects[k].tsMs > w && k.id in Entries(db, k.session)
                  && FromSnapshot(Entries(db, k.session)[k.id], fb) == db.effects[k])
  {
    var snapped := AfterSnapshot(db, k.session, w, at);
    var after := AfterCompaction(snapped, archived, policy, cutoff);
    EntryAfterSnapshot(db, k, w, at);
    EntryRecoversIff(db.effects[k], fb);
    LookupAfterCompaction(snapped, archived, policy, cutoff, k, fb);
  }

  lemma LookupAfterCompaction(db: Db, archived: set<Session>, policy: Policy, cutoff: int, k: Key, fb: Fallback)
    requires k in db.effects
    ensures var after := AfterCompaction(db, archived, policy, cutoff);
            && Entries(after, k.session) == Entries(db, k.session)
            && (k in after.effects ==> Lookup(after, k, fb) == Some(db.effects[k]))
  {
  }

  /** The operator's recipe: when the watermark reaches both cutoffs, a snapshot followed by
      a pass loses no terminal answer. */
  lemma SnapshotCoversPrune(
    db: Db, w: int, at: int, after: Db, archived: set<Session>, policy: Policy, now: int, k: Key, fb: Fallback)
    requires k in db.effects && Terminal(db.effects[k].status) && Recoverable(db.effects[k], fb)
    requires PassDone(AfterSnapshot(db, k.session, w, at), after, archived, policy, now)
    requires w + 1 >= now - policy.effectTtlMs && w + 1 >= now - policy.sessionTtlMs
    ensures AnswersAlike(db, after, k, fb)
  {
    var snapped := AfterSnapshot(db, k.session, w, at);
    SnapshotThenPruneIff(db, w, at, archived, policy, now - policy.effectTtlMs, k, fb);
    EffectVanishesIff(snapped, after, archived, policy, now, k);
    PassIsOneDeletion(snapped, after, archived, policy, now);
  }

  lemma OutsideTwice<T>(m: map<Key, T>, gone: set<Session>, s: Session)
    ensures Outside(Outside(m, gone), {s}) == Outside(m, gone + {s})
  {
  }

  lemma ObligationsOutsideTwice(m: map<int, Obligation>, gone: set<Session>, s: Session)
    ensures ObligationsOutside(ObligationsOutside(m, gone), {s}) == ObligationsOutside(m, gone + {s})
  {
  }

  lemma SameCollection(db: Db, s: Session, w: int, c: map<string, Captured>)
    requires forall id :: id in c ==>
               IsCaptured(db, s, w, id) && c[id] == Wire(EffectToCaptured(db.effects[Key(s, id)]))
    requires forall id :: IsCaptured(db, s, w, id) ==> id in c
    ensures c == Collected(db, s, w)
  {
    forall id ensures id in c <==> id in Collected(db, s, w) { CollectedIds(db, s, w, id); }
    forall id | id in c ensures c[id] == Collected(db, s, w)[id] { CollectedIds(db, s, w, id); }
    assert c.Keys == Collected(db, s, w).Keys;
  }
}
