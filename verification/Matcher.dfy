/** One pass of the in-server matcher as it runs: read the cursors, read a batch, and for
    each reaction dispatch its matching entries and then persist its cursors. */
module Matcher {
  import opened Patterns
  import opened MatcherModel
  import opened MatcherRuns

  /** What happens to a store write: it succeeds, the store refuses it, or the process dies before it. */
  datatype Fault = Fine | Refused | Dies

  /** The rows of other reactions are untouched. */
  ghost predicate OtherRowsSame(a: seq<TaskRow>, b: seq<TaskRow>, id: string) {
    forall t: TaskRow :: t.reaction != id ==> (t in b <==> t in a)
  }

  ghost predicate SameRows(a: seq<TaskRow>, b: seq<TaskRow>, id: string) {
    forall t: TaskRow :: t.reaction == id ==> (t in b <==> t in a)
  }

  lemma HasIn(tasks: seq<TaskRow>, id: string, s: nat, q: int)
    ensures Has(tasks, id, s, q) <==> exists t :: t in tasks && RowFor(t, id, s, q)
  {
    if i :| 0 <= i < |tasks| && RowFor(tasks[i], id, s, q) { assert tasks[i] in tasks; }
  }

  /** What is said of a reaction's tasks depends on its rows only. */
  lemma SameRowsSayTheSame(a: seq<TaskRow>, b: seq<TaskRow>, id: string)
    requires SameRows(a, b, id)
    ensures forall s: nat, q :: Has(b, id, s, q) <==> Has(a, id, s, q)
    ensures forall x, q :: Carried(b, id, x, q) <==> Carried(a, id, x, q)
    ensures forall journal :: SubjectsMatch(journal, b, id) <==> SubjectsMatch(journal, a, id)
  {
    forall s: nat, q ensures Has(b, id, s, q) <==> Has(a, id, s, q) {
      HasIn(a, id, s, q);
      HasIn(b, id, s, q);
    }
  }

  /** Only the row (id, shard, q) may have been added to the rows of the reaction. */
  ghost predicate RowAdded(a: seq<TaskRow>, b: seq<TaskRow>, id: string, shard: nat, q: int, added: bool) {
    forall s: nat, q' :: Has(b, id, s, q') <==> Has(a, id, s, q') || (added && s == shard && q' == q)
  }

  lemma HasAppend(tasks: seq<TaskRow>, t: TaskRow, id: string, s: nat, q: int)
    ensures Has(tasks + [t], id, s, q) <==> Has(tasks, id, s, q) || RowFor(t, id, s, q)
  {
    var b := tasks + [t];
    if i :| 0 <= i < |b| && RowFor(b[i], id, s, q) {
      assert i < |tasks| ==> RowFor(tasks[i], id, s, q);
    }
    if i :| 0 <= i < |tasks| && RowFor(tasks[i], id, s, q) { assert RowFor(b[i], id, s, q); }
    if RowFor(t, id, s, q) { assert RowFor(b[|tasks|], id, s, q); }
  }

  /** Handling `e` adds no other source, uncarries nothing up to it, and keeps subjects right. */
  ghost predicate Turned(id: string, e: Entry, a: seq<TaskRow>, b: seq<TaskRow>) {
    && (forall s: nat, q :: Has(b, id, s, q) && !Has(a, id, s, q) ==> q == e.globalSeq)
    && (forall x, q :: (q <= e.globalSeq || x != e.subject) && Carried(a, id, x, q) ==> Carried(b, id, x, q))
    && (forall journal :: e in journal && SubjectsMatch(journal, a, id) ==> SubjectsMatch(journal, b, id))
  }

  lemma AppendTurns(a: seq<TaskRow>, t: TaskRow, e: Entry)
    requires t.sourceSeq == e.globalSeq && t.subject == e.subject
    ensures Turned(t.reaction, e, a, a + [t])
  {
    var b := a + [t];
    assert forall u :: u in b <==> u in a || u == t;
    forall s: nat, q | Has(b, t.reaction, s, q) && !Has(a, t.reaction, s, q) ensures q == e.globalSeq {
      HasAppend(a, t, t.reaction, s, q);
    }
  }

  function Folded(t: TaskRow, q: int, payload: string): TaskRow {
    t.(sourceSeq := q, payload := payload)
  }

  lemma FoldedRows(a: seq<TaskRow>, i: nat, t: TaskRow, u: TaskRow)
    requires i < |a|
    ensures u in a[i := t] ==> u in a || u == t
    ensures u in a ==> u in a[i := t] || u == a[i]
    ensures t in a[i := t]
  {
    var b := a[i := t];
    assert b[i] == t;
    if u in b {
      var j :| 0 <= j < |b| && b[j] == u;
      assert j != i ==> a[j] == u;
    }
    if u in a {
      var j :| 0 <= j < |a| && a[j] == u;
      assert j != i ==> b[j] == u;
    }
  }

  lemma FoldTurns(a: seq<TaskRow>, i: nat, e: Entry)
    requires i < |a| && a[i].subject == e.subject
    ensures Turned(a[i].reaction, e, a, a[i := Folded(a[i], e.globalSeq, e.payload)])
    ensures OtherRowsSame(a, a[i := Folded(a[i], e.globalSeq, e.payload)], a[i].reaction)
  {
    var id, t := a[i].reaction, Folded(a[i], e.globalSeq, e.payload);
    var b := a[i := t];
    forall u
      ensures (u in b ==> u in a || u == t) && (u in a ==> u in b || u == a[i]) && t in b
    {
      FoldedRows(a, i, t, u);
    }
    forall s: nat, q | Has(b, id, s, q) && !Has(a, id, s, q) ensures q == e.globalSeq {
      HasIn(a, id, s, q);
      HasIn(b, id, s, q);
    }
  }

  /** Two rows with one key in turn stand for the same entry, hence have its subject. */
  lemma SourceHasSubject(journal: seq<Entry>, tasks: seq<TaskRow>, id: string, s: nat, e: Entry)
    requires Ordered(journal) && e in journal && SubjectsMatch(journal, tasks, id) && Has(tasks, id, s, e.globalSeq)
    ensures Carried(tasks, id, e.subject, e.globalSeq)
  {
    HasIn(tasks, id, s, e.globalSeq);
    var t :| t in tasks && RowFor(t, id, s, e.globalSeq);
    assert HasSource(journal, t);
    var e' :| e' in journal && e'.globalSeq == t.sourceSeq && e'.subject == t.subject;
    var i :| 0 <= i < |journal| && journal[i] == e;
    var j :| 0 <= j < |journal| && journal[j] == e';
    assert i == j;
  }

  /** Another row has the dedup key that row `i` would get with source `q`. */
  predicate TakenByOther(tasks: seq<TaskRow>, i: nat, q: int)
    requires i < |tasks|
  {
    exists j :: 0 <= j < |tasks| && j != i && RowFor(tasks[j], tasks[i].reaction, tasks[i].shard, q)
  }

  /** The newest PENDING task of the reaction with the subject. */
  predicate LatestPending(tasks: seq<TaskRow>, id: string, subject: string, i: nat) {
    && i < |tasks| && tasks[i].reaction == id && tasks[i].subject == subject && tasks[i].status.Pending?
    && forall j ::
         && 0 <= j < |tasks| && tasks[j].reaction == id && tasks[j].subject == subject
         && tasks[j].status.Pending? ==>
         tasks[j].createdAtMs <= tasks[i].createdAtMs
  }

  // ---------------------------------------------------------------- what handling a prefix of the batch achieves

  /** After the entries `es`, with cursors `cs` read at the start, the tasks of the reaction
      have grown from `a` to `b` by due ones only, and every due one exists or was refused. */
  ghost predicate Covered(
    cel: (string, Entry) -> CelResult, r: Reaction, cs: seq<int>, es: seq<Entry>, a: seq<TaskRow>, b: seq<TaskRow>,
    lost: set<Lost>)
    requires |cs| == Shards(r)
  {
    && (forall s: nat, q :: Has(a, r.id, s, q) ==> Has(b, r.id, s, q))
    && (forall s: nat, q :: Has(b, r.id, s, q) && !Has(a, r.id, s, q) ==> s < Shards(r) && Due(cel, r, es, cs[s], s, q))
    && (forall s: nat :: s < Shards(r) ==> AllMade(cel, r, es, cs[s], s, b, lost))
  }

  lemma DueExtend(cel: (string, Entry) -> CelResult, r: Reaction, es: seq<Entry>, e: Entry, c: int, s: nat, q: int)
    ensures Due(cel, r, es + [e], c, s, q) <==>
            Due(cel, r, es, c, s, q) || (e.globalSeq == q && ShardOf(r, e) == s && q > c && Hit(cel, r, e))
  {
    var all := es + [e];
    if j :| 0 <= j < |all| && all[j].globalSeq == q && ShardOf(r, all[j]) == s && q > c && Hit(cel, r, all[j]) {
      assert j < |es| ==> es[j] == all[j];
    }
    if j :| 0 <= j < |es| && es[j].globalSeq == q && ShardOf(r, es[j]) == s && q > c && Hit(cel, r, es[j]) {
      assert all[j] == es[j];
    }
    assert all[|es|] == e;
  }

  /** An entry no task is due for changes nothing. */
  lemma CoveredSkip(
    cel: (string, Entry) -> CelResult, r: Reaction, cs: seq<int>, es: seq<Entry>, e: Entry,
    a: seq<TaskRow>, b: seq<TaskRow>, lost: set<Lost>)
    requires |cs| == Shards(r) && Covered(cel, r, cs, es, a, b, lost)
    requires e.globalSeq <= cs[ShardOf(r, e)] || !Hit(cel, r, e)
    ensures Covered(cel, r, cs, es + [e], a, b, lost)
  {
    forall s: nat, q | s < Shards(r) ensures Due(cel, r, es + [e], cs[s], s, q) <==> Due(cel, r, es, cs[s], s, q) {
      DueExtend(cel, r, es, e, cs[s], s, q);
    }
  }

  /** A dispatched entry has its task, or the store refused it. */
  lemma CoveredDispatch(
    cel: (string, Entry) -> CelResult, r: Reaction, cs: seq<int>, es: seq<Entry>, e: Entry,
    a: seq<TaskRow>, b: seq<TaskRow>, b': seq<TaskRow>, lost: set<Lost>, refused: bool)
    requires |cs| == Shards(r) && Covered(cel, r, cs, es, a, b, lost)
    requires e.globalSeq > cs[ShardOf(r, e)] && Hit(cel, r, e)
    requires RowAdded(b, b', r.id, ShardOf(r, e), e.globalSeq, !refused)
    ensures Covered(cel, r, cs, es + [e], a, b',
                    if refused then lost + {Lost(r.id, ShardOf(r, e), e.globalSeq)} else lost)
  {
    forall s: nat, q | s < Shards(r)
      ensures Due(cel, r, es + [e], cs[s], s, q) <==>
              Due(cel, r, es, cs[s], s, q) || (e.globalSeq == q && ShardOf(r, e) == s)
    {
      DueExtend(cel, r, es, e, cs[s], s, q);
    }
  }

  lemma CoveredNothing(cel: (string, Entry) -> CelResult, r: Reaction, cs: seq<int>, a: seq<TaskRow>)
    requires |cs| == Shards(r)
    ensures Covered(cel, r, cs, [], a, a, {})
  {
  }

  /** The cursors of a reaction's shards, in order. */
  ghost predicate Read(r: Reaction, cs: seq<int>, cursors: Cursors) {
    |cs| == Shards(r) && forall s: nat :: s < Shards(r) ==> cs[s] == CursorAt(cursors, r, s)
  }

  /** Every running cursor is where the entries so far put it. */
  ghost predicate Moved(r: Reaction, cs: seq<int>, nc: seq<int>, es: seq<Entry>)
    requires |cs| == |nc|
  {
    forall s: nat :: s < |cs| ==> nc[s] == Advance(r, s, cs[s], es)
  }

  lemma MovedStep(r: Reaction, cs: seq<int>, nc: seq<int>, es: seq<Entry>, e: Entry)
    requires |cs| == |nc| == Shards(r) && Moved(r, cs, nc, es)
    ensures var s := ShardOf(r, e); Moved(r, cs, if e.globalSeq <= nc[s] then nc else nc[s := e.globalSeq], es + [e])
  {
    assert (es + [e])[..|es|] == es;
  }

  /** What is due in a prefix of the batch is due in the batch. */
  lemma CoveredGrows(
    cel: (string, Entry) -> CelResult, r: Reaction, cs: seq<int>, part: seq<Entry>, es: seq<Entry>,
    a: Store, b: Store, lost: set<Lost>)
    requires |cs| == Shards(r) && forall s: nat :: s < Shards(r) ==> cs[s] == CursorAt(a.cursors, r, s)
    requires Covered(cel, r, cs, part, a.tasks, b.tasks, lost) && part <= es && Ordered(es)
    ensures TasksGrow(cel, r, es, a, b)
  {
    forall s: nat, q | Has(b.tasks, r.id, s, q) && !Has(a.tasks, r.id, s, q)
      ensures s < Shards(r) && Due(cel, r, es, CursorAt(a.cursors, r, s), s, q)
    {
      DueGrows(cel, r, part, es, cs[s], s, q);
    }
  }

  /** In an ordered batch an entry is behind its shard's running cursor only if it was behind
      the cursor read at the start. */
  lemma SkippedWasBehind(r: Reaction, c: int, es: seq<Entry>, i: nat)
    requires Ordered(es) && i < |es| && es[i].globalSeq <= Advance(r, ShardOf(r, es[i]), c, es[..i])
    ensures es[i].globalSeq <= c
  {
    AdvanceBounds(r, ShardOf(r, es[i]), c, es[..i]);
  }

  // ---------------------------------------------------------------- the same with debouncing

  /** After the entries `es`: what `Folds` asks for, `cs` being the cursors at the start. */
  ghost predicate FoldedTo(
    cel: (string, Entry) -> CelResult, r: Reaction, cs: seq<int>, es: seq<Entry>, journal: seq<Entry>,
    a: seq<TaskRow>, b: seq<TaskRow>, lost: set<Lost>)
    requires |cs| == Shards(r)
  {
    && FromBatch(r.id, es, a, b)
    && (SubjectsMatch(journal, a, r.id) ==>
          && SubjectsMatch(journal, b, r.id)
          && (MakesTasks(r) ==>
                forall x, s: nat :: s < Shards(r) && OneShard(r, journal, x, s) ==>
                  SubjectFolded(cel, r, x, s, cs[s], es, a, b, lost)))
  }

  ghost predicate SubjectFolded(
    cel: (string, Entry) -> CelResult, r: Reaction, x: string, s: nat, c: int, es: seq<Entry>,
    a: seq<TaskRow>, b: seq<TaskRow>, lost: set<Lost>)
  {
    StaysCarried(r.id, x, c, a, b) && NewlyCarried(cel, r, x, s, c, es, b, lost)
  }

  lemma InSeqsSnoc(es: seq<Entry>, e: Entry, q: int)
    ensures InSeqs(es + [e], q) <==> InSeqs(es, q) || q == e.globalSeq
  {
    var all := es + [e];
    assert all[|es|] == e;
    if j :| 0 <= j < |es| && es[j].globalSeq == q { assert all[j].globalSeq == q; }
    if j :| 0 <= j < |all| && all[j].globalSeq == q { assert j < |es| ==> es[j].globalSeq == q; }
  }

  lemma FoldedSkip(
    cel: (string, Entry) -> CelResult, r: Reaction, cs: seq<int>, es: seq<Entry>, e: Entry, journal: seq<Entry>,
    a: seq<TaskRow>, b: seq<TaskRow>, lost: set<Lost>)
    requires |cs| == Shards(r) && FoldedTo(cel, r, cs, es, journal, a, b, lost) && e in journal
    requires e.globalSeq <= cs[ShardOf(r, e)] || !Hit(cel, r, e)
    ensures FoldedTo(cel, r, cs, es + [e], journal, a, b, lost)
  {
    forall q | InSeqs(es, q) ensures InSeqs(es + [e], q) { InSeqsSnoc(es, e, q); }
    if SubjectsMatch(journal, a, r.id) && MakesTasks(r) {
      forall x, s: nat | s < Shards(r) && OneShard(r, journal, x, s)
        ensures SubjectFolded(cel, r, x, s, cs[s], es + [e], a, b, lost)
      {
        assert SubjectFolded(cel, r, x, s, cs[s], es, a, b, lost);
      }
    }
  }

  lemma SubjectDispatch(
    cel: (string, Entry) -> CelResult, r: Reaction, x: string, s: nat, c: int, es: seq<Entry>, e: Entry,
    a: seq<TaskRow>, b: seq<TaskRow>, b': seq<TaskRow>, lost: set<Lost>, lost': set<Lost>)
    requires SubjectFolded(cel, r, x, s, c, es, a, b, lost) && Turned(r.id, e, b, b') && lost <= lost'
    requires forall f :: f in es ==> f.globalSeq < e.globalSeq
    requires e.subject == x ==>
               && c < e.globalSeq
               && (Carried(b', r.id, x, e.globalSeq) || Lost(r.id, s, e.globalSeq) in lost')
    ensures SubjectFolded(cel, r, x, s, c, es + [e], a, b', lost')
  {
  }

  lemma FoldedDispatch(
    cel: (string, Entry) -> CelResult, r: Reaction, cs: seq<int>, es: seq<Entry>, e: Entry, journal: seq<Entry>,
    a: seq<TaskRow>, b: seq<TaskRow>, b': seq<TaskRow>, lost: set<Lost>, refused: bool)
    requires |cs| == Shards(r) && FoldedTo(cel, r, cs, es, journal, a, b, lost)
    requires Turned(r.id, e, b, b') && e in journal && cs[ShardOf(r, e)] < e.globalSeq
    requires forall x :: x in es ==> x.globalSeq < e.globalSeq
    requires MakesTasks(r) && SubjectsMatch(journal, b, r.id) && !refused ==> Carried(b', r.id, e.subject, e.globalSeq)
    ensures FoldedTo(cel, r, cs, es + [e], journal, a, b',
                     if refused then lost + {Lost(r.id, ShardOf(r, e), e.globalSeq)} else lost)
  {
    var lost' := if refused then lost + {Lost(r.id, ShardOf(r, e), e.globalSeq)} else lost;
    FromBatchStep(r.id, es, e, a, b, b');
    if SubjectsMatch(journal, a, r.id) && MakesTasks(r) {
      forall x, s: nat | s < Shards(r) && OneShard(r, journal, x, s)
        ensures SubjectFolded(cel, r, x, s, cs[s], es + [e], a, b', lost')
      {
        SubjectDispatch(cel, r, x, s, cs[s], es, e, a, b, b', lost, lost');
      }
    }
  }

  lemma FromBatchStep(id: string, es: seq<Entry>, e: Entry, a: seq<TaskRow>, b: seq<TaskRow>, b': seq<TaskRow>)
    requires FromBatch(id, es, a, b) && Turned(id, e, b, b')
    ensures FromBatch(id, es + [e], a, b')
  {
    forall s: nat, q | Has(b', id, s, q) && !Has(a, id, s, q) ensures InSeqs(es + [e], q) {
      InSeqsSnoc(es, e, q);
    }
  }

  lemma FoldedNothing(
    cel: (string, Entry) -> CelResult, r: Reaction, cs: seq<int>, journal: seq<Entry>, a: seq<TaskRow>, lost: set<Lost>)
    requires |cs| == Shards(r)
    ensures FoldedTo(cel, r, cs, [], journal, a, a, lost)
  {
  }

  /** A pass that stopped after a prefix of the batch, moving no cursor, or at its end. */
  lemma FoldedIsFolds(
    cel: (string, Entry) -> CelResult, r: Reaction, cs: seq<int>, part: seq<Entry>, es: seq<Entry>, a: Store, b: Store,
    lost: set<Lost>)
    requires Read(r, cs, a.cursors) && FoldedTo(cel, r, cs, part, a.journal, a.tasks, b.tasks, lost) && part <= es
    requires part == es || SameCursors(r.id, a.cursors, b.cursors)
    ensures Folds(cel, r, es, a, b, lost)
  {
    forall q | InSeqs(part, q) ensures InSeqs(es, q) {
      var j :| 0 <= j < |part| && part[j].globalSeq == q;
      assert es[j] == part[j];
    }
    if SubjectsMatch(a.journal, a.tasks, r.id) && MakesTasks(r) {
      forall x, s: nat | s < Shards(r) && OneShard(r, a.journal, x, s)
        ensures SubjectFolds(cel, r, x, s, es, a, b, lost)
      {
        assert SubjectFolded(cel, r, x, s, cs[s], part, a.tasks, b.tasks, lost);
      }
    }
  }

  // ---------------------------------------------------------------- both together

  /** What the entries `es` of the batch have led to. */
  ghost predicate Progress(
    cel: (string, Entry) -> CelResult, r: Reaction, cs: seq<int>, es: seq<Entry>, journal: seq<Entry>,
    a: seq<TaskRow>, b: seq<TaskRow>, lost: set<Lost>)
    requires |cs| == Shards(r)
  {
    && (Plain(r) ==> Covered(cel, r, cs, es, a, b, lost))
    && FoldedTo(cel, r, cs, es, journal, a, b, lost)
  }

  lemma ProgressSkip(
    cel: (string, Entry) -> CelResult, r: Reaction, cs: seq<int>, es: seq<Entry>, e: Entry, journal: seq<Entry>,
    a: seq<TaskRow>, b: seq<TaskRow>, lost: set<Lost>)
    requires |cs| == Shards(r) && Progress(cel, r, cs, es, journal, a, b, lost)
    requires (e.globalSeq <= cs[ShardOf(r, e)] || !Hit(cel, r, e)) && e in journal
    ensures Progress(cel, r, cs, es + [e], journal, a, b, lost)
  {
    if Plain(r) { CoveredSkip(cel, r, cs, es, e, a, b, lost); }
    FoldedSkip(cel, r, cs, es, e, journal, a, b, lost);
  }

  lemma ProgressDispatch(
    cel: (string, Entry) -> CelResult, r: Reaction, cs: seq<int>, es: seq<Entry>, e: Entry, journal: seq<Entry>,
    a: seq<TaskRow>, b: seq<TaskRow>, b': seq<TaskRow>, lost: set<Lost>, refused: bool)
    requires |cs| == Shards(r) && Progress(cel, r, cs, es, journal, a, b, lost)
    requires e.globalSeq > cs[ShardOf(r, e)] && Hit(cel, r, e) && e in journal
    requires forall x :: x in es ==> x.globalSeq < e.globalSeq
    requires Plain(r) ==> RowAdded(b, b', r.id, ShardOf(r, e), e.globalSeq, !refused)
    requires Turned(r.id, e, b, b')
    requires MakesTasks(r) && SubjectsMatch(journal, b, r.id) && !refused ==> Carried(b', r.id, e.subject, e.globalSeq)
    ensures Progress(cel, r, cs, es + [e], journal, a, b',
                     if refused then lost + {Lost(r.id, ShardOf(r, e), e.globalSeq)} else lost)
  {
    if Plain(r) { CoveredDispatch(cel, r, cs, es, e, a, b, b', lost, refused); }
    FoldedDispatch(cel, r, cs, es, e, journal, a, b, b', lost, refused);
  }

  // ---------------------------------------------------------------- what a pass owes each reaction

  ghost predicate Handled(
    cel: (string, Entry) -> CelResult, r: Reaction, es: seq<Entry>, a: Store, b: Store, lost: set<Lost>)
  {
    && (Plain(r) ==> TasksGrow(cel, r, es, a, b))
    && Folds(cel, r, es, a, b, lost)
    && forall s: nat :: s < Shards(r) ==> CursorMoves(cel, r, es, a, b, s, lost)
  }

  /** Handled to the end, every cursor written. */
  ghost predicate Finished(
    cel: (string, Entry) -> CelResult, r: Reaction, es: seq<Entry>, a: Store, b: Store, lost: set<Lost>)
  {
    forall s: nat :: s < Shards(r) ==>
      && CursorAt(b.cursors, r, s) == Advance(r, s, CursorAt(a.cursors, r, s), es)
      && (Plain(r) ==> AllMade(cel, r, es, CursorAt(a.cursors, r, s), s, b.tasks, lost))
  }

  /** Tasks and cursors of the reaction are as they were. */
  ghost predicate Untouched(id: string, a: Store, b: Store) {
    && SameRows(a.tasks, b.tasks, id)
    && SameCursors(id, a.cursors, b.cursors)
    && b.journal == a.journal
  }

  ghost predicate SameCursors(id: string, a: Cursors, b: Cursors) {
    forall s: nat :: (CursorKey(id, s) in b <==> CursorKey(id, s) in a) &&
                     (CursorKey(id, s) in a ==> b[CursorKey(id, s)] == a[CursorKey(id, s)])
  }

  lemma UntouchedIsHandled(
    cel: (string, Entry) -> CelResult, r: Reaction, es: seq<Entry>, a: Store, b: Store, lost: set<Lost>)
    requires Untouched(r.id, a, b)
    ensures Handled(cel, r, es, a, b, lost)
  {
    SameRowsSayTheSame(a.tasks, b.tasks, r.id);
  }

  lemma FoldsStays(
    cel: (string, Entry) -> CelResult, r: Reaction, es: seq<Entry>, a: Store, b: Store, b': Store, lost: set<Lost>,
    lost': set<Lost>)
    requires Folds(cel, r, es, a, b, lost) && Untouched(r.id, b, b') && lost <= lost'
    ensures Folds(cel, r, es, a, b', lost')
  {
    SameRowsSayTheSame(b.tasks, b'.tasks, r.id);
    if SubjectsMatch(a.journal, a.tasks, r.id) && MakesTasks(r) {
      forall x, s: nat | s < Shards(r) && OneShard(r, a.journal, x, s)
        ensures SubjectFolds(cel, r, x, s, es, a, b', lost')
      {
        assert SubjectFolds(cel, r, x, s, es, a, b, lost);
      }
    }
  }

  lemma FoldsFromStart(
    cel: (string, Entry) -> CelResult, r: Reaction, es: seq<Entry>, a: Store, b: Store, b': Store, lost: set<Lost>,
    lost': set<Lost>)
    requires Untouched(r.id, a, b) && Folds(cel, r, es, b, b', lost) && lost <= lost'
    ensures Folds(cel, r, es, a, b', lost')
  {
    SameRowsSayTheSame(a.tasks, b.tasks, r.id);
    if SubjectsMatch(a.journal, a.tasks, r.id) && MakesTasks(r) {
      forall x, s: nat | s < Shards(r) && OneShard(r, a.journal, x, s)
        ensures SubjectFolds(cel, r, x, s, es, a, b', lost')
      {
        assert SubjectFolds(cel, r, x, s, es, b, b', lost);
      }
    }
  }

  /** Work on another reaction keeps this one handled. */
  lemma HandledStays(
    cel: (string, Entry) -> CelResult, r: Reaction, es: seq<Entry>, a: Store, b: Store, b': Store, lost: set<Lost>,
    lost': set<Lost>)
    requires Handled(cel, r, es, a, b, lost) && Untouched(r.id, b, b') && lost <= lost'
    ensures Handled(cel, r, es, a, b', lost')
  {
    SameRowsSayTheSame(b.tasks, b'.tasks, r.id);
    FoldsStays(cel, r, es, a, b, b', lost, lost');
    forall s: nat | s < Shards(r) ensures CursorMoves(cel, r, es, a, b', s, lost') {
      assert CursorMoves(cel, r, es, a, b, s, lost);
    }
  }

  /** Work on this reaction starts from what the pass found. */
  lemma HandledFromStart(
    cel: (string, Entry) -> CelResult, r: Reaction, es: seq<Entry>, a: Store, b: Store, b': Store, lost: set<Lost>,
    lost': set<Lost>)
    requires Untouched(r.id, a, b) && Handled(cel, r, es, b, b', lost) && lost <= lost'
    ensures Handled(cel, r, es, a, b', lost')
    ensures Finished(cel, r, es, b, b', lost) ==> Finished(cel, r, es, a, b', lost')
  {
    SameRowsSayTheSame(a.tasks, b.tasks, r.id);
    FoldsFromStart(cel, r, es, a, b, b', lost, lost');
    forall s: nat | s < Shards(r) ensures CursorMoves(cel, r, es, a, b', s, lost') {
      assert CursorMoves(cel, r, es, b, b', s, lost);
    }
  }

  lemma FinishedStays(
    cel: (string, Entry) -> CelResult, r: Reaction, es: seq<Entry>, a: Store, b: Store, b': Store, lost: set<Lost>)
    requires Finished(cel, r, es, a, b, lost) && Untouched(r.id, b, b')
    ensures Finished(cel, r, es, a, b', lost)
  {
    SameRowsSayTheSame(b.tasks, b'.tasks, r.id);
  }

  ghost predicate HandledUpTo(
    cel: (string, Entry) -> CelResult, reactions: seq<Reaction>, n: nat, es: seq<Entry>, a: Store, b: Store,
    lost: set<Lost>)
    requires n <= |reactions|
  {
    forall k :: 0 <= k < n ==> Handled(cel, reactions[k], es, a, b, lost)
  }

  ghost predicate FinishedUpTo(
    cel: (string, Entry) -> CelResult, reactions: seq<Reaction>, n: nat, es: seq<Entry>, a: Store, b: Store)
    requires n <= |reactions|
  {
    forall k :: 0 <= k < n ==> Finished(cel, reactions[k], es, a, b, {})
  }

  ghost predicate UntouchedFrom(reactions: seq<Reaction>, n: nat, a: Store, b: Store)
    requires n <= |reactions|
  {
    forall k :: n <= k < |reactions| ==> Untouched(reactions[k].id, a, b)
  }

  lemma ReadStays(r: Reaction, cs: seq<int>, a: Store, b: Store)
    requires Read(r, cs, a.cursors) && Untouched(r.id, a, b)
    ensures Read(r, cs, b.cursors)
  {
  }

  lemma ReactionDone(
    cel: (string, Entry) -> CelResult, reactions: seq<Reaction>, i: nat, es: seq<Entry>,
    a: Store, b: Store, b': Store, was: set<Lost>, more: set<Lost>)
    requires DistinctIds(reactions) && i < |reactions|
    requires HandledUpTo(cel, reactions, i, es, a, b, was) && UntouchedFrom(reactions, i, a, b)
    requires forall id :: id != reactions[i].id ==> Untouched(id, b, b')
    requires Handled(cel, reactions[i], es, b, b', more)
    ensures HandledUpTo(cel, reactions, i + 1, es, a, b', was + more) && UntouchedFrom(reactions, i + 1, a, b')
  {
    forall k | 0 <= k < i ensures Handled(cel, reactions[k], es, a, b', was + more) {
      HandledStays(cel, reactions[k], es, a, b, b', was, was + more);
    }
    HandledFromStart(cel, reactions[i], es, a, b, b', more, was + more);
    forall k | i < k < |reactions| ensures Untouched(reactions[k].id, a, b') {
      assert Untouched(reactions[k].id, a, b) && Untouched(reactions[k].id, b, b');
    }
  }

  lemma ReactionFinished(
    cel: (string, Entry) -> CelResult, reactions: seq<Reaction>, i: nat, es: seq<Entry>, a: Store, b: Store, b': Store)
    requires DistinctIds(reactions) && i < |reactions|
    requires FinishedUpTo(cel, reactions, i, es, a, b) && Untouched(reactions[i].id, a, b)
    requires forall id :: id != reactions[i].id ==> Untouched(id, b, b')
    requires Handled(cel, reactions[i], es, b, b', {}) && Finished(cel, reactions[i], es, b, b', {})
    ensures FinishedUpTo(cel, reactions, i + 1, es, a, b')
  {
    forall k | 0 <= k < i ensures Finished(cel, reactions[k], es, a, b', {}) {
      FinishedStays(cel, reactions[k], es, a, b, b', {});
    }
    HandledFromStart(cel, reactions[i], es, a, b, b', {}, {});
  }

  /** A pass cut short after `n` reactions is a pass. */
  lemma HandledIsPass(
    cel: (string, Entry) -> CelResult, reactions: seq<Reaction>, n: nat, es: seq<Entry>, a: Store, b: Store,
    m: int, lost: set<Lost>)
    requires n <= |reactions| && HandledUpTo(cel, reactions, n, es, a, b, lost) && UntouchedFrom(reactions, n, a, b)
    requires es == Batch(a.journal, m) && IsMinCursor(reactions, a.cursors, m) && b.journal == a.journal
          && UniqueRows(b.tasks)
    ensures Pass(cel, reactions, a, b, m, lost)
  {
    forall r | r in reactions ensures Handled(cel, r, es, a, b, lost) {
      var k :| 0 <= k < |reactions| && reactions[k] == r;
      if k >= n { UntouchedIsHandled(cel, r, es, a, b, lost); }
    }
  }

  lemma FinishedIsClean(
    cel: (string, Entry) -> CelResult, reactions: seq<Reaction>, es: seq<Entry>, a: Store, b: Store, m: int)
    requires FinishedUpTo(cel, reactions, |reactions|, es, a, b) && es == Batch(a.journal, m)
    requires Pass(cel, reactions, a, b, m, {})
    ensures CleanPass(cel, reactions, a, b, m)
  {
    forall r | r in reactions ensures Finished(cel, r, es, a, b, {}) {
      var k :| 0 <= k < |reactions| && reactions[k] == r;
    }
  }

  // ---------------------------------------------------------------- debouncing, in terms of the rows

  /** A newest PENDING task of the reaction and the entry's subject is still in its window. */
  ghost predicate InWindow(tasks: seq<TaskRow>, r: Reaction, e: Entry, now: int) {
    r.debounceMs > 0 &&
    exists i: nat :: LatestPending(tasks, r.id, e.subject, i) && tasks[i].createdAtMs + r.debounceMs > now
  }

  /** None of the newest PENDING tasks, which may be several of one age, would get a taken key. */
  ghost predicate KeyFree(tasks: seq<TaskRow>, r: Reaction, e: Entry) {
    forall i: nat :: LatestPending(tasks, r.id, e.subject, i) ==> !TakenByOther(tasks, i, e.globalSeq)
  }

  /** A newest PENDING task of the subject has taken over the entry; nothing else has changed. */
  ghost predicate FoldedInto(a: seq<TaskRow>, b: seq<TaskRow>, r: Reaction, e: Entry) {
    exists i: nat ::
      LatestPending(a, r.id, e.subject, i) && b == a[i := a[i].(sourceSeq := e.globalSeq, payload := e.payload)]
  }

  /** The entry's own task has been added at its end, unless one with its key exists. */
  ghost predicate OwnTaskAdded(a: seq<TaskRow>, b: seq<TaskRow>, r: Reaction, e: Entry, shard: nat, now: int) {
    if Has(a, r.id, shard, e.globalSeq) then b == a
    else b == a + [TaskRow(r.id, shard, e.globalSeq, e.subject, e.payload, TaskStatus.Pending, now)]
  }

  /** In plain terms: the row that changes is PENDING, of the reaction and the subject, and no
      such row is younger; its age and key columns stay, its source and payload are the entry's. */
  lemma FoldTakesNewest(a: seq<TaskRow>, b: seq<TaskRow>, r: Reaction, e: Entry) returns (i: nat)
    requires FoldedInto(a, b, r, e)
    ensures |b| == |a| && i < |a| && (forall j :: 0 <= j < |a| && j != i ==> b[j] == a[j])
    ensures a[i].status == TaskStatus.Pending && a[i].reaction == r.id && a[i].subject == e.subject
    ensures forall t ::
              t in a && t.status == TaskStatus.Pending && t.reaction == r.id && t.subject == e.subject ==>
                t.createdAtMs <= a[i].createdAtMs
    ensures b[i] == TaskRow(r.id, a[i].shard, e.globalSeq, e.subject, e.payload, TaskStatus.Pending, a[i].createdAtMs)
  {
    i :| LatestPending(a, r.id, e.subject, i) && b == a[i := a[i].(sourceSeq := e.globalSeq, payload := e.payload)];
  }

  lemma {:induction false} LatestExists(tasks: seq<TaskRow>, id: string, subject: string, i: nat) returns (j: nat)
    requires i < |tasks| && tasks[i].reaction == id && tasks[i].subject == subject && tasks[i].status.Pending?
    ensures LatestPending(tasks, id, subject, j) && tasks[j].createdAtMs >= tasks[i].createdAtMs
  {
    var last := |tasks| - 1;
    var init := tasks[..last];
    if k: nat :| k < last && tasks[k].reaction == id && tasks[k].subject == subject && tasks[k].status.Pending? {
      j := LatestExists(init, id, subject, if i < last then i else k);
      if tasks[last].reaction == id && tasks[last].subject == subject && tasks[last].status.Pending?
         && tasks[last].createdAtMs > tasks[j].createdAtMs {
        j := last;
      }
      forall x | 0 <= x < last && tasks[x].reaction == id && tasks[x].subject == subject && tasks[x].status.Pending?
        ensures tasks[x].createdAtMs <= tasks[j].createdAtMs
      {
        assert init[x] == tasks[x];
      }
    } else {
      j := i;
    }
  }

  /** In plain terms: debouncing is on, and some PENDING task of the reaction and the subject was
      created less than the debounce time ago. */
  lemma InWindowIff(tasks: seq<TaskRow>, r: Reaction, e: Entry, now: int)
    ensures InWindow(tasks, r, e, now) <==>
            && r.debounceMs > 0
            && exists t :: t in tasks && t.reaction == r.id && t.subject == e.subject && t.status == TaskStatus.Pending
                           && now < t.createdAtMs + r.debounceMs
  {
    if t :| t in tasks && t.reaction == r.id && t.subject == e.subject && t.status == TaskStatus.Pending
            && now < t.createdAtMs + r.debounceMs && r.debounceMs > 0 {
      var i: nat :| i < |tasks| && tasks[i] == t;
      var j := LatestExists(tasks, r.id, e.subject, i);
      assert tasks[j].createdAtMs + r.debounceMs > now;
    }
  }

  /** The entry's key is free when the reaction has no task for the entry yet. */
  lemma NewKeyIsFree(tasks: seq<TaskRow>, r: Reaction, e: Entry)
    requires forall t :: t in tasks && t.reaction == r.id ==> t.sourceSeq != e.globalSeq
    ensures KeyFree(tasks, r, e)
  {
    forall i: nat | LatestPending(tasks, r.id, e.subject, i) ensures !TakenByOther(tasks, i, e.globalSeq) {
      assert forall j :: 0 <= j < |tasks| ==> tasks[j] in tasks;
    }
  }

  lemma LatestAge(tasks: seq<TaskRow>, id: string, subject: string, i: nat, j: nat)
    requires LatestPending(tasks, id, subject, i) && LatestPending(tasks, id, subject, j)
    ensures tasks[i].createdAtMs == tasks[j].createdAtMs
  {
  }

  class MatcherStore {
    const cel: (string, Entry) -> CelResult
    const reactions: seq<Reaction>
    var journal: seq<Entry>
    var cursors: Cursors
    var tasks: seq<TaskRow>
    var agentRuns: set<(string, int)>
    /** The number of store calls made in this pass. */
    var calls: nat
    /** What the clock reads between the store calls: after the n-th and before the next. */
    const clock: nat -> int

    constructor (cel: (string, Entry) -> CelResult, reactions: seq<Reaction>, clock: nat -> int, st: Store)
      ensures this.cel == cel && this.reactions == reactions && this.clock == clock && Value() == st
    {
      this.cel, this.reactions, this.clock := cel, reactions, clock;
      journal, cursors, tasks := st.journal, st.cursors, st.tasks;
      agentRuns, calls := {}, 0;
    }

    ghost function Value(): Store
      reads this
    {
      Store(journal, cursors, tasks)
    }

    /** No call of this pass, from the first `from` on, met a fault. */
    ghost predicate FaultFree(faults: nat -> Fault, from: nat)
      reads this
    {
      forall i :: from <= i < calls ==> faults(i).Fine?
    }

    /** Insert unless a row with the same dedup key exists. */
    method CreateTask(t: TaskRow)
      requires UniqueRows(tasks)
      modifies this`tasks
      ensures UniqueRows(tasks)
      ensures tasks == old(tasks) + if Has(old(tasks), t.reaction, t.shard, t.sourceSeq) then [] else [t]
      ensures OtherRowsSame(old(tasks), tasks, t.reaction)
      ensures RowAdded(old(tasks), tasks, t.reaction, t.shard, t.sourceSeq, true)
    {
      ghost var before := tasks;
      if !Has(tasks, t.reaction, t.shard, t.sourceSeq) {
        tasks := tasks + [t];
        assert forall i :: 0 <= i < |before| ==> !RowFor(before[i], t.reaction, t.shard, t.sourceSeq);
        forall s: nat, q
          ensures Has(tasks, t.reaction, s, q) <==> Has(before, t.reaction, s, q) || RowFor(t, t.reaction, s, q)
        {
          HasAppend(before, t, t.reaction, s, q);
        }
      }
    }

    /** Fold an entry into a PENDING task; refused by the store if the dedup key is taken. */
    method CoalesceTask(i: nat, q: int, payload: string) returns (coalesced: bool)
      requires UniqueRows(tasks) && i < |tasks|
      modifies this`tasks
      ensures UniqueRows(tasks)
      ensures coalesced <==> old(tasks)[i].status.Pending? && !TakenByOther(old(tasks), i, q)
      ensures tasks == if coalesced then old(tasks)[i := Folded(old(tasks)[i], q, payload)] else old(tasks)
    {
      coalesced := tasks[i].status.Pending? && !TakenByOther(tasks, i, q);
      if coalesced {
        tasks := tasks[i := tasks[i].(sourceSeq := q, payload := payload)];
      }
    }

    /** Make one store call: the fault it meets, if any. */
    method Call(faults: nat -> Fault) returns (f: Fault)
      modifies this`calls
      ensures calls == old(calls) + 1 && f == faults(old(calls))
    {
      f := faults(calls);
      calls := calls + 1;
    }

    /** Within its debounce window, fold the entry into the newest PENDING task of its subject. */
    method TryCoalesce(r: Reaction, e: Entry, faults: nat -> Fault) returns (crashed: bool, coalesced: bool)
      requires UniqueRows(tasks) && r.debounceMs > 0
      modifies this`tasks, this`calls
      ensures UniqueRows(tasks) && calls > old(calls)
      ensures OtherRowsSame(old(tasks), tasks, r.id)
      ensures Turned(r.id, e, old(tasks), tasks)
      ensures coalesced ==> InWindow(old(tasks), r, e, clock(old(calls) + 1)) && FoldedInto(old(tasks), tasks, r, e)
      ensures coalesced ==> Carried(tasks, r.id, e.subject, e.globalSeq)
      ensures !coalesced || crashed ==> tasks == old(tasks)
      ensures FaultFree(faults, old(calls)) ==> !crashed
      ensures FaultFree(faults, old(calls)) && KeyFree(old(tasks), r, e) ==>
                (coalesced <==> InWindow(old(tasks), r, e, clock(old(calls) + 1)))
      ensures !InWindow(old(tasks), r, e, clock(old(calls) + 1)) ==> calls == old(calls) + 1
    {
      crashed, coalesced := false, false;
      var found := Call(faults);
      if found.Dies? { return true, false; }
      if i: nat :| i < |tasks| && found.Fine? && LatestPending(tasks, r.id, e.subject, i) {
        forall j: nat | LatestPending(tasks, r.id, e.subject, j) ensures tasks[j].createdAtMs == tasks[i].createdAtMs {
          LatestAge(tasks, r.id, e.subject, i, j);
        }
        var now := clock(calls);
        if tasks[i].createdAtMs + r.debounceMs > now {
          var f := Call(faults);
          if f.Dies? { return true, false; }
          if f.Fine? {
            FoldTurns(tasks, i, e);
            coalesced := CoalesceTask(i, e.globalSeq, e.payload);
            assert coalesced ==> tasks[i] in tasks && tasks[i].reaction == r.id && tasks[i].subject == e.subject;
          }
        }
      }
    }

    /** Create the entry's own task. */
    method NewTask(r: Reaction, e: Entry, shard: nat, faults: nat -> Fault) returns (crashed: bool, refused: bool)
      requires UniqueRows(tasks)
      modifies this`tasks, this`calls
      ensures UniqueRows(tasks) && calls >= old(calls)
      ensures OtherRowsSame(old(tasks), tasks, r.id)
      ensures RowAdded(old(tasks), tasks, r.id, shard, e.globalSeq, !crashed && !refused)
      ensures Turned(r.id, e, old(tasks), tasks)
      ensures if crashed || refused then tasks == old(tasks)
              else OwnTaskAdded(old(tasks), tasks, r, e, shard, clock(old(calls)))
      ensures FaultFree(faults, old(calls)) ==> !crashed && !refused
    {
      var now := clock(calls);
      var f := Call(faults);
      crashed, refused := f.Dies?, f.Refused?;
      if f.Fine? {
        var t := TaskRow(r.id, shard, e.globalSeq, e.subject, e.payload, TaskStatus.Pending, now);
        AppendTurns(tasks, t, e);
        CreateTask(t);
      }
    }

    /** Hand a matching entry to a task handler: fold it within the debounce window, else
        create its own task. */
    method DispatchTask(r: Reaction, e: Entry, shard: nat, faults: nat -> Fault)
      returns (crashed: bool, refused: bool)
      requires UniqueRows(tasks)
      modifies this`tasks, this`calls
      ensures UniqueRows(tasks) && calls >= old(calls)
      ensures OtherRowsSame(old(tasks), tasks, r.id)
      ensures r.debounceMs <= 0 ==> RowAdded(old(tasks), tasks, r.id, shard, e.globalSeq, !crashed && !refused)
      ensures Turned(r.id, e, old(tasks), tasks)
      ensures !crashed && !refused && Ordered(journal) && e in journal && SubjectsMatch(journal, old(tasks), r.id) ==>
                Carried(tasks, r.id, e.subject, e.globalSeq)
      ensures crashed ==> tasks == old(tasks)
      ensures FaultFree(faults, old(calls)) ==> !crashed && !refused
      ensures FaultFree(faults, old(calls)) && InWindow(old(tasks), r, e, clock(old(calls) + 1))
              && KeyFree(old(tasks), r, e) ==>
                FoldedInto(old(tasks), tasks, r, e) && |tasks| == old(|tasks|)
      ensures FaultFree(faults, old(calls)) && !InWindow(old(tasks), r, e, clock(old(calls) + 1)) ==>
                OwnTaskAdded(old(tasks), tasks, r, e, shard, clock(old(calls) + if r.debounceMs > 0 then 1 else 0))
    {
      crashed, refused := false, false;
      var coalesced := false;
      if r.debounceMs > 0 { crashed, coalesced := TryCoalesce(r, e, faults); }
      if !crashed && !coalesced {
        crashed, refused := NewTask(r, e, shard, faults);
        assert !crashed && !refused ==> Has(tasks, r.id, shard, e.globalSeq);
        if !crashed && !refused && Ordered(journal) && e in journal && SubjectsMatch(journal, tasks, r.id) {
          SourceHasSubject(journal, tasks, r.id, shard, e);
        }
      }
    }

    /** Hand a matching entry to the reaction's handler. */
    method Dispatch(r: Reaction, e: Entry, shard: nat, faults: nat -> Fault) returns (crashed: bool, refused: bool)
      requires UniqueRows(tasks)
      modifies this`tasks, this`agentRuns, this`calls
      ensures UniqueRows(tasks) && calls >= old(calls)
      ensures OtherRowsSame(old(tasks), tasks, r.id)
      ensures Plain(r) ==> RowAdded(old(tasks), tasks, r.id, shard, e.globalSeq, !crashed && !refused)
      ensures Turned(r.id, e, old(tasks), tasks)
      ensures MakesTasks(r) && !crashed && !refused && Ordered(journal) && e in journal
              && SubjectsMatch(journal, old(tasks), r.id) ==>
                Carried(tasks, r.id, e.subject, e.globalSeq)
      ensures r.kind.Agent? || r.kind.Unspecified? || crashed ==> tasks == old(tasks)
      ensures (r.kind.Task? || r.kind.Publish?) && FaultFree(faults, old(calls))
              && InWindow(old(tasks), r, e, clock(old(calls) + 1)) && KeyFree(old(tasks), r, e) ==>
                FoldedInto(old(tasks), tasks, r, e) && |tasks| == old(|tasks|)
      ensures (r.kind.Task? || r.kind.Publish?) && FaultFree(faults, old(calls))
              && !InWindow(old(tasks), r, e, clock(old(calls) + 1)) ==>
                OwnTaskAdded(old(tasks), tasks, r, e, shard, clock(old(calls) + if r.debounceMs > 0 then 1 else 0))
      ensures agentRuns == old(agentRuns) || (r.kind.Agent? && agentRuns == old(agentRuns) + {(r.id, e.globalSeq)})
      ensures FaultFree(faults, old(calls)) ==> !crashed && !refused
      ensures FaultFree(faults, old(calls)) && r.kind.Agent? ==> (r.id, e.globalSeq) in agentRuns
    {
      crashed, refused := false, false;
      match r.kind {
        case Agent =>
          var f := Call(faults);
          crashed := f.Dies?;
          if f.Fine? { agentRuns := agentRuns + {(r.id, e.globalSeq)}; }
        case Unspecified =>
        case _ => crashed, refused := DispatchTask(r, e, shard, faults);
      }
    }

    /** Whether the reaction takes the entry. */
    method Takes(r: Reaction, e: Entry) returns (hit: bool)
      ensures hit <==> Hit(cel, r, e)
      ensures hit <==>
              MatchesSubject(r.pattern, e.subject) && (r.predicateCel == "" || cel(r.predicateCel, e) == True)
    {
      hit := Matches(r.pattern, e.subject);
      if hit && r.predicateCel != "" { hit := cel(r.predicateCel, e) == True; }
    }

    /** One entry for one reaction: skip it, pass over it or dispatch it, and move the running cursor. */
    method HandleEntry(
      r: Reaction, ghost cs: seq<int>, nc: seq<int>, es: seq<Entry>, i: nat, faults: nat -> Fault,
      ghost was: seq<TaskRow>, ghost lost: set<Lost>)
      returns (crashed: bool, nc': seq<int>, ghost lost': set<Lost>)
      requires UniqueRows(tasks) && Ordered(es) && i < |es| && |cs| == |nc| == Shards(r)
      requires Ordered(journal) && forall x :: x in es ==> x in journal
      requires Progress(cel, r, cs, es[..i], journal, was, tasks, lost)
      requires Moved(r, cs, nc, es[..i])
      modifies this`tasks, this`agentRuns, this`calls
      ensures UniqueRows(tasks) && calls >= old(calls)
      ensures OtherRowsSame(old(tasks), tasks, r.id)
      ensures Progress(cel, r, cs, if crashed then es[..i] else es[..i + 1], journal, was, tasks, lost')
      ensures !crashed ==> |nc'| == |cs| && Moved(r, cs, nc', es[..i + 1])
      ensures FaultFree(faults, old(calls)) ==> !crashed && lost' == lost
    {
      var e := es[i];
      assert es[..i + 1] == es[..i] + [e];
      var h := HashStr(e.runId);
      var shard := h % Shards(r);
      crashed, nc', lost' := false, nc, lost;
      MovedStep(r, cs, nc, es[..i], e);
      if e.globalSeq <= nc[shard] {
        SkippedWasBehind(r, cs[shard], es, i);
        ProgressSkip(cel, r, cs, es[..i], e, journal, was, tasks, lost);
        return;
      }
      nc' := nc[shard := e.globalSeq];
      var hit := Takes(r, e);
      if !hit {
        ProgressSkip(cel, r, cs, es[..i], e, journal, was, tasks, lost);
        return;
      }
      ghost var before := tasks;
      var refused;
      crashed, refused := Dispatch(r, e, shard, faults);
      if !crashed {
        if refused { lost' := lost + {Lost(r.id, shard, e.globalSeq)}; }
        forall x | x in es[..i] ensures x.globalSeq < e.globalSeq {
          var j :| 0 <= j < i && es[j] == x;
        }
        ProgressDispatch(cel, r, cs, es[..i], e, journal, was, before, tasks, lost, refused);
      }
    }

    /** The entry loop of one reaction. */
    method HandleEntries(r: Reaction, cs: seq<int>, es: seq<Entry>, faults: nat -> Fault)
      returns (crashed: bool, nc: seq<int>, ghost lost: set<Lost>, ghost done: nat)
      requires UniqueRows(tasks) && Ordered(es) && |cs| == Shards(r)
      requires Ordered(journal) && forall x :: x in es ==> x in journal
      modifies this`tasks, this`agentRuns, this`calls
      ensures UniqueRows(tasks) && calls >= old(calls)
      ensures OtherRowsSame(old(tasks), tasks, r.id)
      ensures done <= |es| && Progress(cel, r, cs, es[..done], journal, old(tasks), tasks, lost)
      ensures !crashed ==> done == |es| && |nc| == |cs| && Moved(r, cs, nc, es)
      ensures FaultFree(faults, old(calls)) ==> !crashed && lost == {}
    {
      nc, lost, done := cs, {}, 0;
      CoveredNothing(cel, r, cs, tasks);
      FoldedNothing(cel, r, cs, journal, tasks, {});
      for i := 0 to |es|
        invariant UniqueRows(tasks) && calls >= old(calls) && done == i
        invariant OtherRowsSame(old(tasks), tasks, r.id)
        invariant Progress(cel, r, cs, es[..i], journal, old(tasks), tasks, lost)
        invariant |nc| == |cs| && Moved(r, cs, nc, es[..i])
        invariant FaultFree(faults, old(calls)) ==> lost == {}
      {
        crashed, nc, lost := HandleEntry(r, cs, nc, es, i, faults, old(tasks), lost);
        if crashed { return; }
        done := i + 1;
      }
      crashed := false;
      assert es[..|es|] == es;
    }

    /** Write each cursor that moved; a refused write is ignored. */
    method PersistCursors(r: Reaction, cs: seq<int>, nc: seq<int>, faults: nat -> Fault) returns (crashed: bool)
      requires |cs| == |nc| == Shards(r)
      requires forall s: nat :: s < |cs| ==> cs[s] == CursorAt(cursors, r, s) && cs[s] <= nc[s]
      modifies this`cursors, this`calls
      ensures calls >= old(calls)
      ensures forall id :: id != r.id ==> SameCursors(id, old(cursors), cursors)
      ensures forall s: nat :: s < |cs| ==> CursorAt(cursors, r, s) == cs[s] || CursorAt(cursors, r, s) == nc[s]
      ensures FaultFree(faults, old(calls)) ==> !crashed && forall s: nat :: s < |cs| ==>
                CursorAt(cursors, r, s) == nc[s]
    {
      crashed := false;
      for s := 0 to |cs|
        invariant calls >= old(calls)
        invariant forall id :: id != r.id ==> SameCursors(id, old(cursors), cursors)
        invariant forall k: nat :: k < s ==> CursorAt(cursors, r, k) == cs[k] || CursorAt(cursors, r, k) == nc[k]
        invariant forall k: nat :: s <= k < |cs| ==> CursorAt(cursors, r, k) == cs[k]
        invariant FaultFree(faults, old(calls)) ==> forall k: nat :: k < s ==> CursorAt(cursors, r, k) == nc[k]
      {
        if nc[s] > cs[s] {
          var f := Call(faults);
          if f.Dies? { return true; }
          if f.Fine? {
            ghost var before := cursors;
            cursors := cursors[CursorKey(r.id, s) := nc[s]];
            forall id | id != r.id ensures SameCursors(id, old(cursors), cursors) {
              assert SameCursors(id, old(cursors), before);
            }
          }
        }
      }
    }

    /** One reaction: handle the batch, then persist the cursors. */
    method RunReaction(r: Reaction, cs: seq<int>, es: seq<Entry>, faults: nat -> Fault)
      returns (crashed: bool, ghost lost: set<Lost>)
      requires UniqueRows(tasks) && Ordered(es) && |cs| == Shards(r)
      requires Ordered(journal) && forall x :: x in es ==> x in journal
      requires forall s: nat :: s < |cs| ==> cs[s] == CursorAt(cursors, r, s)
      modifies this`tasks, this`agentRuns, this`cursors, this`calls
      ensures UniqueRows(tasks) && calls >= old(calls)
      ensures forall id :: id != r.id ==> Untouched(id, old(Value()), Value())
      ensures Handled(cel, r, es, old(Value()), Value(), lost)
      ensures FaultFree(faults, old(calls)) ==>
                !crashed && lost == {} && Finished(cel, r, es, old(Value()), Value(), {})
    {
      var nc; ghost var done;
      crashed, nc, lost, done := HandleEntries(r, cs, es, faults);
      if Plain(r) { CoveredGrows(cel, r, cs, es[..done], es, old(Value()), Value(), lost); }
      if !crashed {
        assert es[..done] == es;
        crashed := PersistCursors(r, cs, nc, faults);
      }
      FoldedIsFolds(cel, r, cs, es[..done], es, old(Value()), Value(), lost);
    }

    /** The cursors of every shard of every reaction, and the least of them. */
    method ReadCursors() returns (read: seq<seq<int>>, m: int)
      requires reactions != []
      requires forall k :: k in cursors ==> cursors[k] < MAX_SEQ
      ensures |read| == |reactions| && IsMinCursor(reactions, cursors, m)
      ensures forall i :: 0 <= i < |reactions| ==> Read(reactions[i], read[i], cursors)
    {
      read, m := [], MAX_SEQ;
      for i := 0 to |reactions|
        invariant |read| == i && forall k :: 0 <= k < i ==> Read(reactions[k], read[k], cursors)
        invariant forall k, s: nat :: 0 <= k < i && s < Shards(reactions[k]) ==> m <= CursorAt(cursors, reactions[k], s)
        invariant (i == 0 && m == MAX_SEQ)
               || exists k, s: nat :: 0 <= k < i && s < Shards(reactions[k]) && m == CursorAt(cursors, reactions[k], s)
      {
        var cs, least := ReadShards(reactions[i]);
        read := read + [cs];
        if least < m { m := least; }
      }
      if m == MAX_SEQ { m := 0; }
    }

    method ReadShards(r: Reaction) returns (cs: seq<int>, least: int)
      requires forall k :: k in cursors ==> cursors[k] < MAX_SEQ
      ensures Read(r, cs, cursors)
      ensures forall s: nat :: s < Shards(r) ==> least <= CursorAt(cursors, r, s)
      ensures exists s: nat :: s < Shards(r) && least == CursorAt(cursors, r, s)
    {
      cs, least := [], MAX_SEQ;
      for s := 0 to Shards(r)
        invariant |cs| == s && forall k: nat :: k < s ==> cs[k] == CursorAt(cursors, r, k)
        invariant forall k: nat :: k < s ==> least <= CursorAt(cursors, r, k)
        invariant (s == 0 && least == MAX_SEQ) || exists k: nat :: k < s && least == CursorAt(cursors, r, k)
      {
        var c := CursorAt(cursors, r, s);
        cs := cs + [c];
        if c < least { least := c; }
      }
    }

    /** One pass over all reactions, cut short by a crash at any store call. */
    method Tick(faults: nat -> Fault) returns (crashed: bool, ghost m: int, ghost lost: set<Lost>)
      requires DistinctIds(reactions) && UniqueRows(tasks) && Ordered(journal)
      requires forall k :: k in cursors ==> cursors[k] < MAX_SEQ
      modifies this
      ensures reactions == [] ==> Value() == old(Value()) && !crashed
      ensures reactions != [] ==> Pass(cel, reactions, old(Value()), Value(), m, lost)
      ensures reactions != [] && FaultFree(faults, 0) ==>
                !crashed && lost == {} && CleanPass(cel, reactions, old(Value()), Value(), m)
    {
      calls, crashed, lost, m := 0, false, {}, 0;
      if reactions == [] { return; }
      ghost var a := Value();
      var read, least := ReadCursors();
      m := least;
      var es := Batch(journal, least);
      BatchOrdered(journal, least);
      assert forall x :: x in es ==> x in journal;
      var i := 0;
      while i < |reactions| && !crashed
        invariant i <= |reactions| == |read| && journal == a.journal && UniqueRows(tasks)
        invariant HandledUpTo(cel, reactions, i, es, a, Value(), lost)
        invariant UntouchedFrom(reactions, i, a, Value())
        invariant FaultFree(faults, 0) ==> !crashed && lost == {} && FinishedUpTo(cel, reactions, i, es, a, Value())
      {
        ghost var was, b := lost, Value();
        ReadStays(reactions[i], read[i], a, b);
        ghost var more;
        crashed, more := RunReaction(reactions[i], read[i], es, faults);
        lost := was + more;
        ReactionDone(cel, reactions, i, es, a, b, Value(), was, more);
        if FaultFree(faults, 0) { ReactionFinished(cel, reactions, i, es, a, b, Value()); }
        i := i + 1;
      }
      HandledIsPass(cel, reactions, i, es, a, Value(), m, lost);
      if FaultFree(faults, 0) { FinishedIsClean(cel, reactions, es, a, Value(), m); }
    }
  }
}
