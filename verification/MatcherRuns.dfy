/** Runs of the matcher: passes that may fail or be cut short at any write, interleaved
    with journal appends and with dispatchers working on the tasks. */
module MatcherRuns {
  import opened MatcherModel

  datatype Store = Store(journal: seq<Entry>, cursors: Cursors, tasks: seq<TaskRow>)

  datatype Lost = Lost(reaction: string, shard: nat, q: int)

  /** A reaction that makes one task per matching entry: no debouncing. */
  predicate Plain(r: Reaction) {
    MakesTasks(r) && r.debounceMs <= 0
  }

  predicate InSeqs(es: seq<Entry>, q: int) {
    exists j :: 0 <= j < |es| && es[j].globalSeq == q
  }

  // ---------------------------------------------------------------- batches are contiguous

  lemma StartIsFirst(journal: seq<Entry>, m: int, i: nat)
    requires Ordered(journal) && i < |journal|
    ensures Start(journal, m) <= i <==> journal[i].globalSeq > m
  {
  }

  lemma BatchWithin(journal: seq<Entry>, m: int, j: nat)
    requires Ordered(journal) && j < |Batch(journal, m)|
    ensures Batch(journal, m)[j] == journal[Start(journal, m) + j] && Batch(journal, m)[j].globalSeq > m
  {
    StartIsFirst(journal, m, Start(journal, m) + j);
  }

  lemma BatchOrdered(journal: seq<Entry>, m: int)
    requires Ordered(journal)
    ensures Ordered(Batch(journal, m))
  {
    var es, p := Batch(journal, m), Start(journal, m);
    assert forall j :: 0 <= j < |es| ==> es[j] == journal[p + j];
  }

  /** Every entry after the minimum and not after the end of the batch is in the batch. */
  lemma BatchCovers(journal: seq<Entry>, m: int, i: nat) returns (j: nat)
    requires Ordered(journal) && i < |journal| && m < journal[i].globalSeq
    requires var es := Batch(journal, m); es != [] && journal[i].globalSeq <= es[|es| - 1].globalSeq
    ensures j < |Batch(journal, m)| && Batch(journal, m)[j] == journal[i]
  {
    StartIsFirst(journal, m, i);
    BatchWithin(journal, m, |Batch(journal, m)| - 1);
    j := i - Start(journal, m);
  }

  lemma StartGrows(journal: seq<Entry>, more: seq<Entry>, m: int)
    requires Ordered(journal + more) && Start(journal, m) < |journal|
    ensures Start(journal + more, m) == Start(journal, m)
  {
    var p := Start(journal, m);
    var all := journal + more;
    assert all[p] == journal[p];
    StartIsFirst(all, m, p);
    assert forall n :: 0 <= n < p ==> all[n] == journal[n];
  }

  lemma BatchGrows(journal: seq<Entry>, more: seq<Entry>, m: int, q: int)
    requires Ordered(journal + more) && InSeqs(Batch(journal, m), q)
    ensures InSeqs(Batch(journal + more, m), q)
  {
    StartGrows(journal, more, m);
    var j :| 0 <= j < |Batch(journal, m)| && Batch(journal, m)[j].globalSeq == q;
    assert Batch(journal, m)[j] == journal[Start(journal, m) + j];
    assert Batch(journal + more, m)[j] == (journal + more)[Start(journal, m) + j];
  }

  /** Raising the minimum, but not past `q`, keeps `q` in the batch. */
  lemma BatchSlides(journal: seq<Entry>, m: int, m': int, q: int)
    requires Ordered(journal) && m <= m' < q && InSeqs(Batch(journal, m), q)
    ensures InSeqs(Batch(journal, m'), q)
  {
    var p, p' := Start(journal, m), Start(journal, m');
    var j :| 0 <= j < |Batch(journal, m)| && Batch(journal, m)[j].globalSeq == q;
    BatchWithin(journal, m, j);
    StartIsFirst(journal, m', p + j);
    assert p <= p';
    assert Batch(journal, m')[p + j - p'] == journal[p + j];
  }

  // ---------------------------------------------------------------- what one pass may do

  /** One pass over the batch after minimum `m`, possibly with failed writes and possibly
      cut short: existing tasks stay, new tasks are due ones, and a cursor moves only to the
      shard's last batch entry and only once the shard's due tasks exist or were refused. */
  ghost predicate Pass(
    cel: (string, Entry) -> CelResult, reactions: seq<Reaction>, a: Store, b: Store, m: int, lost: set<Lost>)
  {
    var es := Batch(a.journal, m);
    && IsMinCursor(reactions, a.cursors, m)
    && b.journal == a.journal && UniqueRows(b.tasks)
    && forall r :: r in reactions ==>
         && (Plain(r) ==> TasksGrow(cel, r, es, a, b))
         && Folds(cel, r, es, a, b, lost)
         && forall s: nat :: s < Shards(r) ==> CursorMoves(cel, r, es, a, b, s, lost)
  }

  /** What holds with debouncing too: a new source entry is one of the batch, and tasks keep
      the subject of their source.  If all entries of a subject fall on one shard, what a task
      of the subject carried up to the shard's cursor stays carried, and when the cursor moves
      every matching entry of the subject in the batch is carried. */
  ghost predicate Folds(
    cel: (string, Entry) -> CelResult, r: Reaction, es: seq<Entry>, a: Store, b: Store, lost: set<Lost>)
  {
    && FromBatch(r.id, es, a.tasks, b.tasks)
    && (SubjectsMatch(a.journal, a.tasks, r.id) ==>
          && SubjectsMatch(a.journal, b.tasks, r.id)
          && (MakesTasks(r) ==>
                forall x, s: nat :: s < Shards(r) && OneShard(r, a.journal, x, s) ==>
                  SubjectFolds(cel, r, x, s, es, a, b, lost)))
  }

  ghost predicate SubjectFolds(
    cel: (string, Entry) -> CelResult, r: Reaction, x: string, s: nat, es: seq<Entry>, a: Store, b: Store,
    lost: set<Lost>)
  {
    var c := CursorAt(a.cursors, r, s);
    && StaysCarried(r.id, x, c, a.tasks, b.tasks)
    && (CursorAt(b.cursors, r, s) != c ==> NewlyCarried(cel, r, x, s, c, es, b.tasks, lost))
  }

  /** All entries of the subject fall on the shard. */
  ghost predicate OneShard(r: Reaction, journal: seq<Entry>, x: string, s: nat) {
    forall e :: e in journal && e.subject == x ==> ShardOf(r, e) == s
  }

  ghost predicate FromBatch(id: string, es: seq<Entry>, a: seq<TaskRow>, b: seq<TaskRow>) {
    forall s: nat, q :: Has(b, id, s, q) && !Has(a, id, s, q) ==> InSeqs(es, q)
  }

  /** A task of the subject stands for the entry: it carries it, or a later one of the subject. */
  ghost predicate Carried(tasks: seq<TaskRow>, id: string, subject: string, q: int) {
    exists t :: t in tasks && t.reaction == id && t.subject == subject && t.sourceSeq >= q
  }

  ghost predicate HasSource(journal: seq<Entry>, t: TaskRow) {
    exists e :: e in journal && e.globalSeq == t.sourceSeq && e.subject == t.subject
  }

  /** Every task of the reaction has the subject of its source entry. */
  ghost predicate SubjectsMatch(journal: seq<Entry>, tasks: seq<TaskRow>, id: string) {
    forall t :: t in tasks && t.reaction == id ==> HasSource(journal, t)
  }

  ghost predicate StaysCarried(id: string, x: string, c: int, a: seq<TaskRow>, b: seq<TaskRow>) {
    forall q :: q <= c && Carried(a, id, x, q) ==> Carried(b, id, x, q)
  }

  ghost predicate NewlyCarried(
    cel: (string, Entry) -> CelResult, r: Reaction, x: string, s: nat, c: int, es: seq<Entry>, tasks: seq<TaskRow>,
    lost: set<Lost>)
  {
    forall e :: e in es && e.subject == x && e.globalSeq > c && Hit(cel, r, e) ==>
      Carried(tasks, r.id, x, e.globalSeq) || Lost(r.id, s, e.globalSeq) in lost
  }

  ghost predicate TasksGrow(cel: (string, Entry) -> CelResult, r: Reaction, es: seq<Entry>, a: Store, b: Store) {
    && (forall s: nat, q :: Has(a.tasks, r.id, s, q) ==> Has(b.tasks, r.id, s, q))
    && (forall s: nat, q :: Has(b.tasks, r.id, s, q) && !Has(a.tasks, r.id, s, q) ==>
          s < Shards(r) && Due(cel, r, es, CursorAt(a.cursors, r, s), s, q))
  }

  ghost predicate CursorMoves(
    cel: (string, Entry) -> CelResult, r: Reaction, es: seq<Entry>, a: Store, b: Store, s: nat, lost: set<Lost>)
  {
    var c, c' := CursorAt(a.cursors, r, s), CursorAt(b.cursors, r, s);
    c' == c || (c' == Advance(r, s, c, es) && (Plain(r) ==> AllMade(cel, r, es, c, s, b.tasks, lost)))
  }

  /** Every due task of the shard exists, or its creation was refused by the store. */
  ghost predicate AllMade(
    cel: (string, Entry) -> CelResult, r: Reaction, es: seq<Entry>, c: int, s: nat, tasks: seq<TaskRow>,
    lost: set<Lost>)
  {
    forall q :: Due(cel, r, es, c, s, q) ==> Has(tasks, r.id, s, q) || Lost(r.id, s, q) in lost
  }

  /** A pass in which no write fails and nothing crashes. */
  ghost predicate CleanPass(cel: (string, Entry) -> CelResult, reactions: seq<Reaction>, a: Store, b: Store, m: int) {
    && Pass(cel, reactions, a, b, m, {})
    && forall r, s: nat :: r in reactions && s < Shards(r) ==>
         && CursorAt(b.cursors, r, s) == Advance(r, s, CursorAt(a.cursors, r, s), Batch(a.journal, m))
         && (Plain(r) ==> AllMade(cel, r, Batch(a.journal, m), CursorAt(a.cursors, r, s), s, b.tasks, {}))
  }

  datatype Step = Appends | Dispatches | Passes(m: int, lost: set<Lost>, clean: bool)

  ghost predicate Next(cel: (string, Entry) -> CelResult, reactions: seq<Reaction>, a: Store, b: Store, step: Step) {
    match step
    case Appends => a.journal <= b.journal && Ordered(b.journal) && b.cursors == a.cursors && b.tasks == a.tasks
    // dispatchers claim, complete and fail tasks; the dedup keys and the subjects stay
    case Dispatches =>
      && b.journal == a.journal && b.cursors == a.cursors && |b.tasks| == |a.tasks|
      && forall i :: 0 <= i < |a.tasks| ==>
           && RowFor(b.tasks[i], a.tasks[i].reaction, a.tasks[i].shard, a.tasks[i].sourceSeq)
           && b.tasks[i].subject == a.tasks[i].subject
    case Passes(m, lost, clean) =>
      Pass(cel, reactions, a, b, m, lost) && (clean ==> CleanPass(cel, reactions, a, b, m) && lost == {})
  }

  /** Reactions, shard counts and handlers stay fixed; no task of theirs exists at the start. */
  ghost predicate IsRun(
    cel: (string, Entry) -> CelResult, reactions: seq<Reaction>, run: seq<Store>, steps: seq<Step>) {
    && |run| == |steps| + 1
    && Ordered(run[0].journal) && UniqueRows(run[0].tasks)
    && (forall r, s: nat, q :: r in reactions ==> !Has(run[0].tasks, r.id, s, q))
    && forall i :: 0 <= i < |steps| ==> Next(cel, reactions, run[i], run[i + 1], steps[i])
  }

  ghost function LostBy(steps: seq<Step>, n: nat): set<Lost>
    requires n <= |steps|
  {
    if n == 0 then {} else LostBy(steps, n - 1) + if steps[n - 1].Passes? then steps[n - 1].lost else {}
  }

  // ---------------------------------------------------------------- the invariant, one reaction and shard at a time

  /** A task past its cursor came from an interrupted pass; it is in the batch that comes next. */
  ghost predicate Near(reactions: seq<Reaction>, st: Store, q: int) {
    forall m :: IsMinCursor(reactions, st.cursors, m) ==> InSeqs(Batch(st.journal, m), q)
  }

  ghost predicate ShardInv(
    cel: (string, Entry) -> CelResult, reactions: seq<Reaction>, r: Reaction, s: nat, start: int, st: Store,
    lost: set<Lost>)
  {
    var c := CursorAt(st.cursors, r, s);
    && start <= c
    && (forall q :: Has(st.tasks, r.id, s, q) ==> Due(cel, r, st.journal, start, s, q))
    && (forall q :: Due(cel, r, st.journal, start, s, q) && q <= c ==>
         Has(st.tasks, r.id, s, q) || Lost(r.id, s, q) in lost)
    && (forall q :: Has(st.tasks, r.id, s, q) && q > c ==> Near(reactions, st, q))
  }

  lemma DueInJournal(
    cel: (string, Entry) -> CelResult, r: Reaction, journal: seq<Entry>, m: int, c: int, start: int, s: nat, q: int)
    requires Ordered(journal) && start <= c && Due(cel, r, Batch(journal, m), c, s, q)
    ensures Due(cel, r, journal, start, s, q) && InSeqs(Batch(journal, m), q)
  {
    var es := Batch(journal, m);
    var j :| 0 <= j < |es| && es[j].globalSeq == q && ShardOf(r, es[j]) == s && q > c && Hit(cel, r, es[j]);
    BatchWithin(journal, m, j);
    assert journal[Start(journal, m) + j] == es[j];
  }

  lemma MinBelow(reactions: seq<Reaction>, cursors: Cursors, m: int, r: Reaction, s: nat)
    requires IsMinCursor(reactions, cursors, m) && r in reactions && s < Shards(r)
    ensures m <= CursorAt(cursors, r, s)
  {
    var i :| 0 <= i < |reactions| && reactions[i] == r;
  }

  /** What a moved cursor passed over was in the batch. */
  lemma PassedOverIsDue(
    cel: (string, Entry) -> CelResult, r: Reaction, journal: seq<Entry>, m: int, c: int, start: int, s: nat, q: int)
    requires Ordered(journal) && m <= c && Due(cel, r, journal, start, s, q)
    requires c < q <= Advance(r, s, c, Batch(journal, m))
    ensures Due(cel, r, Batch(journal, m), c, s, q)
  {
    var es := Batch(journal, m);
    var i :| 0 <= i < |journal| && journal[i].globalSeq == q && ShardOf(r, journal[i]) == s && q > start
      && Hit(cel, r, journal[i]);
    AdvanceBounds(r, s, c, es);
    BatchOrdered(journal, m);
    var j := BatchCovers(journal, m, i);
  }

  lemma NearSlides(reactions: seq<Reaction>, a: Store, b: Store, m: int, r: Reaction, s: nat, q: int)
    requires IsMinCursor(reactions, a.cursors, m) && b.journal == a.journal && Ordered(a.journal)
    requires forall r', s': nat :: r' in reactions && s' < Shards(r') ==>
               CursorAt(a.cursors, r', s') <= CursorAt(b.cursors, r', s')
    requires r in reactions && s < Shards(r) && CursorAt(b.cursors, r, s) < q && InSeqs(Batch(a.journal, m), q)
    ensures Near(reactions, b, q)
  {
    forall m' | IsMinCursor(reactions, b.cursors, m') ensures InSeqs(Batch(b.journal, m'), q) {
      MinBelow(reactions, b.cursors, m', r, s);
      var i, s' :| 0 <= i < |reactions| && 0 <= s' < Shards(reactions[i])
        && m' == CursorAt(b.cursors, reactions[i], s');
      assert reactions[i] in reactions;
      MinBelow(reactions, a.cursors, m, reactions[i], s');
      BatchSlides(a.journal, m, m', q);
    }
  }

  lemma CursorsNeverGoBack(
    cel: (string, Entry) -> CelResult, reactions: seq<Reaction>, a: Store, b: Store, step: Step, r: Reaction, s: nat)
    requires Next(cel, reactions, a, b, step) && r in reactions && s < Shards(r)
    ensures CursorAt(a.cursors, r, s) <= CursorAt(b.cursors, r, s)
  {
    if step.Passes? {
      assert CursorMoves(cel, r, Batch(a.journal, step.m), a, b, s, step.lost);
    }
  }

  lemma PassSound(
    cel: (string, Entry) -> CelResult, reactions: seq<Reaction>, r: Reaction, s: nat, start: int,
    a: Store, b: Store, m: int, lost: set<Lost>, was: set<Lost>, q: int)
    requires Pass(cel, reactions, a, b, m, lost) && Ordered(a.journal) && r in reactions && s < Shards(r) && Plain(r)
    requires ShardInv(cel, reactions, r, s, start, a, was)
    requires Has(b.tasks, r.id, s, q)
    ensures Due(cel, r, b.journal, start, s, q)
    ensures q > CursorAt(a.cursors, r, s) ==> InSeqs(Batch(a.journal, m), q)
  {
    if !Has(a.tasks, r.id, s, q) {
      assert TasksGrow(cel, r, Batch(a.journal, m), a, b);
      DueInJournal(cel, r, a.journal, m, CursorAt(a.cursors, r, s), start, s, q);
    } else if q > CursorAt(a.cursors, r, s) {
      assert Near(reactions, a, q);
    }
  }

  lemma PassComplete(
    cel: (string, Entry) -> CelResult, reactions: seq<Reaction>, r: Reaction, s: nat, start: int,
    a: Store, b: Store, m: int, lost: set<Lost>, was: set<Lost>, q: int)
    requires Pass(cel, reactions, a, b, m, lost) && Ordered(a.journal) && r in reactions && s < Shards(r) && Plain(r)
    requires ShardInv(cel, reactions, r, s, start, a, was)
    requires Due(cel, r, b.journal, start, s, q) && q <= CursorAt(b.cursors, r, s)
    ensures Has(b.tasks, r.id, s, q) || Lost(r.id, s, q) in was + lost
  {
    var es, c := Batch(a.journal, m), CursorAt(a.cursors, r, s);
    assert TasksGrow(cel, r, es, a, b) && CursorMoves(cel, r, es, a, b, s, lost);
    if q > c {
      MinBelow(reactions, a.cursors, m, r, s);
      PassedOverIsDue(cel, r, a.journal, m, c, start, s, q);
    }
  }

  lemma PassKeeps(
    cel: (string, Entry) -> CelResult, reactions: seq<Reaction>, r: Reaction, s: nat, start: int,
    a: Store, b: Store, m: int, lost: set<Lost>, was: set<Lost>)
    requires Pass(cel, reactions, a, b, m, lost) && Ordered(a.journal) && r in reactions && s < Shards(r) && Plain(r)
    requires ShardInv(cel, reactions, r, s, start, a, was)
    ensures ShardInv(cel, reactions, r, s, start, b, was + lost)
  {
    assert CursorMoves(cel, r, Batch(a.journal, m), a, b, s, lost);
    forall q | Has(b.tasks, r.id, s, q) ensures Due(cel, r, b.journal, start, s, q) {
      PassSound(cel, reactions, r, s, start, a, b, m, lost, was, q);
    }
    forall q | Due(cel, r, b.journal, start, s, q) && q <= CursorAt(b.cursors, r, s)
      ensures Has(b.tasks, r.id, s, q) || Lost(r.id, s, q) in was + lost
    {
      PassComplete(cel, reactions, r, s, start, a, b, m, lost, was, q);
    }
    forall q | Has(b.tasks, r.id, s, q) && q > CursorAt(b.cursors, r, s) ensures Near(reactions, b, q) {
      PassSound(cel, reactions, r, s, start, a, b, m, lost, was, q);
      forall r', s': nat | r' in reactions && s' < Shards(r')
        ensures CursorAt(a.cursors, r', s') <= CursorAt(b.cursors, r', s')
      {
        CursorsNeverGoBack(cel, reactions, a, b, Passes(m, lost, false), r', s');
      }
      NearSlides(reactions, a, b, m, r, s, q);
    }
  }

  lemma DueGrows(
    cel: (string, Entry) -> CelResult, r: Reaction, a: seq<Entry>, b: seq<Entry>, start: int, s: nat, q: int)
    requires a <= b && Ordered(b) && Due(cel, r, a, start, s, q)
    ensures Due(cel, r, b, start, s, q)
  {
    var j :| 0 <= j < |a| && a[j].globalSeq == q && ShardOf(r, a[j]) == s && q > start && Hit(cel, r, a[j]);
    assert b[j] == a[j];
  }

  /** A new entry is after every cursor, so it is not owed yet. */
  lemma NewEntriesAreLater(
    cel: (string, Entry) -> CelResult, r: Reaction, a: seq<Entry>, b: seq<Entry>, start: int, s: nat, q: int, c: int)
    requires a <= b && Ordered(b) && Due(cel, r, b, start, s, q) && q <= c
    requires c == start || (a != [] && c <= a[|a| - 1].globalSeq)
    ensures Due(cel, r, a, start, s, q)
  {
    var j :| 0 <= j < |b| && b[j].globalSeq == q && ShardOf(r, b[j]) == s && q > start && Hit(cel, r, b[j]);
    if a != [] { assert b[|a| - 1] == a[|a| - 1]; }
    assert j < |a| && a[j] == b[j];
  }

  /** A cursor that has moved is not past the end of the journal. */
  predicate CursorBounded(r: Reaction, s: nat, start: int, st: Store) {
    var c := CursorAt(st.cursors, r, s);
    c == start || (st.journal != [] && c <= st.journal[|st.journal| - 1].globalSeq)
  }

  lemma BoundedKept(
    cel: (string, Entry) -> CelResult, reactions: seq<Reaction>, a: Store, b: Store, step: Step, r: Reaction,
    s: nat, start: int)
    requires Next(cel, reactions, a, b, step) && Ordered(a.journal) && r in reactions && s < Shards(r)
    requires CursorBounded(r, s, start, a)
    ensures CursorBounded(r, s, start, b) && Ordered(b.journal)
  {
    match step {
      case Appends =>
        if a.journal != [] { assert b.journal[|a.journal| - 1] == a.journal[|a.journal| - 1]; }
      case Dispatches =>
      case Passes(m, lost, _) =>
        PassMoves(cel, reactions, a, b, m, lost, r, s);
        MoveBounded(cel, a, b, m, lost, r, s, start);
    }
  }

  lemma PassMoves(
    cel: (string, Entry) -> CelResult, reactions: seq<Reaction>, a: Store, b: Store, m: int, lost: set<Lost>,
    r: Reaction, s: nat)
    requires Pass(cel, reactions, a, b, m, lost) && r in reactions && s < Shards(r)
    ensures b.journal == a.journal && CursorMoves(cel, r, Batch(a.journal, m), a, b, s, lost)
  {
  }

  lemma MoveBounded(
    cel: (string, Entry) -> CelResult, a: Store, b: Store, m: int, lost: set<Lost>, r: Reaction, s: nat, start: int)
    requires b.journal == a.journal && CursorMoves(cel, r, Batch(a.journal, m), a, b, s, lost)
    requires Ordered(a.journal) && CursorBounded(r, s, start, a)
    ensures CursorBounded(r, s, start, b)
  {
    AdvanceWithinJournal(r, s, CursorAt(a.cursors, r, s), a.journal, m);
  }

  lemma AdvanceWithinJournal(r: Reaction, s: nat, c: int, journal: seq<Entry>, m: int)
    requires Ordered(journal)
    ensures var c' := Advance(r, s, c, Batch(journal, m));
            c' == c || (journal != [] && c' <= journal[|journal| - 1].globalSeq)
  {
    var es := Batch(journal, m);
    var c' := Advance(r, s, c, es);
    AdvanceBounds(r, s, c, es);
    if c' != c {
      var j :| 0 <= j < |es| && ShardOf(r, es[j]) == s && es[j].globalSeq == c';
      BatchWithin(journal, m, j);
    }
  }

  lemma AppendKeeps(
    cel: (string, Entry) -> CelResult, reactions: seq<Reaction>, r: Reaction, s: nat, start: int, a: Store,
    b: Store, was: set<Lost>)
    requires Next(cel, reactions, a, b, Appends) && CursorBounded(r, s, start, a)
    requires ShardInv(cel, reactions, r, s, start, a, was)
    ensures ShardInv(cel, reactions, r, s, start, b, was)
  {
    var c := CursorAt(a.cursors, r, s);
    forall q | Has(b.tasks, r.id, s, q) ensures Due(cel, r, b.journal, start, s, q) {
      DueGrows(cel, r, a.journal, b.journal, start, s, q);
    }
    forall q | Due(cel, r, b.journal, start, s, q) && q <= c
      ensures Has(b.tasks, r.id, s, q) || Lost(r.id, s, q) in was
    {
      NewEntriesAreLater(cel, r, a.journal, b.journal, start, s, q, c);
    }
    forall q | Has(b.tasks, r.id, s, q) && q > c ensures Near(reactions, b, q) {
      AppendNear(reactions, a, b, q);
    }
  }

  lemma AppendNear(reactions: seq<Reaction>, a: Store, b: Store, q: int)
    requires a.journal <= b.journal && Ordered(b.journal) && b.cursors == a.cursors && Near(reactions, a, q)
    ensures Near(reactions, b, q)
  {
    var more := b.journal[|a.journal|..];
    assert b.journal == a.journal + more;
    forall m | IsMinCursor(reactions, b.cursors, m) ensures InSeqs(Batch(b.journal, m), q) {
      BatchGrows(a.journal, more, m, q);
    }
  }

  lemma DispatchKeepsKeys(a: Store, b: Store, id: string, s: nat, q: int)
    requires |b.tasks| == |a.tasks|
    requires forall i :: 0 <= i < |a.tasks| ==>
               RowFor(b.tasks[i], a.tasks[i].reaction, a.tasks[i].shard, a.tasks[i].sourceSeq)
    ensures Has(b.tasks, id, s, q) <==> Has(a.tasks, id, s, q)
  {
    if i :| 0 <= i < |a.tasks| && RowFor(a.tasks[i], id, s, q) { assert RowFor(b.tasks[i], id, s, q); }
    if i :| 0 <= i < |b.tasks| && RowFor(b.tasks[i], id, s, q) { assert RowFor(a.tasks[i], id, s, q); }
  }

  lemma DispatchKeeps(
    cel: (string, Entry) -> CelResult, reactions: seq<Reaction>, r: Reaction, s: nat, start: int, a: Store,
    b: Store, was: set<Lost>)
    requires Next(cel, reactions, a, b, Dispatches)
    requires ShardInv(cel, reactions, r, s, start, a, was)
    ensures ShardInv(cel, reactions, r, s, start, b, was)
  {
    forall q ensures Has(b.tasks, r.id, s, q) <==> Has(a.tasks, r.id, s, q) { DispatchKeepsKeys(a, b, r.id, s, q); }
    forall q | Has(b.tasks, r.id, s, q) && q > CursorAt(b.cursors, r, s) ensures Near(reactions, b, q) {
      assert Near(reactions, a, q);
    }
  }

  lemma StepKeeps(
    cel: (string, Entry) -> CelResult, reactions: seq<Reaction>, r: Reaction, s: nat, start: int,
    a: Store, b: Store, step: Step, was: set<Lost>)
    requires Next(cel, reactions, a, b, step) && Ordered(a.journal) && r in reactions && s < Shards(r) && Plain(r)
    requires CursorBounded(r, s, start, a) && ShardInv(cel, reactions, r, s, start, a, was)
    ensures ShardInv(cel, reactions, r, s, start, b, was + if step.Passes? then step.lost else {})
  {
    match step {
      case Appends =>
        AppendKeeps(cel, reactions, r, s, start, a, b, was);
        assert was + {} == was;
      case Dispatches =>
        DispatchKeeps(cel, reactions, r, s, start, a, b, was);
        assert was + {} == was;
      case Passes(m, lost, _) => PassKeeps(cel, reactions, r, s, start, a, b, m, lost, was);
    }
  }

  lemma {:induction false} RunKeeps(
    cel: (string, Entry) -> CelResult, reactions: seq<Reaction>, run: seq<Store>, steps: seq<Step>, n: nat,
    r: Reaction, s: nat)
    requires IsRun(cel, reactions, run, steps) && n < |run| && r in reactions && s < Shards(r) && Plain(r)
    ensures Ordered(run[n].journal) && CursorBounded(r, s, CursorAt(run[0].cursors, r, s), run[n])
    ensures ShardInv(cel, reactions, r, s, CursorAt(run[0].cursors, r, s), run[n], LostBy(steps, n))
  {
    var start := CursorAt(run[0].cursors, r, s);
    if n > 0 {
      RunKeeps(cel, reactions, run, steps, n - 1, r, s);
      assert Next(cel, reactions, run[n - 1], run[n - 1 + 1], steps[n - 1]);
      BoundedKept(cel, reactions, run[n - 1], run[n], steps[n - 1], r, s, start);
      StepKeeps(cel, reactions, r, s, start, run[n - 1], run[n], steps[n - 1], LostBy(steps, n - 1));
    }
  }

  lemma {:induction false} RowsStayUnique(
    cel: (string, Entry) -> CelResult, reactions: seq<Reaction>, run: seq<Store>, steps: seq<Step>, n: nat)
    requires IsRun(cel, reactions, run, steps) && n < |run|
    ensures UniqueRows(run[n].tasks)
  {
    if n > 0 {
      RowsStayUnique(cel, reactions, run, steps, n - 1);
      assert Next(cel, reactions, run[n - 1], run[n - 1 + 1], steps[n - 1]);
    }
  }

  // ---------------------------------------------------------------- what every run guarantees

  /** However passes fail or crash, appends and dispatchers interleave: a reaction without
      debouncing has, per shard, tasks for matching entries after its starting cursor only, at
      most one each, and one for every such entry up to its cursor whose creation the store
      did not refuse. */
  lemma NothingSkippedNothingRepeated(
    cel: (string, Entry) -> CelResult, reactions: seq<Reaction>, run: seq<Store>, steps: seq<Step>, n: nat,
    r: Reaction, s: nat, q: int)
    requires IsRun(cel, reactions, run, steps) && n < |run| && r in reactions && s < Shards(r) && Plain(r)
    ensures var st, start := run[n], CursorAt(run[0].cursors, r, s);
            && UniqueRows(st.tasks)
            && start <= CursorAt(st.cursors, r, s)
            && (Has(st.tasks, r.id, s, q) ==> Due(cel, r, st.journal, start, s, q))
            && (Due(cel, r, st.journal, start, s, q) && q <= CursorAt(st.cursors, r, s) ==>
                  Has(st.tasks, r.id, s, q) || Lost(r.id, s, q) in LostBy(steps, n))
  {
    RowsStayUnique(cel, reactions, run, steps, n);
    RunKeeps(cel, reactions, run, steps, n, r, s);
  }

  /** After a clean pass nothing is left over from interrupted ones: if the store refused no
      task, the tasks of a shard are exactly the matching entries between its starting and
      its current cursor. */
  lemma TasksAreExact(
    cel: (string, Entry) -> CelResult, reactions: seq<Reaction>, run: seq<Store>, steps: seq<Step>, n: nat,
    r: Reaction, s: nat, q: int)
    requires IsRun(cel, reactions, run, steps) && 0 < n < |run| && r in reactions && s < Shards(r) && Plain(r)
    requires steps[n - 1].Passes? && steps[n - 1].clean && LostBy(steps, n) == {}
    ensures Has(run[n].tasks, r.id, s, q) <==>
            && Due(cel, r, run[n].journal, CursorAt(run[0].cursors, r, s), s, q)
            && q <= CursorAt(run[n].cursors, r, s)
  {
    LastPassCatchesUp(cel, reactions, run, steps, n, r, s, q);
    RunKeeps(cel, reactions, run, steps, n, r, s);
  }

  lemma LastPassCatchesUp(
    cel: (string, Entry) -> CelResult, reactions: seq<Reaction>, run: seq<Store>, steps: seq<Step>, n: nat,
    r: Reaction, s: nat, q: int)
    requires IsRun(cel, reactions, run, steps) && 0 < n < |run| && r in reactions && s < Shards(r) && Plain(r)
    requires steps[n - 1].Passes? && steps[n - 1].clean
    ensures Has(run[n].tasks, r.id, s, q) ==> q <= CursorAt(run[n].cursors, r, s)
  {
    RunKeeps(cel, reactions, run, steps, n - 1, r, s);
    assert Next(cel, reactions, run[n - 1], run[n - 1 + 1], steps[n - 1]);
    CleanStepCatchesUp(cel, reactions, r, s, CursorAt(run[0].cursors, r, s), run[n - 1], run[n], steps[n - 1],
                       LostBy(steps, n - 1), q);
  }

  lemma CleanStepCatchesUp(
    cel: (string, Entry) -> CelResult, reactions: seq<Reaction>, r: Reaction, s: nat, start: int,
    a: Store, b: Store, step: Step, was: set<Lost>, q: int)
    requires Next(cel, reactions, a, b, step) && step.Passes? && step.clean
    requires Ordered(a.journal) && r in reactions && s < Shards(r) && Plain(r)
    requires ShardInv(cel, reactions, r, s, start, a, was)
    ensures Has(b.tasks, r.id, s, q) ==> q <= CursorAt(b.cursors, r, s)
  {
    if Has(b.tasks, r.id, s, q) {
      CleanPassCatchesUp(cel, reactions, r, s, start, a, b, step.m, was, q);
    }
  }

  /** After a clean pass no task is past its cursor. */
  lemma CleanPassCatchesUp(
    cel: (string, Entry) -> CelResult, reactions: seq<Reaction>, r: Reaction, s: nat, start: int,
    a: Store, b: Store, m: int, was: set<Lost>, q: int)
    requires CleanPass(cel, reactions, a, b, m) && Ordered(a.journal) && r in reactions && s < Shards(r) && Plain(r)
    requires ShardInv(cel, reactions, r, s, start, a, was) && Has(b.tasks, r.id, s, q)
    ensures q <= CursorAt(b.cursors, r, s)
  {
    var c, es := CursorAt(a.cursors, r, s), Batch(a.journal, m);
    if q > c {
      PassSound(cel, reactions, r, s, start, a, b, m, {}, was, q);
      EntryHasShard(cel, r, a.journal, m, start, s, q);
      AdvanceBounds(r, s, c, es);
    }
  }

  lemma EntryHasShard(
    cel: (string, Entry) -> CelResult, r: Reaction, journal: seq<Entry>, m: int, start: int, s: nat, q: int)
    requires Ordered(journal) && Due(cel, r, journal, start, s, q) && InSeqs(Batch(journal, m), q)
    ensures exists j ::
              && 0 <= j < |Batch(journal, m)| && ShardOf(r, Batch(journal, m)[j]) == s
              && Batch(journal, m)[j].globalSeq == q
  {
    var i :| 0 <= i < |journal| && journal[i].globalSeq == q && ShardOf(r, journal[i]) == s && q > start
      && Hit(cel, r, journal[i]);
    var j :| 0 <= j < |Batch(journal, m)| && Batch(journal, m)[j].globalSeq == q;
    BatchWithin(journal, m, j);
    assert Start(journal, m) + j == i;
  }
}
