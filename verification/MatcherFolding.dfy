/** Reactions with debouncing: entries are folded into a pending task of their subject, and
    the newest entry of each subject is what must not be lost. */
module MatcherFolding {
  import opened MatcherModel
  import opened MatcherRuns
  import opened Matcher

  /** Every matching entry of the subject up to the shard's cursor is carried: there is a task
      for it or for a later entry, unless the store refused the entry's task. */
  ghost predicate FoldInv(
    cel: (string, Entry) -> CelResult, r: Reaction, x: string, s: nat, start: int, st: Store, lost: set<Lost>)
  {
    && SubjectsMatch(st.journal, st.tasks, r.id)
    && forall e :: e in st.journal && Owed(cel, r, x, s, start, st, e) ==>
         Carried(st.tasks, r.id, x, e.globalSeq) || Lost(r.id, s, e.globalSeq) in lost
  }

  predicate Owed(cel: (string, Entry) -> CelResult, r: Reaction, x: string, s: nat, start: int, st: Store, e: Entry) {
    e.subject == x && start < e.globalSeq <= CursorAt(st.cursors, r, s) && Hit(cel, r, e)
  }

  lemma SubjectsMatchGrows(a: seq<Entry>, b: seq<Entry>, tasks: seq<TaskRow>, id: string)
    requires a <= b && SubjectsMatch(a, tasks, id)
    ensures SubjectsMatch(b, tasks, id)
  {
    forall t | t in tasks && t.reaction == id ensures HasSource(b, t) {
      assert HasSource(a, t);
      var e :| e in a && e.globalSeq == t.sourceSeq && e.subject == t.subject;
      assert e in b;
    }
  }

  lemma AppendFolds(
    cel: (string, Entry) -> CelResult, reactions: seq<Reaction>, r: Reaction, x: string, s: nat, start: int,
    a: Store, b: Store, lost: set<Lost>)
    requires Next(cel, reactions, a, b, Appends) && CursorBounded(r, s, start, a)
    requires FoldInv(cel, r, x, s, start, a, lost)
    ensures FoldInv(cel, r, x, s, start, b, lost)
  {
    SubjectsMatchGrows(a.journal, b.journal, a.tasks, r.id);
    forall e | e in b.journal && Owed(cel, r, x, s, start, b, e)
      ensures Carried(b.tasks, r.id, x, e.globalSeq) || Lost(r.id, s, e.globalSeq) in lost
    {
      var i :| 0 <= i < |b.journal| && b.journal[i] == e;
      if a.journal != [] { assert b.journal[|a.journal| - 1] == a.journal[|a.journal| - 1]; }
      assert i < |a.journal| && a.journal[i] == e;
      assert Owed(cel, r, x, s, start, a, e);
    }
  }

  ghost predicate RowsKept(a: seq<TaskRow>, b: seq<TaskRow>) {
    && |b| == |a|
    && forall i :: 0 <= i < |a| ==>
         RowFor(b[i], a[i].reaction, a[i].shard, a[i].sourceSeq) && b[i].subject == a[i].subject
  }

  lemma KeptRowsCarry(a: seq<TaskRow>, b: seq<TaskRow>, id: string, x: string, q: int)
    requires RowsKept(a, b) && Carried(a, id, x, q)
    ensures Carried(b, id, x, q)
  {
    var t :| t in a && t.reaction == id && t.subject == x && t.sourceSeq >= q;
    var i :| 0 <= i < |a| && a[i] == t;
    assert RowFor(b[i], t.reaction, t.shard, t.sourceSeq) && b[i] in b;
  }

  lemma KeptRowsMatch(journal: seq<Entry>, a: seq<TaskRow>, b: seq<TaskRow>, id: string)
    requires RowsKept(a, b) && SubjectsMatch(journal, a, id)
    ensures SubjectsMatch(journal, b, id)
  {
    forall t | t in b && t.reaction == id ensures HasSource(journal, t) {
      var i :| 0 <= i < |b| && b[i] == t;
      assert RowFor(t, a[i].reaction, a[i].shard, a[i].sourceSeq);
      assert a[i] in a && HasSource(journal, a[i]);
    }
  }

  lemma DispatchFolds(
    cel: (string, Entry) -> CelResult, reactions: seq<Reaction>, r: Reaction, x: string, s: nat, start: int,
    a: Store, b: Store, lost: set<Lost>)
    requires Next(cel, reactions, a, b, Dispatches) && FoldInv(cel, r, x, s, start, a, lost)
    ensures FoldInv(cel, r, x, s, start, b, lost)
  {
    assert RowsKept(a.tasks, b.tasks);
    KeptRowsMatch(a.journal, a.tasks, b.tasks, r.id);
    forall e | e in b.journal && Owed(cel, r, x, s, start, b, e)
      ensures Carried(b.tasks, r.id, x, e.globalSeq) || Lost(r.id, s, e.globalSeq) in lost
    {
      assert Owed(cel, r, x, s, start, a, e);
      if Carried(a.tasks, r.id, x, e.globalSeq) {
        KeptRowsCarry(a.tasks, b.tasks, r.id, x, e.globalSeq);
      }
    }
  }

  lemma PassFolds(
    cel: (string, Entry) -> CelResult, reactions: seq<Reaction>, r: Reaction, x: string, s: nat, start: int,
    a: Store, b: Store, m: int, lost: set<Lost>, was: set<Lost>)
    requires Pass(cel, reactions, a, b, m, lost) && Ordered(a.journal)
    requires r in reactions && MakesTasks(r) && s < Shards(r) && OneShard(r, a.journal, x, s)
    requires FoldInv(cel, r, x, s, start, a, was)
    ensures FoldInv(cel, r, x, s, start, b, was + lost)
  {
    assert Folds(cel, r, Batch(a.journal, m), a, b, lost);
    assert SubjectFolds(cel, r, x, s, Batch(a.journal, m), a, b, lost);
    forall e | e in b.journal && Owed(cel, r, x, s, start, b, e)
      ensures Carried(b.tasks, r.id, x, e.globalSeq) || Lost(r.id, s, e.globalSeq) in was + lost
    {
      if e.globalSeq <= CursorAt(a.cursors, r, s) {
        assert Owed(cel, r, x, s, start, a, e);
      } else {
        MinBelow(reactions, a.cursors, m, r, s);
        assert CursorMoves(cel, r, Batch(a.journal, m), a, b, s, lost);
        MovedPastIsInBatch(r, s, CursorAt(a.cursors, r, s), a.journal, m, e);
      }
    }
  }

  /** An entry of its shard that the cursor moved past was in the batch. */
  lemma MovedPastIsInBatch(r: Reaction, s: nat, c: int, journal: seq<Entry>, m: int, e: Entry)
    requires Ordered(journal) && m <= c && e in journal && c < e.globalSeq <= Advance(r, s, c, Batch(journal, m))
    ensures e in Batch(journal, m)
  {
    var es := Batch(journal, m);
    AdvanceBounds(r, s, c, es);
    BatchOrdered(journal, m);
    var i :| 0 <= i < |journal| && journal[i] == e;
    var j := BatchCovers(journal, m, i);
    assert es[j] in es;
  }

  lemma StepFolds(
    cel: (string, Entry) -> CelResult, reactions: seq<Reaction>, r: Reaction, x: string, s: nat, start: int,
    a: Store, b: Store, step: Step, was: set<Lost>)
    requires Next(cel, reactions, a, b, step) && Ordered(a.journal)
    requires r in reactions && MakesTasks(r) && s < Shards(r) && OneShard(r, a.journal, x, s)
    requires CursorBounded(r, s, start, a) && FoldInv(cel, r, x, s, start, a, was)
    ensures FoldInv(cel, r, x, s, start, b, was + if step.Passes? then step.lost else {})
  {
    match step {
      case Appends =>
        AppendFolds(cel, reactions, r, x, s, start, a, b, was);
        assert was + {} == was;
      case Dispatches =>
        DispatchFolds(cel, reactions, r, x, s, start, a, b, was);
        assert was + {} == was;
      case Passes(m, lost, _) => PassFolds(cel, reactions, r, x, s, start, a, b, m, lost, was);
    }
  }

  lemma OneShardBefore(
    cel: (string, Entry) -> CelResult, reactions: seq<Reaction>, a: Store, b: Store, step: Step, r: Reaction, x: string,
    s: nat)
    requires Next(cel, reactions, a, b, step) && OneShard(r, b.journal, x, s)
    ensures OneShard(r, a.journal, x, s)
  {
    assert a.journal <= b.journal;
    assert forall e :: e in a.journal ==> e in b.journal;
  }

  ghost predicate FoldsAt(
    cel: (string, Entry) -> CelResult, r: Reaction, x: string, s: nat, start: int, st: Store, lost: set<Lost>)
  {
    Ordered(st.journal) && CursorBounded(r, s, start, st) && FoldInv(cel, r, x, s, start, st, lost)
  }

  lemma StepFoldsAt(
    cel: (string, Entry) -> CelResult, reactions: seq<Reaction>, r: Reaction, x: string, s: nat, start: int,
    a: Store, b: Store, step: Step, was: set<Lost>)
    requires Next(cel, reactions, a, b, step) && r in reactions && MakesTasks(r) && s < Shards(r)
    requires OneShard(r, b.journal, x, s) && FoldsAt(cel, r, x, s, start, a, was)
    ensures FoldsAt(cel, r, x, s, start, b, was + if step.Passes? then step.lost else {})
  {
    OneShardBefore(cel, reactions, a, b, step, r, x, s);
    BoundedKept(cel, reactions, a, b, step, r, s, start);
    StepFolds(cel, reactions, r, x, s, start, a, b, step, was);
  }

  lemma {:induction false} RunFolds(
    cel: (string, Entry) -> CelResult, reactions: seq<Reaction>, run: seq<Store>, steps: seq<Step>, n: nat,
    r: Reaction, x: string, s: nat)
    requires IsRun(cel, reactions, run, steps) && n < |run|
    requires r in reactions && MakesTasks(r) && s < Shards(r) && OneShard(r, run[n].journal, x, s)
    ensures FoldsAt(cel, r, x, s, CursorAt(run[0].cursors, r, s), run[n], LostBy(steps, n))
  {
    if n == 0 {
      NoTasksYet(run[0].journal, run[0].tasks, r.id);
    } else {
      assert Next(cel, reactions, run[n - 1], run[n - 1 + 1], steps[n - 1]);
      OneShardBefore(cel, reactions, run[n - 1], run[n], steps[n - 1], r, x, s);
      RunFolds(cel, reactions, run, steps, n - 1, r, x, s);
      StepFoldsAt(cel, reactions, r, x, s, CursorAt(run[0].cursors, r, s), run[n - 1], run[n], steps[n - 1],
                  LostBy(steps, n - 1));
    }
  }

  lemma NoTasksYet(journal: seq<Entry>, tasks: seq<TaskRow>, id: string)
    requires forall s: nat, q :: !Has(tasks, id, s, q)
    ensures SubjectsMatch(journal, tasks, id)
  {
    forall t | t in tasks ensures t.reaction != id {
      var i :| 0 <= i < |tasks| && tasks[i] == t;
      assert RowFor(tasks[i], t.reaction, t.shard, t.sourceSeq);
      assert Has(tasks, t.reaction, t.shard, t.sourceSeq);
    }
  }

  /** However passes fail or crash, for any reaction that makes tasks, debounced or not: if all
      entries of its subject fall on one shard, a matching entry up to the shard's cursor is
      carried by a task of its subject, the newest entry included, unless the store refused it. */
  lemma EveryEntryIsCarried(
    cel: (string, Entry) -> CelResult, reactions: seq<Reaction>, run: seq<Store>, steps: seq<Step>, n: nat,
    r: Reaction, e: Entry)
    requires IsRun(cel, reactions, run, steps) && n < |run| && r in reactions && MakesTasks(r)
    requires e in run[n].journal && Hit(cel, r, e)
    requires OneShard(r, run[n].journal, e.subject, ShardOf(r, e))
    requires var s := ShardOf(r, e); CursorAt(run[0].cursors, r, s) < e.globalSeq <= CursorAt(run[n].cursors, r, s)
    ensures Carried(run[n].tasks, r.id, e.subject, e.globalSeq)
         || Lost(r.id, ShardOf(r, e), e.globalSeq) in LostBy(steps, n)
  {
    var s := ShardOf(r, e);
    RunFolds(cel, reactions, run, steps, n, r, e.subject, s);
    assert Owed(cel, r, e.subject, s, CursorAt(run[0].cursors, r, s), run[n], e);
  }

  /** It does whenever the reaction has one shard, and for a subject that names its run. */
  lemma WhenOneShard(r: Reaction, journal: seq<Entry>, e: Entry)
    requires e in journal
    requires Shards(r) == 1 || forall f :: f in journal && f.subject == e.subject ==> f.runId == e.runId
    ensures OneShard(r, journal, e.subject, ShardOf(r, e))
  {
  }

  // ---------------------------------------------------------------- where this ends

  function FreshRow(id: string, shard: nat, e: Entry, now: int): TaskRow {
    TaskRow(id, shard, e.globalSeq, e.subject, e.payload, TaskStatus.Pending, now)
  }

  /** Two entries of one subject, both for the reaction, which debounces. */
  predicate Pair(cel: (string, Entry) -> CelResult, r: Reaction, e: Entry, f: Entry) {
    && 0 < e.globalSeq < f.globalSeq < MAX_SEQ && e.subject == f.subject
    && MakesTasks(r) && r.debounceMs > 0 && Hit(cel, r, e) && Hit(cel, r, f)
  }

  lemma PairBatch(e: Entry, f: Entry)
    requires 0 < e.globalSeq < f.globalSeq < MAX_SEQ
    ensures Ordered([e, f]) && Batch([e, f], 0) == [e, f]
  {
    assert Start([e, f], 0) == 0;
  }

  lemma {:induction false} PairAdvance(r: Reaction, s: nat, c: int, e: Entry, f: Entry)
    requires e.globalSeq < f.globalSeq
    ensures Advance(r, s, c, [e, f]) ==
            if ShardOf(r, f) == s && f.globalSeq > c then f.globalSeq
            else if ShardOf(r, e) == s && e.globalSeq > c then e.globalSeq else c
  {
    assert [e, f][..1] == [e] && [e][..0] == [];
    assert Advance(r, s, c, [e]) == if ShardOf(r, e) == s && e.globalSeq > c then e.globalSeq else c;
  }

  /** A task carries `q` at most if its source is no earlier. */
  lemma OneRow(t: TaskRow, x: string, q: int)
    ensures Carried([t], t.reaction, x, q) <==> t.subject == x && t.sourceSeq >= q
    ensures forall id, s: nat, p :: Has([t], id, s, p) <==> RowFor(t, id, s, p)
  {
    assert [t][0] == t;
  }

  /** A pass over two entries of one subject, one reaction: what is left to check of it. */
  lemma {:induction false} PairPass(
    cel: (string, Entry) -> CelResult, r: Reaction, a: Store, b: Store, e: Entry, f: Entry)
    requires Pair(cel, r, e, f) && a.journal == [e, f] && b.journal == [e, f]
    requires IsMinCursor([r], a.cursors, 0) && UniqueRows(b.tasks)
    requires FromBatch(r.id, [e, f], a.tasks, b.tasks) && SubjectsMatch([e, f], b.tasks, r.id)
    requires forall t :: t in a.tasks ==> t.subject == e.subject
    requires forall s: nat :: s < Shards(r) && OneShard(r, [e, f], e.subject, s) ==>
               SubjectFolds(cel, r, e.subject, s, [e, f], a, b, {})
    requires forall s: nat :: s < Shards(r) ==>
               var c, c' := CursorAt(a.cursors, r, s), CursorAt(b.cursors, r, s);
               c' == c || c' == Advance(r, s, c, [e, f])
    ensures Next(cel, [r], a, b, Passes(0, {}, false))
  {
    PairBatch(e, f);
    assert Folds(cel, r, [e, f], a, b, {}) by {
      forall x, s: nat | s < Shards(r) && OneShard(r, [e, f], x, s)
        ensures SubjectFolds(cel, r, x, s, [e, f], a, b, {})
      {
        if x != e.subject { assert forall q :: !Carried(a.tasks, r.id, x, q); }
      }
    }
    forall s: nat | s < Shards(r) ensures CursorMoves(cel, r, [e, f], a, b, s, {}) { }
  }

  /** With several shards the newest entry can be lost.  Two entries of one subject, the newer
      `f` on shard 0: the first pass makes a task for `e`, folds `f` into it, writes shard 0's
      cursor and crashes; the second handles `e` again and takes the task back. */
  lemma {:induction false} OlderShardTakesTaskBack(
    cel: (string, Entry) -> CelResult, r: Reaction, e: Entry, f: Entry, now: int)
    returns (run: seq<Store>, steps: seq<Step>)
    requires Pair(cel, r, e, f) && Shards(r) == 2 && ShardOf(r, e) == 1 && ShardOf(r, f) == 0
    ensures IsRun(cel, [r], run, steps) && |steps| == 2 && LostBy(steps, 2) == {}
    ensures run[1].tasks == [Folded(FreshRow(r.id, 1, e, now), f.globalSeq, f.payload)]
    ensures LatestPending(run[1].tasks, r.id, e.subject, 0) && !TakenByOther(run[1].tasks, 0, e.globalSeq)
    ensures run[2].tasks == [Folded(run[1].tasks[0], e.globalSeq, e.payload)]
    ensures f.globalSeq <= CursorAt(run[2].cursors, r, ShardOf(r, f))
    ensures Carried(run[1].tasks, r.id, f.subject, f.globalSeq)
    ensures !Carried(run[2].tasks, r.id, f.subject, f.globalSeq)
  {
    var folded := Folded(FreshRow(r.id, 1, e, now), f.globalSeq, f.payload);
    var back := Folded(folded, e.globalSeq, e.payload);
    var a := Store([e, f], map[], []);
    var b := Store([e, f], map[CursorKey(r.id, 0) := f.globalSeq], [folded]);
    var c := Store([e, f], map[CursorKey(r.id, 0) := f.globalSeq, CursorKey(r.id, 1) := e.globalSeq], [back]);
    FirstPass(cel, r, e, f, folded, a, b);
    SecondPass(cel, r, e, f, folded, back, b, c);
    PairBatch(e, f);
    run, steps := [a, b, c], [Passes(0, {}, false), Passes(0, {}, false)];
    NothingLost(steps, 2);
    OneRow(folded, f.subject, f.globalSeq);
    OneRow(back, f.subject, f.globalSeq);
  }

  lemma {:induction false} NothingLost(steps: seq<Step>, n: nat)
    requires n <= |steps| && forall i :: 0 <= i < n && steps[i].Passes? ==> steps[i].lost == {}
    ensures LostBy(steps, n) == {}
  {
    if n > 0 { NothingLost(steps, n - 1); }
  }

  lemma {:induction false} TwoShardMinimum(r: Reaction, cursors: Cursors)
    requires Shards(r) == 2 && CursorKey(r.id, 1) !in cursors && CursorAt(cursors, r, 0) >= 0
    ensures IsMinCursor([r], cursors, 0)
  {
    assert CursorAt(cursors, [r][0], 1) == 0;
  }

  lemma RowOfPair(e: Entry, f: Entry, t: TaskRow)
    requires t.subject == e.subject == f.subject && (t.sourceSeq == e.globalSeq || t.sourceSeq == f.globalSeq)
    ensures SubjectsMatch([e, f], [t], t.reaction) && InSeqs([e, f], t.sourceSeq)
  {
    assert [e, f][0] == e && [e, f][1] == f;
  }

  lemma TwoShardsApart(r: Reaction, e: Entry, f: Entry, s: nat)
    requires e.subject == f.subject && ShardOf(r, e) != ShardOf(r, f)
    ensures !OneShard(r, [e, f], e.subject, s)
  {
    assert e in [e, f] && f in [e, f];
  }

  lemma {:induction false} FirstPass(
    cel: (string, Entry) -> CelResult, r: Reaction, e: Entry, f: Entry, folded: TaskRow, a: Store, b: Store)
    requires Pair(cel, r, e, f) && Shards(r) == 2 && ShardOf(r, e) == 1 && ShardOf(r, f) == 0
    requires folded.reaction == r.id && folded.subject == e.subject && folded.sourceSeq == f.globalSeq
    requires a == Store([e, f], map[], [])
    requires b == Store([e, f], map[CursorKey(r.id, 0) := f.globalSeq], [folded])
    ensures Next(cel, [r], a, b, Passes(0, {}, false))
  {
    OneRow(folded, "", 0);
    RowOfPair(e, f, folded);
    TwoShardMinimum(r, a.cursors);
    forall s: nat ensures !OneShard(r, [e, f], e.subject, s) { TwoShardsApart(r, e, f, s); }
    forall s: nat ensures s == 0 ==> Advance(r, s, 0, [e, f]) == f.globalSeq { PairAdvance(r, s, 0, e, f); }
    PairPass(cel, r, a, b, e, f);
  }

  lemma {:induction false} SecondPass(
    cel: (string, Entry) -> CelResult, r: Reaction, e: Entry, f: Entry, folded: TaskRow, back: TaskRow, b: Store,
    c: Store)
    requires Pair(cel, r, e, f) && Shards(r) == 2 && ShardOf(r, e) == 1 && ShardOf(r, f) == 0
    requires folded.subject == e.subject && back.reaction == r.id && back.subject == e.subject
    requires back.sourceSeq == e.globalSeq
    requires b == Store([e, f], map[CursorKey(r.id, 0) := f.globalSeq], [folded])
    requires c == Store([e, f], map[CursorKey(r.id, 0) := f.globalSeq, CursorKey(r.id, 1) := e.globalSeq], [back])
    ensures Next(cel, [r], b, c, Passes(0, {}, false))
  {
    OneRow(back, "", 0);
    RowOfPair(e, f, back);
    TwoShardMinimum(r, b.cursors);
    forall s: nat ensures !OneShard(r, [e, f], e.subject, s) { TwoShardsApart(r, e, f, s); }
    PairAdvance(r, 1, 0, e, f);
    PairPass(cel, r, b, c, e, f);
  }

  /** There are such entries: the hash of the empty run id is odd, that of "a" even. */
  lemma PairOnTwoShards(r: Reaction, x: string)
    requires r.numShards == 2
    ensures ShardOf(r, Entry(1, [], x, "")) == 1 && ShardOf(r, Entry(2, [0x61], x, "")) == 0
  {
    FirstHashes();
  }

  lemma FirstHashes()
    ensures Fnv1a([]) % 2 == 1 && Fnv1a([0x61]) % 2 == 0
  {
    var one: seq<bv8> := [0x61];
    assert one[..0] == [] && one[0] == 0x61;
    assert Fnv1a(one) == FnvRound(FNV_BASIS, 0x61);
    EvenRound();
  }

  lemma EvenRound()
    ensures FnvRound(FNV_BASIS, 0x61) % 2 == 0
  {
    XorOfA();
    assert FNV_BASIS % 256 == 0xc5;
  }

  lemma XorOfA()
    ensures XorByte(0xc5, 0x61) == 0xa4
  {
    assert (0xc5 as bv8) ^ 0x61 == 0xa4;
  }

  /** With one shard a crash can repeat an entry: `e`'s task also took `f`, the cursor was not
      written, a dispatcher claimed the task, and the next pass makes a second one for `e`. */
  lemma {:induction false} CrashAfterFoldRepeats(
    cel: (string, Entry) -> CelResult, r: Reaction, e: Entry, f: Entry, now: int, later: int)
    returns (run: seq<Store>, steps: seq<Step>)
    requires Pair(cel, r, e, f) && Shards(r) == 1
    ensures IsRun(cel, [r], run, steps) && |steps| == 3 && LostBy(steps, 3) == {}
    ensures Carried(run[1].tasks, r.id, e.subject, e.globalSeq) && |run[1].tasks| == 1
    ensures run[2].tasks == [run[1].tasks[0].(status := Claimed)]
    ensures run[3].tasks == run[2].tasks + [FreshRow(r.id, 0, e, later)]
  {
    var folded := Folded(FreshRow(r.id, 0, e, now), f.globalSeq, f.payload);
    var a := Store([e, f], map[], []);
    var b := a.(tasks := [folded]);
    var c := a.(tasks := [folded.(status := Claimed)]);
    var d := Store([e, f], map[CursorKey(r.id, 0) := f.globalSeq], c.tasks + [FreshRow(r.id, 0, e, later)]);
    InterruptedPass(cel, r, e, f, folded, a, b);
    RepeatingPass(cel, r, e, f, c.tasks[0], FreshRow(r.id, 0, e, later), c, d);
    PairBatch(e, f);
    OneRow(folded, e.subject, e.globalSeq);
    assert Next(cel, [r], b, c, Dispatches);
    run, steps := [a, b, c, d], [Passes(0, {}, false), Dispatches, Passes(0, {}, false)];
    ThreeSteps(cel, r, a, b, c, d, Passes(0, {}, false));
  }

  lemma ThreeSteps(
    cel: (string, Entry) -> CelResult, r: Reaction, a: Store, b: Store, c: Store, d: Store, pass: Step)
    requires Ordered(a.journal) && a.tasks == [] && pass == Passes(0, {}, false)
    requires Next(cel, [r], a, b, pass) && Next(cel, [r], b, c, Dispatches) && Next(cel, [r], c, d, pass)
    ensures IsRun(cel, [r], [a, b, c, d], [pass, Dispatches, pass]) && LostBy([pass, Dispatches, pass], 3) == {}
  {
    var run, steps := [a, b, c, d], [pass, Dispatches, pass];
    NothingLost(steps, 3);
    forall i | 0 <= i < 3 ensures Next(cel, [r], run[i], run[i + 1], steps[i]) {
      assert i == 0 || i == 1 || i == 2;
    }
  }

  lemma {:induction false} OneShardMinimum(r: Reaction)
    requires Shards(r) == 1
    ensures IsMinCursor([r], map[], 0)
  {
    var none: Cursors := map[];
    assert CursorAt(none, [r][0], 0) == 0;
  }

  lemma {:induction false} InterruptedPass(
    cel: (string, Entry) -> CelResult, r: Reaction, e: Entry, f: Entry, folded: TaskRow, a: Store, b: Store)
    requires Pair(cel, r, e, f) && Shards(r) == 1
    requires folded.reaction == r.id && folded.subject == e.subject && folded.sourceSeq == f.globalSeq
    requires a == Store([e, f], map[], []) && b == Store([e, f], map[], [folded])
    ensures Next(cel, [r], a, b, Passes(0, {}, false))
  {
    OneRow(folded, "", 0);
    RowOfPair(e, f, folded);
    OneShardMinimum(r);
    PairPass(cel, r, a, b, e, f);
  }

  lemma {:induction false} RepeatingPass(
    cel: (string, Entry) -> CelResult, r: Reaction, e: Entry, f: Entry, t: TaskRow, u: TaskRow, c: Store, d: Store)
    requires Pair(cel, r, e, f) && Shards(r) == 1
    requires t.reaction == r.id && t.shard == 0 && t.subject == e.subject && t.sourceSeq == f.globalSeq
    requires u.reaction == r.id && u.shard == 0 && u.subject == e.subject && u.sourceSeq == e.globalSeq
    requires c == Store([e, f], map[], [t]) && d == Store([e, f], map[CursorKey(r.id, 0) := f.globalSeq], [t, u])
    ensures Next(cel, [r], c, d, Passes(0, {}, false))
  {
    OneShardMinimum(r);
    RowOfPair(e, f, t);
    RowOfPair(e, f, u);
    assert t in [t, u] && forall v :: v in [t, u] <==> v == t || v == u;
    forall s: nat, q | Has([t, u], r.id, s, q) ensures InSeqs([e, f], q) { }
    assert SubjectsMatch([e, f], [t, u], r.id) by {
      assert t in [t] && u in [u] && HasSource([e, f], t) && HasSource([e, f], u);
    }
    PairAdvance(r, 0, 0, e, f);
    PairPass(cel, r, c, d, e, f);
  }
}
