/** Does the matcher get anywhere?  With one shard per reaction every pass clears a
    batch; with several, one idle shard can hold all reactions back for good. */
module MatcherProgress {
  import opened MatcherModel
  import opened MatcherRuns

  /** The shard receives an entry of `es`. */
  ghost predicate Fed(r: Reaction, s: nat, es: seq<Entry>) {
    exists j :: 0 <= j < |es| && ShardOf(r, es[j]) == s
  }

  lemma UnfedStays(r: Reaction, s: nat, c: int, es: seq<Entry>)
    requires !Fed(r, s, es)
    ensures Advance(r, s, c, es) == c
  {
    AdvanceBounds(r, s, c, es);
  }

  lemma FedMoves(r: Reaction, s: nat, c: int, journal: seq<Entry>, m: int)
    requires Ordered(journal) && c <= m && Fed(r, s, Batch(journal, m))
    ensures Advance(r, s, c, Batch(journal, m)) > m
  {
    var es := Batch(journal, m);
    var j :| 0 <= j < |es| && ShardOf(r, es[j]) == s;
    AdvanceBounds(r, s, c, es);
    BatchWithin(journal, m, j);
  }

  lemma MinUnique(reactions: seq<Reaction>, cursors: Cursors, m: int, m': int)
    requires IsMinCursor(reactions, cursors, m) && IsMinCursor(reactions, cursors, m')
    ensures m == m'
  {
  }

  // ---------------------------------------------------------------- when a pass makes progress

  ghost predicate MinimumShardsFed(reactions: seq<Reaction>, a: Store, m: int) {
    forall r, s: nat :: r in reactions && s < Shards(r) && CursorAt(a.cursors, r, s) == m ==>
         Fed(r, s, Batch(a.journal, m))
  }

  /** A clean pass raises the minimum cursor exactly when every shard at the minimum
      receives an entry of the batch. */
  lemma MinimumRisesIff(
    cel: (string, Entry) -> CelResult, reactions: seq<Reaction>, a: Store, b: Store, m: int, m': int)
    requires CleanPass(cel, reactions, a, b, m) && Ordered(a.journal) && IsMinCursor(reactions, b.cursors, m')
    ensures m <= m'
    ensures m < m' <==> MinimumShardsFed(reactions, a, m)
  {
    var i, s :| 0 <= i < |reactions| && 0 <= s < Shards(reactions[i]) && m' == CursorAt(b.cursors, reactions[i], s);
    var r := reactions[i];
    assert r in reactions;
    MinBelow(reactions, a.cursors, m, r, s);
    if MinimumShardsFed(reactions, a, m) {
      if CursorAt(a.cursors, r, s) == m { FedMoves(r, s, m, a.journal, m); }
    } else {
      var r', s': nat :| r' in reactions && s' < Shards(r') && CursorAt(a.cursors, r', s') == m
        && !Fed(r', s', Batch(a.journal, m));
      UnfedStays(r', s', m, Batch(a.journal, m));
      MinBelow(reactions, b.cursors, m', r', s');
    }
  }

  // ---------------------------------------------------------------- an idle shard pins everyone

  /** Shard `s` of `r` is at the minimum and receives nothing of a full batch. */
  ghost predicate Stuck(reactions: seq<Reaction>, st: Store, m: int, r: Reaction, s: nat) {
    && Ordered(st.journal) && r in reactions && s < Shards(r)
    && IsMinCursor(reactions, st.cursors, m) && CursorAt(st.cursors, r, s) == m
    && |Batch(st.journal, m)| == BATCH && !Fed(r, s, Batch(st.journal, m))
  }

  lemma FullBatchIsFixed(a: seq<Entry>, b: seq<Entry>, m: int)
    requires a <= b && Ordered(b) && |Batch(a, m)| == BATCH
    ensures Batch(b, m) == Batch(a, m)
  {
    var more := b[|a|..];
    assert b == a + more;
    StartGrows(a, more, m);
    var p := Start(a, m);
    assert Batch(b, m) == b[p..p + BATCH] == a[p..p + BATCH];
  }

  lemma MinStays(
    cel: (string, Entry) -> CelResult, reactions: seq<Reaction>, a: Store, b: Store, step: Step, m: int,
    r: Reaction, s: nat)
    requires Next(cel, reactions, a, b, step) && IsMinCursor(reactions, a.cursors, m)
    requires r in reactions && s < Shards(r) && CursorAt(b.cursors, r, s) == m
    ensures IsMinCursor(reactions, b.cursors, m)
  {
    forall i, s': nat | 0 <= i < |reactions| && s' < Shards(reactions[i])
      ensures m <= CursorAt(b.cursors, reactions[i], s')
    {
      assert reactions[i] in reactions;
      CursorsNeverGoBack(cel, reactions, a, b, step, reactions[i], s');
    }
    var i :| 0 <= i < |reactions| && reactions[i] == r;
    assert m == CursorAt(b.cursors, reactions[i], s);
  }

  lemma StuckKept(
    cel: (string, Entry) -> CelResult, reactions: seq<Reaction>, a: Store, b: Store, step: Step, m: int,
    r: Reaction, s: nat)
    requires Next(cel, reactions, a, b, step) && Stuck(reactions, a, m, r, s)
    ensures Stuck(reactions, b, m, r, s) && Batch(b.journal, m) == Batch(a.journal, m)
  {
    if step.Passes? {
      MinUnique(reactions, a.cursors, m, step.m);
      assert CursorMoves(cel, r, Batch(a.journal, m), a, b, s, step.lost);
      UnfedStays(r, s, m, Batch(a.journal, m));
    } else if step.Appends? {
      FullBatchIsFixed(a.journal, b.journal, m);
    }
    MinStays(cel, reactions, a, b, step, m, r, s);
  }

  /** Once stuck, stuck forever: whatever passes, appends and dispatches follow, the
      minimum and the batch never change again. */
  lemma {:induction false} IdleShardPinsForever(
    cel: (string, Entry) -> CelResult, reactions: seq<Reaction>, run: seq<Store>, steps: seq<Step>, n: nat, k: nat,
    m: int, r: Reaction, s: nat)
    requires IsRun(cel, reactions, run, steps) && n <= k < |run| && Stuck(reactions, run[n], m, r, s)
    ensures Stuck(reactions, run[k], m, r, s) && Batch(run[k].journal, m) == Batch(run[n].journal, m)
  {
    if n < k {
      IdleShardPinsForever(cel, reactions, run, steps, n, k - 1, m, r, s);
      assert Next(cel, reactions, run[k - 1], run[k - 1 + 1], steps[k - 1]);
      StuckKept(cel, reactions, run[k - 1], run[k], steps[k - 1], m, r, s);
    }
  }

  /** From then on no reaction, of whatever kind, gets a task for anything past that batch. */
  lemma {:induction false} PinnedReactionsStarve(
    cel: (string, Entry) -> CelResult, reactions: seq<Reaction>, run: seq<Store>, steps: seq<Step>, n: nat, k: nat,
    m: int, r: Reaction, s: nat, r': Reaction, s': nat, q: int)
    requires IsRun(cel, reactions, run, steps) && n <= k < |run| && Stuck(reactions, run[n], m, r, s)
    requires r' in reactions
    requires Has(run[k].tasks, r'.id, s', q) && !Has(run[n].tasks, r'.id, s', q)
    ensures InSeqs(Batch(run[n].journal, m), q)
  {
    var a, b, step := run[k - 1], run[k], steps[k - 1];
    if Has(a.tasks, r'.id, s', q) {
      PinnedReactionsStarve(cel, reactions, run, steps, n, k - 1, m, r, s, r', s', q);
    } else {
      IdleShardPinsForever(cel, reactions, run, steps, n, k - 1, m, r, s);
      assert Next(cel, reactions, run[k - 1], run[k - 1 + 1], steps[k - 1]);
      NewTaskIsInBatch(cel, reactions, a, b, step, m, r', s', q);
    }
  }

  lemma NewTaskIsInBatch(
    cel: (string, Entry) -> CelResult, reactions: seq<Reaction>, a: Store, b: Store, step: Step, m: int,
    r: Reaction, s: nat, q: int)
    requires Next(cel, reactions, a, b, step) && IsMinCursor(reactions, a.cursors, m) && r in reactions
    requires Has(b.tasks, r.id, s, q) && !Has(a.tasks, r.id, s, q)
    ensures InSeqs(Batch(a.journal, m), q)
  {
    if step.Dispatches? {
      DispatchKeepsKeys(a, b, r.id, s, q);
    } else if step.Passes? {
      MinUnique(reactions, a.cursors, m, step.m);
      assert Folds(cel, r, Batch(a.journal, m), a, b, step.lost);
    }
  }

  /** Nor does any reaction get past it: each shard's cursor stays, or is an entry of that batch. */
  lemma {:induction false} PinnedCursors(
    cel: (string, Entry) -> CelResult, reactions: seq<Reaction>, run: seq<Store>, steps: seq<Step>, n: nat, k: nat,
    m: int, r: Reaction, s: nat, r': Reaction, s': nat)
    requires IsRun(cel, reactions, run, steps) && n <= k < |run| && Stuck(reactions, run[n], m, r, s)
    requires r' in reactions && s' < Shards(r')
    ensures var c := CursorAt(run[k].cursors, r', s');
            c == CursorAt(run[n].cursors, r', s') || InSeqs(Batch(run[n].journal, m), c)
  {
    if n < k {
      PinnedCursors(cel, reactions, run, steps, n, k - 1, m, r, s, r', s');
      IdleShardPinsForever(cel, reactions, run, steps, n, k - 1, m, r, s);
      assert Next(cel, reactions, run[k - 1], run[k - 1 + 1], steps[k - 1]);
      CursorStaysOrInBatch(cel, reactions, run[k - 1], run[k], steps[k - 1], m, r', s');
    }
  }

  lemma CursorStaysOrInBatch(
    cel: (string, Entry) -> CelResult, reactions: seq<Reaction>, a: Store, b: Store, step: Step, m: int,
    r: Reaction, s: nat)
    requires Next(cel, reactions, a, b, step) && IsMinCursor(reactions, a.cursors, m) && r in reactions && s < Shards(r)
    ensures var c := CursorAt(b.cursors, r, s); c == CursorAt(a.cursors, r, s) || InSeqs(Batch(a.journal, m), c)
  {
    if step.Passes? {
      MinUnique(reactions, a.cursors, m, step.m);
      assert CursorMoves(cel, r, Batch(a.journal, m), a, b, s, step.lost);
      AdvanceBounds(r, s, CursorAt(a.cursors, r, s), Batch(a.journal, m));
    }
  }

  // ---------------------------------------------------------------- a stuck state

  /** Entries 1, 2, ... n of a run with the empty id. */
  function SameRunJournal(n: nat, subject: string): (journal: seq<Entry>)
    ensures |journal| == n && forall i :: 0 <= i < n ==> journal[i] == Entry(i + 1, [], subject, "")
  {
    seq(n, i => Entry(i + 1, [], subject, ""))
  }

  /** It happens: the hash of one run id feeds one of two shards, and a batch of entries of
      that run leaves the other shard behind for good.  The state is the start of a run. */
  lemma IdleShardExample(cel: (string, Entry) -> CelResult, r: Reaction, subject: string)
    requires r.numShards == 2
    ensures var st := Store(SameRunJournal(BATCH, subject), map[], []);
            IsRun(cel, [r], [st], []) && Stuck([r], st, 0, r, 0)
  {
    var journal := SameRunJournal(BATCH, subject);
    var st := Store(journal, map[], []);
    assert Start(journal, 0) == 0 by { assert journal[0].globalSeq == 1; }
    var es := Batch(journal, 0);
    assert es == journal;
    forall j | 0 <= j < |es| ensures ShardOf(r, es[j]) == 1 { assert Fnv1a([]) == FNV_BASIS; }
    assert Shards([r][0]) == 2 && CursorAt(st.cursors, [r][0], 0) == 0;
  }

  // ---------------------------------------------------------------- one shard each: a batch per pass

  predicate SingleShards(reactions: seq<Reaction>) {
    forall i :: 0 <= i < |reactions| ==> Shards(reactions[i]) == 1
  }

  /** The entries no pass has reached yet. */
  function Outstanding(journal: seq<Entry>, m: int): nat {
    |journal| - Start(journal, m)
  }

  lemma LoneShardAdvance(r: Reaction, c: int, journal: seq<Entry>, m: int)
    requires Ordered(journal) && Shards(r) == 1 && Batch(journal, m) != []
    ensures var es := Batch(journal, m);
            var last := es[|es| - 1].globalSeq;
            Advance(r, 0, c, es) == if c > last then c else last
  {
    var es := Batch(journal, m);
    BatchOrdered(journal, m);
    AdvanceBounds(r, 0, c, es);
    assert ShardOf(r, es[|es| - 1]) == 0;
  }

  lemma CleanCursor(cel: (string, Entry) -> CelResult, reactions: seq<Reaction>, a: Store, b: Store, m: int, i: nat)
    requires CleanPass(cel, reactions, a, b, m) && SingleShards(reactions) && i < |reactions|
    ensures CursorAt(b.cursors, reactions[i], 0)
         == Advance(reactions[i], 0, CursorAt(a.cursors, reactions[i], 0), Batch(a.journal, m))
  {
    assert reactions[i] in reactions;
  }

  /** The reaction whose only cursor is the minimum. */
  lemma MinReaction(reactions: seq<Reaction>, cursors: Cursors, m: int) returns (i: nat)
    requires IsMinCursor(reactions, cursors, m) && SingleShards(reactions)
    ensures i < |reactions| && CursorAt(cursors, reactions[i], 0) == m
    ensures forall j :: 0 <= j < |reactions| ==> m <= CursorAt(cursors, reactions[j], 0)
  {
    var k, s :| 0 <= k < |reactions| && 0 <= s < Shards(reactions[k]) && m == CursorAt(cursors, reactions[k], s);
    i := k;
  }

  /** A clean pass lifts the minimum to the end of the batch. */
  lemma PassClearsBatch(
    cel: (string, Entry) -> CelResult, reactions: seq<Reaction>, a: Store, b: Store, m: int, m': int)
    requires CleanPass(cel, reactions, a, b, m) && Ordered(a.journal) && SingleShards(reactions)
    requires IsMinCursor(reactions, b.cursors, m')
    ensures Start(a.journal, m') == End(a.journal, m)
  {
    var i := MinReaction(reactions, a.cursors, m);
    var i' := MinReaction(reactions, b.cursors, m');
    CleanCursor(cel, reactions, a, b, m, i);
    CleanCursor(cel, reactions, a, b, m, i');
    NewMinimum(reactions[i], m, CursorAt(b.cursors, reactions[i], 0),
               reactions[i'], CursorAt(a.cursors, reactions[i'], 0), m', a.journal, m);
  }

  lemma NewMinimum(r: Reaction, c: int, d: int, r': Reaction, c': int, m': int, journal: seq<Entry>, m: int)
    requires Ordered(journal) && Shards(r) == 1 && Shards(r') == 1
    requires c == m && d == Advance(r, 0, c, Batch(journal, m))
    requires m <= c' && m' == Advance(r', 0, c', Batch(journal, m)) && m' <= d
    ensures Start(journal, m') == End(journal, m)
  {
    var es := Batch(journal, m);
    if es == [] {
      assert m' == m;
    } else {
      LoneShardAdvance(r, c, journal, m);
      LoneShardAdvance(r', c', journal, m);
      BatchWithin(journal, m, |es| - 1);
      StartAfter(journal, m', End(journal, m));
    }
  }

  lemma StartAfter(journal: seq<Entry>, m: int, e: nat)
    requires Ordered(journal) && 0 < e <= |journal| && journal[e - 1].globalSeq == m
    ensures Start(journal, m) == e
  {
    StartIsFirst(journal, m, e - 1);
    if e < |journal| { StartIsFirst(journal, m, e); }
  }

  /** n outstanding entries are drained in as many clean passes as n has batches: after k
      passes, n - 512 k are left, or none. */
  lemma {:induction false} DrainsInBatches(
    cel: (string, Entry) -> CelResult, reactions: seq<Reaction>, run: seq<Store>, mins: seq<int>, k: nat)
    requires |run| == |mins| && k < |run| && Ordered(run[0].journal) && SingleShards(reactions)
    requires forall i :: 0 <= i < |run| ==> IsMinCursor(reactions, run[i].cursors, mins[i])
    requires forall i :: 0 <= i < |run| - 1 ==> CleanPass(cel, reactions, run[i], run[i + 1], mins[i])
    ensures run[k].journal == run[0].journal
    ensures var n := Outstanding(run[0].journal, mins[0]);
            Outstanding(run[k].journal, mins[k]) == if n > 512 * k then n - 512 * k else 0
  {
    if k > 0 {
      DrainsInBatches(cel, reactions, run, mins, k - 1);
      assert CleanPass(cel, reactions, run[k - 1], run[k - 1 + 1], mins[k - 1]);
      PassClearsBatch(cel, reactions, run[k - 1], run[k], mins[k - 1], mins[k]);
    }
  }
}
