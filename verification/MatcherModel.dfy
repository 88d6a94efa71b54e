/** What the in-server matcher owes its reactions: journal, cursors, tasks, and the
    part of them that one pass reads and writes. */
module MatcherModel {
  import opened Patterns

  // ---------------------------------------------------------------- sharding

  const FNV_BASIS: nat := 0x811c9dc5
  const FNV_PRIME: nat := 0x01000193
  const TWO32: nat := 0x1_0000_0000

  /** Exclusive or of two bytes. */
  function XorByte(a: nat, b: bv8): (r: nat)
    requires a < 256
    ensures r < 256
  {
    ((a as bv8) ^ b) as nat
  }

  /** One round of FNV-1a: fold a byte into the low byte, then multiply, modulo 2^32. */
  function FnvRound(h: nat, b: bv8): (r: nat)
    ensures r < TWO32
  {
    (h / 256 * 256 + XorByte(h % 256, b)) * FNV_PRIME % TWO32
  }

  function Fnv1a(s: seq<bv8>): (h: nat)
    ensures h < TWO32
  {
    if s == [] then FNV_BASIS else FnvRound(Fnv1a(s[..|s| - 1]), s[|s| - 1])
  }

  /** The accumulator loop over the bytes of a run id. */
  method HashStr(s: seq<bv8>) returns (h: nat)
    ensures h == Fnv1a(s)
  {
    h := FNV_BASIS;
    for i := 0 to |s|
      invariant h == Fnv1a(s[..i])
    {
      assert s[..i + 1][..i] == s[..i];
      h := FnvRound(h, s[i]);
    }
    assert s[..|s|] == s;
  }

  /** The published 32-bit test vectors of the hash for "" and "a". */
  lemma HashVectors()
    ensures Fnv1a([]) == 0x811C9DC5 && Fnv1a([0x61]) == 0xE40C292C
  {
    assert [0x61 as bv8][..0] == [];
    assert (0xC5 as bv8) ^ 0x61 == 0xA4;
    assert XorByte(0xC5, 0x61) == 0xA4;
    assert FNV_BASIS % 256 == 0xC5;
    assert FnvRound(FNV_BASIS, 0x61) == (0x811C9D00 + 0xA4) * FNV_PRIME % TWO32;
  }

  // ---------------------------------------------------------------- data

  datatype Entry = Entry(globalSeq: int, runId: seq<bv8>, subject: string, payload: string)

  datatype HandlerKind = Agent | Task | Publish | Unspecified

  datatype Reaction = Reaction(
    id: string, pattern: string, predicateCel: string, kind: HandlerKind, debounceMs: int, numShards: int)

  datatype CelResult = True | False | Error

  datatype TaskStatus = Pending | Claimed | Done | Dlq

  datatype TaskRow = TaskRow(
    reaction: string, shard: nat, sourceSeq: int, subject: string, payload: string, status: TaskStatus,
    createdAtMs: int)

  datatype CursorKey = CursorKey(reaction: string, shard: nat)

  type Cursors = map<CursorKey, int>

  function Shards(r: Reaction): (n: nat)
    ensures n >= 1
  {
    if r.numShards > 1 then r.numShards else 1
  }

  function ShardOf(r: Reaction, e: Entry): (s: nat)
    ensures s < Shards(r)
  {
    Fnv1a(e.runId) % Shards(r)
  }

  function CursorAt(cursors: Cursors, r: Reaction, s: nat): int {
    if CursorKey(r.id, s) in cursors then cursors[CursorKey(r.id, s)] else 0
  }

  /** The journal is append-only and ordered; sequence numbers fit the store's integers. */
  predicate Ordered(journal: seq<Entry>) {
    && (forall i, j :: 0 <= i < j < |journal| ==> journal[i].globalSeq < journal[j].globalSeq)
    && (forall i :: 0 <= i < |journal| ==> 0 < journal[i].globalSeq < MAX_SEQ)
  }

  const MAX_SEQ: int := 0x7FFF_FFFF_FFFF_FFFF
  const BATCH: nat := 512

  /** How many leading entries are not after `from`, counting on from the first `p`. */
  function Skip(journal: seq<Entry>, from: int, p: nat): (n: nat)
    requires p <= |journal|
    ensures p <= n <= |journal|
    ensures forall i :: p <= i < n ==> journal[i].globalSeq <= from
    ensures n < |journal| ==> journal[n].globalSeq > from
    decreases |journal| - p
  {
    if p == |journal| || journal[p].globalSeq > from then p else Skip(journal, from, p + 1)
  }

  function Start(journal: seq<Entry>, from: int): (p: nat)
    ensures p <= |journal|
  {
    Skip(journal, from, 0)
  }

  function End(journal: seq<Entry>, from: int): (e: nat)
    ensures Start(journal, from) <= e <= |journal|
  {
    var p := Start(journal, from);
    if p + BATCH < |journal| then p + BATCH else |journal|
  }

  /** One batch: the first entries after a sequence number. */
  function Batch(journal: seq<Entry>, from: int): (es: seq<Entry>)
    ensures |es| == End(journal, from) - Start(journal, from)
  {
    journal[Start(journal, from)..End(journal, from)]
  }

  /** The predicate, an external interpreter, is a parameter; an error counts as no match. */
  predicate Hit(cel: (string, Entry) -> CelResult, r: Reaction, e: Entry) {
    MatchesSubject(r.pattern, e.subject) && (r.predicateCel == "" || cel(r.predicateCel, e) == True)
  }

  predicate MakesTasks(r: Reaction) {
    r.kind.Task? || r.kind.Publish?
  }

  predicate RowFor(t: TaskRow, id: string, shard: nat, q: int) {
    t.reaction == id && t.shard == shard && t.sourceSeq == q
  }

  predicate Has(tasks: seq<TaskRow>, id: string, shard: nat, q: int) {
    exists i :: 0 <= i < |tasks| && RowFor(tasks[i], id, shard, q)
  }

  /** The dedup key is unique. */
  predicate UniqueRows(tasks: seq<TaskRow>) {
    forall i, j :: 0 <= i < j < |tasks| ==>
      !RowFor(tasks[j], tasks[i].reaction, tasks[i].shard, tasks[i].sourceSeq)
  }

  predicate DistinctIds(reactions: seq<Reaction>) {
    forall i, j :: 0 <= i < j < |reactions| ==> reactions[i].id != reactions[j].id
  }

  // ---------------------------------------------------------------- one pass, reaction by reaction

  /** Where a shard's cursor ends up after `es`: the last entry of the shard, if later. */
  function Advance(r: Reaction, s: nat, c: int, es: seq<Entry>): (c': int)
    ensures c <= c'
  {
    if es == [] then c
    else
      var before := Advance(r, s, c, es[..|es| - 1]);
      var e := es[|es| - 1];
      if ShardOf(r, e) == s && e.globalSeq > before then e.globalSeq else before
  }

  /** An entry of `es` for which the reaction, at cursor `c` on its shard, must make a task. */
  ghost predicate Due(cel: (string, Entry) -> CelResult, r: Reaction, es: seq<Entry>, c: int, s: nat, q: int) {
    exists j :: 0 <= j < |es| && es[j].globalSeq == q && ShardOf(r, es[j]) == s && q > c && Hit(cel, r, es[j])
  }

  lemma {:induction false} AdvanceBounds(r: Reaction, s: nat, c: int, es: seq<Entry>)
    ensures forall j :: 0 <= j < |es| && ShardOf(r, es[j]) == s ==> es[j].globalSeq <= Advance(r, s, c, es)
    ensures Advance(r, s, c, es) == c
         || exists j :: 0 <= j < |es| && ShardOf(r, es[j]) == s && es[j].globalSeq == Advance(r, s, c, es)
  {
    if es != [] {
      var init := es[..|es| - 1];
      AdvanceBounds(r, s, c, init);
      var a := Advance(r, s, c, init);
      if a != c {
        var j :| 0 <= j < |init| && ShardOf(r, init[j]) == s && init[j].globalSeq == a;
        assert es[j] == init[j];
      }
      forall j | 0 <= j < |es| && ShardOf(r, es[j]) == s ensures es[j].globalSeq <= Advance(r, s, c, es) {
        if j < |init| { assert es[j] == init[j]; }
      }
    }
  }

  // ---------------------------------------------------------------- the minimum cursor

  /** `m` is the least cursor of any shard of any reaction. */
  ghost predicate IsMinCursor(reactions: seq<Reaction>, cursors: Cursors, m: int) {
    && (forall i, s :: 0 <= i < |reactions| && 0 <= s < Shards(reactions[i]) ==>
         m <= CursorAt(cursors, reactions[i], s))
    && (exists i, s :: 0 <= i < |reactions| && 0 <= s < Shards(reactions[i]) && m == CursorAt(cursors, reactions[i], s))
  }
}
