/** Canonical journal snapshots: volatile fields stripped, run ids renamed, payloads
    compared by their stable text. */
module JournalSnapshot {
  import opened Common
  import opened CanonicalJson

  const STRIP_KEYS: set<string> := {
    "ts_ms", "started_at_ms", "ended_at_ms", "last_update_time_ms",
    "lease_expires_at_ms", "claim_expires_at_ms", "dispatch_claim_expires_at_ms",
    "next_dispatch_at_ms", "next_attempt_at_ms", "fire_at_ms",
    "lease_owner", "claimed_by", "dispatch_claimed_by",
    "trace_id", "span_id", "parent_span_id",
    "seq", "global_seq",
    "invocation_id"
  }

  // ---------------------------------------------------------------- renaming the run id

  predicate OccursAt(raw: string, s: string, i: nat) {
    i + |raw| <= |s| && s[i..i + |raw|] == raw
  }

  /** Replace the occurrences of `raw`, leftmost first, without overlap. */
  function ReplaceAll(raw: string, repl: string, s: string): string
    requires raw != ""
    decreases |s|
  {
    if s == "" then ""
    else if OccursAt(raw, s, 0) then repl + ReplaceAll(raw, repl, s[|raw|..])
    else [s[0]] + ReplaceAll(raw, repl, s[1..])
  }

  function Rename(raw: string, repl: string, s: string): string {
    if raw == "" then s else ReplaceAll(raw, repl, s)
  }

  /** A text with `id` between consecutive pieces. */
  function Fill(pieces: seq<string>, id: string): string
    requires pieces != []
  {
    if |pieces| == 1 then pieces[0] else pieces[0] + (id + Fill(pieces[1..], id))
  }

  /** In the filled text `id` starts nowhere before its intended places. */
  predicate OnlyIntended(pieces: seq<string>, id: string)
    requires pieces != []
  {
    && (forall i :: 0 <= i < |pieces[0]| ==> !OccursAt(id, Fill(pieces, id), i))
    && (|pieces| > 1 ==> OnlyIntended(pieces[1..], id))
  }

  lemma OccursInTail(raw: string, s: string, i: nat)
    requires s != ""
    ensures OccursAt(raw, s[1..], i) <==> OccursAt(raw, s, i + 1)
  {
    var n := |raw|;
    if i + n < |s| {
      var a, b := s[1..][i..i + n], s[i + 1..i + 1 + n];
      assert |a| == |b| && forall k :: 0 <= k < n ==> a[k] == s[i + 1 + k] == b[k];
      assert a == b;
    }
  }

  /** Text in which `raw` starts nowhere is copied. */
  lemma {:induction false} ReplaceSkips(raw: string, repl: string, p: string, t: string)
    requires raw != "" && forall i :: 0 <= i < |p| ==> !OccursAt(raw, p + t, i)
    ensures ReplaceAll(raw, repl, p + t) == p + ReplaceAll(raw, repl, t)
  {
    if p == "" {
      assert p + t == t;
    } else {
      var s := p + t;
      assert s[1..] == p[1..] + t;
      forall i | 0 <= i < |p[1..]| ensures !OccursAt(raw, p[1..] + t, i) {
        OccursInTail(raw, s, i);
      }
      ReplaceSkips(raw, repl, p[1..], t);
      ReplaceCopies(raw, repl, s);
      assert p == [p[0]] + p[1..];
    }
  }

  lemma ReplaceCopies(raw: string, repl: string, s: string)
    requires raw != "" && s != "" && !OccursAt(raw, s, 0)
    ensures ReplaceAll(raw, repl, s) == [s[0]] + ReplaceAll(raw, repl, s[1..])
  {
  }

  lemma ReplaceSwaps(raw: string, repl: string, t: string)
    requires raw != ""
    ensures ReplaceAll(raw, repl, raw + t) == repl + ReplaceAll(raw, repl, t)
  {
    assert OccursAt(raw, raw + t, 0) && (raw + t)[|raw|..] == t;
  }

  /** Renaming replaces exactly the intended places. */
  lemma {:induction false} RenameFills(pieces: seq<string>, id: string, repl: string)
    requires pieces != [] && id != "" && OnlyIntended(pieces, id)
    ensures Rename(id, repl, Fill(pieces, id)) == Fill(pieces, repl)
  {
    var s := Fill(pieces, id);
    assert forall i :: 0 <= i < |pieces[0]| ==> !OccursAt(id, s, i);
    if |pieces| == 1 {
      assert s == pieces[0] + "";
      ReplaceSkips(id, repl, pieces[0], "");
    } else {
      var tail := Fill(pieces[1..], id);
      assert s == pieces[0] + (id + tail);
      ReplaceSkips(id, repl, pieces[0], id + tail);
      ReplaceSwaps(id, repl, tail);
      RenameFills(pieces[1..], id, repl);
    }
  }

  /** Two runs that differ only in their id have the same renamed texts. */
  lemma RunIdIsErased(pieces: seq<string>, id: string, id': string, repl: string)
    requires pieces != [] && id != "" && id' != "" && OnlyIntended(pieces, id) && OnlyIntended(pieces, id')
    ensures Rename(id, repl, Fill(pieces, id)) == Rename(id', repl, Fill(pieces, id'))
  {
    RenameFills(pieces, id, repl);
    RenameFills(pieces, id', repl);
  }

  /** Text in which the raw id occurs nowhere is left alone. */
  lemma RenameLeavesAlone(raw: string, repl: string, s: string)
    requires forall i :: 0 <= i < |s| ==> !OccursAt(raw, s, i)
    ensures Rename(raw, repl, s) == s
  {
    if raw != "" {
      assert s + "" == s;
      ReplaceSkips(raw, repl, s, "");
    }
  }

  lemma RenameOfId(raw: string, repl: string)
    requires raw != ""
    ensures Rename(raw, repl, raw) == repl
  {
    assert raw + "" == raw;
    ReplaceSwaps(raw, repl, "");
  }

  // ---------------------------------------------------------------- canonical values

  function Canonical(v: Json, raw: string, repl: string): Json {
    match v
    case JObject(fields) => JObject(map k | k in fields && k !in STRIP_KEYS :: Canonical(fields[k], raw, repl))
    case JArray(items) => JArray(seq(|items|, i requires 0 <= i < |items| => Canonical(items[i], raw, repl)))
    case JString(text) => JString(Rename(raw, repl, text))
    case _ => v
  }

  /** Equal, except for stripped fields at any depth and for the run id within texts. */
  predicate Alike(v: Json, r: string, w: Json, r': string, repl: string)
    decreases v
  {
    match v
    case JObject(f) =>
      && w.JObject?
      && (forall k :: k in f && k !in STRIP_KEYS ==> k in w.fields && Alike(f[k], r, w.fields[k], r', repl))
      && (forall k :: k in w.fields && k !in STRIP_KEYS ==> k in f)
    case JArray(xs) =>
      && w.JArray? && |w.items| == |xs|
      && (forall i :: 0 <= i < |xs| ==> Alike(xs[i], r, w.items[i], r', repl))
    case JString(text) => w.JString? && Rename(r, repl, text) == Rename(r', repl, w.text)
    case _ => v == w
  }

  /** What the comparison conflates: the run's own id in one journal, and the canonical id
      written out in the other, whose own id does not occur in it. */
  lemma CanonicalIdConflated(r: string, r': string, repl: string)
    requires r != "" && r != repl && forall i :: 0 <= i < |repl| ==> !OccursAt(r', repl, i)
    ensures JString(r) != JString(repl) && Alike(JString(r), r, JString(repl), r', repl)
  {
    RenameOfId(r, repl);
    RenameLeavesAlone(r', repl, repl);
  }

  /** Filled texts are read back when the id starts only at its places: equal texts, equal pieces. */
  lemma {:induction false} FillInjective(a: seq<string>, b: seq<string>, id: string)
    requires a != [] && b != [] && id != "" && OnlyIntended(a, id) && OnlyIntended(b, id)
    requires Fill(a, id) == Fill(b, id)
    ensures a == b
  {
    var s := Fill(a, id);
    if |a| > 1 { PlaceAfterPiece(a, id); }
    if |b| > 1 { PlaceAfterPiece(b, id); }
    if |a| > 1 && |b| > 1 {
      assert |a[0]| == |b[0]|;
      SamePieces(a, b, id);
      FillInjective(a[1..], b[1..], id);
      assert a == [a[0]] + a[1..] && b == [b[0]] + b[1..];
    }
  }

  lemma PlaceAfterPiece(p: seq<string>, id: string)
    requires |p| > 1
    ensures OccursAt(id, Fill(p, id), |p[0]|)
  {
    var s := Fill(p, id);
    assert s == p[0] + (id + Fill(p[1..], id));
    assert s[|p[0]|..|p[0]| + |id|] == id;
  }

  lemma SamePieces(a: seq<string>, b: seq<string>, id: string)
    requires |a| > 1 && |b| > 1 && |a[0]| == |b[0]| && Fill(a, id) == Fill(b, id)
    ensures a[0] == b[0] && Fill(a[1..], id) == Fill(b[1..], id)
  {
    var n := |a[0]|;
    var x, y := a[0] + (id + Fill(a[1..], id)), b[0] + (id + Fill(b[1..], id));
    assert x[..n] == a[0] && y[..n] == b[0];
    assert x[n + |id|..] == Fill(a[1..], id) && y[n + |id|..] == Fill(b[1..], id);
  }

  /** Texts that mention the run's id compare equal exactly when they agree but for the id, if
      neither the ids nor the canonical one start anywhere else. */
  lemma FilledTextsAreCompared(a: seq<string>, r: string, b: seq<string>, r': string, repl: string)
    requires a != [] && b != [] && r != "" && r' != "" && repl != ""
    requires OnlyIntended(a, r) && OnlyIntended(b, r') && OnlyIntended(a, repl) && OnlyIntended(b, repl)
    ensures Alike(JString(Fill(a, r)), r, JString(Fill(b, r')), r', repl) <==> a == b
  {
    RenameFills(a, r, repl);
    RenameFills(b, r', repl);
    if Fill(a, repl) == Fill(b, repl) { FillInjective(a, b, repl); }
  }

  /** It conflates nothing else in texts that mention neither id. */
  lemma OtherTextsAreCompared(s: string, r: string, t: string, r': string, repl: string)
    requires (forall i :: 0 <= i < |s| ==> !OccursAt(r, s, i)) && (forall i :: 0 <= i < |t| ==> !OccursAt(r', t, i))
    ensures Alike(JString(s), r, JString(t), r', repl) <==> s == t
  {
    RenameLeavesAlone(r, repl, s);
    RenameLeavesAlone(r', repl, t);
  }

  lemma {:induction false} CanonicalWellFormed(v: Json, raw: string, repl: string)
    requires WellFormed(v)
    ensures WellFormed(Canonical(v, raw, repl))
  {
    match v {
      case JObject(fields) =>
        forall k | k in fields && k !in STRIP_KEYS ensures WellFormed(Canonical(fields[k], raw, repl)) {
          CanonicalWellFormed(fields[k], raw, repl);
        }
      case JArray(items) =>
        forall i | 0 <= i < |items| ensures WellFormed(Canonical(items[i], raw, repl)) {
          CanonicalWellFormed(items[i], raw, repl);
        }
      case _ =>
    }
  }

  /** Canonical values are equal exactly when the originals are alike. */
  lemma {:induction false} CanonicalIffAlike(v: Json, r: string, w: Json, r': string, repl: string)
    ensures Canonical(v, r, repl) == Canonical(w, r', repl) <==> Alike(v, r, w, r', repl)
  {
    var a, b := Canonical(v, r, repl), Canonical(w, r', repl);
    if v.JObject? && w.JObject? {
      forall k | k in v.fields && k in w.fields
        ensures Canonical(v.fields[k], r, repl) == Canonical(w.fields[k], r', repl)
           <==> Alike(v.fields[k], r, w.fields[k], r', repl)
      {
        CanonicalIffAlike(v.fields[k], r, w.fields[k], r', repl);
      }
      ObjectIffAlike(v, r, w, r', repl);
    } else if v.JArray? && w.JArray? && |v.items| == |w.items| {
      forall i | 0 <= i < |v.items|
        ensures Canonical(v.items[i], r, repl) == Canonical(w.items[i], r', repl)
           <==> Alike(v.items[i], r, w.items[i], r', repl)
      {
        CanonicalIffAlike(v.items[i], r, w.items[i], r', repl);
      }
      ArrayIffAlike(v, r, w, r', repl);
    } else if v.JArray? && w.JArray? {
      assert |a.items| != |b.items|;
    }
  }

  lemma ObjectIffAlike(v: Json, r: string, w: Json, r': string, repl: string)
    requires v.JObject? && w.JObject?
    requires forall k :: k in v.fields && k in w.fields ==>
               (Canonical(v.fields[k], r, repl) == Canonical(w.fields[k], r', repl)
                <==> Alike(v.fields[k], r, w.fields[k], r', repl))
    ensures Canonical(v, r, repl) == Canonical(w, r', repl) <==> Alike(v, r, w, r', repl)
  {
    var a, b := Canonical(v, r, repl).fields, Canonical(w, r', repl).fields;
    assert forall k :: k in a <==> k in v.fields && k !in STRIP_KEYS;
    assert forall k :: k in b <==> k in w.fields && k !in STRIP_KEYS;
    if Alike(v, r, w, r', repl) {
      assert a.Keys == b.Keys;
      assert a == b;
    }
  }

  lemma ArrayIffAlike(v: Json, r: string, w: Json, r': string, repl: string)
    requires v.JArray? && w.JArray? && |v.items| == |w.items|
    requires forall i :: 0 <= i < |v.items| ==>
               (Canonical(v.items[i], r, repl) == Canonical(w.items[i], r', repl)
                <==> Alike(v.items[i], r, w.items[i], r', repl))
    ensures Canonical(v, r, repl) == Canonical(w, r', repl) <==> Alike(v, r, w, r', repl)
  {
    var a, b := Canonical(v, r, repl).items, Canonical(w, r', repl).items;
    assert forall i :: 0 <= i < |a| ==> a[i] == Canonical(v.items[i], r, repl);
    assert forall i :: 0 <= i < |b| ==> b[i] == Canonical(w.items[i], r', repl);
  }

  // ---------------------------------------------------------------- snapshots

  datatype Entry = Entry(kind: string, payload: Json)
  datatype Line = Line(kind: string, payload: string)

  datatype Op = Differs | OnlyInB | OnlyInA
  datatype DiffEntry = DiffEntry(index: nat, op: Op, a: Option<Line>, b: Option<Line>)

  /** The lines of a run's journal. */
  function Lines(journal: seq<Entry>, runId: string, canonId: string): (lines: seq<Line>)
    ensures |lines| == |journal|
  {
    seq(|journal|, i requires 0 <= i < |journal| =>
      Line(journal[i].kind, StableEncode(Canonical(journal[i].payload, runId, canonId))))
  }

  method Equals(s: seq<Line>, o: seq<Line>) returns (r: bool)
    ensures r <==> s == o
  {
    if |s| != |o| {
      return false;
    }
    for i := 0 to |s|
      invariant s[..i] == o[..i]
    {
      if s[i] != o[i] {
        return false;
      }
    }
    return true;
  }

  function LineAt(s: seq<Line>, i: nat): Option<Line> {
    if i < |s| then Some(s[i]) else None
  }

  /** The difference at one position, if any. */
  function DiffAt(s: seq<Line>, o: seq<Line>, i: nat): seq<DiffEntry> {
    if i >= |s| && i < |o| then [DiffEntry(i, OnlyInB, None, Some(o[i]))]
    else if i < |s| && i >= |o| then [DiffEntry(i, OnlyInA, Some(s[i]), None)]
    else if i < |s| && i < |o| && s[i] != o[i] then [DiffEntry(i, Differs, Some(s[i]), Some(o[i]))]
    else []
  }

  /** The differences at the first `n` positions, in order. */
  function Diffs(s: seq<Line>, o: seq<Line>, n: nat): seq<DiffEntry> {
    if n == 0 then [] else Diffs(s, o, n - 1) + DiffAt(s, o, n - 1)
  }

  /** Exactly one entry for each position at which the snapshots differ. */
  method Diff(s: seq<Line>, o: seq<Line>) returns (out: seq<DiffEntry>)
    ensures out == [] <==> s == o
    ensures forall d :: d in out ==>
              && (d.op == OnlyInA ==> |o| <= d.index < |s| && d.a == Some(s[d.index]) && d.b == None)
              && (d.op == OnlyInB ==> |s| <= d.index < |o| && d.a == None && d.b == Some(o[d.index]))
              && (d.op == Differs ==>
                    && d.index < |s| && d.index < |o| && s[d.index] != o[d.index]
                    && d.a == Some(s[d.index]) && d.b == Some(o[d.index]))
    ensures forall i: nat :: LineAt(s, i) != LineAt(o, i) ==> exists d :: d in out && d.index == i
    ensures forall i, j :: 0 <= i < j < |out| ==> out[i].index < out[j].index
  {
    out := [];
    var n := if |o| > |s| then |o| else |s|;
    for i := 0 to n
      invariant out == Diffs(s, o, i)
    {
      var a, b := LineAt(s, i), LineAt(o, i);
      if a.None? {
        out := out + [DiffEntry(i, OnlyInB, None, b)];
      } else if b.None? {
        out := out + [DiffEntry(i, OnlyInA, a, None)];
      } else if a.value != b.value {
        out := out + [DiffEntry(i, Differs, a, b)];
      }
    }
    DiffsAreGenuine(s, o, n);
    DiffsAreOrdered(s, o, n);
    forall i: nat | LineAt(s, i) != LineAt(o, i) ensures exists d :: d in out && d.index == i {
      DiffsAreComplete(s, o, n, i);
    }
    if out == [] { EqualLines(s, o); } else { assert out[0] in out; }
  }

  lemma {:induction false} DiffsAreGenuine(s: seq<Line>, o: seq<Line>, n: nat)
    ensures forall d :: d in Diffs(s, o, n) ==>
              d.index < n && LineAt(s, d.index) != LineAt(o, d.index) && DiffAt(s, o, d.index) == [d]
  {
    if n > 0 { DiffsAreGenuine(s, o, n - 1); }
  }

  lemma {:induction false} DiffsAreOrdered(s: seq<Line>, o: seq<Line>, n: nat)
    ensures forall i, j :: 0 <= i < j < |Diffs(s, o, n)| ==> Diffs(s, o, n)[i].index < Diffs(s, o, n)[j].index
  {
    if n > 0 {
      DiffsAreOrdered(s, o, n - 1);
      DiffsAreGenuine(s, o, n - 1);
      var before := Diffs(s, o, n - 1);
      forall i | 0 <= i < |before| ensures before[i].index < n - 1 { assert before[i] in before; }
    }
  }

  lemma {:induction false} DiffsAreComplete(s: seq<Line>, o: seq<Line>, n: nat, i: nat)
    requires LineAt(s, i) != LineAt(o, i) && i < n
    ensures exists d :: d in Diffs(s, o, n) && d.index == i
  {
    if i < n - 1 {
      DiffsAreComplete(s, o, n - 1, i);
      var d :| d in Diffs(s, o, n - 1) && d.index == i;
      assert d in Diffs(s, o, n);
    } else {
      var d := DiffAt(s, o, i)[0];
      assert Diffs(s, o, n)[|Diffs(s, o, n)| - 1] == d;
    }
  }

  lemma EqualLines(s: seq<Line>, o: seq<Line>)
    requires forall i: nat :: LineAt(s, i) == LineAt(o, i)
    ensures s == o
  {
    assert LineAt(s, |s|) == LineAt(o, |s|);
    assert LineAt(s, |o|) == LineAt(o, |o|);
    forall i | 0 <= i < |s| && i < |o| ensures s[i] == o[i] { assert LineAt(s, i) == LineAt(o, i); }
  }

  /** The oracle: two snapshots are equal exactly when the journals agree entry by
      entry, up to stripped fields and the run id. */
  lemma SnapshotsDecideJournals(j: seq<Entry>, r: string, j': seq<Entry>, r': string, canonId: string)
    requires forall i :: 0 <= i < |j| ==> WellFormed(j[i].payload)
    requires forall i :: 0 <= i < |j'| ==> WellFormed(j'[i].payload)
    ensures Lines(j, r, canonId) == Lines(j', r', canonId) <==>
            && |j| == |j'|
            && forall i :: 0 <= i < |j| ==>
                 j[i].kind == j'[i].kind && Alike(j[i].payload, r, j'[i].payload, r', canonId)
  {
    var a, b := Lines(j, r, canonId), Lines(j', r', canonId);
    if |j| == |j'| {
      forall i | 0 <= i < |j|
        ensures a[i] == b[i] <==> j[i].kind == j'[i].kind && Alike(j[i].payload, r, j'[i].payload, r', canonId)
      {
        var v, w := Canonical(j[i].payload, r, canonId), Canonical(j'[i].payload, r', canonId);
        CanonicalWellFormed(j[i].payload, r, canonId);
        CanonicalWellFormed(j'[i].payload, r', canonId);
        EncodingDecidesEquality(v, w);
        CanonicalIffAlike(j[i].payload, r, j'[i].payload, r', canonId);
      }
      if forall i :: 0 <= i < |j| ==> j[i].kind == j'[i].kind && Alike(j[i].payload, r, j'[i].payload, r', canonId) {
        assert forall i :: 0 <= i < |a| ==> a[i] == b[i];
      }
    }
  }
}
