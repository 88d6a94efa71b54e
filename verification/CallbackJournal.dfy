/** The agent-framework plugin that journals tool calls: each callback runs under a
    mutex, but callbacks of concurrent calls interleave between the critical sections. */
module CallbackJournal {
  import opened Common
  import opened Segments
  import opened Decimals

  // ---------------------------------------------------------------- the plugin's maps

  datatype CallKey = CallKey(inv: string, decision: int, tool: string)

  datatype Plugin = Plugin(
    dnext: map<string, int>, dlast: map<string, int>, tcount: map<CallKey, nat>, keys: map<string, string>)

  const FRESH := Plugin(map[], map[], map[], map[])

  function Decision(p: Plugin, inv: string): int {
    if inv in p.dlast then p.dlast[inv] else 0
  }

  function Count(p: Plugin, ck: CallKey): nat {
    if ck in p.tcount then p.tcount[ck] else 0
  }

  function Keyed(p: Plugin, inv: string, tool: string): CallKey {
    CallKey(inv, Decision(p, inv), tool)
  }

  function StateKey(inv: string, tool: string, index: nat): string {
    "k:" + inv + ":" + tool + ":" + Decimal(index)
  }

  function FcKey(fcid: string): string {
    "fc:" + fcid
  }

  function Started(p: Plugin, inv: string): Plugin {
    p.(dnext := p.dnext[inv := 1], dlast := p.dlast[inv := 0])
  }

  function Counted(p: Plugin, inv: string, tool: string): Plugin {
    var ck := Keyed(p, inv, tool);
    p.(tcount := p.tcount[ck := Count(p, ck) + 1])
  }

  function Stashed(p: Plugin, slot: string, key: string): Plugin {
    p.(keys := p.keys[slot := key])
  }

  /** By function-call id if it was stashed, else the most recent call of the tool. */
  function Lookup(p: Plugin, inv: string, tool: string, fcid: string): string {
    if fcid != "" && FcKey(fcid) in p.keys then p.keys[FcKey(fcid)]
    else
      var n := Count(p, Keyed(p, inv, tool));
      if n == 0 then ""
      else
        var slot := StateKey(inv, tool, n - 1);
        if slot in p.keys then p.keys[slot] else ""
  }

  /** The key a call journals under, unless its tool declares its own. */
  function DerivedKey(inv: string, decision: int, tool: string, index: nat): string {
    inv + "/decision-" + Decimal(decision) + "/" + tool + "/" + Decimal(index)
  }

  function EffectKey(custom: string, ck: CallKey, index: nat): string {
    if custom != "" then custom else DerivedKey(ck.inv, ck.decision, ck.tool, index)
  }

  /** The callbacks' critical sections, on the plugin's own fields. */
  class TapePlugin {
    var dnext: map<string, int>
    var dlast: map<string, int>
    var tcount: map<CallKey, nat>
    var keys: map<string, string>

    ghost function Value(): Plugin
      reads this
    {
      Plugin(dnext, dlast, tcount, keys)
    }

    constructor ()
      ensures Value() == FRESH
    {
      dnext, dlast, tcount, keys := map[], map[], map[], map[];
    }

    method BeforeRun(inv: string)
      modifies this`dnext, this`dlast
      ensures Value() == Started(old(Value()), inv)
      ensures dnext == old(dnext)[inv := 1] && dlast == old(dlast)[inv := 0]
    {
      dnext := dnext[inv := 1];
      dlast := dlast[inv := 0];
    }

    /** The first critical section of before-tool: take the next call index. */
    method CountCall(inv: string, tool: string) returns (decision: int, callIndex: nat)
      modifies this`tcount
      ensures Value() == Counted(old(Value()), inv, tool)
      ensures CallKey(inv, decision, tool) == Keyed(old(Value()), inv, tool)
      ensures callIndex == Count(old(Value()), Keyed(old(Value()), inv, tool))
    {
      decision := if inv in dlast then dlast[inv] else 0;
      var ck := CallKey(inv, decision, tool);
      callIndex := if ck in tcount then tcount[ck] else 0;
      tcount := tcount[ck := callIndex + 1];
    }

    /** The later critical sections: stash the journaled key under a slot. */
    method Stash(slot: string, key: string)
      modifies this`keys
      ensures Value() == Stashed(old(Value()), slot, key)
    {
      keys := keys[slot := key];
    }

    method LookupKey(inv: string, tool: string, fcid: string) returns (key: string)
      ensures key == Lookup(Value(), inv, tool, fcid)
    {
      if fcid != "" && "fc:" + fcid in keys {
        return keys["fc:" + fcid];
      }
      var decision := if inv in dlast then dlast[inv] else 0;
      var ck := CallKey(inv, decision, tool);
      var n := if ck in tcount then tcount[ck] else 0;
      if n == 0 {
        return "";
      }
      var slot := StateKey(inv, tool, n - 1);
      return if slot in keys then keys[slot] else "";
    }
  }

  // ---------------------------------------------------------------- interleaved calls

  /** A call of an inline tool; `custom` is the key its tool declares, or "" for none. */
  datatype Call = Call(inv: string, tool: string, custom: string)

  /** Where a call of an inline tool stands between its callbacks. */
  datatype Stage =
    | TookIndex(ck: CallKey, index: nat)
    | Began(index: nat, key: string, found: EffectStatus)
    | StashedOnce(key: string, found: EffectStatus)
    | Admitted(key: string)
    | Ran(key: string)
    | Over

  /** The call is between its intent and its completion. */
  predicate Holding(st: Stage) {
    st.Began? || st.StashedOnce? || st.Admitted? || st.Ran?
  }

  predicate Holds(st: Stage, key: string) {
    Holding(st) && st.key == key
  }

  /** Calls are named by their function-call id.  `log` lists the calls in the order in
      which they took their index, `index` what they took and `journaled` the key each began
      its effect under; `bodies` and `crashes` count, per key, how often a tool body ran and
      how often a crash hit a call between its body and its completion. */
  datatype System = System(
    plugin: Plugin, calls: map<string, Call>, stages: map<string, Stage>, ledger: map<string, EffectStatus>,
    log: seq<string>, index: map<string, nat>, journaled: map<string, string>,
    bodies: map<string, nat>, crashes: map<string, nat>)

  function Tally(m: map<string, nat>, key: string): nat {
    if key in m then m[key] else 0
  }

  datatype Step =
    | RunStarts(inv: string)
    | TakesIndex(fcid: string, call: Call)
    | Begins(fcid: string)
    | StashesState(fcid: string)
    | StashesCall(fcid: string)
    | RunsBody(fcid: string)
    | Completes(fcid: string, status: EffectStatus)
    | Crash

  predicate At(s: System, fcid: string) {
    fcid in s.stages && fcid in s.calls
  }

  predicate Enabled(s: System, step: Step) {
    match step
    case RunStarts(_) => true
    // ids are unique and not empty
    case TakesIndex(fcid, _) => fcid != "" && fcid !in s.calls && fcid !in s.stages
    case Begins(fcid) => At(s, fcid) && s.stages[fcid].TookIndex?
    case StashesState(fcid) => At(s, fcid) && s.stages[fcid].Began?
    case StashesCall(fcid) => At(s, fcid) && s.stages[fcid].StashedOnce?
    case RunsBody(fcid) => At(s, fcid) && s.stages[fcid].Admitted?
    case Completes(fcid, status) => At(s, fcid) && s.stages[fcid].Ran? && status != Pending
    case Crash => true
  }

  function Move(s: System, fcid: string, st: Stage): System {
    s.(stages := s.stages[fcid := st])
  }

  /** The keys of the calls whose body a crash cuts off from its completion. */
  function Interrupted(s: System): set<string> {
    set f | f in s.stages && s.stages[f].Ran? :: s.stages[f].key
  }

  function Apply(s: System, step: Step): System
    requires Enabled(s, step)
  {
    match step
    case RunStarts(inv) => s.(plugin := Started(s.plugin, inv))
    case TakesIndex(fcid, c) =>
      var ck := Keyed(s.plugin, c.inv, c.tool);
      Move(s, fcid, TookIndex(ck, Count(s.plugin, ck)))
        .(plugin := Counted(s.plugin, c.inv, c.tool), calls := s.calls[fcid := c],
          log := s.log + [fcid], index := s.index[fcid := Count(s.plugin, ck)])
    case Begins(fcid) =>
      var st := s.stages[fcid];
      var key := EffectKey(s.calls[fcid].custom, st.ck, st.index);
      var ledger := if key in s.ledger then s.ledger else s.ledger[key := Pending];
      Move(s, fcid, Began(st.index, key, ledger[key])).(ledger := ledger, journaled := s.journaled[fcid := key])
    case StashesState(fcid) =>
      var st, c := s.stages[fcid], s.calls[fcid];
      Move(s, fcid, StashedOnce(st.key, st.found))
        .(plugin := Stashed(s.plugin, StateKey(c.inv, c.tool, st.index), st.key))
    case StashesCall(fcid) =>
      var st := s.stages[fcid];
      // a row that is no longer PENDING is replayed without running the body
      Move(s, fcid, if st.found == Pending then Admitted(st.key) else Over)
        .(plugin := Stashed(s.plugin, FcKey(fcid), st.key))
    case RunsBody(fcid) =>
      var key := s.stages[fcid].key;
      Move(s, fcid, Ran(key)).(bodies := s.bodies[key := Tally(s.bodies, key) + 1])
    case Completes(fcid, status) =>
      var c := s.calls[fcid];
      var key := Lookup(s.plugin, c.inv, c.tool, fcid);
      Move(s, fcid, Over)
        .(ledger := if key in s.ledger && s.ledger[key] == Pending then s.ledger[key := status] else s.ledger)
    case Crash =>
      // the next drive starts with a fresh plugin and fresh ids; the ledger is durable
      s.(plugin := FRESH, calls := map[], stages := map[], log := [], index := map[], journaled := map[],
         crashes := map k | k in s.crashes.Keys + Interrupted(s) ::
           Tally(s.crashes, k) + if k in Interrupted(s) then 1 else 0)
  }

  predicate Initial(s: System) {
    && s.plugin == FRESH && s.calls == map[] && s.stages == map[] && s.log == [] && s.index == map[]
    && s.journaled == map[] && s.bodies == map[] && s.crashes == map[]
  }

  ghost predicate IsRun(run: seq<System>, steps: seq<Step>) {
    && |run| == |steps| + 1 && Initial(run[0])
    && forall i :: 0 <= i < |steps| ==> Enabled(run[i], steps[i]) && run[i + 1] == Apply(run[i], steps[i])
  }

  // ---------------------------------------------------------------- routing

  lemma SlotsApart(f: string, g: string, inv: string, tool: string, n: nat)
    ensures FcKey(f) == FcKey(g) <==> f == g
    ensures FcKey(f) != StateKey(inv, tool, n)
  {
    assert FcKey(f)[3..] == f && FcKey(g)[3..] == g;
    assert FcKey(f)[0] == 'f' && StateKey(inv, tool, n)[0] == 'k';
  }

  predicate Routed(p: Plugin, fcid: string, key: string) {
    FcKey(fcid) in p.keys && p.keys[FcKey(fcid)] == key
  }

  /** Every admitted call finds, under its own id, the key it journaled. */
  ghost predicate RouteInv(s: System) {
    forall f :: f in s.stages && (s.stages[f].Admitted? || s.stages[f].Ran?) ==>
      f != "" && Routed(s.plugin, f, s.stages[f].key)
  }

  ghost predicate Named(s: System) {
    forall f :: f in s.stages ==> f != ""
  }

  lemma RouteKept(s: System, step: Step)
    requires RouteInv(s) && Named(s) && Enabled(s, step)
    ensures RouteInv(Apply(s, step)) && Named(Apply(s, step))
  {
    var t := Apply(s, step);
    forall f | f in t.stages && (t.stages[f].Admitted? || t.stages[f].Ran?)
      ensures Routed(t.plugin, f, t.stages[f].key)
    {
      match step {
        case StashesState(g) => SlotsApart(f, g, s.calls[g].inv, s.calls[g].tool, s.stages[g].index);
        case StashesCall(g) => SlotsApart(f, g, "", "", 0);
        case _ =>
      }
    }
  }

  // ---------------------------------------------------------------- indices

  /** How many of the calls in the log are calls of the tool in the invocation. */
  function CountIn(log: seq<string>, calls: map<string, Call>, inv: string, tool: string): nat {
    if log == [] then 0
    else
      var f := log[|log| - 1];
      CountIn(log[..|log| - 1], calls, inv, tool)
      + if f in calls && calls[f].inv == inv && calls[f].tool == tool then 1 else 0
  }

  lemma {:induction false} CountInIgnores(
    log: seq<string>, calls: map<string, Call>, f: string, c: Call, inv: string, tool: string)
    requires f !in log
    ensures CountIn(log, calls[f := c], inv, tool) == CountIn(log, calls, inv, tool)
  {
    if log != [] {
      assert log[|log| - 1] in log && f !in log[..|log| - 1];
      CountInIgnores(log[..|log| - 1], calls, f, c, inv, tool);
    }
  }

  predicate ZeroDecisions(s: System) {
    forall inv :: inv in s.plugin.dlast ==> s.plugin.dlast[inv] == 0
  }

  /** Counters count the log, and an index is a rank. */
  ghost predicate IndexInv(s: System) {
    && ZeroDecisions(s)
    && (forall f :: f in s.log ==> f in s.calls && f in s.index)
    && (forall inv, tool :: Count(s.plugin, CallKey(inv, 0, tool)) == CountIn(s.log, s.calls, inv, tool))
    && (forall j :: 0 <= j < |s.log| ==> RankedAt(s, j))
  }

  predicate RankedAt(s: System, j: nat)
    requires j < |s.log| && s.log[j] in s.calls && s.log[j] in s.index
  {
    var c := s.calls[s.log[j]];
    s.index[s.log[j]] == CountIn(s.log[..j], s.calls, c.inv, c.tool)
  }

  lemma IndexKeptByTaking(s: System, fcid: string, c: Call)
    requires IndexInv(s) && Enabled(s, TakesIndex(fcid, c))
    ensures IndexInv(Apply(s, TakesIndex(fcid, c)))
  {
    var t := Apply(s, TakesIndex(fcid, c));
    forall inv, tool ensures Count(t.plugin, CallKey(inv, 0, tool)) == CountIn(t.log, t.calls, inv, tool) {
      CountKept(s, fcid, c, inv, tool);
    }
    forall f | f in t.log ensures f in t.calls && f in t.index { assert f == fcid || f in s.log; }
    forall j | 0 <= j < |t.log| ensures RankedAt(t, j) {
      RankKept(s, fcid, c, j);
    }
  }

  lemma CountKept(s: System, fcid: string, c: Call, inv: string, tool: string)
    requires IndexInv(s) && Enabled(s, TakesIndex(fcid, c))
    ensures var t := Apply(s, TakesIndex(fcid, c));
            Count(t.plugin, CallKey(inv, 0, tool)) == CountIn(t.log, t.calls, inv, tool)
  {
    var t := Apply(s, TakesIndex(fcid, c));
    assert t.log[..|t.log| - 1] == s.log && fcid !in s.log;
    assert Keyed(s.plugin, c.inv, c.tool) == CallKey(c.inv, 0, c.tool);
    assert Count(s.plugin, CallKey(inv, 0, tool)) == CountIn(s.log, s.calls, inv, tool);
    CountInIgnores(s.log, s.calls, fcid, c, inv, tool);
  }

  lemma RankKept(s: System, fcid: string, c: Call, j: nat)
    requires IndexInv(s) && Enabled(s, TakesIndex(fcid, c)) && j <= |s.log|
    ensures var t := Apply(s, TakesIndex(fcid, c));
            t.log[j] in t.calls && t.log[j] in t.index && RankedAt(t, j)
  {
    var t := Apply(s, TakesIndex(fcid, c));
    assert t.log[..j] == s.log[..j] && fcid !in s.log[..j];
    if j < |s.log| {
      assert s.log[j] in s.log && RankedAt(s, j);
      CountInIgnores(s.log[..j], s.calls, fcid, c, s.calls[s.log[j]].inv, s.calls[s.log[j]].tool);
    } else {
      assert s.log[..j] == s.log;
      CountInIgnores(s.log, s.calls, fcid, c, c.inv, c.tool);
    }
  }

  lemma IndexKept(s: System, step: Step)
    requires IndexInv(s) && Enabled(s, step)
    ensures IndexInv(Apply(s, step))
  {
    match step {
      case TakesIndex(fcid, c) => IndexKeptByTaking(s, fcid, c);
      case Crash =>
      case _ => IndexKeptElsewhere(s, Apply(s, step));
    }
  }

  lemma IndexKeptElsewhere(s: System, t: System)
    requires IndexInv(s) && ZeroDecisions(t)
    requires t.log == s.log && t.calls == s.calls && t.index == s.index && t.plugin.tcount == s.plugin.tcount
    ensures IndexInv(t)
  {
    forall inv, tool ensures Count(t.plugin, CallKey(inv, 0, tool)) == CountIn(t.log, t.calls, inv, tool) {
      assert Count(s.plugin, CallKey(inv, 0, tool)) == CountIn(s.log, s.calls, inv, tool);
    }
    forall j | 0 <= j < |t.log| ensures RankedAt(t, j) { assert RankedAt(s, j); }
  }

  // ---------------------------------------------------------------- the key a call journals

  predicate SameTool(c: Call, d: Call) {
    c.inv == d.inv && c.tool == d.tool
  }

  /** No two calls of a drive take the same index of the same tool. */
  ghost predicate OwnIndex(s: System) {
    && ZeroDecisions(s)
    && (forall f :: f in s.calls ==>
          f in s.index && s.index[f] < Count(s.plugin, CallKey(s.calls[f].inv, 0, s.calls[f].tool)))
    && (forall f, g :: f in s.calls && g in s.calls && f != g && SameTool(s.calls[f], s.calls[g]) ==>
          s.index[f] != s.index[g])
  }

  lemma OwnIndexKept(s: System, step: Step)
    requires OwnIndex(s) && Enabled(s, step)
    ensures OwnIndex(Apply(s, step))
  {
    match step {
      case TakesIndex(fcid, c) => OwnIndexKeptByTaking(s, fcid, c);
      case Crash =>
      case _ => OwnIndexKeptElsewhere(s, Apply(s, step));
    }
  }

  lemma OwnIndexKeptByTaking(s: System, fcid: string, c: Call)
    requires OwnIndex(s) && Enabled(s, TakesIndex(fcid, c))
    ensures OwnIndex(Apply(s, TakesIndex(fcid, c)))
  {
    var t := Apply(s, TakesIndex(fcid, c));
    assert Keyed(s.plugin, c.inv, c.tool) == CallKey(c.inv, 0, c.tool);
    forall f | f in t.calls
      ensures f in t.index && t.index[f] < Count(t.plugin, CallKey(t.calls[f].inv, 0, t.calls[f].tool))
    {
      if f != fcid { assert s.index[f] < Count(s.plugin, CallKey(s.calls[f].inv, 0, s.calls[f].tool)); }
    }
    forall f, g | f in t.calls && g in t.calls && f != g && SameTool(t.calls[f], t.calls[g])
      ensures t.index[f] != t.index[g]
    {
      assert f != fcid ==> s.index[f] < Count(s.plugin, CallKey(s.calls[f].inv, 0, s.calls[f].tool));
    }
  }

  lemma OwnIndexKeptElsewhere(s: System, t: System)
    requires OwnIndex(s) && ZeroDecisions(t)
    requires t.calls == s.calls && t.index == s.index && t.plugin.tcount == s.plugin.tcount
    ensures OwnIndex(t)
  {
    forall f | f in t.calls
      ensures f in t.index && t.index[f] < Count(t.plugin, CallKey(t.calls[f].inv, 0, t.calls[f].tool))
    {
      assert t.index[f] < Count(s.plugin, CallKey(s.calls[f].inv, 0, s.calls[f].tool));
    }
  }

  function CallKeyOf(c: Call): CallKey {
    CallKey(c.inv, 0, c.tool)
  }

  /** The key of a call that took `index`. */
  function KeyOf(c: Call, index: nat): string {
    EffectKey(c.custom, CallKeyOf(c), index)
  }

  /** A call's stage and its journaled key are those of the index it took. */
  predicate KeyedStage(s: System, f: string)
    requires f in s.stages
  {
    && f in s.calls && f in s.index
    && match s.stages[f] {
      case TookIndex(ck, index) => ck == CallKeyOf(s.calls[f]) && index == s.index[f]
      case Over => true
      case st => f in s.journaled && s.journaled[f] == st.key && (st.Began? ==> st.index == s.index[f])
    }
  }

  ghost predicate JournalInv(s: System) {
    && (forall f :: f in s.stages ==> KeyedStage(s, f))
    && (forall f :: f in s.journaled ==>
         f in s.calls && f in s.index && s.journaled[f] == KeyOf(s.calls[f], s.index[f]))
  }

  lemma JournalKept(s: System, step: Step)
    requires JournalInv(s) && ZeroDecisions(s) && Enabled(s, step)
    ensures JournalInv(Apply(s, step))
  {
    match step {
      case TakesIndex(fcid, c) => JournalKeptByTaking(s, fcid, c);
      case Begins(fcid) => JournalKeptByBegin(s, fcid);
      case Crash =>
      case _ =>
        OnlyMovesOn(s, step);
        JournalKeptElsewhere(s, Apply(s, step));
    }
  }

  lemma OnlyMovesOn(s: System, step: Step)
    requires Enabled(s, step) && !step.TakesIndex? && !step.Begins? && !step.Crash?
    ensures var t := Apply(s, step);
            && t.calls == s.calls && t.index == s.index && t.journaled == s.journaled
            && forall f :: f in t.stages ==>
                 && f in s.stages
                 && (t.stages[f] == s.stages[f] || t.stages[f].Over? || MovedOn(s.stages[f], t.stages[f]))
  {
  }

  lemma JournalKeptByTaking(s: System, fcid: string, c: Call)
    requires JournalInv(s) && ZeroDecisions(s) && Enabled(s, TakesIndex(fcid, c))
    ensures JournalInv(Apply(s, TakesIndex(fcid, c)))
  {
    var t := Apply(s, TakesIndex(fcid, c));
    assert Keyed(s.plugin, c.inv, c.tool) == CallKeyOf(c);
    forall f | f in t.stages ensures KeyedStage(t, f) {
      if f != fcid { assert KeyedStage(s, f); }
    }
  }

  lemma JournalKeptByBegin(s: System, fcid: string)
    requires JournalInv(s) && Enabled(s, Begins(fcid))
    ensures JournalInv(Apply(s, Begins(fcid)))
  {
    var t := Apply(s, Begins(fcid));
    assert KeyedStage(s, fcid);
    forall f | f in t.stages ensures KeyedStage(t, f) {
      if f != fcid { assert KeyedStage(s, f); }
    }
  }

  /** A step that lets a call go on with the key it has. */
  lemma JournalKeptElsewhere(s: System, t: System)
    requires JournalInv(s) && t.calls == s.calls && t.index == s.index && t.journaled == s.journaled
    requires forall f :: f in t.stages ==>
               && f in s.stages
               && (t.stages[f] == s.stages[f] || t.stages[f].Over? || MovedOn(s.stages[f], t.stages[f]))
    ensures JournalInv(t)
  {
    forall f | f in t.stages ensures KeyedStage(t, f) { assert KeyedStage(s, f); }
  }

  predicate MovedOn(a: Stage, b: Stage) {
    Holding(a) && Holding(b) && !b.Began? && a.key == b.key
  }

  lemma NoneLater(sep: char, a: string, x: string)
    requires sep !in x
    ensures (a + [sep] + x)[|a|] == sep
    ensures forall k :: |a| < k <= |a| + |x| ==> (a + [sep] + x)[k] != sep
  {
    forall k | |a| < k <= |a| + |x| ensures (a + [sep] + x)[k] != sep {
      assert (a + [sep] + x)[k] == x[k - |a| - 1];
    }
  }

  /** The last separator splits a text in one way. */
  lemma LastSegment(sep: char, a: string, x: string, b: string, y: string)
    requires a + [sep] + x == b + [sep] + y && sep !in x && sep !in y
    ensures a == b && x == y
  {
    var s, t := a + [sep] + x, b + [sep] + y;
    NoneLater(sep, a, x);
    NoneLater(sep, b, y);
    assert |a| == |b|;
    assert s[..|a|] == a && t[..|b|] == b && s[|a| + 1..] == x && t[|b| + 1..] == y;
  }

  function DecisionSegment(d: int): string {
    "decision-" + Decimal(d)
  }

  lemma DecisionSegments(d: int, d': int)
    ensures SlashFree(DecisionSegment(d))
    ensures DecisionSegment(d) == DecisionSegment(d') ==> d == d'
  {
    ParseDecimal(if d < 0 then -d else d);
    assert DecisionSegment(d)[9..] == Decimal(d) && DecisionSegment(d')[9..] == Decimal(d');
    if Decimal(d) == Decimal(d') { DecimalInjective(d, d'); }
  }

  lemma DerivedKeySegments(inv: string, d: int, tool: string, i: nat)
    ensures DerivedKey(inv, d, tool, i) == ((inv + "/" + DecisionSegment(d)) + "/" + tool) + "/" + Decimal(i)
    ensures SlashFree(Decimal(i))
  {
    ParseDecimal(i);
    assert inv + "/decision-" + Decimal(d) == inv + "/" + DecisionSegment(d);
  }

  /** For tools without a slash in their name, a derived key determines the call. */
  lemma DerivedKeyInjective(inv: string, d: int, tool: string, i: nat, inv': string, d': int, tool': string, i': nat)
    requires SlashFree(tool) && SlashFree(tool')
    requires DerivedKey(inv, d, tool, i) == DerivedKey(inv', d', tool', i')
    ensures inv == inv' && d == d' && tool == tool' && i == i'
  {
    var a, a' := inv + "/" + DecisionSegment(d), inv' + "/" + DecisionSegment(d');
    DerivedKeySegments(inv, d, tool, i);
    DerivedKeySegments(inv', d', tool', i');
    LastSegment('/', a + "/" + tool, Decimal(i), a' + "/" + tool', Decimal(i'));
    LastSegment('/', a, tool, a', tool');
    DecisionSegments(d, d');
    DecisionSegments(d', d);
    LastSegment('/', inv, DecisionSegment(d), inv', DecisionSegment(d'));
    DecimalInjective(i, i');
  }

  ghost predicate Derivable(key: string, c: Call) {
    exists i: nat :: key == DerivedKey(c.inv, 0, c.tool, i)
  }

  /** Two calls cannot get one key: both derive it, and their tools have no slash in their
      names; or both declare one, and not the same; or the declared one is not derivable. */
  ghost predicate Apart(c: Call, d: Call) {
    if c.custom != "" && d.custom != "" then c.custom != d.custom
    else if c.custom != "" then !Derivable(c.custom, d)
    else if d.custom != "" then !Derivable(d.custom, c)
    else SlashFree(c.tool) && SlashFree(d.tool)
  }

  lemma ApartKeysDiffer(c: Call, i: nat, d: Call, j: nat)
    requires Apart(c, d) && (SameTool(c, d) ==> i != j)
    ensures KeyOf(c, i) != KeyOf(d, j)
  {
    if c.custom == "" && d.custom == "" && KeyOf(c, i) == KeyOf(d, j) {
      DerivedKeyInjective(c.inv, 0, c.tool, i, d.inv, 0, d.tool, j);
    }
  }

  predicate InFlight(s: System, f: string) {
    f in s.stages && !s.stages[f].Over?
  }

  /** The calls in flight at one time are pairwise apart. */
  ghost predicate ApartInFlight(s: System) {
    forall f, g :: InFlight(s, f) && InFlight(s, g) && f != g && f in s.calls && g in s.calls ==>
      Apart(s.calls[f], s.calls[g])
  }

  /** No two calls hold the same key. */
  ghost predicate OneHolder(s: System) {
    forall f, g :: f in s.stages && g in s.stages && SameKey(s.stages[f], s.stages[g]) ==> f == g
  }

  lemma ApartMeansOneHolder(s: System)
    requires OwnIndex(s) && JournalInv(s) && ApartInFlight(s)
    ensures OneHolder(s)
  {
    forall f, g | f in s.stages && g in s.stages && SameKey(s.stages[f], s.stages[g]) ensures f == g {
      assert KeyedStage(s, f) && KeyedStage(s, g);
      if f != g {
        assert InFlight(s, f) && InFlight(s, g);
        ApartKeysDiffer(s.calls[f], s.index[f], s.calls[g], s.index[g]);
      }
    }
  }

  // ---------------------------------------------------------------- bodies and crashes

  /** The call will run, or is running, the body of a row it found PENDING. */
  predicate WillRun(st: Stage) {
    ((st.Began? || st.StashedOnce?) && st.found == Pending) || st.Admitted? || st.Ran?
  }

  predicate InLedger(s: System, key: string, status: EffectStatus) {
    key in s.ledger && s.ledger[key] == status
  }

  predicate SameKey(a: Stage, b: Stage) {
    Holding(a) && Holding(b) && a.key == b.key
  }

  /** A call that will run its body finds its row PENDING. */
  ghost predicate LedgerInv(s: System) {
    forall f :: f in s.stages && WillRun(s.stages[f]) ==> InLedger(s, s.stages[f].key, Pending)
  }

  /** The key's last body run is accounted for by the ledger or by a call still in flight. */
  ghost predicate Settled(s: System, key: string) {
    || (key in s.ledger && s.ledger[key] != Pending)
    || (exists f :: f in s.stages && s.stages[f] == Ran(key))
  }

  ghost predicate Charged(s: System, key: string) {
    Tally(s.bodies, key) <= Tally(s.crashes, key) + if Settled(s, key) then 1 else 0
  }

  lemma LedgerKept(s: System, step: Step)
    requires LedgerInv(s) && OneHolder(s) && RouteInv(s) && Enabled(s, step)
    ensures LedgerInv(Apply(s, step))
  {
    match step {
      case Begins(g) => LedgerKeptByBegin(s, g);
      case Completes(g, status) => LedgerKeptByCompletion(s, g, status);
      case _ => LedgerKeptByMove(s, step);
    }
  }

  lemma LedgerKeptByBegin(s: System, g: string)
    requires LedgerInv(s) && Enabled(s, Begins(g))
    ensures LedgerInv(Apply(s, Begins(g)))
  {
  }

  /** A step that writes no ledger row and decides no call to run. */
  lemma LedgerKeptByMove(s: System, step: Step)
    requires LedgerInv(s) && Enabled(s, step) && !step.Begins? && !step.Completes?
    ensures LedgerInv(Apply(s, step))
  {
    var t := Apply(s, step);
    forall f | f in t.stages && WillRun(t.stages[f]) ensures InLedger(t, t.stages[f].key, Pending) {
      assert f in s.stages && WillRun(s.stages[f]) && s.stages[f].key == t.stages[f].key;
    }
  }

  lemma LedgerKeptByCompletion(s: System, g: string, status: EffectStatus)
    requires LedgerInv(s) && OneHolder(s) && RouteInv(s) && Enabled(s, Completes(g, status))
    ensures LedgerInv(Apply(s, Completes(g, status)))
  {
    var t := Apply(s, Completes(g, status));
    CompletionIsRouted(s, g);
    forall f | f in t.stages && WillRun(t.stages[f]) ensures InLedger(t, t.stages[f].key, Pending) {
      assert f != g && t.stages[f] == s.stages[f] && !SameKey(s.stages[f], s.stages[g]);
    }
  }

  /** A completion reaches the row of the call it belongs to. */
  lemma CompletionIsRouted(s: System, f: string)
    requires RouteInv(s) && At(s, f) && (s.stages[f].Admitted? || s.stages[f].Ran?)
    ensures Lookup(s.plugin, s.calls[f].inv, s.calls[f].tool, f) == s.stages[f].key
  {
  }

  lemma SettledKept(s: System, t: System, key: string)
    requires Settled(s, key) && s.ledger == t.ledger
    requires forall f :: f in s.stages && s.stages[f] == Ran(key) ==> f in t.stages && t.stages[f] == Ran(key)
    ensures Settled(t, key)
  {
  }

  lemma ChargedKept(s: System, step: Step, key: string)
    requires LedgerInv(s) && OneHolder(s) && RouteInv(s) && Charged(s, key) && Enabled(s, step)
    ensures Charged(Apply(s, step), key)
  {
    var t := Apply(s, step);
    match step {
      case RunsBody(g) => BodyCharged(s, g, key);
      case Completes(g, status) => CompletionCharged(s, g, status, key);
      case Crash => CrashCharged(s, key);
      case Begins(g) =>
        if Settled(s, key) { BeginSettled(s, g, key); }
      case _ =>
        if Settled(s, key) { SettledKept(s, t, key); }
    }
  }

  lemma BeginSettled(s: System, g: string, key: string)
    requires Enabled(s, Begins(g)) && Settled(s, key)
    ensures Settled(Apply(s, Begins(g)), key)
  {
    var t := Apply(s, Begins(g));
    if key in s.ledger && s.ledger[key] != Pending {
      assert t.ledger[key] == s.ledger[key];
    } else {
      var f :| f in s.stages && s.stages[f] == Ran(key);
      assert t.stages[f] == Ran(key);
    }
  }

  lemma BodyCharged(s: System, g: string, key: string)
    requires LedgerInv(s) && OneHolder(s) && Charged(s, key) && Enabled(s, RunsBody(g))
    ensures Charged(Apply(s, RunsBody(g)), key)
  {
    var t := Apply(s, RunsBody(g));
    if s.stages[g].key == key {
      assert InLedger(s, key, Pending);
      assert forall f :: f in s.stages && s.stages[f] == Ran(key) ==> SameKey(s.stages[f], s.stages[g]);
      assert !Settled(s, key);
      assert t.stages[g] == Ran(key);
    } else if Settled(s, key) {
      SettledKept(s, t, key);
    }
  }

  lemma CompletionCharged(s: System, g: string, status: EffectStatus, key: string)
    requires LedgerInv(s) && RouteInv(s) && Charged(s, key) && Enabled(s, Completes(g, status))
    ensures Charged(Apply(s, Completes(g, status)), key)
  {
    var t := Apply(s, Completes(g, status));
    CompletionIsRouted(s, g);
    assert InLedger(s, s.stages[g].key, Pending);
    if s.stages[g].key == key {
      assert t.ledger[key] == status;
    } else if Settled(s, key) {
      if f :| f in s.stages && s.stages[f] == Ran(key) {
        assert t.stages[f] == Ran(key);
      } else {
        assert t.ledger[key] == s.ledger[key];
      }
    }
  }

  lemma CrashCharged(s: System, key: string)
    requires Charged(s, key)
    ensures Charged(Apply(s, Crash), key)
  {
    var t := Apply(s, Crash);
    if f :| f in s.stages && s.stages[f] == Ran(key) {
      assert key in Interrupted(s);
    }
  }

  // ---------------------------------------------------------------- whole runs

  ghost predicate Inv(s: System) {
    RouteInv(s) && Named(s) && IndexInv(s) && OwnIndex(s) && JournalInv(s)
  }

  lemma {:induction false} RunKeepsInv(run: seq<System>, steps: seq<Step>, n: nat)
    requires IsRun(run, steps) && n < |run|
    ensures Inv(run[n])
  {
    if n > 0 {
      var s, step := run[n - 1], steps[n - 1];
      RunKeepsInv(run, steps, n - 1);
      assert run[n - 1 + 1] == Apply(s, step);
      RouteKept(s, step);
      IndexKept(s, step);
      OwnIndexKept(s, step);
      JournalKept(s, step);
    }
  }

  lemma {:induction false} RunKeepsCharged(run: seq<System>, steps: seq<Step>, n: nat, key: string)
    requires IsRun(run, steps) && n < |run|
    requires forall i :: 0 <= i < n ==> ApartInFlight(run[i])
    ensures LedgerInv(run[n]) && Charged(run[n], key)
  {
    if n > 0 {
      var s, step := run[n - 1], steps[n - 1];
      RunKeepsCharged(run, steps, n - 1, key);
      RunKeepsInv(run, steps, n - 1);
      assert run[n - 1 + 1] == Apply(s, step);
      ApartMeansOneHolder(s);
      LedgerKept(s, step);
      ChargedKept(s, step, key);
    }
  }

  /** Over any interleaving, crashes and re-drives included, in which calls in flight
      together are apart: the body behind a key runs at most once more than crashes hit that
      key between a body and its completion.  Crashes before a body, or of a mere replay, do
      not count. */
  lemma BodiesChargedToCrashes(run: seq<System>, steps: seq<Step>, n: nat, key: string)
    requires IsRun(run, steps) && n < |run|
    requires forall i :: 0 <= i < n ==> ApartInFlight(run[i])
    ensures Tally(run[n].bodies, key) <= 1 + Tally(run[n].crashes, key)
  {
    RunKeepsCharged(run, steps, n, key);
  }

  /** In particular when every tool derives its keys and has no slash in its name. */
  lemma DerivedKeysChargedToCrashes(run: seq<System>, steps: seq<Step>, n: nat, key: string)
    requires IsRun(run, steps) && n < |run|
    requires forall i, f :: 0 <= i < n && f in run[i].calls ==>
               run[i].calls[f].custom == "" && SlashFree(run[i].calls[f].tool)
    ensures Tally(run[n].bodies, key) <= 1 + Tally(run[n].crashes, key)
  {
    BodiesChargedToCrashes(run, steps, n, key);
  }

  /** Over any interleaving, the callbacks of an admitted call find the key that call journaled. */
  lemma CallbacksAreRouted(run: seq<System>, steps: seq<Step>, n: nat, f: string)
    requires IsRun(run, steps) && n < |run| && At(run[n], f)
    requires run[n].stages[f].Admitted? || run[n].stages[f].Ran?
    ensures f in run[n].journaled
    ensures Lookup(run[n].plugin, run[n].calls[f].inv, run[n].calls[f].tool, f) == run[n].journaled[f]
  {
    RunKeepsInv(run, steps, n);
    assert KeyedStage(run[n], f);
    CompletionIsRouted(run[n], f);
  }

  /** Over any interleaving, a completion settles the row of the key its own call journaled, if
      that is still PENDING, and no other row. */
  lemma CompletionSettlesOwnRow(run: seq<System>, steps: seq<Step>, n: nat, f: string, status: EffectStatus)
    requires IsRun(run, steps) && n < |run| && Enabled(run[n], Completes(f, status))
    ensures f in run[n].journaled
    ensures var s, key := run[n], run[n].journaled[f];
            Apply(s, Completes(f, status)).ledger ==
            if key in s.ledger && s.ledger[key] == Pending then s.ledger[key := status] else s.ledger
  {
    CallbacksAreRouted(run, steps, n, f);
  }

  /** The j-th entry of the log took, as its index, the number of earlier calls of the
      same tool in the same invocation, however other calls interleaved. */
  lemma IndexIsRank(run: seq<System>, steps: seq<Step>, n: nat, j: nat)
    requires IsRun(run, steps) && n < |run| && j < |run[n].log|
    ensures var s := run[n];
            && s.log[j] in s.calls && s.log[j] in s.index
            && s.index[s.log[j]] == Rank(s, j)
  {
    RunKeepsInv(run, steps, n);
    assert run[n].log[j] in run[n].log && RankedAt(run[n], j);
  }

  /** How many calls of its tool in its invocation came before the j-th. */
  function Rank(s: System, j: nat): nat
    requires j < |s.log| && s.log[j] in s.calls
  {
    CountIn(s.log[..j], s.calls, s.calls[s.log[j]].inv, s.calls[s.log[j]].tool)
  }

  /** A re-drive with a fresh plugin reproduces the keys: a call of equal rank, in whatever
      interleaving, begins its effect under the same key. */
  lemma KeysAreReproduced(
    run: seq<System>, steps: seq<Step>, n: nat, j: nat, run': seq<System>, steps': seq<Step>, n': nat, j': nat)
    requires IsRun(run, steps) && n < |run| && j < |run[n].log|
    requires IsRun(run', steps') && n' < |run'| && j' < |run'[n'].log|
    requires var f, g := run[n].log[j], run'[n'].log[j'];
             && f in run[n].journaled && g in run'[n'].journaled
             && f in run[n].calls && g in run'[n'].calls && run[n].calls[f] == run'[n'].calls[g]
             && Rank(run[n], j) == Rank(run'[n'], j')
    ensures run[n].journaled[run[n].log[j]] == run'[n'].journaled[run'[n'].log[j']]
  {
    IndexIsRank(run, steps, n, j);
    IndexIsRank(run', steps', n', j');
    RunKeepsInv(run, steps, n);
    RunKeepsInv(run', steps', n');
  }

  /** A re-drive within the same process does not reproduce them: starting a run resets no
      call counter, so the next call of a tool gets an index, and a key, that no earlier
      call of it had. */
  lemma SameProcessRedriveChangesKeys(run: seq<System>, steps: seq<Step>, n: nat, c: Call, i: nat)
    requires IsRun(run, steps) && n < |run|
    requires i < CountIn(run[n].log, run[n].calls, c.inv, c.tool)
    ensures var p := Started(run[n].plugin, c.inv);
            var ck := Keyed(p, c.inv, c.tool);
            && Count(p, ck) == CountIn(run[n].log, run[n].calls, c.inv, c.tool)
            && DerivedKey(c.inv, ck.decision, c.tool, Count(p, ck)) != DerivedKey(c.inv, ck.decision, c.tool, i)
  {
    RunKeepsInv(run, steps, n);
    var p := Started(run[n].plugin, c.inv);
    var ck := Keyed(p, c.inv, c.tool);
    assert Count(p, ck) == Count(run[n].plugin, CallKey(c.inv, 0, c.tool));
    DerivedKeyIndex(c.inv, ck.decision, c.tool, i, Count(p, ck));
  }

  lemma DerivedKeyIndex(inv: string, decision: int, tool: string, i: nat, j: nat)
    ensures DerivedKey(inv, decision, tool, i) == DerivedKey(inv, decision, tool, j) ==> i == j
  {
    var prefix := inv + "/decision-" + Decimal(decision) + "/" + tool + "/";
    assert DerivedKey(inv, decision, tool, i)[|prefix|..] == Decimal(i);
    assert DerivedKey(inv, decision, tool, j)[|prefix|..] == Decimal(j);
    if Decimal(i) == Decimal(j) { DecimalInjective(i, j); }
  }

  // ---------------------------------------------------------------- two calls, one key

  /** One more step at the end of a run. */
  lemma Extend(run: seq<System>, steps: seq<Step>, step: Step) returns (run': seq<System>, steps': seq<Step>)
    requires IsRun(run, steps) && Enabled(run[|steps|], step)
    ensures IsRun(run', steps') && |steps'| == |steps| + 1
    ensures run'[|steps'|] == Apply(run[|steps|], step)
  {
    run', steps' := run + [Apply(run[|steps|], step)], steps + [step];
    forall i | 0 <= i < |steps'| ensures Enabled(run'[i], steps'[i]) && run'[i + 1] == Apply(run'[i], steps'[i]) {
      if i < |steps| { assert run'[i] == run[i] && run'[i + 1] == run[i + 1]; }
    }
  }

  /** A call that took an index goes on, alone, until its body has run. */
  lemma GoesOn(run: seq<System>, steps: seq<Step>, f: string) returns (run': seq<System>, steps': seq<Step>)
    requires IsRun(run, steps) && At(run[|steps|], f) && run[|steps|].stages[f].Began?
    requires run[|steps|].stages[f].found == Pending
    ensures IsRun(run', steps')
    ensures var s, t, key := run[|steps|], run'[|steps'|], run[|steps|].stages[f].key;
            && t.bodies == s.bodies[key := Tally(s.bodies, key) + 1] && t.crashes == s.crashes
            && t.stages == s.stages[f := Ran(key)] && t.calls == s.calls
  {
    run', steps' := Extend(run, steps, StashesState(f));
    run', steps' := Extend(run', steps', StashesCall(f));
    run', steps' := Extend(run', steps', RunsBody(f));
  }

  const START := System(FRESH, map[], map[], map[], [], map[], map[], map[], map[])

  /** Both calls take their index. */
  lemma BothTakeIndex(f: string, c: Call, g: string, d: Call) returns (run: seq<System>, steps: seq<Step>)
    requires f != "" && g != "" && f != g
    ensures IsRun(run, steps)
    ensures var t, i := run[|steps|], if SameTool(c, d) then 1 else 0;
            && t.bodies == map[] && t.crashes == map[] && t.ledger == map[] && t.calls == map[f := c, g := d]
            && t.stages == map[f := TookIndex(CallKeyOf(c), 0), g := TookIndex(CallKeyOf(d), i)]
  {
    run, steps := Extend([START], [], TakesIndex(f, c));
    run, steps := Extend(run, steps, TakesIndex(g, d));
  }

  /** Both begin, before either has run. */
  lemma BothBegin(f: string, c: Call, g: string, d: Call) returns (run: seq<System>, steps: seq<Step>)
    requires f != "" && g != "" && f != g
    ensures IsRun(run, steps)
    ensures var t, i := run[|steps|], if SameTool(c, d) then 1 else 0;
            && t.bodies == map[] && t.crashes == map[] && At(t, f) && At(t, g)
            && t.stages[f] == Began(0, KeyOf(c, 0), Pending) && t.stages[g] == Began(i, KeyOf(d, i), Pending)
  {
    run, steps := BothTakeIndex(f, c, g, d);
    run, steps := Extend(run, steps, Begins(f));
    run, steps := Extend(run, steps, Begins(g));
  }

  /** The condition is needed: whenever two calls of one driver get the same key, there is an
      interleaving, without any crash, in which the body behind that key runs twice. */
  lemma SharedKeyRunsTwice(f: string, c: Call, g: string, d: Call) returns (run: seq<System>, steps: seq<Step>)
    requires f != "" && g != "" && f != g
    requires KeyOf(c, 0) == KeyOf(d, if SameTool(c, d) then 1 else 0)
    ensures IsRun(run, steps)
    ensures Tally(run[|steps|].bodies, KeyOf(c, 0)) == 2 && run[|steps|].crashes == map[]
  {
    run, steps := BothBegin(f, c, g, d);
    run, steps := GoesOn(run, steps, f);
    run, steps := GoesOn(run, steps, g);
  }

  // ---------------------------------------------------------------- without call ids

  /** Unique ids are needed: without them the callbacks of the earlier of two concurrent
      calls of one tool find the later call's key, which is not the key the earlier one has. */
  lemma MisroutedWithoutIds(p: Plugin, inv: string, tool: string)
    ensures var ck := Keyed(p, inv, tool);
            var n := Count(p, ck);
            var first, second := EffectKey("", ck, n), EffectKey("", ck, n + 1);
            var both := Counted(Counted(p, inv, tool), inv, tool);
            var q := Stashed(Stashed(both, StateKey(inv, tool, n), first), StateKey(inv, tool, n + 1), second);
            Lookup(q, inv, tool, "") == second && first != second
  {
    var ck := Keyed(p, inv, tool);
    DerivedKeyIndex(ck.inv, ck.decision, ck.tool, Count(p, ck), Count(p, ck) + 1);
  }
}
