/** The plugin's lookup without a function-call id: by invocation, tool and call index, which
    are written into one text with colons between them. */
module CallbackLookup {
  import opened Decimals
  import opened CallbackJournal

  lemma {:induction false} DecimalColonFree(n: nat)
    ensures ':' !in DecimalNat(n)
  {
    if n >= 10 { DecimalColonFree(n / 10); }
  }

  lemma StateKeyParts(inv: string, tool: string, i: nat)
    ensures StateKey(inv, tool, i) == "k:" + (inv + [':'] + tool + [':'] + Decimal(i)) && ':' !in Decimal(i)
  {
    DecimalColonFree(i);
    assert ":" == [':'];
  }

  /** Two slots are one exactly when the indices agree and the names do, joined by a colon. */
  lemma SlotsMeet(inv: string, tool: string, i: nat, inv': string, tool': string, j: nat)
    ensures StateKey(inv, tool, i) == StateKey(inv', tool', j) <==>
            i == j && inv + [':'] + tool == inv' + [':'] + tool'
  {
    StateKeyParts(inv, tool, i);
    StateKeyParts(inv', tool', j);
    if StateKey(inv, tool, i) == StateKey(inv', tool', j) {
      var a, b := inv + [':'] + tool, inv' + [':'] + tool';
      assert StateKey(inv, tool, i)[2..] == a + [':'] + Decimal(i);
      assert StateKey(inv', tool', j)[2..] == b + [':'] + Decimal(j);
      LastSegment(':', a, Decimal(i), b, Decimal(j));
      DecimalInjective(i, j);
    }
  }

  function Joined(c: Call): string {
    c.inv + [':'] + c.tool
  }

  /** The invocation and the tool of every call can be told from the two joined by a colon. */
  predicate NamesApart(s: System) {
    forall f, g :: f in s.calls && g in s.calls && Joined(s.calls[f]) == Joined(s.calls[g]) ==>
      SameTool(s.calls[f], s.calls[g])
  }

  /** So it is when no tool has a colon in its name. */
  lemma ColonFreeNamesApart(s: System)
    requires forall f :: f in s.calls ==> ':' !in s.calls[f].tool
    ensures NamesApart(s)
  {
    forall f, g | f in s.calls && g in s.calls && Joined(s.calls[f]) == Joined(s.calls[g])
      ensures SameTool(s.calls[f], s.calls[g])
    {
      LastSegment(':', s.calls[f].inv, s.calls[f].tool, s.calls[g].inv, s.calls[g].tool);
    }
  }

  // ---------------------------------------------------------------- what the slots hold

  predicate BeforeStash(st: Stage) {
    st.TookIndex? || st.Began?
  }

  predicate Known(s: System, f: string) {
    f in s.stages && f in s.calls && f in s.index
  }

  function Slot(s: System, f: string): string
    requires Known(s, f)
  {
    StateKey(s.calls[f].inv, s.calls[f].tool, s.index[f])
  }

  /** A call's slot is empty until the call has stashed, and then holds the key it journaled. */
  predicate SlotFits(s: System, f: string)
    requires Known(s, f)
  {
    if BeforeStash(s.stages[f]) then Slot(s, f) !in s.plugin.keys
    else
      && Slot(s, f) in s.plugin.keys && f in s.journaled
      && s.plugin.keys[Slot(s, f)] == s.journaled[f]
  }

  ghost predicate Owned(s: System, slot: string) {
    exists f :: Known(s, f) && Slot(s, f) == slot
  }

  ghost predicate SlotInv(s: System) {
    && (forall f :: Known(s, f) ==> SlotFits(s, f))
    && (forall inv, tool, m: nat :: StateKey(inv, tool, m) in s.plugin.keys ==> Owned(s, StateKey(inv, tool, m)))
  }

  /** Different calls have different slots. */
  lemma OwnSlot(s: System, f: string, g: string)
    requires OwnIndex(s) && NamesApart(s) && Known(s, f) && Known(s, g) && Slot(s, f) == Slot(s, g)
    ensures f == g
  {
    var c, d := s.calls[f], s.calls[g];
    SlotsMeet(c.inv, c.tool, s.index[f], d.inv, d.tool, s.index[g]);
  }

  lemma OwnedKept(s: System, t: System, slot: string)
    requires Owned(s, slot)
    requires forall f :: Known(s, f) ==> Known(t, f) && Slot(t, f) == Slot(s, f)
    ensures Owned(t, slot)
  {
    var f :| Known(s, f) && Slot(s, f) == slot;
    assert Known(t, f);
  }

  /** The slot of call `g`, and no other, has been filled. */
  ghost predicate Fills(s: System, t: System, g: string) {
    && Known(s, g) && g in s.journaled && Known(t, g) && !BeforeStash(t.stages[g])
    && t.calls == s.calls && t.index == s.index && t.journaled == s.journaled
    && t.plugin.keys == s.plugin.keys[Slot(s, g) := s.journaled[g]]
    && forall f :: f != g ==> (f in t.stages <==> f in s.stages) && (f in s.stages ==> t.stages[f] == s.stages[f])
  }

  lemma StashFits(s: System, t: System, g: string, f: string)
    requires OwnIndex(s) && NamesApart(s) && Fills(s, t, g) && Known(s, f) && SlotFits(s, f)
    ensures Known(t, f) && SlotFits(t, f)
  {
    if Slot(s, f) == Slot(s, g) { OwnSlot(s, f, g); }
  }

  lemma StashFillsSlot(s: System, g: string)
    requires Enabled(s, StashesState(g)) && KeyedStage(s, g)
    ensures Fills(s, Apply(s, StashesState(g)), g)
  {
    var st := s.stages[g];
    assert st.Began? && st.key == s.journaled[g] && st.index == s.index[g];
  }

  lemma StashKeepsSlots(s: System, t: System, g: string)
    requires OwnIndex(s) && SlotInv(s) && NamesApart(s) && Fills(s, t, g)
    ensures SlotInv(t)
  {
    forall f | Known(t, f) ensures SlotFits(t, f) { StashFits(s, t, g, f); }
    forall inv, tool, m: nat | StateKey(inv, tool, m) in t.plugin.keys ensures Owned(t, StateKey(inv, tool, m)) {
      if StateKey(inv, tool, m) in s.plugin.keys {
        OwnedKept(s, t, StateKey(inv, tool, m));
      } else {
        assert Slot(t, g) == StateKey(inv, tool, m);
      }
    }
  }

  lemma NewSlotIsEmpty(s: System, c: Call, n: nat)
    requires OwnIndex(s) && SlotInv(s) && n == Count(s.plugin, CallKey(c.inv, 0, c.tool))
    requires forall f :: f in s.calls && Joined(s.calls[f]) == Joined(c) ==> SameTool(s.calls[f], c)
    ensures StateKey(c.inv, c.tool, n) !in s.plugin.keys
  {
    if StateKey(c.inv, c.tool, n) in s.plugin.keys {
      assert Owned(s, StateKey(c.inv, c.tool, n));
      var f :| Known(s, f) && Slot(s, f) == StateKey(c.inv, c.tool, n);
      SlotsMeet(c.inv, c.tool, n, s.calls[f].inv, s.calls[f].tool, s.index[f]);
    }
  }

  lemma NewName(s: System, g: string, c: Call, f: string)
    requires Enabled(s, TakesIndex(g, c)) && NamesApart(Apply(s, TakesIndex(g, c)))
    requires f in s.calls && Joined(s.calls[f]) == Joined(c)
    ensures SameTool(s.calls[f], c)
  {
    var t := Apply(s, TakesIndex(g, c));
    assert t.calls[f] == s.calls[f] && t.calls[g] == c;
  }

  lemma TakingKeepsSlots(s: System, g: string, c: Call)
    requires OwnIndex(s) && SlotInv(s) && Enabled(s, TakesIndex(g, c)) && NamesApart(Apply(s, TakesIndex(g, c)))
    ensures SlotInv(Apply(s, TakesIndex(g, c)))
  {
    var t := Apply(s, TakesIndex(g, c));
    assert Keyed(s.plugin, c.inv, c.tool) == CallKey(c.inv, 0, c.tool);
    forall f | f in s.calls && Joined(s.calls[f]) == Joined(c) ensures SameTool(s.calls[f], c) { NewName(s, g, c, f); }
    NewSlotIsEmpty(s, c, Count(s.plugin, CallKey(c.inv, 0, c.tool)));
    forall f | Known(t, f) ensures SlotFits(t, f) {
      if f != g { assert Known(s, f) && SlotFits(s, f); }
    }
    forall inv, tool, m: nat | StateKey(inv, tool, m) in t.plugin.keys ensures Owned(t, StateKey(inv, tool, m)) {
      OwnedKept(s, t, StateKey(inv, tool, m));
    }
  }

  lemma BeginKeepsSlots(s: System, g: string)
    requires SlotInv(s) && Enabled(s, Begins(g))
    ensures SlotInv(Apply(s, Begins(g)))
  {
    var t := Apply(s, Begins(g));
    forall f | Known(t, f) ensures SlotFits(t, f) { assert Known(s, f) && SlotFits(s, f); }
    forall inv, tool, m: nat | StateKey(inv, tool, m) in t.plugin.keys ensures Owned(t, StateKey(inv, tool, m)) {
      OwnedKept(s, t, StateKey(inv, tool, m));
    }
  }

  lemma CallStashKeepsSlots(s: System, g: string)
    requires SlotInv(s) && Enabled(s, StashesCall(g))
    ensures SlotInv(Apply(s, StashesCall(g)))
  {
    var t := Apply(s, StashesCall(g));
    forall f | Known(t, f) ensures SlotFits(t, f) {
      assert Known(s, f) && SlotFits(s, f);
      SlotsApart(g, g, s.calls[f].inv, s.calls[f].tool, s.index[f]);
    }
    forall inv, tool, m: nat | StateKey(inv, tool, m) in t.plugin.keys ensures Owned(t, StateKey(inv, tool, m)) {
      SlotsApart(g, g, inv, tool, m);
      OwnedKept(s, t, StateKey(inv, tool, m));
    }
  }

  /** The remaining steps touch no slot. */
  lemma MoveKeepsSlots(s: System, step: Step)
    requires SlotInv(s) && Enabled(s, step) && (step.RunStarts? || step.RunsBody? || step.Completes?)
    ensures SlotInv(Apply(s, step))
  {
    var t := Apply(s, step);
    forall f | Known(t, f) ensures SlotFits(t, f) { assert Known(s, f) && SlotFits(s, f); }
    forall inv, tool, m: nat | StateKey(inv, tool, m) in t.plugin.keys ensures Owned(t, StateKey(inv, tool, m)) {
      OwnedKept(s, t, StateKey(inv, tool, m));
    }
  }

  lemma SlotsKept(s: System, step: Step)
    requires OwnIndex(s) && JournalInv(s) && SlotInv(s) && Enabled(s, step)
    requires NamesApart(s) && NamesApart(Apply(s, step))
    ensures SlotInv(Apply(s, step))
  {
    match step {
      case TakesIndex(g, c) => TakingKeepsSlots(s, g, c);
      case Begins(g) => BeginKeepsSlots(s, g);
      case StashesState(g) =>
        assert KeyedStage(s, g);
        StashFillsSlot(s, g);
        StashKeepsSlots(s, Apply(s, step), g);
      case StashesCall(g) => CallStashKeepsSlots(s, g);
      case Crash =>
      case _ => MoveKeepsSlots(s, step);
    }
  }

  /** Until a crash clears them, calls are only added. */
  lemma ApartBefore(s: System, step: Step)
    requires Enabled(s, step) && !step.Crash? && NamesApart(Apply(s, step))
    ensures NamesApart(s)
  {
    var t := Apply(s, step);
    assert forall f :: f in s.calls ==> f in t.calls && t.calls[f] == s.calls[f];
  }

  lemma {:induction false} RunKeepsSlots(run: seq<System>, steps: seq<Step>, n: nat)
    requires IsRun(run, steps) && n < |run| && NamesApart(run[n])
    ensures SlotInv(run[n])
  {
    if n > 0 {
      var s, step := run[n - 1], steps[n - 1];
      assert run[n - 1 + 1] == Apply(s, step);
      if !step.Crash? {
        ApartBefore(s, step);
        RunKeepsSlots(run, steps, n - 1);
        RunKeepsInv(run, steps, n - 1);
        SlotsKept(s, step);
      }
    }
  }

  /** When the names of the calls can be told apart, a lookup without a call id answers for the
      latest call of that tool in that very invocation: with nothing until that call has stashed,
      and then with the key which that call journaled.  It never crosses invocations. */
  lemma LookupStaysInside(run: seq<System>, steps: seq<Step>, n: nat, f: string)
    requires IsRun(run, steps) && n < |run| && NamesApart(run[n]) && Known(run[n], f)
    requires var s := run[n]; Count(s.plugin, Keyed(s.plugin, s.calls[f].inv, s.calls[f].tool)) == s.index[f] + 1
    ensures var s := run[n];
            var found := Lookup(s.plugin, s.calls[f].inv, s.calls[f].tool, "");
            if BeforeStash(s.stages[f]) then found == "" else f in s.journaled && found == s.journaled[f]
  {
    RunKeepsSlots(run, steps, n);
    assert SlotFits(run[n], f);
  }

  // ---------------------------------------------------------------- names that cannot be told apart

  /** The call begins its effect and stashes the key. */
  lemma BeginsAndStashes(run: seq<System>, steps: seq<Step>, f: string) returns (run': seq<System>, steps': seq<Step>)
    requires IsRun(run, steps) && At(run[|steps|], f)
    requires var s := run[|steps|];
             f in s.index && s.stages[f] == TookIndex(CallKeyOf(s.calls[f]), s.index[f])
    ensures IsRun(run', steps')
    ensures var s, t := run[|steps|], run'[|steps'|];
            var c, key := s.calls[f], KeyOf(s.calls[f], s.index[f]);
            && t.plugin == Stashed(s.plugin, StateKey(c.inv, c.tool, s.index[f]), key)
            && t.journaled == s.journaled[f := key] && t.calls == s.calls && t.index == s.index
            && forall g :: g in s.stages && g != f ==> g in t.stages && t.stages[g] == s.stages[g]
  {
    run', steps' := Extend(run, steps, Begins(f));
    run', steps' := Extend(run', steps', StashesState(f));
  }

  lemma NamesTakeIndex(f: string, c: Call, g: string, d: Call) returns (run: seq<System>, steps: seq<Step>)
    requires f != "" && g != "" && f != g && !SameTool(c, d)
    ensures IsRun(run, steps)
    ensures var t := run[|steps|];
            && t.calls == map[f := c, g := d] && t.index == map[f := 0, g := 0] && t.journaled == map[]
            && t.stages == map[f := TookIndex(CallKeyOf(c), 0), g := TookIndex(CallKeyOf(d), 0)]
            && t.plugin == Counted(Counted(FRESH, c.inv, c.tool), d.inv, d.tool)
  {
    run, steps := Extend([START], [], TakesIndex(f, c));
    run, steps := Extend(run, steps, TakesIndex(g, d));
  }

  /** The condition is needed: whenever two calls have different names that read alike when
      joined, there is a run after which a lookup for the first answers with the key that the
      second journaled. */
  lemma SharedSlotCrosses(f: string, c: Call, g: string, d: Call) returns (run: seq<System>, steps: seq<Step>)
    requires f != "" && g != "" && f != g && !SameTool(c, d) && Joined(c) == Joined(d)
    ensures IsRun(run, steps)
    ensures var t := run[|steps|];
            && t.calls == map[f := c, g := d] && t.journaled == map[f := KeyOf(c, 0), g := KeyOf(d, 0)]
            && Lookup(t.plugin, c.inv, c.tool, "") == KeyOf(d, 0)
  {
    run, steps := NamesTakeIndex(f, c, g, d);
    run, steps := BeginsAndStashes(run, steps, f);
    run, steps := BeginsAndStashes(run, steps, g);
    SlotsMeet(c.inv, c.tool, 0, d.inv, d.tool, 0);
  }

  /** Such names: tool "b:c" of invocation "a", and tool "c" of invocation "a:b". */
  lemma NamesThatReadAlike(c: Call, d: Call)
    requires c == Call("a", "b:c", "") && d == Call("a:b", "c", "")
    ensures !SameTool(c, d) && Joined(c) == Joined(d) && KeyOf(c, 0) != KeyOf(d, 0)
  {
    assert Joined(c) == "a:b:c" == Joined(d);
    assert KeyOf(c, 0)[1] == '/' && KeyOf(d, 0)[1] == ':';
  }
}
