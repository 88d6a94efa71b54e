/** The in-tree linearizability checker: Wing and Gong's exhaustive search with
    a memo of failed (pending operations, model state) pairs.  The search is
    generic over the sequential model. */
module Linearizability {

  /** One observed operation; the two instants are used only as a partial order. */
  datatype Event<+Op, +Ret> = Event(process: string, op: Op, ret: Ret, start: nat, end: nat)

  /** A sequential model: an initial state and a total step function. */
  datatype Model<!State, !Op, !Ret> = Model(initial: State, apply: (State, Op) -> (State, Ret))

  datatype CheckResult<+Op, +Ret> =
    | Accepted
    | Rejected(deepestPrefix: seq<Event<Op, Ret>>)

  // ---------------------------------------------------------------- what a linearization is

  /** Every operation's interval runs forward in time. */
  predicate WellTimed<Op, Ret>(h: seq<Event<Op, Ret>>) {
    forall i :: 0 <= i < |h| ==> h[i].start <= h[i].end
  }

  /** `order` lists each operation of `ops` exactly once, and nothing else. */
  ghost predicate Enumerates(order: seq<nat>, ops: set<nat>) {
    && (forall i, j :: 0 <= i < j < |order| ==> order[i] != order[j])
    && (forall x :: x in order <==> x in ops)
  }

  /** No operation is placed before one that completed strictly before it began. */
  ghost predicate RespectsRealTime<Op, Ret>(h: seq<Event<Op, Ret>>, order: seq<nat>)
    requires InRange(h, order)
  {
    forall i, j :: 0 <= i < j < |order| ==> h[order[i]].start <= h[order[j]].end
  }

  ghost predicate InRange<Op, Ret>(h: seq<Event<Op, Ret>>, order: seq<nat>) {
    forall i :: 0 <= i < |order| ==> order[i] < |h|
  }

  /** The events of `h` that `order` names. */
  function Observed<Op, Ret>(h: seq<Event<Op, Ret>>, order: seq<nat>): (events: seq<Event<Op, Ret>>)
    requires InRange(h, order)
    ensures |events| == |order| && forall i :: 0 <= i < |order| ==> events[i] == h[order[i]]
  {
    seq(|order|, i requires 0 <= i < |order| => h[order[i]])
  }

  /** Applying the operations in `order` produces the responses that were observed. */
  ghost predicate Replays<State, Op, Ret>(
    m: Model<State, Op, Ret>, h: seq<Event<Op, Ret>>, order: seq<nat>, state: State)
    requires InRange(h, order)
  {
    order == [] ||
    (m.apply(state, h[order[0]].op).1 == h[order[0]].ret &&
     Replays(m, h, order[1..], m.apply(state, h[order[0]].op).0))
  }

  /** The model state after the first `i` operations of `order`. */
  ghost function StateAt<State, Op, Ret>(
    m: Model<State, Op, Ret>, h: seq<Event<Op, Ret>>, order: seq<nat>, state: State, i: nat): State
    requires InRange(h, order) && i <= |order|
  {
    if i == 0 then state else m.apply(StateAt(m, h, order, state, i - 1), h[order[i - 1]].op).0
  }

  lemma {:induction false} StateAtTail<State, Op, Ret>(
    m: Model<State, Op, Ret>, h: seq<Event<Op, Ret>>, order: seq<nat>, state: State, i: nat)
    requires InRange(h, order) && i < |order|
    ensures StateAt(m, h, order, state, i + 1)
         == StateAt(m, h, order[1..], m.apply(state, h[order[0]].op).0, i)
  {
    if i == 0 {
      assert StateAt(m, h, order, state, 0) == state;
    } else {
      StateAtTail(m, h, order, state, i - 1);
    }
  }

  /** Replaying is: each observed response is the model's, in the state reached so far. */
  lemma {:induction false} ReplaysPointwise<State, Op, Ret>(
    m: Model<State, Op, Ret>, h: seq<Event<Op, Ret>>, order: seq<nat>, state: State)
    requires InRange(h, order)
    ensures Replays(m, h, order, state) <==>
            forall i :: 0 <= i < |order| ==>
              m.apply(StateAt(m, h, order, state, i), h[order[i]].op).1 == h[order[i]].ret
  {
    if order != [] {
      var next, rest := m.apply(state, h[order[0]].op).0, order[1..];
      ReplaysPointwise(m, h, rest, next);
      forall i | 0 <= i < |rest|
        ensures StateAt(m, h, order, state, i + 1) == StateAt(m, h, rest, next, i)
      {
        StateAtTail(m, h, order, state, i);
      }
      assert StateAt(m, h, order, state, 0) == state;
      if Replays(m, h, order, state) {
        forall i | 0 <= i < |order|
          ensures m.apply(StateAt(m, h, order, state, i), h[order[i]].op).1 == h[order[i]].ret
        {
          if i > 0 { assert order[i] == rest[i - 1]; }
        }
      } else if m.apply(state, h[order[0]].op).1 == h[order[0]].ret {
        var i :| 0 <= i < |rest| && m.apply(StateAt(m, h, rest, next, i), h[rest[i]].op).1 != h[rest[i]].ret;
        assert order[i + 1] == rest[i];
      }
    }
  }

  ghost predicate IsLinearization<State, Op, Ret>(
    m: Model<State, Op, Ret>, h: seq<Event<Op, Ret>>, order: seq<nat>)
  {
    && Enumerates(order, Operations(h))
    && InRange(h, order)
    && RespectsRealTime(h, order)
    && Replays(m, h, order, m.initial)
  }

  ghost predicate Linearizable<State, Op, Ret>(m: Model<State, Op, Ret>, h: seq<Event<Op, Ret>>) {
    exists order :: IsLinearization(m, h, order)
  }

  /** The indices 0, 1, ..., n - 1, in order. */
  function Iota(n: nat): (s: seq<nat>)
    ensures |s| == n && forall i :: 0 <= i < n ==> s[i] == i
  {
    seq(n, i => i)
  }

  ghost function Operations<Op, Ret>(h: seq<Event<Op, Ret>>): (ops: set<nat>)
    ensures forall x: nat :: x in ops <==> x < |h|
  {
    assert forall x: nat :: x < |h| ==> x in Iota(|h|) by {
      forall x: nat | x < |h| ensures x in Iota(|h|) { assert Iota(|h|)[x] == x; }
    }
    Elements(Iota(|h|))
  }

  // ---------------------------------------------------------------- what the search explores

  /** The search places an operation only if it began no later than the earliest
      pending end, its own end included. */
  ghost predicate Placeable<Op, Ret>(h: seq<Event<Op, Ret>>, order: seq<nat>)
    requires InRange(h, order)
  {
    forall i, j :: 0 <= i <= j < |order| ==> h[order[i]].start <= h[order[j]].end
  }

  /** `order` finishes the search from the pending set `ops` and model state `state`. */
  ghost predicate Finishes<State, Op, Ret>(
    m: Model<State, Op, Ret>, h: seq<Event<Op, Ret>>, ops: set<nat>, state: State, order: seq<nat>)
  {
    && Enumerates(order, ops)
    && InRange(h, order)
    && Placeable(h, order)
    && Replays(m, h, order, state)
  }

  ghost predicate DeadEnd<State, Op, Ret>(
    m: Model<State, Op, Ret>, h: seq<Event<Op, Ret>>, ops: set<nat>, state: State)
  {
    forall order :: !Finishes(m, h, ops, state, order)
  }

  /** `cand` began no later than any pending operation ended. */
  ghost predicate Minimal<Op, Ret>(h: seq<Event<Op, Ret>>, ops: set<nat>, cand: nat) {
    cand < |h| && forall x :: x in ops ==> x < |h| && h[cand].start <= h[x].end
  }

  lemma FinishesCons<State, Op, Ret>(
    m: Model<State, Op, Ret>, h: seq<Event<Op, Ret>>, ops: set<nat>, state: State, cand: nat, rest: seq<nat>)
    requires cand in ops && Minimal(h, ops, cand)
    requires m.apply(state, h[cand].op).1 == h[cand].ret
    requires Finishes(m, h, ops - {cand}, m.apply(state, h[cand].op).0, rest)
    ensures Finishes(m, h, ops, state, [cand] + rest)
  {
    var order := [cand] + rest;
    assert order[1..] == rest;
    forall x ensures x in order <==> x in ops {
      assert x in order <==> x == cand || x in rest;
    }
    forall i, j | 0 <= i < j < |order| ensures order[i] != order[j] {
      assert order[j] == rest[j - 1] && rest[j - 1] in rest;
    }
    forall i, j | 0 <= i <= j < |order| ensures h[order[i]].start <= h[order[j]].end {
      assert order[j] in order;
    }
  }

  lemma FinishesTail<State, Op, Ret>(
    m: Model<State, Op, Ret>, h: seq<Event<Op, Ret>>, ops: set<nat>, state: State, order: seq<nat>)
    requires Finishes(m, h, ops, state, order) && order != []
    ensures order[0] in ops && Minimal(h, ops, order[0])
    ensures m.apply(state, h[order[0]].op).1 == h[order[0]].ret
    ensures Finishes(m, h, ops - {order[0]}, m.apply(state, h[order[0]].op).0, order[1..])
  {
    var cand, rest := order[0], order[1..];
    assert cand in order;
    forall x ensures x in rest <==> x in ops - {cand} {
      if x in ops - {cand} {
        assert x in order;
        var i :| 0 <= i < |order| && order[i] == x;
        assert rest[i - 1] == x;
      }
      if x in rest {
        var i :| 0 <= i < |rest| && rest[i] == x;
        assert order[i + 1] == x && order[0] != order[i + 1];
        assert x in order;
      }
    }
    forall x | x in ops ensures x < |h| && h[cand].start <= h[x].end {
      assert x in order;
      var j :| 0 <= j < |order| && order[j] == x;
    }
  }

  /** No way to finish the search starts with `cand`. */
  ghost predicate DeadStart<State, Op, Ret>(
    m: Model<State, Op, Ret>, h: seq<Event<Op, Ret>>, ops: set<nat>, state: State, cand: nat)
  {
    forall rest :: !Finishes(m, h, ops, state, [cand] + rest)
  }

  lemma RefusedStart<State, Op, Ret>(
    m: Model<State, Op, Ret>, h: seq<Event<Op, Ret>>, ops: set<nat>, state: State, cand: nat)
    requires cand < |h|
    requires m.apply(state, h[cand].op).1 == h[cand].ret
         ==> DeadEnd(m, h, ops - {cand}, m.apply(state, h[cand].op).0)
    ensures DeadStart(m, h, ops, state, cand)
  {
    forall rest | Finishes(m, h, ops, state, [cand] + rest) ensures false {
      assert ([cand] + rest)[1..] == rest;
      FinishesTail(m, h, ops, state, [cand] + rest);
    }
  }

  lemma EveryStartRefused<State, Op, Ret>(
    m: Model<State, Op, Ret>, h: seq<Event<Op, Ret>>, ops: set<nat>, state: State)
    requires ops != {}
    requires forall c :: c in ops && Minimal(h, ops, c) ==> DeadStart(m, h, ops, state, c)
    ensures DeadEnd(m, h, ops, state)
  {
    var x :| x in ops;
    forall order | Finishes(m, h, ops, state, order) ensures false {
      assert x in order;
      assert order == [order[0]] + order[1..];
      FinishesTail(m, h, ops, state, order);
    }
  }

  /** What the search finds is a linearization of a well-timed history, and conversely. */
  lemma SearchedOrders<State, Op, Ret>(m: Model<State, Op, Ret>, h: seq<Event<Op, Ret>>, order: seq<nat>)
    ensures Finishes(m, h, Operations(h), m.initial, order)
       <==> WellTimed(h) && IsLinearization(m, h, order)
  {
    if Finishes(m, h, Operations(h), m.initial, order) {
      forall i | 0 <= i < |h| ensures h[i].start <= h[i].end {
        assert i in Operations(h);
        assert i in order;
        var j :| 0 <= j < |order| && order[j] == i;
      }
    }
  }

  // ---------------------------------------------------------------- the memo key

  predicate Ascending(s: seq<nat>) {
    forall i, j :: 0 <= i < j < |s| ==> s[i] < s[j]
  }

  ghost function Elements(s: seq<nat>): set<nat> {
    set x | x in s
  }

  /** The memo key is a sorted copy of `pending`.  The search keeps `pending`
      ascending, so sorting changes nothing. */
  function SortedKey(s: seq<nat>): (r: seq<nat>)
    ensures Ascending(s) ==> r == s
  {
    if s == [] then [] else Insert(s[0], SortedKey(s[1..]))
  }

  function Insert(x: nat, s: seq<nat>): (r: seq<nat>)
    ensures (forall i :: 0 <= i < |s| ==> x < s[i]) ==> r == [x] + s
  {
    if s == [] || x <= s[0] then [x] + s else [s[0]] + Insert(x, s[1..])
  }

  lemma RemoveAt(s: seq<nat>, pos: nat)
    requires Ascending(s) && pos < |s|
    ensures Ascending(s[..pos] + s[pos + 1..])
    ensures Elements(s[..pos] + s[pos + 1..]) == Elements(s) - {s[pos]}
    ensures (s[..pos] + s[pos + 1..])[..pos] + [s[pos]] + (s[..pos] + s[pos + 1..])[pos..] == s
  {
    var r := s[..pos] + s[pos + 1..];
    forall x ensures x in r <==> x in Elements(s) - {s[pos]} {
      if x in Elements(s) - {s[pos]} {
        var i :| 0 <= i < |s| && s[i] == x;
        if i < pos { assert r[i] == x; } else { assert r[i - 1] == x; }
      }
    }
  }

  // ---------------------------------------------------------------- the search

  /** The mutable state of one search.  `expanded` is a ghost log of the memo
      keys whose candidates were tried. */
  class Search<State(==), Op, Ret(==)> {
    const model: Model<State, Op, Ret>
    const history: seq<Event<Op, Ret>>
    var pending: seq<nat>
    var linearized: seq<nat>
    var visited: set<(seq<nat>, State)>
    ghost var expanded: seq<(seq<nat>, State)>

    constructor (model: Model<State, Op, Ret>, history: seq<Event<Op, Ret>>)
      ensures this.model == model && this.history == history
      ensures Valid() && Elements(pending) == Operations(history)
      ensures linearized == [] && visited == {} && expanded == []
    {
      this.model := model;
      this.history := history;
      pending := Iota(|history|);
      linearized := [];
      visited := {};
      expanded := [];
    }

    ghost predicate Valid()
      reads this
    {
      Consistent() && Closed(|pending|)
    }

    ghost predicate Consistent()
      reads this
    {
      && Ascending(pending)
      && InRange(history, pending)
      && MemoIsSound(visited)
      && NoRepeats(expanded)
    }

    /** An expanded key has failed, unless it belongs to a caller still on the
        stack, which has more than `size` operations pending. */
    ghost predicate Closed(size: int)
      reads this
    {
      forall k :: k in expanded ==> k in visited || size < |k.0|
    }

    /** Every memo entry is a pair from which no linearization exists. */
    ghost predicate MemoIsSound(memo: set<(seq<nat>, State)>) {
      forall k :: k in memo ==> DeadEnd(model, history, Elements(k.0), k.1)
    }

    ghost predicate NoRepeats(log: seq<(seq<nat>, State)>) {
      forall i, j :: 0 <= i < j < |log| ==> log[i] != log[j]
    }

    /** The pending operations that began no later than the earliest pending end. */
    method Candidates() returns (candidates: seq<nat>)
      requires InRange(history, pending) && pending != []
      ensures forall c :: c in candidates <==> c in pending && Minimal(history, Elements(pending), c)
    {
      var earliestEnd := history[pending[0]].end;
      for i := 1 to |pending|
        invariant forall j :: 0 <= j < i ==> earliestEnd <= history[pending[j]].end
        invariant exists j :: 0 <= j < i && earliestEnd == history[pending[j]].end
      {
        if history[pending[i]].end < earliestEnd {
          earliestEnd := history[pending[i]].end;
        }
      }
      candidates := [];
      for i := 0 to |pending|
        invariant forall c :: c in candidates <==> c in pending[..i] && history[c].start <= earliestEnd
      {
        if history[pending[i]].start <= earliestEnd {
          candidates := candidates + [pending[i]];
        }
      }
      assert pending[..|pending|] == pending;
    }

    /** Move `cand` from `pending` to the end of `linearized`. */
    method Push(cand: nat) returns (pos: nat)
      requires Consistent() && cand in pending
      modifies this`pending, this`linearized
      ensures Consistent()
      ensures |pending| == old(|pending|) - 1 && pos <= |pending|
      ensures Elements(pending) == old(Elements(pending)) - {cand}
      ensures pending[..pos] + [cand] + pending[pos..] == old(pending)
      ensures linearized == old(linearized) + [cand]
    {
      pos := 0;
      while pending[pos] != cand
        invariant pos < |pending| && cand !in pending[..pos]
        decreases |pending| - pos
      {
        pos := pos + 1;
      }
      RemoveAt(pending, pos);
      pending := pending[..pos] + pending[pos + 1..];
      linearized := linearized + [cand];
    }

    /** The memo and the log only grow. */
    twostate predicate Grows()
      reads this
    {
      old(visited) <= visited && old(expanded) <= expanded
    }

    /** Every key expanded since has failed. */
    twostate predicate AllFailed()
      reads this
    {
      forall k :: k in expanded ==> k in old(expanded) || k in visited
    }

    /** The search succeeded from the old pending set: it has pushed the rest of a linearization. */
    twostate predicate Succeeded(state: State)
      reads this
    {
      && pending == []
      && MemoIsSound(visited) && NoRepeats(expanded)
      && old(linearized) <= linearized
      && Finishes(model, history, old(Elements(pending)), state, linearized[old(|linearized|)..])
    }

    /** Place `cand` next, search on, and undo the placement on failure. */
    method Place(cand: nat, state: State) returns (found: bool)
      requires Consistent() && Closed(|pending| - 1)
      requires cand in pending && Minimal(history, Elements(pending), cand)
      modifies this
      ensures Grows()
      ensures found ==> Succeeded(state)
      ensures !found ==>
                && Consistent() && AllFailed()
                && pending == old(pending) && linearized == old(linearized)
                && DeadStart(model, history, Elements(pending), state, cand)
      decreases |pending|, 0
    {
      found := false;
      var (nextState, expectedRet) := model.apply(state, history[cand].op);
      if expectedRet == history[cand].ret {
        var pos := Push(cand);
        found := Recurse(nextState);
        if found {
          FinishesCons(model, history, old(Elements(pending)), state, cand, linearized[old(|linearized|) + 1..]);
          assert linearized[old(|linearized|)..] == [cand] + linearized[old(|linearized|) + 1..];
          return;
        }
        linearized := linearized[..|linearized| - 1];
        pending := pending[..pos] + [cand] + pending[pos..];
      }
      RefusedStart(model, history, Elements(pending), state, cand);
    }

    /** Place each minimal pending operation in turn. */
    method PlaceAny(state: State) returns (found: bool)
      requires Consistent() && Closed(|pending| - 1) && pending != []
      modifies this
      ensures Grows()
      ensures found ==> Succeeded(state)
      ensures !found ==>
                && Consistent() && AllFailed()
                && pending == old(pending) && linearized == old(linearized)
                && DeadEnd(model, history, Elements(pending), state)
      decreases |pending|, 1
    {
      var candidates := Candidates();
      for i := 0 to |candidates|
        invariant Consistent() && Grows() && AllFailed()
        invariant pending == old(pending) && linearized == old(linearized)
        invariant forall j :: 0 <= j < i ==> DeadStart(model, history, Elements(pending), state, candidates[j])
      {
        assert candidates[i] in candidates;
        found := Place(candidates[i], state);
        if found {
          return;
        }
      }
      assert pending[0] in Elements(pending);
      EveryStartRefused(model, history, Elements(pending), state);
      return false;
    }

    /** One level of the search, from model state `state`. */
    method Recurse(state: State) returns (found: bool)
      requires Valid()
      modifies this
      ensures Grows()
      ensures found ==> Succeeded(state)
      ensures !found ==>
                && Consistent() && AllFailed()
                && pending == old(pending) && linearized == old(linearized)
                && DeadEnd(model, history, Elements(pending), state)
      decreases |pending|, 2
    {
      if pending == [] {
        assert linearized[|linearized|..] == [];
        return true;
      }
      var key := (SortedKey(pending), state);
      if key in visited {
        return false;
      }
      expanded := expanded + [key];
      found := PlaceAny(state);
      if !found {
        visited := visited + {key};
      }
    }
  }

  /** Decides linearizability of `history` against `model`.  A history with an
      operation that ends before it starts is always rejected; every other
      history is accepted exactly when it is linearizable.  The prefix returned
      with a rejection is always empty. */
  method Check<State(==), Op, Ret(==)>(model: Model<State, Op, Ret>, history: seq<Event<Op, Ret>>)
    returns (r: CheckResult<Op, Ret>)
    ensures r.Accepted? <==> WellTimed(history) && Linearizable(model, history)
    ensures r.Rejected? ==> r.deepestPrefix == []
  {
    var search := new Search(model, history);
    var found := search.Recurse(model.initial);
    if found {
      ghost var order := search.linearized[0..];
      SearchedOrders(model, history, order);
      return Accepted;
    }
    forall order | WellTimed(history) && IsLinearization(model, history, order) ensures false {
      SearchedOrders(model, history, order);
    }
    return Rejected(Observed(history, search.linearized));
  }
}
