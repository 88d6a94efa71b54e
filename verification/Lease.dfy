/** The sequential obligation-lease model the linearizability checker is run
    against, and what acceptance by that model means for the observed claims. */
module Lease {
  import opened Linearizability

  datatype LeaseOp =
    | Claim(claimer: string, ttl: nat, now: nat)
    | Release

  datatype LeaseRet =
    | Claimed(acquired: bool, holder: string)
    | Released

  datatype LeaseState = Free | Held(owner: string, expires: nat)

  type LeaseEvent = Event<LeaseOp, LeaseRet>

  function Apply(state: LeaseState, op: LeaseOp): (LeaseState, LeaseRet) {
    match op
    case Claim(claimer, ttl, now) =>
      if state.Held? && state.expires > now
      then (state, Claimed(false, state.owner))
      else (Held(claimer, now + ttl), Claimed(true, claimer))
    case Release => (Free, Released)
  }

  const LEASE: Model<LeaseState, LeaseOp, LeaseRet> := Model(Free, Apply)

  // ---------------------------------------------------------------- the law, without any model state

  predicate Acquired(e: LeaseEvent) {
    e.op.Claim? && e.ret.Claimed? && e.ret.acquired
  }

  function Expiry(e: LeaseEvent): nat
    requires e.op.Claim?
  {
    e.op.now + e.op.ttl
  }

  /** The grant at position `g` is the one in force just before position `i`. */
  predicate InForce(evs: seq<LeaseEvent>, g: nat, i: nat) {
    && g < i <= |evs|
    && Acquired(evs[g])
    && forall k :: g < k < i ==> !evs[k].op.Release? && !Acquired(evs[k])
  }

  /** A claim is granted, to the claimer, unless a grant in force is still live at
      its instant; then it is refused and names that grant's claimer. */
  predicate LawfulAt(evs: seq<LeaseEvent>, i: nat)
    requires i < |evs|
  {
    match evs[i].op
    case Release => evs[i].ret == Released
    case Claim(claimer, _, now) =>
      if exists g: nat :: g < i && InForce(evs, g, i) && Expiry(evs[g]) > now
      then exists g: nat :: g < i && InForce(evs, g, i) && evs[i].ret == Claimed(false, evs[g].op.claimer)
      else evs[i].ret == Claimed(true, claimer)
  }

  predicate Lawful(evs: seq<LeaseEvent>) {
    forall i :: 0 <= i < |evs| ==> LawfulAt(evs, i)
  }

  ghost predicate Holds(evs: seq<LeaseEvent>, i: nat, state: LeaseState) {
    match state
    case Free => forall g: nat :: !InForce(evs, g, i)
    case Held(owner, expires) =>
      exists g: nat :: InForce(evs, g, i) && evs[g].op.claimer == owner && Expiry(evs[g]) == expires
  }

  /** At most one grant is in force. */
  lemma InForceUnique(evs: seq<LeaseEvent>, g: nat, g': nat, i: nat)
    requires InForce(evs, g, i) && InForce(evs, g', i)
    ensures g == g'
  {
  }

  /** The model's answer at one position, when its state mirrors the grant in force. */
  lemma LawfulStep(evs: seq<LeaseEvent>, i: nat, state: LeaseState)
    requires i < |evs| && Holds(evs, i, state)
    ensures Apply(state, evs[i].op).1 == evs[i].ret <==> LawfulAt(evs, i)
    ensures Apply(state, evs[i].op).1 == evs[i].ret ==> Holds(evs, i + 1, Apply(state, evs[i].op).0)
  {
    if state.Held? {
      var g: nat :| InForce(evs, g, i) && evs[g].op.claimer == state.owner && Expiry(evs[g]) == state.expires;
      forall g': nat | g' < i && InForce(evs, g', i) ensures g' == g { InForceUnique(evs, g, g', i); }
      if Apply(state, evs[i].op).1 == evs[i].ret && evs[i].op.Claim? && state.expires > evs[i].op.now {
        assert InForce(evs, g, i + 1);
      }
    }
    if Apply(state, evs[i].op).1 == evs[i].ret {
      if evs[i].op.Claim? && evs[i].ret.acquired {
        assert InForce(evs, i, i + 1);
      }
    }
  }

  ghost predicate AnsweredTo(h: seq<LeaseEvent>, order: seq<nat>, n: nat)
    requires InRange(h, order) && n <= |order|
  {
    forall i :: 0 <= i < n ==> Apply(StateAt(LEASE, h, order, Free, i), h[order[i]].op).1 == h[order[i]].ret
  }

  ghost predicate LawfulTo(evs: seq<LeaseEvent>, n: nat)
    requires n <= |evs|
  {
    forall i :: 0 <= i < n ==> LawfulAt(evs, i)
  }

  lemma AnsweredToNext(h: seq<LeaseEvent>, order: seq<nat>, n: nat)
    requires InRange(h, order) && n < |order|
    ensures AnsweredTo(h, order, n + 1) <==>
            && AnsweredTo(h, order, n)
            && Apply(StateAt(LEASE, h, order, Free, n), Observed(h, order)[n].op).1 == Observed(h, order)[n].ret
    ensures StateAt(LEASE, h, order, Free, n + 1)
         == Apply(StateAt(LEASE, h, order, Free, n), Observed(h, order)[n].op).0
  {
  }

  lemma LawfulToNext(evs: seq<LeaseEvent>, n: nat)
    requires n < |evs|
    ensures LawfulTo(evs, n + 1) <==> LawfulTo(evs, n) && LawfulAt(evs, n)
  {
  }

  lemma {:induction false} MirrorsGrants(h: seq<LeaseEvent>, order: seq<nat>, n: nat)
    requires InRange(h, order) && n <= |order|
    ensures AnsweredTo(h, order, n) <==> LawfulTo(Observed(h, order), n)
    ensures AnsweredTo(h, order, n) ==> Holds(Observed(h, order), n, StateAt(LEASE, h, order, Free, n))
  {
    if n > 0 {
      MirrorsGrants(h, order, n - 1);
      AnsweredToNext(h, order, n - 1);
      LawfulToNext(Observed(h, order), n - 1);
      if AnsweredTo(h, order, n - 1) {
        LawfulStep(Observed(h, order), n - 1, StateAt(LEASE, h, order, Free, n - 1));
      }
    }
  }

  /** The model accepts an order exactly when the observed events, in that order, obey the law. */
  lemma AcceptedIffLawful(h: seq<LeaseEvent>, order: seq<nat>)
    requires InRange(h, order)
    ensures Replays(LEASE, h, order, LEASE.initial) <==> Lawful(Observed(h, order))
  {
    ReplaysPointwise(LEASE, h, order, LEASE.initial);
    MirrorsGrants(h, order, |order|);
    assert Lawful(Observed(h, order)) <==> LawfulTo(Observed(h, order), |order|);
  }

  // ---------------------------------------------------------------- consequences

  /** There is a grant in force after an unreleased grant. */
  lemma {:induction false} UnreleasedGrant(evs: seq<LeaseEvent>, i: nat, j: nat) returns (g: nat)
    requires i < j <= |evs| && Acquired(evs[i])
    requires forall k :: i < k < j ==> !evs[k].op.Release?
    ensures i <= g && InForce(evs, g, j)
  {
    if i + 1 == j || Acquired(evs[j - 1]) {
      g := j - 1;
    } else {
      g := UnreleasedGrant(evs, i, j - 1);
    }
  }

  /** Any two grants with no release between them, neighbours or not, have disjoint leases. */
  lemma {:induction false} GrantsAreDisjoint(evs: seq<LeaseEvent>, i: nat, j: nat)
    requires Lawful(evs) && i < j < |evs| && Acquired(evs[i]) && Acquired(evs[j])
    requires forall k :: i < k < j ==> !evs[k].op.Release?
    ensures Expiry(evs[i]) <= evs[j].op.now
    decreases j
  {
    var g := UnreleasedGrant(evs, i, j);
    assert LawfulAt(evs, j);
    if g != i {
      GrantsAreDisjoint(evs, i, g);
    }
  }

  /** A refused claim names the claimer of a grant that is live at the claim's instant. */
  lemma RefusalNamesLiveHolder(evs: seq<LeaseEvent>, i: nat) returns (g: nat)
    requires Lawful(evs) && i < |evs| && evs[i].op.Claim? && !Acquired(evs[i])
    ensures InForce(evs, g, i)
    ensures evs[i].ret == Claimed(false, evs[g].op.claimer)
    ensures evs[g].op.now + evs[g].op.ttl > evs[i].op.now
  {
    assert LawfulAt(evs, i);
    g :| g < i && InForce(evs, g, i) && Expiry(evs[g]) > evs[i].op.now;
    var g': nat :| g' < i && InForce(evs, g', i) && evs[i].ret == Claimed(false, evs[g'].op.claimer);
    InForceUnique(evs, g, g', i);
  }

  /** Real time keeps the release `r` from falling between operations `a` and `b`. */
  predicate Apart(h: seq<LeaseEvent>, r: nat, a: nat, b: nat)
    requires r < |h| && a < |h| && b < |h|
  {
    || (h[r].end < h[a].start && h[r].end < h[b].start)
    || (h[a].end < h[r].start && h[b].end < h[r].start)
  }

  ghost predicate Exclusive(h: seq<LeaseEvent>, a: nat, b: nat)
    requires a < |h| && b < |h| && h[a].op.Claim? && h[b].op.Claim?
  {
    Expiry(h[a]) <= h[b].op.now || Expiry(h[b]) <= h[a].op.now
  }

  lemma OrderedGrantsAreDisjoint(h: seq<LeaseEvent>, order: seq<nat>, i: nat, j: nat)
    requires IsLinearization(LEASE, h, order) && i < j < |order|
    requires Acquired(h[order[i]]) && Acquired(h[order[j]])
    requires forall r: nat :: r < |h| && h[r].op.Release? ==> Apart(h, r, order[i], order[j])
    ensures Expiry(h[order[i]]) <= h[order[j]].op.now
  {
    var evs := Observed(h, order);
    AcceptedIffLawful(h, order);
    forall k | i < k < j ensures !evs[k].op.Release? {
      assert evs[k] == h[order[k]];
    }
    GrantsAreDisjoint(evs, i, j);
  }

  /** Mutual exclusion read off the history alone: in a linearizable history, two
      distinct granted claims that no release can separate never overlap. */
  lemma LinearizableHistoryIsExclusive(h: seq<LeaseEvent>, a: nat, b: nat)
    requires Linearizable(LEASE, h)
    requires a < |h| && b < |h| && a != b && Acquired(h[a]) && Acquired(h[b])
    requires forall r: nat :: r < |h| && h[r].op.Release? ==> Apart(h, r, a, b)
    ensures Exclusive(h, a, b)
  {
    var order :| IsLinearization(LEASE, h, order);
    assert a in order && b in order;
    var i :| 0 <= i < |order| && order[i] == a;
    var j :| 0 <= j < |order| && order[j] == b;
    if i < j { OrderedGrantsAreDisjoint(h, order, i, j); } else { OrderedGrantsAreDisjoint(h, order, j, i); }
  }

  // ---------------------------------------------------------------- boundaries of the checker

  /** Two clients both win: the history has no linearization although its first
      operation alone has one, so the longest linearizable prefix is not the empty
      one that the checker returns with its rejection. */
  lemma RejectionPrefixIsNotTheLongest()
    ensures var a := Event("A", Claim("A", 1000, 0), Claimed(true, "A"), 0, 20);
            var b := Event("B", Claim("B", 1000, 0), Claimed(true, "B"), 5, 25);
            WellTimed([a, b]) && !Linearizable(LEASE, [a, b]) && Linearizable(LEASE, [a])
  {
    var a := Event("A", Claim("A", 1000, 0), Claimed(true, "A"), 0, 20);
    var b := Event("B", Claim("B", 1000, 0), Claimed(true, "B"), 5, 25);
    if Linearizable(LEASE, [a, b]) {
      LinearizableHistoryIsExclusive([a, b], 0, 1);
    }
    assert IsLinearization(LEASE, [a], [0]);
  }

  /** An operation that ends before it starts is linearizable on its own, yet the
      checker, which compares its start with its own end, rejects it. */
  lemma BackwardsIntervalIsLinearizable()
    ensures var e := Event("A", Release, Released, 1, 0);
            Linearizable(LEASE, [e]) && !WellTimed([e])
  {
    assert IsLinearization(LEASE, [Event("A", Release, Released, 1, 0)], [0]);
  }
}
