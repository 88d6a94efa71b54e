/** Dispatching one outbox effect: any number of dispatchers compete for a lease on
    the effect's row, call the upstream, and record what came back. */
module Outbox {
  import opened Common

  /** The server-backed dispatcher and the embedded reactor record outcomes differently. */
  datatype Flavor = Server | Embedded

  datatype Config = Config(flavor: Flavor, nonIdempotent: bool, dispatchMaxAttempts: int) {
    function MaxAttempts(): nat {
      if dispatchMaxAttempts <= 0 then 5 else dispatchMaxAttempts
    }
  }

  datatype Row = Row(status: EffectStatus, attempts: nat, nextAt: int, claimedBy: Option<nat>, claimExpires: int)

  /** What one upstream call came back with; a raised error is ambiguous. */
  datatype Outcome =
    | AckConfirmed
    | AckLost
    | Raised
    | Rejected(retryAfter: int)
    | StillPending

  datatype Resolution = ObservedConfirmed | ObservedFailed | Absent | Duplicate | Stuck | Unspecified

  // ---------------------------------------------------------------- the store's row transitions

  predicate Claimable(row: Row, at: int) {
    row.status == Pending && row.nextAt <= at && (row.claimedBy == None || row.claimExpires <= at)
  }

  function Claim(row: Row, claimer: nat, at: int, ttl: nat): Row {
    row.(claimedBy := Some(claimer), claimExpires := at + ttl)
  }

  function Released(row: Row): Row {
    row.(claimedBy := None, claimExpires := 0)
  }

  /** A failed dispatch: `nextAt <= 0` parks the effect as UNKNOWN, otherwise a retry is
      scheduled.  The server writes PENDING outright; the embedded store keeps the status. */
  function RecordAttempt(cfg: Config, row: Row, nextAt: int): Row {
    var next := Released(row).(attempts := row.attempts + 1);
    if nextAt <= 0 then next.(status := Unknown, nextAt := 0)
    else next.(nextAt := nextAt, status := if cfg.flavor.Server? then Pending else row.status)
  }

  /** Completion moves only PENDING rows; the embedded store also drops the lease. */
  function Complete(cfg: Config, row: Row, status: EffectStatus): Row {
    if row.status != Pending then row
    else if cfg.flavor.Server? then row.(status := status)
    else Released(row).(status := status)
  }

  function Observe(cfg: Config, row: Row, res: Resolution, now: int): Row {
    match cfg.flavor
    case Server =>
      var reopened := res.Absent? && !cfg.nonIdempotent;
      Released(row).(
        nextAt := if reopened then now else row.nextAt,
        status := match res {
          case ObservedConfirmed | Duplicate => Confirmed
          case ObservedFailed => Failed
          case Absent => if cfg.nonIdempotent then Failed else Pending
          case Stuck => Unknown
          case Unspecified => row.status
        })
    case Embedded =>
      row.(status := match res {
          case ObservedConfirmed | Duplicate => Confirmed
          case ObservedFailed | Stuck => Failed
          case Absent => if cfg.nonIdempotent then Unknown else row.status
          case Unspecified => row.status
        })
  }

  /** The server's older reconciling write: it leaves terminal rows alone, and every lease. */
  function Resolve(row: Row, status: EffectStatus): Row {
    if row.status.Confirmed? || row.status.Failed? then row else row.(status := status)
  }

  /** The dispatcher's reaction to an outcome; `attempts` is the count it read after its claim. */
  function Record(cfg: Config, row: Row, attempts: nat, o: Outcome, retryAt: int): Row {
    match o
    case AckConfirmed => Complete(cfg, row, Confirmed)
    case AckLost => RecordAttempt(cfg, row, 0)
    case Raised => RecordAttempt(cfg, row, if cfg.flavor.Server? && cfg.nonIdempotent then 0 else retryAt)
    case Rejected(retryAfter) =>
      if cfg.flavor.Embedded? then
        if retryAfter < 0 then Complete(cfg, row, Failed) else RecordAttempt(cfg, row, retryAt)
      else GiveUpOrRetry(cfg, row, attempts, retryAt)
    case StillPending =>
      if cfg.flavor.Embedded? then row else GiveUpOrRetry(cfg, row, attempts, retryAt)
  }

  function GiveUpOrRetry(cfg: Config, row: Row, attempts: nat, retryAt: int): Row {
    if attempts + 1 >= cfg.MaxAttempts() then Observe(cfg, row, ObservedFailed, 0)
    else RecordAttempt(cfg, row, retryAt)
  }

  // ---------------------------------------------------------------- the transitions in plain terms

  /** A retry: still PENDING, one more attempt, claimable from `retryAt` on. */
  predicate RetriedAt(row: Row, next: Row, retryAt: int) {
    && next.status == Pending && next.nextAt == retryAt && next.attempts == row.attempts + 1
    && next.claimedBy == None
  }

  /** What recording an outcome makes of a PENDING row whose attempts the dispatcher read. */
  lemma RecordOutcomes(cfg: Config, row: Row, o: Outcome, retryAt: int)
    requires row.status == Pending && retryAt > 0
    ensures var next := Record(cfg, row, row.attempts, o, retryAt);
            var last := row.attempts + 1 >= if cfg.dispatchMaxAttempts <= 0 then 5 else cfg.dispatchMaxAttempts;
            match o {
              case AckConfirmed => next.status == Confirmed && next.attempts == row.attempts
              case AckLost => next.status == Unknown && next.attempts == row.attempts + 1
              case Raised =>
                if cfg.flavor.Server? && cfg.nonIdempotent
                then next.status == Unknown && next.attempts == row.attempts + 1
                else RetriedAt(row, next, retryAt)
              case Rejected(retryAfter) =>
                if cfg.flavor.Server? then if last then next.status == Failed else RetriedAt(row, next, retryAt)
                else if retryAfter < 0 then next.status == Failed else RetriedAt(row, next, retryAt)
              case StillPending =>
                if cfg.flavor.Server? then if last then next.status == Failed else RetriedAt(row, next, retryAt)
                else next == row
            }
  {
  }

  /** Recording on a row that is not PENDING any more: an acknowledgement changes nothing, a
      lost or raised call of a non-idempotent effect parks it on the server, and only the
      server's record of a failed attempt makes it PENDING again. */
  lemma LateRecordOutcomes(cfg: Config, row: Row, attempts: nat, o: Outcome, retryAt: int)
    requires row.status != Pending && retryAt > 0
    ensures var next := Record(cfg, row, attempts, o, retryAt);
            && (o.AckConfirmed? ==> next == row)
            && (o.AckLost? ==> next.status == Unknown)
            && (o.Raised? && cfg.nonIdempotent && cfg.flavor.Server? ==> next.status == Unknown)
            && (cfg.flavor.Embedded? && !o.AckLost? ==> next.status == row.status)
  {
  }

  /** What an observation makes of a row. */
  lemma ObservationOutcomes(cfg: Config, row: Row, res: Resolution, now: int)
    ensures var next := Observe(cfg, row, res, now);
            && next.attempts == row.attempts
            && (res.ObservedConfirmed? || res.Duplicate? ==> next.status == Confirmed)
            && (res.ObservedFailed? ==> next.status == Failed)
            && (res.Unspecified? ==> next.status == row.status)
            && (res.Stuck? ==> next.status == if cfg.flavor.Server? then Unknown else Failed)
            && (res.Absent? && cfg.nonIdempotent ==> next.status == if cfg.flavor.Server? then Failed else Unknown)
            && (res.Absent? && !cfg.nonIdempotent ==>
                  if cfg.flavor.Server? then next.status == Pending && next.nextAt == now
                  else next.status == row.status)
            && (if cfg.flavor.Server? then next.claimedBy == None
                else next.claimedBy == row.claimedBy && next.claimExpires == row.claimExpires)
  {
  }

  /** The outcomes a dispatcher answers by scheduling another call. */
  predicate Retryable(cfg: Config, o: Outcome) {
    match o
    case AckConfirmed | AckLost => false
    case Raised => cfg.flavor.Embedded? || !cfg.nonIdempotent
    case Rejected(retryAfter) => cfg.flavor.Server? || retryAfter >= 0
    case StillPending => true
  }

  // ---------------------------------------------------------------- interleaved dispatchers

  /** Where a dispatcher stands; an active one holds a lease until `expires`. */
  datatype Phase =
    | Idle
    | Leased(expires: int)
    | Ready(expires: int, attempts: nat)
    | Called(expires: int, attempts: nat, outcome: Outcome)

  datatype State = State(now: nat, row: Row, phases: map<nat, Phase>, calls: seq<Outcome>)

  function PhaseOf(s: State, d: nat): Phase {
    if d in s.phases then s.phases[d] else Idle
  }

  predicate Active(s: State, d: nat) {
    !PhaseOf(s, d).Idle?
  }

  function Moved(s: State, d: nat, p: Phase): State {
    s.(phases := s.phases[d := p])
  }

  datatype Step =
    | Tick(later: nat)
    | Claims(d: nat, at: int, ttl: nat)
    | Reads(d: nat)
    | Calls(d: nat, outcome: Outcome)
    | Records(d: nat, retryAt: int)
    | Crashes(d: nat)
    | Reconciles(res: Resolution)
    | Resolves(status: EffectStatus)

  predicate Enabled(cfg: Config, s: State, step: Step) {
    match step
    case Tick(later) => s.now <= later
    // the embedded reactor claims as of the instant its tick began
    case Claims(d, at, _) => !Active(s, d) && at <= s.now && Claimable(s.row, at)
    case Reads(d) => PhaseOf(s, d).Leased?
    case Calls(d, _) => PhaseOf(s, d).Ready?
    case Records(d, retryAt) => PhaseOf(s, d).Called? && retryAt > 0
    case Crashes(d) => PhaseOf(s, d).Leased? || PhaseOf(s, d).Ready?
    // reconcilers list UNKNOWN and stale PENDING rows; when they write, the row may have any status
    case Reconciles(_) => true
    case Resolves(status) => cfg.flavor.Server? && (status.Confirmed? || status.Failed?)
  }

  function Apply(cfg: Config, s: State, step: Step): State
    requires Enabled(cfg, s, step)
  {
    match step
    case Tick(later) => s.(now := later)
    case Claims(d, at, ttl) => Moved(s, d, Leased(at + ttl)).(row := Claim(s.row, d, at, ttl))
    case Reads(d) =>
      var p := PhaseOf(s, d);
      Moved(s, d, if s.row.status == Pending then Ready(p.expires, s.row.attempts) else Idle)
    case Calls(d, o) =>
      var p := PhaseOf(s, d);
      Moved(s, d, Called(p.expires, p.attempts, o)).(calls := s.calls + [o])
    case Records(d, retryAt) =>
      var p := PhaseOf(s, d);
      Moved(s, d, Idle).(row := Record(cfg, s.row, p.attempts, p.outcome, retryAt))
    case Crashes(d) => Moved(s, d, Idle)
    case Reconciles(res) => s.(row := Observe(cfg, s.row, res, s.now))
    case Resolves(status) => s.(row := Resolve(s.row, status))
  }

  predicate Initial(s: State) {
    s.row == Row(Pending, 0, s.row.nextAt, None, 0) && s.phases == map[] && s.calls == []
  }

  /** Every dispatcher finishes with the row before its lease expires. */
  ghost predicate Timely(s: State) {
    forall d: nat :: Active(s, d) ==> s.now < PhaseOf(s, d).expires
  }

  ghost predicate IsRun(cfg: Config, run: seq<State>, steps: seq<Step>) {
    && |run| == |steps| + 1 && Initial(run[0])
    && forall i :: 0 <= i < |steps| ==> Enabled(cfg, run[i], steps[i]) && run[i + 1] == Apply(cfg, run[i], steps[i])
  }

  ghost predicate AllTimely(run: seq<State>) {
    forall i :: 0 <= i < |run| ==> Timely(run[i])
  }

  /** On the server an unspecified observation of a PENDING row changes nothing but the lease,
      which it takes from the dispatcher that holds it. */
  ghost predicate DropsLease(cfg: Config, s: State, step: Step) {
    cfg.flavor.Server? && step == Reconciles(Unspecified) && s.row.status == Pending && exists d: nat :: Active(s, d)
  }

  ghost predicate LeasesRespected(cfg: Config, run: seq<State>, steps: seq<Step>)
    requires |steps| < |run|
  {
    forall i :: 0 <= i < |steps| ==> !DropsLease(cfg, run[i], steps[i])
  }

  /** A run in which dispatchers are timely and no observation drops a live lease. */
  ghost predicate IsGoodRun(cfg: Config, run: seq<State>, steps: seq<Step>) {
    IsRun(cfg, run, steps) && AllTimely(run) && LeasesRespected(cfg, run, steps)
  }

  // ---------------------------------------------------------------- the invariant

  /** What an active dispatcher may rely on: the lease while the row is PENDING, and the
      attempt count it read. */
  predicate Backed(s: State, d: nat)
    requires Active(s, d)
  {
    && (s.row.status == Pending ==> s.row.claimedBy == Some(d) && s.row.claimExpires == PhaseOf(s, d).expires)
    && (!PhaseOf(s, d).Leased? ==> PhaseOf(s, d).attempts == s.row.attempts)
  }

  /** At most one dispatcher is active. */
  ghost predicate LeaseInv(s: State) {
    && (forall d: nat, d': nat :: Active(s, d) && Active(s, d') ==> d == d')
    && (forall d: nat :: Active(s, d) ==> Backed(s, d))
  }

  predicate AllRetryable(cfg: Config, calls: seq<Outcome>) {
    forall i :: 0 <= i < |calls| ==> Retryable(cfg, calls[i])
  }

  predicate LastAtMostFinal(cfg: Config, calls: seq<Outcome>) {
    calls == [] || AllRetryable(cfg, calls[..|calls| - 1])
  }

  /** Some dispatcher has called the upstream and not recorded the outcome. */
  ghost predicate AwaitsRecord(s: State) {
    exists d: nat :: PhaseOf(s, d).Called?
  }

  /** Some dispatcher is about to call the upstream. */
  ghost predicate Prepared(s: State) {
    exists d: nat :: PhaseOf(s, d).Ready?
  }

  /** While the row is PENDING, or a dispatcher is about to call, and no call
      awaits recording, every call so far was retryable. */
  ghost predicate CallsInv(cfg: Config, s: State) {
    && LastAtMostFinal(cfg, s.calls)
    && (forall d: nat :: PhaseOf(s, d).Called? ==> s.calls != [] && s.calls[|s.calls| - 1] == PhaseOf(s, d).outcome)
    && (s.row.status == Pending || Prepared(s) ==> AwaitsRecord(s) || AllRetryable(cfg, s.calls))
  }

  /** The server counts attempts: a row that can still be called has had fewer than the maximum. */
  ghost predicate CountInv(cfg: Config, s: State) {
    && |s.calls| <= cfg.MaxAttempts()
    && (s.row.status == Pending || Prepared(s) || AwaitsRecord(s) ==>
         && s.row.attempts < cfg.MaxAttempts()
         && |s.calls| == s.row.attempts + if AwaitsRecord(s) then 1 else 0)
  }

  /** A claimable row is in nobody's hands. */
  lemma NobodyActive(s: State, at: int)
    requires LeaseInv(s) && Timely(s) && at <= s.now && Claimable(s.row, at)
    ensures forall d: nat :: PhaseOf(s, d).Idle?
  {
    forall d: nat ensures PhaseOf(s, d).Idle? { assert Active(s, d) ==> Backed(s, d); }
  }

  lemma LeaseKept(cfg: Config, s: State, step: Step)
    requires cfg.nonIdempotent && LeaseInv(s) && Timely(s) && Enabled(cfg, s, step) && !DropsLease(cfg, s, step)
    ensures LeaseInv(Apply(cfg, s, step))
  {
    var t := Apply(cfg, s, step);
    match step {
      case Claims(c, at, _) =>
        NobodyActive(s, at);
        forall d: nat | Active(t, d) ensures d == c && Backed(t, d) {
          assert d != c ==> PhaseOf(t, d) == PhaseOf(s, d);
        }
      case Records(c, _) =>
        OnlyOne(s, c);
        forall d: nat ensures PhaseOf(t, d).Idle? { assert d != c ==> PhaseOf(t, d) == PhaseOf(s, d); }
      case Reconciles(_) => ObservationKeepsLease(cfg, s, step);
      case _ =>
        forall d: nat | Active(t, d) ensures Active(s, d) && Backed(t, d) { assert Active(s, d) && Backed(s, d); }
    }
  }

  lemma ObservationKeepsLease(cfg: Config, s: State, step: Step)
    requires cfg.nonIdempotent && LeaseInv(s) && step.Reconciles? && !DropsLease(cfg, s, step)
    ensures LeaseInv(Apply(cfg, s, step))
  {
    var t := Apply(cfg, s, step);
    forall d: nat | Active(t, d) ensures Active(s, d) && Backed(t, d) { assert Active(s, d) && Backed(s, d); }
  }

  /** A recorded row is PENDING only after a retryable outcome. */
  lemma RecordedPending(cfg: Config, row: Row, attempts: nat, o: Outcome, retryAt: int)
    requires cfg.nonIdempotent && retryAt > 0 && Record(cfg, row, attempts, o, retryAt).status == Pending
    ensures Retryable(cfg, o) && (row.status == Pending || cfg.flavor.Server?)
  {
  }

  lemma SameCalled(s: State, t: State)
    requires forall d: nat :: PhaseOf(t, d).Called? <==> PhaseOf(s, d).Called?
    ensures AwaitsRecord(t) <==> AwaitsRecord(s)
  {
    if d: nat :| PhaseOf(s, d).Called? { assert PhaseOf(t, d).Called?; }
    if d: nat :| PhaseOf(t, d).Called? { assert PhaseOf(s, d).Called?; }
  }

  /** Steps that neither call nor record leave the calls and the called dispatcher alone. */
  predicate Quiet(step: Step) {
    !step.Calls? && !step.Records?
  }

  lemma QuietStep(cfg: Config, s: State, step: Step)
    requires cfg.nonIdempotent && Enabled(cfg, s, step) && Quiet(step)
    ensures var t := Apply(cfg, s, step);
            && t.calls == s.calls
            && (t.row.status == Pending ==> s.row.status == Pending) && t.row.attempts == s.row.attempts
            && (forall d: nat :: PhaseOf(t, d).Called? ==> PhaseOf(t, d) == PhaseOf(s, d))
            && (AwaitsRecord(t) <==> AwaitsRecord(s))
            && (Prepared(t) ==> Prepared(s) || s.row.status == Pending)
  {
    var t := Apply(cfg, s, step);
    SameCalled(s, t);
    if d: nat :| PhaseOf(t, d).Ready? {
      assert PhaseOf(s, d).Ready? || step == Reads(d);
    }
  }

  lemma OnlyOne(s: State, d: nat)
    requires LeaseInv(s) && Active(s, d)
    ensures forall d': nat :: !PhaseOf(s, d').Idle? ==> d' == d
  {
    forall d': nat | !PhaseOf(s, d').Idle? ensures d' == d { assert Active(s, d'); }
  }

  lemma CallsKeptByCall(cfg: Config, s: State, d: nat, o: Outcome)
    requires LeaseInv(s) && CallsInv(cfg, s) && Enabled(cfg, s, Calls(d, o))
    ensures CallsInv(cfg, Apply(cfg, s, Calls(d, o)))
  {
    var t := Apply(cfg, s, Calls(d, o));
    OnlyOne(s, d);
    assert !AwaitsRecord(s) && Prepared(s);
    assert t.calls[..|t.calls| - 1] == s.calls;
    assert PhaseOf(t, d).Called?;
    forall d': nat | PhaseOf(t, d').Called? ensures d' == d {
      assert d' != d ==> PhaseOf(t, d') == PhaseOf(s, d');
    }
  }

  lemma CallsKeptByRecord(cfg: Config, s: State, d: nat, retryAt: int)
    requires cfg.nonIdempotent && LeaseInv(s) && CallsInv(cfg, s) && Enabled(cfg, s, Records(d, retryAt))
    ensures CallsInv(cfg, Apply(cfg, s, Records(d, retryAt)))
  {
    var t, p := Apply(cfg, s, Records(d, retryAt)), PhaseOf(s, d);
    OnlyOne(s, d);
    forall d': nat ensures PhaseOf(t, d').Idle? { assert d' != d ==> PhaseOf(t, d') == PhaseOf(s, d'); }
    if t.row.status == Pending {
      RecordedPending(cfg, s.row, p.attempts, p.outcome, retryAt);
      LastAndRest(cfg, s.calls);
    }
  }

  lemma CallsKept(cfg: Config, s: State, step: Step)
    requires cfg.nonIdempotent && LeaseInv(s) && CallsInv(cfg, s) && Enabled(cfg, s, step)
    ensures CallsInv(cfg, Apply(cfg, s, step))
  {
    match step {
      case Calls(d, o) => CallsKeptByCall(cfg, s, d, o);
      case Records(d, retryAt) => CallsKeptByRecord(cfg, s, d, retryAt);
      case _ => QuietStep(cfg, s, step);
    }
  }

  lemma LastAndRest(cfg: Config, calls: seq<Outcome>)
    requires calls != [] && LastAtMostFinal(cfg, calls) && Retryable(cfg, calls[|calls| - 1])
    ensures AllRetryable(cfg, calls)
  {
    forall i | 0 <= i < |calls| ensures Retryable(cfg, calls[i]) {
      if i < |calls| - 1 { assert calls[i] == calls[..|calls| - 1][i]; }
    }
  }

  lemma CountKept(cfg: Config, s: State, step: Step)
    requires cfg.nonIdempotent && cfg.flavor.Server? && LeaseInv(s) && CountInv(cfg, s) && Enabled(cfg, s, step)
    ensures CountInv(cfg, Apply(cfg, s, step))
  {
    var t := Apply(cfg, s, step);
    match step {
      case Calls(d, o) =>
        OnlyOne(s, d);
        assert Prepared(s) && !AwaitsRecord(s) && PhaseOf(t, d).Called?;
      case Records(d, retryAt) =>
        var p := PhaseOf(s, d);
        OnlyOne(s, d);
        assert AwaitsRecord(s) && Backed(s, d);
        forall d': nat ensures PhaseOf(t, d').Idle? { assert d' != d ==> PhaseOf(t, d') == PhaseOf(s, d'); }
        if t.row.status == Pending { RecordedCount(cfg, s.row, p.attempts, p.outcome, retryAt); }
      case _ => QuietStep(cfg, s, step);
    }
  }

  /** On the server a row recorded as PENDING has one more attempt, still below the maximum. */
  lemma RecordedCount(cfg: Config, row: Row, attempts: nat, o: Outcome, retryAt: int)
    requires cfg.nonIdempotent && cfg.flavor.Server? && attempts == row.attempts
    requires Record(cfg, row, attempts, o, retryAt).status == Pending && retryAt > 0
    ensures Record(cfg, row, attempts, o, retryAt).attempts == row.attempts + 1 < cfg.MaxAttempts()
  {
  }

  ghost predicate Inv(cfg: Config, s: State) {
    LeaseInv(s) && CallsInv(cfg, s) && (cfg.flavor.Server? ==> CountInv(cfg, s))
  }

  lemma {:induction false} RunKeepsInv(cfg: Config, run: seq<State>, steps: seq<Step>, n: nat)
    requires cfg.nonIdempotent && IsGoodRun(cfg, run, steps) && n < |run|
    ensures Inv(cfg, run[n])
  {
    if n > 0 {
      var s, step := run[n - 1], steps[n - 1];
      RunKeepsInv(cfg, run, steps, n - 1);
      assert run[n - 1 + 1] == Apply(cfg, s, step);
      LeaseKept(cfg, s, step);
      CallsKept(cfg, s, step);
      if cfg.flavor.Server? { CountKept(cfg, s, step); }
    }
  }

  // ---------------------------------------------------------------- what the protocol guarantees

  /** In every good run, of either flavor and with reconcilers writing at any time, a
      non-idempotent effect is called again only after outcomes the dispatcher treats as
      retryable. */
  lemma OnlyRetryableCallsAreRepeated(cfg: Config, run: seq<State>, steps: seq<Step>, n: nat, i: nat, j: nat)
    requires cfg.nonIdempotent && IsGoodRun(cfg, run, steps) && n < |run|
    requires i < j < |run[n].calls|
    ensures Retryable(cfg, run[n].calls[i])
  {
    RunKeepsInv(cfg, run, steps, n);
    assert run[n].calls[i] == run[n].calls[..|run[n].calls| - 1][i];
  }

  /** With connectors that never answer "pending" (and, for the embedded reactor, never
      raise), no call follows a confirmed, lost or raised one; the server also stops
      after its maximum number of calls. */
  lemma NoCallAfterAmbiguity(cfg: Config, run: seq<State>, steps: seq<Step>, n: nat)
    requires cfg.nonIdempotent && IsGoodRun(cfg, run, steps) && n < |run|
    requires StillPending !in run[n].calls
    requires cfg.flavor.Embedded? ==> Raised !in run[n].calls
    ensures forall i :: 0 <= i < |run[n].calls| - 1 ==> run[n].calls[i].Rejected?
    ensures cfg.flavor.Server? ==> |run[n].calls| <= cfg.MaxAttempts()
  {
    RunKeepsInv(cfg, run, steps, n);
    var calls := run[n].calls;
    forall i | 0 <= i < |calls| - 1 ensures calls[i].Rejected? {
      OnlyRetryableCallsAreRepeated(cfg, run, steps, n, i, i + 1);
      assert calls[i] in calls;
    }
  }

  /** In a good run, recording a call makes a PENDING row CONFIRMED if it was acknowledged,
      UNKNOWN if its acknowledgement was lost, and otherwise what `RecordOutcomes` says. */
  lemma RecordedInRun(cfg: Config, run: seq<State>, steps: seq<Step>, n: nat)
    requires cfg.nonIdempotent && IsGoodRun(cfg, run, steps) && n < |steps| && steps[n].Records?
    requires run[n].row.status == Pending
    ensures var o := PhaseOf(run[n], steps[n].d).outcome;
            && (o == AckConfirmed <==> run[n + 1].row.status == Confirmed)
            && (o == AckLost ==> run[n + 1].row.status == Unknown)
            && (o == Raised && cfg.flavor.Server? ==> run[n + 1].row.status == Unknown)
            && run[n].calls != [] && run[n].calls[|run[n].calls| - 1] == o
  {
    var s, d := run[n], steps[n].d;
    RunKeepsInv(cfg, run, steps, n);
    assert Active(s, d) && Backed(s, d) && run[n + 1] == Apply(cfg, s, steps[n]);
    RecordOutcomes(cfg, s.row, PhaseOf(s, d).outcome, steps[n].retryAt);
  }

  /** A claim is won only on a PENDING row whose retry instant has come and which nobody else
      holds: a scheduled retry waits, whoever tries. */
  lemma ClaimsWait(cfg: Config, run: seq<State>, steps: seq<Step>, n: nat)
    requires IsRun(cfg, run, steps) && n < |steps| && steps[n].Claims?
    ensures run[n].row.status == Pending && run[n].row.nextAt <= run[n].now
    ensures run[n].row.claimedBy == None || run[n].row.claimExpires <= run[n].now
    ensures run[n + 1].row.claimedBy == Some(steps[n].d) && run[n + 1].row.claimExpires == steps[n].at + steps[n].ttl
  {
    assert run[n + 1] == Apply(cfg, run[n], steps[n]);
  }

  // ---------------------------------------------------------------- where the guarantees end

  /** One more step at the end of a run. */
  lemma Extend(cfg: Config, run: seq<State>, steps: seq<Step>, step: Step) returns (run': seq<State>, steps': seq<Step>)
    requires IsRun(cfg, run, steps) && Enabled(cfg, run[|steps|], step)
    ensures IsRun(cfg, run', steps') && |steps'| == |steps| + 1
    ensures run'[|steps'|] == Apply(cfg, run[|steps|], step)
    ensures run <= run' && steps <= steps'
    ensures AllTimely(run) && Timely(run'[|steps'|]) ==> AllTimely(run')
    ensures LeasesRespected(cfg, run, steps) && !DropsLease(cfg, run[|steps|], step) ==>
              LeasesRespected(cfg, run', steps')
  {
    run', steps' := run + [Apply(cfg, run[|steps|], step)], steps + [step];
    if LeasesRespected(cfg, run, steps) && !DropsLease(cfg, run[|steps|], step) {
      forall i | 0 <= i < |steps'| ensures !DropsLease(cfg, run'[i], steps'[i]) {
        if i < |steps| { assert run'[i] == run[i] && steps'[i] == steps[i] && !DropsLease(cfg, run[i], steps[i]); }
      }
    }
    forall i | 0 <= i < |steps'|
      ensures Enabled(cfg, run'[i], steps'[i]) && run'[i + 1] == Apply(cfg, run'[i], steps'[i])
    {
      if i < |steps| { assert run'[i] == run[i] && run'[i + 1] == run[i + 1]; }
    }
  }

  const FRESH := State(1, Row(Pending, 0, 0, None, 0), map[], [])

  lemma TimelyMoved(s: State, t: State, d: nat, p: Phase)
    requires Timely(s) && t.now == s.now && t.phases == s.phases[d := p] && (p.Idle? || t.now < p.expires)
    ensures Timely(t)
  {
    forall d': nat | Active(t, d') ensures t.now < PhaseOf(t, d').expires {
      assert d' != d ==> PhaseOf(t, d') == PhaseOf(s, d');
    }
  }

  /** The state after dispatcher `d` has claimed, read and called at one instant. */
  function AfterCall(s: State, d: nat, ttl: nat, o: Outcome): State {
    State(s.now, Claim(s.row, d, s.now, ttl), s.phases[d := Called(s.now + ttl, s.row.attempts, o)], s.calls + [o])
  }

  /** Dispatcher `d` claims, reads and calls, from a state in which it is idle. */
  lemma CallOnce(cfg: Config, run: seq<State>, steps: seq<Step>, d: nat, ttl: nat, o: Outcome)
    returns (run': seq<State>, steps': seq<Step>)
    requires IsRun(cfg, run, steps) && ttl > 0
    requires var s := run[|steps|]; !Active(s, d) && Claimable(s.row, s.now)
    ensures IsRun(cfg, run', steps') && run <= run' && steps <= steps'
    ensures run'[|steps'|] == AfterCall(run[|steps|], d, ttl, o)
    ensures AllTimely(run) ==> AllTimely(run')
    ensures LeasesRespected(cfg, run, steps) ==> LeasesRespected(cfg, run', steps')
  {
    var s := run[|steps|];
    var s1, s2, t := ThreeSteps(cfg, s, d, ttl, o);
    var run1, steps1 := ExtendMoving(cfg, run, steps, Claims(d, s.now, ttl), d);
    var run2, steps2 := ExtendMoving(cfg, run1, steps1, Reads(d), d);
    run', steps' := ExtendMoving(cfg, run2, steps2, Calls(d, o), d);
  }

  /** What the three steps amount to. */
  lemma ThreeSteps(cfg: Config, s: State, d: nat, ttl: nat, o: Outcome) returns (s1: State, s2: State, t: State)
    requires !Active(s, d) && Claimable(s.row, s.now)
    ensures Enabled(cfg, s, Claims(d, s.now, ttl)) && s1 == Apply(cfg, s, Claims(d, s.now, ttl))
    ensures Enabled(cfg, s1, Reads(d)) && s2 == Apply(cfg, s1, Reads(d))
    ensures Enabled(cfg, s2, Calls(d, o)) && t == Apply(cfg, s2, Calls(d, o))
    ensures t == AfterCall(s, d, ttl, o)
  {
    s1 := Apply(cfg, s, Claims(d, s.now, ttl));
    s2 := Apply(cfg, s1, Reads(d));
    t := Apply(cfg, s2, Calls(d, o));
  }

  /** One more step, of one dispatcher, at one instant. */
  lemma ExtendMoving(cfg: Config, run: seq<State>, steps: seq<Step>, step: Step, d: nat)
    returns (run': seq<State>, steps': seq<Step>)
    requires IsRun(cfg, run, steps) && Enabled(cfg, run[|steps|], step)
    requires step == Reads(d) || (step.Claims? && step.d == d) || (step.Calls? && step.d == d)
    ensures IsRun(cfg, run', steps') && |steps'| == |steps| + 1
    ensures run <= run' && steps <= steps' && run'[|steps'|] == Apply(cfg, run[|steps|], step)
    ensures AllTimely(run) && (step.Claims? ==> run[|steps|].now < step.at + step.ttl) ==> AllTimely(run')
    ensures LeasesRespected(cfg, run, steps) ==> LeasesRespected(cfg, run', steps')
  {
    var s, t := run[|steps|], Apply(cfg, run[|steps|], step);
    run', steps' := Extend(cfg, run, steps, step);
    if AllTimely(run) && (step.Claims? ==> s.now < step.at + step.ttl) {
      assert Timely(s) && (Active(s, d) ==> s.now < PhaseOf(s, d).expires);
      TimelyMoved(s, t, d, PhaseOf(t, d));
    }
  }

  /** The embedded reactor retries a raised call whatever the effect's semantics: a
      timely run of it repeats a non-idempotent call whose fate is not known. */
  lemma EmbeddedRepeatsRaisedCalls(cfg: Config) returns (run: seq<State>, steps: seq<Step>)
    requires cfg.flavor.Embedded? && cfg.nonIdempotent
    ensures IsGoodRun(cfg, run, steps)
    ensures run[|steps|].calls == [Raised, AckConfirmed]
  {
    run, steps := [FRESH], [];
    run, steps := CallOnce(cfg, run, steps, 0, 60000, Raised);
    run, steps := Extend(cfg, run, steps, Records(0, 2));
    run, steps := Extend(cfg, run, steps, Tick(2));
    run, steps := CallOnce(cfg, run, steps, 0, 60000, AckConfirmed);
  }

  /** Timeliness is needed: a lease that runs out before the outcome is recorded lets a
      second dispatcher repeat a confirmed call. */
  lemma ExpiredLeaseRepeatsConfirmedCall(cfg: Config) returns (run: seq<State>, steps: seq<Step>)
    requires cfg.nonIdempotent
    ensures IsRun(cfg, run, steps) && LeasesRespected(cfg, run, steps)
    ensures run[|steps|].calls == [AckConfirmed, AckConfirmed]
  {
    run, steps := [FRESH], [];
    run, steps := CallOnce(cfg, run, steps, 0, 60000, AckConfirmed);
    run, steps := Extend(cfg, run, steps, Tick(60001));
    run, steps := CallOnce(cfg, run, steps, 1, 60000, AckConfirmed);
  }

  /** So is respect for leases: on the server an unspecified observation of a PENDING row frees
      it while a call is in flight, and a second dispatcher repeats the call. */
  lemma ObservationDropsLiveLease(cfg: Config) returns (run: seq<State>, steps: seq<Step>)
    requires cfg.flavor.Server? && cfg.nonIdempotent
    ensures IsRun(cfg, run, steps) && AllTimely(run)
    ensures run[|steps|].calls == [AckConfirmed, AckConfirmed]
  {
    run, steps := [FRESH], [];
    run, steps := CallOnce(cfg, run, steps, 0, 60000, AckConfirmed);
    run, steps := Extend(cfg, run, steps, Reconciles(Unspecified));
    run, steps := CallOnce(cfg, run, steps, 1, 60000, AckConfirmed);
  }

  /** And so is the exclusion of connectors that answer "pending": both flavors call again. */
  lemma PendingAnswerIsRepeated(cfg: Config) returns (run: seq<State>, steps: seq<Step>)
    requires cfg.nonIdempotent && cfg.MaxAttempts() > 1
    ensures IsGoodRun(cfg, run, steps)
    ensures run[|steps|].calls == [StillPending, AckConfirmed]
  {
    run, steps := [FRESH], [];
    run, steps := CallOnce(cfg, run, steps, 0, 60000, StillPending);
    run, steps := Extend(cfg, run, steps, Records(0, 2));
    run, steps := Extend(cfg, run, steps, Tick(60001));
    run, steps := CallOnce(cfg, run, steps, 0, 60000, AckConfirmed);
  }

  // ---------------------------------------------------------------- rows that are not PENDING any more

  /** Recording the outcome makes the row PENDING whatever it was: the server writes PENDING
      outright, and this is not the last attempt. */
  predicate Reopens(cfg: Config, p: Phase) {
    && cfg.flavor.Server? && p.Called?
    && (p.outcome.Rejected? || p.outcome.StillPending?) && p.attempts + 1 < cfg.MaxAttempts()
  }

  /** A dispatcher in flight is about to call, or will reopen the row. */
  predicate CallsOn(cfg: Config, s: State, d: nat) {
    PhaseOf(s, d).Ready? || Reopens(cfg, PhaseOf(s, d))
  }

  ghost predicate MayStillCall(cfg: Config, s: State) {
    exists d: nat :: CallsOn(cfg, s, d)
  }

  lemma ReopensIff(cfg: Config, row: Row, p: Phase, retryAt: int)
    requires cfg.nonIdempotent && row.status != Pending && retryAt > 0 && p.Called?
    ensures Record(cfg, row, p.attempts, p.outcome, retryAt).status == Pending <==> Reopens(cfg, p)
  {
  }

  lemma SettledKept(cfg: Config, s: State, step: Step)
    requires cfg.nonIdempotent && Enabled(cfg, s, step) && s.row.status != Pending && !MayStillCall(cfg, s)
    ensures var t := Apply(cfg, s, step);
            t.row.status != Pending && !MayStillCall(cfg, t) && t.calls == s.calls
  {
    var t := Apply(cfg, s, step);
    assert step.Calls? ==> CallsOn(cfg, s, step.d);
    if step.Records? {
      ReopensIff(cfg, s.row, PhaseOf(s, step.d), step.retryAt);
      assert !CallsOn(cfg, s, step.d);
    }
    forall d: nat ensures !CallsOn(cfg, t, d) { assert !CallsOn(cfg, s, d); }
  }

  /** Once the row is not PENDING and no dispatcher in flight may still call, there is no
      further call, in any continuation whatever, timely or not. */
  lemma {:induction false} NoFurtherCall(cfg: Config, run: seq<State>, steps: seq<Step>, m: nat, n: nat)
    requires cfg.nonIdempotent && IsRun(cfg, run, steps) && m <= n < |run|
    requires run[m].row.status != Pending && !MayStillCall(cfg, run[m])
    ensures run[n].row.status != Pending && !MayStillCall(cfg, run[n]) && run[n].calls == run[m].calls
  {
    if m < n {
      NoFurtherCall(cfg, run, steps, m, n - 1);
      assert run[n - 1 + 1] == Apply(cfg, run[n - 1], steps[n - 1]);
      SettledKept(cfg, run[n - 1], steps[n - 1]);
    }
  }

  /** Conversely, if one may, there is a good continuation with one more call, even if the
      row is CONFIRMED. */
  lemma FurtherCall(cfg: Config, run: seq<State>, steps: seq<Step>, o: Outcome)
    returns (run': seq<State>, steps': seq<Step>)
    requires cfg.nonIdempotent && IsGoodRun(cfg, run, steps)
    requires run[|steps|].row.status != Pending && MayStillCall(cfg, run[|steps|])
    ensures IsGoodRun(cfg, run', steps') && run <= run' && steps <= steps'
    ensures run'[|steps'|].calls == run[|steps|].calls + [o]
  {
    var s := run[|steps|];
    var d: nat :| CallsOn(cfg, s, d);
    if PhaseOf(s, d).Ready? {
      run', steps' := ExtendMoving(cfg, run, steps, Calls(d, o), d);
    } else {
      run', steps' := Reopen(cfg, run, steps, d);
      run', steps' := CallOnce(cfg, run', steps', d, 60000, o);
    }
  }

  /** The dispatcher records its outcome and, a moment later, the row is claimable. */
  lemma Reopen(cfg: Config, run: seq<State>, steps: seq<Step>, d: nat)
    returns (run': seq<State>, steps': seq<Step>)
    requires cfg.nonIdempotent && IsGoodRun(cfg, run, steps)
    requires run[|steps|].row.status != Pending && Reopens(cfg, PhaseOf(run[|steps|], d))
    ensures IsGoodRun(cfg, run', steps') && run <= run' && steps <= steps'
    ensures var t := run'[|steps'|];
            t.calls == run[|steps|].calls && Claimable(t.row, t.now) && forall d': nat :: PhaseOf(t, d').Idle?
  {
    var s := run[|steps|];
    RunKeepsInv(cfg, run, steps, |steps|);
    ReopensIff(cfg, s.row, PhaseOf(s, d), 1);
    run', steps' := Extend(cfg, run, steps, Records(d, 1));
    var t := run'[|steps'|];
    OnlyOne(s, d);
    forall d': nat ensures PhaseOf(t, d').Idle? { assert d' != d ==> PhaseOf(t, d') == PhaseOf(s, d'); }
    run', steps' := Extend(cfg, run', steps', Tick(t.now + 1));
    var u := run'[|steps'|];
    forall d': nat ensures PhaseOf(u, d').Idle? { assert PhaseOf(t, d').Idle?; }
    assert Timely(t) && Timely(u);
  }

  /** A good run of the server in which a non-idempotent effect is called although the ledger
      had it CONFIRMED: the observation came between a rejected call and its record. */
  lemma ConfirmedIsCalledAgain(cfg: Config) returns (run: seq<State>, steps: seq<Step>, k: nat)
    requires cfg.flavor.Server? && cfg.nonIdempotent && cfg.MaxAttempts() > 1
    ensures IsGoodRun(cfg, run, steps) && k < |run|
    ensures run[k].row.status == Confirmed && |run[k].calls| == 1
    ensures run[|steps|].calls == [Rejected(0), AckConfirmed]
  {
    run, steps := [FRESH], [];
    run, steps := CallOnce(cfg, run, steps, 0, 60000, Rejected(0));
    run, steps := Extend(cfg, run, steps, Reconciles(ObservedConfirmed));
    k := |steps|;
    assert CallsOn(cfg, run[k], 0);
    ghost var before := run;
    run, steps := FurtherCall(cfg, run, steps, AckConfirmed);
    assert run[k] == before[k];
  }

  // ---------------------------------------------------------------- one dispatch, start to finish

  datatype Report = Skipped | Reported(outcome: Outcome)

  /** The row as one dispatcher drives it when nobody interleaves. */
  class EffectRow {
    const cfg: Config
    var row: Row
    ghost var calls: seq<Outcome>

    constructor (cfg: Config, row: Row)
      ensures this.cfg == cfg && this.row == row && calls == []
    {
      this.cfg := cfg;
      this.row := row;
      calls := [];
    }

    method ClaimEffectDispatch(claimer: nat, now: int, leaseTtl: int) returns (acquired: bool)
      modifies this`row
      ensures acquired == old(Claimable(row, now))
      ensures row == if acquired then Claim(old(row), claimer, now, if leaseTtl > 0 then leaseTtl else 60000)
                     else old(row)
    {
      var ttl := if leaseTtl > 0 then leaseTtl else 60000;
      acquired := row.status == Pending && row.nextAt <= now && (row.claimedBy == None || row.claimExpires <= now);
      if acquired {
        row := row.(claimedBy := Some(claimer), claimExpires := now + ttl);
      }
    }

    /** Claim, check, call, record.  `answer` is what the upstream will say. */
    method DispatchOne(claimer: nat, now: nat, answer: Outcome, retryAt: int) returns (r: Report)
      modifies this
      ensures old(Claimable(row, now)) <==> r == Reported(answer)
      ensures r.Skipped? ==> row == old(row) && calls == old(calls)
      ensures r.Reported? ==>
                && calls == old(calls) + [answer]
                && row == Record(cfg, Claim(old(row), claimer, now, 60000), old(row.attempts), answer, retryAt)
    {
      var acquired := ClaimEffectDispatch(claimer, now, 60000);
      if !acquired {
        return Skipped;
      }
      var cur := row;
      calls := calls + [answer];
      match answer {
        case AckConfirmed => row := Complete(cfg, row, Confirmed);
        case AckLost => row := RecordAttempt(cfg, row, 0);
        case Raised =>
          if cfg.flavor.Server? && cfg.nonIdempotent {
            row := RecordAttempt(cfg, row, 0);
          } else {
            row := RecordAttempt(cfg, row, retryAt);
          }
        case Rejected(retryAfter) =>
          if cfg.flavor.Embedded? && retryAfter < 0 {
            row := Complete(cfg, row, Failed);
          } else if cfg.flavor.Server? && cur.attempts + 1 >= cfg.MaxAttempts() {
            row := Observe(cfg, row, ObservedFailed, 0);
          } else {
            row := RecordAttempt(cfg, row, retryAt);
          }
        case StillPending =>
          if cfg.flavor.Server? {
            if cur.attempts + 1 >= cfg.MaxAttempts() {
              row := Observe(cfg, row, ObservedFailed, 0);
            } else {
              row := RecordAttempt(cfg, row, retryAt);
            }
          }
      }
      return Reported(answer);
    }
  }
}
