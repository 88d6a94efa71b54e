/** Budget admission.  Admission only reads what has been charged so far, so calls
    admitted but not yet charged are invisible to it; how far can spending overshoot? */
module Budget {

  datatype Dim = Usd | Tokens

  /** An amount of money and of tokens (token counts are whole reals). */
  datatype Amount = Amount(usd: real, tokens: real) {
    function In(d: Dim): real {
      if d.Usd? then usd else tokens
    }
    function Plus(other: Amount): Amount {
      Amount(usd + other.usd, tokens + other.tokens)
    }
  }

  /** A cap that is not positive means no cap. */
  datatype Budget = Budget(cap: Amount, spent: Amount)

  predicate Exceeds(b: Budget, estimate: Amount, d: Dim) {
    b.cap.In(d) > 0.0 && b.spent.In(d) + estimate.In(d) > b.cap.In(d)
  }

  datatype Verdict = Admitted | Refused(d: Dim)

  function Admit(b: Budget, estimate: Amount): Verdict {
    if Exceeds(b, estimate, Usd) then Refused(Usd)
    else if Exceeds(b, estimate, Tokens) then Refused(Tokens)
    else Admitted
  }

  function Charge(b: Budget, actual: Amount): Budget {
    b.(spent := b.spent.Plus(actual))
  }

  // ---------------------------------------------------------------- interleavings

  /** `open` holds the estimates of the calls admitted and not yet charged, and `charged` what
      each charge so far took. */
  datatype State = State(budget: Budget, open: seq<Amount>, charged: seq<Amount>)

  predicate Within(a: Amount, bound: Amount) {
    0.0 <= a.usd <= bound.usd && 0.0 <= a.tokens <= bound.tokens
  }

  ghost predicate Next(s: State, t: State, k: nat, m: Amount) {
    || t == s
    || (exists e :: Admits(s, t, e, k, m))
    || (exists i, actual :: Charges(s, t, i, actual))
  }

  /** A call within the estimate bound `m` is admitted while fewer than `k` are open. */
  ghost predicate Admits(s: State, t: State, e: Amount, k: nat, m: Amount) {
    && |s.open| < k && Within(e, m)
    && Admit(s.budget, e) == Admitted
    && t == State(s.budget, s.open + [e], s.charged)
  }

  /** An open call is charged at most its estimate. */
  ghost predicate Charges(s: State, t: State, i: int, actual: Amount) {
    && 0 <= i < |s.open| && Within(actual, s.open[i])
    && t == State(Charge(s.budget, actual), s.open[..i] + s.open[i + 1..], s.charged + [actual])
  }

  ghost predicate IsRun(run: seq<State>, k: nat, m: Amount) {
    && run != [] && run[0].open == [] && run[0].charged == []
    && (forall d :: run[0].budget.cap.In(d) > 0.0 ==> run[0].budget.spent.In(d) <= run[0].budget.cap.In(d))
    && (forall i :: 0 <= i < |run| - 1 ==> Next(run[i], run[i + 1], k, m))
  }

  function Total(open: seq<Amount>, d: Dim): real {
    if open == [] then 0.0 else open[0].In(d) + Total(open[1..], d)
  }

  /** n times x. */
  function Times(n: nat, x: real): real {
    if n == 0 then 0.0 else x + Times(n - 1, x)
  }

  lemma {:induction false} TotalSplit(open: seq<Amount>, i: nat, d: Dim)
    requires i < |open|
    ensures Total(open, d) == Total(open[..i] + open[i + 1..], d) + open[i].In(d)
  {
    if i == 0 {
      assert open[..0] + open[1..] == open[1..];
    } else {
      TotalSplit(open[1..], i - 1, d);
      assert (open[..i] + open[i + 1..])[1..] == open[1..][..i - 1] + open[1..][i..];
    }
  }

  lemma {:induction false} TotalSnoc(open: seq<Amount>, e: Amount, d: Dim)
    ensures Total(open + [e], d) == Total(open, d) + e.In(d)
  {
    TotalSplit(open + [e], |open|, d);
    assert (open + [e])[..|open|] + (open + [e])[|open| + 1..] == open;
  }

  lemma {:induction false} TimesMonotone(n: nat, k: nat, x: real)
    requires n <= k && 0.0 <= x
    ensures Times(n, x) <= Times(k, x)
  {
    if n < k { TimesMonotone(n, k - 1, x); }
  }

  ghost predicate Inv(s: State, cap: Amount, k: nat, m: Amount) {
    && s.budget.cap == cap
    && |s.open| <= k
    && forall d :: Bounded(s, k, m, d)
  }

  ghost predicate Bounded(s: State, k: nat, m: Amount, d: Dim) {
    && Total(s.open, d) <= Times(|s.open|, m.In(d))
    && (s.budget.cap.In(d) > 0.0 ==>
         s.budget.spent.In(d) + Total(s.open, d) <= s.budget.cap.In(d) + Times(if k == 0 then 0 else k - 1, m.In(d)))
  }

  lemma AdmitKeeps(s: State, t: State, e: Amount, k: nat, m: Amount, d: Dim)
    requires Within(m, m) && Admits(s, t, e, k, m) && Bounded(s, k, m, d)
    ensures Bounded(t, k, m, d)
  {
    TotalSnoc(s.open, e, d);
    TimesMonotone(|s.open|, k - 1, m.In(d));
    assert e.In(d) <= m.In(d);
    assert !Exceeds(s.budget, e, d);
  }

  lemma ChargeKeeps(s: State, t: State, i: int, actual: Amount, k: nat, m: Amount, d: Dim)
    requires Charges(s, t, i, actual) && Bounded(s, k, m, d)
    requires forall j :: 0 <= j < |s.open| ==> Within(s.open[j], m)
    ensures Bounded(t, k, m, d)
  {
    TotalSplit(s.open, i, d);
    TotalAtMost(t.open, m, d);
  }

  lemma {:induction false} TotalAtMost(open: seq<Amount>, m: Amount, d: Dim)
    requires forall j :: 0 <= j < |open| ==> Within(open[j], m)
    ensures Total(open, d) <= Times(|open|, m.In(d))
  {
    if open != [] { TotalAtMost(open[1..], m, d); }
  }

  ghost predicate OpenWithin(s: State, m: Amount) {
    forall j :: 0 <= j < |s.open| ==> Within(s.open[j], m)
  }

  lemma StepKeeps(s: State, t: State, cap: Amount, k: nat, m: Amount)
    requires Within(m, m) && Inv(s, cap, k, m) && OpenWithin(s, m) && Next(s, t, k, m)
    ensures Inv(t, cap, k, m) && OpenWithin(t, m)
  {
    if t != s {
      if e :| Admits(s, t, e, k, m) {
        forall d ensures Bounded(t, k, m, d) { AdmitKeeps(s, t, e, k, m, d); }
      } else {
        var i, actual :| Charges(s, t, i, actual);
        forall d ensures Bounded(t, k, m, d) { ChargeKeeps(s, t, i, actual, k, m, d); }
      }
    }
  }

  lemma {:induction false} RunKeeps(run: seq<State>, k: nat, m: Amount, n: nat)
    requires Within(m, m) && IsRun(run, k, m) && n < |run|
    ensures Inv(run[n], run[0].budget.cap, k, m) && OpenWithin(run[n], m)
  {
    if n == 0 {
      forall d ensures Bounded(run[0], k, m, d) { TimesMonotone(0, if k == 0 then 0 else k - 1, m.In(d)); }
    } else {
      RunKeeps(run, k, m, n - 1);
      assert Next(run[n - 1], run[n - 1 + 1], k, m);
      StepKeeps(run[n - 1], run[n], run[0].budget.cap, k, m);
    }
  }

  lemma {:induction false} TimesIsProduct(n: nat, x: real)
    ensures Times(n, x) == n as real * x
  {
    if n > 0 { TimesIsProduct(n - 1, x); }
  }

  /** In every interleaving with at most `k` open calls, each estimated at most `m` and
      charged at most its estimate, what is spent plus what is open exceeds a positive
      cap by at most (k - 1) * m; with one open call at a time it never exceeds the cap. */
  lemma OvershootBound(run: seq<State>, k: nat, m: Amount, n: nat, d: Dim)
    requires Within(m, m) && k >= 1 && IsRun(run, k, m) && n < |run|
    requires run[0].budget.cap.In(d) > 0.0
    ensures run[n].budget.spent.In(d) + Total(run[n].open, d)
         <= run[0].budget.cap.In(d) + (k - 1) as real * m.In(d)
    ensures run[n].budget.spent.In(d) <= run[0].budget.cap.In(d) + (k - 1) as real * m.In(d)
  {
    RunKeeps(run, k, m, n);
    assert Bounded(run[n], k, m, d);
    TimesIsProduct(k - 1, m.In(d));
    TotalNonNegative(run[n].open, m, d);
  }

  lemma {:induction false} TotalNonNegative(open: seq<Amount>, m: Amount, d: Dim)
    requires forall j :: 0 <= j < |open| ==> Within(open[j], m)
    ensures Total(open, d) >= 0.0
  {
    if open != [] { TotalNonNegative(open[1..], m, d); }
  }

  /** What has been spent is what was spent at the start and what every charge took: no charge
      is forgotten and none counts twice. */
  lemma {:induction false} SpentIsCharged(run: seq<State>, k: nat, m: Amount, n: nat, d: Dim)
    requires Within(m, m) && IsRun(run, k, m) && n < |run|
    ensures run[n].budget.cap == run[0].budget.cap
    ensures run[n].budget.spent.In(d) == run[0].budget.spent.In(d) + Total(run[n].charged, d)
  {
    if n > 0 {
      SpentIsCharged(run, k, m, n - 1, d);
      assert Next(run[n - 1], run[n - 1 + 1], k, m);
      StepSpends(run[n - 1], run[n], k, m, d);
    }
  }

  lemma StepSpends(s: State, t: State, k: nat, m: Amount, d: Dim)
    requires Next(s, t, k, m)
    ensures t.budget.cap == s.budget.cap
    ensures t.budget.spent.In(d) - s.budget.spent.In(d) == Total(t.charged, d) - Total(s.charged, d)
  {
    if t != s && !(exists e :: Admits(s, t, e, k, m)) {
      var i, actual :| Charges(s, t, i, actual);
      TotalSnoc(s.charged, actual, d);
    }
  }

  // ---------------------------------------------------------------- the bound is attained

  function Copies(n: nat, e: Amount): seq<Amount> {
    seq(n, _ => e)
  }

  /** After `n` admissions of `e`, with nothing charged since. */
  function AfterAdmissions(b: Budget, e: Amount, n: nat): State {
    State(b, Copies(n, e), [])
  }

  /** For every `k`, money can overshoot by exactly (k - 1) estimates: with the cap one
      estimate away, `k` calls are all admitted before any of them is charged. */
  lemma OvershootAttained(k: nat, e: Amount, cap: Amount) returns (run: seq<State>)
    requires k >= 1 && Within(e, e) && 0.0 < e.usd <= cap.usd && cap.tokens <= 0.0
    ensures IsRun(run, k, e)
    ensures run[0].budget.cap == cap
    ensures var last := run[|run| - 1];
            last.budget.spent.usd + Total(last.open, Usd) == cap.usd + (k - 1) as real * e.usd
  {
    var b := Budget(cap, Amount(cap.usd - e.usd, 0.0));
    run := seq(k + 1, n requires 0 <= n => AfterAdmissions(b, e, n));
    assert Copies(0, e) == [];
    forall i | 0 <= i < |run| - 1 ensures Next(run[i], run[i + 1], k, e) {
      assert Copies(i + 1, e) == Copies(i, e) + [e];
      assert Admits(run[i], run[i + 1], e, k, e);
    }
    TotalCopies(k, e);
    TimesIsProduct(k, e.usd);
    assert Times(k, e.usd) == e.usd + Times(k - 1, e.usd);
    TimesIsProduct(k - 1, e.usd);
  }

  lemma {:induction false} TotalCopies(n: nat, e: Amount)
    ensures Total(Copies(n, e), Usd) == Times(n, e.usd)
  {
    if n > 0 {
      TotalCopies(n - 1, e);
      assert Copies(n, e)[1..] == Copies(n - 1, e);
    }
  }
}
