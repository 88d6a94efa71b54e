/** The embedded effect ledger's tables, the per-session snapshot row, and the lookup
    that answers from the live row or, failing that, from the snapshot. */
module Ledger {
  import opened Common

  datatype Session = Session(app: string, user: string, sid: string)

  predicate Terminal(st: EffectStatus) {
    st.Confirmed? || st.Failed?
  }

  /** The columns of an effect row that a snapshot captures.  A JSON column is kept as
      its decoded text, or None when it is NULL. */
  datatype Effect = Effect(
    status: EffectStatus, semantics: string, dispatchMode: string, businessKey: string, connector: string,
    externalRef: string, request: Option<string>, response: Option<string>, error: Option<string>,
    invocationId: string, decisionIndex: int, toolName: string, callIndex: int, tsMs: int)

  // ---------------------------------------------------------------- numbers through JSON

  const TWO53: int := 0x20_0000_0000_0000

  /** The spacing of the doubles around m. */
  function Ulp(m: nat): (u: nat)
    ensures u >= 1 && (m <= TWO53 ==> u == 1 || m == TWO53)
  {
    if m < TWO53 then 1 else 2 * Ulp(m / 2)
  }

  /** m as a double: the nearest multiple of the spacing, ties to even. */
  function NearestNat(m: nat): int {
    var u := Ulp(m);
    var q: int, r: int := m / u, m % u;
    if 2 * r < u || (2 * r == u && q % 2 == 0) then q * u else (q + 1) * u
  }

  function Nearest(n: int): int {
    if n < 0 then -NearestNat(-n) else NearestNat(n)
  }

  /** Integers up to 2^53 in magnitude survive the trip through a double. */
  lemma SmallIntegersAreExact(n: int)
    requires -TWO53 <= n <= TWO53
    ensures Nearest(n) == n
  {
    var m := if n < 0 then -n else n;
    if m == TWO53 {
      assert Ulp(TWO53) == 2 * Ulp(TWO53 / 2) == 2;
    }
  }

  // ---------------------------------------------------------------- snapshot entries

  datatype Value =
    | Null
    | Tag(status: EffectStatus)
    | Text(text: string)
    | Number(n: int)
    | Raw(json: string)

  /** One entry of the snapshot's map; a field the stored object lacks reads as Null. */
  datatype Captured = Captured(
    status: Value, semantics: Value, dispatchMode: Value, businessKey: Value, connector: Value, externalRef: Value,
    request: Value, response: Value, error: Value, invocationId: Value, decisionIndex: Value, toolName: Value,
    callIndex: Value, tsMs: Value)

  function JsonValue(j: Option<string>): Value {
    if j.None? then Null else Raw(j.value)
  }

  function EffectToCaptured(r: Effect): Captured {
    Captured(
      Tag(r.status), Text(r.semantics), Text(r.dispatchMode), Text(r.businessKey), Text(r.connector),
      Text(r.externalRef),
      JsonValue(r.request), JsonValue(r.response), JsonValue(r.error), Text(r.invocationId), Number(r.decisionIndex),
      Text(r.toolName), Number(r.callIndex), Number(r.tsMs))
  }

  /** Marshalled and unmarshalled again: numbers come back as doubles. */
  function WireValue(v: Value): Value {
    if v.Number? then Number(Nearest(v.n)) else v
  }

  function Wire(c: Captured): Captured {
    Captured(
      WireValue(c.status), WireValue(c.semantics), WireValue(c.dispatchMode), WireValue(c.businessKey),
      WireValue(c.connector), WireValue(c.externalRef), WireValue(c.request), WireValue(c.response), WireValue(c.error),
      WireValue(c.invocationId), WireValue(c.decisionIndex), WireValue(c.toolName), WireValue(c.callIndex),
      WireValue(c.tsMs))
  }

  function TextOr(v: Value, fallback: string): string {
    if v.Text? && v.text != "" then v.text else fallback
  }

  function AnyText(v: Value): string {
    if v.Text? then v.text else ""
  }

  function AnyToInt(v: Value, fallback: int): int {
    if v.Number? then v.n else fallback
  }

  function AnyJson(v: Value): Option<string> {
    if v.Raw? then Some(v.json) else None
  }

  /** What the caller of the lookup supplies for fields the entry lacks. */
  datatype Fallback = Fallback(toolName: string, callIndex: int, semantics: string, dispatchMode: string)

  /** The synthetic record rebuilt from a snapshot entry, field by field. */
  function FromSnapshot(c: Captured, fb: Fallback): Effect {
    Effect(
      if c.status.Tag? then c.status.status else Confirmed,
      TextOr(c.semantics, fb.semantics), TextOr(c.dispatchMode, fb.dispatchMode),
      AnyText(c.businessKey), AnyText(c.connector), AnyText(c.externalRef),
      AnyJson(c.request), AnyJson(c.response), AnyJson(c.error),
      AnyText(c.invocationId), AnyToInt(c.decisionIndex, -1),
      TextOr(c.toolName, fb.toolName), AnyToInt(c.callIndex, fb.callIndex), AnyToInt(c.tsMs, 0))
  }

  predicate KeepsText(text: string, fallback: string) {
    text != "" || fallback == ""
  }

  predicate Exact(n: int) {
    Nearest(n) == n
  }

  /** What a row must satisfy for its snapshot entry to give it back. */
  predicate Recoverable(r: Effect, fb: Fallback) {
    && KeepsText(r.semantics, fb.semantics) && KeepsText(r.dispatchMode, fb.dispatchMode)
    && KeepsText(r.toolName, fb.toolName)
    && Exact(r.decisionIndex) && Exact(r.callIndex) && Exact(r.tsMs)
  }

  /** The snapshot entry of a row gives the row back exactly when the row is recoverable. */
  lemma EntryRecoversIff(r: Effect, fb: Fallback)
    ensures FromSnapshot(Wire(EffectToCaptured(r)), fb) == r <==> Recoverable(r, fb)
    ensures FromSnapshot(Wire(EffectToCaptured(r)), fb).status == r.status
  {
  }

  // ---------------------------------------------------------------- tables

  datatype ObligationStatus = ObPending | ObCommitted | ObCompensated | ObStuck

  datatype Obligation = Obligation(session: Session, effectKey: string, status: ObligationStatus, tsMs: int)

  datatype Timer = Timer(fired: bool, createdAtMs: int)

  datatype Snapshot = Snapshot(entries: map<string, Captured>, upToTsMs: int, count: nat, createdAtMs: int,
    updatedAtMs: int)

  /** A row's primary key within its table. */
  datatype Key = Key(session: Session, id: string)

  datatype Db = Db(
    effects: map<Key, Effect>, obligations: map<int, Obligation>, timers: map<Key, Timer>,
    snapshots: map<Session, Snapshot>)

  function Entries(db: Db, s: Session): map<string, Captured> {
    if s in db.snapshots then db.snapshots[s].entries else map[]
  }

  /** The idempotency-key lookup: the live row first, then the snapshot. */
  function Lookup(db: Db, k: Key, fb: Fallback): Option<Effect> {
    if k in db.effects then Some(db.effects[k])
    else if k.id in Entries(db, k.session) then Some(FromSnapshot(Entries(db, k.session)[k.id], fb))
    else None
  }

  // ---------------------------------------------------------------- taking a snapshot

  predicate IsCaptured(db: Db, s: Session, w: int, id: string) {
    var k := Key(s, id);
    k in db.effects && Terminal(db.effects[k].status) && db.effects[k].tsMs <= w
  }

  function SessionIds(db: Db, s: Session): set<string> {
    set k | k in db.effects && k.session == s :: k.id
  }

  /** The session's terminal effects up to the watermark. */
  function Collected(db: Db, s: Session, w: int): map<string, Captured> {
    map id | id in SessionIds(db, s) && IsCaptured(db, s, w, id) :: Wire(EffectToCaptured(db.effects[Key(s, id)]))
  }

  function Merged(db: Db, s: Session, w: int, now: int): Snapshot {
    var entries := Entries(db, s) + Collected(db, s, w);
    if s in db.snapshots then
      var prev := db.snapshots[s];
      Snapshot(entries, if prev.upToTsMs > w then prev.upToTsMs else w, |entries|, prev.createdAtMs, now)
    else
      Snapshot(entries, w, |entries|, now, now)
  }

  function AfterSnapshot(db: Db, s: Session, w: int, now: int): Db {
    db.(snapshots := db.snapshots[s := Merged(db, s, w, now)])
  }

  lemma CollectedIds(db: Db, s: Session, w: int, id: string)
    ensures id in Collected(db, s, w) <==> IsCaptured(db, s, w, id)
    ensures id in Collected(db, s, w) ==>
              Collected(db, s, w)[id] == Wire(EffectToCaptured(db.effects[Key(s, id)]))
  {
    if IsCaptured(db, s, w, id) {
      assert Key(s, id).id in SessionIds(db, s);
    }
  }
}
