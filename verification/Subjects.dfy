/** Deriving a journal entry's subject from its payload on the server, building
    subject patterns in the Go SDK, and when the two meet. */
module Subjects {
  import opened Segments
  import opened Patterns
  import opened Decimals

  // ---------------------------------------------------------------- payloads

  datatype Json =
    | JStr(text: seq<Byte>)
    | JInt(value: int)
    | JBool(flag: bool)
    | JObj(fields: map<string, Json>)
    | JOther

  predicate Has(v: Json, k: string) {
    v.JObj? && k in v.fields
  }

  function Text(v: Json, k: string): seq<Byte> {
    if Has(v, k) && v.fields[k].JStr? then v.fields[k].text else []
  }

  function Int(v: Json, k: string): int {
    if Has(v, k) && v.fields[k].JInt? then v.fields[k].value else 0
  }

  predicate Flag(v: Json, k: string) {
    Has(v, k) && v.fields[k].JBool? && v.fields[k].flag
  }

  /** A value entry carries its address directly or under "value". */
  function Address(v: Json): Json {
    if Has(v, "value") && v.fields["value"].JObj? then v.fields["value"] else v
  }

  // ---------------------------------------------------------------- derivation

  datatype Kind = Run | Decision | Effect | Obligation | Gate | Value | Event | Other(name: string)

  function Name(kind: Kind): string {
    match kind
    case Run => "run"
    case Decision => "decision"
    case Effect => "effect"
    case Obligation => "obligation"
    case Gate => "gate"
    case Value => "value"
    case Event => "event"
    case Other(name) => name
  }

  const EFFECT_VERBS := {"pending", "confirmed", "failed", "unknown", "reconciled"}

  function OrElse(status: string, default: string): string {
    if status == "" then default else status
  }

  /** The fourth segment.  `lower` is the server's lower-casing of a payload string. */
  function Verb(lower: seq<Byte> -> string, kind: Kind, v: Json): string {
    var status := lower(Text(v, "status"));
    match kind
    case Run => status
    case Decision => "recorded"
    case Effect => if status in EFFECT_VERBS then status else "pending"
    case Obligation => OrElse(status, "registered")
    case Gate => OrElse(status, "waiting")
    case Value => if Flag(v, "deleted") then "deleted" else "changed"
    case Event => "appended"
    case Other(_) => ""
  }

  /** The user-chosen segments, before encoding. */
  function Dims(kind: Kind, v: Json): seq<seq<Byte>> {
    match kind
    case Run => [Text(v, "app"), Text(v, "user"), Text(v, "session"), Text(v, "run_id")]
    case Decision => [Text(v, "run_id")]
    case Effect => [Text(v, "tool"), Text(v, "run_id")]
    case Obligation => [Text(v, "kind"), Text(v, "run_id")]
    case Gate => [Text(v, "gate"), Text(v, "run_id")]
    case Value => [Text(Address(v), "namespace"), Text(Address(v), "key")]
    case Event => [Text(v, "app"), Text(v, "user"), Text(v, "session")]
    case Other(_) => []
  }

  function Encoded(dims: seq<seq<Byte>>): (segs: seq<string>)
    ensures |segs| == |dims| && forall i :: 0 <= i < |dims| ==> segs[i] == EncodeSegment(dims[i])
  {
    seq(|dims|, i requires 0 <= i < |dims| => EncodeSegment(dims[i]))
  }

  function Tail(kind: Kind, v: Json): seq<string> {
    if kind.Decision? then [Decimal(Int(v, "decision_index"))] else []
  }

  /** The path segments of an entry's subject; the first is empty, for the leading slash. */
  function Layout(lower: seq<Byte> -> string, kind: Kind, v: Json): (segs: seq<string>)
    ensures segs != []
  {
    if kind.Other? then ["", "tape", Name(kind)]
    else ["", "tape", Name(kind), Verb(lower, kind, v)] + Encoded(Dims(kind, v)) + Tail(kind, v)
  }

  function Derive(lower: seq<Byte> -> string, kind: Kind, v: Json): string {
    Join(Layout(lower, kind, v))
  }

  /** The kinds none of whose segments is copied from the payload unencoded. */
  predicate Fixed(kind: Kind) {
    kind.Decision? || kind.Effect? || kind.Value? || kind.Event?
  }

  lemma EncodedSlashFree(s: seq<Byte>)
    ensures SlashFree(EncodeSegment(s))
  {
    EncodedIsOneLiteral(s);
  }

  lemma VerbSlashFree(lower: seq<Byte> -> string, kind: Kind, v: Json)
    requires Fixed(kind)
    ensures SlashFree(Name(kind)) && SlashFree(Verb(lower, kind, v)) && SlashFree("tape")
  {
  }

  lemma TailSlashFree(kind: Kind, v: Json)
    ensures forall i :: 0 <= i < |Tail(kind, v)| ==> SlashFree(Tail(kind, v)[i])
  {
    var n := Int(v, "decision_index");
    ParseDecimal(if n < 0 then -n else n);
  }

  lemma LayoutSlashFree(lower: seq<Byte> -> string, kind: Kind, v: Json, i: nat)
    requires !kind.Other? && i < |Layout(lower, kind, v)| && (i == 3 ==> Fixed(kind))
    ensures SlashFree(Layout(lower, kind, v)[i])
  {
    var dims := Dims(kind, v);
    if 4 <= i < 4 + |dims| {
      EncodedSlashFree(dims[i - 4]);
      assert Layout(lower, kind, v)[i] == Encoded(dims)[i - 4];
    } else if 4 <= i {
      TailSlashFree(kind, v);
      assert Layout(lower, kind, v)[i] == Tail(kind, v)[i - 4 - |dims|];
    } else if i == 3 {
      VerbSlashFree(lower, kind, v);
    }
  }

  /** Whatever the payload, a fixed kind's subject splits into exactly its layout. */
  lemma SubjectSplits(lower: seq<Byte> -> string, kind: Kind, v: Json)
    requires Fixed(kind)
    ensures Split(Derive(lower, kind, v)) == Layout(lower, kind, v)
  {
    var segs := Layout(lower, kind, v);
    forall i | 0 <= i < |segs| ensures SlashFree(segs[i]) { LayoutSlashFree(lower, kind, v, i); }
    SplitJoin(segs);
  }

  /** Equal dimensions, except that an empty one is written like "_". */
  predicate SameDim(a: seq<Byte>, b: seq<Byte>) {
    a == b || (a == [] && b == [0x5F]) || (a == [0x5F] && b == [])
  }

  lemma NamesDiffer(kind: Kind, kind': Kind)
    requires Fixed(kind) && Fixed(kind') && Name(kind) == Name(kind')
    ensures kind == kind'
  {
    assert Name(Effect)[1] == 'f' && Name(Event)[1] == 'v';
  }

  lemma SameLayout(lower: seq<Byte> -> string, kind: Kind, v: Json, w: Json)
    requires Fixed(kind) && Layout(lower, kind, v) == Layout(lower, kind, w)
    ensures Encoded(Dims(kind, v)) == Encoded(Dims(kind, w))
    ensures Verb(lower, kind, v) == Verb(lower, kind, w) && Tail(kind, v) == Tail(kind, w)
  {
    var a, b, n := Layout(lower, kind, v), Layout(lower, kind, w), |Dims(kind, v)|;
    assert Encoded(Dims(kind, v)) == a[4..4 + n];
    assert Encoded(Dims(kind, w)) == b[4..4 + n];
    assert Tail(kind, v) == a[4 + n..];
    assert Tail(kind, w) == b[4 + n..];
    assert Verb(lower, kind, v) == a[3] == b[3];
  }

  /** A subject of a fixed kind determines the kind, the verb, and every dimension
      and index it was derived from. */
  lemma SubjectDeterminesDimensions(lower: seq<Byte> -> string, kind: Kind, v: Json, kind': Kind, w: Json)
    requires Fixed(kind) && Fixed(kind')
    requires Derive(lower, kind, v) == Derive(lower, kind', w)
    ensures kind == kind' && Verb(lower, kind, v) == Verb(lower, kind, w)
    ensures forall i :: 0 <= i < |Dims(kind, v)| ==> SameDim(Dims(kind, v)[i], Dims(kind, w)[i])
    ensures kind.Decision? ==> Int(v, "decision_index") == Int(w, "decision_index")
  {
    SubjectSplits(lower, kind, v);
    SubjectSplits(lower, kind', w);
    assert Layout(lower, kind, v)[2] == Layout(lower, kind', w)[2];
    NamesDiffer(kind, kind');
    SameLayout(lower, kind, v, w);
    forall i | 0 <= i < |Dims(kind, v)| ensures SameDim(Dims(kind, v)[i], Dims(kind, w)[i]) {
      assert Encoded(Dims(kind, v))[i] == Encoded(Dims(kind, w))[i];
      EncodeCollides(Dims(kind, v)[i], Dims(kind, w)[i]);
    }
    if kind.Decision? {
      assert Tail(kind, v)[0] == Tail(kind, w)[0];
      DecimalInjective(Int(v, "decision_index"), Int(w, "decision_index"));
    }
  }

  lemma {:induction false} SlashesJoin(segs: seq<string>, k: nat)
    requires k < |segs| && forall i :: 0 <= i < |segs| && i != k ==> SlashFree(segs[i])
    ensures Slashes(Join(segs)) == |segs| - 1 + Slashes(segs[k])
  {
    SlashFreeCount(segs[0]);
    if |segs| > 1 {
      var tail := Join(segs[1..]);
      SlashesConcat(segs[0] + "/", tail);
      SlashesConcat(segs[0], "/");
      assert Slashes("/") == 1 by { assert "/"[1..] == ""; }
      if k == 0 {
        AllSlashFree(segs[1..]);
      } else {
        SlashesJoin(segs[1..], k - 1);
      }
    }
  }

  lemma {:induction false} AllSlashFree(segs: seq<string>)
    requires segs != [] && forall i :: 0 <= i < |segs| ==> SlashFree(segs[i])
    ensures Slashes(Join(segs)) == |segs| - 1
  {
    SlashFreeCount(segs[0]);
    if |segs| > 1 {
      SlashesConcat(segs[0] + "/", Join(segs[1..]));
      SlashesConcat(segs[0], "/");
      assert Slashes("/") == 1 by { assert "/"[1..] == ""; }
      AllSlashFree(segs[1..]);
    }
  }

  /** The other kinds copy the status unencoded: such a subject has the segments of
      its layout exactly when the lower-cased status has no slash. */
  lemma StatusSubjectShape(lower: seq<Byte> -> string, kind: Kind, v: Json)
    requires kind.Run? || kind.Obligation? || kind.Gate?
    ensures |Split(Derive(lower, kind, v))| == |Layout(lower, kind, v)| + Slashes(lower(Text(v, "status")))
    ensures |Split(Derive(lower, kind, v))| == |Layout(lower, kind, v)| <==> SlashFree(lower(Text(v, "status")))
  {
    var segs := Layout(lower, kind, v);
    forall i | 0 <= i < |segs| && i != 3 ensures SlashFree(segs[i]) { LayoutSlashFree(lower, kind, v, i); }
    SlashesJoin(segs, 3);
    SlashFreeCount(lower(Text(v, "status")));
    VerbSlashes(lower, kind, v);
  }

  lemma VerbSlashes(lower: seq<Byte> -> string, kind: Kind, v: Json)
    requires kind.Run? || kind.Obligation? || kind.Gate?
    ensures Slashes(Verb(lower, kind, v)) == Slashes(lower(Text(v, "status")))
  {
    SlashFreeCount("registered");
    SlashFreeCount("waiting");
  }

  // ---------------------------------------------------------------- the layouts in plain terms

  /** The subject of each kind, segment by segment: its name, its verb, its dimensions in order. */
  lemma DerivedSegments(lower: seq<Byte> -> string, v: Json)
    ensures var status, run := lower(Text(v, "status")), EncodeSegment(Text(v, "run_id"));
            && Derive(lower, Run, v) == Join(["", "tape", "run", status, EncodeSegment(Text(v, "app")),
                 EncodeSegment(Text(v, "user")), EncodeSegment(Text(v, "session")), run])
            && Derive(lower, Decision, v) ==
                 Join(["", "tape", "decision", "recorded", run, Decimal(Int(v, "decision_index"))])
            && Derive(lower, Effect, v) == Join(["", "tape", "effect",
                 if status in {"pending", "confirmed", "failed", "unknown", "reconciled"} then status else "pending",
                 EncodeSegment(Text(v, "tool")), run])
            && Derive(lower, Obligation, v) == Join(["", "tape", "obligation",
                 if status == "" then "registered" else status, EncodeSegment(Text(v, "kind")), run])
            && Derive(lower, Gate, v) == Join(["", "tape", "gate",
                 if status == "" then "waiting" else status, EncodeSegment(Text(v, "gate")), run])
            && Derive(lower, Event, v) == Join(["", "tape", "event", "appended", EncodeSegment(Text(v, "app")),
                 EncodeSegment(Text(v, "user")), EncodeSegment(Text(v, "session"))])
  {
    RunLayout(lower, v);
    EffectLayout(lower, v);
    GateLayout(lower, v);
    OtherLayouts(lower, v);
  }

  lemma RunLayout(lower: seq<Byte> -> string, v: Json)
    ensures Layout(lower, Run, v) ==
            ["", "tape", "run", lower(Text(v, "status")), EncodeSegment(Text(v, "app")), EncodeSegment(Text(v, "user")),
             EncodeSegment(Text(v, "session")), EncodeSegment(Text(v, "run_id"))]
  {
  }

  lemma EffectLayout(lower: seq<Byte> -> string, v: Json)
    ensures Layout(lower, Effect, v) ==
            ["", "tape", "effect",
             var status := lower(Text(v, "status"));
               if status in {"pending", "confirmed", "failed", "unknown", "reconciled"} then status else "pending",
             EncodeSegment(Text(v, "tool")), EncodeSegment(Text(v, "run_id"))]
  {
  }

  lemma GateLayout(lower: seq<Byte> -> string, v: Json)
    ensures Layout(lower, Gate, v) ==
            ["", "tape", "gate", OrElse(lower(Text(v, "status")), "waiting"), EncodeSegment(Text(v, "gate")),
             EncodeSegment(Text(v, "run_id"))]
    ensures Layout(lower, Obligation, v) ==
            ["", "tape", "obligation", OrElse(lower(Text(v, "status")), "registered"), EncodeSegment(Text(v, "kind")),
             EncodeSegment(Text(v, "run_id"))]
  {
  }

  lemma OtherLayouts(lower: seq<Byte> -> string, v: Json)
    ensures Layout(lower, Decision, v) ==
            ["", "tape", "decision", "recorded", EncodeSegment(Text(v, "run_id")), Decimal(Int(v, "decision_index"))]
    ensures Layout(lower, Event, v) ==
            ["", "tape", "event", "appended", EncodeSegment(Text(v, "app")), EncodeSegment(Text(v, "user")),
             EncodeSegment(Text(v, "session"))]
  {
  }

  /** A status that is copied unencoded contributes its own segments, in its place. */
  lemma StatusSplits(lower: seq<Byte> -> string, kind: Kind, v: Json)
    requires kind.Run? || kind.Obligation? || kind.Gate?
    ensures Split(Derive(lower, kind, v)) ==
            ["", "tape", Name(kind)] + (Split(Verb(lower, kind, v)) + Encoded(Dims(kind, v)))
  {
    var head, dims := ["", "tape", Name(kind)], Encoded(Dims(kind, v));
    forall i | 0 <= i < |dims| ensures SlashFree(dims[i]) { EncodedSlashFree(Dims(kind, v)[i]); }
    StatusNames(kind);
    LayoutParts(lower, kind, v);
    SplitMiddle(head, Verb(lower, kind, v), dims);
  }

  lemma StatusNames(kind: Kind)
    requires kind.Run? || kind.Obligation? || kind.Gate?
    ensures SlashFree(Name(kind)) && SlashFree("tape")
  {
  }

  lemma LayoutParts(lower: seq<Byte> -> string, kind: Kind, v: Json)
    requires kind.Run? || kind.Obligation? || kind.Gate?
    ensures Layout(lower, kind, v) == ["", "tape", Name(kind)] + ([Verb(lower, kind, v)] + Encoded(Dims(kind, v)))
  {
  }

  /** The last segment of a run, effect, obligation or gate subject is its run id. */
  lemma RunIdIsLast(lower: seq<Byte> -> string, kind: Kind, v: Json)
    requires (kind.Run? || kind.Effect? || kind.Obligation? || kind.Gate?) && Text(v, "run_id") != []
    ensures var segs := Split(Derive(lower, kind, v)); Decode(segs[|segs| - 1]) == Text(v, "run_id")
  {
    DecodeInvertsEncode(Text(v, "run_id"));
    var dims := Encoded(Dims(kind, v));
    assert Dims(kind, v)[|dims| - 1] == Text(v, "run_id");
    if kind.Effect? { SubjectSplits(lower, kind, v); } else { StatusSplits(lower, kind, v); }
  }

  // ---------------------------------------------------------------- patterns built by the Go SDK

  const STAR: seq<Byte> := [0x2A]
  const STARS: seq<Byte> := [0x2A, 0x2A]

  /** Letters, digits, `-`, `_`, `.` and `~`. */
  predicate Unreserved(b: Byte) {
    || 0x30 <= b <= 0x39 || 0x41 <= b <= 0x5A || 0x61 <= b <= 0x7A
    || b == 0x2D || b == 0x5F || b == 0x2E || b == 0x7E
  }

  function QueryByte(b: Byte): string {
    if Unreserved(b) then [b as char] else if b == 0x20 then "+" else Percent(b)
  }

  function QueryEscape(s: seq<Byte>): string {
    if s == [] then "" else QueryByte(s[0]) + QueryEscape(s[1..])
  }

  /** One pattern segment; the two wildcards pass through. */
  function Seg(s: seq<Byte>): string {
    if s == STAR then "*" else if s == STARS then "**" else QueryEscape(s)
  }

  /** The bytes that both sides write the same way. */
  predicate Agreed(b: Byte) {
    Unreserved(b) || (NeedsEscape(b) && b != 0x20)
  }

  /** Every byte is written alike by both sides, or is a space, which the SDK writes `+`. */
  predicate Reachable(s: seq<Byte>) {
    forall i :: 0 <= i < |s| ==> Agreed(s[i]) || s[i] == 0x20
  }

  function PlusForSpace(s: seq<Byte>): (r: seq<Byte>)
    ensures |r| == |s|
  {
    seq(|s|, i requires 0 <= i < |s| => if s[i] == 0x20 then 0x2B else s[i])
  }

  lemma PercentInjective(a: Byte, b: Byte)
    requires Percent(a) == Percent(b)
    ensures a == b
  {
    assert Percent(a)[1] == Percent(b)[1] && Percent(a)[2] == Percent(b)[2];
    assert HexValue(HexDigit(a / 16)) == a / 16 && HexValue(HexDigit(b / 16)) == b / 16;
    assert HexValue(HexDigit(a % 16)) == a % 16 && HexValue(HexDigit(b % 16)) == b % 16;
  }

  /** The two byte encodings agree on one pair of bytes, or differ at once. */
  lemma QueryByteMeets(a: Byte, b: Byte, s: string, t: string)
    ensures QueryByte(a) + s == EncodeByte(b) + t <==>
            ((Agreed(a) && b == a) || (a == 0x20 && b == 0x2B)) && s == t
  {
    var x, y := QueryByte(a) + s, EncodeByte(b) + t;
    if x == y {
      assert x[0] == y[0];
      assert x[0] == '%' <==> |QueryByte(a)| == 3;
      assert y[0] == '%' <==> |EncodeByte(b)| == 3;
      assert x[|QueryByte(a)|..] == s && y[|EncodeByte(b)|..] == t;
      if x[0] == '%' {
        assert x[..3] == Percent(a) && y[..3] == Percent(b);
        PercentInjective(a, b);
      }
    }
  }

  lemma {:induction false} QueryEscapeMeets(x: seq<Byte>, y: seq<Byte>)
    ensures QueryEscape(x) == EncodeBytes(y) <==> Reachable(x) && y == PlusForSpace(x)
  {
    if x != [] && y != [] {
      QueryByteMeets(x[0], y[0], QueryEscape(x[1..]), EncodeBytes(y[1..]));
      QueryEscapeMeets(x[1..], y[1..]);
      assert PlusForSpace(x)[1..] == PlusForSpace(x[1..]);
      assert y == [y[0]] + y[1..];
      assert PlusForSpace(x) == [PlusForSpace(x)[0]] + PlusForSpace(x)[1..];
      assert Reachable(x) <==> (Agreed(x[0]) || x[0] == 0x20) && Reachable(x[1..]) by {
        assert forall i :: 0 <= i < |x[1..]| ==> x[1..][i] == x[i + 1];
        assert forall i :: 1 <= i < |x| ==> x[i] == x[1..][i - 1];
      }
    } else if x != [] {
      assert QueryEscape(x) != "";
    } else if y != [] {
      assert EncodeBytes(y) != "";
    }
  }

  predicate Literal(x: seq<Byte>) {
    x != STAR && x != STARS
  }

  /** The stored segments that a literal pattern segment is written like. */
  predicate Meets(x: seq<Byte>, y: seq<Byte>) {
    x != [] && Reachable(x) && (y == PlusForSpace(x) || (y == [] && x == [0x5F]))
  }

  lemma SegMeetsEncode(x: seq<Byte>, y: seq<Byte>)
    requires Literal(x)
    ensures Seg(x) == EncodeSegment(y) <==> Meets(x, y)
  {
    if y == [] {
      assert EncodeBytes([0x5F]) == "_" by { assert [0x5F][1..] == []; assert EncodeByte(0x5F) == "_"; }
      QueryEscapeMeets(x, [0x5F]);
    } else {
      QueryEscapeMeets(x, y);
    }
  }

  /** The SDK and the server write a segment alike exactly when it is not empty, is
      not a wildcard, and has only agreed bytes: no space, no colon, nothing above 0x7E. */
  lemma SegAgreesWithServer(s: seq<Byte>)
    ensures Seg(s) == EncodeSegment(s) <==>
            s != [] && Literal(s) && forall i :: 0 <= i < |s| ==> Agreed(s[i])
  {
    if Literal(s) {
      SegMeetsEncode(s, s);
      if s == PlusForSpace(s) {
        forall i | 0 <= i < |s| ensures s[i] != 0x20 { assert PlusForSpace(s)[i] == s[i]; }
      }
    } else {
      EncodedIsOneLiteral(s);
      assert '*' in Seg(s) by { assert Seg(s)[0] == '*'; }
    }
  }

  /** In plain terms: letters, digits, `-`, `_`, `.`, `~`, and the bytes that both sides write
      with a percent sign.  Neither space nor colon nor anything above 0x7F. */
  lemma AgreedBytes(b: Byte)
    ensures Agreed(b) <==>
            || 0x30 <= b <= 0x39 || 0x41 <= b <= 0x5A || 0x61 <= b <= 0x7A || b in {0x2D, 0x2E, 0x5F, 0x7E}
            || b < 0x20 || b in {0x23, 0x25, 0x2A, 0x2F, 0x3F, 0x5C, 0x7F}
  {
  }

  lemma {:induction false} QueryEscapeClean(s: seq<Byte>)
    ensures SlashFree(QueryEscape(s)) && '*' !in QueryEscape(s)
  {
    if s != [] {
      QueryEscapeClean(s[1..]);
      assert '/' !in QueryByte(s[0]) && '*' !in QueryByte(s[0]);
    }
  }

  /** The pattern the SDK registers to hear of changes to one value, or of its deletion. */
  function ValuePattern(deleted: bool, ns: seq<Byte>, key: seq<Byte>): string {
    Join(["", "tape", "value", if deleted then "deleted" else "changed", Seg(ns), Seg(KeyOrStars(key))])
  }

  /** The key that an empty key stands for. */
  function KeyOrStars(key: seq<Byte>): seq<Byte> {
    if key == [] then STARS else key
  }

  /** A pattern segment takes a stored segment: a single star takes any, a double star any but
      only in last place, and a literal one those it is written like. */
  predicate Takes(x: seq<Byte>, y: seq<Byte>, last: bool) {
    if x == STAR then true else if x == STARS then last else Meets(x, y)
  }

  /** A pattern token built from a segment against a stored, encoded one. */
  lemma SegTakes(x: seq<Byte>, y: seq<Byte>)
    ensures Seg(x) == "**" <==> x == STARS
    ensures SlashFree(Seg(x))
    ensures x != STARS ==> (Covers(Seg(x), EncodeSegment(y)) <==> Takes(x, y, false))
  {
    assert "*"[0] == '*' && "**"[0] == '*' && |"*"| == 1;
    if Literal(x) {
      QueryEscapeClean(x);
      SegMeetsEncode(x, y);
    }
  }

  lemma PatternSplits(deleted: bool, ns: seq<Byte>, key: seq<Byte>)
    ensures Split(ValuePattern(deleted, ns, key)) ==
            ["", "tape", "value", if deleted then "deleted" else "changed", Seg(ns), Seg(KeyOrStars(key))]
  {
    SegTakes(ns, []);
    SegTakes(KeyOrStars(key), []);
    SplitJoin(["", "tape", "value", if deleted then "deleted" else "changed", Seg(ns), Seg(KeyOrStars(key))]);
  }

  /** Six tokens of which only the last may be a double star. */
  lemma SixTokens(p: seq<string>, s: seq<string>)
    requires |p| == 6 && |s| == 6 && (forall i :: 0 <= i < 4 ==> p[i] != "*" && p[i] != "**")
    ensures MatchesSegments(p, s) <==>
            && p[0] == s[0] && p[1] == s[1] && p[2] == s[2] && p[3] == s[3]
            && p[4] != "**" && Covers(p[4], s[4]) && (p[5] == "**" || Covers(p[5], s[5]))
  {
  }

  /** A value pattern, wildcards and the empty key included, hears of exactly the changed, or
      the deleted, values whose namespace and key its own namespace and key take: not of a name
      with a colon, of "a+b" when it was registered for "a b", and of nothing when the
      namespace is a double star. */
  lemma ValueChangeFires(lower: seq<Byte> -> string, deleted: bool, ns: seq<Byte>, key: seq<Byte>, v: Json)
    ensures MatchesSubject(ValuePattern(deleted, ns, key), Derive(lower, Value, v)) <==>
            && Flag(v, "deleted") == deleted
            && Takes(ns, Text(Address(v), "namespace"), false)
            && Takes(KeyOrStars(key), Text(Address(v), "key"), true)
  {
    var p := ["", "tape", "value", if deleted then "deleted" else "changed", Seg(ns), Seg(KeyOrStars(key))];
    var segs := Layout(lower, Value, v);
    PatternSplits(deleted, ns, key);
    SubjectSplits(lower, Value, v);
    ValueLayout(lower, v);
    assert "changed"[0] != "deleted"[0] && |"*"| == 1 && |"**"| == 2;
    SixTokens(p, segs);
    SegTakes(ns, Text(Address(v), "namespace"));
    SegTakes(KeyOrStars(key), Text(Address(v), "key"));
  }

  // ---------------------------------------------------------------- patterns that end in a double star

  /** The subject is one of the kind, and has a fourth segment. */
  predicate OfKind(kind: Kind, s: seq<string>) {
    |s| > 3 && s[0] == "" && s[1] == "tape" && s[2] == Name(kind)
  }

  /** The tokens of a pattern for one kind: further tokens, and then anything. */
  function OpenTokens(kind: Kind, toks: seq<string>): seq<string> {
    ["", "tape", Name(kind)] + toks + ["**"]
  }

  predicate TokensTake(toks: seq<string>, s: seq<string>) {
    |s| >= 3 + |toks| && forall i :: 0 <= i < |toks| ==> toks[i] != "**" && Covers(toks[i], s[3 + i])
  }

  lemma KindName(kind: Kind)
    requires !kind.Other?
    ensures Name(kind) != "*" && Name(kind) != "**" && "tape" != "*" && "tape" != "**"
    ensures SlashFree("tape") && SlashFree(Name(kind)) && SlashFree("**")
  {
    assert |"tape"| == 4 && |"*"| == 1 && |"**"| == 2 && |Name(kind)| >= 3;
  }

  lemma OpenTokensMatch(kind: Kind, toks: seq<string>, s: seq<string>)
    requires !kind.Other? && |s| > 3
    ensures MatchesSegments(OpenTokens(kind, toks), s) <==> OfKind(kind, s) && TokensTake(toks, s)
  {
    var p := OpenTokens(kind, toks);
    KindName(kind);
    assert p[0] == "" && p[1] == "tape" && p[2] == Name(kind) && p[|p| - 1] == "**";
    assert forall i :: 0 <= i < |toks| ==> p[3 + i] == toks[i];
    assert "" != "*" && "" != "**";
    if MatchesSegments(p, s) {
      forall i | 0 <= i < |toks| ensures toks[i] != "**" && Covers(toks[i], s[3 + i]) {
        assert p[3 + i] != "**" && Covers(p[3 + i], s[3 + i]);
      }
      assert Covers(p[0], s[0]) && Covers(p[1], s[1]) && Covers(p[2], s[2]);
    }
    if OfKind(kind, s) && TokensTake(toks, s) {
      forall i | 0 <= i < |p| - 1 ensures p[i] != "**" && Covers(p[i], s[i]) {
        if i >= 3 { assert p[i] == toks[i - 3]; }
      }
    }
  }

  /** Such a pattern matches the subjects of its kind whose further segments its tokens take. */
  lemma OpenPatternMatches(kind: Kind, toks: seq<string>, subject: string)
    requires !kind.Other? && |Split(subject)| > 3 && forall i :: 0 <= i < |toks| ==> SlashFree(toks[i])
    ensures MatchesSubject(Join(OpenTokens(kind, toks)), subject) <==>
            OfKind(kind, Split(subject)) && TokensTake(toks, Split(subject))
  {
    var p := OpenTokens(kind, toks);
    KindName(kind);
    forall i | 0 <= i < |p| ensures SlashFree(p[i]) {
      if 3 <= i < 3 + |toks| { assert p[i] == toks[i - 3]; }
    }
    SplitJoin(p);
    OpenTokensMatch(kind, toks, Split(subject));
  }

  lemma OneOpenToken(kind: Kind, a: string, subject: string)
    requires !kind.Other? && |Split(subject)| > 3 && SlashFree(a)
    ensures MatchesSubject(Join(OpenTokens(kind, [a])), subject) <==>
            OfKind(kind, Split(subject)) && a != "**" && Covers(a, Split(subject)[3])
  {
    OpenPatternMatches(kind, [a], subject);
    OneTaken(a, Split(subject));
  }

  lemma OneTaken(a: string, s: seq<string>)
    requires |s| > 3
    ensures TokensTake([a], s) <==> a != "**" && Covers(a, s[3])
  {
    if TokensTake([a], s) { assert [a][0] != "**" && Covers([a][0], s[3 + 0]); }
  }

  lemma TwoOpenTokens(kind: Kind, a: string, b: string, subject: string)
    requires !kind.Other? && |Split(subject)| > 4 && SlashFree(a) && SlashFree(b)
    ensures MatchesSubject(Join(OpenTokens(kind, [a, b])), subject) <==>
            && OfKind(kind, Split(subject))
            && a != "**" && Covers(a, Split(subject)[3]) && b != "**" && Covers(b, Split(subject)[4])
  {
    OpenPatternMatches(kind, [a, b], subject);
    TwoTaken(a, b, Split(subject));
  }

  lemma TwoTaken(a: string, b: string, s: seq<string>)
    requires |s| > 4
    ensures TokensTake([a, b], s) <==> a != "**" && Covers(a, s[3]) && b != "**" && Covers(b, s[4])
  {
    if TokensTake([a, b], s) {
      assert [a, b][0] != "**" && Covers([a, b][0], s[3 + 0]);
      assert [a, b][1] != "**" && Covers([a, b][1], s[3 + 1]);
    }
  }

  lemma FixedHead(lower: seq<Byte> -> string, kind: Kind, v: Json)
    requires Fixed(kind)
    ensures OfKind(kind, Layout(lower, kind, v))
  {
  }

  /** The first three segments of a subject of a known kind, and that there are more. */
  lemma SubjectHead(lower: seq<Byte> -> string, kind: Kind, v: Json)
    requires !kind.Other?
    ensures OfKind(kind, Split(Derive(lower, kind, v)))
  {
    if Fixed(kind) {
      SubjectSplits(lower, kind, v);
      FixedHead(lower, kind, v);
    } else {
      StatusSplits(lower, kind, v);
    }
  }

  /** The pattern of the handlers for confirmed, failed and unknown effects; no tool means any. */
  function EffectPattern(verb: string, tool: seq<Byte>): string {
    Join(OpenTokens(Effect, [verb, Seg(ToolOrStar(tool))]))
  }

  function ToolOrStar(tool: seq<Byte>): seq<Byte> {
    if tool == [] then STAR else tool
  }

  /** The derived status segment carries one of the three verbs only for that very status. */
  lemma EffectVerbs(verb: string, status: string)
    requires verb in {"confirmed", "failed", "unknown"}
    ensures SlashFree(verb) && verb != "*" && verb != "**"
    ensures var known := {"pending", "confirmed", "failed", "unknown", "reconciled"};
            (if status in known then status else "pending") == verb <==> status == verb
  {
    assert |"**"| == 2 && |"*"| == 1 && |verb| >= 6;
    assert "pending"[0] == 'p' && verb[0] in {'c', 'f', 'u'};
  }

  lemma EffectSegments(lower: seq<Byte> -> string, v: Json)
    ensures var s, status := Split(Derive(lower, Effect, v)), lower(Text(v, "status"));
            && |s| == 6 && s[3] == (if status in {"pending", "confirmed", "failed", "unknown", "reconciled"} then status
                                    else "pending")
            && s[4] == EncodeSegment(Text(v, "tool")) && s[5] == EncodeSegment(Text(v, "run_id"))
  {
    SubjectSplits(lower, Effect, v);
    EffectLayout(lower, v);
  }

  /** It hears of exactly the effects with that status whose tool it takes. */
  lemma EffectFires(lower: seq<Byte> -> string, verb: string, tool: seq<Byte>, v: Json)
    requires verb in {"confirmed", "failed", "unknown"}
    ensures MatchesSubject(EffectPattern(verb, tool), Derive(lower, Effect, v)) <==>
            lower(Text(v, "status")) == verb && Takes(ToolOrStar(tool), Text(v, "tool"), false)
  {
    var t := ToolOrStar(tool);
    EffectVerbs(verb, lower(Text(v, "status")));
    SegTakes(t, Text(v, "tool"));
    SubjectHead(lower, Effect, v);
    EffectSegments(lower, v);
    TwoOpenTokens(Effect, verb, Seg(t), Derive(lower, Effect, v));
  }

  /** The pattern of the decision handler. */
  function DecisionPattern(): string {
    Join(OpenTokens(Decision, ["recorded"]))
  }

  lemma DecisionName(kind: Kind)
    requires !kind.Other?
    ensures Name(kind) == Name(Decision) <==> kind == Decision
  {
    assert Name(Decision)[0] == 'd' && Name(kind)[0] == 'd' <==> kind == Decision;
  }

  lemma Recorded(lower: seq<Byte> -> string, v: Json)
    ensures SlashFree("recorded") && "recorded" != "**"
    ensures var s := Split(Derive(lower, Decision, v)); |s| > 3 && s[3] == "recorded"
  {
    assert |"recorded"| == 8 && |"**"| == 2;
    SubjectSplits(lower, Decision, v);
  }

  /** The decision handler hears of every decision and of nothing else that is derived. */
  lemma DecisionFires(lower: seq<Byte> -> string, kind: Kind, v: Json)
    requires !kind.Other?
    ensures MatchesSubject(DecisionPattern(), Derive(lower, kind, v)) <==> kind == Decision
  {
    DecisionName(kind);
    Recorded(lower, v);
    SubjectHead(lower, kind, v);
    OneOpenToken(Decision, "recorded", Derive(lower, kind, v));
  }

  /** The pattern of the handler for one gate; no verb means released. */
  function GatePattern(gate: seq<Byte>, verb: seq<Byte>): string {
    Join(OpenTokens(Gate, [Seg(VerbOr(verb, RELEASED)), Seg(gate)]))
  }

  /** The pattern of the handler for runs; no status means terminal. */
  function RunPattern(status: seq<Byte>): string {
    Join(OpenTokens(Run, [Seg(VerbOr(status, TERMINAL))]))
  }

  const RELEASED: seq<Byte> := [0x72, 0x65, 0x6C, 0x65, 0x61, 0x73, 0x65, 0x64]
  const TERMINAL: seq<Byte> := [0x74, 0x65, 0x72, 0x6D, 0x69, 0x6E, 0x61, 0x6C]

  function VerbOr(verb: seq<Byte>, default: seq<Byte>): seq<Byte> {
    if verb == [] then default else verb
  }

  /** A pattern segment against a segment that was copied unencoded. */
  predicate TakesRaw(x: seq<Byte>, text: string) {
    x == STAR || (x != STARS && Seg(x) == text)
  }

  lemma SegTakesRaw(x: seq<Byte>, text: string)
    ensures Seg(x) != "**" && Covers(Seg(x), text) <==> TakesRaw(x, text)
    ensures SlashFree(Seg(x))
  {
    SegTakes(x, []);
    if Literal(x) {
      QueryEscapeClean(x);
      assert "*"[0] == '*';
    }
  }

  lemma GateSegments(lower: seq<Byte> -> string, v: Json)
    ensures var s, status := Split(Derive(lower, Gate, v)), Split(OrElse(lower(Text(v, "status")), "waiting"));
            && |s| > 4 && s[3] == status[0]
            && s[4] == if |status| == 1 then EncodeSegment(Text(v, "gate")) else status[1]
  {
    StatusSplits(lower, Gate, v);
    assert Verb(lower, Gate, v) == OrElse(lower(Text(v, "status")), "waiting");
    assert Encoded(Dims(Gate, v))[0] == EncodeSegment(Text(v, "gate"));
    MiddleAt(["", "tape", Name(Gate)], Split(Verb(lower, Gate, v)), Encoded(Dims(Gate, v)));
  }

  lemma MiddleAt(head: seq<string>, status: seq<string>, dims: seq<string>)
    requires |head| == 3 && status != [] && dims != []
    ensures var s := head + (status + dims);
            |s| > 4 && s[3] == status[0] && s[4] == if |status| == 1 then dims[0] else status[1]
  {
    assert (status + dims)[1] == if |status| == 1 then dims[0] else status[1];
  }

  /** A gate handler hears of exactly the gates whose first status segment its verb takes and
      whose next segment its gate takes: with a status without slashes that is the gate's name. */
  lemma GateFires(lower: seq<Byte> -> string, gate: seq<Byte>, verb: seq<Byte>, v: Json)
    ensures var status := Split(OrElse(lower(Text(v, "status")), "waiting"));
            MatchesSubject(GatePattern(gate, verb), Derive(lower, Gate, v)) <==>
              && TakesRaw(VerbOr(verb, RELEASED), status[0])
              && (if |status| == 1 then Takes(gate, Text(v, "gate"), false) else TakesRaw(gate, status[1]))
  {
    var w, s := VerbOr(verb, RELEASED), Split(Derive(lower, Gate, v));
    SubjectHead(lower, Gate, v);
    GateSegments(lower, v);
    SegTakesRaw(w, s[3]);
    SegTakesRaw(gate, s[4]);
    SegTakes(gate, Text(v, "gate"));
    TwoOpenTokens(Gate, Seg(w), Seg(gate), Derive(lower, Gate, v));
  }

  lemma RunSegments(lower: seq<Byte> -> string, v: Json)
    ensures var s := Split(Derive(lower, Run, v)); |s| > 3 && s[3] == Split(lower(Text(v, "status")))[0]
  {
    StatusSplits(lower, Run, v);
    assert Verb(lower, Run, v) == lower(Text(v, "status"));
    MiddleAt(["", "tape", Name(Run)], Split(Verb(lower, Run, v)), Encoded(Dims(Run, v)));
  }

  /** A run handler hears of exactly the runs whose first status segment its status takes. */
  lemma RunFires(lower: seq<Byte> -> string, status: seq<Byte>, v: Json)
    ensures MatchesSubject(RunPattern(status), Derive(lower, Run, v)) <==>
            TakesRaw(VerbOr(status, TERMINAL), Split(lower(Text(v, "status")))[0])
  {
    var w, s := VerbOr(status, TERMINAL), Split(Derive(lower, Run, v));
    SubjectHead(lower, Run, v);
    RunSegments(lower, v);
    SegTakesRaw(w, s[3]);
    OneOpenToken(Run, Seg(w), Derive(lower, Run, v));
  }

  lemma ValueLayout(lower: seq<Byte> -> string, v: Json)
    ensures Layout(lower, Value, v) ==
            ["", "tape", "value", if Flag(v, "deleted") then "deleted" else "changed",
             EncodeSegment(Text(Address(v), "namespace")), EncodeSegment(Text(Address(v), "key"))]
  {
  }
}
