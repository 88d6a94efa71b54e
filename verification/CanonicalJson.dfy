/** The chaos suite's canonical journals: a key-sorted JSON encoding whose text is
    compared in place of the values themselves. */
module CanonicalJson {

  datatype Json =
    | JNull
    | JBool(flag: bool)
    | JNumber(token: string)
    | JString(text: string)
    | JArray(items: seq<Json>)
    | JObject(fields: map<string, Json>)

  // ---------------------------------------------------------------- leaves

  predicate NumberChar(c: char) {
    '0' <= c <= '9' || c == '-' || c == '+' || c == '.' || c == 'e' || c == 'E'
  }

  /** A number is kept as the token the leaf encoder prints for it. */
  predicate NumberToken(t: string) {
    t != "" && (t[0] == '-' || '0' <= t[0] <= '9') && forall i :: 0 <= i < |t| ==> NumberChar(t[i])
  }

  function Hex(n: int): char
    requires 0 <= n < 16
  {
    if n < 10 then ('0' as int + n) as char else ('a' as int + n - 10) as char
  }

  function Unicode(n: int): string
    requires 0 <= n < 0x10000
  {
    ['\\', 'u', Hex(n / 0x1000), Hex(n / 0x100 % 16), Hex(n / 16 % 16), Hex(n % 16)]
  }

  /** Characters with a two-character escape. */
  function ShortEscape(c: char): char {
    if c == '"' || c == '\\' then c
    else if c == '\n' then 'n' else if c == '\r' then 'r' else if c == '\t' then 't'
    else if c == '\U{8}' then 'b' else if c == '\U{C}' then 'f'
    else ' '
  }

  /** Controls, the HTML-sensitive characters and the two line separators are written \u00xx. */
  predicate LongEscape(c: char) {
    c < ' ' || c == '<' || c == '>' || c == '&' || c == '\U{2028}' || c == '\U{2029}'
  }

  function EscapeChar(c: char): string {
    if ShortEscape(c) != ' ' then ['\\', ShortEscape(c)]
    else if LongEscape(c) then Unicode(c as int)
    else [c]
  }

  function EscapeText(s: string): string {
    if s == "" then "" else EscapeChar(s[0]) + EscapeText(s[1..])
  }

  function Quote(s: string): string {
    ['"'] + EscapeText(s) + ['"']
  }

  /** Reading the inside of a quoted text back, by section 7 of RFC 8259. */
  function Unescape(s: string): string {
    if s == "" then ""
    else if s[0] != '\\' || |s| == 1 then [s[0]] + Unescape(s[1..])
    else if s[1] != 'u' then [Unescaped(s[1])] + Unescape(s[2..])
    else if |s| < 6 then ""
    else [CodePoint(HexVal(s[2]) * 0x1000 + HexVal(s[3]) * 0x100 + HexVal(s[4]) * 16 + HexVal(s[5]))] + Unescape(s[6..])
  }

  function Unescaped(c: char): char {
    match c
    case 'n' => '\U{A}'
    case 'r' => '\U{D}'
    case 't' => '\U{9}'
    case 'b' => '\U{8}'
    case 'f' => '\U{C}'
    case _ => c
  }

  function HexVal(c: char): nat {
    if '0' <= c <= '9' then c as int - '0' as int
    else if 'a' <= c <= 'f' then c as int - 'a' as int + 10
    else if 'A' <= c <= 'F' then c as int - 'A' as int + 10
    else 0
  }

  /** Surrogates stand for no character of their own. */
  function CodePoint(n: nat): char {
    if n < 0xD800 || 0xE000 <= n < 0x110000 then n as char else '\U{FFFD}'
  }

  lemma HexReads(n: int)
    requires 0 <= n < 16
    ensures HexVal(Hex(n)) == n
  {
  }

  lemma UnescapeUnicode(c: char, s: string)
    requires (c as int) < 0xD800 || 0xE000 <= (c as int) < 0x10000
    ensures Unescape(Unicode(c as int) + s) == [c] + Unescape(s)
  {
    var n := c as int;
    var t := Unicode(n) + s;
    HexDigits(n);
    HexReads(n / 0x1000);
    HexReads(n / 0x100 % 16);
    HexReads(n / 16 % 16);
    HexReads(n % 16);
    assert t[0] == '\\' && t[1] == 'u' && t[6..] == s;
  }

  lemma UnescapeChar(c: char, s: string)
    ensures Unescape(EscapeChar(c) + s) == [c] + Unescape(s)
  {
    var t := EscapeChar(c) + s;
    if ShortEscape(c) != ' ' {
      assert t[0] == '\\' && t[2..] == s;
    } else if LongEscape(c) {
      UnescapeUnicode(c, s);
    } else {
      assert t[0] == c && t[1..] == s;
    }
  }

  /** Every text, read back by the standard's escapes, is the text that was written. */
  lemma {:induction false} TextsReadBack(s: string)
    ensures Unescape(EscapeText(s)) == s
  {
    if s != "" {
      UnescapeChar(s[0], EscapeText(s[1..]));
      TextsReadBack(s[1..]);
      assert s == [s[0]] + s[1..];
    }
  }

  /** Controls, the characters special in HTML, and the two line separators. */
  predicate Special(c: char) {
    c < ' ' || c in {'<', '>', '&', '\U{2028}', '\U{2029}'}
  }

  lemma EscapedCharIsPlain(c: char)
    ensures forall x :: x in EscapeChar(c) ==> !Special(x)
  {
  }

  /** No special character is written as itself. */
  lemma {:induction false} TextsArePlain(s: string)
    ensures forall x :: x in EscapeText(s) ==> !Special(x)
  {
    if s != "" {
      EscapedCharIsPlain(s[0]);
      TextsArePlain(s[1..]);
    }
  }

  // ---------------------------------------------------------------- key order

  /** Lexicographic order on keys. */
  predicate Before(a: string, b: string) {
    if a == "" then b != ""
    else b != "" && (a[0] < b[0] || (a[0] == b[0] && Before(a[1..], b[1..])))
  }

  predicate StrictlySorted(keys: seq<string>) {
    forall i, j :: 0 <= i < j < |keys| ==> Before(keys[i], keys[j])
  }

  ghost predicate SortedKeysOf(keys: seq<string>, s: set<string>) {
    StrictlySorted(keys) && forall k :: k in keys <==> k in s
  }

  /** The strings agree up to `n`, where the first has ended or has the smaller character. */
  predicate DiffersAt(a: string, b: string, n: nat) {
    n <= |a| && n < |b| && a[..n] == b[..n] && (n == |a| || (a[n] as int) < b[n] as int)
  }

  lemma {:induction false} BeforeIrreflexive(a: string, b: string)
    requires Before(a, b)
    ensures a != b && !Before(b, a)
  {
    if a != "" && a[0] == b[0] {
      BeforeIrreflexive(a[1..], b[1..]);
    }
  }

  lemma {:induction false} BeforeTotal(a: string, b: string)
    ensures a == b || Before(a, b) || Before(b, a)
  {
    if a != "" && b != "" && a[0] == b[0] {
      BeforeTotal(a[1..], b[1..]);
      assert a == [a[0]] + a[1..] && b == [b[0]] + b[1..];
    }
  }

  lemma {:induction false} BeforeTransitive(a: string, b: string, c: string)
    requires Before(a, b) && Before(b, c)
    ensures Before(a, c)
  {
    if a != "" && a[0] == b[0] && b[0] == c[0] {
      BeforeTransitive(a[1..], b[1..], c[1..]);
    }
  }

  lemma DiffersAtFirst(a: string, b: string, n: nat)
    requires DiffersAt(a, b, n) && n > 0
    ensures a != "" && b != "" && a[0] == b[0] && DiffersAt(a[1..], b[1..], n - 1)
  {
    assert a[..n][0] == a[0] && b[..n][0] == b[0];
    assert a[1..][..n - 1] == a[..n][1..] && b[1..][..n - 1] == b[..n][1..];
  }

  /** The order is by code point at the first difference, a beginning before what extends it. */
  lemma {:induction false} BeforeAtDifference(a: string, b: string)
    ensures Before(a, b) <==> exists n: nat :: DiffersAt(a, b, n)
  {
    if n: nat :| DiffersAt(a, b, n) {
      if n > 0 {
        DiffersAtFirst(a, b, n);
        BeforeAtDifference(a[1..], b[1..]);
      }
    }
    if Before(a, b) {
      if a != "" && a[0] == b[0] {
        BeforeAtDifference(a[1..], b[1..]);
        var n: nat :| DiffersAt(a[1..], b[1..], n);
        assert a[..n + 1] == [a[0]] + a[1..][..n] && b[..n + 1] == [b[0]] + b[1..][..n];
        assert DiffersAt(a, b, n + 1);
      } else {
        assert DiffersAt(a, b, 0);
      }
    }
  }

  predicate Least(k: string, s: set<string>) {
    k in s && forall x :: x in s && x != k ==> Before(k, x)
  }

  lemma LeastExists(s: set<string>) returns (k: string)
    requires s != {}
    ensures Least(k, s)
  {
    k :| k in s;
    if s != {k} {
      var m := LeastExists(s - {k});
      BeforeTotal(k, m);
      if Before(m, k) {
        k := m;
      } else {
        forall x | x in s && x != k ensures Before(k, x) {
          if x != m { BeforeTransitive(k, m, x); }
        }
      }
    }
  }

  lemma LeastUnique(s: set<string>, a: string, b: string)
    requires Least(a, s) && Least(b, s)
    ensures a == b
  {
    if a != b { BeforeIrreflexive(a, b); }
  }

  /** The keys of an object in ascending order. */
  function SortedKeys(s: set<string>): (keys: seq<string>)
    ensures SortedKeysOf(keys, s)
  {
    if s == {} then []
    else
      assert exists k :: Least(k, s) by { var k := LeastExists(s); }
      assert forall a, b :: Least(a, s) && Least(b, s) ==> a == b by {
        forall a, b | Least(a, s) && Least(b, s) ensures a == b { LeastUnique(s, a, b); }
      }
      var k :| Least(k, s);
      [k] + SortedKeys(s - {k})
  }

  /** There is only one way to sort a set of keys. */
  lemma {:induction false} SortedKeysUnique(keys: seq<string>, s: set<string>)
    requires SortedKeysOf(keys, s)
    ensures keys == SortedKeys(s)
  {
    if keys == [] {
      assert s == {} by { assert forall k :: k in s ==> k in keys; }
    } else {
      FirstIsLeast(keys, s);
      SortedKeysCons(s, keys[0]);
      TailSorted(keys, s);
      SortedKeysUnique(keys[1..], s - {keys[0]});
      assert keys == [keys[0]] + keys[1..];
    }
  }

  lemma SortedKeysCons(s: set<string>, k: string)
    requires Least(k, s)
    ensures SortedKeys(s) == [k] + SortedKeys(s - {k})
  {
    var m :| Least(m, s) && SortedKeys(s) == [m] + SortedKeys(s - {m});
    LeastUnique(s, k, m);
  }

  lemma FirstIsLeast(keys: seq<string>, s: set<string>)
    requires SortedKeysOf(keys, s) && keys != []
    ensures Least(keys[0], s)
  {
    assert keys[0] in keys;
    forall x | x in s && x != keys[0] ensures Before(keys[0], x) {
      assert x in keys;
      var i :| 0 <= i < |keys| && keys[i] == x;
    }
  }

  lemma TailSorted(keys: seq<string>, s: set<string>)
    requires SortedKeysOf(keys, s) && keys != []
    ensures SortedKeysOf(keys[1..], s - {keys[0]})
  {
    var rest := keys[1..];
    forall x ensures x in rest <==> x in s - {keys[0]} {
      if x in s - {keys[0]} {
        assert x in keys;
        var i :| 0 <= i < |keys| && keys[i] == x;
        assert rest[i - 1] == x;
      }
      if x in rest {
        var i :| 0 <= i < |rest| && rest[i] == x;
        assert keys[i + 1] == x;
        BeforeIrreflexive(keys[0], x);
        assert x in keys;
      }
    }
  }

  // ---------------------------------------------------------------- the encoding

  predicate WellFormed(v: Json) {
    match v
    case JNumber(t) => NumberToken(t)
    case JArray(items) => forall x :: x in items ==> WellFormed(x)
    case JObject(fields) => forall k :: k in fields ==> WellFormed(fields[k])
    case _ => true
  }

  function StableEncode(v: Json): string
    decreases v, 1
  {
    match v
    case JNull => "null"
    case JBool(flag) => if flag then "true" else "false"
    case JNumber(t) => t
    case JString(text) => Quote(text)
    case JArray(items) => ['['] + EncodeItems(items, true) + [']']
    case JObject(fields) => ['{'] + EncodeFields(v, SortedKeys(fields.Keys), true) + ['}']
  }

  function Comma(first: bool): string {
    if first then "" else ","
  }

  function EncodeItems(items: seq<Json>, first: bool): string
    decreases items, 0
  {
    if items == [] then ""
    else Comma(first) + StableEncode(items[0]) + EncodeItems(items[1..], false)
  }

  function EncodeFields(v: Json, keys: seq<string>, first: bool): string
    requires v.JObject? && forall k :: k in keys ==> k in v.fields
    decreases v, 0, |keys|
  {
    if keys == [] then ""
    else Comma(first) + FieldText(v, keys[0]) + EncodeFields(v, keys[1..], false)
  }

  function FieldText(v: Json, k: string): string
    requires v.JObject? && k in v.fields
    decreases v, 0, 0
  {
    Quote(k) + [':'] + StableEncode(v.fields[k])
  }

  function CommaSeparated(parts: seq<string>): string {
    if parts == [] then ""
    else if |parts| == 1 then parts[0]
    else parts[0] + "," + CommaSeparated(parts[1..])
  }

  lemma {:induction false} ItemsText(items: seq<Json>, parts: seq<string>)
    requires |parts| == |items| && forall i :: 0 <= i < |items| ==> parts[i] == StableEncode(items[i])
    ensures EncodeItems(items, true) == CommaSeparated(parts)
  {
    if |items| > 1 {
      ItemsText(items[1..], parts[1..]);
      assert EncodeItems(items[1..], false) == "," + EncodeItems(items[1..], true);
    } else if |items| == 1 {
      assert EncodeItems(items[1..], false) == "";
    }
  }

  lemma {:induction false} FieldsText(v: Json, keys: seq<string>, parts: seq<string>)
    requires v.JObject? && (forall k :: k in keys ==> k in v.fields)
    requires |parts| == |keys| && forall i :: 0 <= i < |keys| ==> parts[i] == FieldText(v, keys[i])
    ensures EncodeFields(v, keys, true) == CommaSeparated(parts)
  {
    if |keys| > 1 {
      FieldsText(v, keys[1..], parts[1..]);
      assert EncodeFields(v, keys[1..], false) == "," + EncodeFields(v, keys[1..], true);
    } else if |keys| == 1 {
      assert EncodeFields(v, keys[1..], false) == "";
    }
  }

  /** An array is written as the texts of its items, separated by commas, in brackets. */
  lemma ArrayText(items: seq<Json>, parts: seq<string>)
    requires |parts| == |items| && forall i :: 0 <= i < |items| ==> parts[i] == StableEncode(items[i])
    ensures StableEncode(JArray(items)) == "[" + CommaSeparated(parts) + "]"
  {
    ItemsText(items, parts);
  }

  /** An object is written as its quoted keys, in order, each with a colon and the text of its
      value, separated by commas, in braces. */
  lemma ObjectText(fields: map<string, Json>, keys: seq<string>, parts: seq<string>)
    requires SortedKeysOf(keys, fields.Keys) && |parts| == |keys|
    requires forall i :: 0 <= i < |keys| ==>
               keys[i] in fields && parts[i] == "\"" + EscapeText(keys[i]) + "\":" + StableEncode(fields[keys[i]])
    ensures StableEncode(JObject(fields)) == "{" + CommaSeparated(parts) + "}"
  {
    var v := JObject(fields);
    SortedKeysUnique(keys, fields.Keys);
    forall i | 0 <= i < |keys| ensures parts[i] == FieldText(v, keys[i]) {
      assert "\"" + EscapeText(keys[i]) + "\":" == Quote(keys[i]) + [':'];
    }
    FieldsText(v, keys, parts);
  }

  // ---------------------------------------------------------------- texts that can be read back

  lemma UnicodeInjective(m: int, n: int)
    requires 0 <= m < 0x10000 && 0 <= n < 0x10000 && Unicode(m) == Unicode(n)
    ensures m == n
  {
    assert forall a, b :: 0 <= a < 16 && 0 <= b < 16 && Hex(a) == Hex(b) ==> a == b;
    assert Unicode(m)[2] == Unicode(n)[2] && Unicode(m)[3] == Unicode(n)[3];
    assert Unicode(m)[4] == Unicode(n)[4] && Unicode(m)[5] == Unicode(n)[5];
    HexDigits(m);
    HexDigits(n);
  }

  lemma HexDigits(n: int)
    requires 0 <= n < 0x10000
    ensures n == n / 0x1000 * 0x1000 + n / 0x100 % 16 * 0x100 + n / 16 % 16 * 16 + n % 16
  {
    var a, b, c := n / 16, n / 0x100, n / 0x1000;
    assert a / 16 == b && b / 16 == c;
    assert a == b * 16 + a % 16 && b == c * 16 + b % 16;
  }

  lemma ShortEscapeInjective(c: char, d: char)
    requires ShortEscape(c) == ShortEscape(d) != ' '
    ensures c == d
  {
  }

  lemma EscapeCharUnique(c: char, x: string, d: char, y: string)
    requires EscapeChar(c) + x == EscapeChar(d) + y
    ensures c == d && x == y
  {
    var s, t := EscapeChar(c) + x, EscapeChar(d) + y;
    assert s[0] == t[0];
    if s[0] == '\\' {
      assert s[1] == t[1];
      if s[1] == 'u' {
        assert s[..6] == Unicode(c as int) && t[..6] == Unicode(d as int);
        UnicodeInjective(c as int, d as int);
        assert s[6..] == x && t[6..] == y;
      } else {
        ShortEscapeInjective(c, d);
        assert s[2..] == x && t[2..] == y;
      }
    } else {
      assert s[1..] == x && t[1..] == y;
    }
  }

  lemma {:induction false} EscapeTextUnique(a: string, x: string, b: string, y: string)
    requires EscapeText(a) + ['"'] + x == EscapeText(b) + ['"'] + y
    ensures a == b && x == y
  {
    if a == "" || b == "" {
      assert (EscapeText(a) + ['"'] + x)[0] == '"' <==> a == "";
      assert (EscapeText(b) + ['"'] + y)[0] == '"' <==> b == "";
      assert (['"'] + x)[1..] == x && (['"'] + y)[1..] == y;
      assert EscapeText("") + ['"'] == ['"'];
    } else {
      var s, t := EscapeText(a[1..]) + ['"'] + x, EscapeText(b[1..]) + ['"'] + y;
      assert EscapeText(a) + ['"'] + x == EscapeChar(a[0]) + s;
      assert EscapeText(b) + ['"'] + y == EscapeChar(b[0]) + t;
      EscapeCharUnique(a[0], s, b[0], t);
      EscapeTextUnique(a[1..], x, b[1..], y);
      assert a == [a[0]] + a[1..] && b == [b[0]] + b[1..];
    }
  }

  lemma QuoteUnique(a: string, x: string, b: string, y: string)
    requires Quote(a) + x == Quote(b) + y
    ensures a == b && x == y
  {
    assert (Quote(a) + x)[1..] == EscapeText(a) + ['"'] + x;
    assert (Quote(b) + y)[1..] == EscapeText(b) + ['"'] + y;
    EscapeTextUnique(a, x, b, y);
  }

  /** What follows a value: nothing, or a character that cannot extend a number. */
  predicate Stop(rest: string) {
    rest == "" || !NumberChar(rest[0])
  }

  lemma NumberUnique(a: string, x: string, b: string, y: string)
    requires NumberToken(a) && NumberToken(b) && Stop(x) && Stop(y) && a + x == b + y
    ensures a == b && x == y
  {
    var s := a + x;
    assert forall i :: 0 <= i < |a| ==> s[i] == a[i];
    assert forall i :: 0 <= i < |b| ==> s[i] == b[i];
    assert x == s[|a|..] && y == s[|b|..];
    assert |a| == |b|;
    assert (a + x)[..|a|] == a && (b + y)[..|b|] == b && (a + x)[|a|..] == x && (b + y)[|b|..] == y;
  }

  /** The first character of a text tells the kind of the value. */
  function Lead(v: Json): char
    requires WellFormed(v)
  {
    match v
    case JNull => 'n'
    case JBool(flag) => if flag then 't' else 'f'
    case JNumber(t) => t[0]
    case JString(_) => '"'
    case JArray(_) => '['
    case JObject(_) => '{'
  }

  lemma LeadIsFirst(v: Json)
    requires WellFormed(v)
    ensures StableEncode(v) != "" && StableEncode(v)[0] == Lead(v)
  {
  }

  lemma CommaStrips(first: bool, x: string, y: string)
    requires Comma(first) + x == Comma(first) + y
    ensures x == y
  {
    var n := |Comma(first)|;
    assert (Comma(first) + x)[n..] == x && (Comma(first) + y)[n..] == y;
  }

  lemma ItemsStop(items: seq<Json>, rest: string)
    ensures Stop(EncodeItems(items, false) + [']'] + rest)
  {
  }

  lemma FieldsStop(v: Json, keys: seq<string>, rest: string)
    requires v.JObject? && forall k :: k in keys ==> k in v.fields
    ensures Stop(EncodeFields(v, keys, false) + ['}'] + rest)
  {
  }

  /** A list that has ended is never read as one that goes on. */
  lemma EndedItems(items: seq<Json>, first: bool, x: string, y: string)
    requires items != [] && (forall v :: v in items ==> WellFormed(v))
    ensures EncodeItems(items, first) + [']'] + x != [']'] + y
  {
    LeadIsFirst(items[0]);
    var s := EncodeItems(items, first) + [']'] + x;
    assert s[0] == if first then Lead(items[0]) else ',';
    assert ([']'] + y)[0] == ']';
  }

  lemma EndedFields(v: Json, keys: seq<string>, first: bool, x: string, y: string)
    requires v.JObject? && keys != [] && forall k :: k in keys ==> k in v.fields
    ensures EncodeFields(v, keys, first) + ['}'] + x != ['}'] + y
  {
    var s := EncodeFields(v, keys, first) + ['}'] + x;
    assert FieldText(v, keys[0])[0] == '"';
    assert s[0] == if first then '"' else ',';
    assert (['}'] + y)[0] == '}';
  }

  lemma SameLeadSameKind(v: Json, w: Json)
    requires WellFormed(v) && WellFormed(w) && Lead(v) == Lead(w)
    ensures v.JNull? == w.JNull? && v.JNumber? == w.JNumber? && v.JString? == w.JString?
    ensures v.JArray? == w.JArray? && v.JObject? == w.JObject?
    ensures v.JBool? ==> w == v
  {
  }

  lemma Unwrap(open: char, body: string, close: char, x: string)
    ensures ([open] + body + [close] + x)[1..] == body + [close] + x
  {
  }

  lemma EncodeUnfoldArray(v: Json, x: string)
    requires v.JArray?
    ensures (StableEncode(v) + x)[1..] == EncodeItems(v.items, true) + [']'] + x
  {
    Unwrap('[', EncodeItems(v.items, true), ']', x);
  }

  lemma EncodeUnfoldObject(v: Json, x: string)
    requires v.JObject?
    ensures (StableEncode(v) + x)[1..] == EncodeFields(v, SortedKeys(v.fields.Keys), true) + ['}'] + x
  {
    Unwrap('{', EncodeFields(v, SortedKeys(v.fields.Keys), true), '}', x);
  }

  lemma SuffixUnique(a: string, x: string, y: string)
    requires a + x == a + y
    ensures x == y
  {
    assert (a + x)[|a|..] == x && (a + y)[|a|..] == y;
  }

  /** A value's text, followed by anything that cannot extend it, determines the
      value and what follows. */
  lemma {:induction false} EncodeUnique(v: Json, x: string, w: Json, y: string)
    requires WellFormed(v) && WellFormed(w) && Stop(x) && Stop(y)
    requires StableEncode(v) + x == StableEncode(w) + y
    ensures v == w && x == y
    decreases v, 1
  {
    LeadIsFirst(v);
    LeadIsFirst(w);
    assert (StableEncode(v) + x)[0] == Lead(v) && (StableEncode(w) + y)[0] == Lead(w);
    SameLeadSameKind(v, w);
    match v {
      case JNull | JBool(_) => SuffixUnique(StableEncode(v), x, y);
      case JNumber(t) => NumberUnique(t, x, w.token, y);
      case JString(text) => QuoteUnique(text, x, w.text, y);
      case JArray(items) =>
        EncodeUnfoldArray(v, x);
        EncodeUnfoldArray(w, y);
        ItemsUnique(items, x, w.items, y, true);
      case JObject(fields) =>
        EncodeUnfoldObject(v, x);
        EncodeUnfoldObject(w, y);
        FieldsUnique(v, SortedKeys(fields.Keys), x, w, SortedKeys(w.fields.Keys), y, true);
        SameFields(fields, w.fields);
    }
  }

  lemma SameFields(a: map<string, Json>, b: map<string, Json>)
    requires SortedKeys(a.Keys) == SortedKeys(b.Keys)
    requires forall k :: k in SortedKeys(a.Keys) ==> k in a && k in b && a[k] == b[k]
    ensures a == b
  {
    assert forall k :: k in a.Keys <==> k in SortedKeys(a.Keys);
    assert forall k :: k in b.Keys <==> k in SortedKeys(b.Keys);
    assert a.Keys == b.Keys;
  }

  lemma ItemsUnfold(items: seq<Json>, x: string, first: bool)
    requires items != []
    ensures EncodeItems(items, first) + [']'] + x
         == Comma(first) + (StableEncode(items[0]) + (EncodeItems(items[1..], false) + [']'] + x))
  {
  }

  lemma {:induction false} ItemsUnique(items: seq<Json>, x: string, items': seq<Json>, y: string, first: bool)
    requires (forall v :: v in items ==> WellFormed(v)) && (forall v :: v in items' ==> WellFormed(v))
    requires EncodeItems(items, first) + [']'] + x == EncodeItems(items', first) + [']'] + y
    ensures items == items' && x == y
    decreases items, 0
  {
    if items == [] || items' == [] {
      assert "" + [']'] + x == [']'] + x && "" + [']'] + y == [']'] + y;
      if items != [] { EndedItems(items, first, x, y); }
      if items' != [] { EndedItems(items', first, y, x); }
      SuffixUnique([']'], x, y);
    } else {
      var s := EncodeItems(items[1..], false) + [']'] + x;
      var t := EncodeItems(items'[1..], false) + [']'] + y;
      ItemsUnfold(items, x, first);
      ItemsUnfold(items', y, first);
      CommaStrips(first, StableEncode(items[0]) + s, StableEncode(items'[0]) + t);
      ItemsStop(items[1..], x);
      ItemsStop(items'[1..], y);
      EncodeUnique(items[0], s, items'[0], t);
      ItemsUnique(items[1..], x, items'[1..], y, false);
      assert items == [items[0]] + items[1..] && items' == [items'[0]] + items'[1..];
    }
  }

  lemma {:induction false} FieldsUnique(
    v: Json, keys: seq<string>, x: string, w: Json, keys': seq<string>, y: string, first: bool)
    requires v.JObject? && w.JObject? && WellFormed(v) && WellFormed(w)
    requires (forall k :: k in keys ==> k in v.fields) && (forall k :: k in keys' ==> k in w.fields)
    requires EncodeFields(v, keys, first) + ['}'] + x == EncodeFields(w, keys', first) + ['}'] + y
    ensures keys == keys' && x == y
    ensures forall k :: k in keys ==> v.fields[k] == w.fields[k]
    decreases v, 0, |keys|
  {
    if keys == [] || keys' == [] {
      assert "" + ['}'] + x == ['}'] + x && "" + ['}'] + y == ['}'] + y;
      if keys != [] { EndedFields(v, keys, first, x, y); }
      if keys' != [] { EndedFields(w, keys', first, y, x); }
      SuffixUnique(['}'], x, y);
    } else {
      FieldUnique(v, keys, x, w, keys', y, first);
      FieldsUnique(v, keys[1..], x, w, keys'[1..], y, false);
      assert keys == [keys[0]] + keys[1..] && keys' == [keys'[0]] + keys'[1..];
    }
  }

  /** The text from the colon of the first field on. */
  function AfterKey(v: Json, keys: seq<string>, x: string): string
    requires v.JObject? && keys != [] && forall k :: k in keys ==> k in v.fields
  {
    StableEncode(v.fields[keys[0]]) + (EncodeFields(v, keys[1..], false) + ['}'] + x)
  }

  lemma FieldsUnfold(v: Json, keys: seq<string>, x: string, first: bool)
    requires v.JObject? && keys != [] && forall k :: k in keys ==> k in v.fields
    ensures EncodeFields(v, keys, first) + ['}'] + x
         == Comma(first) + (Quote(keys[0]) + ([':'] + AfterKey(v, keys, x)))
  {
    RegroupField(Comma(first), Quote(keys[0]), StableEncode(v.fields[keys[0]]), EncodeFields(v, keys[1..], false), x);
    assert EncodeFields(v, keys, first)
        == Comma(first) + (Quote(keys[0]) + [':'] + StableEncode(v.fields[keys[0]]))
           + EncodeFields(v, keys[1..], false);
  }

  lemma RegroupField(c: string, q: string, e: string, f: string, x: string)
    ensures (c + (q + [':'] + e) + f) + ['}'] + x == c + (q + ([':'] + (e + (f + ['}'] + x))))
  {
  }

  lemma Regroup(a: string, b: string, c: string, d: string)
    ensures a + b + c + d == a + (b + c + d)
  {
  }

  lemma {:induction false} FieldUnique(
    v: Json, keys: seq<string>, x: string, w: Json, keys': seq<string>, y: string, first: bool)
    requires v.JObject? && w.JObject? && WellFormed(v) && WellFormed(w) && keys != [] && keys' != []
    requires (forall k :: k in keys ==> k in v.fields) && (forall k :: k in keys' ==> k in w.fields)
    requires EncodeFields(v, keys, first) + ['}'] + x == EncodeFields(w, keys', first) + ['}'] + y
    ensures keys[0] == keys'[0] && v.fields[keys[0]] == w.fields[keys'[0]]
    ensures EncodeFields(v, keys[1..], false) + ['}'] + x == EncodeFields(w, keys'[1..], false) + ['}'] + y
    decreases v, 0, |keys| - 1
  {
    var a, b := AfterKey(v, keys, x), AfterKey(w, keys', y);
    FieldsUnfold(v, keys, x, first);
    FieldsUnfold(w, keys', y, first);
    CommaStrips(first, Quote(keys[0]) + ([':'] + a), Quote(keys'[0]) + ([':'] + b));
    QuoteUnique(keys[0], [':'] + a, keys'[0], [':'] + b);
    SuffixUnique([':'], a, b);
    FieldsStop(v, keys[1..], x);
    FieldsStop(w, keys'[1..], y);
    EncodeUnique(v.fields[keys[0]], EncodeFields(v, keys[1..], false) + ['}'] + x,
                 w.fields[keys'[0]], EncodeFields(w, keys'[1..], false) + ['}'] + y);
  }

  /** The text decides equality of values. */
  lemma EncodingDecidesEquality(v: Json, w: Json)
    requires WellFormed(v) && WellFormed(w)
    ensures StableEncode(v) == StableEncode(w) <==> v == w
  {
    if StableEncode(v) == StableEncode(w) {
      assert StableEncode(v) + "" == StableEncode(w) + "";
      EncodeUnique(v, "", w, "");
    }
  }

  // ---------------------------------------------------------------- the encoder's loops

  /** The keys of an object in whatever order the runtime enumerates them. */
  method CollectKeys(fields: map<string, Json>) returns (keys: seq<string>)
    ensures forall k :: k in keys <==> k in fields
    ensures forall i, j :: 0 <= i < j < |keys| ==> keys[i] != keys[j]
  {
    keys := [];
    var todo := fields.Keys;
    while todo != {}
      invariant todo <= fields.Keys
      invariant forall k :: k in keys <==> k in fields && k !in todo
      invariant forall i, j :: 0 <= i < j < |keys| ==> keys[i] != keys[j]
    {
      var k :| k in todo;
      keys := keys + [k];
      todo := todo - {k};
    }
  }

  /** Put `k` in its place among sorted keys. */
  method InsertKey(sorted: seq<string>, k: string) returns (r: seq<string>)
    requires StrictlySorted(sorted) && k !in sorted
    ensures StrictlySorted(r) && forall x :: x in r <==> x == k || x in sorted
  {
    var i := 0;
    while i < |sorted| && Before(sorted[i], k)
      invariant i <= |sorted|
      invariant forall j :: 0 <= j < i ==> Before(sorted[j], k)
    {
      i := i + 1;
    }
    r := sorted[..i] + [k] + sorted[i..];
    if i < |sorted| {
      BeforeTotal(sorted[i], k);
      forall j | i <= j < |sorted| ensures Before(k, sorted[j]) {
        if i < j { BeforeTransitive(k, sorted[i], sorted[j]); }
      }
    }
    assert sorted == sorted[..i] + sorted[i..];
  }

  method SortKeys(keys: seq<string>) returns (sorted: seq<string>)
    requires forall i, j :: 0 <= i < j < |keys| ==> keys[i] != keys[j]
    ensures SortedKeysOf(sorted, set k | k in keys)
  {
    sorted := [];
    for i := 0 to |keys|
      invariant StrictlySorted(sorted)
      invariant forall k :: k in sorted <==> k in keys[..i]
    {
      sorted := InsertKey(sorted, keys[i]);
      assert keys[..i + 1] == keys[..i] + [keys[i]];
    }
    assert keys[..|keys|] == keys;
  }

  /** The encoder as it runs.  The text does not depend on the enumeration order of any object. */
  method Encode(v: Json) returns (out: string)
    ensures out == StableEncode(v)
    decreases v, 1
  {
    match v {
      case JObject(fields) =>
        var keys := CollectKeys(fields);
        keys := SortKeys(keys);
        assert fields.Keys == set k | k in keys;
        SortedKeysUnique(keys, fields.Keys);
        var body := WriteFields(v, keys);
        out := ['{'] + body + ['}'];
      case JArray(items) =>
        var body := WriteItems(items);
        out := ['['] + body + [']'];
      case JNull => out := "null";
      case JBool(flag) => out := if flag then "true" else "false";
      case JNumber(t) => out := t;
      case JString(text) => out := Quote(text);
    }
  }

  method WriteItems(items: seq<Json>) returns (b: string)
    ensures b == EncodeItems(items, true)
    decreases items, 0
  {
    b := "";
    for i := 0 to |items|
      invariant b + EncodeItems(items[i..], i == 0) == EncodeItems(items, true)
    {
      assert items[i..][0] == items[i] && items[i..][1..] == items[i + 1..];
      var e := Encode(items[i]);
      Regroup(b, Comma(i == 0), e, EncodeItems(items[i + 1..], false));
      b := b + Comma(i == 0) + e;
    }
    assert items[|items|..] == [];
  }

  method WriteFields(v: Json, keys: seq<string>) returns (b: string)
    requires v.JObject? && forall k :: k in keys ==> k in v.fields
    ensures b == EncodeFields(v, keys, true)
    decreases v, 0
  {
    b := "";
    for i := 0 to |keys|
      invariant b + EncodeFields(v, keys[i..], i == 0) == EncodeFields(v, keys, true)
    {
      assert keys[i..][0] == keys[i] && keys[i..][1..] == keys[i + 1..];
      var e := Encode(v.fields[keys[i]]);
      var text := Quote(keys[i]) + [':'] + e;
      Regroup(b, Comma(i == 0), text, EncodeFields(v, keys[i + 1..], false));
      b := b + Comma(i == 0) + text;
    }
    assert keys[|keys|..] == [];
  }
}
