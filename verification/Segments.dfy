/** `/`-delimited subject paths: splitting, joining, and the percent-encoding of
    user-chosen segments. */
module Segments {

  type Byte = b: int | 0 <= b < 256

  // ---------------------------------------------------------------- paths

  predicate SlashFree(s: string) {
    '/' !in s
  }

  function Slashes(s: string): nat {
    if s == "" then 0 else (if s[0] == '/' then 1 else 0) + Slashes(s[1..])
  }

  /** The segments between slashes; "" has the single segment "". */
  function Split(s: string): (segs: seq<string>)
    ensures |segs| == Slashes(s) + 1
    ensures forall i :: 0 <= i < |segs| ==> SlashFree(segs[i])
  {
    if s == "" then [""]
    else
      var rest := Split(s[1..]);
      if s[0] == '/' then [""] + rest else [[s[0]] + rest[0]] + rest[1..]
  }

  function Join(segs: seq<string>): string
    requires segs != []
  {
    if |segs| == 1 then segs[0] else segs[0] + "/" + Join(segs[1..])
  }

  lemma {:induction false} JoinSplit(s: string)
    ensures Join(Split(s)) == s
  {
    if s != "" {
      var rest := Split(s[1..]);
      JoinSplit(s[1..]);
      if s[0] == '/' {
        assert Split(s)[1..] == rest;
      } else {
        assert Split(s)[1..] == rest[1..];
      }
      assert s == [s[0]] + s[1..];
    }
  }

  lemma {:induction false} SplitCons(seg: string, tail: string)
    requires SlashFree(seg)
    ensures Split(seg + "/" + tail) == [seg] + Split(tail)
  {
    var s := seg + "/" + tail;
    if seg == "" {
      assert s[1..] == tail;
    } else {
      SplitCons(seg[1..], tail);
      assert s[1..] == seg[1..] + "/" + tail;
      assert seg == [seg[0]] + seg[1..];
    }
  }

  lemma {:induction false} SplitSlashFree(seg: string)
    requires SlashFree(seg)
    ensures Split(seg) == [seg]
  {
    if seg != "" {
      SplitSlashFree(seg[1..]);
      assert seg == [seg[0]] + seg[1..];
    }
  }

  /** Joining slash-free segments loses nothing. */
  lemma {:induction false} SplitJoin(segs: seq<string>)
    requires segs != [] && forall i :: 0 <= i < |segs| ==> SlashFree(segs[i])
    ensures Split(Join(segs)) == segs
  {
    if |segs| == 1 {
      SplitSlashFree(segs[0]);
    } else {
      SplitCons(segs[0], Join(segs[1..]));
      SplitJoin(segs[1..]);
    }
  }

  lemma SplitConcat(a: string, b: string)
    ensures Split(a + "/" + b) == Split(a) + Split(b)
  {
    JoinSplit(a);
    JoinSplit(b);
    JoinConcat(Split(a), Split(b));
    SplitJoin(Split(a) + Split(b));
  }

  lemma {:induction false} JoinConcat(a: seq<string>, b: seq<string>)
    requires a != [] && b != []
    ensures Join(a + b) == Join(a) + "/" + Join(b)
  {
    if |a| == 1 {
      assert (a + b)[1..] == b;
    } else {
      JoinConcat(a[1..], b);
      assert (a + b)[1..] == a[1..] + b;
    }
  }

  /** A piece joined in between contributes its own segments, in its place. */
  lemma SplitMiddle(head: seq<string>, mid: string, tail: seq<string>)
    requires head != [] && tail != []
    requires forall i :: 0 <= i < |head| ==> SlashFree(head[i])
    requires forall i :: 0 <= i < |tail| ==> SlashFree(tail[i])
    ensures Split(Join(head + ([mid] + tail))) == head + (Split(mid) + tail)
  {
    JoinConcat(head, [mid] + tail);
    JoinConcat([mid], tail);
    SplitConcat(Join(head), Join([mid] + tail));
    SplitConcat(mid, Join(tail));
    SplitJoin(head);
    SplitJoin(tail);
  }

  lemma {:induction false} SlashesConcat(a: string, b: string)
    ensures Slashes(a + b) == Slashes(a) + Slashes(b)
  {
    if a == "" {
      assert a + b == b;
    } else {
      SlashesConcat(a[1..], b);
      assert (a + b)[1..] == a[1..] + b;
    }
  }

  lemma {:induction false} SlashFreeCount(s: string)
    ensures SlashFree(s) <==> Slashes(s) == 0
  {
    if s != "" {
      SlashFreeCount(s[1..]);
      assert s == [s[0]] + s[1..];
    }
  }

  // ---------------------------------------------------------------- percent-encoding

  /** The bytes that would break the path grammar: `/`, space, `*`, `%`, `?`, `#`, backslash, controls. */
  predicate NeedsEscape(b: Byte) {
    b == 0x2F || b == 0x20 || b == 0x2A || b == 0x25 || b == 0x3F || b == 0x23 || b == 0x5C || b < 0x20 || b == 0x7F
  }

  function HexDigit(n: int): char
    requires 0 <= n < 16
  {
    if n < 10 then ('0' as int + n) as char else ('A' as int + n - 10) as char
  }

  function HexValue(c: char): (n: int)
    ensures 0 <= n < 16
  {
    if '0' <= c <= '9' then c as int - '0' as int
    else if 'A' <= c <= 'F' then c as int - 'A' as int + 10
    else 0
  }

  /** Upper-case hexadecimal. */
  lemma HexDigitIs(n: int)
    requires 0 <= n < 16
    ensures HexDigit(n) == "0123456789ABCDEF"[n]
  {
  }

  function Percent(b: Byte): string {
    ['%', HexDigit(b / 16), HexDigit(b % 16)]
  }

  function EncodeByte(b: Byte): string {
    if NeedsEscape(b) then Percent(b) else [b as char]
  }

  function EncodeBytes(s: seq<Byte>): string {
    if s == [] then "" else EncodeByte(s[0]) + EncodeBytes(s[1..])
  }

  /** What the server writes for a user-chosen segment; the empty segment is written `_`. */
  function EncodeSegment(s: seq<Byte>): string {
    if s == [] then "_" else EncodeBytes(s)
  }

  /** Undoes the percent-encoding. */
  function Decode(t: string): seq<Byte> {
    if t == "" then []
    else if t[0] == '%' && |t| >= 3 then [HexValue(t[1]) * 16 + HexValue(t[2])] + Decode(t[3..])
    else [t[0] as int % 256] + Decode(t[1..])
  }

  lemma {:induction false} EncodeBytesSnoc(s: seq<Byte>, b: Byte)
    ensures EncodeBytes(s + [b]) == EncodeBytes(s) + EncodeByte(b)
  {
    if s == [] {
      assert [b][1..] == [];
      assert EncodeBytes([b]) == EncodeByte(b) + EncodeBytes([]);
    } else {
      EncodeBytesSnoc(s[1..], b);
      assert (s + [b])[1..] == s[1..] + [b];
    }
  }

  /** The byte loop that builds an encoded segment. */
  method EncodeLoop(s: seq<Byte>) returns (out: string)
    ensures out == EncodeSegment(s)
  {
    if |s| == 0 {
      return "_";
    }
    out := "";
    for i := 0 to |s|
      invariant out == EncodeBytes(s[..i])
    {
      var c := s[i];
      EncodeBytesSnoc(s[..i], c);
      assert s[..i + 1] == s[..i] + [c];
      if NeedsEscape(c) {
        out := out + ['%'];
        out := out + [HexDigit(c / 16), HexDigit(c % 16)];
      } else {
        out := out + [c as char];
      }
    }
    assert s[..|s|] == s;
  }

  lemma DecodeEncodeByte(b: Byte, t: string)
    ensures Decode(EncodeByte(b) + t) == [b] + Decode(t)
  {
    var u := EncodeByte(b) + t;
    if NeedsEscape(b) {
      assert u[3..] == t;
    } else {
      assert u[1..] == t;
    }
  }

  lemma {:induction false} DecodeEncodeBytes(s: seq<Byte>)
    ensures Decode(EncodeBytes(s)) == s
  {
    if s != [] {
      DecodeEncodeBytes(s[1..]);
      DecodeEncodeByte(s[0], EncodeBytes(s[1..]));
    }
  }

  /** The decoder inverts the encoder on every non-empty byte string. */
  lemma DecodeInvertsEncode(s: seq<Byte>)
    requires s != []
    ensures Decode(EncodeSegment(s)) == s
  {
    DecodeEncodeBytes(s);
  }

  lemma EncodedUnderscore(s: seq<Byte>)
    requires EncodeSegment(s) == "_"
    ensures s == [] || s == [0x5F]
  {
    if s != [] {
      DecodeEncodeBytes(s);
      assert Decode("_") == [0x5F] + Decode("");
    }
  }

  /** Two segments are written alike only if they are equal or are the empty one and "_". */
  lemma EncodeCollides(a: seq<Byte>, b: seq<Byte>)
    ensures EncodeSegment(a) == EncodeSegment(b) <==>
            a == b || (a == [] && b == [0x5F]) || (a == [0x5F] && b == [])
  {
    assert EncodeSegment([0x5F]) == "_" by { assert [0x5F][1..] == []; assert EncodeByte(0x5F) == "_"; }
    if EncodeSegment(a) == EncodeSegment(b) {
      if a == [] {
        EncodedUnderscore(b);
      } else if b == [] {
        EncodedUnderscore(a);
      } else {
        DecodeEncodeBytes(a);
        DecodeEncodeBytes(b);
      }
    }
  }

  /** An encoded segment is not empty and contains neither a separator nor a wildcard. */
  lemma EncodedIsOneLiteral(s: seq<Byte>)
    ensures EncodeSegment(s) != ""
    ensures forall c :: c in EncodeSegment(s) ==> c !in {'/', '*', ' ', '?', '#', '\\'}
  {
    if s != [] {
      EncodedBytesClean(s);
    }
  }

  lemma {:induction false} EncodedBytesClean(s: seq<Byte>)
    ensures s != [] ==> EncodeBytes(s) != ""
    ensures forall c :: c in EncodeBytes(s) ==> c !in {'/', '*', ' ', '?', '#', '\\'}
  {
    if s != [] {
      EncodedBytesClean(s[1..]);
      forall c | c in EncodeByte(s[0]) ensures c !in {'/', '*', ' ', '?', '#', '\\'} {
      }
    }
  }
}
