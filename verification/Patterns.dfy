/** Subject patterns: the exact matcher, the SQL LIKE prefilter that stands in
    front of it, and how far the prefilter over-approximates the matcher. */
module Patterns {
  import opened Segments

  // ---------------------------------------------------------------- the exact matcher

  predicate Covers(tok: string, seg: string) {
    tok == "*" || tok == seg
  }

  /** `*` stands for one segment; `**` is meaningful only as the last token,
      where it stands for zero or more segments. */
  predicate MatchesSegments(p: seq<string>, s: seq<string>)
    requires p != []
  {
    var n := |p| - 1;
    && (forall i :: 0 <= i < n ==> p[i] != "**")
    && (forall i :: 0 <= i < n && i < |s| ==> Covers(p[i], s[i]))
    && (if p[n] == "**" then n <= |s| else |s| == |p| && Covers(p[n], s[n]))
  }

  predicate MatchesSubject(pattern: string, subject: string) {
    pattern == "" || MatchesSegments(Split(pattern), Split(subject))
  }

  /** The segment-by-segment loop of the server. */
  method Matches(pattern: string, subject: string) returns (r: bool)
    ensures r == MatchesSubject(pattern, subject)
  {
    if |pattern| == 0 {
      return true;
    }
    var p, s := Split(pattern), Split(subject);
    var pi, si := 0, 0;
    while pi < |p|
      invariant pi == si && pi <= |p| && si <= |s|
      invariant forall i :: 0 <= i < pi ==> p[i] != "**" && Covers(p[i], s[i])
    {
      var tok := p[pi];
      if tok == "**" {
        return pi + 1 == |p|;
      }
      if si >= |s| {
        return false;
      }
      if tok == "*" || tok == s[si] {
        pi := pi + 1;
        si := si + 1;
        continue;
      }
      return false;
    }
    return si == |s|;
  }

  // ---------------------------------------------------------------- the matcher's laws, on texts

  /** A pattern of one token: two stars take everything, one star a text without a slash, and
      anything else itself. */
  lemma OneTokenLaw(tok: string, s: string)
    requires SlashFree(tok) && tok != ""
    ensures MatchesSubject(tok, s) <==> tok == "**" || (SlashFree(s) && (tok == "*" || tok == s))
  {
    SplitSlashFree(tok);
    JoinSplit(s);
    if SlashFree(s) { SplitSlashFree(s); }
  }

  /** The first token takes the text before the first slash and the rest of the pattern what
      follows it; only before a lone `**` nothing need follow.  `**` takes nothing there. */
  lemma FirstTokenLaw(tok: string, q: string, s: string)
    requires SlashFree(tok) && q != ""
    ensures MatchesSubject(tok + "/" + q, s) <==>
            && tok != "**"
            && ((q == "**" && SlashFree(s) && (tok == "*" || tok == s))
                || exists x, y :: TakesFirst(tok, q, s, x, y))
  {
    var p, segs := [tok] + Split(q), Split(s);
    SplitCons(tok, q);
    JoinSplit(s);
    JoinSplit(q);
    if |segs| == 1 {
      forall x, y ensures !TakesFirst(tok, q, s, x, y) {
        if s == x + "/" + y { SplitConcat(x, y); }
      }
      assert SlashFree(s);
      LoneSegment(tok, Split(q), segs);
    } else {
      var x, y := segs[0], Join(segs[1..]);
      SplitJoin(segs[1..]);
      MatchesCons(tok, Split(q), segs);
      assert s == x + "/" + y;
      assert s[|x|] == '/' && !SlashFree(s);
      forall x', y' | TakesFirst(tok, q, s, x', y') ensures x' == x && Split(y') == segs[1..] { SplitCons(x', y'); }
      assert MatchesSubject(q, y) == MatchesSegments(Split(q), segs[1..]);
      if MatchesSubject(tok + "/" + q, s) { assert TakesFirst(tok, q, s, x, y); }
    }
  }

  /** The text splits at a slash into what the token takes and what the rest matches. */
  ghost predicate TakesFirst(tok: string, q: string, s: string, x: string, y: string) {
    s == x + "/" + y && SlashFree(x) && (tok == "*" || tok == x) && MatchesSubject(q, y)
  }

  lemma LoneSegment(tok: string, p: seq<string>, s: seq<string>)
    requires p != [] && |s| == 1
    ensures MatchesSegments([tok] + p, s) <==> tok != "**" && p == ["**"] && Covers(tok, s[0])
  {
    var all := [tok] + p;
    assert all[0] == tok && all[|p|] == p[|p| - 1];
  }

  lemma MatchesCons(tok: string, p: seq<string>, s: seq<string>)
    requires p != [] && |s| > 1
    ensures MatchesSegments([tok] + p, s) <==> tok != "**" && Covers(tok, s[0]) && MatchesSegments(p, s[1..])
  {
    var all := [tok] + p;
    assert all[0] == tok && all[|p|] == p[|p| - 1];
    assert forall i :: 0 <= i < |p| ==> all[i + 1] == p[i];
    if MatchesSegments(p, s[1..]) && tok != "**" && Covers(tok, s[0]) {
      forall i | 0 <= i < |all| - 1 ensures all[i] != "**" && (i < |s| ==> Covers(all[i], s[i])) {
        if i > 0 { assert all[i] == p[i - 1] && (i < |s| ==> s[i] == s[1..][i - 1]); }
      }
    }
    if MatchesSegments(all, s) {
      forall i | 0 <= i < |p| - 1 ensures p[i] != "**" && (i < |s[1..]| ==> Covers(p[i], s[1..][i])) {
        assert all[i + 1] == p[i];
      }
    }
  }

  /** Appending two stars: the subject itself is matched, or what comes before one of its slashes. */
  lemma DoubleStarLaw(q: string, s: string)
    requires q != "" && "**" !in Split(q)
    ensures MatchesSubject(q + "/**", s) <==>
            MatchesSubject(q, s) || exists i :: 0 <= i < |s| && s[i] == '/' && MatchesSubject(q, s[..i])
  {
    assert Split(q + "/**") == Split(q) + ["**"] by {
      SplitConcat(q, "**");
      SplitSlashFree("**");
      assert q + "/" + "**" == q + "/**";
    }
    OpenSegments(Split(q), Split(s));
    if |Split(q)| < |Split(s)| && MatchesSegments(Split(q), Split(s)[..|Split(q)|]) { BeginningMatched(q, s); }
    forall i | 0 <= i < |s| && s[i] == '/' && MatchesSubject(q, s[..i])
      ensures |Split(q)| < |Split(s)| && MatchesSegments(Split(q), Split(s)[..|Split(q)|])
    {
      MatchedBeginning(q, s, i);
    }
  }

  lemma BeginningMatched(q: string, s: string)
    requires q != "" && |Split(q)| < |Split(s)| && MatchesSegments(Split(q), Split(s)[..|Split(q)|])
    ensures exists i :: 0 <= i < |s| && s[i] == '/' && MatchesSubject(q, s[..i])
  {
    var k, segs := |Split(q)|, Split(s);
    JoinSplit(s);
    BeforeSlash(segs, k);
    assert MatchesSubject(q, s[..|Join(segs[..k])|]);
  }

  lemma MatchedBeginning(q: string, s: string, i: nat)
    requires q != "" && "**" !in Split(q) && i < |s| && s[i] == '/' && MatchesSubject(q, s[..i])
    ensures |Split(q)| < |Split(s)| && MatchesSegments(Split(q), Split(s)[..|Split(q)|])
  {
    assert s == s[..i] + "/" + s[i + 1..];
    SplitConcat(s[..i], s[i + 1..]);
    MatchedPart(Split(q), Split(s[..i]), Split(s[i + 1..]));
  }

  lemma MatchedPart(p: seq<string>, a: seq<string>, b: seq<string>)
    requires p != [] && "**" !in p && MatchesSegments(p, a) && b != []
    ensures |p| < |a + b| && MatchesSegments(p, (a + b)[..|p|])
  {
    SameCount(p, a);
    assert (a + b)[..|p|] == a;
  }

  /** So whatever follows a matched subject after a slash is taken too. */
  lemma DoubleStarTakesAll(q: string, s: string, t: string)
    requires q != "" && "**" !in Split(q) && MatchesSubject(q, s)
    ensures MatchesSubject(q + "/**", s) && MatchesSubject(q + "/**", s + "/" + t)
  {
    DoubleStarLaw(q, s);
    DoubleStarLaw(q, s + "/" + t);
    var all := s + "/" + t;
    assert all[|s|] == '/' && all[..|s|] == s;
  }

  lemma SameCount(p: seq<string>, s: seq<string>)
    requires p != [] && "**" !in p && MatchesSegments(p, s)
    ensures |s| == |p|
  {
    assert p[|p| - 1] in p;
  }

  lemma OpenSegments(p: seq<string>, s: seq<string>)
    requires p != [] && "**" !in p
    ensures MatchesSegments(p + ["**"], s) <==>
            MatchesSegments(p, s) || (|p| < |s| && MatchesSegments(p, s[..|p|]))
  {
    var all := p + ["**"];
    assert forall i :: 0 <= i < |p| ==> p[i] in p && all[i] == p[i];
    if MatchesSegments(all, s) {
      assert forall i :: 0 <= i < |p| ==> Covers(p[i], s[i]);
      assert |p| < |s| ==> forall i :: 0 <= i < |p| ==> s[..|p|][i] == s[i];
    }
    if |p| < |s| && MatchesSegments(p, s[..|p|]) {
      assert forall i :: 0 <= i < |p| ==> s[..|p|][i] == s[i] && Covers(p[i], s[..|p|][i]);
    }
    if MatchesSegments(p, s) { assert forall i :: 0 <= i < |p| ==> Covers(p[i], s[i]); }
  }

  lemma BeforeSlash(segs: seq<string>, k: nat)
    requires 0 < k < |segs| && forall i :: 0 <= i < |segs| ==> SlashFree(segs[i])
    ensures var n := |Join(segs[..k])|;
            n < |Join(segs)| && Join(segs)[n] == '/' && Split(Join(segs)[..n]) == segs[..k]
  {
    var a, b := segs[..k], segs[k..];
    assert segs == a + b;
    JoinConcat(a, b);
    SplitJoin(a);
    assert Join(segs)[..|Join(a)|] == Join(a);
  }

  // ---------------------------------------------------------------- SQL LIKE ... ESCAPE '\'

  /** Whether `s` is LIKE `pat`.  `same` is the database's notion of equal
      characters: equality, or equality up to letter case. */
  predicate Like(same: (char, char) -> bool, pat: string, s: string)
    decreases |pat| + |s|
  {
    if pat == "" then s == ""
    else if pat[0] == '%' then Like(same, pat[1..], s) || (s != "" && Like(same, pat, s[1..]))
    else if pat[0] == '_' then s != "" && Like(same, pat[1..], s[1..])
    else if pat[0] == '\\' then |pat| >= 2 && s != "" && same(pat[1], s[0]) && Like(same, pat[2..], s[1..])
    else s != "" && same(pat[0], s[0]) && Like(same, pat[1..], s[1..])
  }

  /** A collation may identify letters, but a slash only with itself. */
  ghost predicate Collation(same: (char, char) -> bool) {
    && (forall c :: same(c, c))
    && (forall c :: same('/', c) || same(c, '/') ==> c == '/')
  }

  predicate Ascii(s: string) {
    forall i :: 0 <= i < |s| ==> s[i] < '\U{80}'
  }

  /** The UTF-8 bytes of a character, each read back as a character. */
  function Utf8Chars(c: char): string {
    var n := c as int;
    if n < 0x80 then [c]
    else if n < 0x800 then [(0xC0 + n / 0x40) as char, (0x80 + n % 0x40) as char]
    else if n < 0x10000 then
      [(0xE0 + n / 0x1000) as char, (0x80 + n / 0x40 % 0x40) as char, (0x80 + n % 0x40) as char]
    else
      [(0xF0 + n / 0x40000) as char, (0x80 + n / 0x1000 % 0x40) as char,
       (0x80 + n / 0x40 % 0x40) as char, (0x80 + n % 0x40) as char]
  }

  function BytesAsChars(s: string): (r: string)
    ensures Ascii(s) ==> r == s
  {
    if s == "" then "" else Utf8Chars(s[0]) + BytesAsChars(s[1..])
  }

  /** Stars become `%`, LIKE's own metacharacters are escaped, the rest is copied. */
  function Translate(p: string): string {
    if p == "" then ""
    else if p[0] == '*' then "%" + Translate(if |p| > 1 && p[1] == '*' then p[2..] else p[1..])
    else if p[0] == '%' || p[0] == '_' then ['\\', p[0]] + Translate(p[1..])
    else [p[0]] + Translate(p[1..])
  }

  /** The translation works byte by byte, pushing each byte as a character. */
  function SqlLike(pattern: string): string {
    if pattern == "" then "%" else Translate(BytesAsChars(pattern))
  }

  /** How far one turn of the translation loop moves, and what it emits. */
  function TokenLength(p: string): (n: nat)
    requires p != ""
    ensures 1 <= n <= |p|
  {
    if p[0] == '*' && |p| > 1 && p[1] == '*' then 2 else 1
  }

  function TokenText(p: string): string
    requires p != ""
  {
    if p[0] == '*' then "%" else if p[0] == '%' || p[0] == '_' then ['\\', p[0]] else [p[0]]
  }

  lemma TranslateToken(p: string)
    requires p != ""
    ensures Translate(p) == TokenText(p) + Translate(p[TokenLength(p)..])
  {
  }

  lemma TranslateStep(out: string, p: string)
    requires p != ""
    ensures out + TokenText(p) + Translate(p[TokenLength(p)..]) == out + Translate(p)
  {
    TranslateToken(p);
  }

  method PatternToSqlLike(pattern: string) returns (out: string)
    ensures out == SqlLike(pattern)
  {
    if |pattern| == 0 {
      return "%";
    }
    var bytes := BytesAsChars(pattern);
    out := "";
    var i := 0;
    while i < |bytes|
      invariant i <= |bytes|
      invariant out + Translate(bytes[i..]) == Translate(bytes)
    {
      ghost var rest := bytes[i..];
      TranslateStep(out, rest);
      assert rest[TokenLength(rest)..] == bytes[i + TokenLength(rest)..];
      var c := bytes[i];
      if c == '*' {
        out := out + "%";
        i := i + 1;
        if i < |bytes| && bytes[i] == '*' {
          i := i + 1;
        }
        continue;
      }
      if c == '%' || c == '_' {
        out := out + ['\\', c];
      } else {
        out := out + [c];
      }
      i := i + 1;
    }
  }

  // ---------------------------------------------------------------- LIKE, piece by piece

  lemma {:induction false} LikeConcat(same: (char, char) -> bool, p: string, s: string, q: string, t: string)
    requires Like(same, p, s) && Like(same, q, t)
    ensures Like(same, p + q, s + t)
    decreases |p| + |s|
  {
    if p == "" {
      assert p + q == q && s + t == t;
    } else {
      assert (p + q)[1..] == p[1..] + q;
      if s != "" { assert (s + t)[1..] == s[1..] + t; }
      if p[0] == '%' {
        if Like(same, p[1..], s) {
          LikeConcat(same, p[1..], s, q, t);
        } else {
          LikeConcat(same, p, s[1..], q, t);
        }
      } else if p[0] == '\\' {
        assert (p + q)[2..] == p[2..] + q;
        LikeConcat(same, p[2..], s[1..], q, t);
      } else {
        LikeConcat(same, p[1..], s[1..], q, t);
      }
    }
  }

  lemma {:induction false} PercentIsAnything(same: (char, char) -> bool, s: string)
    ensures Like(same, "%", s)
  {
    assert "%"[1..] == "";
    if s != "" { PercentIsAnything(same, s[1..]); }
  }

  lemma LikeOneChar(same: (char, char) -> bool, c: char)
    requires Collation(same) && c != '\\' && c != '*'
    ensures Like(same, if c == '%' || c == '_' then ['\\', c] else [c], [c])
  {
    var pat := if c == '%' || c == '_' then ['\\', c] else [c];
    assert [c][1..] == "";
    assert if |pat| == 2 then pat[2..] == "" else pat[1..] == "";
  }

  lemma {:induction false} TranslateCons(seg: string, tail: string)
    ensures Translate(seg + "/" + tail) == Translate(seg) + "/" + Translate(tail)
  {
    var p := seg + "/" + tail;
    TranslateToken(p);
    if seg == "" {
      assert p[1..] == tail;
    } else {
      var n := TokenLength(seg);
      TranslateToken(seg);
      TranslateCons(seg[n..], tail);
      assert p[n..] == seg[n..] + "/" + tail;
      assert TokenText(p) == TokenText(seg) && TokenLength(p) == n;
    }
  }

  // ---------------------------------------------------------------- slashes survive LIKE

  lemma {:induction false} LikeKeepsSlashes(same: (char, char) -> bool, pat: string, s: string)
    requires Collation(same) && Like(same, pat, s)
    ensures Slashes(pat) <= Slashes(s)
    decreases |pat| + |s|
  {
    if pat != "" {
      if pat[0] == '%' {
        if Like(same, pat[1..], s) {
          LikeKeepsSlashes(same, pat[1..], s);
        } else {
          LikeKeepsSlashes(same, pat, s[1..]);
        }
      } else if pat[0] == '\\' {
        LikeKeepsSlashes(same, pat[2..], s[1..]);
        assert pat[1..][1..] == pat[2..];
      } else {
        LikeKeepsSlashes(same, pat[1..], s[1..]);
      }
    }
  }

  lemma {:induction false} TranslateKeepsSlashes(p: string)
    ensures Slashes(Translate(p)) == Slashes(p)
  {
    if p != "" {
      if p[0] == '*' && |p| > 1 && p[1] == '*' {
        TranslateKeepsSlashes(p[2..]);
        assert p[1..][1..] == p[2..];
        SlashesConcat("%", Translate(p[2..]));
      } else {
        TranslateKeepsSlashes(p[1..]);
        var head := if p[0] == '*' then "%" else if p[0] == '%' || p[0] == '_' then ['\\', p[0]] else [p[0]];
        SlashesConcat(head, Translate(p[1..]));
        assert Slashes(head) == if p[0] == '/' then 1 else 0 by {
          assert head[1..] == "" || head[1..][1..] == "";
        }
      }
    }
  }

  lemma {:induction false} BytesKeepSlashes(s: string)
    ensures Slashes(BytesAsChars(s)) == Slashes(s)
  {
    if s != "" {
      BytesKeepSlashes(s[1..]);
      SlashesConcat(Utf8Chars(s[0]), BytesAsChars(s[1..]));
      SlashesOfChar(s[0]);
    }
  }

  lemma SlashesOfChar(c: char)
    ensures Slashes(Utf8Chars(c)) == if c == '/' then 1 else 0
  {
    var u := Utf8Chars(c);
    if c == '/' {
      assert u[1..] == "";
    } else {
      assert '/' !in u;
      SlashFreeCount(u);
    }
  }

  lemma ConcatAssociates(u: string, x: string, y: string)
    ensures (u + x) + y == u + (x + y)
  {
  }

  function Flat(f: char -> string, s: string): string {
    if s == "" then "" else f(s[0]) + Flat(f, s[1..])
  }

  lemma {:induction false} FlatConcat(f: char -> string, a: string, b: string)
    ensures Flat(f, a + b) == Flat(f, a) + Flat(f, b)
  {
    if a == "" {
      assert a + b == b;
    } else {
      FlatConcat(f, a[1..], b);
      assert (a + b)[1..] == a[1..] + b;
      ConcatAssociates(f(a[0]), Flat(f, a[1..]), Flat(f, b));
    }
  }

  lemma {:induction false} BytesAreFlat(s: string)
    ensures BytesAsChars(s) == Flat(Utf8Chars, s)
  {
    if s != "" { BytesAreFlat(s[1..]); }
  }

  lemma BytesOfConcat(a: string, b: string)
    ensures BytesAsChars(a + b) == BytesAsChars(a) + BytesAsChars(b)
  {
    BytesAreFlat(a);
    BytesAreFlat(b);
    BytesAreFlat(a + b);
    FlatConcat(Utf8Chars, a, b);
  }

  // ---------------------------------------------------------------- one token

  function TokenLike(tok: string): string {
    Translate(BytesAsChars(tok))
  }

  predicate Wildcard(tok: string) {
    tok == "*" || tok == "**"
  }

  /** The token, read literally, is kept by its own translation; a token that is not the last
      is read with the slash after it, which an escape at its end would swallow. */
  predicate Faithful(same: (char, char) -> bool, tok: string, last: bool) {
    || Wildcard(tok)
    || (if last then Like(same, TokenLike(tok), tok) else Like(same, TokenLike(tok) + "/", tok + "/"))
  }

  ghost predicate AllFaithful(same: (char, char) -> bool, p: seq<string>) {
    forall i :: 0 <= i < |p| ==> Faithful(same, p[i], i == |p| - 1)
  }

  lemma WildcardLike(tok: string)
    requires Wildcard(tok)
    ensures TokenLike(tok) == "%"
  {
    assert BytesAsChars(tok) == tok;
    assert tok[|tok|..] == "" && Translate(tok) == "%" + Translate("");
  }

  /** What a faithful last token covers it keeps. */
  lemma LastTokenKept(same: (char, char) -> bool, tok: string, rest: string)
    requires Faithful(same, tok, true) && (Wildcard(tok) || tok == rest)
    ensures Like(same, TokenLike(tok), rest)
  {
    if Wildcard(tok) {
      WildcardLike(tok);
      PercentIsAnything(same, rest);
    }
  }

  lemma InnerTokenKept(same: (char, char) -> bool, tok: string, seg: string)
    requires Collation(same) && Faithful(same, tok, false) && (Wildcard(tok) || tok == seg)
    ensures Like(same, TokenLike(tok) + "/", seg + "/")
  {
    if Wildcard(tok) {
      WildcardLike(tok);
      PercentIsAnything(same, seg);
      LikeOneChar(same, '/');
      LikeConcat(same, "%", seg, "/", "/");
    }
  }

  /** The translation of a pattern is that of its tokens. */
  lemma TokensTranslate(tok: string, tail: string)
    ensures TokenLike(tok + "/" + tail) == TokenLike(tok) + "/" + TokenLike(tail)
    ensures SlashFree(tok) ==> SlashFree(TokenLike(tok))
  {
    BytesOfConcat(tok + "/", tail);
    BytesOfConcat(tok, "/");
    assert BytesAsChars("/") == "/" by { assert "/"[1..] == ""; }
    SlashFreeCount(tok);
    BytesKeepSlashes(tok);
    TranslateCons(BytesAsChars(tok), BytesAsChars(tail));
    assert BytesAsChars(tok) + "/" + BytesAsChars(tail) == BytesAsChars(tok + "/" + tail);
    TranslateKeepsSlashes(BytesAsChars(tok));
    SlashFreeCount(TokenLike(tok));
  }

  // ---------------------------------------------------------------- the prefilter

  lemma {:induction false} SegmentsCovered(same: (char, char) -> bool, p: seq<string>, s: seq<string>)
    requires Collation(same) && p != [] && s != []
    requires (forall i :: 0 <= i < |p| ==> SlashFree(p[i])) && AllFaithful(same, p)
    requires MatchesSegments(p, s) && |p| <= |s|
    ensures Like(same, TokenLike(Join(p)), Join(s))
  {
    if |p| == 1 {
      assert Faithful(same, p[0], true);
      LastTokenKept(same, p[0], Join(s));
    } else {
      FaithfulCons(same, p);
      InnerTokenKept(same, p[0], s[0]);
      SegmentsCovered(same, p[1..], s[1..]);
      TokensTranslate(p[0], Join(p[1..]));
      LikeConcat(same, TokenLike(p[0]) + "/", s[0] + "/", TokenLike(Join(p[1..])), Join(s[1..]));
    }
  }

  /** LIKE looks at the first characters of both. */
  lemma LikeUnfold(same: (char, char) -> bool, a: string, x: string, s: string, y: string)
    requires a != "" && s != ""
    ensures a[0] == '%' ==>
              (Like(same, a + x, s + y) <==> Like(same, a[1..] + x, s + y) || Like(same, a + x, s[1..] + y))
    ensures a[0] == '_' ==> (Like(same, a + x, s + y) <==> Like(same, a[1..] + x, s[1..] + y))
    ensures a[0] == '\\' && |a| >= 2 ==>
              (Like(same, a + x, s + y) <==> same(a[1], s[0]) && Like(same, a[2..] + x, s[1..] + y))
    ensures a[0] !in {'%', '_', '\\'} ==>
              (Like(same, a + x, s + y) <==> same(a[0], s[0]) && Like(same, a[1..] + x, s[1..] + y))
  {
    assert (a + x)[0] == a[0] && (a + x)[1..] == a[1..] + x;
    assert (s + y)[0] == s[0] && (s + y)[1..] == s[1..] + y;
    if |a| >= 2 { assert (a + x)[1] == a[1] && (a + x)[2..] == a[2..] + x; }
  }

  /** A slash in the pattern is matched by a slash. */
  lemma SlashMeetsSlash(same: (char, char) -> bool, a: string, b: string, s: string, y: string)
    requires Collation(same) && s != "" && SlashFree(s) && (a == "" || a == ['\\'])
    ensures !Like(same, a + ("/" + b), s + y)
  {
    var pat := a + ("/" + b);
    assert (s + y)[0] == s[0] && s[0] in s;
    assert pat[|a|] == '/' && (a != "" ==> pat[0] == '\\');
  }

  /** When pattern and text have equally many slashes, LIKE cannot match across one. */
  lemma {:induction false} LikeSplits(same: (char, char) -> bool, a: string, b: string, s: string, t: string)
    requires Collation(same) && SlashFree(a) && SlashFree(s) && Slashes(b) == Slashes(t)
    requires Like(same, a + ("/" + b), s + ("/" + t))
    ensures Like(same, a + "/", s + "/") && Like(same, b, t)
    decreases |a| + |s|
  {
    if s == "" {
      assert "" + ("/" + t) == "/" + t && "" + "/" == "/";
      LikeSplitsAtSlash(same, a, b, t);
    } else if a == "" || a == ['\\'] {
      SlashMeetsSlash(same, a, b, s, "/" + t);
    } else {
      LikeUnfold(same, a, "/" + b, s, "/" + t);
      LikeUnfold(same, a, "/", s, "/");
      if a[0] == '%' {
        if Like(same, a[1..] + ("/" + b), s + ("/" + t)) {
          LikeSplits(same, a[1..], b, s, t);
        } else {
          LikeSplits(same, a, b, s[1..], t);
        }
      } else {
        LikeSplits(same, if a[0] == '\\' then a[2..] else a[1..], b, s[1..], t);
      }
    }
  }

  /** The slash in front of `t` is matched by the slash in front of `b`: otherwise too few are left. */
  lemma {:induction false} LikeSplitsAtSlash(same: (char, char) -> bool, a: string, b: string, t: string)
    requires Collation(same) && SlashFree(a) && Slashes(b) == Slashes(t)
    requires Like(same, a + ("/" + b), "/" + t)
    ensures Like(same, a + "/", "/") && Like(same, b, t)
  {
    assert ("/" + t)[1..] == t && "/"[1..] == "";
    if a == "" {
      assert (a + ("/" + b))[1..] == b && a + "/" == "/";
    } else if a == ['\\'] {
      assert (a + ("/" + b))[2..] == b && (a + ("/" + b))[1] == '/';
      assert (a + "/")[2..] == "" && (a + "/")[1] == '/';
    } else {
      LikeUnfold(same, a, "/" + b, "/", t);
      LikeUnfold(same, a, "/", "/", "");
      assert "/" + "" == "/" && "" + t == t;
      assert !Like(same, a + ("/" + b), t) by { TooFewSlashes(same, a, b, t); }
      assert !Like(same, a[1..] + ("/" + b), t) by { TooFewSlashes(same, a[1..], b, t); }
      assert a[0] == '%';
      LikeSplitsAtSlash(same, a[1..], b, t);
    }
  }

  lemma TooFewSlashes(same: (char, char) -> bool, a: string, b: string, t: string)
    requires Collation(same) && Slashes(b) == Slashes(t)
    ensures !Like(same, a + ("/" + b), t)
  {
    SlashesConcat(a, "/" + b);
    if Like(same, a + ("/" + b), t) { LikeKeepsSlashes(same, a + ("/" + b), t); }
  }

  lemma FaithfulCons(same: (char, char) -> bool, p: seq<string>)
    requires |p| > 1
    ensures AllFaithful(same, p) <==> Faithful(same, p[0], false) && AllFaithful(same, p[1..])
  {
    if AllFaithful(same, p) {
      assert Faithful(same, p[0], 0 == |p| - 1);
      forall i | 0 <= i < |p[1..]| ensures Faithful(same, p[1..][i], i == |p[1..]| - 1) {
        assert Faithful(same, p[i + 1], i + 1 == |p| - 1);
      }
    } else if AllFaithful(same, p[1..]) && Faithful(same, p[0], false) {
      forall i | 0 <= i < |p| ensures Faithful(same, p[i], i == |p| - 1) {
        if i > 0 { assert Faithful(same, p[1..][i - 1], i - 1 == |p[1..]| - 1); }
      }
    }
  }

  /** The first token and segment of a kept text are kept on their own, and so is the rest. */
  lemma FirstTokenKept(same: (char, char) -> bool, tok: string, p: seq<string>, seg: string, s: seq<string>)
    requires Collation(same) && p != [] && |p| == |s| && SlashFree(tok) && SlashFree(seg)
    requires forall i :: 0 <= i < |p| ==> SlashFree(p[i]) && SlashFree(s[i])
    requires Like(same, TokenLike(tok + "/" + Join(p)), seg + "/" + Join(s))
    ensures Like(same, TokenLike(tok) + "/", seg + "/") && Like(same, TokenLike(Join(p)), Join(s))
  {
    TokensTranslate(tok, Join(p));
    BytesKeepSlashes(Join(p));
    TranslateKeepsSlashes(BytesAsChars(Join(p)));
    SlashesOfJoin(p);
    SlashesOfJoin(s);
    ConcatAssociates(TokenLike(tok), "/", TokenLike(Join(p)));
    ConcatAssociates(seg, "/", Join(s));
    LikeSplits(same, TokenLike(tok), TokenLike(Join(p)), seg, Join(s));
  }

  /** The converse: a text of equally many segments that is kept finds every token faithful. */
  lemma {:induction false} KeptMeansFaithful(same: (char, char) -> bool, p: seq<string>, s: seq<string>)
    requires Collation(same) && p != [] && |p| == |s|
    requires forall i :: 0 <= i < |p| ==> SlashFree(p[i]) && SlashFree(s[i])
    requires forall i :: 0 <= i < |p| ==> Wildcard(p[i]) || p[i] == s[i]
    requires Like(same, TokenLike(Join(p)), Join(s))
    ensures AllFaithful(same, p)
  {
    if |p| > 1 {
      FirstTokenKept(same, p[0], p[1..], s[0], s[1..]);
      KeptMeansFaithful(same, p[1..], s[1..]);
      FaithfulCons(same, p);
    }
  }

  lemma {:induction false} SlashesOfJoin(segs: seq<string>)
    requires segs != [] && forall i :: 0 <= i < |segs| ==> SlashFree(segs[i])
    ensures Slashes(Join(segs)) == |segs| - 1
  {
    SplitJoin(segs);
  }

  // ---------------------------------------------------------------- a final double star

  /** Some beginning of the text is LIKE the pattern. */
  ghost predicate StartsLike(same: (char, char) -> bool, pat: string, s: string) {
    exists j :: 0 <= j <= |s| && Like(same, pat, s[..j])
  }

  /** A final `%` matches whatever is left. */
  lemma OpenEndKeeps(same: (char, char) -> bool, pat: string, s: string)
    requires StartsLike(same, pat, s)
    ensures Like(same, pat + "%", s)
  {
    var j :| 0 <= j <= |s| && Like(same, pat, s[..j]);
    PercentIsAnything(same, s[j..]);
    LikeConcat(same, pat, s[..j], "%", s[j..]);
    assert s == s[..j] + s[j..];
  }

  lemma StartsLikeStep(same: (char, char) -> bool, pat: string, rest: string, s: string)
    requires s != "" && StartsLike(same, rest, s[1..])
    requires forall t: string :: t != "" && t[0] == s[0] && Like(same, rest, t[1..]) ==> Like(same, pat, t)
    ensures StartsLike(same, pat, s)
  {
    var j :| 0 <= j <= |s[1..]| && Like(same, rest, s[1..][..j]);
    assert s[..j + 1][1..] == s[1..][..j];
  }

  /** If no escape is left open before it, it matches nothing but what is left. */
  lemma {:induction false} OpenEndKept(same: (char, char) -> bool, pat: string, s: string)
    requires (pat == "" || pat[|pat| - 1] == '/') && Like(same, pat + "%", s)
    ensures StartsLike(same, pat, s)
    decreases |pat| + |s|
  {
    if pat == "" {
      assert Like(same, pat, s[..0]);
    } else if s == "" {
      NoSlashInNothing(same, pat);
    } else {
      LikeUnfold(same, pat, "%", s, "");
      assert s + "" == s && s[1..] + "" == s[1..];
      if pat[0] == '%' && Like(same, pat[1..] + "%", s) {
        OpenEndKept(same, pat[1..], s);
      } else {
        var rest := if pat[0] == '%' then pat else if pat[0] == '\\' then pat[2..] else pat[1..];
        OpenEndKept(same, rest, s[1..]);
        StartsLikeStep(same, pat, rest, s);
      }
    }
  }

  lemma {:induction false} NoSlashInNothing(same: (char, char) -> bool, pat: string)
    requires pat != "" && pat[|pat| - 1] == '/'
    ensures !Like(same, pat + "%", "")
  {
    assert (pat + "%")[0] == pat[0] && (pat + "%")[1..] == pat[1..] + "%";
    if pat[0] == '%' { NoSlashInNothing(same, pat[1..]); }
  }

  lemma {:induction false} JoinSnoc(segs: seq<string>, last: string)
    requires segs != []
    ensures Join(segs + [last]) == Join(segs) + "/" + last
  {
    if |segs| > 1 {
      JoinSnoc(segs[1..], last);
      assert (segs + [last])[1..] == segs[1..] + [last];
    } else {
      assert (segs + [last])[1..] == [last];
    }
  }

  /** Ending in `**`, a pattern keeps exactly the subjects of which some beginning is LIKE the
      translation of the tokens before it. */
  lemma DoubleStarKeepsIff(same: (char, char) -> bool, p: seq<string>, s: string)
    requires |p| > 1 && p[|p| - 1] == "**"
    ensures Like(same, TokenLike(Join(p)), s) <==> StartsLike(same, TokenLike(Join(p[..|p| - 1])) + "/", s)
  {
    var q := p[..|p| - 1];
    assert p == q + ["**"];
    JoinSnoc(q, "**");
    TokensTranslate(Join(q), "**");
    WildcardLike("**");
    var pat := TokenLike(Join(q)) + "/";
    if StartsLike(same, pat, s) { OpenEndKeeps(same, pat, s); }
    if Like(same, pat + "%", s) { OpenEndKept(same, pat, s); }
  }

  lemma MatchedSegments(pattern: string, subject: string) returns (p: seq<string>, s: seq<string>)
    requires pattern != "" && MatchesSubject(pattern, subject)
    ensures p == Split(pattern) && s == Split(subject) && MatchesSegments(p, s)
    ensures Join(p) == pattern && Join(s) == subject && SqlLike(pattern) == TokenLike(pattern)
    ensures |s| != |p| ==> |s| >= |p| - 1 && p[|p| - 1] == "**"
  {
    p, s := Split(pattern), Split(subject);
    JoinSplit(pattern);
    JoinSplit(subject);
    if |s| != |p| { UnequalCounts(p, s); }
  }

  /** What the LIKE prefilter does with a subject that the pattern matches.  With fewer
      segments than the pattern, which takes a final `**` standing for none, it is lost.  With
      equally many it is kept exactly when every token is faithful.  With more it is kept
      exactly when some beginning of it is LIKE what the pattern has before its `**`, and so
      whenever every token is faithful. */
  lemma PrefilterKeepsIff(same: (char, char) -> bool, pattern: string, subject: string)
    requires Collation(same) && pattern != "" && MatchesSubject(pattern, subject)
    ensures |Split(subject)| < |Split(pattern)| ==> !Like(same, SqlLike(pattern), subject)
    ensures |Split(subject)| != |Split(pattern)| ==> Split(pattern)[|Split(pattern)| - 1] == "**"
    ensures |Split(subject)| == |Split(pattern)| ==>
              (Like(same, SqlLike(pattern), subject) <==> AllFaithful(same, Split(pattern)))
    ensures |Split(subject)| > |Split(pattern)| ==>
              (Like(same, SqlLike(pattern), subject) <==> OpenEnded(same, Split(pattern), subject))
    ensures |Split(subject)| > |Split(pattern)| && AllFaithful(same, Split(pattern)) ==>
              Like(same, SqlLike(pattern), subject)
  {
    var p, s := MatchedSegments(pattern, subject);
    if |s| < |p| {
      FewerSegmentsLost(same, pattern, subject);
    } else {
      EnoughSegmentsKeptIff(same, pattern, subject);
    }
  }

  lemma EnoughSegmentsKeptIff(same: (char, char) -> bool, pattern: string, subject: string)
    requires Collation(same) && pattern != "" && MatchesSubject(pattern, subject)
    requires |Split(subject)| >= |Split(pattern)|
    ensures Like(same, SqlLike(pattern), subject) <==>
            if |Split(subject)| == |Split(pattern)| then AllFaithful(same, Split(pattern))
            else OpenEnded(same, Split(pattern), subject)
    ensures AllFaithful(same, Split(pattern)) ==> Like(same, SqlLike(pattern), subject)
  {
    var p, s := MatchedSegments(pattern, subject);
    SegmentsKeptIff(same, p, s);
    if |s| > |p| { MoreSegmentsKeptIff(same, p, subject); }
  }

  /** Some beginning of the text is LIKE the translation of the tokens before the last. */
  ghost predicate OpenEnded(same: (char, char) -> bool, p: seq<string>, s: string)
    requires p != []
  {
    |p| == 1 || StartsLike(same, TokenLike(Join(p[..|p| - 1])) + "/", s)
  }

  lemma MoreSegmentsKeptIff(same: (char, char) -> bool, p: seq<string>, s: string)
    requires p != [] && p[|p| - 1] == "**"
    ensures Like(same, TokenLike(Join(p)), s) <==> OpenEnded(same, p, s)
  {
    if |p| == 1 {
      WildcardLike("**");
      PercentIsAnything(same, s);
    } else {
      DoubleStarKeepsIff(same, p, s);
    }
  }

  /** Only a final `**` lets the numbers of segments differ. */
  lemma UnequalCounts(p: seq<string>, s: seq<string>)
    requires p != [] && MatchesSegments(p, s) && |s| != |p|
    ensures |s| >= |p| - 1 && p[|p| - 1] == "**"
  {
  }

  lemma SegmentsKeptIff(same: (char, char) -> bool, p: seq<string>, s: seq<string>)
    requires Collation(same) && p != [] && s != [] && MatchesSegments(p, s) && |p| <= |s|
    requires (forall i :: 0 <= i < |p| ==> SlashFree(p[i])) && (forall i :: 0 <= i < |s| ==> SlashFree(s[i]))
    ensures |s| == |p| ==> (Like(same, TokenLike(Join(p)), Join(s)) <==> AllFaithful(same, p))
    ensures AllFaithful(same, p) ==> Like(same, TokenLike(Join(p)), Join(s))
  {
    if AllFaithful(same, p) { SegmentsCovered(same, p, s); }
    if |p| == |s| && Like(same, TokenLike(Join(p)), Join(s)) {
      assert forall i :: 0 <= i < |p| ==> Wildcard(p[i]) || p[i] == s[i];
      KeptMeansFaithful(same, p, s);
    }
  }

  lemma FewerSegmentsLost(same: (char, char) -> bool, pattern: string, subject: string)
    requires Collation(same) && pattern != "" && |Split(subject)| < |Split(pattern)|
    ensures !Like(same, SqlLike(pattern), subject)
  {
    BytesKeepSlashes(pattern);
    TranslateKeepsSlashes(BytesAsChars(pattern));
    if Like(same, SqlLike(pattern), subject) {
      LikeKeepsSlashes(same, SqlLike(pattern), subject);
    }
  }

  function Bare(p: seq<string>): (s: seq<string>)
    ensures |s| == |p|
  {
    seq(|p|, i requires 0 <= i < |p| => if Wildcard(p[i]) then "" else p[i])
  }

  /** A pattern's prefilter keeps every matched subject of enough segments exactly when every
      token of the pattern is faithful.  (With `**` before its end a pattern matches nothing.) */
  lemma PatternKeepsAllIff(same: (char, char) -> bool, pattern: string)
    requires Collation(same) && pattern != ""
    requires var p := Split(pattern); forall i :: 0 <= i < |p| - 1 ==> p[i] != "**"
    ensures AllFaithful(same, Split(pattern)) <==>
            forall subject :: MatchesSubject(pattern, subject) && |Split(subject)| >= |Split(pattern)| ==>
              Like(same, SqlLike(pattern), subject)
  {
    var p := Split(pattern);
    if AllFaithful(same, p) {
      forall subject | MatchesSubject(pattern, subject) && |Split(subject)| >= |p|
        ensures Like(same, SqlLike(pattern), subject)
      {
        PrefilterKeepsIff(same, pattern, subject);
      }
    } else {
      BareIsMatched(pattern);
      PrefilterKeepsIff(same, pattern, Join(Bare(p)));
    }
  }

  /** A pattern matches its own text with the wildcards left empty. */
  lemma BareIsMatched(pattern: string)
    requires pattern != ""
    requires var p := Split(pattern); forall i :: 0 <= i < |p| - 1 ==> p[i] != "**"
    ensures var p := Split(pattern); MatchesSubject(pattern, Join(Bare(p))) && |Split(Join(Bare(p)))| == |p|
  {
    var p := Split(pattern);
    var s := Bare(p);
    SplitJoin(s);
    assert forall i :: 0 <= i < |p| && p[i] != "**" ==> Covers(p[i], s[i]);
  }

  // ---------------------------------------------------------------- which tokens are faithful

  /** ASCII, and a backslash stands only before a character that the translation escapes. */
  predicate PlainToken(tok: string) {
    && Ascii(tok)
    && forall i :: 0 <= i < |tok| && tok[i] == '\\' ==> i + 1 < |tok| && (tok[i + 1] == '%' || tok[i + 1] == '_')
  }

  /** How much of a plain token is read at once. */
  function Chunk(tok: string): (n: nat)
    requires tok != "" && PlainToken(tok)
    ensures 1 <= n <= |tok|
  {
    if tok[0] == '\\' || (tok[0] == '*' && |tok| > 1 && tok[1] == '*') then 2 else 1
  }

  lemma ChunkCovered(same: (char, char) -> bool, tok: string)
    requires Collation(same) && tok != "" && PlainToken(tok)
    ensures var n := Chunk(tok);
            exists pat :: Translate(tok) == pat + Translate(tok[n..]) && Like(same, pat, tok[..n])
  {
    var n, c := Chunk(tok), tok[0];
    TranslateToken(tok);
    if c == '*' {
      PercentIsAnything(same, tok[..n]);
    } else if c == '\\' {
      EscapedPair(same, tok);
    } else {
      LikeOneChar(same, c);
      assert tok[..1] == [c];
    }
  }

  /** Backslash and metacharacter become an escaped backslash and a live metacharacter. */
  lemma EscapedPair(same: (char, char) -> bool, tok: string)
    requires Collation(same) && tok != "" && PlainToken(tok) && tok[0] == '\\'
    ensures Translate(tok) == ['\\', '\\', tok[1]] + Translate(tok[2..])
    ensures Like(same, ['\\', '\\', tok[1]], tok[..2])
  {
    var m := tok[1];
    TranslateToken(tok);
    TranslateToken(tok[1..]);
    assert tok[1..][1..] == tok[2..];
    BackslashLike(same);
    MetaLike(same, m);
    LikeConcat(same, "\\\\", "\\", [m], [m]);
    assert "\\\\" + [m] == ['\\', '\\', m] && "\\" + [m] == tok[..2];
  }

  lemma BackslashLike(same: (char, char) -> bool)
    requires Collation(same)
    ensures Like(same, "\\\\", "\\")
  {
    assert "\\\\"[2..] == "" && "\\"[1..] == "";
  }

  lemma MetaLike(same: (char, char) -> bool, m: char)
    requires m == '%' || m == '_'
    ensures Like(same, [m], [m])
  {
    assert [m][1..] == "";
    if m == '%' { PercentIsAnything(same, "%"); }
  }

  lemma {:induction false} PlainTokenKept(same: (char, char) -> bool, tok: string)
    requires Collation(same) && PlainToken(tok)
    ensures Like(same, Translate(tok), tok)
  {
    if tok != "" {
      var n := Chunk(tok);
      ChunkCovered(same, tok);
      var pat :| Translate(tok) == pat + Translate(tok[n..]) && Like(same, pat, tok[..n]);
      PlainRest(tok, n);
      PlainTokenKept(same, tok[n..]);
      LikeConcat(same, pat, tok[..n], Translate(tok[n..]), tok[n..]);
      assert tok == tok[..n] + tok[n..];
    }
  }

  lemma PlainRest(tok: string, n: nat)
    requires PlainToken(tok) && n <= |tok|
    ensures PlainToken(tok[n..])
  {
    var rest := tok[n..];
    forall i | 0 <= i < |rest| && rest[i] == '\\'
      ensures i + 1 < |rest| && (rest[i + 1] == '%' || rest[i + 1] == '_')
    {
      assert tok[n + i] == '\\';
    }
  }

  /** Every plain token is faithful, so a pattern of plain tokens loses nothing but the
      subjects for which a final `**` stands for no segment. */
  lemma PlainPatternKeepsIff(same: (char, char) -> bool, pattern: string, subject: string)
    requires Collation(same) && pattern != "" && MatchesSubject(pattern, subject)
    requires forall i :: 0 <= i < |Split(pattern)| ==> PlainToken(Split(pattern)[i])
    ensures Like(same, SqlLike(pattern), subject) <==> |Split(subject)| >= |Split(pattern)|
  {
    var p := Split(pattern);
    forall i | 0 <= i < |p| ensures Faithful(same, p[i], i == |p| - 1) {
      PlainTokenKept(same, p[i]);
      LikeOneChar(same, '/');
      LikeConcat(same, Translate(p[i]), p[i], "/", "/");
    }
    PrefilterKeepsIff(same, pattern, subject);
  }

  /** The empty pattern matches everything and its prefilter keeps everything. */
  lemma EmptyPatternKeepsAll(same: (char, char) -> bool, subject: string)
    ensures MatchesSubject("", subject) && Like(same, SqlLike(""), subject)
  {
    PercentIsAnything(same, subject);
  }

  const EXACT: (char, char) -> bool := (a, b) => a == b

  lemma SplitSnoc(s: string, seg: string)
    requires SlashFree(seg)
    ensures Split(s + "/" + seg) == Split(s) + [seg]
  {
    SplitConcat(s, seg);
    SplitSlashFree(seg);
  }

  lemma StarsMatchNothing(segs: seq<string>)
    requires "**" !in segs
    ensures MatchesSegments(segs + ["**"], segs)
  {
    var p := segs + ["**"];
    forall i | 0 <= i < |p| - 1 ensures p[i] != "**" && Covers(p[i], segs[i]) {
      assert p[i] == segs[i];
    }
  }

  // The lost case: `<subject>/**` always matches `<subject>` itself, and the
  // prefilter always drops it; `/tape/**` and `/tape` are one instance.
  lemma ZeroTrailingSegmentsLost(same: (char, char) -> bool, subject: string)
    requires Collation(same) && "**" !in Split(subject)
    ensures MatchesSubject(subject + "/**", subject)
    ensures !Like(same, SqlLike(subject + "/**"), subject)
  {
    var pattern := subject + "/**";
    assert Split(pattern) == Split(subject) + ["**"] by {
      assert subject + "/" + "**" == pattern;
      SplitSnoc(subject, "**");
    }
    StarsMatchNothing(Split(subject));
    PrefilterKeepsIff(same, pattern, subject);
  }

  // ---------------------------------------------------------------- precision

  /** Without a star or a backslash an ASCII pattern's prefilter, under exact comparison, keeps
      the pattern's own text and nothing else: LIKE's metacharacters in it are literal. */
  lemma {:induction false} LiteralPatternIsExact(pattern: string, subject: string)
    requires Ascii(pattern) && '*' !in pattern && '\\' !in pattern
    ensures Like(EXACT, Translate(pattern), subject) <==> subject == pattern
  {
    if pattern != "" {
      var c := pattern[0];
      assert c in pattern;
      TranslateToken(pattern);
      if subject != "" {
        LiteralPatternIsExact(pattern[1..], subject[1..]);
        var lit := TokenText(pattern);
        assert if |lit| == 2 then (lit + Translate(pattern[1..]))[2..] == Translate(pattern[1..])
               else (lit + Translate(pattern[1..]))[1..] == Translate(pattern[1..]);
        assert pattern == [c] + pattern[1..] && subject == [subject[0]] + subject[1..];
      }
    }
  }

  // ---------------------------------------------------------------- tokens that are not faithful

  function High(s: string): nat {
    if s == "" then 0 else (if s[0] >= '\U{80}' then 1 else 0) + High(s[1..])
  }

  /** A collation that takes no non-ASCII character for an ASCII one. */
  ghost predicate KeepsAscii(same: (char, char) -> bool) {
    forall c, d :: same(c, d) ==> (c < '\U{80}' <==> d < '\U{80}')
  }

  lemma {:induction false} HighConcat(a: string, b: string)
    ensures High(a + b) == High(a) + High(b)
  {
    if a == "" {
      assert a + b == b;
    } else {
      HighConcat(a[1..], b);
      assert (a + b)[1..] == a[1..] + b;
    }
  }

  lemma {:induction false} LikeKeepsHigh(same: (char, char) -> bool, pat: string, s: string)
    requires KeepsAscii(same) && Like(same, pat, s)
    ensures High(pat) <= High(s)
    decreases |pat| + |s|
  {
    if pat != "" {
      if pat[0] == '%' {
        if Like(same, pat[1..], s) {
          LikeKeepsHigh(same, pat[1..], s);
        } else {
          LikeKeepsHigh(same, pat, s[1..]);
        }
      } else if pat[0] == '\\' {
        LikeKeepsHigh(same, pat[2..], s[1..]);
        assert pat[1..][1..] == pat[2..];
      } else {
        LikeKeepsHigh(same, pat[1..], s[1..]);
      }
    }
  }

  lemma HighOfChar(c: char)
    ensures if c < '\U{80}' then High(Utf8Chars(c)) == 0 else High(Utf8Chars(c)) >= 2
  {
    var u := Utf8Chars(c);
    HighAt(u);
  }

  lemma HighAt(u: string)
    ensures |u| == 1 ==> High(u) == if u[0] >= '\U{80}' then 1 else 0
    ensures |u| >= 2 && u[0] >= '\U{80}' && u[1] >= '\U{80}' ==> High(u) >= 2
  {
    if |u| == 1 { assert u[1..] == ""; }
    if |u| >= 2 { assert High(u[1..]) == (if u[1] >= '\U{80}' then 1 else 0) + High(u[1..][1..]); }
  }

  lemma {:induction false} BytesDoubleHigh(s: string)
    ensures High(BytesAsChars(s)) >= 2 * High(s)
  {
    if s != "" {
      BytesDoubleHigh(s[1..]);
      HighOfChar(s[0]);
      HighConcat(Utf8Chars(s[0]), BytesAsChars(s[1..]));
    }
  }

  lemma {:induction false} TranslateKeepsHigh(p: string)
    ensures High(Translate(p)) == High(p)
  {
    if p != "" {
      TranslateToken(p);
      TranslateKeepsHigh(p[TokenLength(p)..]);
      HighConcat(TokenText(p), Translate(p[TokenLength(p)..]));
      HighConcat(p[..TokenLength(p)], p[TokenLength(p)..]);
      assert p == p[..TokenLength(p)] + p[TokenLength(p)..];
      HighOfToken(p);
    }
  }

  lemma HighOfToken(p: string)
    requires p != ""
    ensures High(TokenText(p)) == High(p[..TokenLength(p)])
  {
    var t, u := TokenText(p), p[..TokenLength(p)];
    assert t[1..] == "" || t[1..][1..] == "";
    assert u[1..] == "" || u[1..][1..] == "";
  }

  /** Each byte of a multi-byte character is translated as a separate character, so a pattern
      loses every subject with fewer than twice its own non-ASCII characters: its own text,
      for one.  No token with a non-ASCII character is faithful. */
  lemma NonAsciiPatternLost(same: (char, char) -> bool, pattern: string, subject: string)
    requires KeepsAscii(same) && High(subject) < 2 * High(pattern)
    ensures !Like(same, TokenLike(pattern), subject)
  {
    BytesDoubleHigh(pattern);
    TranslateKeepsHigh(BytesAsChars(pattern));
    if Like(same, TokenLike(pattern), subject) { LikeKeepsHigh(same, TokenLike(pattern), subject); }
  }

  lemma {:induction false} HighIffNotAscii(s: string)
    ensures High(s) == 0 <==> Ascii(s)
  {
    if s != "" {
      HighIffNotAscii(s[1..]);
      assert Ascii(s) <==> s[0] < '\U{80}' && Ascii(s[1..]) by {
        assert s == [s[0]] + s[1..];
        assert forall i :: 1 <= i < |s| ==> s[i] == s[1..][i - 1];
      }
    }
  }

  lemma TokenAndSlash(tok: string)
    ensures TokenLike(tok + "/") == TokenLike(tok) + "/"
  {
    TokensTranslate(tok, "");
    assert tok + "/" + "" == tok + "/" && TokenLike("") == "" && TokenLike(tok) + "/" + "" == TokenLike(tok) + "/";
  }

  lemma FaithfulTokensAreAscii(same: (char, char) -> bool, tok: string, last: bool)
    requires KeepsAscii(same) && Faithful(same, tok, last)
    ensures Ascii(tok)
  {
    HighIffNotAscii(tok);
    TokenAndSlash(tok);
    if !Ascii(tok) {
      NonAsciiPatternLost(same, tok, tok);
      HighConcat(tok, "/");
      HighAt("/");
      NonAsciiPatternLost(same, tok + "/", tok + "/");
    }
  }

  /** Another one: a backslash before an ordinary character is copied, and then read as an escape. */
  lemma BackslashPatternLost()
    ensures MatchesSubject("\\a", "\\a") && !Like(EXACT, SqlLike("\\a"), "\\a")
  {
    SplitSlashFree("\\a");
    assert BytesAsChars("\\a") == "\\a";
    assert Translate("\\a") == ['\\'] + Translate("\\a"[1..]) && "\\a"[1..] == "a";
    assert Translate("a") == ['a'] + Translate("a"[1..]) && "a"[1..] == "";
  }
}
