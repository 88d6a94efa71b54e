/** The chaos proxy's server-sent-event relay: it cuts the upstream body into
    events at blank lines and forwards whole events, however the body arrives. */
module EventStream {

  type Byte = bv8

  const LF: Byte := 10

  // ---------------------------------------------------------------- events of a whole body

  /** A blank line, two line feeds, starts at `i`. */
  predicate BlankLineAt(s: seq<Byte>, i: int) {
    0 <= i && i + 1 < |s| && s[i] == LF && s[i + 1] == LF
  }

  /** The leftmost blank line, or the length of `s` if it has none. */
  function FirstBlank(s: seq<Byte>, from: nat): (i: nat)
    requires from <= |s|
    ensures from <= i <= |s|
    ensures i < |s| ==> BlankLineAt(s, i)
    ensures forall j :: from <= j < i ==> !BlankLineAt(s, j)
    decreases |s| - from
  {
    if from == |s| || BlankLineAt(s, from) then from else FirstBlank(s, from + 1)
  }

  predicate HasEvent(s: seq<Byte>) {
    FirstBlank(s, 0) < |s|
  }

  /** The first complete event of a body, its blank line included. */
  function Head(s: seq<Byte>): seq<Byte>
    requires HasEvent(s)
  {
    s[..FirstBlank(s, 0) + 2]
  }

  function After(s: seq<Byte>): (r: seq<Byte>)
    requires HasEvent(s)
    ensures |r| < |s|
  {
    s[FirstBlank(s, 0) + 2..]
  }

  /** The complete events of a body, each ending in its blank line. */
  function Events(s: seq<Byte>): seq<seq<Byte>>
    decreases |s|
  {
    if HasEvent(s) then [Head(s)] + Events(After(s)) else []
  }

  /** What is left of a body after its complete events. */
  function Rest(s: seq<Byte>): seq<Byte>
    decreases |s|
  {
    if HasEvent(s) then Rest(After(s)) else s
  }

  function Concat(parts: seq<seq<Byte>>): seq<Byte> {
    if parts == [] then [] else parts[0] + Concat(parts[1..])
  }

  /** Bytes that arrive later neither move nor hide a blank line. */
  lemma HeadExtends(s: seq<Byte>, t: seq<Byte>)
    requires HasEvent(s)
    ensures HasEvent(s + t) && Head(s + t) == Head(s) && After(s + t) == After(s) + t
  {
    var i, j := FirstBlank(s, 0), FirstBlank(s + t, 0);
    assert BlankLineAt(s + t, i);
    assert j < i ==> BlankLineAt(s, j);
  }

  /** The events of a body that grew: the old ones, then those cut from the leftover and the new bytes. */
  lemma {:induction false} EventsExtend(s: seq<Byte>, t: seq<Byte>)
    ensures Events(s + t) == Events(s) + Events(Rest(s) + t)
    ensures Rest(s + t) == Rest(Rest(s) + t)
    decreases |s|
  {
    if HasEvent(s) {
      HeadExtends(s, t);
      EventsExtend(After(s), t);
    }
  }

  /** Nothing is lost or reordered: the events and the leftover make up the body. */
  lemma {:induction false} EventsPartition(s: seq<Byte>)
    ensures Concat(Events(s)) + Rest(s) == s
    decreases |s|
  {
    if HasEvent(s) {
      EventsPartition(After(s));
      Reassemble(Head(s), Events(After(s)), Rest(s), After(s));
      assert s == Head(s) + After(s);
    }
  }

  lemma Reassemble(head: seq<Byte>, parts: seq<seq<Byte>>, rest: seq<Byte>, tail: seq<Byte>)
    requires Concat(parts) + rest == tail
    ensures Concat([head] + parts) + rest == head + tail
  {
    ConcatCons(head, parts);
    assert (head + Concat(parts)) + rest == head + (Concat(parts) + rest);
  }

  /** An event ends at its first blank line. */
  predicate WholeEvent(e: seq<Byte>) {
    && |e| >= 2 && e[|e| - 2] == 10 && e[|e| - 1] == 10
    && forall j :: 0 <= j < |e| - 2 ==> e[j] != 10 || e[j + 1] != 10
  }

  lemma {:induction false} EventsAreWhole(s: seq<Byte>)
    ensures forall k :: 0 <= k < |Events(s)| ==> WholeEvent(Events(s)[k])
    ensures forall j :: 0 <= j < |Rest(s)| - 1 ==> Rest(s)[j] != 10 || Rest(s)[j + 1] != 10
    decreases |s|
  {
    if HasEvent(s) {
      HeadIsWhole(s);
      EventsAreWhole(After(s));
    } else {
      forall j | 0 <= j < |s| - 1 ensures s[j] != 10 || s[j + 1] != 10 { assert !BlankLineAt(s, j); }
    }
  }

  lemma HeadIsWhole(s: seq<Byte>)
    requires HasEvent(s)
    ensures WholeEvent(Head(s))
  {
    var i, e := FirstBlank(s, 0), Head(s);
    forall j | 0 <= j < i ensures e[j] != 10 || e[j + 1] != 10 { assert !BlankLineAt(s, j); }
  }

  lemma ConcatCons(head: seq<Byte>, parts: seq<seq<Byte>>)
    ensures Concat([head] + parts) == head + Concat(parts)
  {
    assert ([head] + parts)[1..] == parts;
  }

  lemma {:induction false} ConcatSnoc(parts: seq<seq<Byte>>, last: seq<Byte>)
    ensures Concat(parts + [last]) == Concat(parts) + last
  {
    if parts == [] {
      assert [last][1..] == [];
    } else {
      ConcatSnoc(parts[1..], last);
      assert (parts + [last])[1..] == parts[1..] + [last];
    }
  }

  // ---------------------------------------------------------------- the relay

  /** Whether `n` forwarded events reach the truncation point; zero or less means no truncation. */
  predicate Cut(cutAt: int, n: nat) {
    cutAt > 0 && n >= cutAt
  }

  /** How many of `n` available events are forwarded. */
  function Forwarded(cutAt: int, n: nat): (m: nat)
    ensures m <= n
  {
    if Cut(cutAt, n) then cutAt else n
  }

  /** What the client is sent of a body. */
  function Relayed(cutAt: int, body: seq<Byte>): (out: seq<seq<Byte>>)
    ensures out <= Events(body)
    ensures cutAt <= 0 ==> out == Events(body)
    ensures cutAt > 0 ==> |out| == if |Events(body)| < cutAt then |Events(body)| else cutAt
  {
    Events(body)[..Forwarded(cutAt, |Events(body)|)]
  }

  /** Several truncation faults: the earliest one counts. */
  method CutPoint(truncates: seq<int>) returns (cutAt: int)
    ensures truncates == [] ==> cutAt == 0
    ensures truncates != [] ==> cutAt in truncates && forall i :: 0 <= i < |truncates| ==> cutAt <= truncates[i]
  {
    cutAt := 0;
    if |truncates| > 0 {
      cutAt := truncates[0];
      for i := 1 to |truncates|
        invariant cutAt in truncates
        invariant forall j :: 0 <= j < i ==> cutAt <= truncates[j]
      {
        if truncates[i] < cutAt {
          cutAt := truncates[i];
        }
      }
    }
  }

  /** Forward the complete events in `buf`, after `count` earlier ones. */
  method Drain(buf: seq<Byte>, count: nat, cutAt: int)
    returns (rest: seq<Byte>, written: seq<seq<Byte>>, done: bool)
    requires !Cut(cutAt, count)
    ensures done <==> Cut(cutAt, count + |Events(buf)|)
    ensures count + |written| == Forwarded(cutAt, count + |Events(buf)|)
    ensures written <= Events(buf)
    ensures !done ==> rest == Rest(buf) && written == Events(buf)
  {
    rest, written, done := buf, [], false;
    while true
      invariant !Cut(cutAt, count + |written|)
      invariant written + Events(rest) == Events(buf) && Rest(rest) == Rest(buf)
      decreases |rest|
    {
      var idx := FirstBlank(rest, 0);
      if idx == |rest| {
        assert written + [] == written;
        return;
      }
      var evt := rest[..idx + 2];
      ghost var later := Events(After(rest));
      assert written + ([evt] + later) == (written + [evt]) + later;
      rest := rest[idx + 2..];
      written := written + [evt];
      if Cut(cutAt, count + |written|) {
        done := true;
        return;
      }
    }
  }

  lemma RelayStep(cutAt: int, body: seq<Byte>, chunk: seq<Byte>, more: seq<seq<Byte>>)
    requires more <= Events(Rest(body) + chunk)
    requires |Events(body)| + |more| == Forwarded(cutAt, |Events(body)| + |Events(Rest(body) + chunk)|)
    ensures Events(body) + more == Relayed(cutAt, body + chunk)
  {
    EventsExtend(body, chunk);
    var all := Events(body) + Events(Rest(body) + chunk);
    assert all[..|Events(body)| + |more|] == Events(body) + more;
  }

  /** Relay a body that arrives in `chunks`.  With no drop fault the client is sent
      the first `cutAt` complete events of the whole body (all of them if `cutAt` is
      not positive), whatever the chunks.  With a drop fault it is sent what the
      shortest run of chunks that completes an event holds. */
  method ReplyStream(chunks: seq<seq<Byte>>, cutAt: int, drop: bool) returns (written: seq<seq<Byte>>, read: nat)
    ensures read <= |chunks|
    ensures written == Relayed(cutAt, Concat(chunks[..read]))
    ensures !drop ==> written == Relayed(cutAt, Concat(chunks))
    ensures drop && read < |chunks| ==> written != []
    ensures drop && written != [] ==> read > 0 && Events(Concat(chunks[..read - 1])) == []
  {
    written := [];
    var buf: seq<Byte> := [];
    read := 0;
    assert Concat(chunks[..0]) == [] && Events([]) == [] && Rest([]) == [];
    while read < |chunks|
      invariant read <= |chunks|
      invariant buf == Rest(Concat(chunks[..read])) && written == Events(Concat(chunks[..read]))
      invariant !Cut(cutAt, |written|)
      invariant drop ==> written == []
    {
      var done;
      buf, written, done := ReadChunk(chunks[read], Concat(chunks[..read]), buf, written, cutAt);
      assert chunks[..read + 1] == chunks[..read] + [chunks[read]];
      ConcatSnoc(chunks[..read], chunks[read]);
      read := read + 1;
      if done {
        StopsAtCut(chunks, read, cutAt);
        return;
      }
      if drop && |written| >= 1 {
        return;
      }
    }
    assert chunks[..|chunks|] == chunks;
  }

  /** One read of the body: append it to the buffer and forward what is complete. */
  method ReadChunk(chunk: seq<Byte>, ghost body: seq<Byte>, buf: seq<Byte>, sent: seq<seq<Byte>>, cutAt: int)
    returns (rest: seq<Byte>, written: seq<seq<Byte>>, done: bool)
    requires buf == Rest(body) && sent == Events(body) && !Cut(cutAt, |sent|)
    ensures written == Relayed(cutAt, body + chunk)
    ensures done <==> Cut(cutAt, |Events(body + chunk)|)
    ensures !done ==> rest == Rest(body + chunk) && written == Events(body + chunk)
    ensures |written| == 0 ==> Events(body + chunk) == []
  {
    var more;
    rest, more, done := Drain(buf + chunk, |sent|, cutAt);
    written := sent + more;
    RelayStep(cutAt, body, chunk, more);
    EventsExtend(body, chunk);
  }

  /** Once the truncation point is reached, the chunks not read do not matter. */
  lemma StopsAtCut(chunks: seq<seq<Byte>>, read: nat, cutAt: int)
    requires read <= |chunks| && Cut(cutAt, |Events(Concat(chunks[..read]))|)
    ensures Relayed(cutAt, Concat(chunks)) == Relayed(cutAt, Concat(chunks[..read]))
  {
    ConcatSplit(chunks, read);
    EventsExtend(Concat(chunks[..read]), Concat(chunks[read..]));
  }

  lemma {:induction false} ConcatSplit(parts: seq<seq<Byte>>, k: nat)
    requires k <= |parts|
    ensures Concat(parts) == Concat(parts[..k]) + Concat(parts[k..])
  {
    if k == 0 {
      assert parts[..0] == [] && parts[0..] == parts;
    } else {
      ConcatSplit(parts[1..], k - 1);
      assert parts[..k][1..] == parts[1..][..k - 1] && parts[k..] == parts[1..][k - 1..];
    }
  }
}
