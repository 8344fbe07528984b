/** The bounded output tail of a headless PTY session (src/commands/catalogPtySession.ts). Chunks are
    taken as the stream decoder yields them; the cap counts characters, acknowledgements count bytes. */
module PtyRing {
  import opened JsValues
  import opened Text

  const RING_CAP: nat := 262144

  function Total(chunks: seq<string>): nat {
    if |chunks| == 0 then 0 else |chunks[0]| + Total(chunks[1..])
  }

  /** The whole output, cut from the front, chunk by chunk, until it fits or one chunk is left. */
  function Kept(all: seq<string>): seq<string> {
    if Total(all) > RING_CAP && |all| > 1 then Kept(all[1..]) else all
  }

  function Sum(acks: seq<nat>): nat {
    if |acks| == 0 then 0 else Sum(acks[..|acks| - 1]) + acks[|acks| - 1]
  }

  // ---------------------------------------------------------------- what is kept

  /** `all[k..]` is the longest suffix of whole chunks that fits, or the last chunk alone. */
  ghost predicate LongestFitting(all: seq<string>, k: nat) {
    && k <= |all| && (|all| > 0 ==> k < |all|)
    && (Total(all[k..]) <= RING_CAP || k + 1 == |all|)
    && forall j :: 0 <= j < k ==> Total(all[j..]) > RING_CAP
  }

  lemma {:induction false} KeptIsLongestFitting(all: seq<string>) returns (k: nat)
    ensures LongestFitting(all, k) && Kept(all) == all[k..]
  {
    if Total(all) > RING_CAP && |all| > 1 {
      var j := KeptIsLongestFitting(all[1..]);
      k := j + 1;
      assert all[1..][j..] == all[k..];
      forall i | 0 <= i < k ensures Total(all[i..]) > RING_CAP {
        if i > 0 { assert all[1..][i - 1..] == all[i..]; } else { assert all[0..] == all; }
      }
    } else {
      k := 0;
      assert all[0..] == all;
    }
  }

  lemma {:induction false} TotalOfMore(a: seq<string>, b: seq<string>)
    ensures Total(a + b) == Total(a) + Total(b)
  {
    if |a| == 0 {
      assert a + b == b;
    } else {
      assert (a + b)[1..] == a[1..] + b;
      TotalOfMore(a[1..], b);
    }
  }

  /** What was once let go is never needed again: trimming as chunks arrive gives what trimming the whole
      output would give. */
  lemma {:induction false} KeptIsIncremental(all: seq<string>, text: string)
    ensures Kept(Kept(all) + [text]) == Kept(all + [text])
  {
    if Total(all) <= RING_CAP || |all| <= 1 {
    } else {
      KeptIsIncremental(all[1..], text);
      TotalOfMore(all, [text]);
      assert (all + [text])[1..] == all[1..] + [text];
    }
  }

  class SessionState {
    var id: nat
    var ring: seq<string>
    var ringBytes: nat
    var bytesSeen: nat
    ghost var decoded: seq<string>     // every non-empty chunk so far
    ghost var acks: seq<nat>           // bytes of every acknowledgement sent

    ghost predicate Valid()
      reads this
    {
      && ring == Kept(decoded)
      && ringBytes == Total(ring)
      && bytesSeen == Sum(acks)
    }

    constructor (id: nat)
      ensures Valid() && this.id == id && decoded == [] && acks == []
    {
      this.id := id;
      ring, ringBytes, bytesSeen, decoded, acks := [], 0, 0, [], [];
    }

    /** `onOutput.onmessage`: `text` is what the decoder yields for `bytes` more bytes. */
    method OnOutput(text: string, bytes: nat)
      requires Valid()
      modifies this`ring, this`ringBytes, this`bytesSeen, this`decoded, this`acks
      ensures Valid()
      ensures decoded == old(decoded) + if text == "" then [] else [text]
      ensures acks == old(acks) + [bytes]
      ensures ring == Kept(decoded) && bytesSeen == old(bytesSeen) + bytes
    {
      assert (acks + [bytes])[..|acks|] == acks;
      bytesSeen := bytesSeen + bytes;
      acks := acks + [bytes];
      if text != "" {
        TotalOfMore(ring, [text]);
        KeptIsIncremental(decoded, text);
        ring := ring + [text];
        ringBytes := ringBytes + |text|;
        decoded := decoded + [text];
        while ringBytes > RING_CAP && |ring| > 1
          invariant ringBytes == Total(ring)
          invariant Kept(ring) == Kept(decoded)
          modifies this`ring, this`ringBytes
          decreases |ring|
        {
          ringBytes := ringBytes - |ring[0]|;
          ring := ring[1..];
        }
      }
    }

    /** `pty.session.read`: the whole ring, or its longest suffix with fewer than that many newlines. */
    method ReadTail(lines: Option<real>) returns (tail: string)
      requires Valid()
      ensures lines.None? || lines.value < 1.0 ==> tail == JoinAll(ring)
      ensures lines.Some? && lines.value >= 1.0 ==> LongestWithFewer(JoinAll(ring), tail, lines.value.Floor)
    {
      tail := JoinAll(ring);
      match lines {
        case None =>
        case Some(n) =>
          if n > 0.0 {
            ReadsWholeLines(tail, n);
            var pieces := Split('\n', tail);
            tail := Join('\n', Sliced(pieces, n.Floor));
          }
      }
    }
  }

  /** `ring.join("")`. */
  function JoinAll(chunks: seq<string>): string {
    if |chunks| == 0 then "" else chunks[0] + JoinAll(chunks[1..])
  }

  lemma {:induction false} JoinedInOrder(a: seq<string>, b: seq<string>, chunk: string)
    ensures JoinAll(a + b) == JoinAll(a) + JoinAll(b) && JoinAll([chunk]) == chunk
  {
    assert [chunk][1..] == [];
    if |a| == 0 {
      assert a + b == b;
    } else {
      assert (a + b)[1..] == a[1..] + b;
      JoinedInOrder(a[1..], b, chunk);
    }
  }

  /** `pieces.slice(-n)`, `n` already truncated: `slice(-0)` is the whole array. */
  function Sliced(pieces: seq<string>, n: nat): seq<string> {
    if n == 0 || n >= |pieces| then pieces else pieces[|pieces| - n..]
  }

  function LastLines(tail: string, n: real): string {
    if n > 0.0 then Join('\n', Sliced(Split('\n', tail), n.Floor)) else tail
  }

  function Newlines(s: string): nat {
    if |s| == 0 then 0 else (if s[0] == '\n' then 1 else 0) + Newlines(s[1..])
  }

  // ---------------------------------------------------------------- what is read

  lemma {:induction false} NewlinesSplit(s: string)
    ensures |Split('\n', s)| == Newlines(s) + 1
  {
    if |s| == 0 {
    } else {
      NewlinesSplit(s[1..]);
    }
  }

  function NewlinesFrom(tail: string, m: nat): nat {
    if m <= |tail| then Newlines(tail[m..]) else 0
  }

  /** `tail[m..]` is the longest suffix of `tail` with fewer than `n` newlines. */
  ghost predicate CutAt(tail: string, m: nat, n: nat) {
    && m <= |tail|
    && NewlinesFrom(tail, m) < n
    && forall j: nat :: j < m ==> NewlinesFrom(tail, j) >= n
  }

  ghost predicate LongestWithFewer(tail: string, suffix: string, n: nat) {
    exists m: nat :: CutAt(tail, m, n) && suffix == tail[m..]
  }

  lemma {:induction false} CutFurther(tail: string, m: nat, n: nat)
    requires |tail| > 0 && CutAt(tail[1..], m, n) && Newlines(tail) >= n
    ensures CutAt(tail, m + 1, n) && tail[1..][m..] == tail[m + 1..]
  {
    assert tail[1..][m..] == tail[m + 1..];
    forall j: nat | j < m + 1 ensures NewlinesFrom(tail, j) >= n {
      if j > 0 {
        assert tail[1..][j - 1..] == tail[j..];
        assert NewlinesFrom(tail[1..], j - 1) >= n;
      } else {
        assert tail[0..] == tail;
      }
    }
  }

  lemma {:induction false} ReadIsLongest(tail: string, n: nat) returns (m: nat)
    requires n >= 1
    ensures CutAt(tail, m, n) && Join('\n', Sliced(Split('\n', tail), n)) == tail[m..]
    decreases |tail|
  {
    NewlinesSplit(tail);
    if n >= |Split('\n', tail)| {
      JoinSplit('\n', tail);
      assert tail[0..] == tail;
      m := 0;
    } else {
      var k := ReadIsLongest(tail[1..], n);
      SlicedTail(tail, n);
      CutFurther(tail, k, n);
      m := k + 1;
    }
  }

  /** While there are lines to spare, the first character does not matter. */
  lemma {:induction false} SlicedTail(tail: string, n: nat)
    requires 1 <= n < |Split('\n', tail)|
    ensures Sliced(Split('\n', tail), n) == Sliced(Split('\n', tail[1..]), n)
  {
    var rest := Split('\n', tail[1..]);
    var pieces := Split('\n', tail);
    if tail[0] == '\n' {
      assert pieces == [""] + rest;
    } else {
      assert pieces == [[tail[0]] + rest[0]] + rest[1..];
    }
  }

  /** A read of `n` lines, fractions cut off, is the longest suffix of the buffered output with fewer than
      that many newlines; a fraction below one reads everything. */
  lemma {:induction false} ReadsWholeLines(tail: string, n: real)
    requires n > 0.0
    ensures LongestWithFewer(tail, LastLines(tail, n), n.Floor) <==> n >= 1.0
    ensures n < 1.0 ==> LastLines(tail, n) == tail
  {
    if n >= 1.0 {
      var m := ReadIsLongest(tail, n.Floor);
    } else {
      JoinSplit('\n', tail);
    }
  }

  /** Half a line of "a", newline, "b" is all of it, although no suffix has fewer than no newlines. */
  lemma HalfALineIsEverything()
    ensures LastLines("a\nb", 0.5) == "a\nb" && !LongestWithFewer("a\nb", LastLines("a\nb", 0.5), 0)
  {
    ReadsWholeLines("a\nb", 0.5);
    assert (0.5 as real).Floor == 0;
  }
}
