/** Splitting a string at a separator and joining the pieces again. */
module Text {
  /** `s.split(sep)`. */
  function Split(sep: char, s: string): (segs: seq<string>)
    ensures |segs| >= 1
  {
    if |s| == 0 then [""]
    else
      var rest := Split(sep, s[1..]);
      if s[0] == sep then [""] + rest else [[s[0]] + rest[0]] + rest[1..]
  }

  /** `segs.join(sep)`. */
  function Join(sep: char, segs: seq<string>): string {
    if |segs| == 0 then "" else if |segs| == 1 then segs[0] else segs[0] + [sep] + Join(sep, segs[1..])
  }

  lemma {:induction false} JoinSplit(sep: char, s: string)
    ensures Join(sep, Split(sep, s)) == s
  {
    if |s| == 0 {
    } else {
      JoinSplit(sep, s[1..]);
      var rest := Split(sep, s[1..]);
      if s[0] == sep {
        assert Split(sep, s)[1..] == rest;
      } else if |rest| > 1 {
        assert Split(sep, s)[1..] == rest[1..];
      }
    }
  }

  lemma {:induction false} SplitPlain(sep: char, s: string)
    requires sep !in s
    ensures Split(sep, s) == [s]
  {
    if |s| == 0 {
    } else {
      assert forall c :: c in s[1..] ==> c in s;
      SplitPlain(sep, s[1..]);
      assert s[0] in s && [s[0]] + s[1..] == s;
    }
  }

  lemma {:induction false} SplitAcross(sep: char, a: string, b: string)
    ensures Split(sep, a + [sep] + b) == Split(sep, a) + Split(sep, b)
  {
    if |a| == 0 {
      assert (a + [sep] + b)[1..] == b;
    } else {
      assert (a + [sep] + b)[1..] == a[1..] + [sep] + b;
      SplitAcross(sep, a[1..], b);
    }
  }

  lemma {:induction false} SplitHasNoSeparator(sep: char, s: string)
    ensures forall i :: 0 <= i < |Split(sep, s)| ==> sep !in Split(sep, s)[i]
  {
    if |s| == 0 {
    } else {
      SplitHasNoSeparator(sep, s[1..]);
    }
  }

  lemma {:induction false} SplitJoin(sep: char, segs: seq<string>)
    requires |segs| > 0 && forall i :: 0 <= i < |segs| ==> sep !in segs[i]
    ensures Split(sep, Join(sep, segs)) == segs
  {
    SplitPlain(sep, segs[0]);
    if |segs| <= 1 {
    } else {
      SplitJoin(sep, segs[1..]);
      SplitAcross(sep, segs[0], Join(sep, segs[1..]));
    }
  }

  lemma {:induction false} SplitJoinLast(sep: char, before: seq<string>, last: string)
    requires forall i :: 0 <= i < |before| ==> sep !in before[i]
    ensures Split(sep, Join(sep, before + [last])) == before + Split(sep, last)
  {
    if |before| == 0 {
    } else {
      assert (before + [last])[1..] == before[1..] + [last];
      SplitJoinLast(sep, before[1..], last);
      SplitPlain(sep, before[0]);
      SplitAcross(sep, before[0], Join(sep, before[1..] + [last]));
    }
  }

  lemma {:induction false} JoinAcross(sep: char, a: seq<string>, b: seq<string>)
    requires |a| > 0 && |b| > 0
    ensures Join(sep, a + b) == Join(sep, a) + [sep] + Join(sep, b)
  {
    if |a| == 1 {
      assert (a + b)[1..] == b;
    } else {
      assert (a + b)[1..] == a[1..] + b;
      JoinAcross(sep, a[1..], b);
    }
  }
}
