/**
 * The two string operations the log workers apply to a decoded serial line:
 * Python's `str.strip('\r\n')` and `str.split(",")`.
 */
module Text {
  import opened Seqs

  /** The characters `strip('\r\n')` removes. */
  predicate IsEol(c: char) {
    c == '\r' || c == '\n'
  }

  predicate AllEol(s: string) {
    forall k :: 0 <= k < |s| ==> IsEol(s[k])
  }

  /** Nothing is left for `strip('\r\n')` to remove from either end. */
  predicate Trimmed(s: string) {
    s == [] || (!IsEol(s[0]) && !IsEol(s[|s| - 1]))
  }

  /** `r` is the infix of `s` starting at `i`, with only line terminators around it. */
  ghost predicate CoreOf(s: string, i: int, r: string) {
    0 <= i && i + |r| <= |s| && r == s[i..i + |r|] && AllEol(s[..i]) && AllEol(s[i + |r|..])
  }

  /** Removes every leading `\r` and `\n`. */
  function TrimLeft(s: string): (r: string)
    ensures |r| <= |s| && r == s[|s| - |r|..]
    ensures forall k :: 0 <= k < |s| - |r| ==> IsEol(s[k])
    ensures r == [] || !IsEol(r[0])
  {
    if |s| > 0 && IsEol(s[0]) then
      var r := TrimLeft(s[1..]);
      assert forall k :: 0 < k < |s| - |r| ==> s[k] == s[1..][k - 1];
      r
    else s
  }

  /** Removes every trailing `\r` and `\n`. */
  function TrimRight(s: string): (r: string)
    ensures |r| <= |s| && r == s[..|r|]
    ensures AllEol(s[|r|..])
    ensures r == [] || !IsEol(r[|r| - 1])
  {
    if |s| > 0 && IsEol(s[|s| - 1]) then
      var r := TrimRight(s[..|s| - 1]);
      assert s[|r|..] == s[..|s| - 1][|r|..] + [s[|s| - 1]];
      r
    else s
  }

  /** `s.strip('\r\n')`: what is left once the line terminators at both ends are gone. */
  function Strip(s: string): (r: string)
    ensures |r| <= |s| && Trimmed(r)
  {
    TrimRight(TrimLeft(s))
  }

  /** The stripped line is an infix of the line with nothing but `\r` and `\n` around it. */
  lemma StripIsCore(s: string)
    ensures exists i :: CoreOf(s, i, Strip(s))
  {
    var t := TrimLeft(s);
    var r := TrimRight(t);
    var i := |s| - |t|;
    assert t == s[i..] && r == t[..|r|];
    assert r == s[i..i + |r|];
    assert AllEol(s[..i]) by {
      assert forall k :: 0 <= k < i ==> s[..i][k] == s[k];
    }
    assert t[|r|..] == s[i + |r|..];
    assert AllEol(s[i + |r|..]);
    assert r == Strip(s);
    assert CoreOf(s, i, r);
  }

  lemma {:induction false} TrimLeftPadding(pre: string, x: string)
    requires AllEol(pre)
    requires x == [] || !IsEol(x[0])
    ensures TrimLeft(pre + x) == x
  {
    if pre != [] {
      assert (pre + x)[1..] == pre[1..] + x;
      TrimLeftPadding(pre[1..], x);
    }
  }

  lemma {:induction false} TrimRightPadding(x: string, post: string)
    requires AllEol(post)
    requires x == [] || !IsEol(x[|x| - 1])
    ensures TrimRight(x + post) == x
  {
    if post != [] {
      assert (x + post)[..|x + post| - 1] == x + post[..|post| - 1];
      TrimRightPadding(x, post[..|post| - 1]);
    }
  }

  /**
   * Stripping recovers exactly the message between the terminators: interior
   * characters, including interior `\r` and `\n`, are kept.
   */
  lemma StripPadding(pre: string, m: string, post: string)
    requires AllEol(pre) && AllEol(post) && Trimmed(m)
    ensures Strip(pre + m + post) == m
  {
    assert pre + m + post == pre + (m + post);
    if m == [] {
      assert AllEol(pre + post);
      TrimLeftPadding(pre + post, []);
      assert pre + post == pre + post + [];
    } else {
      TrimLeftPadding(pre, m + post);
      TrimRightPadding(m, post);
    }
  }

  /** Stripping a second time changes nothing. */
  lemma StripIdempotent(s: string)
    ensures Strip(Strip(s)) == Strip(s)
  {
    var r := Strip(s);
    assert Trimmed(r);
    assert TrimLeft(r) == r;
    assert TrimRight(r) == r;
  }

  /** A line is stripped to nothing exactly when it holds only `\r` and `\n`. */
  lemma StripEmptyIff(s: string)
    ensures Strip(s) == [] <==> AllEol(s)
  {
    var r := Strip(s);
    StripIsCore(s);
    var i :| CoreOf(s, i, r);
    if r == [] {
      assert s == s[..i] + s[i..];
    }
  }

  /** `s.split(sep)`: the maximal runs of non-separator characters, empty ones included. */
  function Split(s: string, sep: char): (fields: seq<string>)
    ensures |fields| >= 1
    ensures forall k :: 0 <= k < |fields| ==> sep !in fields[k]
  {
    if s == [] then [[]]
    else
      var rest := Split(s[1..], sep);
      if s[0] == sep then [[]] + rest
      else [[s[0]] + rest[0]] + rest[1..]
  }

  /** `sep.join(fields)`, the inverse of `Split`. */
  function Join(fields: seq<string>, sep: char): string
    requires |fields| >= 1
  {
    if |fields| == 1 then fields[0] else fields[0] + [sep] + Join(fields[1..], sep)
  }

  lemma JoinCons(f: string, rest: seq<string>, sep: char)
    requires |rest| >= 1
    ensures Join([f] + rest, sep) == f + [sep] + Join(rest, sep)
  {
    assert ([f] + rest)[1..] == rest;
  }

  lemma {:induction false} JoinAppend(fields: seq<string>, last: string, sep: char)
    requires |fields| >= 1
    ensures Join(fields + [last], sep) == Join(fields, sep) + [sep] + last
  {
    if |fields| > 1 {
      assert (fields + [last])[1..] == fields[1..] + [last];
      JoinAppend(fields[1..], last, sep);
    } else {
      assert (fields + [last])[1..] == [last];
    }
  }

  predicate FreeOf(fields: seq<string>, sep: char) {
    forall k :: 0 <= k < |fields| ==> sep !in fields[k]
  }

  /** Splitting and re-joining gives back the line. */
  lemma {:induction false} JoinSplit(s: string, sep: char)
    ensures Join(Split(s, sep), sep) == s
  {
    if s != [] {
      var rest := Split(s[1..], sep);
      JoinSplit(s[1..], sep);
      if s[0] == sep {
        assert ([[]] + rest)[1..] == rest;
      } else if |rest| > 1 {
        var fields := [[s[0]] + rest[0]] + rest[1..];
        assert fields[1..] == rest[1..];
        assert Join(rest, sep) == rest[0] + [sep] + Join(rest[1..], sep);
      }
    }
  }

  lemma {:induction false} SplitField(f: string, sep: char)
    requires sep !in f
    ensures Split(f, sep) == [f]
  {
    if f != [] {
      SplitField(f[1..], sep);
      assert [f[0]] + f[1..] == f;
    }
  }

  /** A field free of the separator is split off as one whole field. */
  lemma {:induction false} SplitCons(f: string, t: string, sep: char)
    requires sep !in f
    ensures Split(f + [sep] + t, sep) == [f] + Split(t, sep)
  {
    if f == [] {
      assert ([] + [sep] + t)[1..] == t;
    } else {
      assert (f + [sep] + t)[1..] == f[1..] + [sep] + t;
      SplitCons(f[1..], t, sep);
      assert [f[0]] + f[1..] == f;
    }
  }

  /** Joining separator-free fields and splitting again gives back the fields. */
  lemma {:induction false} SplitJoin(fields: seq<string>, sep: char)
    requires |fields| >= 1 && FreeOf(fields, sep)
    ensures Split(Join(fields, sep), sep) == fields
  {
    if |fields| == 1 {
      SplitField(fields[0], sep);
    } else {
      SplitJoin(fields[1..], sep);
      SplitCons(fields[0], Join(fields[1..], sep), sep);
      assert [fields[0]] + fields[1..] == fields;
    }
  }

  /**
   * Joining fields of which all but the last are separator-free and splitting
   * again gives back those fields, followed by the split of the last one.
   */
  lemma {:induction false} SplitJoinLast(fields: seq<string>, sep: char)
    requires |fields| >= 1 && FreeOf(fields[..|fields| - 1], sep)
    ensures Split(Join(fields, sep), sep) == fields[..|fields| - 1] + Split(fields[|fields| - 1], sep)
  {
    if |fields| > 1 {
      var head, tail, init := fields[0], fields[1..], fields[..|fields| - 1];
      var rest, last := tail[..|tail| - 1], Split(fields[|fields| - 1], sep);
      assert tail[|tail| - 1] == fields[|fields| - 1];
      assert init == [head] + rest;
      assert sep !in head by {
        assert head == init[0];
      }
      assert FreeOf(rest, sep) by {
        forall k | 0 <= k < |rest|
          ensures sep !in rest[k]
        {
          assert rest[k] == init[k + 1];
        }
      }
      SplitJoinLast(tail, sep);
      SplitCons(head, Join(tail, sep), sep);
      ConcatAssoc([head], rest, last);
    }
  }
}
