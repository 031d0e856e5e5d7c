/** The two JavaScript string operations the name derivation relies on,
    `String.prototype.split` with a one-character separator and
    `Array.prototype.join`, together with a back-to-front reference
    definition of "the part after / before the last separator". */
module Text {
  import opened Seqs

  /** `parts.join(sep)`: the parts with one separator between neighbours;
      the join of no parts is the empty string. */
  function Join(parts: seq<string>, sep: char): string
  {
    if |parts| == 0 then ""
    else if |parts| == 1 then parts[0]
    else parts[0] + [sep] + Join(parts[1..], sep)
  }

  /** `s.split(sep)`: the maximal separator-free runs of `s`, in order;
      there is always at least one. */
  function Split(s: string, sep: char): (parts: seq<string>)
    ensures |parts| >= 1
    decreases |s|
  {
    if |s| == 0 then [""]
    else
      var rest := Split(s[1..], sep);
      if s[0] == sep then [""] + rest
      else [[s[0]] + rest[0]] + rest[1..]
  }

  /** Joining adds nothing but one separator between neighbouring parts. */
  lemma {:induction false} JoinLength(parts: seq<string>, sep: char)
    ensures |parts| == 0 ==> Join(parts, sep) == ""
    ensures |parts| > 0 ==> |Join(parts, sep)| == TotalLength(parts) + |parts| - 1
    decreases |parts|
  {
    if |parts| > 1 {
      JoinLength(parts[1..], sep);
    }
  }

  /** `s.split(sep)` has one more part than `s` has separators. */
  lemma {:induction false} SplitCount(s: string, sep: char)
    ensures |Split(s, sep)| == Count(s, sep) + 1
    decreases |s|
  {
    if |s| > 0 {
      SplitCount(s[1..], sep);
    }
  }

  /** `split` and `join` are inverse: no part of `s.split(sep)` holds the
      separator, and joining the parts with it gives `s` back. */
  lemma {:induction false} SplitJoin(s: string, sep: char)
    ensures forall i :: 0 <= i < |Split(s, sep)| ==> sep !in Split(s, sep)[i]
    ensures Join(Split(s, sep), sep) == s
    decreases |s|
  {
    if |s| > 0 {
      var rest := Split(s[1..], sep);
      SplitJoin(s[1..], sep);
      var parts := Split(s, sep);
      if s[0] == sep {
        assert parts == [""] + rest;
        assert parts[1..] == rest;
        if |rest| == 1 {
          assert Join(parts, sep) == "" + [sep] + rest[0];
        }
        assert s == [s[0]] + s[1..];
      } else {
        assert parts == [[s[0]] + rest[0]] + rest[1..];
        assert parts[1..] == rest[1..];
        assert s == [s[0]] + s[1..];
        forall i | 0 <= i < |parts|
          ensures sep !in parts[i]
        {
          if i > 0 {
            assert parts[i] == rest[i];
          }
        }
        if |rest| > 1 {
          assert Join(rest, sep) == rest[0] + [sep] + Join(rest[1..], sep);
        }
      }
    }
  }

  /** The part of `s` after its last `sep`, or all of `s` when it holds
      no `sep`: the longest suffix free of the separator. */
  function AfterLast(s: string, sep: char): (r: string)
    ensures sep !in r
    ensures |r| <= |s| && s[|s| - |r|..] == r
    ensures |r| == |s| || s[|s| - |r| - 1] == sep
    decreases |s|
  {
    if |s| == 0 then ""
    else if s[|s| - 1] == sep then ""
    else
      var init := s[..|s| - 1];
      var r0 := AfterLast(init, sep);
      var k := |init| - |r0|;
      assert s == init + [s[|s| - 1]];
      assert s[k..] == init[k..] + [s[|s| - 1]];
      assert k > 0 ==> s[k - 1] == init[k - 1];
      r0 + [s[|s| - 1]]
  }

  /** The part of `s` before its last `sep`, or "" when it holds no `sep`. */
  function BeforeLast(s: string, sep: char): (r: string)
    ensures sep in s ==> |r| < |s| && s[..|r|] == r && s[|r|] == sep && sep !in s[|r| + 1..]
    ensures sep !in s ==> r == ""
    decreases |s|
  {
    if |s| == 0 then ""
    else if s[|s| - 1] == sep then s[..|s| - 1]
    else
      var init := s[..|s| - 1];
      assert s == init + [s[|s| - 1]];
      assert sep in s ==> sep in init;
      var r := BeforeLast(init, sep);
      assert sep in s ==> s[|r| + 1..] == init[|r| + 1..] + [s[|s| - 1]];
      r
  }

  /** Joining all parts but the last, then the separator and the last
      part, is the join of all of them. */
  lemma {:induction false} JoinSnoc(parts: seq<string>, sep: char)
    requires |parts| >= 2
    ensures Join(parts, sep) == Join(parts[..|parts| - 1], sep) + [sep] + parts[|parts| - 1]
    decreases |parts|
  {
    var n := |parts|;
    if n == 2 {
      assert parts[1..] == [parts[1]];
      assert parts[..1] == [parts[0]];
    } else {
      var tail := parts[1..];
      JoinSnoc(tail, sep);
      var init := parts[..n - 1];
      assert init[1..] == tail[..|tail| - 1];
      assert init[0] == parts[0];
      calc {
        Join(parts, sep);
        parts[0] + [sep] + Join(tail, sep);
        parts[0] + [sep] + (Join(tail[..|tail| - 1], sep) + [sep] + tail[|tail| - 1]);
        (parts[0] + [sep] + Join(init[1..], sep)) + [sep] + parts[n - 1];
        Join(init, sep) + [sep] + parts[n - 1];
      }
    }
  }

  /** One more character that is not the separator extends the part after
      the last separator and leaves the part before it alone. */
  lemma AppendOther(s: string, sep: char, c: char)
    requires c != sep
    ensures AfterLast(s + [c], sep) == AfterLast(s, sep) + [c]
    ensures BeforeLast(s + [c], sep) == BeforeLast(s, sep)
  {
    assert (s + [c])[..|s|] == s;
  }

  /** A separator at the end leaves nothing after it and all of `s`
      before it. */
  lemma AppendSeparator(s: string, sep: char)
    ensures AfterLast(s + [sep], sep) == ""
    ensures BeforeLast(s + [sep], sep) == s
  {
    assert (s + [sep])[..|s|] == s;
  }

  /** When `s` is `a`, then `sep`, then a separator-free `b`, the reference
      definitions pick out exactly `a` and `b`. */
  lemma {:induction false} LastSeparatorAt(a: string, sep: char, b: string)
    requires sep !in b
    ensures AfterLast(a + [sep] + b, sep) == b
    ensures BeforeLast(a + [sep] + b, sep) == a
    decreases |b|
  {
    if |b| == 0 {
      assert a + [sep] + b == a + [sep];
      AppendSeparator(a, sep);
    } else {
      var b0 := b[..|b| - 1];
      var c := b[|b| - 1];
      assert b == b0 + [c];
      assert a + [sep] + b == (a + [sep] + b0) + [c];
      LastSeparatorAt(a, sep, b0);
      AppendOther(a + [sep] + b0, sep, c);
    }
  }

  /** A separator-free string is its own last part and has nothing
      before a last separator. */
  lemma {:induction false} NoSeparator(s: string, sep: char)
    requires sep !in s
    ensures AfterLast(s, sep) == s
    ensures BeforeLast(s, sep) == ""
  {
  }

  /** The two facts about `s.split(sep)` the last-part lemma needs. */
  lemma SplitFacts(s: string, sep: char, parts: seq<string>)
    requires parts == Split(s, sep)
    ensures |parts| >= 1 && sep !in parts[|parts| - 1] && Join(parts, sep) == s
  {
    SplitJoin(s, sep);
  }

  /** For any separator-free parts that join to `s`, the last is the part
      after the last `sep` and the others join to the part before it. */
  lemma LastPart(s: string, sep: char, parts: seq<string>)
    requires |parts| >= 1 && sep !in parts[|parts| - 1] && Join(parts, sep) == s
    ensures parts[|parts| - 1] == AfterLast(s, sep)
    ensures Join(parts[..|parts| - 1], sep) == BeforeLast(s, sep)
  {
    var n := |parts|;
    if n == 1 {
      assert s == parts[0];
      NoSeparator(s, sep);
      assert parts[..0] == [];
    } else {
      JoinSnoc(parts, sep);
      LastSeparatorAt(Join(parts[..n - 1], sep), sep, parts[n - 1]);
    }
  }
}
