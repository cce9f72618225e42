/**
 * The part of JavaScript's string library that the bearer-header parsing relies on:
 * `s.split(' ')` with a single-space separator.
 */
module JsString {

  /**
   * `s.split(' ')`: the runs of non-space characters between single spaces, empty runs
   * included, so `"".split(' ')` is `[""]`, `"a  b"` gives `["a", "", "b"]` and a
   * trailing space gives a trailing empty segment.
   */
  function Split(s: string): (r: seq<string>)
    ensures |r| >= 1
  {
    if |s| == 0 then [""]
    else if s[0] == ' ' then [""] + Split(s[1..])
    else
      var rest := Split(s[1..]);
      [[s[0]] + rest[0]] + rest[1..]
  }

  /** `parts.join(' ')`, the inverse of Split. */
  function Join(parts: seq<string>): string
    requires |parts| >= 1
  {
    if |parts| == 1 then parts[0] else parts[0] + " " + Join(parts[1..])
  }

  predicate SpaceFree(t: string) {
    forall i :: 0 <= i < |t| ==> t[i] != ' '
  }

  /**
   * t is the text of s up to (not including) its first space, or all of s when s has no
   * space: the first segment that `s.split(' ')` yields, stated without Split.
   */
  predicate IsFirstSegment(t: string, s: string) {
    t <= s && SpaceFree(t) && (|t| == |s| || s[|t|] == ' ')
  }

  /** Every string has at most one first segment. */
  lemma FirstSegmentUnique(t1: string, t2: string, s: string)
    requires IsFirstSegment(t1, s) && IsFirstSegment(t2, s)
    ensures t1 == t2
  {
  }

  /**
   * The shape of Split(s): its head is the first segment of s, it has one element exactly
   * when s has no space, and the rest is the split of what follows the first space.
   */
  lemma {:induction false} SplitFirst(s: string)
    ensures IsFirstSegment(Split(s)[0], s)
    ensures |Split(s)| == 1 <==> SpaceFree(s)
    ensures |Split(s)| > 1 ==>
              |Split(s)[0]| < |s| && Split(s)[1..] == Split(s[|Split(s)[0]| + 1..])
  {
    if |s| == 0 {
    } else if s[0] == ' ' {
      assert !SpaceFree(s);
      assert Split(s)[1..] == Split(s[1..]);
    } else {
      var tail := s[1..];
      SplitFirst(tail);
      var rest := Split(tail);
      var head := [s[0]] + rest[0];
      assert Split(s) == [head] + rest[1..];
      assert s == [s[0]] + tail;
      assert SpaceFree(s) <==> SpaceFree(tail) by {
        if SpaceFree(tail) {
          forall i | 0 <= i < |s| ensures s[i] != ' ' {
            if i > 0 { assert s[i] == tail[i - 1]; }
          }
        }
        if SpaceFree(s) {
          forall i | 0 <= i < |tail| ensures tail[i] != ' ' {
            assert tail[i] == s[i + 1];
          }
        }
      }
      assert SpaceFree(head) by {
        forall i | 0 <= i < |head| ensures head[i] != ' ' {
          if i > 0 { assert head[i] == rest[0][i - 1]; }
        }
      }
      if |rest| > 1 {
        assert tail[|rest[0]| + 1..] == s[|head| + 1..];
      }
    }
  }

  /** Joining the segments of a string gives the string back, and no segment holds a space. */
  lemma {:induction false} JoinSplit(s: string)
    ensures Join(Split(s)) == s
    ensures forall i :: 0 <= i < |Split(s)| ==> SpaceFree(Split(s)[i])
  {
    if |s| == 0 {
    } else if s[0] == ' ' {
      JoinSplit(s[1..]);
      assert Split(s) == [""] + Split(s[1..]);
      assert Split(s)[1..] == Split(s[1..]);
    } else {
      var tail := s[1..];
      JoinSplit(tail);
      var rest := Split(tail);
      var head := [s[0]] + rest[0];
      assert Split(s) == [head] + rest[1..];
      assert SpaceFree(head) by {
        forall i | 0 <= i < |head| ensures head[i] != ' ' {
          if i > 0 { assert head[i] == rest[0][i - 1]; }
        }
      }
      forall i | 0 <= i < |Split(s)| ensures SpaceFree(Split(s)[i]) {
        if i > 0 { assert Split(s)[i] == rest[i]; }
      }
      if |rest| == 1 {
        assert Join(Split(s)) == head == [s[0]] + tail;
      } else {
        assert Join(rest) == rest[0] + " " + Join(rest[1..]);
        assert Join(Split(s)) == head + " " + Join(rest[1..]);
        assert head + " " + Join(rest[1..]) == [s[0]] + (rest[0] + " " + Join(rest[1..]));
      }
      assert s == [s[0]] + tail;
    }
  }

  /** Splitting a space-free string prefixed to s glues it onto the first segment of s. */
  lemma {:induction false} SplitPrefix(a: string, s: string)
    requires SpaceFree(a)
    ensures Split(a + s) == [a + Split(s)[0]] + Split(s)[1..]
  {
    if |a| > 0 {
      assert SpaceFree(a[1..]) by {
        forall i | 0 <= i < |a[1..]| ensures a[1..][i] != ' ' { assert a[1..][i] == a[i + 1]; }
      }
      SplitPrefix(a[1..], s);
      assert (a + s)[0] == a[0];
      assert (a + s)[1..] == a[1..] + s;
      assert a + Split(s)[0] == [a[0]] + (a[1..] + Split(s)[0]);
    } else {
      var r := Split(s);
      assert a + s == s && a + r[0] == r[0];
      assert [r[0]] + r[1..] == r;
    }
  }

  /** Splitting a join of space-free segments gives the segments back. */
  lemma {:induction false} SplitJoin(parts: seq<string>)
    requires |parts| >= 1
    requires forall i :: 0 <= i < |parts| ==> SpaceFree(parts[i])
    ensures Split(Join(parts)) == parts
  {
    if |parts| == 1 {
      SplitPrefix(parts[0], "");
      assert parts[0] + "" == parts[0];
    } else {
      var rest := parts[1..];
      SplitJoin(rest);
      var s := " " + Join(rest);
      SplitPrefix(parts[0], s);
      assert s[0] == ' ' && s[1..] == Join(rest);
      assert Split(s) == [""] + rest;
      assert parts[0] + "" == parts[0];
      assert Join(parts) == parts[0] + s;
    }
  }
}
