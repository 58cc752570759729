/**
 * JavaScript string operations used by the core: `split` on a one-character
 * separator, `Array.prototype.join`, `startsWith`, and counting a character
 * (used to count `?` placeholders in generated SQL).
 */
module Strings {

  /**
   * `s.split(sep)` for a one-character separator: every separator ends a part,
   * so "a  b" gives ["a", "", "b"] and "" gives [""].
   */
  function Split(s: string, sep: char): (parts: seq<string>)
    ensures |parts| >= 1
    ensures forall i :: 0 <= i < |parts| ==> sep !in parts[i]
  {
    if s == [] then [""]
    else
      var rest := Split(s[1..], sep);
      if s[0] == sep then [""] + rest
      else [[s[0]] + rest[0]] + rest[1..]
  }

  /**
   * `parts.join(sep)`: the parts with `sep` between consecutive ones; [] gives "".
   * Its properties are the lemmas below: `JoinCons`, `JoinChars`, `JoinSplit` and `SplitJoin`.
   */
  function Join(parts: seq<string>, sep: string): string
  {
    if |parts| == 0 then ""
    else if |parts| == 1 then parts[0]
    else parts[0] + sep + Join(parts[1..], sep)
  }

  /** Every character of a join comes from one of the parts or from the separator. */
  lemma {:induction false} JoinChars(parts: seq<string>, sep: string)
    ensures forall k :: 0 <= k < |Join(parts, sep)| ==>
              Join(parts, sep)[k] in sep || exists i :: 0 <= i < |parts| && Join(parts, sep)[k] in parts[i]
  {
    if |parts| >= 2 {
      JoinChars(parts[1..], sep);
      var r := Join(parts, sep);
      var rest := Join(parts[1..], sep);
      assert r == parts[0] + sep + rest;
      forall k | 0 <= k < |r| && r[k] !in sep
        ensures exists i :: 0 <= i < |parts| && r[k] in parts[i]
      {
        if k < |parts[0]| {
          assert r[k] == parts[0][k];
        } else {
          assert r[k] == rest[k - |parts[0]| - |sep|];
          var i :| 0 <= i < |parts[1..]| && r[k] in parts[1..][i];
          assert parts[1..][i] == parts[i + 1];
        }
      }
    }
  }

  /** Joining a first part onto a non-empty rest puts the separator between them. */
  lemma JoinCons(first: string, rest: seq<string>, sep: string)
    requires |rest| >= 1
    ensures Join([first] + rest, sep) == first + sep + Join(rest, sep)
  {
    assert ([first] + rest)[1..] == rest;
  }

  /** `s.startsWith(prefix)`. */
  predicate StartsWith(s: string, prefix: string)
  {
    |prefix| <= |s| && s[..|prefix|] == prefix
  }

  /** The number of occurrences of `c` in `s`. */
  function Count(s: string, c: char): nat
  {
    if s == [] then 0 else (if s[0] == c then 1 else 0) + Count(s[1..], c)
  }

  lemma {:induction false} CountConcat(a: string, b: string, c: char)
    ensures Count(a + b, c) == Count(a, c) + Count(b, c)
  {
    if a == [] {
      assert a + b == b;
    } else {
      assert (a + b)[1..] == a[1..] + b;
      CountConcat(a[1..], b, c);
    }
  }

  lemma {:induction false} CountAbsent(s: string, c: char)
    requires c !in s
    ensures Count(s, c) == 0
  {
    if s != [] {
      assert c !in s[1..];
      CountAbsent(s[1..], c);
    }
  }

  /** Joining the parts of a split gives back the original string. */
  lemma {:induction false} JoinSplit(s: string, sep: char)
    ensures Join(Split(s, sep), [sep]) == s
  {
    if s != [] {
      var rest := Split(s[1..], sep);
      JoinSplit(s[1..], sep);
      if s[0] == sep {
        assert Split(s, sep) == [""] + rest;
        assert Join([""] + rest, [sep]) == "" + [sep] + Join(rest, [sep]) by {
          assert ([""] + rest)[1..] == rest;
        }
      } else {
        var parts := Split(s, sep);
        assert parts == [[s[0]] + rest[0]] + rest[1..];
        if |rest| == 1 {
          assert parts == [[s[0]] + rest[0]];
        } else {
          assert parts[1..] == rest[1..];
          assert Join(rest, [sep]) == rest[0] + [sep] + Join(rest[1..], [sep]);
        }
        assert s == [s[0]] + s[1..];
      }
    }
  }

  /** A part without the separator, then the separator, starts a new part. */
  lemma {:induction false} SplitAfterPart(p: string, sep: char, tail: string)
    requires sep !in p
    ensures Split(p + [sep] + tail, sep) == [p] + Split(tail, sep)
  {
    if p == [] {
      assert p + [sep] + tail == [sep] + tail;
      assert ([sep] + tail)[1..] == tail;
    } else {
      var s := p + [sep] + tail;
      assert s[1..] == p[1..] + [sep] + tail;
      assert sep !in p[1..];
      SplitAfterPart(p[1..], sep, tail);
      assert [p[0]] + p[1..] == p;
    }
  }

  /** A string without the separator splits into itself alone. */
  lemma {:induction false} SplitWhole(p: string, sep: char)
    requires sep !in p
    ensures Split(p, sep) == [p]
  {
    if p != [] {
      assert sep !in p[1..];
      SplitWhole(p[1..], sep);
      assert [p[0]] + p[1..] == p;
    }
  }

  /**
   * Splitting the join of separator-free parts gives back the parts, so a
   * split result is the only separator-free decomposition of its string.
   */
  lemma {:induction false} SplitJoin(parts: seq<string>, sep: char)
    requires |parts| >= 1
    requires forall i :: 0 <= i < |parts| ==> sep !in parts[i]
    ensures Split(Join(parts, [sep]), sep) == parts
  {
    if |parts| == 1 {
      SplitWhole(parts[0], sep);
    } else {
      SplitJoin(parts[1..], sep);
      SplitAfterPart(parts[0], sep, Join(parts[1..], [sep]));
      assert [parts[0]] + parts[1..] == parts;
    }
  }

  /** The number of parts is one more than the number of separators. */
  lemma {:induction false} SplitCount(s: string, sep: char)
    ensures |Split(s, sep)| == Count(s, sep) + 1
  {
    if s != [] {
      SplitCount(s[1..], sep);
    }
  }
}
