/**
 * Joining strings with a one-character separator (`Array.prototype.join`)
 * and splitting them apart again (`String.prototype.split`), plus counting
 * a character's occurrences.
 */
module Delimited {

  /** `xs.join(sep)` for a non-empty list. */
  function Join(xs: seq<string>, sep: char): (r: string)
    requires |xs| >= 1
    ensures |r| == TotalLength(xs) + |xs| - 1
  {
    if |xs| == 1 then xs[0] else xs[0] + [sep] + Join(xs[1..], sep)
  }

  /** A join starts with the first piece, then the separator, and ends with the last piece. */
  lemma {:induction false} JoinEnds(xs: seq<string>, sep: char)
    requires |xs| >= 1
    ensures var r := Join(xs, sep);
      && |xs[0]| <= |r| && r[..|xs[0]|] == xs[0]
      && (|xs| > 1 ==> r[|xs[0]|] == sep)
      && |xs[|xs| - 1]| <= |r| && r[|r| - |xs[|xs| - 1]|..] == xs[|xs| - 1]
  {
    if |xs| > 1 {
      var tail := Join(xs[1..], sep);
      JoinEnds(xs[1..], sep);
      assert Join(xs, sep) == (xs[0] + [sep]) + tail;
    }
  }

  /** The summed length of the pieces. */
  function TotalLength(xs: seq<string>): nat {
    if xs == [] then 0 else |xs[0]| + TotalLength(xs[1..])
  }

  /** The longest prefix of `s` free of `c`, and what follows it (empty, or starting with `c`). */
  function TakeUntil(s: string, c: char): (r: (string, string))
    ensures r.0 + r.1 == s
    ensures c !in r.0
    ensures r.1 == [] || r.1[0] == c
  {
    if s == [] || s[0] == c then ([], s)
    else
      var rest := TakeUntil(s[1..], c);
      ([s[0]] + rest.0, rest.1)
  }

  /** `s.split(sep)`: the maximal separator-free pieces, in order; always at least one. */
  function Split(s: string, sep: char): (parts: seq<string>)
    ensures |parts| >= 1
    ensures forall i :: 0 <= i < |parts| ==> sep !in parts[i]
    ensures Join(parts, sep) == s
    decreases |s|
  {
    var (head, tail) := TakeUntil(s, sep);
    if tail == [] then [head]
    else
      var rest := Split(tail[1..], sep);
      assert Join([head] + rest, sep) == head + [sep] + Join(rest, sep) by {
        assert ([head] + rest)[1..] == rest;
      }
      assert tail == [sep] + tail[1..];
      [head] + rest
  }

  /** The split point of a string made of a `c`-free part and a rest that is empty or starts with `c` is unique. */
  lemma TakeUntilOf(x: string, y: string, c: char)
    requires c !in x
    requires y == [] || y[0] == c
    ensures TakeUntil(x + y, c) == (x, y)
  {
    var r := TakeUntil(x + y, c);
    assert r.0 == (x + y)[..|r.0|];
    assert x == (x + y)[..|x|];
  }

  /** Splitting a join of separator-free pieces gives the pieces back. */
  lemma {:induction false} SplitJoin(xs: seq<string>, sep: char)
    requires |xs| >= 1
    requires forall i :: 0 <= i < |xs| ==> sep !in xs[i]
    ensures Split(Join(xs, sep), sep) == xs
    decreases |xs|
  {
    if |xs| == 1 {
      TakeUntilOf(xs[0], [], sep);
      assert xs[0] + [] == xs[0];
    } else {
      var rest := Join(xs[1..], sep);
      TakeUntilOf(xs[0], [sep] + rest, sep);
      assert Join(xs, sep) == xs[0] + ([sep] + rest);
      assert ([sep] + rest)[1..] == rest;
      SplitJoin(xs[1..], sep);
      assert [xs[0]] + xs[1..] == xs;
    }
  }

  /** The number of occurrences of `c` in `s`. */
  function Count(s: string, c: char): (n: nat)
    ensures n == 0 <==> c !in s
    ensures n <= |s|
  {
    if s == [] then 0 else (if s[0] == c then 1 else 0) + Count(s[1..], c)
  }

  lemma {:induction false} CountAppend(a: string, b: string, c: char)
    ensures Count(a + b, c) == Count(a, c) + Count(b, c)
  {
    if a != [] {
      assert (a + b)[1..] == a[1..] + b;
      CountAppend(a[1..], b, c);
    } else {
      assert a + b == b;
    }
  }

  /** A join of `n` separator-free pieces holds exactly `n - 1` separators. */
  lemma {:induction false} JoinCount(xs: seq<string>, sep: char)
    requires |xs| >= 1
    requires forall i :: 0 <= i < |xs| ==> sep !in xs[i]
    ensures Count(Join(xs, sep), sep) == |xs| - 1
    decreases |xs|
  {
    if |xs| > 1 {
      JoinCount(xs[1..], sep);
      CountAppend(xs[0], [sep], sep);
      CountAppend(xs[0] + [sep], Join(xs[1..], sep), sep);
    }
  }
}
