/**
 * The Python string and list operations the template-location logic is
 * built from, on `string` (`seq<char>`) and `seq<string>`:
 *   - `str.replace(old, new)` for one-character `old` and `new`,
 *   - `str.split(sep)` for a one-character separator,
 *   - the list slice `xs[0:n]`,
 *   - `sep.join(parts)`,
 * together with the laws that relate them.
 */
module Strings {

  /** Number of occurrences of `c` in `s`. */
  function Occurrences(s: string, c: char): (n: nat)
    ensures n <= |s|
    ensures n == 0 <==> c !in s
  {
    if s == [] then 0 else (if s[0] == c then 1 else 0) + Occurrences(s[1..], c)
  }

  /** `s.replace(from, to)`: every occurrence of the character `from` becomes `to`. */
  function Replace(s: string, from: char, to: char): (r: string)
    ensures |r| == |s|
    ensures forall i :: 0 <= i < |s| ==> r[i] == if s[i] == from then to else s[i]
  {
    if s == [] then [] else [if s[0] == from then to else s[0]] + Replace(s[1..], from, to)
  }

  /**
   * `s.split(sep)` for a one-character separator: the maximal runs between
   * separators, empty runs included. `"".split(sep)` is `[""]`, so the
   * result is never empty, and no segment holds the separator.
   */
  function Split(s: string, sep: char): (parts: seq<string>)
    ensures |parts| >= 1
    ensures forall p :: p in parts ==> sep !in p
  {
    if s == [] then [[]]
    else
      var rest := Split(s[1..], sep);
      if s[0] == sep then [[]] + rest
      else
        assert rest[0] in rest;
        assert forall p :: p in rest[1..] ==> p in rest;
        [[s[0]] + rest[0]] + rest[1..]
  }

  /** The list slice `xs[0:n]`: Python clamps `n` to the length of `xs`. */
  function Take<T>(xs: seq<T>, n: nat): (r: seq<T>)
    ensures |r| == if n <= |xs| then n else |xs|
    ensures r <= xs
  {
    if n <= |xs| then xs[..n] else xs
  }

  /** Total length of the parts. */
  function TotalLength(parts: seq<string>): nat
  {
    if parts == [] then 0 else |parts[0]| + TotalLength(parts[1..])
  }

  /**
   * `sep.join(parts)`; the join of no parts is the empty string. The join of
   * one or more parts starts with the first of them, and its length is the
   * total length of the parts plus one separator between each neighbouring pair.
   */
  function Join(parts: seq<string>, sep: string): (r: string)
    ensures |parts| == 0 ==> r == []
    ensures |parts| >= 1 ==> parts[0] <= r && |r| == TotalLength(parts) + (|parts| - 1) * |sep|
  {
    if |parts| == 0 then []
    else if |parts| == 1 then parts[0]
    else parts[0] + sep + Join(parts[1..], sep)
  }

  lemma {:induction false} OccurrencesAppend(a: string, b: string, c: char)
    ensures Occurrences(a + b, c) == Occurrences(a, c) + Occurrences(b, c)
  {
    if a == [] {
      assert a + b == b;
    } else {
      assert (a + b)[1..] == a[1..] + b;
      OccurrencesAppend(a[1..], b, c);
    }
  }

  /** Splitting yields one more segment than there are separators. */
  lemma {:induction false} SplitCount(s: string, sep: char)
    ensures |Split(s, sep)| == Occurrences(s, sep) + 1
  {
    if s != [] {
      SplitCount(s[1..], sep);
    }
  }

  /** Every character of every segment comes from the string that was split. */
  lemma {:induction false} SplitChars(s: string, sep: char)
    ensures forall p, x :: p in Split(s, sep) && x in p ==> x in s
  {
    if s != [] {
      SplitChars(s[1..], sep);
      var rest := Split(s[1..], sep);
      assert forall p :: p in rest[1..] ==> p in rest;
      assert rest[0] in rest;
    }
  }

  /** Prepending to the first part prepends to the joined string. */
  lemma {:induction false} JoinConsHead(x: string, parts: seq<string>, sep: string)
    requires |parts| >= 1
    ensures Join([x + parts[0]] + parts[1..], sep) == x + Join(parts, sep)
  {
    var q := [x + parts[0]] + parts[1..];
    assert q[1..] == parts[1..];
    if |parts| > 1 {
      assert Join(q, sep) == (x + parts[0]) + sep + Join(parts[1..], sep);
    }
  }

  /** Appending one part adds the separator and that part at the end. */
  lemma {:induction false} JoinSnoc(parts: seq<string>, x: string, sep: string)
    requires |parts| >= 1
    ensures Join(parts + [x], sep) == Join(parts, sep) + sep + x
  {
    var q := parts + [x];
    if |parts| > 1 {
      assert q[1..] == parts[1..] + [x];
      JoinSnoc(parts[1..], x, sep);
    } else {
      assert q[1..] == [x];
    }
  }

  /**
   * Replacing every `from` by `to` is the same as splitting at `from` and
   * joining with `to`.
   */
  lemma {:induction false} ReplaceIsJoinOfSplit(s: string, from: char, to: char)
    ensures Replace(s, from, to) == Join(Split(s, from), [to])
  {
    if s != [] {
      ReplaceIsJoinOfSplit(s[1..], from, to);
      var rest := Split(s[1..], from);
      if s[0] == from {
        assert ([[]] + rest)[1..] == rest;
      } else {
        JoinConsHead([s[0]], rest, [to]);
      }
    }
  }

  /** Joining the segments with the separator they were split at gives back the string. */
  lemma JoinSplit(s: string, sep: char)
    ensures Join(Split(s, sep), [sep]) == s
  {
    ReplaceIsJoinOfSplit(s, sep, sep);
    assert Replace(s, sep, sep) == s;
  }

  /** A string without the separator splits into itself alone. */
  lemma {:induction false} SplitNoSep(x: string, sep: char)
    requires sep !in x
    ensures Split(x, sep) == [x]
  {
    if x != [] {
      SplitNoSep(x[1..], sep);
      assert [x[0]] + x[1..] == x;
    }
  }

  /** A separator-free prefix is glued onto the first segment of the rest. */
  lemma {:induction false} SplitPrefix(x: string, t: string, sep: char)
    requires sep !in x
    ensures Split(x + t, sep) == [x + Split(t, sep)[0]] + Split(t, sep)[1..]
  {
    if x == [] {
      assert x + t == t;
      assert x + Split(t, sep)[0] == Split(t, sep)[0];
      assert [Split(t, sep)[0]] + Split(t, sep)[1..] == Split(t, sep);
    } else {
      assert (x + t)[1..] == x[1..] + t;
      SplitPrefix(x[1..], t, sep);
      assert [x[0]] + (x[1..] + Split(t, sep)[0]) == x + Split(t, sep)[0];
    }
  }

  /**
   * Splitting a join recovers the parts, provided there is at least one part
   * and none of them holds the separator.
   */
  lemma {:induction false} SplitJoin(parts: seq<string>, sep: char)
    requires |parts| >= 1
    requires forall p :: p in parts ==> sep !in p
    ensures Split(Join(parts, [sep]), sep) == parts
  {
    assert parts[0] in parts;
    if |parts| == 1 {
      SplitNoSep(parts[0], sep);
    } else {
      var tail := Join(parts[1..], [sep]);
      assert forall p :: p in parts[1..] ==> p in parts;
      SplitJoin(parts[1..], sep);
      assert Join(parts, [sep]) == parts[0] + ([sep] + tail);
      SplitPrefix(parts[0], [sep] + tail, sep);
      assert ([sep] + tail)[1..] == tail;
      assert parts[0] + [] == parts[0];
      assert [parts[0]] + parts[1..] == parts;
    }
  }

  /** Joining the first `n` parts gives a prefix of joining them all. */
  lemma {:induction false} JoinTakeIsPrefix(parts: seq<string>, n: nat, sep: string)
    ensures Join(Take(parts, n), sep) <= Join(parts, sep)
  {
    if n < |parts| && n > 0 {
      var front := parts[..n];
      var whole := Join(parts, sep);
      assert whole == parts[0] + (sep + Join(parts[1..], sep));
      if n == 1 {
        assert front == [parts[0]];
        assert parts[0] <= whole;
      } else {
        assert front[1..] == Take(parts[1..], n - 1);
        JoinTakeIsPrefix(parts[1..], n - 1, sep);
        var a, b := Join(front[1..], sep), Join(parts[1..], sep);
        assert Join(front, sep) == parts[0] + (sep + a);
        assert (parts[0] + (sep + a)) <= (parts[0] + (sep + b));
      }
    } else if n == 0 {
      assert Take(parts, n) == [];
    } else {
      assert Take(parts, n) == parts;
    }
  }

  /**
   * When no part holds the one-character separator, the join holds exactly
   * one separator between each pair of neighbouring parts.
   */
  lemma {:induction false} JoinOccurrences(parts: seq<string>, sep: char)
    requires |parts| >= 1
    requires forall p :: p in parts ==> sep !in p
    ensures Occurrences(Join(parts, [sep]), sep) == |parts| - 1
  {
    assert parts[0] in parts;
    if |parts| > 1 {
      assert forall p :: p in parts[1..] ==> p in parts;
      JoinOccurrences(parts[1..], sep);
      OccurrencesAppend(parts[0], [sep], sep);
      OccurrencesAppend(parts[0] + [sep], Join(parts[1..], [sep]), sep);
    }
  }
}
