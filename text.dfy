/**
 * String helpers the core relies on: `split`/`join` on one separator
 * character, `' '.repeat(n)`, ASCII `toLowerCase` and the default
 * `Array.prototype.sort` order on strings (code-unit lexicographic).
 */
module Text {

  /** `' '.repeat(n)`. */
  function Indent(n: nat): (s: string)
    ensures |s| == n
    ensures forall i :: 0 <= i < n ==> s[i] == ' '
  {
    if n == 0 then "" else " " + Indent(n - 1)
  }

  /** `parts.join(sep)` for a one-character separator. */
  function Join(parts: seq<string>, sep: char): string
  {
    if |parts| == 0 then ""
    else if |parts| == 1 then parts[0]
    else parts[0] + [sep] + Join(parts[1..], sep)
  }

  /** `s.split(sep)` for a one-character separator: never empty, and no piece holds `sep`. */
  function Split(s: string, sep: char): (parts: seq<string>)
    ensures |parts| >= 1
  {
    if |s| == 0 then [""]
    else
      var rest := Split(s[1..], sep);
      if s[0] == sep then [""] + rest
      else [[s[0]] + rest[0]] + rest[1..]
  }

  /** No piece of a split holds the separator. */
  lemma {:induction false} SplitPiecesFree(s: string, sep: char)
    ensures forall k :: 0 <= k < |Split(s, sep)| ==> sep !in Split(s, sep)[k]
  {
    if |s| > 0 {
      SplitPiecesFree(s[1..], sep);
      var rest := Split(s[1..], sep);
      if s[0] == sep {
        SplitConsSep(s[1..], sep);
        assert s == [sep] + s[1..];
      } else {
        SplitConsOther(s[0], s[1..], sep);
        assert s == [s[0]] + s[1..];
        assert sep !in [s[0]] + rest[0];
      }
    }
  }

  /** Joining two non-empty lists puts exactly one separator between them. */
  lemma {:induction false} JoinAppend(a: seq<string>, b: seq<string>, sep: char)
    requires |a| >= 1 && |b| >= 1
    ensures Join(a + b, sep) == Join(a, sep) + [sep] + Join(b, sep)
  {
    if |a| == 1 {
      assert a + b == [a[0]] + b;
    } else {
      assert (a + b)[1..] == a[1..] + b;
      JoinAppend(a[1..], b, sep);
    }
  }

  /** Joining the pieces of a split gives the string back. */
  lemma {:induction false} JoinSplit(s: string, sep: char)
    ensures Join(Split(s, sep), sep) == s
  {
    if |s| > 0 {
      var rest := Split(s[1..], sep);
      JoinSplit(s[1..], sep);
      if s[0] == sep {
        assert Split(s, sep) == [""] + rest;
        assert Join([""] + rest, sep) == "" + [sep] + Join(rest, sep);
        assert s == [s[0]] + s[1..];
      } else {
        var parts := [[s[0]] + rest[0]] + rest[1..];
        assert Split(s, sep) == parts;
        if |rest| == 1 {
          assert Join(parts, sep) == [s[0]] + rest[0];
        } else {
          assert parts[1..] == rest[1..];
          assert Join(parts, sep) == [s[0]] + rest[0] + [sep] + Join(rest[1..], sep);
        }
        assert s == [s[0]] + s[1..];
      }
    }
  }

  /** A piece without the separator splits to itself. */
  lemma {:induction false} SplitPlain(p: string, sep: char)
    requires sep !in p
    ensures Split(p, sep) == [p]
  {
    if |p| > 0 {
      SplitPlain(p[1..], sep);
      assert p == [p[0]] + p[1..];
    }
  }

  /** A leading separator splits off an empty first piece. */
  lemma SplitConsSep(r: string, sep: char)
    ensures Split([sep] + r, sep) == [""] + Split(r, sep)
  {
    assert ([sep] + r)[1..] == r;
  }

  /** Any other leading character joins the first piece. */
  lemma SplitConsOther(c: char, r: string, sep: char)
    requires c != sep
    ensures Split([c] + r, sep) == [[c] + Split(r, sep)[0]] + Split(r, sep)[1..]
  {
    assert ([c] + r)[1..] == r;
  }

  /** Gluing a character to the first piece commutes with appending more pieces. */
  lemma GlueFirst(c: char, rest: seq<string>, more: seq<string>)
    requires |rest| >= 1
    ensures [[c] + (rest + more)[0]] + (rest + more)[1..] == [[c] + rest[0]] + rest[1..] + more
  {
    assert (rest + more)[0] == rest[0];
    assert (rest + more)[1..] == rest[1..] + more;
  }

  /** One more leading character keeps a split at a later separator independent. */
  lemma SplitAtStep(c: char, tail: string, t: string, sep: char)
    requires Split(tail + [sep] + t, sep) == Split(tail, sep) + Split(t, sep)
    ensures Split([c] + (tail + [sep] + t), sep) == Split([c] + tail, sep) + Split(t, sep)
  {
    var whole := tail + [sep] + t;
    var r, u := Split(tail, sep), Split(t, sep);
    if c == sep {
      SplitConsSep(whole, sep);
      SplitConsSep(tail, sep);
      assert [""] + (r + u) == ([""] + r) + u;
    } else {
      SplitConsOther(c, whole, sep);
      SplitConsOther(c, tail, sep);
      GlueFirst(c, r, u);
    }
  }

  /** Splitting at a separator splits both sides independently. */
  lemma {:induction false} SplitAt(s: string, t: string, sep: char)
    ensures Split(s + [sep] + t, sep) == Split(s, sep) + Split(t, sep)
  {
    if |s| == 0 {
      assert s + [sep] + t == [sep] + t;
      SplitConsSep(t, sep);
    } else {
      SplitAt(s[1..], t, sep);
      SplitAtStep(s[0], s[1..], t, sep);
      assert s + [sep] + t == [s[0]] + (s[1..] + [sep] + t);
      assert s == [s[0]] + s[1..];
    }
  }

  /** Splitting a join of separator-free pieces gives the pieces back. */
  lemma {:induction false} SplitJoin(parts: seq<string>, sep: char)
    requires |parts| >= 1
    requires forall k :: 0 <= k < |parts| ==> sep !in parts[k]
    ensures Split(Join(parts, sep), sep) == parts
  {
    if |parts| == 1 {
      SplitPlain(parts[0], sep);
    } else {
      SplitJoin(parts[1..], sep);
      SplitAt(parts[0], Join(parts[1..], sep), sep);
      SplitPlain(parts[0], sep);
      assert parts == [parts[0]] + parts[1..];
    }
  }

  /** ASCII `toLowerCase`. */
  function LowerChar(c: char): (d: char)
    ensures 'A' <= c <= 'Z' ==> 'a' <= d <= 'z'
    ensures !('A' <= c <= 'Z') ==> d == c
  {
    if 'A' <= c <= 'Z' then (c as int + 32) as char else c
  }

  function ToLowerAscii(s: string): (r: string)
    ensures |r| == |s|
    ensures forall i :: 0 <= i < |s| ==> r[i] == LowerChar(s[i])
  {
    if |s| == 0 then "" else [LowerChar(s[0])] + ToLowerAscii(s[1..])
  }

  /** The order `Array.prototype.sort` uses on strings: code units, lexicographically. */
  predicate StrLe(a: string, b: string)
  {
    if |a| == 0 then true
    else if |b| == 0 then false
    else if a[0] != b[0] then a[0] < b[0]
    else StrLe(a[1..], b[1..])
  }

  lemma {:induction false} StrLeTotal(a: string, b: string)
    ensures StrLe(a, b) || StrLe(b, a)
  {
    if |a| > 0 && |b| > 0 && a[0] == b[0] {
      StrLeTotal(a[1..], b[1..]);
    }
  }

  lemma StrLeReflexive(a: string)
    ensures StrLe(a, a)
  {
    StrLeTotal(a, a);
  }

  lemma {:induction false} StrLeAntisymmetric(a: string, b: string)
    requires StrLe(a, b) && StrLe(b, a)
    ensures a == b
  {
    if |a| > 0 && |b| > 0 {
      StrLeAntisymmetric(a[1..], b[1..]);
      assert a == [a[0]] + a[1..];
      assert b == [b[0]] + b[1..];
    }
  }

  lemma {:induction false} StrLeTransitive(a: string, b: string, c: string)
    requires StrLe(a, b) && StrLe(b, c)
    ensures StrLe(a, c)
  {
    if |a| > 0 && |b| > 0 && |c| > 0 && a[0] == b[0] && b[0] == c[0] {
      StrLeTransitive(a[1..], b[1..], c[1..]);
    }
  }

  predicate Sorted(xs: seq<string>)
  {
    forall i, j :: 0 <= i < j < |xs| ==> StrLe(xs[i], xs[j])
  }

  /** A sorted list stays sorted behind an element at most all of its elements. */
  lemma SortedCons(h: string, tail: seq<string>)
    requires Sorted(tail)
    requires forall y :: y in multiset(tail) ==> StrLe(h, y)
    ensures Sorted([h] + tail)
  {
    var r := [h] + tail;
    forall i, j | 0 <= i < j < |r| ensures StrLe(r[i], r[j]) {
      assert r[j] == tail[j - 1] && tail[j - 1] in multiset(tail);
      if i > 0 {
        assert r[i] == tail[i - 1];
      }
    }
  }

  /** The rest of a sorted list is sorted and no element of it is below the head. */
  lemma SortedSplitsAtHead(xs: seq<string>)
    requires Sorted(xs) && |xs| > 0
    ensures Sorted(xs[1..])
    ensures forall y :: y in multiset(xs[1..]) ==> StrLe(xs[0], y)
    ensures multiset(xs[1..]) == multiset(xs) - multiset{xs[0]}
  {
    assert xs == [xs[0]] + xs[1..];
    forall y | y in multiset(xs[1..]) ensures StrLe(xs[0], y) {
      var j :| 0 <= j < |xs[1..]| && xs[1..][j] == y;
      assert xs[j + 1] == y;
    }
    forall i, j | 0 <= i < j < |xs[1..]| ensures StrLe(xs[1..][i], xs[1..][j]) {
      assert xs[1..][i] == xs[i + 1] && xs[1..][j] == xs[j + 1];
    }
  }

  /** Something at most the head of a sorted list is at most all of it. */
  lemma BelowHead(x: string, xs: seq<string>)
    requires Sorted(xs) && |xs| > 0 && StrLe(x, xs[0])
    ensures forall y :: y in multiset(xs) ==> StrLe(x, y)
  {
    SortedSplitsAtHead(xs);
    forall y | y in multiset(xs) ensures StrLe(x, y) {
      if y != xs[0] {
        StrLeTransitive(x, xs[0], y);
      }
    }
  }

  /** Inserts `x` before the first element it does not follow. */
  function Insert(x: string, xs: seq<string>): (r: seq<string>)
    requires Sorted(xs)
    ensures Sorted(r)
    ensures multiset(r) == multiset(xs) + multiset{x}
  {
    if |xs| == 0 then [x]
    else if StrLe(x, xs[0]) then
      BelowHead(x, xs);
      SortedCons(x, xs);
      [x] + xs
    else
      StrLeTotal(x, xs[0]);
      SortedSplitsAtHead(xs);
      var tail := Insert(x, xs[1..]);
      SortedCons(xs[0], tail);
      [xs[0]] + tail
  }

  /** The sorted copy `[...xs].sort()`: ordered, and a permutation of `xs`. */
  function Sort(xs: seq<string>): (r: seq<string>)
    ensures Sorted(r)
    ensures multiset(r) == multiset(xs)
  {
    if |xs| == 0 then []
    else
      assert xs == [xs[0]] + xs[1..];
      Insert(xs[0], Sort(xs[1..]))
  }

  /** The head of a sorted list is at most every element. */
  lemma SortedHeadIsLeast(a: seq<string>, x: string)
    requires Sorted(a) && x in multiset(a)
    ensures |a| > 0 && StrLe(a[0], x)
  {
    var i :| 0 <= i < |a| && a[i] == x;
    if i == 0 { StrLeReflexive(x); }
  }

  /** Two sorted permutations of one multiset start alike. */
  lemma SameHead(a: seq<string>, b: seq<string>)
    requires Sorted(a) && Sorted(b) && multiset(a) == multiset(b) && |a| > 0
    ensures |b| > 0 && a[0] == b[0]
  {
    assert a[0] in multiset(b);
    SortedHeadIsLeast(b, a[0]);
    assert b[0] in multiset(a);
    SortedHeadIsLeast(a, b[0]);
    StrLeAntisymmetric(a[0], b[0]);
  }

  /** Two sorted permutations of one multiset are equal, so any correct sort gives the same answer. */
  lemma {:induction false} SortedUnique(a: seq<string>, b: seq<string>)
    requires Sorted(a) && Sorted(b)
    requires multiset(a) == multiset(b)
    ensures a == b
  {
    if |a| == 0 {
      assert |b| == |multiset(b)| == 0;
    } else {
      SameHead(a, b);
      SortedSplitsAtHead(a);
      SortedSplitsAtHead(b);
      SortedUnique(a[1..], b[1..]);
      assert a == [a[0]] + a[1..] && b == [b[0]] + b[1..];
    }
  }

  /** Sorting does not depend on the order of its input. */
  lemma SortPermutationInvariant(xs: seq<string>, ys: seq<string>)
    requires multiset(xs) == multiset(ys)
    ensures Sort(xs) == Sort(ys)
  {
    SortedUnique(Sort(xs), Sort(ys));
  }
}
