/** String primitives used by the ledger queries and the admin middleware:
    byte-wise ordering (Go's `<` on strings, SQLite's BINARY collation),
    substring search (SQL `LIKE '%q%'`), `strings.Split`, `strings.SplitN(_, _, 2)`,
    `strings.Join` and `strings.TrimSpace`. */
module Text {
  import opened Wrappers

  // ---------------------------------------------------------------------
  // Lexicographic order

  /** `s` sorts strictly before `t`, comparing code points from the left. */
  predicate LexLess(s: string, t: string)
    decreases |s|
  {
    if s == [] then t != []
    else t != [] && (s[0] < t[0] || (s[0] == t[0] && LexLess(s[1..], t[1..])))
  }

  predicate LexLessEq(s: string, t: string) {
    s == t || LexLess(s, t)
  }

  lemma {:induction false} LexLessIrreflexive(s: string)
    ensures !LexLess(s, s)
    decreases |s|
  {
    if s != [] {
      LexLessIrreflexive(s[1..]);
    }
  }

  lemma {:induction false} LexLessAsymmetric(s: string, t: string)
    requires LexLess(s, t)
    ensures !LexLess(t, s)
    decreases |s|
  {
    if s != [] && t != [] && s[0] == t[0] {
      LexLessAsymmetric(s[1..], t[1..]);
    }
  }

  lemma {:induction false} LexLessTransitive(s: string, t: string, u: string)
    requires LexLess(s, t) && LexLess(t, u)
    ensures LexLess(s, u)
    decreases |s|
  {
    if s != [] && s[0] == t[0] && t[0] == u[0] {
      LexLessTransitive(s[1..], t[1..], u[1..]);
    }
  }

  lemma {:induction false} LexLessTotal(s: string, t: string)
    ensures s == t || LexLess(s, t) || LexLess(t, s)
    decreases |s|
  {
    if s != [] && t != [] && s[0] == t[0] {
      LexLessTotal(s[1..], t[1..]);
      if s[1..] == t[1..] {
        assert s == [s[0]] + s[1..] && t == [t[0]] + t[1..];
      }
    }
  }

  lemma LexLessEqTransitive(s: string, t: string, u: string)
    requires LexLessEq(s, t) && LexLessEq(t, u)
    ensures LexLessEq(s, u)
  {
    if s != t && t != u {
      LexLessTransitive(s, t, u);
    }
  }

  /** Equal-length strings keep their order when one more character is
      appended to each: this is how zero-padded numbers compare. */
  lemma {:induction false} LexLessAppend(s: string, t: string, x: char, y: char)
    requires |s| == |t|
    requires LexLess(s, t) || (s == t && x < y)
    ensures LexLess(s + [x], t + [y])
    decreases |s|
  {
    if s != [] {
      assert (s + [x])[1..] == s[1..] + [x];
      assert (t + [y])[1..] == t[1..] + [y];
      if s[0] == t[0] {
        if LexLess(s, t) {
          LexLessAppend(s[1..], t[1..], x, y);
        } else {
          LexLessAppend(s[1..], t[1..], x, y);
        }
      }
    }
  }

  /** A sequence of strings in strictly ascending order. */
  ghost predicate StrictlyAscending(s: seq<string>) {
    forall i, j :: 0 <= i < j < |s| ==> LexLess(s[i], s[j])
  }

  /** Two strictly ascending sequences holding the same strings are equal:
      sorting a set of distinct keys has exactly one outcome. */
  lemma {:induction false} StrictlyAscendingUnique(a: seq<string>, b: seq<string>)
    requires StrictlyAscending(a) && StrictlyAscending(b)
    requires forall x :: x in a <==> x in b
    ensures a == b
    decreases |a|
  {
    if a == [] {
      assert forall k :: 0 <= k < |b| ==> b[k] in b;
    } else {
      assert a[0] in a;
      assert b != [];
      assert b[0] in b;
      var j :| 0 <= j < |b| && b[j] == a[0];
      var i :| 0 <= i < |a| && a[i] == b[0];
      if j > 0 {
        assert LexLess(b[0], a[0]);
        if i > 0 {
          assert LexLess(a[0], b[0]);
          LexLessAsymmetric(a[0], b[0]);
        } else {
          LexLessIrreflexive(a[0]);
        }
        assert false;
      }
      assert a[0] == b[0];
      forall x
        ensures x in a[1..] <==> x in b[1..]
      {
        if x in a[1..] {
          TailMember(a, b, x);
        }
        if x in b[1..] {
          TailMember(b, a, x);
        }
      }
      StrictlyAscendingUnique(a[1..], b[1..]);
      assert a == [a[0]] + a[1..] && b == [b[0]] + b[1..];
    }
  }

  lemma TailMember(a: seq<string>, b: seq<string>, x: string)
    requires StrictlyAscending(a) && StrictlyAscending(b)
    requires a != [] && b != [] && a[0] == b[0]
    requires forall y :: y in a <==> y in b
    requires x in a[1..]
    ensures x in b[1..]
  {
    var k :| 0 <= k < |a[1..]| && a[1..][k] == x;
    assert a[k + 1] == x && LexLess(a[0], x);
    assert x in b;
    var m :| 0 <= m < |b| && b[m] == x;
    if m == 0 {
      LexLessIrreflexive(x);
    }
    assert b[1..][m - 1] == x;
  }

  // ---------------------------------------------------------------------
  // Prefixes and substrings

  predicate IsPrefix(p: string, s: string) {
    |p| <= |s| && s[..|p|] == p
  }

  /** `s` contains `q` as a contiguous substring: SQL `s LIKE '%' || q || '%'`
      read as plain substring search. */
  predicate Contains(s: string, q: string)
    decreases |s|
  {
    IsPrefix(q, s) || (s != [] && Contains(s[1..], q))
  }

  /** `q` occurs in `s` starting at position `i`. */
  predicate OccursAt(s: string, q: string, i: int) {
    0 <= i <= |s| - |q| && s[i..i + |q|] == q
  }

  /** `Contains` holds exactly when `q` occurs somewhere in `s`. */
  lemma {:induction false} ContainsOccurrence(s: string, q: string)
    ensures Contains(s, q) <==> exists i :: OccursAt(s, q, i)
    decreases |s|
  {
    if s != [] {
      ContainsOccurrence(s[1..], q);
      if exists i :: OccursAt(s, q, i) {
        var i :| OccursAt(s, q, i);
        if i > 0 {
          assert s[1..][i - 1..i - 1 + |q|] == q;
          assert OccursAt(s[1..], q, i - 1);
        }
      }
      if Contains(s[1..], q) && !IsPrefix(q, s) {
        var i :| OccursAt(s[1..], q, i);
        assert s[i + 1..i + 1 + |q|] == q;
        assert OccursAt(s, q, i + 1);
      }
      if IsPrefix(q, s) {
        assert OccursAt(s, q, 0);
      }
    } else if IsPrefix(q, s) {
      assert OccursAt(s, q, 0);
    }
  }

  // ---------------------------------------------------------------------
  // Splitting and joining

  /** Go's `strings.Split(s, string(c))`: the pieces between occurrences of
      `c`; never empty, `[""]` for the empty string. */
  function Split(s: string, c: char): (r: seq<string>)
    ensures |r| >= 1
    decreases |s|
  {
    if s == [] then [""]
    else if s[0] == c then [""] + Split(s[1..], c)
    else
      var rest := Split(s[1..], c);
      [[s[0]] + rest[0]] + rest[1..]
  }

  /** Go's `strings.Join(parts, sep)`. */
  function Join(parts: seq<string>, sep: string): string
    decreases |parts|
  {
    if |parts| == 0 then ""
    else if |parts| == 1 then parts[0]
    else parts[0] + sep + Join(parts[1..], sep)
  }

  lemma {:induction false} SplitNoSeparator(s: string, c: char)
    requires c !in s
    ensures Split(s, c) == [s]
    decreases |s|
  {
    if s != [] {
      SplitNoSeparator(s[1..], c);
      assert [s[0]] + s[1..] == s;
    }
  }

  lemma {:induction false} SplitAtSeparator(x: string, c: char, rest: string)
    requires c !in x
    ensures Split(x + [c] + rest, c) == [x] + Split(rest, c)
    decreases |x|
  {
    if x == [] {
      assert x + [c] + rest == [c] + rest;
      assert ([c] + rest)[1..] == rest;
    } else {
      assert (x + [c] + rest)[1..] == x[1..] + [c] + rest;
      SplitAtSeparator(x[1..], c, rest);
      assert [x[0]] + x[1..] == x;
    }
  }

  /** Splitting a joined list at the separator gives the list back, as long
      as no piece contains the separator. */
  lemma {:induction false} SplitJoin(parts: seq<string>, c: char)
    requires |parts| >= 1
    requires forall i :: 0 <= i < |parts| ==> c !in parts[i]
    ensures Split(Join(parts, [c]), c) == parts
    decreases |parts|
  {
    if |parts| == 1 {
      SplitNoSeparator(parts[0], c);
    } else {
      SplitJoin(parts[1..], c);
      SplitAtSeparator(parts[0], c, Join(parts[1..], [c]));
      assert parts == [parts[0]] + parts[1..];
    }
  }

  /** The position of the first `c` in `s`. */
  function FirstIndex(s: string, c: char): (r: Option<nat>)
    ensures r.Some? ==> r.value < |s| && s[r.value] == c && c !in s[..r.value]
    ensures r.None? ==> c !in s
    decreases |s|
  {
    if s == [] then None
    else if s[0] == c then Some(0)
    else match FirstIndex(s[1..], c)
      case None => None
      case Some(k) =>
        assert s[..k + 1] == [s[0]] + s[1..][..k];
        Some(k + 1)
  }

  /** Go's `strings.SplitN(s, string(c), 2)`: `[s]` when `c` does not occur,
      otherwise the text before the first `c` and everything after it. */
  function SplitN2(s: string, c: char): seq<string> {
    match FirstIndex(s, c)
    case None => [s]
    case Some(i) => [s[..i], s[i + 1..]]
  }

  // ---------------------------------------------------------------------
  // Whitespace

  /** Go's `unicode.IsSpace`: the Latin-1 spaces and the other Unicode
      White_Space code points. */
  predicate IsSpace(c: char) {
    c == '\t' || c == '\n' || c == '\U{000B}' || c == '\U{000C}' || c == '\r' || c == ' '
    || c == '\U{0085}' || c == '\U{00A0}' || c == '\U{1680}'
    || ('\U{2000}' <= c <= '\U{200A}')
    || c == '\U{2028}' || c == '\U{2029}' || c == '\U{202F}' || c == '\U{205F}' || c == '\U{3000}'
  }

  function TrimLeft(s: string): string
    decreases |s|
  {
    if s != [] && IsSpace(s[0]) then TrimLeft(s[1..]) else s
  }

  function TrimRight(s: string): string
    decreases |s|
  {
    if s != [] && IsSpace(s[|s| - 1]) then TrimRight(s[..|s| - 1]) else s
  }

  /** Go's `strings.TrimSpace`. */
  function TrimSpace(s: string): string {
    TrimRight(TrimLeft(s))
  }
}
