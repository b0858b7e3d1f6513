/**
 The two string operations the allocator relies on: the substring test
 behind Python's `sub in s`, and the code-point lexicographic order that
 Python's `sorted` applies to a list of strings.
 */
module Strings {

  /** `sub` occurs somewhere in `s` (reference definition of `sub in s`). */
  ghost predicate Occurs(sub: string, s: string) {
    exists i :: OccursAt(sub, s, i)
  }

  /** `sub` starts at position `i` of `s`. */
  predicate OccursAt(sub: string, s: string, i: int) {
    0 <= i <= |s| - |sub| && s[i..i + |sub|] == sub
  }

  /** Left-to-right search for `sub`, the executable form of `sub in s`. */
  function Contains(s: string, sub: string): (r: bool)
    ensures r <==> Occurs(sub, s)
    decreases |s|
  {
    if |s| < |sub| then
      false
    else if s[..|sub|] == sub then
      assert OccursAt(sub, s, 0);
      true
    else
      var rest := Contains(s[1..], sub);
      OccursStep(sub, s);
      rest
  }

  /** An occurrence is either a prefix or an occurrence in the tail. */
  lemma OccursStep(sub: string, s: string)
    requires |s| > 0 && |s| >= |sub| && s[..|sub|] != sub
    ensures Occurs(sub, s) <==> Occurs(sub, s[1..])
  {
    if Occurs(sub, s) {
      var i :| OccursAt(sub, s, i);
      assert i != 0;
      assert s[1..][i - 1..i - 1 + |sub|] == sub;
      assert OccursAt(sub, s[1..], i - 1);
    }
    if Occurs(sub, s[1..]) {
      var i :| OccursAt(sub, s[1..], i);
      assert s[i + 1..i + 1 + |sub|] == sub;
      assert OccursAt(sub, s, i + 1);
    }
  }

  /** `a` and `b` agree before position `i`, where `a` has the smaller
      code point. */
  predicate LessAt(a: string, b: string, i: nat) {
    i < |a| && i < |b| && a[..i] == b[..i] && a[i] < b[i]
  }

  /** Python's `a <= b` on strings: code-point lexicographic order, a proper
      prefix coming first. */
  predicate LexLeq(a: string, b: string): (r: bool)
    ensures r <==> (|a| <= |b| && a == b[..|a|]) || exists i :: LessAt(a, b, i)
    decreases |a|
  {
    if |a| == 0 then
      true
    else if |b| == 0 then
      false
    else if a[0] != b[0] then
      assert LessAt(a, b, 0) <==> a[0] < b[0];
      assert forall i: nat :: LessAt(a, b, i) ==> i == 0;
      a[0] < b[0]
    else
      var r := LexLeq(a[1..], b[1..]);
      LessAtShift(a, b);
      r
  }

  /** With equal first characters, comparing two strings is comparing their
      tails. */
  lemma LessAtShift(a: string, b: string)
    requires |a| > 0 && |b| > 0 && a[0] == b[0]
    ensures (|a| <= |b| && a == b[..|a|]) <==> (|a[1..]| <= |b[1..]| && a[1..] == b[1..][..|a[1..]|])
    ensures (exists i :: LessAt(a, b, i)) <==> exists j :: LessAt(a[1..], b[1..], j)
  {
    if |a| <= |b| && a == b[..|a|] {
      assert a[1..] == b[..|a|][1..];
    }
    if |a[1..]| <= |b[1..]| && a[1..] == b[1..][..|a[1..]|] {
      assert a == [a[0]] + a[1..] && b[..|a|] == [b[0]] + b[1..][..|a[1..]|];
    }
    if i: nat :| LessAt(a, b, i) {
      assert i > 0;
      assert a[1..][..i - 1] == a[..i][1..] && b[1..][..i - 1] == b[..i][1..];
      assert LessAt(a[1..], b[1..], i - 1);
    }
    if j: nat :| LessAt(a[1..], b[1..], j) {
      assert a[..j + 1] == [a[0]] + a[1..][..j] && b[..j + 1] == [b[0]] + b[1..][..j];
      assert LessAt(a, b, j + 1);
    }
  }

  lemma {:induction false} LexTotal(a: string, b: string)
    ensures LexLeq(a, b) || LexLeq(b, a)
    decreases |a|
  {
    if |a| > 0 && |b| > 0 && a[0] == b[0] {
      LexTotal(a[1..], b[1..]);
    }
  }

  lemma {:induction false} LexAntisymmetric(a: string, b: string)
    requires LexLeq(a, b) && LexLeq(b, a)
    ensures a == b
    decreases |a|
  {
    if |a| > 0 {
      LexAntisymmetric(a[1..], b[1..]);
      assert a == [a[0]] + a[1..];
      assert b == [b[0]] + b[1..];
    }
  }

  lemma {:induction false} LexTransitive(a: string, b: string, c: string)
    requires LexLeq(a, b) && LexLeq(b, c)
    ensures LexLeq(a, c)
    decreases |a|
  {
    if |a| > 0 && a[0] == b[0] && b[0] == c[0] {
      LexTransitive(a[1..], b[1..], c[1..]);
    }
  }

  /** `m` is the smallest element of `s`. */
  predicate IsLeast(m: string, s: set<string>) {
    m in s && forall y | y in s :: LexLeq(m, y)
  }

  lemma {:induction false} LeastExists(s: set<string>)
    requires s != {}
    ensures exists m :: IsLeast(m, s)
    decreases |s|
  {
    var x :| x in s;
    if s - {x} == {} {
      assert s == {x};
      LexTotal(x, x);
      assert IsLeast(x, s);
    } else {
      LeastExists(s - {x});
      var m :| IsLeast(m, s - {x});
      LexTotal(m, x);
      if LexLeq(m, x) {
        assert IsLeast(m, s);
      } else {
        forall y | y in s ensures LexLeq(x, y) {
          if y != x {
            LexTransitive(x, m, y);
          } else {
            LexTotal(x, x);
          }
        }
        assert IsLeast(x, s);
      }
    }
  }

  /** The least element of a non-empty set of strings. */
  function Least(s: set<string>): (m: string)
    requires s != {}
    ensures IsLeast(m, s)
  {
    LeastExists(s);
    forall a, b | IsLeast(a, s) && IsLeast(b, s) ensures a == b {
      LexAntisymmetric(a, b);
    }
    var m :| IsLeast(m, s);
    m
  }

  /** Strictly ascending in Python's string order. */
  predicate Ascending(r: seq<string>) {
    forall i, j :: 0 <= i < j < |r| ==> LexLeq(r[i], r[j]) && r[i] != r[j]
  }

  /** Python's `sorted(list(s))` for a set of strings. */
  function Sorted(s: set<string>): (r: seq<string>)
    ensures Ascending(r)
    ensures forall x :: x in r <==> x in s
    ensures |r| == |s|
    decreases |s|
  {
    if s == {} then
      []
    else
      var m := Least(s);
      var rest := Sorted(s - {m});
      assert forall j :: 0 <= j < |rest| ==> LexLeq(m, rest[j]) && m != rest[j] by {
        forall j | 0 <= j < |rest| ensures LexLeq(m, rest[j]) && m != rest[j] {
          assert rest[j] in s - {m};
        }
      }
      [m] + rest
  }
}
