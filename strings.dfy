/**
 * Python's ordering of `str` values (code point by code point, a proper
 * prefix first) and `sorted()` on a list of joint names.
 */
module Strings {

  /** `a <= b` on Python strings. */
  predicate LexLe(a: string, b: string)
    decreases |a|
  {
    if |a| == 0 then true
    else if |b| == 0 then false
    else if a[0] != b[0] then a[0] < b[0]
    else LexLe(a[1..], b[1..])
  }

  lemma {:induction false} LexLeTotal(a: string, b: string)
    ensures LexLe(a, b) || LexLe(b, a)
    decreases |a|
  {
    if |a| != 0 && |b| != 0 && a[0] == b[0] {
      LexLeTotal(a[1..], b[1..]);
    }
  }

  lemma {:induction false} LexLeTransitive(a: string, b: string, c: string)
    requires LexLe(a, b) && LexLe(b, c)
    ensures LexLe(a, c)
    decreases |a|
  {
    if |a| != 0 && |b| != 0 && |c| != 0 && a[0] == b[0] && b[0] == c[0] {
      LexLeTransitive(a[1..], b[1..], c[1..]);
    }
  }

  ghost predicate Sorted(s: seq<string>) {
    forall i, j :: 0 <= i < j < |s| ==> LexLe(s[i], s[j])
  }

  /** Insert `x` in front of the first element not below it. */
  function Insert(x: string, s: seq<string>): (r: seq<string>)
    ensures |r| == |s| + 1
  {
    if s == [] then [x]
    else if LexLe(x, s[0]) then [x] + s
    else [s[0]] + Insert(x, s[1..])
  }

  lemma {:induction false} InsertPermutes(x: string, s: seq<string>)
    ensures multiset(Insert(x, s)) == multiset(s) + multiset{x}
  {
    if s != [] && !LexLe(x, s[0]) {
      InsertPermutes(x, s[1..]);
      assert s == [s[0]] + s[1..];
    }
  }

  lemma {:induction false} InsertSorted(x: string, s: seq<string>)
    requires Sorted(s)
    ensures Sorted(Insert(x, s))
    ensures Insert(x, s) != [] && (Insert(x, s)[0] == x || (s != [] && Insert(x, s)[0] == s[0]))
  {
    if s == [] {
    } else if LexLe(x, s[0]) {
      var r := [x] + s;
      forall i, j | 0 <= i < j < |r| ensures LexLe(r[i], r[j]) {
        if i == 0 {
          if j > 1 { LexLeTransitive(x, s[0], s[j - 1]); }
        }
      }
    } else {
      LexLeTotal(x, s[0]);
      InsertSorted(x, s[1..]);
      InsertPermutes(x, s[1..]);
      var t := Insert(x, s[1..]);
      var r := [s[0]] + t;
      assert multiset(t) == multiset(s[1..]) + multiset{x};
      forall i, j | 0 <= i < j < |r| ensures LexLe(r[i], r[j]) {
        if i == 0 {
          // every element of t is x or an element of s[1..], all at least s[0]
          assert r[j] in multiset(t);
          if r[j] != x {
            assert r[j] in multiset(s[1..]);
            var k :| 0 <= k < |s[1..]| && s[1..][k] == r[j];
            assert s[k + 1] == r[j];
          }
        }
      }
    }
  }

  /** `sorted(names)`: insertion sort. */
  function Sort(s: seq<string>): (r: seq<string>)
    ensures |r| == |s|
  {
    if s == [] then [] else Insert(s[0], Sort(s[1..]))
  }

  /** `sorted()` returns an ordered rearrangement of its argument. */
  lemma {:induction false} SortSorted(s: seq<string>)
    ensures Sorted(Sort(s))
    ensures multiset(Sort(s)) == multiset(s)
  {
    if s != [] {
      SortSorted(s[1..]);
      InsertSorted(s[0], Sort(s[1..]));
      InsertPermutes(s[0], Sort(s[1..]));
      assert s == [s[0]] + s[1..];
    }
  }

  /** The names of a list that are not on the ignore list, in list order. */
  function Without(s: seq<string>, ignore: seq<string>): (r: seq<string>)
  {
    if s == [] then []
    else (if s[0] in ignore then [] else [s[0]]) + Without(s[1..], ignore)
  }
}
