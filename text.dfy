/** String helpers the query builder relies on: Python's `str.join`, the
    code-point order Python uses to compare strings, and `sorted` over the
    keys of a dict (a set) and over a list of names (a sequence). */
module Text {

  /** `sep.join(parts)`: the parts in order, one `sep` between neighbours. */
  function Join(sep: string, parts: seq<string>): string
    decreases |parts|
  {
    if |parts| == 0 then ""
    else if |parts| == 1 then parts[0]
    else parts[0] + sep + Join(sep, parts[1..])
  }

  /** Appending one more part adds exactly one separator, and only between parts. */
  lemma {:induction false} JoinSnoc(sep: string, parts: seq<string>, p: string)
    ensures Join(sep, parts + [p]) == if parts == [] then p else Join(sep, parts) + sep + p
    decreases |parts|
  {
    if |parts| <= 1 {
    } else {
      assert (parts + [p])[1..] == parts[1..] + [p];
      JoinSnoc(sep, parts[1..], p);
    }
  }

  /** A join has no leading and no trailing separator: it starts with the
      first part and ends with the last, and its length is that of the parts
      plus one separator per gap. */
  lemma {:induction false} JoinShape(sep: string, parts: seq<string>)
    requires |parts| > 0
    ensures parts[0] <= Join(sep, parts)
    ensures var j := Join(sep, parts); var last := parts[|parts| - 1];
      |last| <= |j| && j[|j| - |last|..] == last
    ensures |Join(sep, parts)| == TotalLength(parts) + (|parts| - 1) * |sep|
    decreases |parts|
  {
    if |parts| > 1 {
      JoinShape(sep, parts[1..]);
      assert parts[1..][|parts[1..]| - 1] == parts[|parts| - 1];
      var j := Join(sep, parts[1..]);
      assert Join(sep, parts) == (parts[0] + sep) + j;
      assert TotalLength(parts) == |parts[0]| + TotalLength(parts[1..]);
    }
  }

  /** The summed lengths of the parts. */
  function TotalLength(parts: seq<string>): nat
    decreases |parts|
  {
    if parts == [] then 0 else |parts[0]| + TotalLength(parts[1..])
  }

  /** Python's `a < b` on strings: lexicographic by code point. */
  predicate Below(a: string, b: string)
    decreases |a|
  {
    if a == [] then b != []
    else if b == [] then false
    else a[0] < b[0] || (a[0] == b[0] && Below(a[1..], b[1..]))
  }

  lemma {:induction false} BelowIrreflexive(a: string)
    ensures !Below(a, a)
    decreases |a|
  {
    if a != [] { BelowIrreflexive(a[1..]); }
  }

  lemma {:induction false} BelowAsymmetric(a: string, b: string)
    ensures !(Below(a, b) && Below(b, a))
    decreases |a|
  {
    if a != [] && b != [] && a[0] == b[0] { BelowAsymmetric(a[1..], b[1..]); }
  }

  lemma {:induction false} BelowTotal(a: string, b: string)
    ensures a == b || Below(a, b) || Below(b, a)
    decreases |a|
  {
    if a != [] && b != [] && a[0] == b[0] {
      BelowTotal(a[1..], b[1..]);
      if a[1..] == b[1..] { assert a == [a[0]] + a[1..] && b == [b[0]] + b[1..]; }
    }
  }

  lemma {:induction false} BelowTransitive(a: string, b: string, c: string)
    requires Below(a, b) && Below(b, c)
    ensures Below(a, c)
    decreases |a|
  {
    if a != [] && a[0] == b[0] && b[0] == c[0] { BelowTransitive(a[1..], b[1..], c[1..]); }
  }

  /** `m` is the smallest string of `s`. */
  predicate IsLeast(m: string, s: set<string>)
  {
    m in s && forall x :: x in s && x != m ==> Below(m, x)
  }

  /** Every non-empty set of strings has a smallest element. */
  lemma {:induction false} LeastExists(s: set<string>)
    requires s != {}
    ensures exists m :: IsLeast(m, s)
    decreases |s|
  {
    var x :| x in s;
    if s == {x} {
      assert IsLeast(x, s);
    } else {
      LeastExists(s - {x});
      var m :| IsLeast(m, s - {x});
      BelowTotal(m, x);
      if Below(m, x) {
        assert IsLeast(m, s);
      } else {
        forall y | y in s && y != x ensures Below(x, y) {
          if y != m { BelowTransitive(x, m, y); }
        }
        assert IsLeast(x, s);
      }
    }
  }

  /** The smallest string of a non-empty set. */
  function Least(s: set<string>): (m: string)
    requires s != {}
    ensures IsLeast(m, s)
  {
    LeastExists(s);
    assert forall a, b :: IsLeast(a, s) && IsLeast(b, s) ==> a == b by {
      forall a, b | IsLeast(a, s) && IsLeast(b, s) ensures a == b {
        BelowAsymmetric(a, b);
      }
    }
    var m :| IsLeast(m, s);
    m
  }

  /** `sorted(d)` for a dict `d`: its keys, smallest first. */
  function SortedSet(s: set<string>): (r: seq<string>)
    ensures |r| == |s|
    ensures forall x :: x in r <==> x in s
    ensures forall i, j :: 0 <= i < j < |r| ==> Below(r[i], r[j])
    decreases |s|
  {
    if s == {} then []
    else
      var m := Least(s);
      var rest := SortedSet(s - {m});
      assert forall j :: 0 <= j < |rest| ==> rest[j] in s - {m};
      [m] + rest
  }

  /** Non-decreasing in Python's string order. */
  predicate Ascending(r: seq<string>)
  {
    forall i, j :: 0 <= i < j < |r| ==> !Below(r[j], r[i])
  }

  /** Insert one name into an ascending list, keeping it ascending. */
  function Insert(x: string, s: seq<string>): (r: seq<string>)
    requires Ascending(s)
    ensures multiset(r) == multiset(s) + multiset{x}
    ensures forall y :: y in r <==> y in s || y == x
    ensures Ascending(r)
    decreases |s|
  {
    if s == [] then [x]
    else if Below(s[0], x) then
      var tail := Insert(x, s[1..]);
      InsertHeadBelow(x, s, tail);
      assert s == [s[0]] + s[1..];
      [s[0]] + tail
    else
      InsertFront(x, s);
      [x] + s
  }

  lemma InsertHeadBelow(x: string, s: seq<string>, tail: seq<string>)
    requires Ascending(s) && s != [] && Below(s[0], x)
    requires forall y :: y in tail <==> y in s[1..] || y == x
    requires Ascending(tail)
    ensures Ascending([s[0]] + tail)
  {
    forall j | 0 <= j < |tail| ensures !Below(tail[j], s[0]) {
      if tail[j] == x {
        BelowAsymmetric(s[0], x);
      } else {
        assert tail[j] in s[1..];
        var k :| 0 <= k < |s[1..]| && s[1..][k] == tail[j];
        assert s[k + 1] == tail[j];
      }
    }
    var r := [s[0]] + tail;
    forall i, j | 0 <= i < j < |r| ensures !Below(r[j], r[i]) {
      if i > 0 { assert r[i] == tail[i - 1] && r[j] == tail[j - 1]; }
      else { assert r[j] == tail[j - 1]; }
    }
  }

  lemma InsertFront(x: string, s: seq<string>)
    requires Ascending(s) && s != [] && !Below(s[0], x)
    ensures Ascending([x] + s)
  {
    BelowTotal(s[0], x);
    forall j | 0 <= j < |s| ensures !Below(s[j], x) {
      if j > 0 && Below(s[j], x) && s[0] != x {
        BelowTransitive(s[j], x, s[0]);
      }
    }
    var r := [x] + s;
    forall i, j | 0 <= i < j < |r| ensures !Below(r[j], r[i]) {
      if i > 0 { assert r[i] == s[i - 1] && r[j] == s[j - 1]; }
      else { assert r[j] == s[j - 1]; }
    }
  }

  /** `sorted(l)` for a list of names: the same names, duplicates kept, ascending. */
  function SortedSeq(l: seq<string>): (r: seq<string>)
    ensures multiset(r) == multiset(l)
    ensures |r| == |l|
    ensures Ascending(r)
    decreases |l|
  {
    if l == [] then []
    else
      assert l == [l[0]] + l[1..];
      var r := Insert(l[0], SortedSeq(l[1..]));
      assert |r| == |multiset(r)|;
      r
  }
}
