/**
  The order `Array.prototype.sort` uses when it is given no comparator,
  restricted to the strings the variable scanner produces: two strings are
  compared character by character and a proper prefix comes first. The
  scanner's names are ASCII, so comparing characters agrees with comparing
  the UTF-16 code units JavaScript compares.
 */
module StringOrder {

  /** `a` sorts strictly before `b`. */
  predicate Less(a: string, b: string)
    decreases |a|
  {
    if |a| == 0 then |b| > 0
    else if |b| == 0 then false
    else a[0] < b[0] || (a[0] == b[0] && Less(a[1..], b[1..]))
  }

  lemma {:induction false} LessIrreflexive(a: string)
    ensures !Less(a, a)
    decreases |a|
  {
    if |a| > 0 {
      LessIrreflexive(a[1..]);
    }
  }

  lemma {:induction false} LessAsymmetric(a: string, b: string)
    requires Less(a, b)
    ensures !Less(b, a)
    decreases |a|
  {
    if |a| > 0 && a[0] == b[0] {
      LessAsymmetric(a[1..], b[1..]);
    }
  }

  lemma {:induction false} LessTransitive(a: string, b: string, c: string)
    requires Less(a, b) && Less(b, c)
    ensures Less(a, c)
    decreases |a|
  {
    if |a| > 0 && a[0] == b[0] && b[0] == c[0] {
      LessTransitive(a[1..], b[1..], c[1..]);
    }
  }

  lemma {:induction false} LessTotal(a: string, b: string)
    requires a != b
    ensures Less(a, b) || Less(b, a)
    decreases |a|
  {
    if |a| > 0 && |b| > 0 && a[0] == b[0] {
      assert a == [a[0]] + a[1..] && b == [b[0]] + b[1..];
      LessTotal(a[1..], b[1..]);
    }
  }

  /** Every element sorts strictly before every later one. */
  predicate StrictlySorted(s: seq<string>) {
    forall i, j :: 0 <= i < j < |s| ==> Less(s[i], s[j])
  }

  /** The elements of `s`, as a set. */
  function Elems(s: seq<string>): set<string> {
    set x | x in s
  }

  lemma HeadInElems(s: seq<string>)
    ensures |s| > 0 ==> s[0] in Elems(s)
  {
  }

  /** A strictly sorted list holds no element twice. */
  lemma SortedHasNoDuplicates(s: seq<string>)
    requires StrictlySorted(s)
    ensures forall i, j :: 0 <= i < j < |s| ==> s[i] != s[j]
  {
    forall i, j | 0 <= i < j < |s| ensures s[i] != s[j] {
      LessIrreflexive(s[i]);
    }
  }

  /** Putting a new least element in front keeps a list strictly sorted. */
  lemma PrependSorted(x: string, s: seq<string>)
    requires StrictlySorted(s) && |s| > 0 && Less(x, s[0])
    ensures StrictlySorted([x] + s)
  {
    var r := [x] + s;
    forall i, j | 0 <= i < j < |r| ensures Less(r[i], r[j]) {
      if i == 0 && j > 1 {
        LessTransitive(x, s[0], s[j - 1]);
      }
    }
  }

  /** The elements of a list with one more in front. */
  lemma ElemsCons(y: string, s: seq<string>)
    ensures Elems([y] + s) == {y} + Elems(s)
  {
    assert forall z :: z in [y] + s <==> z == y || z in s;
  }

  /** A list stays strictly sorted when an element below all of its own goes in front. */
  lemma ConsSorted(y: string, s: seq<string>)
    requires StrictlySorted(s)
    requires forall z :: z in Elems(s) ==> Less(y, z)
    ensures StrictlySorted([y] + s)
  {
    var r := [y] + s;
    forall i, j | 0 <= i < j < |r| ensures Less(r[i], r[j]) {
      if i == 0 {
        assert r[j] == s[j - 1] && s[j - 1] in Elems(s);
      } else {
        assert r[i] == s[i - 1] && r[j] == s[j - 1];
      }
    }
  }

  /** Adds `x` to a strictly sorted list unless it is already there. */
  function Insert(s: seq<string>, x: string): (r: seq<string>)
    requires StrictlySorted(s)
    ensures StrictlySorted(r)
    ensures Elems(r) == Elems(s) + {x}
    decreases |s|
  {
    if |s| == 0 then [x]
    else if x == s[0] then
      ElemsCons(s[0], s[1..]);
      assert s == [s[0]] + s[1..];
      s
    else if Less(x, s[0]) then
      PrependSorted(x, s);
      ElemsCons(x, s);
      [x] + s
    else
      LessTotal(x, s[0]);
      var tail := Insert(s[1..], x);
      assert s == [s[0]] + s[1..];
      ElemsCons(s[0], s[1..]);
      ElemsCons(s[0], tail);
      forall y | y in Elems(tail) ensures Less(s[0], y) {
        if y != x {
          var i :| 0 <= i < |s| - 1 && s[1..][i] == y;
          assert s[i + 1] == y;
        }
      }
      ConsSorted(s[0], tail);
      [s[0]] + tail
  }

  /**
    The elements of `xs` in ascending order, each once: the model of
    `Array.from(new Set(xs)).sort()`.
   */
  function SortedSet(xs: seq<string>): (r: seq<string>)
    ensures StrictlySorted(r)
    ensures Elems(r) == Elems(xs)
    decreases |xs|
  {
    if |xs| == 0 then []
    else
      var init := xs[..|xs| - 1];
      assert xs == init + [xs[|xs| - 1]];
      Insert(SortedSet(init), xs[|xs| - 1])
  }

  /**
    A strictly sorted list is determined by its set of elements: the order in
    which names were found cannot show through the sort.
   */
  lemma {:induction false} SortedDeterminedByElems(a: seq<string>, b: seq<string>)
    requires StrictlySorted(a) && StrictlySorted(b)
    requires Elems(a) == Elems(b)
    ensures a == b
    decreases |a|
  {
    if |a| == 0 {
      HeadInElems(b);
    } else {
      assert a[0] in Elems(b);
      assert |b| > 0;
      assert b[0] in Elems(a);
      var j :| 0 <= j < |a| && a[j] == b[0];
      var k :| 0 <= k < |b| && b[k] == a[0];
      if a[0] != b[0] {
        assert Less(a[0], a[j]) && Less(b[0], b[k]);
        LessAsymmetric(a[0], b[0]);
        assert false;
      }
      SortedHasNoDuplicates(a);
      SortedHasNoDuplicates(b);
      assert a == [a[0]] + a[1..] && b == [b[0]] + b[1..];
      assert Elems(a[1..]) == Elems(a) - {a[0]};
      assert Elems(b[1..]) == Elems(b) - {b[0]};
      SortedDeterminedByElems(a[1..], b[1..]);
    }
  }
}
