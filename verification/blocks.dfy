/**
  The validator's block-balance heuristic: it counts the matches of
  `/\{\{#(each|if|unless|with)/g` and of `/\{\{\/(each|if|unless|with)/g`
  in the template text and compares the two totals, summed over the four
  block kinds rather than kind by kind.
 */
module Blocks {
  import opened Results
  import opened Text

  /** The four block kinds, in the order the alternation lists them. */
  const Kinds: seq<string> := ["each", "if", "unless", "with"]

  /** The markers `{{` + `lead` + kind; `lead` is `#` for openers and `/` for closers. */
  function Markers(lead: char): (ms: seq<string>)
    ensures |ms| == 4
    ensures forall j :: 0 <= j < 4 ==> ms[j] == "{{" + [lead] + Kinds[j]
  {
    ["{{" + [lead] + "each", "{{" + [lead] + "if", "{{" + [lead] + "unless", "{{" + [lead] + "with"]
  }

  const Openers: seq<string> := Markers('#')
  const Closers: seq<string> := Markers('/')

  /** Every marker begins with `{{` followed by at least one character, and holds no other `{`; so two occurrences never overlap. */
  predicate Braced(ms: seq<string>) {
    forall j :: 0 <= j < |ms| ==>
      |ms[j]| >= 3 && ms[j][0] == '{' && ms[j][1] == '{' && forall i :: 2 <= i < |ms[j]| ==> ms[j][i] != '{'
  }

  lemma MarkersBraced(lead: char)
    requires lead != '{'
    ensures Braced(Markers(lead))
  {
    var ms := Markers(lead);
    forall j, i | 0 <= j < 4 && 3 <= i < |ms[j]| ensures ms[j][i] != '{' {
      assert ms[j][i] == Kinds[j][i - 3];
      assert Kinds[j][i - 3] in Kinds[j];
    }
  }

  /** A character of an occurrence of `w` at `p`. */
  lemma CharOfOccurrence(t: string, p: nat, w: string, i: nat)
    requires OccursAt(t, p, w) && i < |w|
    ensures t[p + i] == w[i]
  {
    assert t[p..p + |w|][i] == w[i];
  }

  /** An occurrence of `w` at `p` starts with the first two characters of `w`. */
  lemma OccurrenceStart(t: string, p: nat, w: string)
    requires |w| >= 2
    ensures OccursAt(t, p, w) ==> t[p] == w[0] && t[p + 1] == w[1]
  {
    if OccursAt(t, p, w) {
      CharOfOccurrence(t, p, w, 0);
      CharOfOccurrence(t, p, w, 1);
    }
  }

  /** The alternative of the regular expression that matches at `p`: the first of `ms` occurring there. */
  function MarkerAt(t: string, p: nat, ms: seq<string>): (w: Option<string>)
    ensures w.Some? ==> w.value in ms && OccursAt(t, p, w.value)
    ensures w.None? ==> forall j :: 0 <= j < |ms| ==> !OccursAt(t, p, ms[j])
    decreases |ms|
  {
    if |ms| == 0 then None
    else if OccursAt(t, p, ms[0]) then Some(ms[0])
    else
      var w := MarkerAt(t, p, ms[1..]);
      assert forall j :: 1 <= j < |ms| ==> ms[j] == ms[1..][j - 1];
      w
  }

  /**
    `(t.match(re) || []).length` for the global alternation of `ms`, once
    `lastIndex` has reached `i`: each match is the leftmost at or after
    `lastIndex`, and the search resumes at its end.
   */
  function MatchCount(t: string, ms: seq<string>, i: nat): nat
    requires Braced(ms)
    decreases |t| - i
  {
    if i >= |t| then 0
    else
      match MarkerAt(t, i, ms)
      case Some(w) =>
        assert |w| >= 2;
        1 + MatchCount(t, ms, i + |w|)
      case None => MatchCount(t, ms, i + 1)
  }

  /** The number of positions at or after `i` where some marker of `ms` occurs. */
  function Occurrences(t: string, ms: seq<string>, i: nat): nat
    decreases |t| - i
  {
    if i >= |t| then 0
    else (if MarkerAt(t, i, ms).Some? then 1 else 0) + Occurrences(t, ms, i + 1)
  }

  /** Inside an occurrence of a braced marker no other marker starts. */
  lemma NoMarkerInside(t: string, ms: seq<string>, p: nat, w: string, q: nat)
    requires Braced(ms) && w in ms && OccursAt(t, p, w)
    requires p < q < p + |w|
    ensures MarkerAt(t, q, ms).None?
  {
    if q == p + 1 {
      CharOfOccurrence(t, p, w, 2);
    } else {
      CharOfOccurrence(t, p, w, q - p);
    }
    forall j | 0 <= j < |ms| ensures !OccursAt(t, q, ms[j]) {
      OccurrenceStart(t, q, ms[j]);
    }
  }

  /** Counting occurrences is unaffected by a stretch where none starts. */
  lemma {:induction false} OccurrencesSkip(t: string, ms: seq<string>, a: nat, b: nat)
    requires a <= b <= |t|
    requires forall q :: a <= q < b ==> MarkerAt(t, q, ms).None?
    ensures Occurrences(t, ms, a) == Occurrences(t, ms, b)
    decreases b - a
  {
    if a < b {
      OccurrencesSkip(t, ms, a + 1, b);
    }
  }

  /**
    The regular expression's count, which jumps over each match, equals the
    number of positions where a marker occurs: jumping loses nothing, as
    braced markers cannot overlap.
   */
  lemma {:induction false} MatchCountIsOccurrences(t: string, ms: seq<string>, i: nat)
    requires Braced(ms)
    ensures MatchCount(t, ms, i) == Occurrences(t, ms, i)
    decreases |t| - i
  {
    if i < |t| {
      match MarkerAt(t, i, ms)
      case Some(w) =>
        MatchCountIsOccurrences(t, ms, i + |w|);
        forall q | i + 1 <= q < i + |w| ensures MarkerAt(t, q, ms).None? {
          NoMarkerInside(t, ms, i, w, q);
        }
        OccurrencesSkip(t, ms, i + 1, i + |w|);
      case None =>
        MatchCountIsOccurrences(t, ms, i + 1);
    }
  }

  /**
    The total a global regular expression over `ms` reports for the whole
    text: the number of positions where one of the markers occurs.
   */
  function Count(t: string, ms: seq<string>): (n: nat)
    requires Braced(ms)
    ensures n == Occurrences(t, ms, 0)
  {
    MatchCountIsOccurrences(t, ms, 0);
    MatchCount(t, ms, 0)
  }

  /** The number of block openers: the positions where `{{#each`, `{{#if`, `{{#unless` or `{{#with` starts. */
  function OpenerCount(t: string): (n: nat)
    ensures n == Occurrences(t, Openers, 0)
  {
    MarkersBraced('#');
    Count(t, Openers)
  }

  /** The number of block closers: the positions where `{{/each`, `{{/if`, `{{/unless` or `{{/with` starts. */
  function CloserCount(t: string): (n: nat)
    ensures n == Occurrences(t, Closers, 0)
  {
    MarkersBraced('/');
    Count(t, Closers)
  }

  /**
    The occurrences of the marker of kind `Kinds[j]` alone, as
    `t.match(/\{\{#each/g)` would count them for `lead` `#` and `j` 0.
   */
  function KindCount(t: string, lead: char, j: nat): nat
    requires lead != '{' && j < 4
  {
    MarkersBraced(lead);
    Count(t, [Markers(lead)[j]])
  }

  /** At any position, at most one of the four markers for a lead character occurs. */
  lemma {:induction false} OneKindAtATime(t: string, lead: char, p: nat)
    ensures (if MarkerAt(t, p, Markers(lead)).Some? then 1 else 0)
         == (if MarkerAt(t, p, [Markers(lead)[0]]).Some? then 1 else 0)
          + (if MarkerAt(t, p, [Markers(lead)[1]]).Some? then 1 else 0)
          + (if MarkerAt(t, p, [Markers(lead)[2]]).Some? then 1 else 0)
          + (if MarkerAt(t, p, [Markers(lead)[3]]).Some? then 1 else 0)
  {
    var ms := Markers(lead);
    forall j | 0 <= j < 4 && OccursAt(t, p, ms[j]) ensures t[p + 3] == Kinds[j][0] {
      CharOfOccurrence(t, p, ms[j], 3);
    }
    forall j | 0 <= j < 4 ensures MarkerAt(t, p, [ms[j]]).Some? <==> OccursAt(t, p, ms[j]) {
      assert [ms[j]][0] == ms[j];
    }
  }

  lemma {:induction false} OccurrencesSumOverKinds(t: string, lead: char, i: nat)
    ensures Occurrences(t, Markers(lead), i)
         == Occurrences(t, [Markers(lead)[0]], i) + Occurrences(t, [Markers(lead)[1]], i)
          + Occurrences(t, [Markers(lead)[2]], i) + Occurrences(t, [Markers(lead)[3]], i)
    decreases |t| - i
  {
    if i < |t| {
      OneKindAtATime(t, lead, i);
      OccurrencesSumOverKinds(t, lead, i + 1);
    }
  }

  /**
    The aggregate count is the sum of the four per-kind counts: the check
    compares totals, so an extra opener of one kind is masked by an extra
    closer of another.
   */
  lemma AggregateIsSumOfKinds(t: string, lead: char)
    requires lead != '{'
    ensures Braced(Markers(lead))
    ensures Count(t, Markers(lead))
         == KindCount(t, lead, 0) + KindCount(t, lead, 1) + KindCount(t, lead, 2) + KindCount(t, lead, 3)
  {
    var ms := Markers(lead);
    MarkersBraced(lead);
    MatchCountIsOccurrences(t, ms, 0);
    MatchCountIsOccurrences(t, [ms[0]], 0);
    MatchCountIsOccurrences(t, [ms[1]], 0);
    MatchCountIsOccurrences(t, [ms[2]], 0);
    MatchCountIsOccurrences(t, [ms[3]], 0);
    OccurrencesSumOverKinds(t, lead, 0);
  }

  /** The openers of the four kinds, summed. */
  lemma OpenersSumOverKinds(t: string)
    ensures OpenerCount(t) == KindCount(t, '#', 0) + KindCount(t, '#', 1) + KindCount(t, '#', 2) + KindCount(t, '#', 3)
  {
    AggregateIsSumOfKinds(t, '#');
  }

  /** The closers of the four kinds, summed. */
  lemma ClosersSumOverKinds(t: string)
    ensures CloserCount(t) == KindCount(t, '/', 0) + KindCount(t, '/', 1) + KindCount(t, '/', 2) + KindCount(t, '/', 3)
  {
    AggregateIsSumOfKinds(t, '/');
  }
}
