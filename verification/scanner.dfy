/**
  The validator's variable scanner (`extractVariables`): five regular
  expressions run over the template text, each with the `g` flag, and the
  root segment of every matched path is collected into a set, minus the
  built-in context names, then sorted.
 */
module Scanner {
  import opened Results
  import opened Text
  import opened StringOrder

  predicate IsLetter(c: char) {
    'a' <= c <= 'z' || 'A' <= c <= 'Z'
  }

  predicate IsDigit(c: char) {
    '0' <= c <= '9'
  }

  /** `[a-zA-Z_]`: the first character of a path. */
  predicate IsNameStart(c: char) {
    IsLetter(c) || c == '_'
  }

  /** `[a-zA-Z0-9_]`: a character of a root name. */
  predicate IsWordChar(c: char) {
    IsLetter(c) || IsDigit(c) || c == '_'
  }

  /** `[a-zA-Z0-9_\.]`: a character of a dotted path. */
  predicate IsPathChar(c: char) {
    IsWordChar(c) || c == '.'
  }

  /** JavaScript's `\s`: the WhiteSpace and LineTerminator code points of ECMAScript. */
  predicate IsSpace(c: char) {
    || c == '\t' || c == '\n' || c == '\U{0B}' || c == '\U{0C}' || c == '\r' || c == ' '
    || c == '\U{A0}' || c == '\U{1680}' || '\U{2000}' <= c <= '\U{200A}'
    || c == '\U{2028}' || c == '\U{2029}' || c == '\U{202F}' || c == '\U{205F}'
    || c == '\U{3000}' || c == '\U{FEFF}'
  }

  /** A dotted path as the capture group `[a-zA-Z_][a-zA-Z0-9_\.]*` matches it. */
  predicate IsPath(s: string) {
    |s| > 0 && IsNameStart(s[0]) && forall i :: 0 <= i < |s| ==> IsPathChar(s[i])
  }

  /** A name the scanner can report: a path start followed by word characters, no dot. */
  predicate IsRootName(s: string) {
    |s| > 0 && IsNameStart(s[0]) && forall i :: 0 <= i < |s| ==> IsWordChar(s[i])
  }

  /** The end of the longest run of characters of class `cls` in `t` from index `i`. */
  function Span(t: string, i: nat, cls: char -> bool): (j: nat)
    requires i <= |t|
    ensures i <= j <= |t|
    ensures forall k :: i <= k < j ==> cls(t[k])
    ensures j == |t| || !cls(t[j])
    decreases |t| - i
  {
    if i < |t| && cls(t[i]) then Span(t, i + 1, cls) else i
  }

  /** The five directive shapes: `{{name}}`, `{{#each name}}`, `{{#if name}}`, `{{#unless name}}`, `{{#with name}}`. */
  datatype Shape = Substitution | EachBlock | IfBlock | UnlessBlock | WithBlock

  /** The literal text each shape's pattern begins with. */
  function Opening(k: Shape): (open: string)
    ensures |open| >= 2 && open[0] == '{' && open[1] == '{'
    ensures forall i :: 2 <= i < |open| ==> open[i] != '{'
  {
    match k
    case Substitution => "{{"
    case EachBlock => "{{#each"
    case IfBlock => "{{#if"
    case UnlessBlock => "{{#unless"
    case WithBlock => "{{#with"
  }

  /** One regular-expression match: the captured path and the index just past the closing `}}`. */
  datatype Match = Match(path: string, end: nat)

  /** An occurrence of shape `k`'s opening starts with `{{` and has no other `{`. */
  lemma OpeningAt(t: string, p: nat, k: Shape)
    requires OccursAt(t, p, Opening(k))
    ensures t[p] == '{' && t[p + 1] == '{'
    ensures forall i :: p + 2 <= i < p + |Opening(k)| ==> t[i] != '{'
  {
    var open := Opening(k);
    assert forall i :: p <= i < p + |open| ==> t[i] == open[i - p] by {
      assert t[p..p + |open|] == open;
    }
  }

  /**
    The rest of a pattern once its opening has matched, from index `q`: for
    a block shape (`spaced`) the run `\s+`, then the captured path, then
    `}}`. The quantifiers `\s+` and `[...]*` are greedy and what follows each
    of them cannot start with a character they consume, so backtracking
    never finds a second match and the longest runs decide.
   */
  function PathAt(t: string, q: nat, spaced: bool): (m: Option<Match>)
    requires q <= |t|
    ensures m.Some? ==> q + 3 <= m.value.end <= |t|
    ensures m.Some? ==> IsPath(m.value.path)
    ensures m.Some? ==> forall i :: q <= i < m.value.end ==> t[i] != '{'
  {
    var s := if spaced then Span(t, q, IsSpace) else q;
    if spaced && s == q then None
    else if s == |t| || !IsNameStart(t[s]) then None
    else
      var e := Span(t, s + 1, IsPathChar);
      if OccursAt(t, e, "}}") then
        assert t[e] == '}' && t[e + 1] == '}' by {
          assert t[e..e + 2] == "}}";
        }
        Some(Match(t[s..e], e + 2))
      else None
  }

  /**
    The match of shape `k`'s pattern that starts exactly at index `p`, if
    any. `MatchAtSound` and `DirectiveMatches` characterise it.
   */
  function MatchAt(t: string, p: nat, k: Shape): (m: Option<Match>)
    ensures m.Some? ==> p + 5 <= m.value.end <= |t|
    ensures m.Some? ==> IsPath(m.value.path)
    ensures m.Some? ==> t[p] == '{' && t[p + 1] == '{'
    ensures m.Some? ==> forall i :: p + 2 <= i < m.value.end ==> t[i] != '{'
  {
    if !OccursAt(t, p, Opening(k)) then None
    else
      OpeningAt(t, p, k);
      PathAt(t, p + |Opening(k)|, k != Substitution)
  }

  /**
    The text from `q` that the match `m` stands for: white space (some
    exactly when `spaced`), then the captured path, then `}}` ending at
    `m.end`.
   */
  predicate PathShaped(t: string, q: nat, spaced: bool, m: Match) {
    var s := m.end - 2 - |m.path|;
    && q <= s
    && OccursAt(t, s, m.path)
    && OccursAt(t, m.end - 2, "}}")
    && (spaced <==> q < s)
    && forall i :: q <= i < s ==> IsSpace(t[i])
  }

  /** What follows an opening when it matches has the shape `PathShaped` describes. */
  lemma PathAtSound(t: string, q: nat, spaced: bool)
    requires q <= |t| && PathAt(t, q, spaced).Some?
    ensures PathShaped(t, q, spaced, PathAt(t, q, spaced).value)
  {
    var s := if spaced then Span(t, q, IsSpace) else q;
    var e := Span(t, s + 1, IsPathChar);
    assert OccursAt(t, s, t[s..e]);
  }

  /**
    A match of shape `k` at `p` is the opening, white space (a non-empty
    run for a block shape, none for a substitution), the captured path and
    `}}`.
   */
  lemma MatchAtSound(t: string, p: nat, k: Shape)
    requires MatchAt(t, p, k).Some?
    ensures OccursAt(t, p, Opening(k))
    ensures PathShaped(t, p + |Opening(k)|, k != Substitution, MatchAt(t, p, k).value)
  {
    PathAtSound(t, p + |Opening(k)|, k != Substitution);
  }

  /** Shape `k`'s pattern matches at `p` and captures `path`. */
  ghost predicate MatchesWith(t: string, p: nat, k: Shape, path: string) {
    MatchAt(t, p, k).Some? && MatchAt(t, p, k).value.path == path
  }

  /** No match of any shape starts strictly inside another match: a later match starts at or after the earlier one's end. */
  lemma MatchesDoNotOverlap(t: string, p: nat, k: Shape, q: nat, k': Shape)
    requires MatchAt(t, p, k).Some? && MatchAt(t, q, k').Some?
    requires p < q
    ensures MatchAt(t, p, k).value.end <= q
  {
    assert t[q] == '{' && t[q + 1] == '{';
  }

  /**
    The paths the loop `while ((match = pattern.exec(template)) !== null)`
    collects for shape `k` once `lastIndex` has reached `i`: each `exec`
    returns the leftmost match at or after `lastIndex` and moves `lastIndex`
    to the end of that match.
   */
  function Scan(t: string, k: Shape, i: nat): (paths: seq<string>)
    ensures forall j :: 0 <= j < |paths| ==> IsPath(paths[j])
    decreases |t| - i
  {
    if i >= |t| then []
    else
      match MatchAt(t, i, k)
      case Some(m) => [m.path] + Scan(t, k, m.end)
      case None => Scan(t, k, i + 1)
  }

  /**
    After a match at `i`, a path matches somewhere from `i` on exactly when
    it is the captured one or it matches somewhere from the match's end on.
   */
  lemma MatchesFromAMatch(t: string, k: Shape, i: nat, m: Match, path: string)
    requires MatchAt(t, i, k) == Some(m)
    ensures (exists p: nat :: i <= p && MatchesWith(t, p, k, path))
        <==> path == m.path || exists p: nat :: m.end <= p && MatchesWith(t, p, k, path)
  {
    if path == m.path {
      assert MatchesWith(t, i, k, path);
    } else if exists p: nat :: i <= p && MatchesWith(t, p, k, path) {
      var p: nat :| i <= p && MatchesWith(t, p, k, path);
      assert p != i;
      MatchesDoNotOverlap(t, i, k, p, k);
    }
  }

  /** Where no match starts at `i`, matching from `i` on is matching from `i + 1` on. */
  lemma MatchesPastANonMatch(t: string, k: Shape, i: nat, path: string)
    requires MatchAt(t, i, k).None?
    ensures (exists p: nat :: i <= p && MatchesWith(t, p, k, path))
        <==> exists p: nat :: i + 1 <= p && MatchesWith(t, p, k, path)
  {
    assert !MatchesWith(t, i, k, path);
  }

  /**
    The exec loop finds every match: a path is collected from index `i` on
    exactly when the pattern matches it at some start position at or after
    `i`. Jumping over each match loses nothing because matches never
    overlap.
   */
  lemma {:induction false} ScanFindsEveryMatch(t: string, k: Shape, i: nat, path: string)
    ensures path in Scan(t, k, i) <==> exists p: nat :: i <= p && MatchesWith(t, p, k, path)
    decreases |t| - i
  {
    if i >= |t| {
      forall p: nat | i <= p ensures !MatchesWith(t, p, k, path) {
      }
    } else {
      match MatchAt(t, i, k)
      case Some(m) =>
        ScanFindsEveryMatch(t, k, m.end, path);
        MatchesFromAMatch(t, k, i, m, path);
      case None =>
        ScanFindsEveryMatch(t, k, i + 1, path);
        MatchesPastANonMatch(t, k, i, path);
    }
  }

  /** `path.split('.')[0]`: the path up to its first dot. */
  function Root(path: string): (r: string)
    ensures |r| <= |path| && path[..|r|] == r
    ensures forall i :: 0 <= i < |r| ==> r[i] != '.'
    ensures |r| == |path| || path[|r|] == '.'
  {
    path[..Span(path, 0, c => c != '.')]
  }

  /** The root of `a.b` is `a`, whatever `b` holds, and a dot-free path is its own root. */
  lemma {:induction false} RootBeforeFirstDot(a: string, b: string)
    requires forall i :: 0 <= i < |a| ==> a[i] != '.'
    ensures Root(a + "." + b) == a
    ensures Root(a) == a
  {
    var p := a + "." + b;
    assert p[|a|] == '.';
    assert forall i :: 0 <= i < |a| ==> p[i] == a[i];
    assert Root(p) == p[..|a|] == a;
  }

  /** The root of a dotted path is a dot-free name. */
  lemma RootOfPath(path: string)
    requires IsPath(path)
    ensures IsRootName(Root(path))
  {
    var j := Span(path, 0, c => c != '.');
    assert j > 0;
    assert forall i :: 0 <= i < j ==> path[i] != '.' && IsPathChar(path[i]);
  }

  /** The names `extractVariables` skips: the current item and the loop metadata. */
  predicate IsBuiltin(name: string) {
    name == "this" || name == "@index" || name == "@key" || name == "@first" || name == "@last"
  }

  /** The roots of `paths`, in order, with the built-in names left out. */
  function Roots(paths: seq<string>): (roots: seq<string>)
    ensures forall j :: 0 <= j < |paths| && !IsBuiltin(Root(paths[j])) ==> Root(paths[j]) in roots
    ensures forall v :: v in roots ==> !IsBuiltin(v) && exists j :: 0 <= j < |paths| && Root(paths[j]) == v
    decreases |paths|
  {
    if |paths| == 0 then []
    else
      var r := Root(paths[0]);
      var rest := Roots(paths[1..]);
      assert forall j :: 1 <= j < |paths| ==> paths[j] == paths[1..][j - 1];
      (if IsBuiltin(r) then [] else [r]) + rest
  }

  /** The `patterns` array, in source order. */
  const Patterns: seq<Shape> := [Substitution, EachBlock, IfBlock, UnlessBlock, WithBlock]

  lemma EveryShapeIsAPattern(k: Shape)
    ensures k in Patterns
  {
    match k
    case Substitution => assert Patterns[0] == k;
    case EachBlock => assert Patterns[1] == k;
    case IfBlock => assert Patterns[2] == k;
    case UnlessBlock => assert Patterns[3] == k;
    case WithBlock => assert Patterns[4] == k;
  }

  /** Every path the patterns `ks` capture, pattern by pattern. */
  function PathsOf(t: string, ks: seq<Shape>): seq<string>
    decreases |ks|
  {
    if |ks| == 0 then [] else Scan(t, ks[0], 0) + PathsOf(t, ks[1..])
  }

  /** Every path the five patterns capture. */
  function AllPaths(t: string): seq<string> {
    PathsOf(t, Patterns)
  }

  lemma {:induction false} PathsOfMembers(t: string, ks: seq<Shape>, path: string)
    ensures path in PathsOf(t, ks) <==> exists k :: k in ks && path in Scan(t, k, 0)
    decreases |ks|
  {
    if |ks| > 0 {
      PathsOfMembers(t, ks[1..], path);
      if path in Scan(t, ks[0], 0) {
        assert ks[0] in ks;
      }
      if exists k :: k in ks && path in Scan(t, k, 0) {
        var k :| k in ks && path in Scan(t, k, 0);
        if k != ks[0] {
          assert k in ks[1..];
        }
      }
    }
  }

  /** A path is captured by one of the five patterns exactly when some shape matches it at some position. */
  lemma AllPathsAreMatches(t: string, path: string)
    ensures path in AllPaths(t) <==> exists k: Shape, p: nat :: MatchesWith(t, p, k, path)
  {
    PathsOfMembers(t, Patterns, path);
    if path in AllPaths(t) {
      var k :| k in Patterns && path in Scan(t, k, 0);
      ScanFindsEveryMatch(t, k, 0, path);
      var p: nat :| MatchesWith(t, p, k, path);
    } else {
      forall k: Shape, p: nat ensures !MatchesWith(t, p, k, path) {
        EveryShapeIsAPattern(k);
        ScanFindsEveryMatch(t, k, 0, path);
      }
    }
  }

  /** `extractVariables(template)`: the sorted, duplicate-free root names the template references. */
  function ExtractVariables(t: string): (vars: seq<string>)
    ensures StrictlySorted(vars)
    ensures forall i, j :: 0 <= i < j < |vars| ==> vars[i] != vars[j]
  {
    var vars := SortedSet(Roots(AllPaths(t)));
    SortedHasNoDuplicates(vars);
    vars
  }

  /** Some directive of some shape in `t` has a path whose root is `v`. */
  ghost predicate Referenced(t: string, v: string) {
    exists k: Shape, p: nat, path: string :: MatchesWith(t, p, k, path) && Root(path) == v
  }

  lemma ExtractVariablesAreRoots(t: string, v: string)
    ensures v in ExtractVariables(t) <==> v in Roots(AllPaths(t))
  {
    assert v in ExtractVariables(t) <==> v in Elems(ExtractVariables(t));
    assert v in Roots(AllPaths(t)) <==> v in Elems(Roots(AllPaths(t)));
  }

  /**
    A name is reported exactly when some occurrence of one of the five
    directive shapes has it as the root of its path and it is not a
    built-in name.
   */
  lemma ExtractVariablesFindsReferences(t: string, v: string)
    ensures v in ExtractVariables(t) <==> Referenced(t, v) && !IsBuiltin(v)
  {
    var paths := AllPaths(t);
    ExtractVariablesAreRoots(t, v);
    if Referenced(t, v) && !IsBuiltin(v) {
      var k: Shape, p: nat, path: string :| MatchesWith(t, p, k, path) && Root(path) == v;
      AllPathsAreMatches(t, path);
      var j :| 0 <= j < |paths| && paths[j] == path;
      assert Root(paths[j]) == v;
    }
    if v in Roots(paths) {
      var j :| 0 <= j < |paths| && Root(paths[j]) == v;
      AllPathsAreMatches(t, paths[j]);
      var k: Shape, p: nat :| MatchesWith(t, p, k, paths[j]);
    }
  }

  /**
    Every reported name is a root segment (a letter or `_`, then letters,
    digits and `_`, never a dot), and no built-in name is reported. The
    names `@index`, `@key`, `@first` and `@last` could not be captured in the
    first place, as `@` is not a path character.
   */
  lemma ExtractedNamesAreRoots(t: string)
    ensures forall v :: v in ExtractVariables(t) ==> IsRootName(v) && !IsBuiltin(v)
  {
    forall v | v in ExtractVariables(t) ensures IsRootName(v) && !IsBuiltin(v) {
      ExtractVariablesFindsReferences(t, v);
      var k: Shape, p: nat, path: string :| MatchesWith(t, p, k, path) && Root(path) == v;
      RootOfPath(path);
    }
  }

  /** The root of a dot-free name is the name itself. */
  lemma RootOfRootName(name: string)
    requires IsRootName(name)
    ensures Root(name) == name
  {
    var j := Span(name, 0, c => c != '.');
    assert forall i :: 0 <= i < |name| ==> name[i] != '.' by {
      forall i | 0 <= i < |name| ensures name[i] != '.' {
        assert IsWordChar(name[i]);
      }
    }
    assert j == |name|;
  }

  /** The characters of an occurrence of `w` at `p`. */
  lemma OccurrenceChars(t: string, p: nat, w: string)
    requires OccursAt(t, p, w)
    ensures forall i :: 0 <= i < |w| ==> t[p + i] == w[i]
  {
    assert t[p..p + |w|] == w;
  }

  /** An occurrence of `a + b` is an occurrence of `a` followed by one of `b`. */
  lemma OccurrenceSplits(t: string, p: nat, a: string, b: string)
    requires OccursAt(t, p, a + b)
    ensures OccursAt(t, p, a) && OccursAt(t, p + |a|, b)
  {
    OccurrenceChars(t, p, a + b);
    assert t[p..p + |a|] == a by {
      forall i | 0 <= i < |a| ensures t[p..p + |a|][i] == a[i] {
        assert (a + b)[i] == a[i];
      }
    }
    assert t[p + |a|..p + |a| + |b|] == b by {
      forall i | 0 <= i < |b| ensures t[p + |a|..p + |a| + |b|][i] == b[i] {
        assert t[p + |a| + i] == (a + b)[|a| + i] == b[i];
      }
    }
  }

  /**
    After an opening at `q`: white space up to `s` (some exactly when
    `spaced`), a path from `s` to `e`, and `}}` at `e`, is a match capturing
    that path.
   */
  lemma PathAtFinds(t: string, q: nat, s: nat, e: nat, spaced: bool)
    requires q <= s < e && e + 2 <= |t|
    requires spaced <==> q < s
    requires forall i :: q <= i < s ==> IsSpace(t[i])
    requires IsNameStart(t[s]) && forall i :: s < i < e ==> IsPathChar(t[i])
    requires t[e] == '}' && t[e + 1] == '}'
    ensures PathAt(t, q, spaced) == Some(Match(t[s..e], e + 2))
  {
    if spaced {
      assert !IsSpace(t[s]);
      SpanStopsAt(t, q, s, IsSpace);
    }
    assert !IsPathChar(t[e]);
    SpanStopsAt(t, s + 1, e, IsPathChar);
    ClosingAt(t, e);
    PathAtFromSpans(t, q, s, e, spaced);
  }

  /** `PathAt` read off the two spans it measures and the `}}` after them. */
  lemma PathAtFromSpans(t: string, q: nat, s: nat, e: nat, spaced: bool)
    requires q <= s < e <= |t|
    requires (if spaced then Span(t, q, IsSpace) else q) == s
    requires spaced ==> q < s
    requires IsNameStart(t[s]) && Span(t, s + 1, IsPathChar) == e
    requires OccursAt(t, e, "}}")
    ensures PathAt(t, q, spaced) == Some(Match(t[s..e], e + 2))
  {
  }

  /** Two closing braces as characters are an occurrence of `}}`. */
  lemma ClosingAt(t: string, e: nat)
    requires e + 2 <= |t| && t[e] == '}' && t[e + 1] == '}'
    ensures OccursAt(t, e, "}}")
  {
    assert t[e..e + 2] == "}}";
  }


  /** White space, a path and `}}`, as characters of the text. */
  lemma DirectiveChars(t: string, q: nat, ws: string, name: string)
    requires OccursAt(t, q, ws + name + "}}") && IsPath(name)
    requires forall i :: 0 <= i < |ws| ==> IsSpace(ws[i])
    ensures var s := q + |ws|;
      var e := s + |name|;
      && e + 2 <= |t|
      && (forall i :: q <= i < s ==> IsSpace(t[i]))
      && IsNameStart(t[s]) && (forall i :: s < i < e ==> IsPathChar(t[i]))
      && t[e] == '}' && t[e + 1] == '}'
      && t[s..e] == name
  {
    var s := q + |ws|;
    var e := s + |name|;
    OccurrenceSplits(t, q, ws + name, "}}");
    OccurrenceSplits(t, q, ws, name);
    OccurrenceChars(t, q, ws);
    OccurrenceChars(t, s, name);
    OccurrenceChars(t, e, "}}");
    forall i | q <= i < s ensures IsSpace(t[i]) {
      assert t[q + (i - q)] == ws[i - q];
    }
    forall i | s < i < e ensures IsPathChar(t[i]) {
      assert t[s + (i - s)] == name[i - s];
    }
  }

  /** Once the opening occurs, the match is decided by what follows it. */
  lemma MatchAfterOpening(t: string, p: nat, k: Shape, m: Match)
    requires OccursAt(t, p, Opening(k))
    requires PathAt(t, p + |Opening(k)|, k != Substitution) == Some(m)
    ensures MatchAt(t, p, k) == Some(m)
  {
  }

  /**
    The converse of `MatchAt`: shape `k`'s opening at `p`, followed by
    white space as the shape demands, a path and `}}`, is a match capturing
    that path.
   */
  lemma DirectiveMatches(t: string, p: nat, k: Shape, ws: string, name: string)
    requires OccursAt(t, p, Opening(k)) && OccursAt(t, p + |Opening(k)|, ws + name + "}}")
    requires IsPath(name)
    requires k == Substitution ==> ws == []
    requires k != Substitution ==> |ws| > 0
    requires forall i :: 0 <= i < |ws| ==> IsSpace(ws[i])
    ensures MatchAt(t, p, k) == Some(Match(name, p + |Opening(k)| + |ws| + |name| + 2))
  {
    PathAtReads(t, p + |Opening(k)|, ws, name, k != Substitution);
    MatchAfterOpening(t, p, k, Match(name, p + |Opening(k)| + |ws| + |name| + 2));
  }

  /** White space as `spaced` demands, a path and `}}` at `q` are what `PathAt` reads there. */
  lemma PathAtReads(t: string, q: nat, ws: string, name: string, spaced: bool)
    requires OccursAt(t, q, ws + name + "}}") && IsPath(name)
    requires spaced <==> |ws| > 0
    requires forall i :: 0 <= i < |ws| ==> IsSpace(ws[i])
    ensures PathAt(t, q, spaced) == Some(Match(name, q + |ws| + |name| + 2))
  {
    DirectiveChars(t, q, ws, name);
    PathAtFinds(t, q, q + |ws|, q + |ws| + |name|, spaced);
  }

  /** A directive of shape `k` whose path has a root other than `this` reports that root. */
  lemma DirectiveIsReported(t: string, p: nat, k: Shape, ws: string, name: string)
    requires OccursAt(t, p, Opening(k)) && OccursAt(t, p + |Opening(k)|, ws + name + "}}") && IsPath(name)
    requires k == Substitution ==> ws == []
    requires k != Substitution ==> |ws| > 0
    requires forall i :: 0 <= i < |ws| ==> IsSpace(ws[i])
    requires !IsBuiltin(Root(name))
    ensures Root(name) in ExtractVariables(t)
  {
    DirectiveMatches(t, p, k, ws, name);
    assert MatchesWith(t, p, k, name);
    ExtractVariablesFindsReferences(t, Root(name));
  }

  /**
    A plain substitution `{{name}}` anywhere in the text reports `name`, as
    long as it is a root name other than `this`. Nothing excludes block
    keywords written as substitutions, so `{{else}}` reports `else`.
   */
  lemma SubstitutionIsReported(t: string, p: nat, name: string)
    requires OccursAt(t, p, "{{" + name + "}}")
    requires IsRootName(name) && !IsBuiltin(name)
    ensures name in ExtractVariables(t)
  {
    assert "{{" + name + "}}" == Opening(Substitution) + ([] + name + "}}");
    OccurrenceSplits(t, p, Opening(Substitution), [] + name + "}}");
    RootOfRootName(name);
    DirectiveIsReported(t, p, Substitution, [], name);
  }

  /**
    A block opener `{{#each name}}`, `{{#if name}}`, `{{#unless name}}` or
    `{{#with name}}`, with any non-empty white space before the name,
    reports the root of `name`.
   */
  lemma BlockIsReported(t: string, p: nat, k: Shape, ws: string, name: string)
    requires k != Substitution
    requires OccursAt(t, p, Opening(k) + ws + name + "}}") && IsPath(name)
    requires |ws| > 0 && forall i :: 0 <= i < |ws| ==> IsSpace(ws[i])
    requires !IsBuiltin(Root(name))
    ensures Root(name) in ExtractVariables(t)
  {
    assert Opening(k) + ws + name + "}}" == Opening(k) + (ws + name + "}}");
    OccurrenceSplits(t, p, Opening(k), ws + name + "}}");
    DirectiveIsReported(t, p, k, ws, name);
  }

  /** A run of class `cls` from `i` that ends at `j`, where `cls` fails, spans exactly to `j`. */
  lemma {:induction false} SpanStopsAt(t: string, i: nat, j: nat, cls: char -> bool)
    requires i <= j < |t|
    requires forall k :: i <= k < j ==> cls(t[k])
    requires !cls(t[j])
    ensures Span(t, i, cls) == j
    decreases j - i
  {
    if i < j {
      SpanStopsAt(t, i + 1, j, cls);
    }
  }

  /** The instance the rule above makes visible: `{{else}}` reports a variable named `else`. */
  lemma ElseIsReported(t: string, p: nat)
    requires OccursAt(t, p, "{{else}}")
    ensures "else" in ExtractVariables(t)
  {
    assert "{{else}}" == "{{" + "else" + "}}";
    assert IsRootName("else");
    SubstitutionIsReported(t, p, "else");
  }

  /**
    A block opener with a single space before a root name other than `this`
    reports that name.
   */
  lemma BlockOfRootNameIsReported(t: string, p: nat, k: Shape, name: string)
    requires k != Substitution
    requires OccursAt(t, p, Opening(k) + " " + name + "}}")
    requires IsRootName(name) && !IsBuiltin(name)
    ensures name in ExtractVariables(t)
  {
    RootOfRootName(name);
    BlockIsReported(t, p, k, " ", name);
  }

  /**
    Nested blocks: wherever `{{#each a}}`, `{{b}}` and `{{#if c}}` occur,
    for root names other than `this`, `a` and `c` are reported from the
    openers and `b` from the substitution.
   */
  lemma NestedBlocksReported(t: string, p: nat, q: nat, r: nat, a: string, b: string, c: string)
    requires OccursAt(t, p, Opening(EachBlock) + " " + a + "}}")
    requires OccursAt(t, q, "{{" + b + "}}")
    requires OccursAt(t, r, Opening(IfBlock) + " " + c + "}}")
    requires IsRootName(a) && IsRootName(b) && IsRootName(c)
    requires !IsBuiltin(a) && !IsBuiltin(b) && !IsBuiltin(c)
    ensures a in ExtractVariables(t) && b in ExtractVariables(t) && c in ExtractVariables(t)
  {
    BlockOfRootNameIsReported(t, p, EachBlock, a);
    SubstitutionIsReported(t, q, b);
    BlockOfRootNameIsReported(t, r, IfBlock, c);
  }

  /** The three directives of the example below, taken apart. */
  lemma ExampleDirectives()
    ensures Opening(EachBlock) + " " + "items" + "}}" == "{{#each items}}"
    ensures "{{" + "name" + "}}" == "{{name}}"
    ensures Opening(IfBlock) + " " + "active" + "}}" == "{{#if active}}"
    ensures IsRootName("items") && IsRootName("name") && IsRootName("active")
    ensures !IsBuiltin("items") && !IsBuiltin("name") && !IsBuiltin("active")
  {
  }

  /**
    The example template of the lemmas below. It is written as two literals
    joined, which keeps every literal the verifier indexes into short.
   */
  predicate IsExample(t: string) {
    t == "{{#each items}}{{name}}{{/each}}" + "{{#if active}}x{{/if}}"
  }

  /** Where the directives of the example template sit. */
  lemma ExampleOccurrences(t: string)
    requires IsExample(t)
    ensures OccursAt(t, 0, "{{#each items}}")
    ensures OccursAt(t, 15, "{{name}}")
    ensures OccursAt(t, 32, "{{#if active}}")
  {
    assert t[0..15] == "{{#each items}}";
    assert t[15..23] == "{{name}}";
    assert t[32..46] == "{{#if active}}";
  }

  /** The template `{{#each items}}{{name}}{{/each}}{{#if active}}x{{/if}}` reports all three names. */
  lemma NestedBlocksExample(t: string)
    requires IsExample(t)
    ensures "items" in ExtractVariables(t)
    ensures "name" in ExtractVariables(t)
    ensures "active" in ExtractVariables(t)
  {
    ExampleOccurrences(t);
    ExampleDirectives();
    NestedBlocksReported(t, 0, 15, 32, "items", "name", "active");
  }

  /** A character of the text that differs from shape `k`'s opening rules out a match of `k` at `p`. */
  lemma OpeningMismatch(t: string, p: nat, k: Shape, j: nat)
    requires j < |Opening(k)| && p + j < |t| && t[p + j] != Opening(k)[j]
    ensures MatchAt(t, p, k).None?
  {
    if OccursAt(t, p, Opening(k)) {
      OccurrenceChars(t, p, Opening(k));
      assert false;
    }
  }

  /** A `{{` not followed by a path start is no substitution. */
  lemma NoSubstitutionAt(t: string, p: nat)
    requires p + 2 < |t| && !IsNameStart(t[p + 2])
    ensures MatchAt(t, p, Substitution).None?
  {
    if MatchAt(t, p, Substitution).Some? {
      var m := MatchAt(t, p, Substitution).value;
      MatchAtSound(t, p, Substitution);
      assert false;
    }
  }

  /** The example template has a `{{` at positions 0, 15, 23, 32 and 47 and nowhere else. */
  lemma ExampleBracePairs(t: string, p: nat)
    requires IsExample(t)
    requires p + 1 < |t| && t[p] == '{' && t[p + 1] == '{'
    ensures p == 0 || p == 15 || p == 23 || p == 32 || p == 47
  {
    var a := "{{#each items}}{{name}}{{/each}}";
    var b := "{{#if active}}x{{/if}}";
    if p < 31 {
      assert t[p] == a[p] && t[p + 1] == a[p + 1];
    } else if p == 31 {
      assert false;
    } else {
      assert t[p] == b[p - 32] && t[p + 1] == b[p + 1 - 32];
    }
  }

  /** The three names of the example are paths. */
  lemma ExamplePaths()
    ensures IsPath("items") && IsPath("name") && IsPath("active")
  {
    ExampleDirectives();
  }

  /** The `{{#each items}}` of the example, cut after its opening. */
  lemma ExampleEachPieces(t: string)
    requires IsExample(t)
    ensures OccursAt(t, 0, Opening(EachBlock)) && OccursAt(t, 7, " " + "items" + "}}")
  {
    ExampleOccurrences(t);
    assert "{{#each items}}" == Opening(EachBlock) + (" " + "items" + "}}");
    OccurrenceSplits(t, 0, Opening(EachBlock), " " + "items" + "}}");
  }

  /** The example opens with an `each` block over `items`. */
  lemma ExampleEachOpener(t: string)
    requires IsExample(t)
    ensures MatchAt(t, 0, EachBlock) == Some(Match("items", 15))
  {
    ExampleEachPieces(t);
    ExamplePaths();
    DirectiveMatches(t, 0, EachBlock, " ", "items");
  }

  /** The `{{#if active}}` of the example, cut after its opening. */
  lemma ExampleIfPieces(t: string)
    requires IsExample(t)
    ensures OccursAt(t, 32, Opening(IfBlock)) && OccursAt(t, 37, " " + "active" + "}}")
  {
    ExampleOccurrences(t);
    assert "{{#if active}}" == Opening(IfBlock) + (" " + "active" + "}}");
    OccurrenceSplits(t, 32, Opening(IfBlock), " " + "active" + "}}");
  }

  /** The example's second block is an `if` on `active`, from position 32. */
  lemma ExampleIfOpener(t: string)
    requires IsExample(t)
    ensures MatchAt(t, 32, IfBlock) == Some(Match("active", 46))
  {
    ExampleIfPieces(t);
    ExamplePaths();
    DirectiveMatches(t, 32, IfBlock, " ", "active");
  }

  /** At position 0 of the example only the `each` opener matches, capturing `items`. */
  lemma ExampleMatchesEach(t: string, k: Shape)
    requires IsExample(t)
    ensures MatchAt(t, 0, k).None? || MatchAt(t, 0, k).value.path == "items"
  {
    if k == EachBlock {
      ExampleEachOpener(t);
    } else if k == Substitution {
      NoSubstitutionAt(t, 0);
    } else {
      OpeningMismatch(t, 0, k, 3);
    }
  }

  /** At position 15 of the example only the substitution matches, capturing `name`. */
  lemma ExampleMatchesName(t: string, k: Shape)
    requires IsExample(t)
    ensures MatchAt(t, 15, k).None? || MatchAt(t, 15, k).value.path == "name"
  {
    if k == Substitution {
      assert t[15..17] == Opening(Substitution);
      assert t[17..23] == [] + "name" + "}}";
      ExamplePaths();
      DirectiveMatches(t, 15, Substitution, [], "name");
    } else {
      OpeningMismatch(t, 15, k, 2);
    }
  }

  /** At position 32 of the example only the `if` opener matches, capturing `active`. */
  lemma ExampleMatchesIf(t: string, k: Shape)
    requires IsExample(t)
    ensures MatchAt(t, 32, k).None? || MatchAt(t, 32, k).value.path == "active"
  {
    if k == IfBlock {
      ExampleIfOpener(t);
    } else if k == Substitution {
      NoSubstitutionAt(t, 32);
    } else {
      OpeningMismatch(t, 32, k, 3);
    }
  }

  /** The closers at positions 23 and 47 of the example match no shape. */
  lemma ExampleMatchesCloser(t: string, p: nat, k: Shape)
    requires IsExample(t) && (p == 23 || p == 47)
    ensures MatchAt(t, p, k).None?
  {
    if k == Substitution {
      NoSubstitutionAt(t, p);
    } else {
      OpeningMismatch(t, p, k, 2);
    }
  }

  /** Every match in the example template captures `items`, `name` or `active`. */
  lemma ExampleMatches(t: string, p: nat, k: Shape)
    requires IsExample(t)
    requires p == 0 || p == 15 || p == 23 || p == 32 || p == 47
    ensures MatchAt(t, p, k).None? || MatchAt(t, p, k).value.path in ["items", "name", "active"]
  {
    if p == 0 {
      ExampleMatchesEach(t, k);
    } else if p == 15 {
      ExampleMatchesName(t, k);
    } else if p == 32 {
      ExampleMatchesIf(t, k);
    } else {
      ExampleMatchesCloser(t, p, k);
    }
  }

  /** The three names of the example are their own roots. */
  lemma ExampleRoots(path: string)
    requires path in ["items", "name", "active"]
    ensures Root(path) == path
  {
    ExampleDirectives();
    RootOfRootName(path);
  }

  /** A strictly sorted list holding the three example names and nothing else is exactly those names in order. */
  lemma ThreeNamesInOrder(vars: seq<string>)
    requires StrictlySorted(vars)
    requires "items" in vars && "name" in vars && "active" in vars
    requires forall v :: v in vars ==> v in ["items", "name", "active"]
    ensures vars == ["active", "items", "name"]
  {
    var expected := ["active", "items", "name"];
    assert Elems(vars) == Elems(expected);
    assert StrictlySorted(expected) by {
      assert Less("active", "items") && Less("items", "name");
    }
    SortedDeterminedByElems(vars, expected);
  }

  /** Everything the example template reports is one of its three names. */
  lemma ExampleReportsOnlyItsNames(t: string)
    requires IsExample(t)
    ensures forall v :: v in ExtractVariables(t) ==> v in ["items", "name", "active"]
  {
    forall v | v in ExtractVariables(t) ensures v in ["items", "name", "active"] {
      ExtractVariablesFindsReferences(t, v);
      var k: Shape, p: nat, path: string :| MatchesWith(t, p, k, path) && Root(path) == v;
      ExampleBracePairs(t, p);
      ExampleMatches(t, p, k);
      ExampleRoots(path);
    }
  }

  /**
    The example template reports exactly `active`, `items` and `name`, in
    that order: nothing from the closers, the keywords or the text between.
   */
  lemma NestedBlocksExact(t: string)
    requires IsExample(t)
    ensures ExtractVariables(t) == ["active", "items", "name"]
  {
    NestedBlocksExample(t);
    ExampleReportsOnlyItsNames(t);
    ThreeNamesInOrder(ExtractVariables(t));
  }
}
