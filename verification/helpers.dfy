/**
  The helpers the renderer registers with the template engine: `join`,
  `inc`, `eq`, `uppercase` and `lowercase`. The arguments a template passes
  are JavaScript values; each helper's model takes only the shapes of value
  it distinguishes.
 */
module Helpers {

  /** `items.join(sep)`: the items with `sep` between each adjacent pair. */
  function JoinWith(items: seq<string>, sep: string): (r: string)
    ensures |items| == 0 ==> r == ""
    ensures |items| == 1 ==> r == items[0]
    decreases |items|
  {
    if |items| == 0 then ""
    else if |items| == 1 then items[0]
    else items[0] + sep + JoinWith(items[1..], sep)
  }

  /** The first argument of `join`: an array of strings, or anything else. */
  datatype JoinInput = ArrayOf(items: seq<string>) | NotAnArray

  /**
    The second argument of `join`: a string, or anything else. A template
    that writes `{{join xs}}` passes the engine's options object here.
   */
  datatype Separator = SepString(s: string) | NotAString

  /** The separator used when none that is a string was passed. */
  const DefaultSeparator := ", "

  /** The `join` helper. */
  function Join(arr: JoinInput, separator: Separator): (r: string)
    ensures arr.NotAnArray? ==> r == ""
    ensures arr.ArrayOf? && separator.SepString? ==> r == JoinWith(arr.items, separator.s)
    ensures arr.ArrayOf? && separator.NotAString? ==> r == JoinWith(arr.items, DefaultSeparator)
  {
    match arr
    case NotAnArray => ""
    case ArrayOf(items) =>
      match separator
      case SepString(s) => JoinWith(items, s)
      case NotAString => JoinWith(items, DefaultSeparator)
  }

  /** Joining two non-empty lists is joining each and putting one separator between. */
  lemma {:induction false} JoinAppend(a: seq<string>, b: seq<string>, sep: string)
    requires |a| > 0 && |b| > 0
    ensures JoinWith(a + b, sep) == JoinWith(a, sep) + sep + JoinWith(b, sep)
    decreases |a|
  {
    if |a| == 1 {
      assert (a + b)[0] == a[0];
      assert (a + b)[1..] == b;
    } else {
      assert (a + b)[0] == a[0];
      assert (a + b)[1..] == a[1..] + b;
      JoinAppend(a[1..], b, sep);
    }
  }

  /** The sum of the items' lengths. */
  function TotalLength(items: seq<string>): nat
    decreases |items|
  {
    if |items| == 0 then 0 else |items[0]| + TotalLength(items[1..])
  }

  /** A non-empty join is as long as its items plus one separator per gap. */
  lemma {:induction false} JoinLength(items: seq<string>, sep: string)
    requires |items| > 0
    ensures |JoinWith(items, sep)| == TotalLength(items) + (|items| - 1) * |sep|
    decreases |items|
  {
    if |items| > 1 {
      JoinLength(items[1..], sep);
    }
  }

  /**
    `s.split(c)` for a one-character separator: the pieces between the
    occurrences of `c`, always at least one.
   */
  function SplitOn(s: string, c: char): (pieces: seq<string>)
    ensures |pieces| >= 1
    decreases |s|
  {
    if |s| == 0 then [""]
    else
      var rest := SplitOn(s[1..], c);
      if s[0] == c then [""] + rest
      else [[s[0]] + rest[0]] + rest[1..]
  }

  /** A text without the separator splits into itself. */
  lemma {:induction false} SplitWithoutSeparator(x: string, c: char)
    requires c !in x
    ensures SplitOn(x, c) == [x]
    decreases |x|
  {
    if |x| > 0 {
      assert c !in x[1..] by {
        forall i | 0 <= i < |x[1..]| ensures x[1..][i] != c {
          assert x[1..][i] == x[i + 1];
        }
      }
      SplitWithoutSeparator(x[1..], c);
      assert [x[0]] + x[1..] == x;
    }
  }

  /** A separator-free text followed by the separator becomes the first piece. */
  lemma {:induction false} SplitAfterPiece(x: string, c: char, y: string)
    requires c !in x
    ensures SplitOn(x + [c] + y, c) == [x] + SplitOn(y, c)
    decreases |x|
  {
    var s := x + [c] + y;
    if |x| == 0 {
      assert s == [c] + y;
      assert s[1..] == y;
    } else {
      assert s[0] == x[0];
      assert s[1..] == x[1..] + [c] + y;
      assert c !in x[1..] by {
        forall i | 0 <= i < |x[1..]| ensures x[1..][i] != c {
          assert x[1..][i] == x[i + 1];
        }
      }
      SplitAfterPiece(x[1..], c, y);
      assert [x[0]] + x[1..] == x;
    }
  }

  /**
    Splitting a join on a one-character separator recovers the items, as
    long as there is at least one item and none contains the separator.
   */
  lemma {:induction false} SplitJoinRoundTrip(items: seq<string>, c: char)
    requires |items| > 0
    requires forall i :: 0 <= i < |items| ==> c !in items[i]
    ensures SplitOn(JoinWith(items, [c]), c) == items
    decreases |items|
  {
    if |items| == 1 {
      SplitWithoutSeparator(items[0], c);
    } else {
      SplitJoinRoundTrip(items[1..], c);
      SplitAfterPiece(items[0], c, JoinWith(items[1..], [c]));
      assert items == [items[0]] + items[1..];
    }
  }

  /**
    The empty array joins to the empty text whatever the separator, and a
    separator that is not a string is replaced by `", "`.
   */
  lemma JoinExamples()
    ensures Join(ArrayOf([]), SepString("-")) == ""
    ensures Join(ArrayOf(["a", "b"]), SepString("-")) == "a-b"
    ensures Join(ArrayOf(["a", "b"]), NotAString) == "a, b"
    ensures Join(NotAnArray, SepString("-")) == ""
  {
    assert ["a", "b"][1..] == ["b"];
  }

  /** The `inc` helper, used to print one-based positions. */
  function Inc(n: int): (r: int)
    ensures r > n
  {
    n + 1
  }

  /** `inc` moves every number by the same amount: it keeps differences. */
  lemma IncShifts(i: int, j: int)
    ensures Inc(i) - Inc(j) == i - j
  {
  }

  /** `inc` turns a zero-based position into its one-based number. */
  lemma IncExamples()
    ensures Inc(0) == 1 && Inc(5) == 6 && Inc(-1) == 0
  {
  }

  /** `inc` maps the zero-based positions of a list of length `n` onto `1..n`, one to one. */
  lemma IncNumbersFromOne(n: nat, i: int, j: int)
    requires 0 <= i < n && 0 <= j < n
    ensures 1 <= Inc(i) <= n
    ensures Inc(i) == Inc(j) <==> i == j
    ensures Inc(i) < Inc(j) <==> i < j
  {
  }

  /** The argument of `uppercase` and `lowercase`: `null` or `undefined`, or a string. */
  datatype Nullable = Nullish | Present(s: string)

  predicate IsLowerAscii(c: char) { 'a' <= c <= 'z' }
  predicate IsUpperAscii(c: char) { 'A' <= c <= 'Z' }

  function UpperChar(c: char): (u: char)
    ensures IsLowerAscii(c) ==> IsUpperAscii(u) && u as int == c as int - 32
    ensures !IsLowerAscii(c) ==> u == c
  {
    if IsLowerAscii(c) then (c as int - 32) as char else c
  }

  function LowerChar(c: char): (l: char)
    ensures IsUpperAscii(c) ==> IsLowerAscii(l) && l as int == c as int + 32
    ensures !IsUpperAscii(c) ==> l == c
  {
    if IsUpperAscii(c) then (c as int + 32) as char else c
  }

  /** `str?.toUpperCase() ?? ''`, with the ASCII letters as the only cased characters. */
  function Uppercase(str: Nullable): (r: string)
    ensures str.Nullish? ==> r == ""
    ensures str.Present? ==> |r| == |str.s|
    ensures str.Present? ==> forall i :: 0 <= i < |r| ==> !IsLowerAscii(r[i])
    ensures str.Present? ==> forall i :: 0 <= i < |r| ==> !IsLowerAscii(str.s[i]) ==> r[i] == str.s[i]
    ensures str.Present? ==> forall i :: 0 <= i < |r| ==> IsLowerAscii(str.s[i]) ==> r[i] as int == str.s[i] as int - 32
  {
    match str
    case Nullish => ""
    case Present(s) => seq(|s|, i requires 0 <= i < |s| => UpperChar(s[i]))
  }

  /** `str?.toLowerCase() ?? ''`, with the ASCII letters as the only cased characters. */
  function Lowercase(str: Nullable): (r: string)
    ensures str.Nullish? ==> r == ""
    ensures str.Present? ==> |r| == |str.s|
    ensures str.Present? ==> forall i :: 0 <= i < |r| ==> !IsUpperAscii(r[i])
    ensures str.Present? ==> forall i :: 0 <= i < |r| ==> !IsUpperAscii(str.s[i]) ==> r[i] == str.s[i]
    ensures str.Present? ==> forall i :: 0 <= i < |r| ==> IsUpperAscii(str.s[i]) ==> r[i] as int == str.s[i] as int + 32
  {
    match str
    case Nullish => ""
    case Present(s) => seq(|s|, i requires 0 <= i < |s| => LowerChar(s[i]))
  }

  /** Converting twice is converting once, and either conversion undoes the other up to case. */
  lemma CaseConversions(s: string)
    ensures Uppercase(Present(Uppercase(Present(s)))) == Uppercase(Present(s))
    ensures Lowercase(Present(Lowercase(Present(s)))) == Lowercase(Present(s))
    ensures Lowercase(Present(Uppercase(Present(s)))) == Lowercase(Present(s))
    ensures Uppercase(Present(Lowercase(Present(s)))) == Uppercase(Present(s))
  {
  }

  /** Letters change case and everything else is kept. */
  lemma CaseExamples()
    ensures Uppercase(Present("abc")) == "ABC"
    ensures Uppercase(Present("a-Z 9")) == "A-Z 9"
    ensures Lowercase(Present("ABC")) == "abc"
    ensures Lowercase(Present("Hello, World")) == "hello, world"
    ensures Uppercase(Nullish) == "" && Lowercase(Nullish) == ""
  {
  }

  /**
    The JavaScript values `eq` compares. Objects and arrays are compared by
    identity, so they are represented by a reference only; numbers other
    than NaN by their value, which makes `0` and `-0` the same number.
   */
  datatype Value =
    | Undefined
    | Null
    | Boolean(b: bool)
    | Number(x: real)
    | NaN
    | Str(s: string)
    | Reference(id: nat)

  /** `a === b`, by the strict equality comparison of the ECMAScript language specification. */
  function StrictEquals(a: Value, b: Value): (r: bool) {
    match (a, b)
    case (Undefined, Undefined) => true
    case (Null, Null) => true
    case (Boolean(p), Boolean(q)) => p == q
    case (Number(x), Number(y)) => x == y
    case (Str(s), Str(t)) => s == t
    case (Reference(i), Reference(j)) => i == j
    case (_, _) => false
  }

  /** The `eq` helper. */
  function Eq(a: Value, b: Value): (r: bool)
    ensures r ==> b != NaN && a != NaN
  {
    StrictEquals(a, b)
  }

  /**
    Strict equality is identity on the model's values except for NaN,
    which equals nothing, itself included; so it is symmetric, and
    reflexive everywhere but at NaN. Values of different types are never
    equal: `eq null undefined` is false.
   */
  lemma EqIsIdentityExceptNaN(a: Value, b: Value)
    ensures Eq(a, b) <==> a == b && a != NaN
    ensures Eq(a, b) == Eq(b, a)
    ensures Eq(a, a) <==> a != NaN
    ensures !Eq(Null, Undefined)
  {
  }
}
