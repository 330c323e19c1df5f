/** Option and Result, for the operations that can fail or can leave a value unset. */
module Results {

  /** `None` stands for JavaScript's `undefined` where the tools read a value that may be absent. */
  datatype Option<+T> = None | Some(value: T)

  /** The outcome of an operation that throws on failure: `Err` carries what the exception names. */
  datatype Result<+T, +E> = Ok(value: T) | Err(error: E)
}

/** The pieces of the JavaScript string API the two tools rely on. */
module Text {

  /** `w` occurs in `t` starting at index `p`. */
  predicate OccursAt(t: string, p: nat, w: string) {
    p + |w| <= |t| && t[p..p + |w|] == w
  }

  /** `t.startsWith(w)`. */
  predicate StartsWith(t: string, w: string) {
    OccursAt(t, 0, w)
  }

  /** `t.endsWith(w)`. */
  predicate EndsWith(t: string, w: string) {
    |w| <= |t| && t[|t| - |w|..] == w
  }

  /** The left-to-right search behind `t.includes(w)`, started at index `i`. */
  function IncludesFrom(t: string, w: string, i: nat): (found: bool)
    ensures found <==> exists p: nat :: i <= p && OccursAt(t, p, w)
    decreases |t| - i
  {
    if i + |w| > |t| then false
    else if OccursAt(t, i, w) then true
    else
      var rest := IncludesFrom(t, w, i + 1);
      assert rest <==> exists p: nat :: i <= p && OccursAt(t, p, w) by {
        forall p: nat | i <= p && OccursAt(t, p, w) ensures i + 1 <= p {
        }
      }
      rest
  }

  /** `t.includes(w)`: `w` occurs somewhere in `t`. */
  function Includes(t: string, w: string): (found: bool)
    ensures found <==> exists p: nat :: OccursAt(t, p, w)
  {
    IncludesFrom(t, w, 0)
  }
}
