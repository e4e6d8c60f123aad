/** Small definitions shared by every component model. */
module Common {

  datatype Option<+T> = None | Some(value: T)

  function Max(a: int, b: int): int { if a >= b then a else b }

  function Min(a: int, b: int): int { if a <= b then a else b }

  function MaxReal(a: real, b: real): real { if a >= b then a else b }

  function MinReal(a: real, b: real): real { if a <= b then a else b }

  /** The values present in a sequence of options, in order. */
  function Somes<T>(xs: seq<Option<T>>): seq<T> {
    if xs == [] then []
    else
      var before := Somes(xs[..|xs| - 1]);
      match xs[|xs| - 1]
      case Some(v) => before + [v]
      case None => before
  }

  /** Where each value came from: an increasing choice of positions that misses no value. */
  lemma {:induction false} SomesPositions<T>(xs: seq<Option<T>>) returns (from: seq<nat>)
    ensures |from| == |Somes(xs)|
    ensures forall k | 0 <= k < |from| :: from[k] < |xs| && xs[from[k]] == Some(Somes(xs)[k])
    ensures forall j, k | 0 <= j < k < |from| :: from[j] < from[k]
    ensures forall i | 0 <= i < |xs| && i !in from :: xs[i].None?
  {
    if xs == [] {
      from := [];
    } else {
      var n := |xs| - 1;
      var front := xs[..n];
      from := SomesPositions(front);
      assert forall i | 0 <= i < n :: xs[i] == front[i];
      if xs[n].Some? {
        var before := from;
        from := before + [n];
        assert Somes(xs) == Somes(front) + [xs[n].value];
        forall i | 0 <= i < |xs| && i !in from ensures xs[i].None? {
          assert from[|before|] == n;
        }
      }
    }
  }
}
