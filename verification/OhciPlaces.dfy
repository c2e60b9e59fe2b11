/** Where a transfer descriptor of the OHCI driver can be, and lists of descriptors
    kept disjoint by recording each one's place. */
module OhciPlaces {

  /** Free list; the queue of an endpoint and the dummy at its end; the controller's
      own done list and the one it has handed over; a done list being processed, by
      nesting depth; or held by a driver routine between two lists. */
  datatype Place = Free | Wait(e: nat) | Tail(e: nat) | DoneHw | DoneHcca | Hand(depth: nat) | Held

  // ----- Sums over the pool

  function Sum(w: seq<int>): int {
    if w == [] then 0 else Sum(w[..|w| - 1]) + w[|w| - 1]
  }

  lemma {:induction false} SumUpdate(w: seq<int>, i: nat, x: int)
    requires i < |w|
    ensures Sum(w[i := x]) == Sum(w) - w[i] + x
  {
    var n := |w| - 1;
    if i < n {
      SumUpdate(w[..n], i, x);
      assert w[i := x][..n] == w[..n][i := x];
    } else {
      assert w[i := x][..n] == w[..n];
    }
  }

  lemma {:induction false} SumZero(w: seq<int>)
    requires forall i | 0 <= i < |w| :: w[i] == 0
    ensures Sum(w) == 0
  {
    if w != [] {
      SumZero(w[..|w| - 1]);
    }
  }

  lemma {:induction false} SumPositive(w: seq<int>, i: nat)
    requires i < |w| && w[i] > 0 && forall j | 0 <= j < |w| :: w[j] >= 0
    ensures Sum(w) >= w[i]
  {
    SumUpdate(w, i, 0);
    SumNonNegative(w[i := 0]);
  }

  lemma {:induction false} SumNonNegative(w: seq<int>)
    requires forall j | 0 <= j < |w| :: w[j] >= 0
    ensures Sum(w) >= 0
  {
    if w != [] {
      SumNonNegative(w[..|w| - 1]);
    }
  }
}
