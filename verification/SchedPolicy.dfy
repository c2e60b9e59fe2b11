/** The scheduling policy of threads/c_threads.c, on the ready list alone: who wins a
    decision, how the others age, and how long a thread can be passed over. */
module SchedPolicy {

  /** What a decision looks at. */
  datatype Rank = Rank(prio: nat, boost: nat, max: nat)

  function Key(t: Rank): nat {
    t.prio + t.boost
  }

  /** The first thread with the highest key. */
  function Best(r: seq<Rank>): (i: nat)
    requires r != []
    ensures i < |r|
    ensures forall j | 0 <= j < |r| :: Key(r[j]) <= Key(r[i])
    ensures forall j | 0 <= j < i :: Key(r[j]) < Key(r[i])
  {
    var n := |r| - 1;
    if n == 0 then 0
    else
      var b := Best(r[..n]);
      assert forall j | 0 <= j < n :: r[..n][j] == r[j];
      if Key(r[n]) > Key(r[b]) then n else b
  }

  lemma BestIs(r: seq<Rank>, i: nat)
    requires i < |r|
    requires forall j | 0 <= j < |r| :: Key(r[j]) <= Key(r[i])
    requires forall j | 0 <= j < i :: Key(r[j]) < Key(r[i])
    ensures Best(r) == i
  {
  }

  function Age(t: Rank): Rank {
    if t.max > t.boost then t.(boost := t.boost + 1) else t
  }

  /** One decision: the winner starts again without a boost, the others age. */
  function Decide(r: seq<Rank>): (n: seq<Rank>)
    requires r != []
    ensures |n| == |r|
  {
    seq(|r|, i requires 0 <= i < |r| => if i == Best(r) then r[i].(boost := 0) else Age(r[i]))
  }

  function After(r: seq<Rank>, k: nat): (n: seq<Rank>)
    requires r != []
    ensures |n| == |r|
    decreases k
  {
    if k == 0 then r else After(Decide(r), k - 1)
  }

  lemma {:induction false} AfterNext(r: seq<Rank>, k: nat)
    requires r != []
    ensures After(r, k + 1) == Decide(After(r, k))
    decreases k
  {
    if k > 0 {
      AfterNext(Decide(r), k - 1);
    }
  }

  // ----- Bounded waiting

  predicate Top(t: Rank, p: nat, b: nat) {
    t.prio == p && t.max == b
  }

  /** Threads of priority `p` that may gain `b`, and threads that never reach `p`. */
  ghost predicate Fair(r: seq<Rank>, p: nat, b: nat) {
    forall i | 0 <= i < |r| :: r[i].boost <= r[i].max && (Top(r[i], p, b) || r[i].prio + r[i].max < p)
  }

  ghost function Tops(r: seq<Rank>, p: nat, b: nat): set<nat> {
    set i: nat | i < |r| && Top(r[i], p, b)
  }

  lemma FairStep(r: seq<Rank>, p: nat, b: nat)
    requires r != [] && Fair(r, p, b)
    ensures Fair(Decide(r), p, b) && Tops(Decide(r), p, b) == Tops(r, p, b)
  {
    assert forall i | 0 <= i < |r| :: Top(Decide(r)[i], p, b) <==> Top(r[i], p, b);
  }

  lemma BestTop(r: seq<Rank>, p: nat, b: nat, x: nat)
    requires Fair(r, p, b) && x in Tops(r, p, b)
    ensures Best(r) in Tops(r, p, b) && r[x].boost <= r[Best(r)].boost <= b
  {
    assert Key(r[x]) <= Key(r[Best(r)]);
  }

  /** A thread passed over for `k` decisions has gained at least `k`, up to the
      maximum; or it has been chosen. */
  lemma {:induction false} Gains(r: seq<Rank>, p: nat, b: nat, x: nat, k: nat)
    requires Fair(r, p, b) && x in Tops(r, p, b)
    requires forall j: nat | j < k :: Best(After(r, j)) != x
    ensures Fair(After(r, k), p, b) && Tops(After(r, k), p, b) == Tops(r, p, b)
    ensures k <= After(r, k)[x].boost || After(r, k)[x].boost == b
  {
    if k > 0 {
      Gains(r, p, b, x, k - 1);
      AfterNext(r, k - 1);
      FairStep(After(r, k - 1), p, b);
    }
  }

  /** With `x` at its maximum, the winners of the next decisions are all different:
      after `m` of them, `w` holds the winners, none back at the maximum. */
  lemma {:induction false} Spent(r: seq<Rank>, p: nat, b: nat, x: nat, m: nat) returns (w: set<nat>)
    requires Fair(r, p, b) && x in Tops(r, p, b) && r[x].boost == b && m <= b + 1
    requires forall j: nat | j < m :: Best(After(r, j)) != x
    ensures Fair(After(r, m), p, b) && Tops(After(r, m), p, b) == Tops(r, p, b) && After(r, m)[x].boost == b
    ensures |w| == m && w <= Tops(r, p, b) - {x}
    ensures forall i | i in w :: After(r, m)[i].boost < m
  {
    if m == 0 {
      w := {};
    } else {
      hide After, Fair, Tops;
      var v := Spent(r, p, b, x, m - 1);
      AfterNext(r, m - 1);
      SpentStep(After(r, m - 1), p, b, x, v, m);
      w := v + {Best(After(r, m - 1))};
    }
  }

  lemma SpentStep(a: seq<Rank>, p: nat, b: nat, x: nat, v: set<nat>, m: nat)
    requires Fair(a, p, b) && x in Tops(a, p, b) && a[x].boost == b && 1 <= m <= b + 1 && Best(a) != x
    requires |v| == m - 1 && v <= Tops(a, p, b) - {x} && forall i | i in v :: a[i].boost < m - 1
    ensures Fair(Decide(a), p, b) && Tops(Decide(a), p, b) == Tops(a, p, b) && Decide(a)[x].boost == b
    ensures var w := v + {Best(a)}; |w| == m && w <= Tops(a, p, b) - {x} && forall i | i in w :: Decide(a)[i].boost < m
  {
    FairStep(a, p, b);
    BestTop(a, p, b, x);
    assert Best(a) !in v;
    forall i | i in v + {Best(a)}
      ensures Decide(a)[i].boost < m
    {
      assert i != Best(a) ==> a[i].boost < m - 1;
    }
  }

  /** Among at most `b + 1` such threads each is chosen within any `2 * b + 1`
      consecutive decisions. */
  lemma BoundedWait(r: seq<Rank>, p: nat, b: nat, x: nat)
    requires Fair(r, p, b) && x in Tops(r, p, b) && |Tops(r, p, b)| <= b + 1
    ensures exists k: nat | k <= 2 * b :: Best(After(r, k)) == x
  {
    if forall k: nat | k <= 2 * b :: Best(After(r, k)) != x {
      Gains(r, p, b, x, b);
      var s := After(r, b);
      assert s[x].boost == b by {
        assert s[x].boost <= s[x].max && Top(s[x], p, b);
      }
      forall j: nat | j < b + 1
        ensures Best(After(s, j)) != x
      {
        AfterSplit(r, b, j);
      }
      var w := Spent(s, p, b, x, b + 1);
      Smaller(w, Tops(r, p, b) - {x});
    }
  }

  lemma {:induction false} AfterSplit(r: seq<Rank>, k: nat, j: nat)
    requires r != []
    ensures After(After(r, k), j) == After(r, k + j)
    decreases k
  {
    if k > 0 {
      AfterSplit(Decide(r), k - 1, j);
    }
  }

  lemma {:induction false} Smaller(a: set<nat>, b: set<nat>)
    requires a <= b
    ensures |a| <= |b|
    decreases a
  {
    if a != {} {
      var x :| x in a;
      Smaller(a - {x}, b - {x});
    }
  }

  // ----- The bound on their number is exact

  /** `b + 2` equal threads, of which number `c` is next and the last has waited as
      long as counts. */
  function Cycle(p: nat, b: nat, c: nat): seq<Rank>
    requires c <= b
  {
    seq(b + 2, i requires 0 <= i < b + 2 =>
      Rank(p, if i == b + 1 then b else if i < c then c - 1 - i else c + b - i, b))
  }

  lemma CycleStep(p: nat, b: nat, c: nat)
    requires c <= b
    ensures Best(Cycle(p, b, c)) == c
    ensures Decide(Cycle(p, b, c)) == Cycle(p, b, if c == b then 0 else c + 1)
  {
    BestIs(Cycle(p, b, c), c);
  }

  /** One thread more, and one of them may never be chosen. */
  lemma Starved(p: nat, b: nat, k: nat)
    ensures Fair(Cycle(p, b, 0), p, b) && b + 1 in Tops(Cycle(p, b, 0), p, b)
    ensures |Tops(Cycle(p, b, 0), p, b)| == b + 2
    ensures Best(After(Cycle(p, b, 0), k)) != b + 1
  {
    Cycling(p, b, 0, k);
    hide After, Decide, Best;
    assert Tops(Cycle(p, b, 0), p, b) == Upto(b + 2);
  }

  lemma {:induction false} Cycling(p: nat, b: nat, c: nat, k: nat)
    requires c <= b
    ensures Best(After(Cycle(p, b, c), k)) <= b
    decreases k
  {
    hide Cycle, Decide, Best;
    CycleStep(p, b, c);
    if k > 0 {
      Cycling(p, b, if c == b then 0 else c + 1, k - 1);
    }
  }

  ghost function Upto(n: nat): (s: set<nat>)
    ensures |s| == n && forall i: nat :: i in s <==> i < n
  {
    if n == 0 then {} else Upto(n - 1) + {n - 1}
  }
}
