/** Lists of numbered objects, one list per place, kept disjoint by recording the
    place of each object. */
module PlaceLists {

  type Lists<P> = map<P, seq<nat>>

  ghost function L<P(!new)>(lists: Lists<P>, p: P): seq<nat> {
    if p in lists then lists[p] else []
  }

  /** Every object is in exactly one list, once. */
  ghost predicate Part<P(!new)>(lists: Lists<P>, own: seq<P>) {
    && (forall p: P, i: nat | i < |L(lists, p)| :: L(lists, p)[i] < |own| && own[L(lists, p)[i]] == p)
    && (forall p: P, i: nat, j: nat | i < j < |L(lists, p)| :: L(lists, p)[i] != L(lists, p)[j])
    && (forall d: nat | d < |own| :: d in L(lists, own[d]))
  }

  lemma PartAt<P(!new)>(lists: Lists<P>, own: seq<P>, p: P, i: nat)
    requires Part(lists, own) && i < |L(lists, p)|
    ensures L(lists, p)[i] < |own| && own[L(lists, p)[i]] == p
    ensures forall j: nat | j < |L(lists, p)| && j != i :: L(lists, p)[j] != L(lists, p)[i]
  {
  }

  /** The first object of one list goes to the front of another. */
  ghost function MoveFront<P(!new)>(lists: Lists<P>, p: P, q: P): Lists<P>
    requires L(lists, p) != []
  {
    lists[p := L(lists, p)[1..]][q := [L(lists, p)[0]] + L(lists, q)]
  }

  /** The first object of one list goes to the back of another. */
  ghost function MoveBack<P(!new)>(lists: Lists<P>, p: P, q: P): Lists<P>
    requires L(lists, p) != []
  {
    lists[p := L(lists, p)[1..]][q := L(lists, q) + [L(lists, p)[0]]]
  }

  ghost function Without(s: seq<nat>, k: nat): seq<nat>
    requires k < |s|
  {
    s[..k] + s[k + 1..]
  }

  /** Any object of one list goes to the front of another. */
  ghost function MoveAt<P(!new)>(lists: Lists<P>, p: P, k: nat, q: P): Lists<P>
    requires k < |L(lists, p)|
  {
    lists[p := Without(L(lists, p), k)][q := [L(lists, p)[k]] + L(lists, q)]
  }

  lemma MoveAtPart<P(!new)>(lists: Lists<P>, own: seq<P>, p: P, k: nat, q: P)
    requires Part(lists, own) && k < |L(lists, p)| && p != q
    ensures L(lists, p)[k] < |own| && own[L(lists, p)[k]] == p
    ensures Part(MoveAt(lists, p, k, q), own[L(lists, p)[k] := q])
  {
    hide Part;
    var n, d := MoveAt(lists, p, k, q), L(lists, p)[k];
    PartAt(lists, own, p, k);
    Moved(lists, own, n, p, k, q, d);
  }

  lemma MoveFrontPart<P(!new)>(lists: Lists<P>, own: seq<P>, p: P, q: P)
    requires Part(lists, own) && L(lists, p) != [] && p != q
    ensures L(lists, p)[0] < |own| && own[L(lists, p)[0]] == p
    ensures Part(MoveFront(lists, p, q), own[L(lists, p)[0] := q])
  {
    hide Part;
    var n, d := MoveFront(lists, p, q), L(lists, p)[0];
    PartAt(lists, own, p, 0);
    assert L(n, p) == L(lists, p)[1..] && L(n, q) == [d] + L(lists, q);
    assert L(lists, p)[1..] == Without(L(lists, p), 0);
    Moved(lists, own, n, p, 0, q, d);
  }

  lemma MoveBackPart<P(!new)>(lists: Lists<P>, own: seq<P>, p: P, q: P)
    requires Part(lists, own) && L(lists, p) != [] && p != q
    ensures L(lists, p)[0] < |own| && own[L(lists, p)[0]] == p
    ensures Part(MoveBack(lists, p, q), own[L(lists, p)[0] := q])
  {
    hide Part;
    var n, d := MoveBack(lists, p, q), L(lists, p)[0];
    PartAt(lists, own, p, 0);
    assert L(n, p) == L(lists, p)[1..] && L(n, q) == L(lists, q) + [d];
    assert L(lists, p)[1..] == Without(L(lists, p), 0);
    Moved(lists, own, n, p, 0, q, d);
  }

  /** `n` is `lists` with `d`, number `k` of `p`, moved to an end of `q`. */
  ghost predicate IsMove<P(!new)>(lists: Lists<P>, own: seq<P>, n: Lists<P>, p: P, k: nat, q: P, d: nat) {
    && p != q && d < |own| && own[d] == p
    && k < |L(lists, p)| && d == L(lists, p)[k] && L(n, p) == Without(L(lists, p), k)
    && (L(n, q) == [d] + L(lists, q) || L(n, q) == L(lists, q) + [d])
    && (forall r: P | r != p && r != q :: L(n, r) == L(lists, r))
  }

  lemma Moved<P(!new)>(lists: Lists<P>, own: seq<P>, n: Lists<P>, p: P, k: nat, q: P, d: nat)
    requires Part(lists, own) && IsMove(lists, own, n, p, k, q, d)
    ensures Part(n, own[d := q])
  {
    hide Part, L, IsMove;
    MoveLength(lists, own, n, p, k, q, d);
    var o := own[d := q];
    forall r: P, i: nat | i < |L(n, r)|
      ensures L(n, r)[i] < |o| && o[L(n, r)[i]] == r
    {
      MovedAt(lists, own, n, p, k, q, d, r, i);
    }
    forall r: P, i: nat, j: nat | i < j < |L(n, r)|
      ensures L(n, r)[i] != L(n, r)[j]
    {
      MovedDistinct(lists, own, n, p, k, q, d, r, i, j);
    }
    forall x: nat | x < |o|
      ensures x in L(n, o[x])
    {
      MovedCover(lists, own, n, p, k, q, d, x);
    }
    PartIs(n, o);
  }

  lemma MoveLength<P(!new)>(lists: Lists<P>, own: seq<P>, n: Lists<P>, p: P, k: nat, q: P, d: nat)
    requires IsMove(lists, own, n, p, k, q, d)
    ensures d < |own|
  {
  }

  lemma WithoutAt(s: seq<nat>, k: nat, i: nat)
    requires k < |s| && i < |s| - 1
    ensures |Without(s, k)| == |s| - 1 && Without(s, k)[i] == s[if i < k then i else i + 1]
  {
  }

  lemma MovedAt<P(!new)>(lists: Lists<P>, own: seq<P>, n: Lists<P>, p: P, k: nat, q: P, d: nat, r: P, i: nat)
    requires Part(lists, own) && IsMove(lists, own, n, p, k, q, d)
    requires i < |L(n, r)|
    ensures L(n, r)[i] < |own| && own[d := q][L(n, r)[i]] == r
  {
    hide Part, L;
    var s := L(lists, r);
    if r == p {
      WithoutAt(s, k, i);
      PartAt(lists, own, p, if i < k then i else i + 1);
    } else if r == q {
      if L(n, q) == [d] + s {
        if i > 0 {
          PartAt(lists, own, q, i - 1);
        }
      } else if i < |s| {
        PartAt(lists, own, q, i);
      }
    } else {
      PartAt(lists, own, r, i);
    }
  }

  lemma MovedDistinct<P(!new)>(lists: Lists<P>, own: seq<P>, n: Lists<P>, p: P, k: nat, q: P, d: nat, r: P, i: nat,
      j: nat)
    requires Part(lists, own) && IsMove(lists, own, n, p, k, q, d)
    requires i < j < |L(n, r)|
    ensures L(n, r)[i] != L(n, r)[j]
  {
    hide Part, L;
    var s := L(lists, r);
    if r == p {
      WithoutAt(s, k, i);
      WithoutAt(s, k, j);
      PartAt(lists, own, p, if i < k then i else i + 1);
    } else if r == q {
      if L(n, q) == [d] + s {
        PartAt(lists, own, q, j - 1);
      } else {
        PartAt(lists, own, q, i);
      }
    } else {
      PartAt(lists, own, r, i);
    }
  }

  lemma MovedCover<P(!new)>(lists: Lists<P>, own: seq<P>, n: Lists<P>, p: P, k: nat, q: P, d: nat, x: nat)
    requires Part(lists, own) && IsMove(lists, own, n, p, k, q, d)
    requires x < |own|
    ensures x in L(n, own[d := q][x])
  {
    hide Part, L;
    if x != d {
      var s := L(lists, own[x]);
      PartCover(lists, own, x);
      var j :| 0 <= j < |s| && s[j] == x;
      if own[x] == p {
        WithoutAt(s, k, if j < k then j else j - 1);
        assert L(n, p)[if j < k then j else j - 1] == x;
      } else if own[x] == q {
        assert L(n, q) == [d] + s ==> L(n, q)[j + 1] == x;
        assert L(n, q) == s + [d] ==> L(n, q)[j] == x;
      }
    }
  }

  /** A whole list becomes another, which was empty. */
  ghost function Renamed<P(!new)>(lists: Lists<P>, p: P, q: P): Lists<P> {
    lists[q := L(lists, p)][p := []]
  }

  ghost function RenamedOwn<P(!new)>(own: seq<P>, p: P, q: P): seq<P> {
    seq(|own|, d requires 0 <= d < |own| => if own[d] == p then q else own[d])
  }

  lemma RenamedPart<P(!new)>(lists: Lists<P>, own: seq<P>, p: P, q: P)
    requires Part(lists, own) && p != q && L(lists, q) == []
    ensures Part(Renamed(lists, p, q), RenamedOwn(own, p, q))
  {
    hide Part;
    var n, o := Renamed(lists, p, q), RenamedOwn(own, p, q);
    assert L(n, p) == [] && L(n, q) == L(lists, p);
    assert forall r: P | r != p && r != q :: L(n, r) == L(lists, r);
    forall r: P, i: nat | i < |L(n, r)|
      ensures L(n, r)[i] < |o| && o[L(n, r)[i]] == r
    {
      PartAt(lists, own, if r == q then p else r, i);
    }
    forall r: P, i: nat, j: nat | i < j < |L(n, r)|
      ensures L(n, r)[i] != L(n, r)[j]
    {
      PartAt(lists, own, if r == q then p else r, i);
    }
    forall x: nat | x < |o|
      ensures x in L(n, o[x])
    {
      PartCover(lists, own, x);
    }
    PartIs(n, o);
  }

  lemma PartCover<P(!new)>(lists: Lists<P>, own: seq<P>, d: nat)
    requires Part(lists, own) && d < |own|
    ensures d in L(lists, own[d])
  {
  }

  lemma PartIs<P(!new)>(lists: Lists<P>, own: seq<P>)
    requires forall p: P, i: nat | i < |L(lists, p)| :: L(lists, p)[i] < |own| && own[L(lists, p)[i]] == p
    requires forall p: P, i: nat, j: nat | i < j < |L(lists, p)| :: L(lists, p)[i] != L(lists, p)[j]
    requires forall d: nat | d < |own| :: d in L(lists, own[d])
    ensures Part(lists, own)
  {
  }
}
