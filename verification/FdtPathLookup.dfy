/** fdt_path_offset for absolute paths, and its relation to fdt_get_path. */
module FdtPathLookup {
  import opened FdtBytes
  import opened FdtTree
  import opened FdtFormat
  import opened FdtBlob
  import opened FdtScan
  import opened FdtWalk
  import opened FdtLookup
  import opened FdtAncestor
  import opened FdtPath

  datatype Option<T> = None | Some(value: T)

  /** Index of the first slash at or after `i`, or the length. */
  function SlashFrom(s: seq<byte>, i: nat): (q: nat)
    requires i <= |s|
    ensures i <= q <= |s| && SLASH !in s[i..q] && (q < |s| ==> s[q] == SLASH)
    decreases |s| - i
  {
    if i == |s| || s[i] == SLASH then i
    else
      var q := SlashFrom(s, i + 1);
      assert s[i..q] == [s[i]] + s[i + 1..q];
      q
  }

  /** The non-empty stretches between slashes. */
  function Components(s: seq<byte>): (r: seq<Name>) {
    if s == [] then []
    else if s[0] == SLASH then Components(s[1..])
    else
      var q := SlashFrom(s, 0);
      assert q > 0;
      [s[..q]] + Components(s[q..])
  }

  /** Following names from a node, always into the first child that matches. */
  function Lookup(n: Node, names: seq<Name>): (r: Option<Path>)
    ensures r.Some? ==> |r.value| == |names| && ValidPath(n, r.value)
    decreases |names|
  {
    if names == [] then Some([])
    else
      var i := FirstMatch(n.children, names[0]);
      if i == |n.children| then None
      else
        match Lookup(n.children[i], names[1..])
        case None => None
        case Some(q) =>
          assert ([i] + q)[1..] == q;
          Some([i] + q)
  }

  /** The lookup of the rest from the node at `q`. */
  ghost function Onward(t: Node, q: Path, names: seq<Name>): Option<Path>
    requires ValidPath(t, q)
  {
    match Lookup(At(t, q), names)
    case None => None
    case Some(r) => Some(q + r)
  }

  lemma OnwardStep(t: Node, q: Path, names: seq<Name>)
    requires ValidPath(t, q) && names != []
    ensures var i := FirstMatch(At(t, q).children, names[0]);
      if i == |At(t, q).children| then Onward(t, q, names) == None
      else ValidPath(t, q + [i]) && Onward(t, q, names) == Onward(t, q + [i], names[1..])
  {
    hide FirstMatch, Lookup, At, ValidPath;
    var n := At(t, q);
    var i := FirstMatch(n.children, names[0]);
    LookupStep(n, names);
    if i < |n.children| {
      ChildPath(t, q, i);
      var l := Lookup(n.children[i], names[1..]);
      if l.Some? {
        assert q + [i] + l.value == q + ([i] + l.value);
      }
    }
  }

  lemma LookupStep(n: Node, names: seq<Name>)
    requires names != []
    ensures var i := FirstMatch(n.children, names[0]);
      && i <= |n.children|
      && Lookup(n, names) ==
         if i == |n.children| then None
         else match Lookup(n.children[i], names[1..])
              case None => None
              case Some(q) => Some([i] + q)
  {
  }

  lemma ChildPath(t: Node, q: Path, i: nat)
    requires ValidPath(t, q) && i < |At(t, q).children|
    ensures ValidPath(t, q + [i]) && At(t, q + [i]) == At(t, q).children[i]
  {
    hide Flat, FlatAll, Pre;
    var n := At(t, q);
    assert [i][1..] == [];
    assert ValidPath(n, [i]) && At(n, [i]) == n.children[i];
    PreConcat(t, q, [i]);
  }

  /** fdt_path_offset for a path that starts with a slash. */
  method PathOffset(fdt: array<byte>, path: seq<byte>, ghost v: View, ghost t: Node) returns (r: int, ghost k: int)
    requires Holds(fdt[..], v) && DecodesTo(v, t) && IsNode(v, 0)
    requires path != [] && path[0] == SLASH && 0 !in path
    ensures match Lookup(t, Components(path))
      case None => r == NOTFOUND
      case Some(q) => NodeAt(v, t, k, q) && r == OffsetOf(v, k)
  {
    hide Holds, Size, Events, Flat, Pre, At, Lookup, FirstMatch, Components, SlashFrom, Onward;
    ghost var q := RootPath(v, t);
    CursorEnds(v);
    k := 0;
    var offset: i32, p := 0, 0;
    assert path[0..] == path;
    RootOnward(t, Components(path));
    while p < |path|
      invariant 0 <= p <= |path|
      invariant NodeAt(v, t, k, q) && offset == OffsetOf(v, k)
      invariant Lookup(t, Components(path)) == Onward(t, q, Components(path[p..]))
      decreases |path| - p
    {
      while p < |path| && path[p] == SLASH
        invariant 0 <= p <= |path|
        invariant Lookup(t, Components(path)) == Onward(t, q, Components(path[p..]))
      {
        SkipSlash(path[p..]);
        assert path[p..][1..] == path[p + 1..];
        p := p + 1;
      }
      if p == |path| {
        assert path[p..] == [];
        OnwardEnd(t, q);
        return offset, k;
      }
      var e := SlashFrom(path, p);
      Component(path, p);
      OnwardStep(t, q, Components(path[p..]));
      ghost var k';
      offset, k' := SubnodeOffset(fdt, offset, path[p..e], v, t, k, q);
      if offset < 0 {
        return offset, k;
      }
      q := q + [FirstMatch(At(t, q).children, path[p..e])];
      k := k';
      p := e;
    }
    assert path[p..] == [];
    OnwardEnd(t, q);
    r := offset;
  }

  lemma RootOnward(t: Node, names: seq<Name>)
    ensures Lookup(t, names) == Onward(t, [], names)
  {
    hide Lookup;
    var l := Lookup(t, names);
    assert l.Some? ==> [] + l.value == l.value;
  }

  lemma OnwardEnd(t: Node, q: Path)
    requires ValidPath(t, q)
    ensures Onward(t, q, Components([])) == Some(q)
  {
    assert q + [] == q;
  }

  lemma Component(s: seq<byte>, p: nat)
    requires p < |s| && s[p] != SLASH
    ensures var e := SlashFrom(s, p);
      p < e && Components(s[p..]) == [s[p..e]] + Components(s[e..]) && Components(s[p..])[1..] == Components(s[e..])
  {
    hide SlashFrom, Components;
    var e := SlashFrom(s, p);
    SlashShift(s, p, p);
    ComponentsHead(s[p..]);
    assert s[p..][..e - p] == s[p..e] && s[p..][e - p..] == s[e..];
  }

  lemma ComponentsHead(s: seq<byte>)
    requires s != [] && s[0] != SLASH
    ensures var q := SlashFrom(s, 0); 0 < q <= |s| && Components(s) == [s[..q]] + Components(s[q..])
  {
  }

  lemma {:induction false} SlashShift(s: seq<byte>, p: nat, i: nat)
    requires p <= i <= |s|
    ensures SlashFrom(s[p..], i - p) == SlashFrom(s, i) - p
    decreases |s| - i
  {
    if i < |s| && s[i] != SLASH {
      SlashShift(s, p, i + 1);
    }
  }

  // ----- Lookup inverts printing

  /** A usable component name. */
  predicate Plain(n: Name) {
    n != [] && SLASH !in n
  }

  /** At every level the node is the first of its siblings that its own name
      matches: no earlier sibling has that name, alone or before an "@". */
  predicate Unshadowed(n: Node, p: Path)
    requires ValidPath(n, p)
    decreases p
  {
    p == [] ||
    (&& (forall j | 0 <= j < p[0] :: !NameMatch(n.children[j].name, n.children[p[0]].name))
     && Unshadowed(n.children[p[0]], p[1..]))
  }

  /** Looking up the names on the way to a node finds that node exactly when it
      is not shadowed. */
  lemma {:induction false} LookupExact(n: Node, p: Path)
    requires ValidPath(n, p)
    ensures Lookup(n, NamesTo(n, p)[1..]) == Some(p) <==> Unshadowed(n, p)
    decreases p
  {
    var names := NamesTo(n, p)[1..];
    if p != [] {
      var c := n.children[p[0]];
      assert names == NamesTo(c, p[1..]);
      assert names[0] == c.name by {
        NamesPrefix(c, p[1..], 0);
        assert NamesTo(c, p[1..])[..1][0] == NamesTo(c, p[1..][..0])[0];
      }
      var i := FirstMatch(n.children, names[0]);
      assert NameMatch(c.name, c.name);
      assert i == p[0] <==> forall j | 0 <= j < p[0] :: !NameMatch(n.children[j].name, c.name);
      LookupExact(c, p[1..]);
      assert p == [p[0]] + p[1..];
      var l := Lookup(n.children[i], names[1..]);
      assert l.Some? ==> ([i] + l.value == p <==> i == p[0] && l.value == p[1..]) by {
        assert l.Some? ==> ([i] + l.value)[0] == i && ([i] + l.value)[1..] == l.value;
      }
    }
  }

  lemma {:induction false} SlashStop(a: seq<byte>, rest: seq<byte>, i: nat)
    requires SLASH !in a && i <= |a| && (rest == [] || rest[0] == SLASH)
    ensures SlashFrom(a + rest, i) == |a|
    decreases |a| - i
  {
    if i < |a| {
      assert (a + rest)[i] == a[i];
      SlashStop(a, rest, i + 1);
    }
  }

  /** Splitting undoes joining. */
  lemma {:induction false} ComponentsJoined(ns: seq<Name>, tail: seq<byte>)
    requires forall i | 0 <= i < |ns| :: Plain(ns[i])
    ensures Components(Joined(ns) + tail) == ns + Components(tail)
    decreases |ns|
  {
    if ns == [] {
      assert Joined(ns) + tail == tail;
    } else {
      hide Components;
      var m, last := ns[..|ns| - 1], ns[|ns| - 1];
      var rest := last + ([SLASH] + tail);
      assert Joined(ns) + tail == Joined(m) + rest;
      ComponentsJoined(m, rest);
      LastComponent(last, [SLASH] + tail);
      SkipSlash([SLASH] + tail);
      assert ([SLASH] + tail)[1..] == tail;
      assert ns == m + [last];
    }
  }

  lemma LastComponent(a: Name, rest: seq<byte>)
    requires Plain(a) && (rest == [] || rest[0] == SLASH)
    ensures Components(a + rest) == [a] + Components(rest)
  {
    hide SlashFrom, Components;
    SlashStop(a, rest, 0);
    assert (a + rest)[0] == a[0];
    ComponentsHead(a + rest);
    assert (a + rest)[..|a|] == a && (a + rest)[|a|..] == rest;
  }

  /** The components of a printed path are the names below the root. */
  lemma ComponentsPrinted(t: Node, p: Path)
    requires ValidPath(t, p) && t.name == []
    requires forall i | 1 <= i <= |p| :: Plain(NamesTo(t, p)[i])
    ensures PathString(t, p) != [] && PathString(t, p)[0] == SLASH
    ensures Components(PathString(t, p)) == NamesTo(t, p)[1..]
  {
    hide NamesTo, Components, Joined, Plain;
    RootName(t, p);
    NamesPrinted(NamesTo(t, p));
  }

  lemma NamesPrinted(ns: seq<Name>)
    requires ns != [] && ns[0] == [] && forall i | 1 <= i < |ns| :: Plain(ns[i])
    ensures var j := Joined(ns); var s := if |j| > 1 then j[..|j| - 1] else j;
      s != [] && s[0] == SLASH && Components(s) == ns[1..]
  {
    hide Components, Joined, Plain;
    var low := ns[1..];
    JoinedFrom(ns);
    if low == [] {
      NoNames();
      SlashOnly();
      assert Joined(ns) == [SLASH];
    } else {
      var m, last := low[..|low| - 1], low[|low| - 1];
      assert low == m + [last];
      JoinedSnoc(m, last);
      Trimmed(Joined(ns), Joined(m) + last);
      OneLine(m, last);
    }
  }

  lemma NoNames()
    ensures Joined([]) == []
  {
  }

  lemma Trimmed(j: seq<byte>, a: seq<byte>)
    requires j == [SLASH] + (a + [SLASH])
    ensures |j| > 1 && j[..|j| - 1] == [SLASH] + a
  {
  }

  lemma OneLine(m: seq<Name>, last: Name)
    requires Plain(last) && forall i | 0 <= i < |m| :: Plain(m[i])
    ensures Components([SLASH] + (Joined(m) + last)) == m + [last]
  {
    hide Components, Joined, Plain;
    var s := [SLASH] + (Joined(m) + last);
    assert s[1..] == Joined(m) + last;
    SkipSlash(s);
    ComponentsJoined(m, last);
    assert last + [] == last;
    LastComponent(last, []);
    NoComponents();
  }

  lemma RootName(t: Node, p: Path)
    requires ValidPath(t, p)
    ensures NamesTo(t, p)[0] == t.name
  {
  }

  lemma SkipSlash(s: seq<byte>)
    requires s != [] && s[0] == SLASH
    ensures Components(s) == Components(s[1..])
  {
  }

  lemma NoComponents()
    ensures Components([]) == []
  {
  }

  lemma SlashOnly()
    ensures Components([SLASH]) == []
  {
    assert [SLASH][1..] == [];
  }

  lemma {:induction false} JoinedFrom(ns: seq<Name>)
    requires ns != [] && ns[0] == []
    ensures Joined(ns) == [SLASH] + Joined(ns[1..])
  {
    if |ns| == 1 {
      assert ns[..0] == [] && ns[1..] == [];
    } else {
      var m := ns[..|ns| - 1];
      JoinedFrom(m);
      assert m[1..] == ns[1..][..|ns| - 2];
    }
  }

  /** fdt_get_path followed by fdt_path_offset: the same node comes back exactly
      when no earlier sibling shadows a component. */
  method PathRoundTrip(fdt: array<byte>, nodeoffset: i32, buf: array<byte>,
                       ghost v: View, ghost t: Node, ghost k0: int, ghost p: Path)
    returns (err: int, r: int)
    requires fdt != buf && Holds(fdt[..], v) && DecodesTo(v, t) && IsNode(v, 0) && NoSlash(t) && t.name == []
    requires NodeAt(v, t, k0, p) && nodeoffset == OffsetOf(v, k0)
    requires forall i | 1 <= i <= |p| :: Plain(NamesTo(t, p)[i]) && 0 !in NamesTo(t, p)[i]
    modifies buf
    ensures err == 0 ==> (r == nodeoffset <==> Unshadowed(t, p))
    ensures err != 0 ==> err == NOSPACE
  {
    hide Holds, Size, Events, Flat, Pre, At, Components, NamesTo, Unshadowed, NoSlash, PathString, Lookup;
    r := 0;
    var outside;
    err, outside := GetPath(fdt, nodeoffset, buf, v, t, k0, p);
    if err != 0 {
      return;
    }
    ghost var text := PathString(t, p);
    ComponentsPrinted(t, p);
    LookupExact(t, p);
    NoNul(t, p);
    forall i | 0 <= i < |text|
      ensures buf[i] != 0
    {
      assert buf[..|text|][i] == text[i];
    }
    var len := 0;
    while buf[len] != 0
      invariant 0 <= len <= |text|
      decreases |text| - len
    {
      len := len + 1;
    }
    ghost var k;
    r, k := PathOffset(fdt, buf[..len], v, t);
    ghost var l := Lookup(t, NamesTo(t, p)[1..]);
    if l.Some? && r == nodeoffset {
      OffsetInjective(v, k, k0);
      PreInjective(t, l.value, p);
    }
    if l == Some(p) {
      WfOf(fdt[..], v);
      EvIdxUnique(v, k, k0);
    }
  }

  lemma NoNul(t: Node, p: Path)
    requires ValidPath(t, p) && t.name == []
    requires forall i | 1 <= i <= |p| :: 0 !in NamesTo(t, p)[i]
    ensures 0 !in PathString(t, p)
  {
    RootName(t, p);
    JoinedNoNul(NamesTo(t, p));
  }

  lemma {:induction false} JoinedNoNul(ns: seq<Name>)
    requires forall i | 0 <= i < |ns| :: 0 !in ns[i]
    ensures 0 !in Joined(ns)
  {
    if ns != [] {
      JoinedNoNul(ns[..|ns| - 1]);
    }
  }
}
