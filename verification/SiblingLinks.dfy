/** The doubly linked list of a stream's dependents and the surgery the tree operations do on it. */
module SiblingLinks {
  import opened StreamQueue
  import opened Forest

  function At(s: seq<Stream>, i: int): (x: Stream?)
  {
    if 0 <= i < |s| then s[i] else null
  }

  function Only(x: Stream?): set<Stream>
  {
    if x == null then {} else {x}
  }

  /** The dependents of `p`, as the links from `p` on tell. */
  ghost predicate LinkedKids(p: Stream, kids: seq<Stream>)
    reads p`depNext, kids`depPrev, kids`sibPrev, kids`sibNext
  {
    && p.depNext == At(kids, 0)
    && forall i :: 0 <= i < |kids| ==>
         kids[i].depPrev == p && kids[i].sibPrev == At(kids, i - 1) && kids[i].sibNext == At(kids, i + 1)
  }

  ghost predicate Loose(x: Stream)
    reads x`depPrev, x`sibPrev, x`sibNext
  {
    x.depPrev == null && x.sibPrev == null && x.sibNext == null
  }

  /** `kids` from place `i` on are chained by their sibling links. */
  method LastSib(ghost kids: seq<Stream>, ghost i: nat, x: Stream) returns (last: Stream)
    requires i < |kids| && kids[i] == x
    requires forall j :: 0 <= j < |kids| ==> kids[j].sibNext == At(kids, j + 1)
    ensures last == kids[|kids| - 1]
  {
    last := x;
    ghost var k := i;
    while last.sibNext != null
      invariant k < |kids| && last == kids[k]
      decreases |kids| - k
    {
      last := last.sibNext;
      k := k + 1;
    }
  }

  /** `link_dep`. */
  method LinkDep(dep: Stream, s: Stream?)
    modifies dep`depNext, Only(s)`depPrev
    ensures dep.depNext == s && (s != null ==> s.depPrev == dep)
  {
    dep.depNext := s;
    if s != null { s.depPrev := dep; }
  }

  /** `link_sib`. */
  method LinkSib(a: Stream, b: Stream?)
    modifies a`sibNext, Only(b)`sibPrev
    ensures a.sibNext == b && (b != null ==> b.sibPrev == a)
  {
    a.sibNext := b;
    if b != null { b.sibPrev := a; }
  }

  lemma ConsAt(s: Stream, kids: seq<Stream>, j: int)
    ensures At([s] + kids, j) == if j == 0 then s else At(kids, j - 1)
  {}

  /** `insert_link_dep`, or `link_dep` when there is no dependent yet. */
  method LinkFirst(dep: Stream, s: Stream, ghost kids: seq<Stream>)
    requires LinkedKids(dep, kids) && Loose(s) && s !in kids && Distinct(kids)
    modifies dep`depNext, s`depPrev, s`sibNext, kids`sibPrev
    ensures LinkedKids(dep, [s] + kids)
  {
    hide At;
    if kids != [] { AtEdges(kids, 0); } else { AtNone(); }
    if dep.depNext == null {
      LinkDep(dep, s);
    } else {
      LinkSib(s, dep.depNext);
      LinkDep(dep, s);
    }
    ghost var all := [s] + kids;
    ConsAt(s, kids, 0);
    forall j | 0 <= j < |all|
      ensures all[j].depPrev == dep && all[j].sibPrev == At(all, j - 1) && all[j].sibNext == At(all, j + 1) {
      ConsAt(s, kids, j - 1);
      ConsAt(s, kids, j + 1);
      if j > 0 { AtEdges(all, j); }
      assert At(all, -1) == null by { AtEdges(all, 0); }
    }
  }

  lemma AtNone()
    ensures forall j: int :: At([], j) == null
  {}

  lemma WithoutAt(kids: seq<Stream>, i: nat, j: int)
    requires i < |kids|
    ensures At(kids[..i] + kids[i + 1..], j) == if j < i then At(kids, j) else At(kids, j + 1)
  {}

  /** The unlinking part of `nghttp2_stream_dep_remove_subtree`, `s` being at place `i`. */
  method CutOut(dep: Stream, s: Stream, ghost kids: seq<Stream>, ghost i: nat)
    requires i < |kids| && kids[i] == s && s.depPrev == dep && LinkedKids(dep, kids) && Distinct(kids)
    modifies dep`depNext, kids`sibPrev, kids`sibNext, kids`depPrev
    ensures LinkedKids(dep, kids[..i] + kids[i + 1..]) && s.depPrev == dep
  {
    hide At;
    ghost var rest := kids[..i] + kids[i + 1..];
    AtEdges(kids, i);
    if s.sibPrev != null {
      LinkSib(s.sibPrev, s.sibNext);
    } else {
      var next := s.sibNext;
      LinkDep(s.depPrev, next);
      if next != null {
        next.sibPrev := null;
      }
    }
    WithoutAt(kids, i, 0);
    forall j | 0 <= j < |rest|
      ensures rest[j].depPrev == dep && rest[j].sibPrev == At(rest, j - 1) && rest[j].sibNext == At(rest, j + 1) {
      WithoutAt(kids, i, j);
      WithoutAt(kids, i, j - 1);
      WithoutAt(kids, i, j + 1);
    }
  }

  lemma AtEdges(kids: seq<Stream>, i: nat)
    requires i < |kids|
    ensures At(kids, i - 1) == null <==> i == 0
    ensures At(kids, i + 1) == null <==> i + 1 == |kids|
    ensures i > 0 ==> At(kids, i - 1) == kids[i - 1]
    ensures i + 1 < |kids| ==> At(kids, i + 1) == kids[i + 1]
    ensures At(kids, 0) == kids[0] && At(kids, -1) == null
  {}

  /** `set_dep_prev` over a whole list. */
  method SetDepPrev(x: Stream?, dep: Stream, ghost kids: seq<Stream>)
    requires x == At(kids, 0) && forall j :: 0 <= j < |kids| ==> kids[j].sibNext == At(kids, j + 1)
    modifies kids`depPrev
    ensures forall j :: 0 <= j < |kids| ==> kids[j].depPrev == dep
  {
    var y := x;
    ghost var k := 0;
    while y != null
      invariant 0 <= k <= |kids| && y == At(kids, k)
      invariant forall j :: 0 <= j < k ==> kids[j].depPrev == dep
      decreases |kids| - k
    {
      y.depPrev := dep;
      y := y.sibNext;
      k := k + 1;
    }
  }

  /** The siblings before and after the list that takes the place of `s`. */
  ghost predicate Spliced(kids: seq<Stream>, i: nat, sub: seq<Stream>)
    requires i < |kids| && sub != []
    reads kids`sibPrev, kids`sibNext, sub`sibPrev, sub`sibNext
  {
    && sub[0].sibPrev == At(kids, i - 1) && sub[|sub| - 1].sibNext == At(kids, i + 1)
    && (i > 0 ==> kids[i - 1].sibNext == sub[0])
    && (i + 1 < |kids| ==> kids[i + 1].sibPrev == sub[|sub| - 1])
  }

  /** The links of a list, as far as they lead neither out of it nor to place `i`. */
  ghost predicate Inner(kids: seq<Stream>, dep: Stream, i: int)
    reads kids`depPrev, kids`sibPrev, kids`sibNext
  {
    && (forall j :: 0 <= j < |kids| && j != i ==> kids[j].depPrev == dep)
    && (forall j :: 0 <= j < |kids| && j != i && j - 1 != i ==> kids[j].sibPrev == At(kids, j - 1))
    && (forall j :: 0 <= j < |kids| && j != i && j + 1 != i ==> kids[j].sibNext == At(kids, j + 1))
  }

  ghost predicate InnerSub(sub: seq<Stream>)
    reads sub`sibPrev, sub`sibNext
  {
    && (forall j :: 0 < j < |sub| ==> sub[j].sibPrev == sub[j - 1])
    && (forall j :: 0 <= j < |sub| - 1 ==> sub[j].sibNext == sub[j + 1])
  }

  lemma SplicedAt(kids: seq<Stream>, i: nat, sub: seq<Stream>, j: int)
    requires i < |kids|
    ensures At(kids[..i] + sub + kids[i + 1..], j) ==
            if j < i then At(kids, j) else if j < i + |sub| then sub[j - i] else At(kids, j - |sub| + 1)
  {}

  /** These facts make the combined list a list of `dep`'s dependents. */
  lemma SplicedKids(dep: Stream, kids: seq<Stream>, i: nat, sub: seq<Stream>)
    requires i < |kids| && sub != [] && Spliced(kids, i, sub) && Inner(kids, dep, i)
    requires InnerSub(sub) && Parented(sub, dep)
    requires dep.depNext == if i == 0 then sub[0] else kids[0]
    ensures LinkedKids(dep, kids[..i] + sub + kids[i + 1..])
  {
    var all, n := kids[..i] + sub + kids[i + 1..], |sub|;
    assert dep.depNext == At(all, 0);
    forall j | 0 <= j < |all|
      ensures all[j].depPrev == dep && all[j].sibPrev == At(all, j - 1) && all[j].sibNext == At(all, j + 1)
    {
      if j < i {
        assert all[j] == kids[j];
      } else if j < i + n {
        assert all[j] == sub[j - i];
      } else {
        assert all[j] == kids[j - n + 1];
      }
      SplicedAt(kids, i, sub, j - 1);
      SplicedAt(kids, i, sub, j + 1);
    }
  }

  /** A list by itself: its links as far as they stay inside. */
  ghost predicate Chain(sub: seq<Stream>)
    reads sub`sibPrev, sub`sibNext
  {
    && (forall j :: 0 <= j < |sub| ==> sub[j].sibNext == At(sub, j + 1))
    && (forall j :: 0 < j < |sub| ==> sub[j].sibPrev == sub[j - 1])
  }

  ghost predicate Parented(sub: seq<Stream>, dep: Stream)
    reads sub`depPrev
  {
    forall j :: 0 <= j < |sub| ==> sub[j].depPrev == dep
  }

  ghost predicate Disjoint(a: seq<Stream>, b: seq<Stream>)
  {
    forall i, j :: 0 <= i < |a| && 0 <= j < |b| ==> a[i] != b[j]
  }

  /** The front end of the list that takes the place of `s`. */
  method JoinFront(dep: Stream, s: Stream, ghost kids: seq<Stream>, ghost i: nat, first: Stream, ghost sub: seq<Stream>)
    requires i < |kids| && kids[i] == s && sub != [] && sub[0] == first && Distinct(sub)
    requires s.sibPrev == At(kids, i - 1) && dep.depNext == kids[0] && first.sibPrev == null
    requires Inner(kids, dep, i) && Distinct(kids) && Disjoint(kids, sub) && Chain(sub)
    modifies dep`depNext, kids`sibNext, first`sibPrev, first`depPrev
    ensures dep.depNext == if i == 0 then first else kids[0]
    ensures i > 0 ==> kids[i - 1].sibNext == first
    ensures first.sibPrev == At(kids, i - 1) && Inner(kids, dep, i) && Chain(sub) && s.sibNext == old(s.sibNext)
  {
    hide Distinct, Disjoint;
    Fronts(kids, i, sub);
    if s.sibPrev != null {
      LinkSib(s.sibPrev, first);
    } else {
      LinkDep(dep, first);
    }
  }

  lemma Fronts(kids: seq<Stream>, i: nat, sub: seq<Stream>)
    requires i < |kids| && sub != [] && Distinct(sub) && Distinct(kids) && Disjoint(kids, sub)
    ensures forall j :: 0 <= j < |kids| ==> kids[j] != sub[0] && (i > 0 && j != i - 1 ==> kids[j] != kids[i - 1])
    ensures forall j :: 0 <= j < |sub| ==> (j > 0 ==> sub[j] != sub[0]) && (i > 0 ==> sub[j] != kids[i - 1])
  {}

  /** The forward half of `link_sib` at the end of a list. */
  method ExtendBack(last: Stream, next: Stream, ghost sub: seq<Stream>)
    requires sub != [] && last == sub[|sub| - 1] && Chain(sub) && Distinct(sub)
    modifies last`sibNext
    ensures last.sibNext == next && InnerSub(sub)
  {
    last.sibNext := next;
  }

  /** The backward half, behind the place `i` of another list. */
  method ExtendFront(ghost dep: Stream, next: Stream, last: Stream, ghost kids: seq<Stream>, ghost i: nat)
    requires i + 1 < |kids| && next == kids[i + 1] && Inner(kids, dep, i) && Distinct(kids)
    modifies next`sibPrev
    ensures next.sibPrev == last && Inner(kids, dep, i)
  {
    next.sibPrev := last;
  }

  lemma ChainEnds(sub: seq<Stream>)
    requires Chain(sub) && sub != []
    ensures sub[|sub| - 1].sibNext == null && InnerSub(sub)
    ensures forall j :: 0 <= j < |sub| ==> sub[j].sibNext == At(sub, j + 1)
  {}

  /** The back end. */
  method JoinBack(ghost dep: Stream, s: Stream, ghost kids: seq<Stream>, ghost i: nat, first: Stream, ghost sub: seq<Stream>)
    requires i < |kids| && kids[i] == s && sub != [] && sub[0] == first
    requires s.sibNext == At(kids, i + 1) && Chain(sub) && Distinct(sub)
    requires first.sibPrev == At(kids, i - 1) && (i > 0 ==> kids[i - 1].sibNext == first)
    requires Inner(kids, dep, i) && Distinct(kids) && Disjoint(kids, sub)
    modifies kids`sibPrev, sub`sibNext
    ensures Spliced(kids, i, sub) && InnerSub(sub) && Inner(kids, dep, i)
  {
    hide Inner, InnerSub, Chain, Distinct;
    ChainEnds(sub);
    if s.sibNext != null {
      var last := LastSib(sub, 0, first);
      var next := s.sibNext;
      ExtendBack(last, next, sub);
      ExtendFront(dep, next, last, kids, i);
    }
  }

  /** The lists the surgery starts from. */
  lemma BeforeSplice(dep: Stream, s: Stream, kids: seq<Stream>, i: nat, sub: seq<Stream>)
    requires i < |kids| && kids[i] == s && LinkedKids(dep, kids) && LinkedKids(s, sub) && sub != []
    ensures s.sibPrev == At(kids, i - 1) && s.sibNext == At(kids, i + 1) && dep.depNext == kids[0]
    ensures s.depNext == sub[0] && sub[0].sibPrev == null
    ensures Chain(sub) && Inner(kids, dep, i)
  {}

  /** `set_dep_prev` on a list that is disjoint from another. */
  method AdoptAll(dep: Stream, ghost kids: seq<Stream>, ghost i: nat, first: Stream, ghost sub: seq<Stream>)
    requires sub != [] && sub[0] == first && Chain(sub) && Inner(kids, dep, i) && Disjoint(kids, sub)
    modifies sub`depPrev
    ensures Parented(sub, dep) && Inner(kids, dep, i)
  {
    SetDepPrev(first, dep, sub);
  }

  /** `unlink_sib` and `unlink_dep` for a stream with dependents. */
  method SpliceOut(dep: Stream, s: Stream, ghost kids: seq<Stream>, ghost i: nat, ghost sub: seq<Stream>)
    requires i < |kids| && kids[i] == s && s.depPrev == dep && LinkedKids(dep, kids) && Distinct(kids)
    requires LinkedKids(s, sub) && sub != [] && Distinct(sub) && Disjoint(kids, sub)
    modifies dep`depNext, kids`sibPrev, kids`sibNext, sub`sibPrev, sub`sibNext, sub`depPrev
    ensures LinkedKids(dep, kids[..i] + sub + kids[i + 1..])
  {
    hide LinkedKids, Inner, InnerSub, Spliced, Chain, Disjoint, Distinct, Parented;
    BeforeSplice(dep, s, kids, i, sub);
    var first := s.depNext;
    JoinFront(dep, s, kids, i, first, sub);
    AdoptAll(dep, kids, i, first, sub);
    JoinBack(dep, s, kids, i, first, sub);
    SplicedKids(dep, kids, i, sub);
  }
}
