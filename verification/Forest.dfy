/** Dependency forests of streams (section 5.3 of RFC 7540) as values: who depends on whom, in
    which order, with which weight. `rank` grows along every dependency, so there is no cycle. */
module Forest {
  import opened StreamQueue

  datatype Tree = Tree(nodes: set<Stream>, par: map<Stream, Stream>, kids: map<Stream, seq<Stream>>,
                       rank: map<Stream, nat>, wt: map<Stream, int>)

  ghost predicate Ranked(t: Tree)
  {
    && t.rank.Keys == t.nodes
    && forall x :: x in t.par ==> x in t.nodes && t.par[x] in t.nodes && t.rank[t.par[x]] < t.rank[x]
  }

  /** `kids[p]` lists the streams whose parent is `p`, each once. */
  ghost predicate Listed(t: Tree)
  {
    t.kids.Keys == t.nodes && ListedUp(t) && ListedDown(t) && ListedOnce(t)
  }

  ghost predicate ListedUp(t: Tree)
    requires t.kids.Keys == t.nodes
  {
    forall x :: x in t.par ==> x in t.nodes && t.par[x] in t.nodes && x in t.kids[t.par[x]]
  }

  ghost predicate ListedDown(t: Tree)
    requires t.kids.Keys == t.nodes
  {
    forall p, i :: p in t.nodes && 0 <= i < |t.kids[p]| ==> t.kids[p][i] in t.par && t.par[t.kids[p][i]] == p
  }

  ghost predicate ListedOnce(t: Tree)
    requires t.kids.Keys == t.nodes
  {
    forall p :: p in t.nodes ==> Distinct(t.kids[p])
  }

  ghost predicate Distinct(s: seq<Stream>)
  {
    forall i, j :: 0 <= i < j < |s| ==> s[i] != s[j]
  }

  ghost predicate WeightsInRange(t: Tree)
  {
    t.wt.Keys == t.nodes && forall x :: x in t.nodes ==> 1 <= t.wt[x] <= 256
  }

  ghost predicate WellFormed(t: Tree)
  {
    Ranked(t) && Listed(t) && WeightsInRange(t)
  }

  ghost function ParentOf(t: Tree, x: Stream): (p: Stream?)
  {
    if x in t.par then t.par[x] else null
  }

  /** The weights of the listed streams added up. */
  ghost function SumOf(wt: map<Stream, int>, s: seq<Stream>): (n: int)
    requires forall x :: x in s ==> x in wt
  {
    if s == [] then 0 else SumOf(wt, s[..|s| - 1]) + wt[s[|s| - 1]]
  }

  /** The place of `x` in a list it occurs in. */
  ghost function IndexOf(s: seq<Stream>, x: Stream): (i: nat)
    requires x in s
    ensures i < |s| && s[i] == x
  {
    if s[0] == x then 0 else 1 + IndexOf(s[1..], x)
  }

  // ---------------------------------------------------------------- ancestors

  ghost function Root(t: Tree, x: Stream): (r: Stream)
    requires Ranked(t) && x in t.nodes
    ensures r in t.nodes && r !in t.par
    decreases t.rank[x]
  {
    if x in t.par then Root(t, t.par[x]) else x
  }

  /** `a` is `x` or one of the streams `x` depends on. */
  ghost predicate Ancestor(t: Tree, a: Stream, x: Stream)
    requires Ranked(t) && x in t.nodes
    decreases t.rank[x]
  {
    a == x || (x in t.par && Ancestor(t, a, t.par[x]))
  }

  lemma {:induction false} RootAncestor(t: Tree, a: Stream, x: Stream)
    requires Ranked(t) && x in t.nodes && a in t.nodes && a !in t.par
    ensures Ancestor(t, a, x) <==> Root(t, x) == a
    decreases t.rank[x]
  {
    if x in t.par { RootAncestor(t, a, t.par[x]); }
  }

  // ---------------------------------------------------------------- operations

  /** The ranks after the tree rooted at `s` was hung below `dep`: between the ranks of `dep` and of
      everything that depended on `dep` there is room for `s`. */
  ghost function Lift(t: Tree, dep: Stream, s: Stream): (rank: map<Stream, nat>)
    requires Ranked(t) && dep in t.nodes && s in t.nodes
  {
    map x | x in t.nodes ::
      if Root(t, x) == s then t.rank[dep] * (t.rank[s] + 2) + 1 + t.rank[x] else t.rank[x] * (t.rank[s] + 2)
  }

  /** `s`, with everything below it, becomes the first dependent of `dep`. */
  ghost function Graft(t: Tree, dep: Stream, s: Stream): (u: Tree)
    requires WellFormed(t) && dep in t.nodes && s in t.nodes
  {
    Tree(t.nodes, t.par[s := dep], t.kids[dep := [s] + t.kids[dep]], Lift(t, dep, s), t.wt)
  }

  /** As `Graft`, and what depended on `dep` now depends on `s`, after the streams that already did. */
  ghost function GraftExclusive(t: Tree, dep: Stream, s: Stream): (u: Tree)
    requires WellFormed(t) && dep in t.nodes && s in t.nodes
  {
    Tree(t.nodes,
         map x | x in t.par.Keys + {s} :: if x == s then dep else if t.par[x] == dep then s else t.par[x],
         t.kids[dep := [s]][s := t.kids[s] + t.kids[dep]],
         Lift(t, dep, s), t.wt)
  }

  /** `s`, with everything below it, is cut off and becomes a root. */
  ghost function Prune(t: Tree, s: Stream): (u: Tree)
    requires WellFormed(t) && s in t.par
  {
    var p := t.par[s];
    var i := IndexOf(t.kids[p], s);
    Tree(t.nodes, map x | x in t.par && x != s :: t.par[x],
         t.kids[p := t.kids[p][..i] + t.kids[p][i + 1..]], t.rank, t.wt)
  }

  /** `nghttp2_stream_dep_distributed_weight`. */
  function DistributedWeight(weight: int, sum: int, w: int): (r: int)
    requires sum > 0
    ensures r >= 1
  {
    if weight * w / sum >= 1 then weight * w / sum else 1
  }

  /** `s` alone is taken out; its dependents take its place and share its weight. */
  ghost function Splice(t: Tree, s: Stream): (u: Tree)
    requires WellFormed(t) && s in t.par
  {
    var p := t.par[s];
    var i := IndexOf(t.kids[p], s);
    Tree(t.nodes,
         map x | x in t.par && x != s :: if t.par[x] == s then p else t.par[x],
         t.kids[p := t.kids[p][..i] + t.kids[s] + t.kids[p][i + 1..]][s := []],
         t.rank, Redistributed(t, s))
  }

  ghost function Redistributed(t: Tree, s: Stream): (wt: map<Stream, int>)
    requires WellFormed(t) && s in t.nodes
  {
    var sum := SumOf(t.wt, t.kids[s]);
    map x | x in t.nodes :: if x in t.kids[s] then Share(t, s, sum, x) else t.wt[x]
  }

  ghost function Share(t: Tree, s: Stream, sum: int, x: Stream): int
    requires WellFormed(t) && s in t.nodes && x in t.nodes
  {
    if sum > 0 then DistributedWeight(t.wt[s], sum, t.wt[x]) else 1
  }

  // ---------------------------------------------------------------- what the operations keep

  lemma {:induction false} LiftRises(m: nat, r: nat, k: nat)
    requires k >= 2 && m < r
    ensures m * k + k <= r * k
    decreases r
  {
    if m + 1 < r {
      LiftRises(m, r - 1, k);
      assert r * k == (r - 1) * k + k;
    } else {
      assert r * k == m * k + k;
    }
  }

  lemma LiftRank(t: Tree, dep: Stream, s: Stream, x: Stream)
    requires Ranked(t) && dep in t.nodes && s in t.nodes && s !in t.par && Root(t, dep) != s
    requires x in t.par
    ensures var l := Lift(t, dep, s); l[t.par[x]] < l[x]
    ensures t.par[x] == dep ==> Lift(t, dep, s)[s] < Lift(t, dep, s)[x]
  {
    var k := t.rank[s] + 2;
    assert Root(t, x) == Root(t, t.par[x]) && t.rank[t.par[x]] < t.rank[x];
    assert Root(t, s) == s;
    LiftRises(t.rank[t.par[x]], t.rank[x], k);
  }

  lemma LiftRanks(t: Tree, dep: Stream, s: Stream)
    requires Ranked(t) && dep in t.nodes && s in t.nodes && s !in t.par && Root(t, dep) != s
    ensures var l := Lift(t, dep, s);
            && l.Keys == t.nodes && l[dep] < l[s]
            && forall x :: x in t.par ==> l[t.par[x]] < l[x] && (t.par[x] == dep ==> l[s] < l[x])
  {
    assert Root(t, s) == s;
    var l := Lift(t, dep, s);
    assert l[dep] < l[s];
    forall x | x in t.par ensures l[t.par[x]] < l[x] && (t.par[x] == dep ==> l[s] < l[x]) {
      LiftRank(t, dep, s, x);
    }
  }

  lemma GraftRanked(t: Tree, dep: Stream, s: Stream)
    requires WellFormed(t) && dep in t.nodes && s in t.nodes && s !in t.par && Root(t, dep) != s
    ensures Ranked(Graft(t, dep, s)) && Ranked(GraftExclusive(t, dep, s))
  {
    hide Listed, WeightsInRange, Lift, Root;
    LiftRanks(t, dep, s);
  }

  lemma GraftListed(t: Tree, dep: Stream, s: Stream)
    requires WellFormed(t) && dep in t.nodes && s in t.nodes && s !in t.par
    ensures Listed(Graft(t, dep, s))
  {
    hide Ranked, WeightsInRange, Lift;
    var u := Graft(t, dep, s);
    assert s !in t.kids[dep];
    forall x | x in u.par ensures x in u.kids[u.par[x]] {
      if x == s { assert u.kids[dep][0] == s; } else { assert x in t.kids[t.par[x]]; }
    }
    assert Distinct(u.kids[dep]);
  }

  /** The list of `dep`'s dependents appended to that of `s`. */
  lemma AppendDistinct(t: Tree, dep: Stream, s: Stream)
    requires Listed(t) && dep in t.nodes && s in t.nodes && s != dep
    ensures Distinct(t.kids[s] + t.kids[dep])
  {}

  lemma GraftExclusiveUp(t: Tree, dep: Stream, s: Stream)
    requires WellFormed(t) && dep in t.nodes && s in t.nodes && s !in t.par && s != dep
    ensures ListedUp(GraftExclusive(t, dep, s))
  {
    hide Ranked, WeightsInRange, Lift, ListedDown, ListedOnce;
    var u := GraftExclusive(t, dep, s);
    forall x | x in u.par ensures x in u.kids[u.par[x]] {
      if x == s { assert u.kids[dep][0] == s; } else { assert x in t.kids[t.par[x]]; }
    }
  }

  lemma GraftExclusiveListed(t: Tree, dep: Stream, s: Stream)
    requires WellFormed(t) && dep in t.nodes && s in t.nodes && s !in t.par && s != dep
    ensures Listed(GraftExclusive(t, dep, s))
  {
    hide Ranked, WeightsInRange, Lift, ListedUp;
    GraftExclusiveUp(t, dep, s);
    AppendDistinct(t, dep, s);
    var u := GraftExclusive(t, dep, s);
    assert u.kids[s] == t.kids[s] + t.kids[dep];
  }

  lemma PruneListed(t: Tree, s: Stream)
    requires WellFormed(t) && s in t.par
    ensures Listed(Prune(t, s)) && Ranked(Prune(t, s))
  {
    hide WeightsInRange, IndexOf, Distinct;
    var u, p := Prune(t, s), t.par[s];
    var i := IndexOf(t.kids[p], s);
    WithoutDistinct(t.kids[p], i);
    forall x | x in u.par ensures x in u.kids[u.par[x]] {
      var j := IndexOf(t.kids[t.par[x]], x);
      if t.par[x] == p { assert u.kids[p][if j < i then j else j - 1] == x; }
    }
  }

  lemma WithoutDistinct(a: seq<Stream>, i: nat)
    requires Distinct(a) && i < |a|
    ensures Distinct(a[..i] + a[i + 1..]) && forall j :: 0 <= j < |a| && j != i ==> a[j] != a[i]
  {}

  /** The list of `s`'s dependents in the place of `s`. */
  lemma SpliceDistinct(a: seq<Stream>, i: nat, b: seq<Stream>)
    requires Distinct(a) && Distinct(b) && i < |a| && forall x :: x in b ==> x !in a
    ensures Distinct(a[..i] + b + a[i + 1..])
  {
    var c := a[..i] + b + a[i + 1..];
    var n := |b|;
    assert forall k :: 0 <= k < i ==> c[k] == a[k];
    assert forall k :: i <= k < i + n ==> c[k] == b[k - i];
    assert forall k :: i + n <= k < |c| ==> c[k] == a[k - n + 1];
    forall j, k | 0 <= j < k < |c| ensures c[j] != c[k] {
      var x, y := c[j], c[k];
      if i <= j < i + n { assert x in b; } else { assert x in a; }
      if i <= k < i + n { assert y in b; } else { assert y in a; }
    }
  }

  lemma NotOwnParent(t: Tree, s: Stream)
    requires Ranked(t) && s in t.par
    ensures t.par[s] != s
  {}

  lemma SpliceUp(t: Tree, s: Stream)
    requires WellFormed(t) && s in t.par
    ensures ListedUp(Splice(t, s))
  {
    hide Ranked, WeightsInRange, IndexOf, Redistributed, ListedOnce, ListedDown;
    NotOwnParent(t, s);
    var u, p := Splice(t, s), t.par[s];
    var i := IndexOf(t.kids[p], s);
    forall x | x in u.par ensures x in u.kids[u.par[x]] {
      var j := IndexOf(t.kids[t.par[x]], x);
      if t.par[x] == s {
        assert u.kids[p][i + j] == x;
      } else if t.par[x] == p {
        assert u.kids[p][if j < i then j else j - 1 + |t.kids[s]|] == x;
      }
    }
  }

  lemma SpliceDown(t: Tree, s: Stream)
    requires WellFormed(t) && s in t.par
    ensures ListedDown(Splice(t, s))
  {
    hide WeightsInRange, IndexOf, Redistributed, ListedUp;
    var u, p := Splice(t, s), t.par[s];
    var i, n := IndexOf(t.kids[p], s), |t.kids[s]|;
    forall j | 0 <= j < |u.kids[p]| ensures u.kids[p][j] in u.par && u.par[u.kids[p][j]] == p {
      var x := u.kids[p][j];
      if j < i { assert x == t.kids[p][j]; } else if j < i + n { assert x == t.kids[s][j - i]; }
      else { assert x == t.kids[p][j - n + 1]; }
    }
  }

  lemma NoneDistinct()
    ensures Distinct([])
  {}

  lemma SpliceOnce(t: Tree, s: Stream)
    requires WellFormed(t) && s in t.par
    ensures ListedOnce(Splice(t, s))
  {
    hide WeightsInRange, IndexOf, Redistributed, Ranked, Distinct;
    var p := t.par[s];
    NotOwnParent(t, s);
    assert forall x :: x in t.kids[s] ==> t.par[x] == s;
    assert forall x :: x in t.kids[p] ==> t.par[x] == p;
    SpliceDistinct(t.kids[p], IndexOf(t.kids[p], s), t.kids[s]);
    NoneDistinct();
  }

  lemma SpliceListed(t: Tree, s: Stream)
    requires WellFormed(t) && s in t.par
    ensures Listed(Splice(t, s)) && Ranked(Splice(t, s))
  {
    hide WeightsInRange, IndexOf, Redistributed, ListedUp, ListedDown, ListedOnce;
    SpliceUp(t, s);
    SpliceDown(t, s);
    SpliceOnce(t, s);
  }

  /** The sum over a list bounds each of its members. */
  lemma {:induction false} SumBounds(wt: map<Stream, int>, s: seq<Stream>, x: Stream)
    requires forall y :: y in s ==> y in wt && wt[y] >= 1
    ensures SumOf(wt, s) >= |s|
    ensures x in s ==> SumOf(wt, s) >= wt[x]
  {
    if s != [] {
      var r := s[..|s| - 1];
      assert s == r + [s[|s| - 1]];
      SumBounds(wt, r, x);
    }
  }

  /** `r` is the part of `weight` that goes to `w` out of `sum`, rounded down but at least 1. */
  ghost predicate Proportional(r: int, weight: int, sum: int, w: int)
  {
    r >= 1 && (r * sum <= weight * w < (r + 1) * sum || (r == 1 && weight * w < sum))
  }

  lemma ShareProportional(weight: int, sum: int, w: int)
    requires weight >= 1 && 1 <= w <= sum
    ensures Proportional(DistributedWeight(weight, sum, w), weight, sum, w)
  {
    var x := weight * w;
    var q := x / sum;
    assert x == sum * q + x % sum;
    assert q * sum == sum * q && (q + 1) * sum == sum * q + sum;
    if q < 1 { assert x < sum by { NotWhole(x, sum); } }
  }

  /** There is no other. */
  lemma ShareIs(r: int, weight: int, sum: int, w: int)
    requires weight >= 1 && 1 <= w <= sum
    ensures r == DistributedWeight(weight, sum, w) <==> Proportional(r, weight, sum, w)
  {
    var d := DistributedWeight(weight, sum, w);
    ShareProportional(weight, sum, w);
    hide DistributedWeight;
    if Proportional(r, weight, sum, w) {
      Rounded(r, d, weight * w, sum);
      Rounded(d, r, weight * w, sum);
    }
  }

  lemma Rounded(a: int, b: int, x: int, sum: int)
    requires sum > 0 && a >= 1 && b >= 1
    requires a * sum <= x < (a + 1) * sum || (a == 1 && x < sum)
    requires b * sum <= x < (b + 1) * sum || (b == 1 && x < sum)
    ensures a <= b
  {
    Grows(a, b + 1, sum);
    Grows(a, 2, sum);
  }

  lemma Grows(a: int, b: int, k: int)
    requires k >= 0
    ensures a >= b ==> a * k >= b * k
  {
    if a >= b {
      assert (a - b) * k >= 0;
      assert a * k == b * k + (a - b) * k;
    }
  }

  lemma NotWhole(x: int, sum: int)
    requires sum > 0 && x / sum < 1
    ensures x < sum
  {
    var q := x / sum;
    assert x == sum * q + x % sum;
    assert sum * q <= 0 by { assert sum * (0 - q) >= 0; }
  }

  lemma ShareInRange(weight: int, sum: int, w: int)
    requires 1 <= weight <= 256 && 1 <= w <= sum
    ensures 1 <= DistributedWeight(weight, sum, w) <= weight
  {
    var q := weight * w / sum;
    assert q * sum <= weight * w;
    assert weight * w <= weight * sum by { assert weight * (sum - w) >= 0; }
    assert q * sum <= weight * sum;
    Cancel(q, weight, sum);
  }

  lemma Cancel(a: int, b: int, k: int)
    requires k > 0 && a * k <= b * k
    ensures a <= b
  {
    assert a > b ==> (a - b - 1) * k >= 0;
    assert (a - b) * k <= 0;
  }

  lemma SpliceWeights(t: Tree, s: Stream)
    requires WellFormed(t) && s in t.par
    ensures WeightsInRange(Splice(t, s))
  {
    hide Ranked, SumOf, IndexOf;
    var sum := SumOf(t.wt, t.kids[s]);
    forall x | x in t.kids[s] ensures 1 <= Share(t, s, sum, x) <= 256 {
      SumBounds(t.wt, t.kids[s], x);
      ShareInRange(t.wt[s], sum, t.wt[x]);
    }
  }

  /** Every operation keeps a well-formed forest. */
  lemma OperationsKeepShape(t: Tree, dep: Stream, s: Stream)
    requires WellFormed(t) && dep in t.nodes && s in t.nodes
    ensures s !in t.par && Root(t, dep) != s ==> WellFormed(Graft(t, dep, s)) && WellFormed(GraftExclusive(t, dep, s))
    ensures s in t.par ==> WellFormed(Prune(t, s)) && WellFormed(Splice(t, s))
  {
    hide Ranked, Listed, Lift, Redistributed;
    if s !in t.par && Root(t, dep) != s {
      GraftRanked(t, dep, s);
      GraftListed(t, dep, s);
      GraftExclusiveListed(t, dep, s);
    }
    if s in t.par {
      PruneListed(t, s);
      SpliceListed(t, s);
      SpliceWeights(t, s);
    }
  }

  lemma {:induction false} SumAppend(wt: map<Stream, int>, a: seq<Stream>, b: seq<Stream>)
    requires forall x :: x in a || x in b ==> x in wt
    ensures SumOf(wt, a + b) == SumOf(wt, a) + SumOf(wt, b)
  {
    if b == [] {
      assert a + b == a;
    } else {
      var c := b[..|b| - 1];
      assert b == c + [b[|b| - 1]];
      assert (a + b)[..|a + b| - 1] == a + c;
      SumAppend(wt, a, c);
    }
  }

  /** The sum depends on the weights of the listed streams only. */
  lemma {:induction false} SumSame(wt: map<Stream, int>, vt: map<Stream, int>, s: seq<Stream>)
    requires forall x :: x in s ==> x in wt && x in vt && wt[x] == vt[x]
    ensures SumOf(wt, s) == SumOf(vt, s)
  {
    if s != [] {
      assert s == s[..|s| - 1] + [s[|s| - 1]];
      SumSame(wt, vt, s[..|s| - 1]);
    }
  }

  /** Streams that are no ancestors of one another: hanging the root `s` below `dep` makes no cycle. */
  ghost predicate Graftable(t: Tree, dep: Stream, s: Stream)
    requires Ranked(t)
  {
    dep in t.nodes && s in t.nodes && s !in t.par && !Ancestor(t, s, dep)
  }

  lemma GraftableShape(t: Tree, dep: Stream, s: Stream)
    requires WellFormed(t) && Graftable(t, dep, s)
    ensures s != dep && Root(t, dep) != s
    ensures WellFormed(Graft(t, dep, s)) && WellFormed(GraftExclusive(t, dep, s))
  {
    hide Ranked, Listed, WeightsInRange, Lift;
    RootAncestor(t, s, dep);
    OperationsKeepShape(t, dep, s);
  }

  /** A new stream without parent or dependents. */
  ghost function Opened(t: Tree, s: Stream, w: int): Tree
  {
    Tree(t.nodes + {s}, t.par, t.kids[s := []], t.rank[s := 0], t.wt[s := w])
  }

  lemma OpenedListed(t: Tree, s: Stream, w: int)
    requires Listed(t) && s !in t.nodes
    ensures Listed(Opened(t, s, w))
  {}

  lemma OpenedShape(t: Tree, s: Stream, w: int)
    requires WellFormed(t) && s !in t.nodes && 1 <= w <= 256
    ensures WellFormed(Opened(t, s, w))
  {
    hide ListedUp, ListedDown, ListedOnce;
    OpenedListed(t, s, w);
  }
}
