/** Which backups a forget may delete (core/forget).

A policy names backups to keep; whatever those refer to, as incremental parent or
as the backup holding a file's data, must be kept with them. */
module Forget {
  import opened Options
  import opened Sorting
  import opened StringOrder

  // A backup's references and the hashes of its chunks.
  datatype Manifest = Manifest(parent: string, data: seq<string>, hashes: seq<nat>)

  datatype Edge = Edge(id: string, via: string)
  datatype Dangling = Dangling(from: string, to: string, via: string)

  // b names id, as its parent or as the place of a file's data.
  predicate Refers(b: Manifest, id: string) {
    id != "" && (id == b.parent || id in b.data)
  }

  predicate IsEdge(b: Manifest, e: Edge) {
    e.id != "" && ((e.via == "parent" && e.id == b.parent) || (e.via == "data" && e.id in b.data))
  }

  ghost predicate Apart<T>(s: seq<T>) {
    forall i, j :: 0 <= i < j < |s| ==> s[i] != s[j]
  }

  // Each reference once.
  method ReferenceEdges(b: Manifest) returns (edges: seq<Edge>)
    ensures Apart(edges) && forall e :: e in edges <==> IsEdge(b, e)
  {
    edges := [];
    if b.parent != "" {
      edges := [Edge(b.parent, "parent")];
    }
    ghost var first := edges;
    var seen := {};
    var i := 0;
    while i < |b.data|
      invariant 0 <= i <= |b.data|
      invariant Apart(edges) && forall e :: e in edges ==> IsEdge(b, e)
      invariant forall e :: e in first ==> e in edges
      invariant forall d :: d in seen <==> Edge(d, "data") in edges
      invariant forall j :: 0 <= j < i && b.data[j] != "" ==> b.data[j] in seen
    {
      var d := b.data[i];
      if d != "" && d !in seen {
        edges := edges + [Edge(d, "data")];
        seen := seen + {d};
      }
      i := i + 1;
    }
    forall e | IsEdge(b, e) ensures e in edges {
      if e.via == "parent" {
        assert e in first;
      } else {
        assert e.id in seen;
      }
    }
  }

  // ---- The specification ----

  // a can be read, and refers to b, which exists.
  predicate Reaches(all: set<string>, load: string -> Option<Manifest>, a: string, b: string) {
    load(a).Some? && Refers(load(a).value, b) && b in all
  }

  ghost predicate Closed(all: set<string>, load: string -> Option<Manifest>, s: set<string>) {
    forall a, b :: a in s && Reaches(all, load, a, b) ==> b in s
  }

  // x is in every closed set around the kept ones.
  ghost predicate Forced(all: set<string>, load: string -> Option<Manifest>, keep: set<string>, x: string) {
    forall s: set<string> :: keep <= s && Closed(all, load, s) ==> x in s
  }

  ghost predicate LeastClosed(all: set<string>, load: string -> Option<Manifest>, keep: set<string>, s: set<string>) {
    keep <= s && Closed(all, load, s) && forall x :: x in s ==> Forced(all, load, keep, x)
  }

  lemma ReachedIsForced(all: set<string>, load: string -> Option<Manifest>, keep: set<string>, a: string, b: string)
    requires Forced(all, load, keep, a) && Reaches(all, load, a, b)
    ensures Forced(all, load, keep, b)
  {
    forall s: set<string> | keep <= s && Closed(all, load, s) ensures b in s {
      assert a in s;
    }
  }

  // Everything along a chain of references from a survivor survives.
  lemma {:induction false} ChainSurvives(all: set<string>, load: string -> Option<Manifest>, s: set<string>,
                                         path: seq<string>)
    requires Closed(all, load, s) && path != [] && path[0] in s
    requires forall i :: 0 < i < |path| ==> Reaches(all, load, path[i - 1], path[i])
    ensures path[|path| - 1] in s
  {
    if |path| > 1 {
      var front := path[..|path| - 1];
      ChainSurvives(all, load, s, front);
      assert Reaches(all, load, path[|path| - 2], path[|path| - 1]);
    }
  }

  // ---- Protect ----

  datatype Protection = Unreadable(id: string) | Protected(reasons: map<string, seq<string>>, dangling: seq<Dangling>)

  // A reference to a backup that is not there.
  ghost predicate Dangles(all: set<string>, load: string -> Option<Manifest>, d: Dangling) {
    load(d.from).Some? && IsEdge(load(d.from).value, Edge(d.to, d.via)) && d.to !in all
  }

  function Short(id: string): string {
    if |id| >= 8 then id[..8] else id
  }

  // why says that a, which refers to x, is what x is kept for.
  ghost predicate PromotedFor(load: string -> Option<Manifest>, x: string, why: seq<string>, a: string, via: string) {
    && load(a).Some? && IsEdge(load(a).value, Edge(x, via))
    && why == ["promoted: referenced by " + Short(a) + " via " + via]
  }

  // The policy's keeps have its reasons, and the others one of the protected that refers to them.
  ghost predicate Explained(load: string -> Option<Manifest>, keep: map<string, seq<string>>,
                            reasons: map<string, seq<string>>) {
    forall x :: x in reasons ==>
      if x in keep then reasons[x] == keep[x]
      else exists a, via :: a in reasons && PromotedFor(load, x, reasons[x], a, via)
  }

  // a needs no more work.
  ghost predicate Settled(all: set<string>, load: string -> Option<Manifest>, s: set<string>, dangling: seq<Dangling>,
                          a: string) {
    && load(a).Some?
    && (forall b :: Reaches(all, load, a, b) ==> b in s)
    && (forall d: Dangling :: d.from == a && Dangles(all, load, d) ==> d in dangling)
  }

  // What every step of the worklist keeps.
  ghost predicate Sound(all: set<string>, load: string -> Option<Manifest>, keep: set<string>, s: set<string>,
                        queue: seq<string>, dangling: seq<Dangling>) {
    && keep <= s <= keep + all
    && (forall x :: x in s ==> Forced(all, load, keep, x))
    && (forall x :: x in queue ==> x in s)
    && (forall d :: d in dangling ==> d.from in s && Dangles(all, load, d))
  }

  // ---- The order of the report ----

  // order lists each of keys once.
  ghost predicate Lists(order: seq<string>, keys: set<string>) {
    Apart(order) && forall x :: x in order <==> x in keys
  }

  // The keeps come first, in alphabetical order.
  ghost predicate KeepsFirst(order: seq<string>, keep: set<string>) {
    exists n :: 0 <= n <= |order| && Lists(order[..n], keep) && SortedBy(NotAfter, order[..n])
  }

  ghost predicate InTurn(order: seq<string>, c: Dangling, d: Dangling) {
    forall p, q :: 0 <= p < |order| && 0 <= q < |order| && order[p] == c.from && order[q] == d.from ==>
      p < q || (p == q && NotAfter(c.to, d.to))
  }

  // Each once, by the place of the referring backup and then alphabetically.
  ghost predicate Stable(order: seq<string>, dangling: seq<Dangling>) {
    && Apart(dangling) && (forall d :: d in dangling ==> d.from in order)
    && forall i, j :: 0 <= i < j < |dangling| ==> InTurn(order, dangling[i], dangling[j])
  }

  lemma ListsOneMore(order: seq<string>, keys: set<string>, x: string)
    requires Lists(order, keys) && x !in keys
    ensures Lists(order + [x], keys + {x})
  {
  }

  lemma StableLonger(order: seq<string>, id: string, dangling: seq<Dangling>)
    requires Stable(order, dangling) && Apart(order + [id])
    ensures Stable(order + [id], dangling) && forall d :: d in dangling ==> d.from != id
  {
    hide NotAfter;
    var order' := order + [id];
    assert order'[|order|] == id;
    forall d | d in dangling ensures d.from != id && d.from in order' {
      var k :| 0 <= k < |order| && order[k] == d.from;
      assert order'[k] == d.from;
    }
    forall i, j | 0 <= i < j < |dangling| ensures InTurn(order', dangling[i], dangling[j]) {
      assert InTurn(order, dangling[i], dangling[j]);
      forall p, q | 0 <= p < |order'| && 0 <= q < |order'| && order'[p] == dangling[i].from &&
                    order'[q] == dangling[j].from
        ensures p < q || (p == q && NotAfter(dangling[i].to, dangling[j].to))
      {
        assert order[p] == dangling[i].from && order[q] == dangling[j].from;
      }
    }
  }

  lemma StableOneMore(order: seq<string>, dangling: seq<Dangling>, d: Dangling)
    requires Stable(order, dangling) && Apart(order) && order != [] && order[|order| - 1] == d.from
    requires forall c :: c in dangling && c.from == d.from ==> c != d && NotAfter(c.to, d.to)
    ensures Stable(order, dangling + [d])
  {
    hide NotAfter;
    forall c | c in dangling ensures InTurn(order, c, d) && c != d {
    }
  }

  // One backup's references: edges, in order.  front: the backups visited so far, it the last.
  method Visit(all: set<string>, ghost load: string -> Option<Manifest>, ghost keep: map<string, seq<string>>,
               id: string, edges: seq<Edge>, reasons0: map<string, seq<string>>, queue0: seq<string>,
               dangling0: seq<Dangling>, ghost front: seq<string>)
    returns (reasons: map<string, seq<string>>, queue: seq<string>, dangling: seq<Dangling>)
    requires Sound(all, load, keep.Keys, reasons0.Keys, queue0, dangling0) && id in reasons0
    requires load(id).Some? && Apart(edges) && forall e :: e in edges <==> IsEdge(load(id).value, e)
    requires SortedBy(ById, edges) && Explained(load, keep, reasons0)
    requires front != [] && front[|front| - 1] == id && Lists(front + queue0, reasons0.Keys)
    requires Stable(front[..|front| - 1], dangling0)
    ensures Sound(all, load, keep.Keys, reasons.Keys, queue, dangling)
    ensures Settled(all, load, reasons.Keys, dangling, id)
    ensures reasons0.Keys <= reasons.Keys && dangling0 <= dangling && queue0 <= queue
    ensures reasons.Keys == reasons0.Keys ==> queue == queue0
    ensures forall x :: x in reasons.Keys - reasons0.Keys ==> x in queue
    ensures Explained(load, keep, reasons)
    ensures Lists(front + queue, reasons.Keys) && Stable(front, dangling)
  {
    hide Forced, Lists, Stable, Explained, Sound, Settled, Dangles, Reaches, IsEdge, NotAfter, Apart, Short, SortedBy;
    reasons, queue, dangling := reasons0, queue0, dangling0;
    FrontApart(front, queue0, reasons0.Keys);
    assert front[..|front| - 1] + [id] == front;
    StableLonger(front[..|front| - 1], id, dangling);
    var i := 0;
    while i < |edges|
      invariant 0 <= i <= |edges|
      invariant Sound(all, load, keep.Keys, reasons.Keys, queue, dangling)
      invariant reasons0.Keys <= reasons.Keys && dangling0 <= dangling && queue0 <= queue
      invariant reasons.Keys == reasons0.Keys ==> queue == queue0
      invariant forall x :: x in reasons.Keys - reasons0.Keys ==> x in queue
      invariant forall j :: 0 <= j < i && edges[j].id in all ==> edges[j].id in reasons
      invariant forall j :: 0 <= j < i && edges[j].id !in all ==> Dangling(id, edges[j].id, edges[j].via) in dangling
      invariant Explained(load, keep, reasons)
      invariant Lists(front + queue, reasons.Keys) && Stable(front, dangling)
      invariant forall d :: d in dangling && d.from == id ==>
                  exists j :: 0 <= j < i && edges[j] == Edge(d.to, d.via)
    {
      var e := edges[i];
      assert IsEdge(load(id).value, e);
      if e.id !in all {
        var d := Dangling(id, e.id, e.via);
        NextInTurn(edges, i, id, dangling);
        StableOneMore(front, dangling, d);
        SoundReport(all, load, keep.Keys, reasons.Keys, queue, dangling, d);
        assert edges[i] == Edge(d.to, d.via);
        dangling := dangling + [d];
      } else if e.id !in reasons {
        SoundPromote(all, load, keep.Keys, reasons.Keys, queue, dangling, id, e);
        ListsOneMore(front + queue, reasons.Keys, e.id);
        assert front + queue + [e.id] == front + (queue + [e.id]);
        ghost var was := reasons;
        reasons := reasons[e.id := ["promoted: referenced by " + Short(id) + " via " + e.via]];
        ExplainedMore(load, keep, was, reasons, e.id, id, e.via);
        assert reasons.Keys == was.Keys + {e.id};
        queue := queue + [e.id];
      }
      i := i + 1;
    }
    AllEdgesSettle(all, load, reasons.Keys, dangling, id, edges);
  }

  lemma NextInTurn(edges: seq<Edge>, i: nat, id: string, dangling: seq<Dangling>)
    requires i < |edges| && Apart(edges) && SortedBy(ById, edges)
    requires forall d :: d in dangling && d.from == id ==> exists j :: 0 <= j < i && edges[j] == Edge(d.to, d.via)
    ensures var d := Dangling(id, edges[i].id, edges[i].via);
            forall c :: c in dangling && c.from == id ==> c != d && NotAfter(c.to, d.to)
  {
    hide NotAfter;
    forall c | c in dangling && c.from == id
      ensures c != Dangling(id, edges[i].id, edges[i].via) && NotAfter(c.to, edges[i].id)
    {
      var j :| 0 <= j < i && edges[j] == Edge(c.to, c.via);
      assert ById(edges[j], edges[i]);
    }
  }

  lemma SoundReport(all: set<string>, load: string -> Option<Manifest>, keep: set<string>, s: set<string>,
                    queue: seq<string>, dangling: seq<Dangling>, d: Dangling)
    requires Sound(all, load, keep, s, queue, dangling) && d.from in s
    requires load(d.from).Some? && IsEdge(load(d.from).value, Edge(d.to, d.via)) && d.to !in all
    ensures Sound(all, load, keep, s, queue, dangling + [d])
  {
    hide Forced, IsEdge;
  }

  lemma SoundPromote(all: set<string>, load: string -> Option<Manifest>, keep: set<string>, s: set<string>,
                     queue: seq<string>, dangling: seq<Dangling>, id: string, e: Edge)
    requires Sound(all, load, keep, s, queue, dangling) && id in s && load(id).Some?
    requires IsEdge(load(id).value, e) && e.id in all
    ensures keep <= s && Sound(all, load, keep, s + {e.id}, queue + [e.id], dangling)
  {
    hide Forced;
    ReachedIsForced(all, load, keep, id, e.id);
  }

  lemma FrontApart(front: seq<string>, queue: seq<string>, keys: set<string>)
    requires Lists(front + queue, keys)
    ensures Apart(front)
  {
    forall i, j | 0 <= i < j < |front| ensures front[i] != front[j] {
      assert (front + queue)[i] == front[i] && (front + queue)[j] == front[j];
    }
  }

  lemma ExplainedMore(load: string -> Option<Manifest>, keep: map<string, seq<string>>, was: map<string, seq<string>>,
                      reasons: map<string, seq<string>>, x: string, a: string, via: string)
    requires Explained(load, keep, was) && keep.Keys <= was.Keys && x !in was && a in was
    requires load(a).Some? && IsEdge(load(a).value, Edge(x, via))
    requires reasons == was[x := ["promoted: referenced by " + Short(a) + " via " + via]]
    ensures Explained(load, keep, reasons)
  {
    hide IsEdge;
    forall y | y in reasons && y !in keep
      ensures exists b, v :: b in reasons && PromotedFor(load, y, reasons[y], b, v)
    {
      if y == x {
        assert PromotedFor(load, x, reasons[x], a, via);
      } else {
        var b, v :| b in was && PromotedFor(load, y, was[y], b, v);
        assert PromotedFor(load, y, reasons[y], b, v);
      }
    }
  }

  lemma AllEdgesSettle(all: set<string>, load: string -> Option<Manifest>, s: set<string>, dangling: seq<Dangling>,
                       id: string, edges: seq<Edge>)
    requires load(id).Some? && forall e :: e in edges <==> IsEdge(load(id).value, e)
    requires forall j :: 0 <= j < |edges| && edges[j].id in all ==> edges[j].id in s
    requires forall j :: 0 <= j < |edges| && edges[j].id !in all ==> Dangling(id, edges[j].id, edges[j].via) in dangling
    ensures Settled(all, load, s, dangling, id)
  {
    forall b | Reaches(all, load, id, b) ensures b in s {
      var e := Edge(b, if b == load(id).value.parent then "parent" else "data");
      assert IsEdge(load(id).value, e);
      assert e in edges;
    }
    forall d: Dangling | d.from == id && Dangles(all, load, d) ensures d in dangling {
      assert Edge(d.to, d.via) in edges;
    }
  }

  predicate ById(a: Edge, b: Edge) {
    NotAfter(a.id, b.id)
  }

  method SortEdges(edges: seq<Edge>) returns (sorted: seq<Edge>)
    requires Apart(edges)
    ensures SortedBy(ById, sorted) && Apart(sorted) && forall e :: e in sorted <==> e in edges
  {
    hide NotAfter;
    AlphabeticalOrder();
    assert TotalPreorder(ById) by {
      forall a, b, c | ById(a, b) && ById(b, c) ensures ById(a, c) {
        assert NotAfter(a.id, b.id) && NotAfter(b.id, c.id);
      }
    }
    sorted := Sort(edges, ById);
    forall e ensures e in sorted <==> e in edges {
      SameMembers(sorted, edges, e);
    }
    PermutedApart(edges, sorted, e => e);
  }

  method SortedKeys(m: map<string, seq<string>>) returns (keys: seq<string>)
    ensures Lists(keys, m.Keys) && SortedBy(NotAfter, keys)
  {
    hide NotAfter;
    keys := [];
    var rest := m.Keys;
    while rest != {}
      invariant rest <= m.Keys && Lists(keys, m.Keys - rest)
      decreases rest
    {
      var k :| k in rest;
      keys := keys + [k];
      rest := rest - {k};
    }
    AlphabeticalOrder();
    var sorted := Sort(keys, NotAfter);
    forall x ensures x in sorted <==> x in keys {
      SameMembers(sorted, keys, x);
    }
    PermutedApart(keys, sorted, x => x);
    keys := sorted;
  }

  // order: the protected backups in the order they were visited.
  method Protect(all: set<string>, keep: map<string, seq<string>>, load: string -> Option<Manifest>)
    returns (res: Protection, ghost order: seq<string>)
    ensures res.Protected? ==>
              && LeastClosed(all, load, keep.Keys, res.reasons.Keys)
              && (forall x :: x in res.reasons ==> load(x).Some?)
              && (forall d :: d in res.dangling <==> d.from in res.reasons && Dangles(all, load, d))
              && Explained(load, keep, res.reasons)
              && Lists(order, res.reasons.Keys) && KeepsFirst(order, keep.Keys) && Stable(order, res.dangling)
    ensures res.Unreadable? ==> Forced(all, load, keep.Keys, res.id) && load(res.id).None?
  {
    hide Forced, Settled, Sound, Lists, Stable, KeepsFirst, SortedBy, Apart, Explained, LeastClosed, Dangles, IsEdge;
    var reasons := keep;
    var queue := SortedKeys(keep);
    ghost var keeps := queue;
    var dangling := [];
    order := [];
    Beginning(all, load, keep, keeps);
    assert order + queue == queue;
    while queue != []
      invariant Sound(all, load, keep.Keys, reasons.Keys, queue, dangling)
      invariant forall a :: a in reasons ==> a in queue || Settled(all, load, reasons.Keys, dangling, a)
      invariant Explained(load, keep, reasons)
      invariant Lists(order + queue, reasons.Keys) && Stable(order, dangling) && keeps <= order + queue
      decreases all - reasons.Keys, |queue|
    {
      var id, rest := queue[0], queue[1..];
      assert forall x :: x in queue ==> x == id || x in rest;
      NextIsForced(all, load, keep.Keys, reasons.Keys, queue, dangling);
      if load(id).None? {
        return Unreadable(id), order;
      }
      var edges := ReferenceEdges(load(id).value);
      edges := SortEdges(edges);
      ghost var s, d, front := reasons.Keys, dangling, order + [id];
      assert front + rest == order + queue && front[..|front| - 1] == order;
      reasons, queue, dangling := Visit(all, load, keep, id, edges, reasons, rest, dangling, front);
      assert front + rest <= front + queue;
      order := front;
      FewerLeft(all, load, keep.Keys, s, reasons.Keys, queue, dangling);
      forall a | a in reasons ensures a in queue || Settled(all, load, reasons.Keys, dangling, a) {
        StaysSettled(all, load, s, reasons.Keys, d, dangling, a);
      }
    }
    assert order + queue == order;
    AllSettled(all, load, keep.Keys, reasons.Keys, dangling);
    ComeFirst(order, keeps, keep.Keys);
    res := Protected(reasons, dangling);
  }

  lemma Beginning(all: set<string>, load: string -> Option<Manifest>, keep: map<string, seq<string>>,
                  keeps: seq<string>)
    requires Lists(keeps, keep.Keys)
    ensures Sound(all, load, keep.Keys, keep.Keys, keeps, []) && Explained(load, keep, keep) && Stable([], [])
    ensures forall a :: a in keep ==> a in keeps
  {
  }

  lemma ComeFirst(order: seq<string>, keeps: seq<string>, keep: set<string>)
    requires keeps <= order && Lists(keeps, keep) && SortedBy(NotAfter, keeps)
    ensures KeepsFirst(order, keep)
  {
    hide NotAfter;
    assert order[..|keeps|] == keeps;
  }

  lemma NextIsForced(all: set<string>, load: string -> Option<Manifest>, keep: set<string>, s: set<string>,
                     queue: seq<string>, dangling: seq<Dangling>)
    requires Sound(all, load, keep, s, queue, dangling) && queue != []
    ensures queue[0] in s && Forced(all, load, keep, queue[0]) && keep <= s
    ensures Sound(all, load, keep, s, queue[1..], dangling)
  {
    hide Forced, Dangles;
  }

  lemma FewerLeft(all: set<string>, load: string -> Option<Manifest>, keep: set<string>, s: set<string>,
                  s': set<string>, queue: seq<string>, dangling: seq<Dangling>)
    requires Sound(all, load, keep, s', queue, dangling) && keep <= s <= s'
    ensures all - s' <= all - s && (s != s' ==> all - s' != all - s)
  {
    hide Forced, Dangles;
    if s != s' {
      assert exists x :: x in s' && x !in s;
      var x :| x in s' && x !in s;
      assert x in all - s;
    }
  }

  lemma StaysSettled(all: set<string>, load: string -> Option<Manifest>, s: set<string>, s': set<string>,
                     dangling: seq<Dangling>, dangling': seq<Dangling>, a: string)
    requires s <= s' && dangling <= dangling'
    ensures Settled(all, load, s, dangling, a) ==> Settled(all, load, s', dangling', a)
  {
    assert forall x :: x in dangling ==> x in dangling';
  }

  lemma AllSettled(all: set<string>, load: string -> Option<Manifest>, keep: set<string>, s: set<string>,
                   dangling: seq<Dangling>)
    requires Sound(all, load, keep, s, [], dangling)
    requires forall a :: a in s ==> Settled(all, load, s, dangling, a)
    ensures LeastClosed(all, load, keep, s)
    ensures forall a :: a in s ==> load(a).Some?
    ensures forall d :: d in dangling <==> d.from in s && Dangles(all, load, d)
  {
    hide Forced;
  }
}
