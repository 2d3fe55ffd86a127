/** Reachability over object graphs, and what one collection does to a graph, its marks and its register. */
module GcGraph {
  /** Each object with its children. */
  type Graph<T> = map<T, set<T>>

  predicate Whole<T(==)>(g: Graph<T>) {
    forall x | x in g :: g[x] <= g.Keys
  }

  function Children<T>(g: Graph<T>, s: set<T>): set<T>
    requires s <= g.Keys
  {
    set x, y | x in s && y in g[x] :: y
  }

  /** The objects reachable from `s`: they include `s` and their own children. */
  function Reach<T>(g: Graph<T>, s: set<T>): (r: set<T>)
    requires Whole(g) && s <= g.Keys
    ensures s <= r <= g.Keys && Children(g, r) <= r
    decreases g.Keys - s
  {
    if Children(g, s) <= s then s else Reach(g, s + Children(g, s))
  }

  /** Nothing else is: any set that includes `s` and its own children includes them all. */
  lemma {:induction false} ReachIsLeast<T>(g: Graph<T>, s: set<T>, bound: set<T>)
    requires Whole(g) && s <= g.Keys && s <= bound
    requires forall x, y | x in bound && x in g && y in g[x] :: y in bound
    ensures Reach(g, s) <= bound
    decreases g.Keys - s
  {
    if !(Children(g, s) <= s) {
      ReachIsLeast(g, s + Children(g, s), bound);
    }
  }

  // ---------------------------------------------------------------------------------------------
  // Reachability is the existence of a path

  predicate IsPath<T(==)>(g: Graph<T>, p: seq<T>) {
    p != [] && (forall i | 0 <= i < |p| :: p[i] in g) && forall i | 0 <= i < |p| - 1 :: p[i + 1] in g[p[i]]
  }

  lemma {:induction false} PathStaysReachable<T>(g: Graph<T>, s: set<T>, p: seq<T>)
    requires Whole(g) && s <= g.Keys && IsPath(g, p) && p[0] in s
    ensures p[|p| - 1] in Reach(g, s)
  {
    if |p| > 1 {
      var q := p[..|p| - 1];
      assert IsPath(g, q);
      PathStaysReachable(g, s, q);
      assert p[|p| - 1] in Children(g, Reach(g, s));
    }
  }

  lemma {:induction false} ReachableHasPath<T>(g: Graph<T>, s: set<T>, x: T) returns (p: seq<T>)
    requires Whole(g) && s <= g.Keys && x in Reach(g, s)
    ensures IsPath(g, p) && p[0] in s && p[|p| - 1] == x
    decreases g.Keys - s
  {
    if Children(g, s) <= s {
      p := [x];
    } else {
      p := ReachableHasPath(g, s + Children(g, s), x);
      if p[0] !in s {
        var parent :| parent in s && p[0] in g[parent];
        p := [parent] + p;
      }
    }
  }

  // ---------------------------------------------------------------------------------------------
  // Marking

  /** The graph without the objects of `m`. */
  function Without<T>(g: Graph<T>, m: set<T>): (r: Graph<T>)
    requires Whole(g)
    ensures Whole(r) && r.Keys == g.Keys - m
  {
    map x | x in g.Keys - m :: g[x] - m
  }

  /** The marks after marking from `s`: marking stops at objects that are marked already. */
  function MarkFrom<T>(g: Graph<T>, s: set<T>, m: set<T>): set<T>
    requires Whole(g) && s <= g.Keys
  {
    m + Reach(Without(g, m), s - m)
  }

  /** Every object the marking adds has its children marked. */
  lemma MarkingIsClosed<T>(g: Graph<T>, s: set<T>, m: set<T>)
    requires Whole(g) && s <= g.Keys
    ensures s <= MarkFrom(g, s, m)
    ensures forall x, y | x in MarkFrom(g, s, m) - m && y in g[x] :: y in MarkFrom(g, s, m)
  {
    var h := Without(g, m);
    var r := Reach(h, s - m);
    forall x, y | x in r && y in g[x]
      ensures y in m + r
    {
      if y !in m {
        assert y in h[x];
        assert y in Children(h, r);
      }
    }
  }

  lemma MarkingIsLeast<T>(g: Graph<T>, s: set<T>, m: set<T>, bound: set<T>)
    requires Whole(g) && s <= g.Keys && s <= bound && m <= bound
    requires forall x, y | x in bound - m && x in g && y in g[x] :: y in bound
    ensures MarkFrom(g, s, m) <= bound
  {
    ReachIsLeast(Without(g, m), s - m, bound);
  }

  /** Marking from one set and then from another is marking from both. */
  lemma MarkingComposes<T>(g: Graph<T>, s: set<T>, t: set<T>, m: set<T>)
    requires Whole(g) && s <= g.Keys && t <= g.Keys
    ensures MarkFrom(g, t, MarkFrom(g, s, m)) == MarkFrom(g, s + t, m)
  {
    var m1 := MarkFrom(g, s, m);
    var m2 := MarkFrom(g, t, m1);
    var both := MarkFrom(g, s + t, m);
    MarkingIsClosed(g, s, m);
    MarkingIsClosed(g, t, m1);
    MarkingIsClosed(g, s + t, m);
    hide MarkFrom, Without, Reach;
    MarkingExtends(g, s, m);
    MarkingExtends(g, t, m1);
    MarkingExtends(g, s + t, m);
    MarkingIsLeast(g, s + t, m, m2);
    MarkingIsLeast(g, s, m, both);
    MarkingIsLeast(g, t, m1, both);
  }

  lemma MarkingExtends<T>(g: Graph<T>, s: set<T>, m: set<T>)
    requires Whole(g) && s <= g.Keys
    ensures m <= MarkFrom(g, s, m) <= m + g.Keys
  {
  }

  /** Marking an unmarked object marks it and then marks from its children. */
  lemma MarkingUnfolds<T>(g: Graph<T>, x: T, m: set<T>)
    requires Whole(g) && x in g && x !in m
    ensures MarkFrom(g, {x}, m) == MarkFrom(g, g[x], m + {x})
  {
    var whole := MarkFrom(g, {x}, m);
    var rest := MarkFrom(g, g[x], m + {x});
    MarkingIsClosed(g, {x}, m);
    MarkingIsClosed(g, g[x], m + {x});
    MarkingExtends(g, {x}, m);
    MarkingExtends(g, g[x], m + {x});
    hide MarkFrom, Without, Reach;
    MarkingIsLeast(g, {x}, m, rest);
    MarkingIsLeast(g, g[x], m + {x}, whole);
  }

  lemma MarkingNothing<T>(g: Graph<T>, s: set<T>, m: set<T>)
    requires Whole(g) && s <= g.Keys && s <= m
    ensures MarkFrom(g, s, m) == m
  {
    assert s - m == {};
    assert Reach(Without(g, m), {}) == {};
  }

  // ---------------------------------------------------------------------------------------------
  // Collections

  /** The registered objects and the marks that a collection leaves. */
  datatype Heap<T> = Heap(registered: set<T>, marks: set<T>)

  function Collect<T>(g: Graph<T>, roots: set<T>, h: Heap<T>): Heap<T>
    requires Whole(g) && roots <= g.Keys
  {
    var marks := MarkFrom(g, roots, h.marks);
    Heap(h.registered * marks, marks - h.registered)
  }

  /** From a clean heap, a collection keeps exactly the registered objects that the roots reach. */
  lemma {:induction false} SurvivorsAreTheReachable<T>(g: Graph<T>, roots: set<T>, registered: set<T>)
    requires Whole(g) && roots <= g.Keys
    ensures Collect(g, roots, Heap(registered, {})).registered == registered * Reach(g, roots)
  {
    WithoutNothing(g);
    assert roots - {} == roots;
  }

  lemma WithoutNothing<T>(g: Graph<T>)
    requires Whole(g)
    ensures Without(g, {}) == g
  {
    assert forall x | x in g :: g[x] - {} == g[x];
  }

  /** No survivor has a child that was freed. */
  lemma {:induction false} NoChildIsFreed<T>(g: Graph<T>, roots: set<T>, registered: set<T>, x: T, y: T)
    requires Whole(g) && roots <= g.Keys
    requires x in Collect(g, roots, Heap(registered, {})).registered && x in g && y in g[x]
    ensures y in registered ==> y in Collect(g, roots, Heap(registered, {})).registered
  {
    MarkingIsClosed(g, roots, {});
    hide MarkFrom;
  }

  /** A collection of a clean heap leaves it clean exactly when every reachable object is registered. */
  lemma {:induction false} LeavesNoMarkIff<T>(g: Graph<T>, roots: set<T>, registered: set<T>)
    requires Whole(g) && roots <= g.Keys
    ensures Collect(g, roots, Heap(registered, {})).marks == {} <==> Reach(g, roots) <= registered
  {
    WithoutNothing(g);
    assert roots - {} == roots;
    var marks := Reach(g, roots);
    assert Collect(g, roots, Heap(registered, {})).marks == marks - registered;
  }

  /** Then a second collection, over the graph without the freed objects, changes nothing. */
  lemma {:induction false} SecondCollectionIsIdle<T>(g: Graph<T>, roots: set<T>, registered: set<T>)
    requires Whole(g) && roots <= g.Keys && Reach(g, roots) <= registered
    ensures var first := Collect(g, roots, Heap(registered, {}));
            var rest := Without(g, registered - first.registered);
            roots <= rest.Keys && Collect(rest, roots, first) == first
  {
    var first := Collect(g, roots, Heap(registered, {}));
    var freed := registered - first.registered;
    SurvivorsAreTheReachable(g, roots, registered);
    LeavesNoMarkIff(g, roots, registered);
    var rest := Without(g, freed);
    assert Reach(g, roots) !! freed;
    ReachAvoids(g, roots, freed);
    WithoutNothing(rest);
    assert roots - {} == roots;
  }

  /** Removing objects that are not reachable changes no reachability. */
  lemma ReachAvoids<T>(g: Graph<T>, s: set<T>, gone: set<T>)
    requires Whole(g) && s <= g.Keys && Reach(g, s) !! gone
    ensures s <= Without(g, gone).Keys && Reach(Without(g, gone), s) == Reach(g, s)
  {
    var r, h := Reach(g, s), Without(g, gone);
    var q := Reach(h, s);
    assert forall x, y | x in r && y in g[x] :: y in Children(g, r);
    assert forall x, y | x in q && y in h[x] :: y in Children(h, q);
    hide Reach, Whole, Children;
    ReachIsLeast(h, s, r);
    ReachIsLeast(g, s, q);
  }

  /**
   A reachable object that is not registered keeps its mark, so the next collection stops there: it
   frees nothing exactly when every survivor is reachable without passing through such an object.
   */
  lemma {:induction false} SecondCollectionFreesNothingIff<T>(g: Graph<T>, roots: set<T>, registered: set<T>)
    requires Whole(g) && roots <= g.Keys
    ensures var first := Collect(g, roots, Heap(registered, {}));
            var outside := Reach(g, roots) - registered;
            Collect(g, roots, first).registered == first.registered <==>
            registered * Reach(g, roots) <= Reach(Without(g, outside), roots - outside)
  {
    var first := Collect(g, roots, Heap(registered, {}));
    SurvivorsAreTheReachable(g, roots, registered);
    WithoutNothing(g);
    assert roots - {} == roots;
    assert first.marks == Reach(g, roots) - registered;
  }

  /** A root that is not registered: its child survives one collection and not the next. */
  lemma UnregisteredRootLosesItsChild()
    ensures var g: Graph<int> := map[0 := {1}, 1 := {}];
            var first := Collect(g, {0}, Heap({1}, {}));
            first == Heap({1}, {0}) && Collect(g, {0}, first) == Heap({}, {0})
  {
    var g: Graph<int> := map[0 := {1}, 1 := {}];
    WithoutNothing(g);
    assert {0} - {} == {0};
    assert 1 in g[0];
    assert Children(g, {0}) == {1};
    assert Children(g, {0, 1}) == {1};
    assert Reach(g, {0}) == {0, 1};
    var first := Collect(g, {0}, Heap({1}, {}));
    assert first == Heap({1}, {0});
    assert {0} - {0} == {};
    assert Reach(Without(g, {0}), {}) == {};
  }
}
