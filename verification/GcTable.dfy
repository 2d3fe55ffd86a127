/**
 The mark-sweep collector over heap objects.  `world` is any set of objects that includes the
 children of its objects; it bounds what marking can visit and gives the recursion its measure.
 */
module GarbageCollection {
  import opened Collections
  import opened GcGraph

  function Real(objects: set<UObject?>): set<UObject> {
    set c: UObject | c in objects
  }

  function Just(o: UObject?): set<UObject> {
    if o == null then {} else {o}
  }

  class UObject {
    var parent: UObject?
    var children: set<UObject?>
    var marked: bool

    constructor ()
      ensures parent == null && children == {} && !marked
    {
      parent, children, marked := null, {}, false;
    }

    /** CreateSubObject, for a child that was just made. */
    method Adopt(child: UObject, ghost world: set<UObject>)
      requires child.parent == null && child.children == {} && Linked(world) && this in world && child !in world
      modifies this`children, child`parent
      ensures children == old(children) + {child} && child.parent == this && Linked(world + {child})
    {
      children := children + {child};
      child.parent := this;
    }

    /**
     Moves this object from its parent's children to those of `into`; null changes nothing.  The
     source follows the parent without looking, so there has to be one.
     */
    method AttachTo(into: UObject?, ghost world: set<UObject>)
      requires into != null ==> parent != null
      requires Linked(world) && this in world && Just(into) <= world
      modifies this`parent, Just(parent)`children, Just(into)`children
      ensures Linked(world)
      ensures into == null ==> parent == old(parent) && (parent != null ==> parent.children == old(parent.children))
      ensures into != null ==> parent == into && into.children == old(into.children) + {this}
      ensures into != null && old(parent) != into ==> old(parent).children == old(parent.children) - {this}
    {
      if into == null {
        return;
      }
      parent.children := parent.children - {this};
      into.children := into.children + {this};
      parent := into;
    }
  }

  // ---------------------------------------------------------------------------------------------
  // The graph and the marks of a world of objects

  ghost predicate Closed(world: set<UObject>)
    reads world`children
  {
    forall o | o in world :: Real(o.children) <= world
  }

  ghost function GraphOf(world: set<UObject>): (g: Graph<UObject>)
    requires Closed(world)
    reads world`children
    ensures Whole(g) && g.Keys == world
  {
    map o | o in world :: Real(o.children)
  }

  ghost function Marks(world: set<UObject>): set<UObject>
    reads world`marked
  {
    set o | o in world && o.marked
  }

  /** Each object of `p` but the first is among the children of the one before it. */
  ghost predicate Chain(p: seq<UObject>)
    reads p
  {
    p != [] && forall i | 0 <= i < |p| - 1 :: p[i + 1] in p[i].children
  }

  lemma {:induction false} ChainStays(world: set<UObject>, p: seq<UObject>, k: nat)
    requires Closed(world) && Chain(p) && p[0] in world && k < |p|
    ensures p[k] in world
  {
    if k > 0 {
      ChainStays(world, p, k - 1);
      assert p[k - 1 + 1] in Real(p[k - 1].children);
    }
  }

  lemma ChainIsPath(world: set<UObject>, p: seq<UObject>)
    requires Closed(world) && Chain(p) && p[0] in world
    ensures IsPath(GraphOf(world), p)
  {
    forall k | 0 <= k < |p|
      ensures p[k] in world
    {
      ChainStays(world, p, k);
    }
  }

  /** After marking from `node` over the marks `before`, the newly marked objects have their children marked. */
  lemma MarkedIsClosed(node: UObject?, world: set<UObject>, before: set<UObject>)
    requires Closed(world) && Just(node) <= world && before <= world
    requires Marks(world) == MarkFrom<UObject>(GraphOf(world), Just(node), before)
    ensures (forall o | o in before :: o.marked) && (node != null ==> node.marked)
    ensures forall o, c: UObject | o in world && o.marked && o !in before && c in o.children :: c.marked
  {
    var g := GraphOf(world);
    MarkingIsClosed<UObject>(g, Just(node), before);
    hide MarkFrom;
    forall o, c: UObject | o in world && o.marked && o !in before && c in o.children
      ensures c.marked
    {
      assert o in Marks(world) && c in g[o];
      assert c in Marks(world);
    }
    assert forall o | o in before :: o in Marks(world);
  }

  /** And each of them ends a chain from `node` of objects that were not marked. */
  lemma MarkedIsChained(node: UObject?, world: set<UObject>, before: set<UObject>, o: UObject) returns (p: seq<UObject>)
    requires Closed(world) && Just(node) <= world && o in world && o.marked && o !in before
    requires Marks(world) == MarkFrom<UObject>(GraphOf(world), Just(node), before)
    ensures Chain(p) && p[0] == node && p[|p| - 1] == o && forall x | x in p :: x in world - before
  {
    assert o in Marks(world);
    p := ReachableHasPath<UObject>(Without(GraphOf(world), before), Just(node) - before, o);
    PathIsChain(world, before, p);
  }

  lemma PathIsChain(world: set<UObject>, before: set<UObject>, p: seq<UObject>)
    requires Closed(world) && IsPath(Without<UObject>(GraphOf(world), before), p)
    ensures Chain(p) && forall x | x in p :: x in world - before
  {
    forall i | 0 <= i < |p| - 1
      ensures p[i + 1] in p[i].children
    {
      assert p[i + 1] in GraphOf(world)[p[i]];
    }
  }

  /** What surviving the first collection of a clean heap means for the objects. */
  lemma SurvivorsSay(world: set<UObject>, roots: seq<UObject?>, was: seq<UObject>, now: seq<UObject>)
    requires Closed(world) && Real(Elements(roots)) <= world && Elements(was) <= world
    requires Elements(now) == Elements(was) * Reach<UObject>(GraphOf(world), Real(Elements(roots)))
    ensures forall o | o in was :: o in now <==> exists p :: Chain(p) && p[0] in roots && p[|p| - 1] == o
    ensures forall o | o in was && o in roots :: o in now
    ensures forall o, c: UObject | o in now && c in o.children && c in was :: c in now
  {
    hide Reach, IsPath;
    var g, start := GraphOf(world), Real(Elements(roots));
    forall o | o in was
      ensures o in Reach<UObject>(g, start) <==> exists p :: Chain(p) && p[0] in roots && p[|p| - 1] == o
    {
      if o in Reach<UObject>(g, start) {
        var p := ReachableHasPath<UObject>(g, start, o);
        WithoutNothing<UObject>(g);
        PathIsChain(world, {}, p);
      }
      forall p | Chain(p) && p[0] in roots && p[|p| - 1] == o
        ensures o in Reach<UObject>(g, start)
      {
        assert p[0] in start;
        ChainIsPath(world, p);
        PathStaysReachable<UObject>(g, start, p);
      }
    }
    forall o | o in was
      ensures o in now <==> o in Reach<UObject>(g, start)
    {
      assert o in Elements(was);
      assert o in Elements(now) <==> o in now;
    }
    forall o, c: UObject | o in now && c in o.children && c in was
      ensures c in now
    {
      assert o in Elements(now) && c in g[o];
      assert c in Children<UObject>(g, Reach<UObject>(g, start));
    }
  }

  /** An object's parent has it among its children, and its children have it as their parent. */
  ghost predicate Linked(world: set<UObject>)
    reads world
  {
    (forall o | o in world && o.parent != null :: o.parent in world && o in o.parent.children) &&
    forall o, c: UObject | o in world && c in o.children :: c in world && c.parent == o
  }

  // ---------------------------------------------------------------------------------------------
  // The collector

  class GcTable {
    var allNodes: seq<UObject>
    var roots: seq<UObject?>

    /** The registered objects are distinct owners of objects of the world, the roots point into it. */
    ghost predicate Valid(world: set<UObject>)
      reads this, world`children
    {
      Closed(world) && Distinct(allNodes) && Elements(allNodes) <= world && Real(Elements(roots)) <= world
    }

    method Mark(node: UObject?, ghost world: set<UObject>)
      requires Closed(world) && (node != null ==> node in world)
      modifies world`marked
      ensures Closed(world) && GraphOf(world) == old(GraphOf(world))
      ensures Marks(world) == MarkFrom<UObject>(GraphOf(world), Just(node), old(Marks(world)))
      ensures forall o | o in world && old(o.marked) :: o.marked
      ensures node != null ==> node.marked
      ensures forall o, c: UObject | o in world && o.marked && !old(o.marked) && c in o.children :: c.marked
      decreases world - Marks(world)
    {
      hide MarkFrom, Reach;
      ghost var before := Marks(world);
      ghost var g := GraphOf(world);
      if node == null {
        MarkingNothing<UObject>(g, Just(node), before);
        return;
      }
      if node.marked {
        MarkingNothing<UObject>(g, Just(node), before);
        return;
      }
      node.marked := true;
      assert Marks(world) == before + {node};
      MarkingUnfolds<UObject>(g, node, before);
      var ahead := node.children;
      assert Real(node.children - ahead) == {};
      MarkingNothing<UObject>(g, {}, Marks(world));
      while ahead != {}
        invariant ahead <= node.children && Closed(world) && GraphOf(world) == g
        invariant Marks(world) == MarkFrom<UObject>(g, Real(node.children - ahead), before + {node})
        decreases |ahead|
      {
        var child := Pick(ahead);
        MarkingExtends<UObject>(g, Real(node.children - ahead), before + {node});
        MarkingComposes<UObject>(g, Real(node.children - ahead), Just(child), before + {node});
        assert Real(node.children - ahead) + Just(child) == Real(node.children - (ahead - {child}));
        Mark(child, world);
        ahead := ahead - {child};
      }
      assert Real(node.children - ahead) == g[node];
      MarkedIsClosed(node, world, before);
    }

    /** Drops the objects without a mark, in order, and then clears the marks of the rest. */
    method Sweep(ghost world: set<UObject>)
      requires Valid(world)
      modifies this`allNodes, world`marked
      ensures Valid(world) && GraphOf(world) == old(GraphOf(world))
      ensures allNodes == Filtered<UObject>(old(allNodes), old(Marks(world)))
      ensures Marks(world) == old(Marks(world)) - Elements(old(allNodes))
      ensures forall o | o in old(allNodes) :: o in allNodes <==> old(o.marked)
      ensures forall o | o in allNodes :: o in old(allNodes) && !o.marked
      ensures exists at :: InOrder<UObject>(old(allNodes), at, allNodes)
    {
      hide Filtered, Distinct, GraphOf, Closed, InOrder;
      var kept: seq<UObject> := [];
      FilteredStart<UObject>(allNodes, Marks(world));
      for i := 0 to |allNodes|
        invariant allNodes == old(allNodes) && Marks(world) == old(Marks(world))
        invariant kept == Filtered<UObject>(allNodes[..i], Marks(world))
      {
        FilteredStep<UObject>(allNodes, i, Marks(world));
        if allNodes[i].marked {
          kept := kept + [allNodes[i]];
        }
      }
      assert allNodes[..|allNodes|] == allNodes;
      FilteredIs<UObject>(allNodes, Marks(world));
      ghost var at := FilteredInOrder<UObject>(allNodes, Marks(world));
      allNodes := kept;
      ResetMarks(world);
      SweptSays(world, old(allNodes), kept, old(Marks(world)));
    }

    method ResetMarks(ghost world: set<UObject>)
      requires Elements(allNodes) <= world
      modifies world`marked
      ensures Marks(world) == old(Marks(world)) - Elements(allNodes)
    {
      for i := 0 to |allNodes|
        invariant Marks(world) == old(Marks(world)) - Elements(allNodes[..i])
      {
        ghost var before := Marks(world);
        allNodes[i].marked := false;
        assert Marks(world) == before - {allNodes[i]};
        assert Elements(allNodes[..i + 1]) == Elements(allNodes[..i]) + {allNodes[i]};
      }
      assert allNodes[..|allNodes|] == allNodes;
    }

    /** One collection is the collection of the graph. */
    method Collect(ghost world: set<UObject>)
      requires Valid(world)
      modifies this`allNodes, world`marked
      ensures Valid(world) && GraphOf(world) == old(GraphOf(world))
      ensures Heap(Elements(allNodes), Marks(world)) ==
              GcGraph.Collect(GraphOf(world), Real(Elements(roots)), old(Heap(Elements(allNodes), Marks(world))))
      ensures allNodes ==
              Filtered<UObject>(old(allNodes),
                MarkFrom<UObject>(GraphOf(world), Real(Elements(roots)), old(Marks(world))))
      ensures (forall o | o in allNodes :: o in old(allNodes) && !o.marked) &&
              exists at :: InOrder<UObject>(old(allNodes), at, allNodes)
      ensures (forall o | o in world :: !old(o.marked)) ==>
                (forall o | o in old(allNodes) ::
                   o in allNodes <==> exists p :: Chain(p) && p[0] in roots && p[|p| - 1] == o) &&
                (forall o | o in old(allNodes) && o in roots :: o in allNodes) &&
                (forall o, c: UObject | o in allNodes && c in o.children && c in old(allNodes) :: c in allNodes)
    {
      ghost var g, before := GraphOf(world), Marks(world);
      MarkingNothing<UObject>(g, {}, before);
      for i := 0 to |roots|
        invariant Valid(world) && GraphOf(world) == g && allNodes == old(allNodes)
        invariant Marks(world) == MarkFrom<UObject>(g, Real(Elements(roots[..i])), before)
      {
        assert Real(Elements(roots[..i + 1])) == Real(Elements(roots[..i])) + Just(roots[i]);
        MarkingComposes<UObject>(g, Real(Elements(roots[..i])), Just(roots[i]), before);
        Mark(roots[i], world);
      }
      assert roots[..|roots|] == roots;
      hide MarkFrom, Filtered, Whole;
      FilteredIs<UObject>(allNodes, Marks(world));
      Sweep(world);
      if before == {} {
        SurvivorsAreTheReachable<UObject>(g, Real(Elements(roots)), Elements(old(allNodes)));
        SurvivorsSay(world, roots, old(allNodes), allNodes);
      }
      assert (forall o | o in world :: !old(o.marked)) ==> before == {};
    }
  }

  lemma SweptSays(world: set<UObject>, was: seq<UObject>, now: seq<UObject>, marks: set<UObject>)
    requires Elements(was) <= world && Elements(now) == Elements(was) * marks
    requires Marks(world) == marks - Elements(now)
    ensures forall o | o in was :: o in now <==> o in marks
    ensures forall o | o in now :: o in was && !o.marked
  {
    forall o | o in was
      ensures o in now <==> o in marks
    {
      assert o in Elements(was) && (o in Elements(now) <==> o in now);
    }
    forall o | o in now
      ensures o in was && !o.marked
    {
      assert o in Elements(now);
    }
  }

  /** The elements of `q` that are in `keep`, in order. */
  function Filtered<T(==)>(q: seq<T>, keep: set<T>): seq<T> {
    if q == [] then []
    else Filtered(q[..|q| - 1], keep) + if q[|q| - 1] in keep then [q[|q| - 1]] else []
  }

  /** `f` is what `q` has at the places `at`, which ascend. */
  ghost predicate InOrder<T>(q: seq<T>, at: seq<nat>, f: seq<T>) {
    |at| == |f| && (forall i | 0 <= i < |at| :: at[i] < |q| && f[i] == q[at[i]]) &&
    forall i, j | 0 <= i < j < |at| :: at[i] < at[j]
  }

  lemma {:induction false} FilteredInOrder<T>(q: seq<T>, keep: set<T>) returns (at: seq<nat>)
    ensures InOrder(q, at, Filtered(q, keep))
  {
    hide InOrder;
    if q == [] {
      at := [];
      NoneInOrder(q);
    } else {
      var last := |q| - 1;
      at := FilteredInOrder(q[..last], keep);
      InOrderFollows(q, at, Filtered(q[..last], keep));
      if q[last] in keep {
        at := at + [last];
        assert Filtered(q, keep) == Filtered(q[..last], keep) + [q[last]];
      } else {
        assert Filtered(q, keep) == Filtered(q[..last], keep);
      }
    }
  }

  lemma NoneInOrder<T>(q: seq<T>)
    ensures InOrder(q, [], [])
  {
  }

  lemma InOrderFollows<T>(q: seq<T>, at: seq<nat>, f: seq<T>)
    requires q != [] && InOrder(q[..|q| - 1], at, f)
    ensures InOrder(q, at, f) && InOrder(q, at + [|q| - 1], f + [q[|q| - 1]])
  {
  }

  lemma FilteredStart<T>(q: seq<T>, keep: set<T>)
    ensures Filtered(q[..0], keep) == []
  {
  }

  lemma FilteredStep<T>(q: seq<T>, i: nat, keep: set<T>)
    requires i < |q|
    ensures Filtered(q[..i + 1], keep) == Filtered(q[..i], keep) + if q[i] in keep then [q[i]] else []
  {
    assert q[..i + 1][..i] == q[..i];
  }

  lemma AppendedElements<T>(q: seq<T>, x: T)
    ensures Elements(q + [x]) == Elements(q) + {x}
  {
  }

  lemma {:induction false} FilteredIs<T>(q: seq<T>, keep: set<T>)
    ensures Elements(Filtered(q, keep)) == Elements(q) * keep
    ensures Distinct(q) ==> Distinct(Filtered(q, keep))
  {
    if q != [] {
      var r, x := q[..|q| - 1], q[|q| - 1];
      var f := Filtered(r, keep);
      FilteredIs(r, keep);
      assert q == r + [x];
      AppendedElements(r, x);
      AppendedElements(f, x);
      assert Distinct(q) ==> x !in Elements(r);
      assert x in f ==> x in Elements(f);
      if x in keep {
        assert Elements(f + [x]) == Elements(q) * keep;
      } else {
        assert Elements(f) == Elements(q) * keep;
      }
    }
  }
}
