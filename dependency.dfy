/** The fast (aggregated) dependency analysis: every variable, parameter,
    result, field and array item of every method collapses to one node, the
    instances node; each type reaching it is propagated to one memoised subtype
    node per value type, and a subtype node is wired, by a deferred task, to
    the subtype nodes of the class's direct ancestors, rewrapped to the same
    array degree.

    The dependency node machinery itself is modelled as an arena: node i has a
    set of types, a list of successor nodes and a list of consumers.  A type
    added to a node is recorded as a pending delivery (node, type) until it has
    been pushed to every successor and consumer; the invariant of the analyzer
    is that the graph is closed except for the pending deliveries. */
module FastDependency {
  import opened Common

  /** The node every variable, parameter, result, field and array item maps to. */
  const InstancesNode: nat := 0
  /** The node class values map to. */
  const ClassesNode: nat := 1

  /** A consumer attached to a node: the instances node's consumer that
      dispatches each type to its subtype node, or the virtual-call consumer
      with the given index. */
  datatype Consumer = SubtypeDispatch | VirtualCall(id: nat)

  /** A deferred task: build the ancestor edges of a subtype node, or attach a
      virtual-call consumer to the subtype node of its method's class. */
  datatype Task =
    | BuildSubtypeNode(key: ValueType, node: nat)
    | AttachVirtualCall(callee: MethodRef, consumer: nat)

  // ---------------------------------------------------------------- array degree

  /** How many array wrappers a value type has. */
  function Degree(t: ValueType): nat
  {
    if t.Array? then 1 + Degree(t.itemType) else 0
  }

  /** The value type with every array wrapper stripped. */
  function Innermost(t: ValueType): (r: ValueType)
    ensures !r.Array?
  {
    if t.Array? then Innermost(t.itemType) else t
  }

  /** t wrapped in d arrays (ValueType.arrayOf applied d times). */
  function Wrap(t: ValueType, d: nat): ValueType
  {
    if d == 0 then t else Array(Wrap(t, d - 1))
  }

  /** Stripping and rewrapping give back the original type. */
  lemma {:induction false} WrapInnermost(t: ValueType)
    ensures Wrap(Innermost(t), Degree(t)) == t
  {
    if t.Array? {
      WrapInnermost(t.itemType);
    }
  }

  /** Wrapping a non-array type d times gives degree d around that type. */
  lemma {:induction false} DegreeOfWrap(t: ValueType, d: nat)
    requires !t.Array?
    ensures Degree(Wrap(t, d)) == d && Innermost(Wrap(t, d)) == t
  {
    if d > 0 {
      DegreeOfWrap(t, d - 1);
    }
  }

  /** The subtype keys the deferred task of a subtype node connects to, in
      order: for an (array of) class that resolves, its superclass when it has
      one and then each interface, all at the key's array degree; nothing for
      a class that does not resolve; the root for a primitive (array). */
  function Ancestors(classSource: ClassSource, key: ValueType): seq<ValueType>
  {
    var inner := Innermost(key);
    var d := Degree(key);
    if inner.Object? then
      if inner.className in classSource then ClassAncestors(classSource[inner.className], d) else []
    else [RootType()]
  }

  /** The ancestor keys of a d-dimensional array of a class that resolves:
      its superclass when it has one, then each interface, all wrapped d times. */
  function ClassAncestors(cls: ClassInfo, d: nat): seq<ValueType>
  {
    ParentKeys(cls, d) + WrapEach(cls.interfaces, d)
  }

  /** The superclass key, wrapped d times, when the class has a superclass. */
  function ParentKeys(cls: ClassInfo, d: nat): seq<ValueType>
  {
    if cls.parent.Some? then [Wrap(Object(cls.parent.value), d)] else []
  }

  /** The object types of the named classes, each wrapped in d arrays. */
  function WrapEach(names: seq<string>, d: nat): (r: seq<ValueType>)
    ensures |r| == |names|
    ensures forall i :: 0 <= i < |names| ==> r[i] == Wrap(Object(names[i]), d)
  {
    if names == [] then [] else WrapEach(names[..|names| - 1], d) + [Wrap(Object(names[|names| - 1]), d)]
  }

  /** For the d-dimensional array of a resolving class (d = 0: the class
      itself), the ancestor keys are the parent first, when there is
      one, then each interface in declared order, each wrapped d times. */
  lemma AncestorsOfResolvable(classSource: ClassSource, c: string, d: nat)
    requires c in classSource
    ensures var cls := classSource[c];
            Ancestors(classSource, Wrap(Object(c), d))
            == (if cls.parent.Some? then [Wrap(Object(cls.parent.value), d)] else []) + WrapEach(cls.interfaces, d)
  {
    DegreeOfWrap(Object(c), d);
  }

  /** A class that does not resolve gets no ancestor key at all, whatever
      its array degree. */
  lemma AncestorsOfUnresolvable(classSource: ClassSource, c: string, d: nat)
    requires c !in classSource
    ensures Ancestors(classSource, Wrap(Object(c), d)) == []
  {
    DegreeOfWrap(Object(c), d);
  }

  /** A primitive (or void) at any array degree has only the root. */
  lemma AncestorsOfPrimitive(classSource: ClassSource, t: ValueType, d: nat)
    requires !t.Object? && !t.Array?
    ensures Ancestors(classSource, Wrap(t, d)) == [RootType()]
  {
    DegreeOfWrap(t, d);
  }

  /** Degree preservation: every ancestor key of a d-dimensional array of
      a class is the object type of a superclass or interface wrapped exactly d
      times, so it has degree d again. */
  lemma AncestorsKeepDegree(classSource: ClassSource, c: string, d: nat)
    ensures forall a :: a in Ancestors(classSource, Wrap(Object(c), d)) ==>
              Degree(a) == d && Innermost(a).Object? && a == Wrap(Innermost(a), d)
              && c in classSource
              && (Some(Innermost(a).className) == classSource[c].parent || Innermost(a).className in classSource[c].interfaces)
  {
    if c in classSource {
      AncestorsOfResolvable(classSource, c, d);
      var cls := classSource[c];
      var anc := Ancestors(classSource, Wrap(Object(c), d));
      forall a | a in anc
        ensures Degree(a) == d && Innermost(a).Object? && a == Wrap(Innermost(a), d)
                && (Some(Innermost(a).className) == cls.parent || Innermost(a).className in cls.interfaces)
      {
        var head := if cls.parent.Some? then [Wrap(Object(cls.parent.value), d)] else [];
        var name;
        if a in head {
          name := cls.parent.value;
        } else {
          var i :| 0 <= i < |cls.interfaces| && WrapEach(cls.interfaces, d)[i] == a;
          name := cls.interfaces[i];
        }
        assert a == Wrap(Object(name), d);
        DegreeOfWrap(Object(name), d);
      }
    } else {
      AncestorsOfUnresolvable(classSource, c, d);
    }
  }

  // ---------------------------------------------------------------- graph predicates

  /** Every successor names a node of the arena. */
  predicate EdgesInRange(n: nat, edges: seq<seq<nat>>)
  {
    forall a, k :: 0 <= a < |edges| && 0 <= k < |edges[a]| ==> edges[a][k] < n
  }

  /** Every type of a node has reached each successor, unless its delivery is pending. */
  predicate EdgeClosed(types: seq<set<ValueType>>, edges: seq<seq<nat>>, pending: set<(nat, ValueType)>)
  {
    forall a, k, t ::
      0 <= a < |edges| && a < |types| && 0 <= k < |edges[a]| && edges[a][k] < |types| && t in types[a]
      ==> t in types[edges[a][k]] || (a, t) in pending
  }

  /** Every type of a node has been given to each of its virtual-call
      consumers, unless its delivery is pending. */
  predicate ConsumersClosed(types: seq<set<ValueType>>, consumers: seq<seq<Consumer>>,
                            received: seq<set<ValueType>>, pending: set<(nat, ValueType)>)
  {
    forall a, k, t ::
      0 <= a < |consumers| && a < |types| && 0 <= k < |consumers[a]| && consumers[a][k].VirtualCall?
      && consumers[a][k].id < |received| && t in types[a]
      ==> t in received[consumers[a][k].id] || (a, t) in pending
  }

  /** The instances node's consumer: every type at the instances node is the
      root (whose subtype node is the instances node itself) or has reached
      the subtype node of its own value type, unless its delivery is pending. */
  predicate DispatchClosed(types: seq<set<ValueType>>, subtypeNodes: map<ValueType, nat>, pending: set<(nat, ValueType)>)
  {
    |types| > InstancesNode ==>
      forall t :: t in types[InstancesNode] ==>
        t == RootType() || (InstancesNode, t) in pending
        || (t in subtypeNodes && subtypeNodes[t] < |types| && t in types[subtypeNodes[t]])
  }

  /** A path of the graph: each node is followed by one of its successors. */
  predicate IsPath(edges: seq<seq<nat>>, p: seq<nat>)
  {
    forall i :: 0 <= i < |p| - 1 ==> p[i] < |edges| && p[i + 1] in edges[p[i]]
  }

  /** Once nothing is pending, a type at a node has reached every node on
      every path from it. */
  lemma {:induction false} FlowAlongPath(types: seq<set<ValueType>>, edges: seq<seq<nat>>, p: seq<nat>, t: ValueType)
    requires |edges| == |types| && EdgesInRange(|types|, edges) && EdgeClosed(types, edges, {})
    requires IsPath(edges, p) && |p| > 0 && p[0] < |types| && t in types[p[0]]
    ensures p[|p| - 1] < |types| && t in types[p[|p| - 1]]
    decreases |p|
  {
    if |p| > 1 {
      var init := p[..|p| - 1];
      assert IsPath(edges, init) by {
        forall i | 0 <= i < |init| - 1 ensures init[i] < |edges| && init[i + 1] in edges[init[i]] {
          assert init[i] == p[i] && init[i + 1] == p[i + 1];
        }
      }
      FlowAlongPath(types, edges, init, t);
      var a := p[|p| - 2];
      assert a == init[|init| - 1];
      var k :| 0 <= k < |edges[a]| && edges[a][k] == p[|p| - 1];
      assert edges[a][k] < |types|;
    }
  }

  /** Once nothing is pending, a type that reached the instances node has
      reached its own subtype node and everything reachable from it, that is
      the subtype nodes of all the ancestors wired so far. */
  lemma SubtypeFlow(types: seq<set<ValueType>>, edges: seq<seq<nat>>, subtypeNodes: map<ValueType, nat>,
                    t: ValueType, p: seq<nat>)
    requires |edges| == |types| && EdgesInRange(|types|, edges)
    requires EdgeClosed(types, edges, {}) && DispatchClosed(types, subtypeNodes, {})
    requires |types| > InstancesNode && t in types[InstancesNode] && t != RootType()
    requires IsPath(edges, p) && |p| > 0 && t in subtypeNodes && p[0] == subtypeNodes[t]
    ensures p[|p| - 1] < |types| && t in types[p[|p| - 1]]
  {
    FlowAlongPath(types, edges, p, t);
  }

  /** The closure facts survive connect(a, b): the new edge is closed by the
      types copied to b, and the types new to b are pending. */
  lemma ConnectKeepsClosure(types: seq<set<ValueType>>, edges: seq<seq<nat>>, consumers: seq<seq<Consumer>>,
                            received: seq<set<ValueType>>, subtypeNodes: map<ValueType, nat>,
                            pending: set<(nat, ValueType)>, a: nat, b: nat)
    requires a < |types| && b < |types| && |edges| == |types| && |consumers| == |types|
    requires EdgeClosed(types, edges, pending) && ConsumersClosed(types, consumers, received, pending)
    requires DispatchClosed(types, subtypeNodes, pending)
    ensures var types' := types[b := types[b] + types[a]];
            var pending' := pending + (set t | t in types[a] && t !in types[b] :: (b, t));
            && EdgeClosed(types', edges[a := edges[a] + [b]], pending')
            && ConsumersClosed(types', consumers, received, pending')
            && DispatchClosed(types', subtypeNodes, pending')
  {
    var types' := types[b := types[b] + types[a]];
    var edges' := edges[a := edges[a] + [b]];
    var pending' := pending + (set t | t in types[a] && t !in types[b] :: (b, t));
    forall x, k, t | 0 <= x < |edges'| && x < |types'| && 0 <= k < |edges'[x]| && edges'[x][k] < |types'| && t in types'[x]
      ensures t in types'[edges'[x][k]] || (x, t) in pending'
    {
      if x == a && k == |edges[a]| {
        assert edges'[x][k] == b;
        if x == b {
          assert t in types'[b];
        } else {
          assert t in types[a];
        }
      } else {
        assert edges'[x][k] == edges[x][k];
        if t !in types[x] {
          assert x == b && t in types[a];
          assert (b, t) in pending';
        }
      }
    }
    forall x, k, t | 0 <= x < |consumers| && x < |types'| && 0 <= k < |consumers[x]| && consumers[x][k].VirtualCall?
                     && consumers[x][k].id < |received| && t in types'[x]
      ensures t in received[consumers[x][k].id] || (x, t) in pending'
    {
      if t !in types[x] {
        assert x == b && t in types[a];
        assert (b, t) in pending';
      }
    }
    forall t | t in types'[InstancesNode]
      ensures t == RootType() || (InstancesNode, t) in pending'
              || (t in subtypeNodes && subtypeNodes[t] < |types'| && t in types'[subtypeNodes[t]])
    {
      if t !in types[InstancesNode] {
        assert InstancesNode == b && t in types[a];
        assert (b, t) in pending';
      } else if t in subtypeNodes && subtypeNodes[t] < |types| && t in types[subtypeNodes[t]] {
        assert t in types'[subtypeNodes[t]];
      }
    }
  }

  /** The closure facts survive appending a node with no types, no edges and
      no consumers. */
  lemma AppendNodeKeepsClosure(types: seq<set<ValueType>>, edges: seq<seq<nat>>, consumers: seq<seq<Consumer>>,
                               received: seq<set<ValueType>>, subtypeNodes: map<ValueType, nat>,
                               pending: set<(nat, ValueType)>, key: ValueType)
    requires |edges| == |types| && |consumers| == |types| && |types| > InstancesNode
    requires EdgesInRange(|types|, edges) && key !in subtypeNodes
    requires EdgeClosed(types, edges, pending) && ConsumersClosed(types, consumers, received, pending)
    requires DispatchClosed(types, subtypeNodes, pending)
    ensures EdgeClosed(types + [{}], edges + [[]], pending)
    ensures ConsumersClosed(types + [{}], consumers + [[]], received, pending)
    ensures DispatchClosed(types + [{}], subtypeNodes[key := |types|], pending)
  {
    var types' := types + [{}];
    var edges' := edges + [[]];
    forall x, k, t | 0 <= x < |edges'| && x < |types'| && 0 <= k < |edges'[x]| && edges'[x][k] < |types'| && t in types'[x]
      ensures t in types'[edges'[x][k]] || (x, t) in pending
    {
      assert x < |types| && edges'[x] == edges[x] && types'[x] == types[x];
      assert types'[edges[x][k]] == types[edges[x][k]];
    }
    var consumers': seq<seq<Consumer>> := consumers + [[]];
    forall x, k, t | 0 <= x < |consumers'| && x < |types'| && 0 <= k < |consumers'[x]| && consumers'[x][k].VirtualCall?
                     && consumers'[x][k].id < |received| && t in types'[x]
      ensures t in received[consumers'[x][k].id] || (x, t) in pending
    {
      assert x < |types| && consumers'[x] == consumers[x] && types'[x] == types[x];
    }
    var nodes' := subtypeNodes[key := |types|];
    forall t | t in types'[InstancesNode]
      ensures t == RootType() || (InstancesNode, t) in pending
              || (t in nodes' && nodes'[t] < |types'| && t in types'[nodes'[t]])
    {
      assert types'[InstancesNode] == types[InstancesNode];
      if t != key && t in subtypeNodes && subtypeNodes[t] < |types| && t in types[subtypeNodes[t]] {
        assert nodes'[t] == subtypeNodes[t] && types'[subtypeNodes[t]] == types[subtypeNodes[t]];
      }
    }
  }

  /** m2 keeps every entry of m1. */
  predicate Extends<K, V(==)>(m1: map<K, V>, m2: map<K, V>)
  {
    forall k :: k in m1 ==> k in m2 && m2[k] == m1[k]
  }

  /** The node getSubtypeNode answers for a key that has one. */
  predicate Resolves(subtypeNodes: map<ValueType, nat>, key: ValueType)
  {
    key == RootType() || key in subtypeNodes
  }

  function NodeOf(subtypeNodes: map<ValueType, nat>, key: ValueType): nat
    requires Resolves(subtypeNodes, key)
  {
    if key == RootType() then InstancesNode else subtypeNodes[key]
  }

  function NodesOf(subtypeNodes: map<ValueType, nat>, keys: seq<ValueType>): (r: seq<nat>)
    requires forall i :: 0 <= i < |keys| ==> Resolves(subtypeNodes, keys[i])
    ensures |r| == |keys|
    ensures forall i :: 0 <= i < |keys| ==> r[i] == NodeOf(subtypeNodes, keys[i])
  {
    seq(|keys|, i requires 0 <= i < |keys| => NodeOf(subtypeNodes, keys[i]))
  }

  /** An extended cache answers the same nodes for the keys it already had. */
  lemma NodesOfExtends(m1: map<ValueType, nat>, m2: map<ValueType, nat>, keys: seq<ValueType>)
    requires Extends(m1, m2)
    requires forall i :: 0 <= i < |keys| ==> Resolves(m1, keys[i])
    ensures forall i :: 0 <= i < |keys| ==> Resolves(m2, keys[i])
    ensures NodesOf(m1, keys) == NodesOf(m2, keys)
  {
  }

  /** How many tasks building a subtype node for key a log holds. */
  function CountBuilds(log: seq<Task>, key: ValueType): nat
  {
    if log == [] then 0
    else CountBuilds(log[..|log| - 1], key) + (if log[|log| - 1].BuildSubtypeNode? && log[|log| - 1].key == key then 1 else 0)
  }

  /** How many tasks attaching a consumer for a method a log holds. */
  function CountAttaches(log: seq<Task>, callee: MethodRef): nat
  {
    if log == [] then 0
    else CountAttaches(log[..|log| - 1], callee) + (if log[|log| - 1].AttachVirtualCall? && log[|log| - 1].callee == callee then 1 else 0)
  }

  lemma CountsSnoc(log: seq<Task>, task: Task)
    ensures forall key :: CountBuilds(log + [task], key) == CountBuilds(log, key) + (if task.BuildSubtypeNode? && task.key == key then 1 else 0)
    ensures forall m :: CountAttaches(log + [task], m) == CountAttaches(log, m) + (if task.AttachVirtualCall? && task.callee == m then 1 else 0)
  {
    assert (log + [task])[..|log|] == log;
  }

  /** Both caches are memoised: the log holds exactly one construction task
      per cached key, naming the cached value, and none for other keys; a
      cached consumer was created for its own method. */
  ghost predicate Memoised(log: seq<Task>, subtypeNodes: map<ValueType, nat>,
                     virtualCallConsumers: map<MethodRef, nat>, callees: seq<MethodRef>)
  {
    && (forall key {:trigger CountBuilds(log, key)} :: CountBuilds(log, key) == (if key in subtypeNodes then 1 else 0))
    && (forall key :: key in subtypeNodes ==> BuildSubtypeNode(key, subtypeNodes[key]) in log)
    && (forall m {:trigger CountAttaches(log, m)} :: CountAttaches(log, m) == (if m in virtualCallConsumers then 1 else 0))
    && (forall m :: m in virtualCallConsumers ==> AttachVirtualCall(m, virtualCallConsumers[m]) in log)
    && (forall m :: m in virtualCallConsumers && virtualCallConsumers[m] < |callees| ==> callees[virtualCallConsumers[m]] == m)
  }

  /** Every construction task in the log counts towards its key, and two
      different ones for the same key count twice. */
  lemma {:induction false} CountBuildsAtLeast(log: seq<Task>, i: nat, j: nat)
    requires i <= j < |log| && log[i].BuildSubtypeNode? && log[j].BuildSubtypeNode? && log[i].key == log[j].key
    ensures CountBuilds(log, log[i].key) >= (if i == j then 1 else 2)
    decreases |log|
  {
    var init := log[..|log| - 1];
    if j < |log| - 1 {
      assert init[i] == log[i] && init[j] == log[j];
      CountBuildsAtLeast(init, i, j);
    } else if i < j {
      assert init[i] == log[i];
      CountBuildsAtLeast(init, i, i);
    }
  }

  lemma {:induction false} CountAttachesAtLeast(log: seq<Task>, i: nat, j: nat)
    requires i <= j < |log| && log[i].AttachVirtualCall? && log[j].AttachVirtualCall? && log[i].callee == log[j].callee
    ensures CountAttaches(log, log[i].callee) >= (if i == j then 1 else 2)
    decreases |log|
  {
    var init := log[..|log| - 1];
    if j < |log| - 1 {
      assert init[i] == log[i] && init[j] == log[j];
      CountAttachesAtLeast(init, i, j);
    } else if i < j {
      assert init[i] == log[i];
      CountAttachesAtLeast(init, i, i);
    }
  }

  /** At most once: under memoised caches the log holds a single
      construction task per key, and the node it names is the cached one;
      likewise a single attach task per method, naming the cached consumer. */
  lemma OneTaskPerKey(log: seq<Task>, subtypeNodes: map<ValueType, nat>,
                      virtualCallConsumers: map<MethodRef, nat>, callees: seq<MethodRef>, i: nat, j: nat)
    requires Memoised(log, subtypeNodes, virtualCallConsumers, callees)
    requires i < |log| && j < |log|
    ensures log[i].BuildSubtypeNode? ==>
              log[i].key in subtypeNodes && log[i].node == subtypeNodes[log[i].key]
    ensures log[i].AttachVirtualCall? ==>
              log[i].callee in virtualCallConsumers && log[i].consumer == virtualCallConsumers[log[i].callee]
    ensures log[i].BuildSubtypeNode? && log[j].BuildSubtypeNode? && log[i].key == log[j].key ==> i == j
    ensures log[i].AttachVirtualCall? && log[j].AttachVirtualCall? && log[i].callee == log[j].callee ==> i == j
  {
    if log[i].BuildSubtypeNode? {
      CountBuildsAtLeast(log, i, i);
      var key := log[i].key;
      var k :| 0 <= k < |log| && log[k] == BuildSubtypeNode(key, subtypeNodes[key]);
      if k != i {
        if k < i { CountBuildsAtLeast(log, k, i); } else { CountBuildsAtLeast(log, i, k); }
      }
      if log[j].BuildSubtypeNode? && log[j].key == key && i != j {
        if i < j { CountBuildsAtLeast(log, i, j); } else { CountBuildsAtLeast(log, j, i); }
      }
    }
    if log[i].AttachVirtualCall? {
      CountAttachesAtLeast(log, i, i);
      var m := log[i].callee;
      var k :| 0 <= k < |log| && log[k] == AttachVirtualCall(m, virtualCallConsumers[m]);
      if k != i {
        if k < i { CountAttachesAtLeast(log, k, i); } else { CountAttachesAtLeast(log, i, k); }
      }
      if log[j].AttachVirtualCall? && log[j].callee == m && i != j {
        if i < j { CountAttachesAtLeast(log, i, j); } else { CountAttachesAtLeast(log, j, i); }
      }
    }
  }

  /** Caching a new subtype node together with its one construction task
      keeps both caches memoised. */
  lemma MemoisedNewSubtypeNode(log: seq<Task>, subtypeNodes: map<ValueType, nat>,
                               virtualCallConsumers: map<MethodRef, nat>, callees: seq<MethodRef>, key: ValueType, node: nat)
    requires Memoised(log, subtypeNodes, virtualCallConsumers, callees) && key !in subtypeNodes
    ensures Memoised(log + [BuildSubtypeNode(key, node)], subtypeNodes[key := node], virtualCallConsumers, callees)
  {
    CountsSnoc(log, BuildSubtypeNode(key, node));
  }

  /** Caching a new virtual-call consumer together with its one attach task
      keeps both caches memoised. */
  lemma MemoisedNewConsumer(log: seq<Task>, subtypeNodes: map<ValueType, nat>,
                            virtualCallConsumers: map<MethodRef, nat>, callees: seq<MethodRef>, callee: MethodRef)
    requires Memoised(log, subtypeNodes, virtualCallConsumers, callees) && callee !in virtualCallConsumers
    requires forall m :: m in virtualCallConsumers ==> virtualCallConsumers[m] < |callees|
    ensures Memoised(log + [AttachVirtualCall(callee, |callees|)], subtypeNodes,
                     virtualCallConsumers[callee := |callees|], callees + [callee])
  {
    CountsSnoc(log, AttachVirtualCall(callee, |callees|));
    var callees' := callees + [callee];
    var vcc' := virtualCallConsumers[callee := |callees|];
    forall m | m in vcc' && vcc'[m] < |callees'| ensures callees'[vcc'[m]] == m {
      if m != callee {
        assert callees'[vcc'[m]] == callees[virtualCallConsumers[m]];
      }
    }
  }

  /** A consumer index is in range, and the dispatch consumer sits only on the instances node. */
  predicate ConsumerInRange(c: Consumer, node: nat, consumerCount: nat)
  {
    match c
    case SubtypeDispatch => node == InstancesNode
    case VirtualCall(id) => id < consumerCount
  }

  predicate TaskInRange(task: Task, nodeCount: nat, consumerCount: nat)
  {
    match task
    case BuildSubtypeNode(_, node) => node < nodeCount
    case AttachVirtualCall(_, consumer) => consumer < consumerCount
  }

  /** Every consumer attached to a node is in range. */
  predicate ConsumersInRange(consumers: seq<seq<Consumer>>, consumerCount: nat)
  {
    forall a, k :: 0 <= a < |consumers| && 0 <= k < |consumers[a]| ==> ConsumerInRange(consumers[a][k], a, consumerCount)
  }

  /** Every deferred task names a node and a consumer that exist. */
  predicate TasksInRange(tasks: seq<Task>, nodeCount: nat, consumerCount: nat)
  {
    forall i :: 0 <= i < |tasks| ==> TaskInRange(tasks[i], nodeCount, consumerCount)
  }

  /** Adding nodes and consumers keeps attached consumers and deferred tasks in range. */
  lemma RangesGrow(consumers: seq<seq<Consumer>>, tasks: seq<Task>, nodeCount: nat, consumerCount: nat,
                   nodeCount': nat, consumerCount': nat)
    requires ConsumersInRange(consumers, consumerCount) && TasksInRange(tasks, nodeCount, consumerCount)
    requires nodeCount <= nodeCount' && consumerCount <= consumerCount'
    ensures ConsumersInRange(consumers, consumerCount') && TasksInRange(tasks, nodeCount', consumerCount')
  {
    forall a, k | 0 <= a < |consumers| && 0 <= k < |consumers[a]|
      ensures ConsumerInRange(consumers[a][k], a, consumerCount')
    {
      assert ConsumerInRange(consumers[a][k], a, consumerCount);
    }
    forall i | 0 <= i < |tasks| ensures TaskInRange(tasks[i], nodeCount', consumerCount') {
      assert TaskInRange(tasks[i], nodeCount, consumerCount);
    }
  }

  /** A new node with no consumers and a new task in range keep everything in range. */
  lemma RangesAppend(consumers: seq<seq<Consumer>>, tasks: seq<Task>, nodeCount: nat, consumerCount: nat,
                     newConsumers: seq<seq<Consumer>>, task: Task)
    requires ConsumersInRange(consumers, consumerCount) && TasksInRange(tasks, nodeCount, consumerCount)
    requires TaskInRange(task, nodeCount, consumerCount)
    requires forall a :: 0 <= a < |newConsumers| ==> newConsumers[a] == []
    ensures ConsumersInRange(consumers + newConsumers, consumerCount)
    ensures TasksInRange(tasks + [task], nodeCount, consumerCount)
  {
    var all := consumers + newConsumers;
    forall a, k | 0 <= a < |all| && 0 <= k < |all[a]|
      ensures ConsumerInRange(all[a][k], a, consumerCount)
    {
      assert a < |consumers| && all[a] == consumers[a];
    }
    var tasks' := tasks + [task];
    forall i | 0 <= i < |tasks'| ensures TaskInRange(tasks'[i], nodeCount, consumerCount) {
      if i < |tasks| {
        assert tasks'[i] == tasks[i];
      }
    }
  }

  /** The sizes and indices of the analyzer's state line up: edges and
      consumers per node, successors and consumers that exist, the dispatch
      consumer first on the instances node, cached nodes and consumers that
      exist, pending deliveries of types the node holds, deferred tasks in
      range. */
  ghost predicate Layout(types: seq<set<ValueType>>, edges: seq<seq<nat>>, consumers: seq<seq<Consumer>>,
                         pending: set<(nat, ValueType)>, callees: seq<MethodRef>, received: seq<set<ValueType>>,
                         subtypeNodes: map<ValueType, nat>, virtualCallConsumers: map<MethodRef, nat>,
                         deferred: seq<Task>)
  {
    && |types| >= 2 && |edges| == |types| && |consumers| == |types|
    && EdgesInRange(|types|, edges)
    && ConsumersInRange(consumers, |received|)
    && |consumers[InstancesNode]| > 0 && consumers[InstancesNode][0] == SubtypeDispatch
    && |callees| == |received|
    && RootType() !in subtypeNodes
    && (forall key :: key in subtypeNodes ==> subtypeNodes[key] < |types|)
    && (forall m :: m in virtualCallConsumers ==> virtualCallConsumers[m] < |received|)
    && (forall p :: p in pending ==> p.0 < |types| && p.1 in types[p.0])
    && TasksInRange(deferred, |types|, |received|)
  }

  /** The analyzer's invariant: the layout, the three closure facts (every
      type not pending has flowed along edges, to consumers and through the
      dispatch consumer) and memoised caches. */
  ghost predicate Consistent(types: seq<set<ValueType>>, edges: seq<seq<nat>>, consumers: seq<seq<Consumer>>,
                             pending: set<(nat, ValueType)>, callees: seq<MethodRef>, received: seq<set<ValueType>>,
                             subtypeNodes: map<ValueType, nat>, virtualCallConsumers: map<MethodRef, nat>,
                             deferred: seq<Task>, log: seq<Task>)
  {
    && Layout(types, edges, consumers, pending, callees, received, subtypeNodes, virtualCallConsumers, deferred)
    && EdgeClosed(types, edges, pending)
    && ConsumersClosed(types, consumers, received, pending)
    && DispatchClosed(types, subtypeNodes, pending)
    && Memoised(log, subtypeNodes, virtualCallConsumers, callees)
  }

  /** getSubtypeNode's creating step keeps the invariant: a fresh empty node
      cached for the key, and its construction task deferred and logged. */
  lemma ConsistentNewSubtypeNode(types: seq<set<ValueType>>, edges: seq<seq<nat>>, consumers: seq<seq<Consumer>>,
                                 pending: set<(nat, ValueType)>, callees: seq<MethodRef>, received: seq<set<ValueType>>,
                                 subtypeNodes: map<ValueType, nat>, virtualCallConsumers: map<MethodRef, nat>,
                                 deferred: seq<Task>, log: seq<Task>, key: ValueType)
    requires Consistent(types, edges, consumers, pending, callees, received, subtypeNodes, virtualCallConsumers, deferred, log)
    requires key != RootType() && key !in subtypeNodes
    ensures Consistent(types + [{}], edges + [[]], consumers + [[]], pending, callees, received,
                       subtypeNodes[key := |types|], virtualCallConsumers,
                       deferred + [BuildSubtypeNode(key, |types|)], log + [BuildSubtypeNode(key, |types|)])
  {
    var task := BuildSubtypeNode(key, |types|);
    MemoisedNewSubtypeNode(log, subtypeNodes, virtualCallConsumers, callees, key, |types|);
    RangesGrow(consumers, deferred, |types|, |received|, |types| + 1, |received|);
    RangesAppend(consumers, deferred, |types| + 1, |received|, [[]], task);
    AppendNodeKeepsClosure(types, edges, consumers, received, subtypeNodes, pending, key);
    var types' := types + [{}];
    assert EdgesInRange(|types'|, edges + [[]]) by {
      var edges' := edges + [[]];
      forall a, k | 0 <= a < |edges'| && 0 <= k < |edges'[a]| ensures edges'[a][k] < |types'| {
        assert a < |edges| && edges'[a] == edges[a];
      }
    }
    assert (consumers + [[]])[InstancesNode] == consumers[InstancesNode];
    forall p | p in pending ensures p.0 < |types'| && p.1 in types'[p.0] {
      assert types'[p.0] == types[p.0];
    }
  }

  /** getVirtualCallConsumer's creating step keeps the invariant: a fresh
      consumer with no types cached for the method, and its attach task
      deferred and logged. */
  lemma ConsistentNewConsumer(types: seq<set<ValueType>>, edges: seq<seq<nat>>, consumers: seq<seq<Consumer>>,
                              pending: set<(nat, ValueType)>, callees: seq<MethodRef>, received: seq<set<ValueType>>,
                              subtypeNodes: map<ValueType, nat>, virtualCallConsumers: map<MethodRef, nat>,
                              deferred: seq<Task>, log: seq<Task>, callee: MethodRef)
    requires Consistent(types, edges, consumers, pending, callees, received, subtypeNodes, virtualCallConsumers, deferred, log)
    requires callee !in virtualCallConsumers
    ensures Consistent(types, edges, consumers, pending, callees + [callee], received + [{}],
                       subtypeNodes, virtualCallConsumers[callee := |received|],
                       deferred + [AttachVirtualCall(callee, |received|)], log + [AttachVirtualCall(callee, |received|)])
  {
    var task := AttachVirtualCall(callee, |received|);
    MemoisedNewConsumer(log, subtypeNodes, virtualCallConsumers, callees, callee);
    RangesGrow(consumers, deferred, |types|, |received|, |types|, |received| + 1);
    RangesAppend(consumers, deferred, |types|, |received| + 1, [], task);
    assert consumers + [] == consumers;
    var received' := received + [{}];
    forall a, k, t | 0 <= a < |consumers| && a < |types| && 0 <= k < |consumers[a]| && consumers[a][k].VirtualCall?
                     && consumers[a][k].id < |received'| && t in types[a]
      ensures t in received'[consumers[a][k].id] || (a, t) in pending
    {
      assert ConsumerInRange(consumers[a][k], a, |received|);
      assert received'[consumers[a][k].id] == received[consumers[a][k].id];
    }
  }

  /** Taking the first deferred task off the queue keeps the invariant. */
  lemma ConsistentPopTask(types: seq<set<ValueType>>, edges: seq<seq<nat>>, consumers: seq<seq<Consumer>>,
                          pending: set<(nat, ValueType)>, callees: seq<MethodRef>, received: seq<set<ValueType>>,
                          subtypeNodes: map<ValueType, nat>, virtualCallConsumers: map<MethodRef, nat>,
                          deferred: seq<Task>, log: seq<Task>)
    requires Consistent(types, edges, consumers, pending, callees, received, subtypeNodes, virtualCallConsumers, deferred, log)
    requires |deferred| > 0
    ensures TaskInRange(deferred[0], |types|, |received|)
    ensures Consistent(types, edges, consumers, pending, callees, received, subtypeNodes, virtualCallConsumers, deferred[1..], log)
  {
    var rest := deferred[1..];
    forall i | 0 <= i < |rest| ensures TaskInRange(rest[i], |types|, |received|) {
      assert rest[i] == deferred[i + 1];
    }
  }

  /** Once a pending type has reached every successor and every virtual-call
      consumer of its node, and (at the instances node) its own subtype node,
      its delivery is no longer pending. */
  lemma ConsistentDischarge(types: seq<set<ValueType>>, edges: seq<seq<nat>>, consumers: seq<seq<Consumer>>,
                            pending: set<(nat, ValueType)>, callees: seq<MethodRef>, received: seq<set<ValueType>>,
                            subtypeNodes: map<ValueType, nat>, virtualCallConsumers: map<MethodRef, nat>,
                            deferred: seq<Task>, log: seq<Task>, n: nat, t: ValueType)
    requires Consistent(types, edges, consumers, pending, callees, received, subtypeNodes, virtualCallConsumers, deferred, log)
    requires n < |types|
    requires forall k :: 0 <= k < |edges[n]| ==> t in types[edges[n][k]]
    requires forall k :: 0 <= k < |consumers[n]| && consumers[n][k].VirtualCall? ==> t in received[consumers[n][k].id]
    requires n == InstancesNode && t != RootType() ==> t in subtypeNodes && t in types[subtypeNodes[t]]
    ensures Consistent(types, edges, consumers, pending - {(n, t)}, callees, received, subtypeNodes, virtualCallConsumers,
                       deferred, log)
  {
    var pending' := pending - {(n, t)};
    forall a, k, u | 0 <= a < |edges| && a < |types| && 0 <= k < |edges[a]| && edges[a][k] < |types| && u in types[a]
      ensures u in types[edges[a][k]] || (a, u) in pending'
    {
    }
    forall a, k, u | 0 <= a < |consumers| && a < |types| && 0 <= k < |consumers[a]| && consumers[a][k].VirtualCall?
                     && consumers[a][k].id < |received| && u in types[a]
      ensures u in received[consumers[a][k].id] || (a, u) in pending'
    {
    }
  }

  /** after keeps the types of the nodes of before and may add nodes. */
  predicate Grows(before: seq<set<ValueType>>, after: seq<set<ValueType>>)
  {
    |before| <= |after| && forall m :: 0 <= m < |before| ==> before[m] <= after[m]
  }

  /** after keeps every entry of before and may append more. */
  predicate KeepsPrefix<T(==)>(before: seq<T>, after: seq<T>)
  {
    |before| <= |after| && forall m :: 0 <= m < |before| ==> after[m] == before[m]
  }

  /** after keeps the out-edges of every node of before except node. */
  predicate EdgesKeptExcept(before: seq<seq<nat>>, after: seq<seq<nat>>, node: nat)
  {
    |before| <= |after| && forall m :: 0 <= m < |before| && m != node ==> after[m] == before[m]
  }

  /** Between two states, the only type added anywhere is t, and only at
      nodes that lacked it, each of which then has t pending. */
  predicate AddsOnlyBetween(types0: seq<set<ValueType>>, pending0: set<(nat, ValueType)>,
                            types1: seq<set<ValueType>>, pending1: set<(nat, ValueType)>, t: ValueType)
  {
    && Grows(types0, types1)
    && (forall m :: 0 <= m < |types0| ==> types1[m] <= types0[m] + {t})
    && pending0 <= pending1
    && (forall p :: p in pending1 && p !in pending0 ==>
          p.1 == t && p.0 < |types1| && (p.0 >= |types0| || t !in types0[p.0]))
  }

  lemma AddsOnlyTransitive(types0: seq<set<ValueType>>, pending0: set<(nat, ValueType)>,
                           types1: seq<set<ValueType>>, pending1: set<(nat, ValueType)>,
                           types2: seq<set<ValueType>>, pending2: set<(nat, ValueType)>, t: ValueType)
    requires AddsOnlyBetween(types0, pending0, types1, pending1, t)
    requires AddsOnlyBetween(types1, pending1, types2, pending2, t)
    ensures AddsOnlyBetween(types0, pending0, types2, pending2, t)
  {
  }

  lemma GrowsTransitive(a: seq<set<ValueType>>, b: seq<set<ValueType>>, c: seq<set<ValueType>>)
    requires Grows(a, b) && Grows(b, c)
    ensures Grows(a, c)
  {
  }

  lemma ExtendsTransitive(a: map<ValueType, nat>, b: map<ValueType, nat>, c: map<ValueType, nat>)
    requires Extends(a, b) && Extends(b, c)
    ensures Extends(a, c)
  {
  }

  lemma KeepsPrefixTransitive<T>(a: seq<T>, b: seq<T>, c: seq<T>)
    requires KeepsPrefix(a, b) && KeepsPrefix(b, c)
    ensures KeepsPrefix(a, c)
  {
  }

  lemma EdgesKeptTransitive(a: seq<seq<nat>>, b: seq<seq<nat>>, c: seq<seq<nat>>, node: nat)
    requires EdgesKeptExcept(a, b, node) && EdgesKeptExcept(b, c, node)
    ensures EdgesKeptExcept(a, c, node)
  {
  }

  /** Resolving a concatenation of keys gives the concatenation of their nodes. */
  lemma NodesOfAppend(subtypeNodes: map<ValueType, nat>, a: seq<ValueType>, b: seq<ValueType>)
    requires forall i :: 0 <= i < |a| ==> Resolves(subtypeNodes, a[i])
    requires forall i :: 0 <= i < |b| ==> Resolves(subtypeNodes, b[i])
    ensures forall i :: 0 <= i < |a + b| ==> Resolves(subtypeNodes, (a + b)[i])
    ensures NodesOf(subtypeNodes, a + b) == NodesOf(subtypeNodes, a) + NodesOf(subtypeNodes, b)
  {
    var ab := a + b;
    forall i | 0 <= i < |ab| ensures Resolves(subtypeNodes, ab[i]) {
      if i >= |a| {
        assert ab[i] == b[i - |a|];
      }
    }
    var lhs := NodesOf(subtypeNodes, ab);
    var rhs := NodesOf(subtypeNodes, a) + NodesOf(subtypeNodes, b);
    forall i | 0 <= i < |lhs| ensures lhs[i] == rhs[i] {
      if i >= |a| {
        assert ab[i] == b[i - |a|];
      }
    }
  }

  /** The deferred task's first loop: strips the array wrappers of key,
      counting them. */
  method StripArrays(key: ValueType) returns (k: ValueType, degree: nat)
    ensures !k.Array? && k == Innermost(key) && degree == Degree(key)
    ensures Wrap(k, degree) == key
  {
    k := key;
    degree := 0;
    while k.Array?
      invariant Innermost(k) == Innermost(key) && Degree(k) + degree == Degree(key)
      decreases k
    {
      degree := degree + 1;
      k := k.itemType;
    }
    WrapInnermost(key);
  }

  /** The deferred task's rewrap loop: ValueType.arrayOf applied degree times. */
  method ArrayOf(t: ValueType, degree: nat) returns (r: ValueType)
    ensures r == Wrap(t, degree)
    ensures !t.Array? ==> Degree(r) == degree && Innermost(r) == t
  {
    r := t;
    for i := 0 to degree
      invariant r == Wrap(t, i)
    {
      r := Array(r);
    }
    if !t.Array? {
      DegreeOfWrap(t, degree);
    }
  }

  // ---------------------------------------------------------------- method bodies

  /** The part of a program the analyzer itself reads: its variable count
      and, per basic block, the exception types of its try/catch blocks
      (None for a catch-all). */
  datatype ProgramReader = ProgramReader(variableCount: nat, tryCatchTypes: seq<seq<Option<string>>>)

  datatype MethodReader = MethodReader(reference: MethodRef, program: Option<ProgramReader>, synchronized: bool)

  /** The exception classes caught in a list of try/catch blocks, in order. */
  function Caught(tryCatches: seq<Option<string>>): seq<string>
  {
    if tryCatches == [] then []
    else
      var last := tryCatches[|tryCatches| - 1];
      Caught(tryCatches[..|tryCatches| - 1]) + (if last.Some? then [last.value] else [])
  }

  /** The exception classes processMethod links, block by block. */
  function CaughtClasses(blocks: seq<seq<Option<string>>>): seq<string>
  {
    if blocks == [] then [] else CaughtClasses(blocks[..|blocks| - 1]) + Caught(blocks[|blocks| - 1])
  }

  lemma {:induction false} CaughtExact(tryCatches: seq<Option<string>>)
    ensures forall name :: name in Caught(tryCatches) <==> Some(name) in tryCatches
    ensures |Caught(tryCatches)| <= |tryCatches|
    decreases |tryCatches|
  {
    if tryCatches != [] {
      var init := tryCatches[..|tryCatches| - 1];
      CaughtExact(init);
      assert tryCatches == init + [tryCatches[|tryCatches| - 1]];
    }
  }

  /** Exactly the non-null exception types of the try/catch blocks are
      linked: a class is linked iff some block catches it. */
  lemma {:induction false} CaughtClassesExact(blocks: seq<seq<Option<string>>>)
    ensures forall name :: name in CaughtClasses(blocks) <==>
              exists b :: 0 <= b < |blocks| && Some(name) in blocks[b]
    decreases |blocks|
  {
    if blocks != [] {
      var init := blocks[..|blocks| - 1];
      var last := blocks[|blocks| - 1];
      CaughtClassesExact(init);
      CaughtExact(last);
      assert CaughtClasses(blocks) == CaughtClasses(init) + Caught(last);
      forall name ensures name in CaughtClasses(blocks) <==> exists b :: 0 <= b < |blocks| && Some(name) in blocks[b] {
        assert name in CaughtClasses(blocks) <==> name in CaughtClasses(init) || name in Caught(last);
        if name in CaughtClasses(init) {
          var b :| 0 <= b < |init| && Some(name) in init[b];
          assert blocks[b] == init[b];
        }
        if exists b :: 0 <= b < |blocks| && Some(name) in blocks[b] {
          var b :| 0 <= b < |blocks| && Some(name) in blocks[b];
          if b < |init| {
            assert init[b] == blocks[b];
          }
        }
      }
    }
  }

  /** The monitor support methods; AbstractInstructionAnalyzer, which holds
      their exact descriptors, is not part of this model. */
  const MonitorEnter: MethodRef := MethodRef("java.lang.Object", MethodDescriptor("monitorEnter", [RootType(), Void]))
  const MonitorEnterSync: MethodRef := MethodRef("java.lang.Object", MethodDescriptor("monitorEnterSync", [RootType(), Void]))
  const MonitorExit: MethodRef := MethodRef("java.lang.Object", MethodDescriptor("monitorExit", [RootType(), Void]))
  const MonitorExitSync: MethodRef := MethodRef("java.lang.Object", MethodDescriptor("monitorExitSync", [RootType(), Void]))

  /** The methods processAsyncMethod links, in order. */
  function MonitorMethods(asyncSupported: bool): seq<MethodRef>
  {
    (if asyncSupported then [MonitorEnter] else []) + [MonitorEnterSync]
    + (if asyncSupported then [MonitorExit] else []) + [MonitorExitSync]
  }

  /** The synchronous monitor methods are always linked; the asynchronous
      ones exactly when async is supported; enter comes before exit. */
  lemma MonitorMethodsLinked(asyncSupported: bool)
    ensures MonitorEnterSync in MonitorMethods(asyncSupported) && MonitorExitSync in MonitorMethods(asyncSupported)
    ensures MonitorEnter in MonitorMethods(asyncSupported) <==> asyncSupported
    ensures MonitorExit in MonitorMethods(asyncSupported) <==> asyncSupported
    ensures |MonitorMethods(asyncSupported)| == (if asyncSupported then 4 else 2)
    ensures MonitorMethods(asyncSupported)[|MonitorMethods(asyncSupported)| - 1] == MonitorExitSync
  {
    assert MonitorEnter.desc.name != MonitorEnterSync.desc.name;
    assert MonitorExit.desc.name != MonitorExitSync.desc.name;
    assert MonitorEnter.desc.name != MonitorExitSync.desc.name;
    assert MonitorExit.desc.name != MonitorEnterSync.desc.name;
  }

  /** FieldReference. */
  datatype FieldRef = FieldRef(className: string, fieldName: string)

  /** The node-creation requests of the analysis base class. */
  datatype NodeRequest =
    | ParameterNode(callee: MethodRef, paramType: ValueType, index: int)
    | ResultNode(callee: MethodRef)
    | ThrownNode(callee: MethodRef)
    | FieldNode(field: FieldRef, fieldType: ValueType)
    | ArrayItemNode(parent: nat)
    | ClassValueNode(degree: int, parent: nat)

  /** The create*Node overrides: class values share the classes node and
      every other request collapses to the instances node. */
  function CreateNode(request: NodeRequest): (node: nat)
    ensures node == ClassesNode <==> request.ClassValueNode?
    ensures node == InstancesNode <==> !request.ClassValueNode?
  {
    if request.ClassValueNode? then ClassesNode else InstancesNode
  }

  /** The dependency record of one method; processMethod fills its variable nodes. */
  class MethodDependency {
    const reader: MethodReader
    var variableNodes: array<nat>

    constructor (reader: MethodReader)
      ensures this.reader == reader && variableNodes.Length == 0
    {
      this.reader := reader;
      variableNodes := new nat[0];
    }
  }

  class Analyzer {
    const classSource: ClassSource
    const asyncSupported: bool

    /** The node arena. */
    var types: seq<set<ValueType>>
    var edges: seq<seq<nat>>
    var consumers: seq<seq<Consumer>>
    var pending: set<(nat, ValueType)>

    /** Virtual-call consumer i: the method it was created for and the types it was given. */
    var callees: seq<MethodRef>
    var received: seq<set<ValueType>>

    var subtypeNodes: map<ValueType, nat>
    var virtualCallConsumers: map<MethodRef, nat>
    /** The defer queue, run first in first out. */
    var deferred: seq<Task>
    /** Every task deferred since the caches were last cleared. */
    ghost var taskLog: seq<Task>

    /** What linkClass and linkMethod(...).use() were called with, in order. */
    var linkedClasses: seq<string>
    var linkedMethods: seq<MethodRef>

    /** The analyzer's invariant, over its current fields. */
    ghost predicate Valid()
      reads this
    {
      Consistent(types, edges, consumers, pending, callees, received, subtypeNodes, virtualCallConsumers, deferred, taskLog)
    }

    /** The constructor: the instances and classes nodes, and the consumer
        on the instances node that dispatches to subtype nodes. */
    constructor (classSource: ClassSource, asyncSupported: bool)
      ensures Valid()
      ensures this.classSource == classSource && this.asyncSupported == asyncSupported
      ensures types == [{}, {}] && edges == [[], []] && consumers == [[SubtypeDispatch], []]
      ensures pending == {} && callees == [] && received == []
      ensures subtypeNodes == map[] && virtualCallConsumers == map[] && deferred == []
      ensures linkedClasses == [] && linkedMethods == []
    {
      this.classSource := classSource;
      this.asyncSupported := asyncSupported;
      types := [{}, {}];
      edges := [[], []];
      consumers := [[SubtypeDispatch], []];
      pending := {};
      callees := [];
      received := [];
      subtypeNodes := map[];
      virtualCallConsumers := map[];
      deferred := [];
      taskLog := [];
      linkedClasses := [];
      linkedMethods := [];
    }

    /** DependencyNode.propagate: a type new to the node is added and its
        delivery becomes pending. */
    method Propagate(n: nat, t: ValueType)
      requires Valid() && n < |types|
      modifies this
      ensures Valid()
      ensures types == old(types)[n := old(types)[n] + {t}]
      ensures pending == old(pending) + (if t in old(types)[n] then {} else {(n, t)})
      ensures edges == old(edges) && consumers == old(consumers) && received == old(received) && callees == old(callees)
      ensures subtypeNodes == old(subtypeNodes) && virtualCallConsumers == old(virtualCallConsumers)
      ensures deferred == old(deferred) && taskLog == old(taskLog)
      ensures linkedClasses == old(linkedClasses) && linkedMethods == old(linkedMethods)
    {
      if t !in types[n] {
        types := types[n := types[n] + {t}];
        pending := pending + {(n, t)};
      } else {
        assert types[n] + {t} == types[n];
        assert types[n := types[n] + {t}] == types;
        assert pending + {} == pending;
      }
    }

    /** DependencyNode.connect: the edge is added and the types the source
        already has flow to the target. */
    method Connect(a: nat, b: nat)
      requires Valid() && a < |types| && b < |types|
      modifies this
      ensures Valid()
      ensures edges == old(edges)[a := old(edges)[a] + [b]]
      ensures types == old(types)[b := old(types)[b] + old(types)[a]]
      ensures pending == old(pending) + (set t | t in old(types)[a] && t !in old(types)[b] :: (b, t))
      ensures consumers == old(consumers) && received == old(received) && callees == old(callees)
      ensures subtypeNodes == old(subtypeNodes) && virtualCallConsumers == old(virtualCallConsumers)
      ensures deferred == old(deferred) && taskLog == old(taskLog)
      ensures linkedClasses == old(linkedClasses) && linkedMethods == old(linkedMethods)
    {
      var arriving := set t | t in types[a] && t !in types[b] :: (b, t);
      ConnectKeepsClosure(types, edges, consumers, received, subtypeNodes, pending, a, b);
      edges := edges[a := edges[a] + [b]];
      pending := pending + arriving;
      types := types[b := types[b] + types[a]];
    }

    /** DependencyNode.addConsumer for a virtual-call consumer: the types the
        node already has are given to it. */
    method AddConsumer(n: nat, c: nat)
      requires Valid() && n < |types| && c < |received|
      modifies this
      ensures Valid()
      ensures consumers == old(consumers)[n := old(consumers)[n] + [VirtualCall(c)]]
      ensures received == old(received)[c := old(received)[c] + old(types)[n]]
      ensures types == old(types) && edges == old(edges) && pending == old(pending) && callees == old(callees)
      ensures subtypeNodes == old(subtypeNodes) && virtualCallConsumers == old(virtualCallConsumers)
      ensures deferred == old(deferred) && taskLog == old(taskLog)
      ensures linkedClasses == old(linkedClasses) && linkedMethods == old(linkedMethods)
    {
      consumers := consumers[n := consumers[n] + [VirtualCall(c)]];
      received := received[c := received[c] + types[n]];
    }

    /** getSubtypeNode: the instances node for java.lang.Object; otherwise the
        memoised node of the key, created on first request together with its
        deferred construction task. */
    method GetSubtypeNode(key: ValueType) returns (node: nat)
      requires Valid()
      modifies this
      ensures Valid()
      ensures Resolves(subtypeNodes, key) && node == NodeOf(subtypeNodes, key) && node < |types|
      ensures key == RootType() ==> node == InstancesNode
      ensures key == RootType() || key in old(subtypeNodes) ==>
                subtypeNodes == old(subtypeNodes) && types == old(types) && edges == old(edges)
                && consumers == old(consumers) && deferred == old(deferred) && taskLog == old(taskLog)
      ensures key != RootType() && key !in old(subtypeNodes) ==>
                && node == |old(types)|
                && subtypeNodes == old(subtypeNodes)[key := node]
                && types == old(types) + [{}] && edges == old(edges) + [[]] && consumers == old(consumers) + [[]]
                && deferred == old(deferred) + [BuildSubtypeNode(key, node)]
                && taskLog == old(taskLog) + [BuildSubtypeNode(key, node)]
      ensures pending == old(pending) && received == old(received) && callees == old(callees)
      ensures virtualCallConsumers == old(virtualCallConsumers)
      ensures linkedClasses == old(linkedClasses) && linkedMethods == old(linkedMethods)
    {
      if key == RootType() {
        return InstancesNode;
      }
      if key in subtypeNodes {
        return subtypeNodes[key];
      }
      node := NewSubtypeNode(key);
    }

    /** The creating branch of getSubtypeNode: a fresh empty node, cached
        for the key, with its construction task deferred. */
    method NewSubtypeNode(key: ValueType) returns (node: nat)
      requires Valid() && key != RootType() && key !in subtypeNodes
      modifies this
      ensures Valid()
      ensures node == |old(types)| && subtypeNodes == old(subtypeNodes)[key := node]
      ensures types == old(types) + [{}] && edges == old(edges) + [[]] && consumers == old(consumers) + [[]]
      ensures deferred == old(deferred) + [BuildSubtypeNode(key, node)]
      ensures taskLog == old(taskLog) + [BuildSubtypeNode(key, node)]
      ensures pending == old(pending) && received == old(received) && callees == old(callees)
      ensures virtualCallConsumers == old(virtualCallConsumers)
      ensures linkedClasses == old(linkedClasses) && linkedMethods == old(linkedMethods)
    {
      node := |types|;
      var task := BuildSubtypeNode(key, node);
      ConsistentNewSubtypeNode(types, edges, consumers, pending, callees, received, subtypeNodes, virtualCallConsumers,
                               deferred, taskLog, key);
      types, edges, consumers, subtypeNodes, deferred, taskLog :=
        types + [{}], edges + [[]], consumers + [[]], subtypeNodes[key := node], deferred + [task], taskLog + [task];
      assert Consistent(types, edges, consumers, pending, callees, received, subtypeNodes, virtualCallConsumers,
                        deferred, taskLog);
    }

    /** getVirtualCallConsumer: the memoised consumer of the method, created
        on first request together with the deferred task attaching it. */
    method GetVirtualCallConsumer(callee: MethodRef) returns (c: nat)
      requires Valid()
      modifies this
      ensures Valid()
      ensures callee in virtualCallConsumers && c == virtualCallConsumers[callee] && c < |callees| && callees[c] == callee
      ensures callee in old(virtualCallConsumers) ==>
                c == old(virtualCallConsumers[callee]) && virtualCallConsumers == old(virtualCallConsumers)
                && callees == old(callees) && received == old(received)
                && deferred == old(deferred) && taskLog == old(taskLog)
      ensures callee !in old(virtualCallConsumers) ==>
                && c == |old(received)|
                && virtualCallConsumers == old(virtualCallConsumers)[callee := c]
                && callees == old(callees) + [callee] && received == old(received) + [{}]
                && deferred == old(deferred) + [AttachVirtualCall(callee, c)]
                && taskLog == old(taskLog) + [AttachVirtualCall(callee, c)]
      ensures types == old(types) && edges == old(edges) && consumers == old(consumers) && pending == old(pending)
      ensures subtypeNodes == old(subtypeNodes)
      ensures linkedClasses == old(linkedClasses) && linkedMethods == old(linkedMethods)
    {
      if callee in virtualCallConsumers {
        return virtualCallConsumers[callee];
      }
      c := NewVirtualCallConsumer(callee);
    }

    /** The creating branch of getVirtualCallConsumer: a fresh consumer for
        the method, cached, with its attach task deferred. */
    method NewVirtualCallConsumer(callee: MethodRef) returns (c: nat)
      requires Valid() && callee !in virtualCallConsumers
      modifies this
      ensures Valid()
      ensures c == |old(received)| && virtualCallConsumers == old(virtualCallConsumers)[callee := c]
      ensures callees == old(callees) + [callee] && received == old(received) + [{}]
      ensures deferred == old(deferred) + [AttachVirtualCall(callee, c)]
      ensures taskLog == old(taskLog) + [AttachVirtualCall(callee, c)]
      ensures types == old(types) && edges == old(edges) && consumers == old(consumers) && pending == old(pending)
      ensures subtypeNodes == old(subtypeNodes)
      ensures linkedClasses == old(linkedClasses) && linkedMethods == old(linkedMethods)
    {
      c := |received|;
      var task := AttachVirtualCall(callee, c);
      ConsistentNewConsumer(types, edges, consumers, pending, callees, received, subtypeNodes, virtualCallConsumers,
                            deferred, taskLog, callee);
      callees, received, virtualCallConsumers, deferred, taskLog :=
        callees + [callee], received + [{}], virtualCallConsumers[callee := c], deferred + [task], taskLog + [task];
    }

    /** What a step of the deferred construction task leaves alone or only
        extends: cached nodes, node types, pending deliveries and deferred
        tasks only grow; consumers, virtual-call state and links stay. */
    twostate predicate Grown()
      reads this
    {
      && Extends(old(subtypeNodes), subtypeNodes) && Grows(old(types), types)
      && old(pending) <= pending && old(deferred) <= deferred && old(taskLog) <= taskLog
      && |old(edges)| <= |edges| && KeepsPrefix(old(consumers), consumers)
      && received == old(received) && callees == old(callees) && virtualCallConsumers == old(virtualCallConsumers)
      && linkedClasses == old(linkedClasses) && linkedMethods == old(linkedMethods)
    }

    /** node.connect(getSubtypeNode(t)): one new edge from node, to the
        subtype node of t; no other node's edges change. */
    method ConnectToSubtypeNode(node: nat, t: ValueType)
      requires Valid() && node < |types|
      modifies this
      ensures Valid() && Grown()
      ensures Resolves(subtypeNodes, t)
      ensures edges[node] == old(edges[node]) + [NodeOf(subtypeNodes, t)]
      ensures EdgesKeptExcept(old(edges), edges, node)
    {
      var target := GetSubtypeNode(t);
      Connect(node, target);
    }

    /** The deferred task's interface loop: one edge per interface, in
        declared order, each to the subtype node of the interface wrapped
        degree times. */
    method ConnectInterfaces(node: nat, interfaces: seq<string>, degree: nat)
      requires Valid() && node < |types|
      modifies this
      ensures Valid() && Grown()
      ensures forall i :: 0 <= i < |interfaces| ==> Resolves(subtypeNodes, WrapEach(interfaces, degree)[i])
      ensures edges[node] == old(edges[node]) + NodesOf(subtypeNodes, WrapEach(interfaces, degree))
      ensures EdgesKeptExcept(old(edges), edges, node)
    {
      for j := 0 to |interfaces|
        invariant Valid() && Grown() && node < |types|
        invariant forall i :: 0 <= i < j ==> Resolves(subtypeNodes, WrapEach(interfaces[..j], degree)[i])
        invariant edges[node] == old(edges[node]) + NodesOf(subtypeNodes, WrapEach(interfaces[..j], degree))
        invariant EdgesKeptExcept(old(edges), edges, node)
      {
        ghost var done := WrapEach(interfaces[..j], degree);
        ghost var before, types1, consumers1, edges1 := subtypeNodes, types, consumers, edges;
        ConnectNextInterface(node, interfaces[j], degree, done, old(edges[node]));
        ExtendsTransitive(old(subtypeNodes), before, subtypeNodes);
        GrowsTransitive(old(types), types1, types);
        KeepsPrefixTransitive(old(consumers), consumers1, consumers);
        EdgesKeptTransitive(old(edges), edges1, edges, node);
        assert interfaces[..j + 1][..j] == interfaces[..j];
        assert WrapEach(interfaces[..j + 1], degree) == done + [Wrap(Object(interfaces[j]), degree)];
      }
      assert interfaces[..|interfaces|] == interfaces;
    }

    /** One turn of the interface loop: after the edges for the keys done so
        far, the edge to the subtype node of the next interface wrapped
        degree times. */
    method ConnectNextInterface(node: nat, name: string, degree: nat, ghost done: seq<ValueType>, ghost base: seq<nat>)
      requires Valid() && node < |types|
      requires forall i :: 0 <= i < |done| ==> Resolves(subtypeNodes, done[i])
      requires edges[node] == base + NodesOf(subtypeNodes, done)
      modifies this
      ensures Valid() && Grown()
      ensures forall i :: 0 <= i < |done| + 1 ==> Resolves(subtypeNodes, (done + [Wrap(Object(name), degree)])[i])
      ensures edges[node] == base + NodesOf(subtypeNodes, done + [Wrap(Object(name), degree)])
      ensures EdgesKeptExcept(old(edges), edges, node)
    {
      ghost var before := subtypeNodes;
      var parentType := ArrayOf(Object(name), degree);
      ConnectToSubtypeNode(node, parentType);
      NodesOfExtends(before, subtypeNodes, done);
      NodesOfAppend(subtypeNodes, done, [parentType]);
      AppendAssociative(base, NodesOf(subtypeNodes, done), [NodeOf(subtypeNodes, parentType)]);
    }

    /** The deferred task's superclass edge: for a class with a superclass,
        one edge to the subtype node of the superclass wrapped degree times;
        none otherwise. */
    method ConnectParent(node: nat, cls: ClassInfo, degree: nat)
      requires Valid() && node < |types|
      modifies this
      ensures Valid() && Grown()
      ensures forall i :: 0 <= i < |ParentKeys(cls, degree)| ==> Resolves(subtypeNodes, ParentKeys(cls, degree)[i])
      ensures edges[node] == old(edges[node]) + NodesOf(subtypeNodes, ParentKeys(cls, degree))
      ensures EdgesKeptExcept(old(edges), edges, node)
    {
      if cls.parent.Some? {
        var parentType := ArrayOf(Object(cls.parent.value), degree);
        ConnectToSubtypeNode(node, parentType);
        assert NodesOf(subtypeNodes, [parentType]) == [NodeOf(subtypeNodes, parentType)];
      } else {
        assert NodesOf(subtypeNodes, []) == [];
        assert edges[node] + [] == edges[node];
      }
    }

    /** The deferred task for a d-dimensional array of a class that
        resolves (d = 0: the class itself): the parent edge first when
        the class has one, then the interface edges. */
    method ConnectClassAncestors(node: nat, cls: ClassInfo, degree: nat)
      requires Valid() && node < |types|
      modifies this
      ensures Valid() && Grown()
      ensures forall i :: 0 <= i < |ClassAncestors(cls, degree)| ==> Resolves(subtypeNodes, ClassAncestors(cls, degree)[i])
      ensures edges[node] == old(edges[node]) + NodesOf(subtypeNodes, ClassAncestors(cls, degree))
      ensures EdgesKeptExcept(old(edges), edges, node)
    {
      ConnectParent(node, cls, degree);
      ghost var before, types1, consumers1, edges1 := subtypeNodes, types, consumers, edges;
      ConnectInterfaces(node, cls.interfaces, degree);
      ExtendsTransitive(old(subtypeNodes), before, subtypeNodes);
      GrowsTransitive(old(types), types1, types);
      KeepsPrefixTransitive(old(consumers), consumers1, consumers);
      EdgesKeptTransitive(old(edges), edges1, edges, node);
      NodesOfExtends(before, subtypeNodes, ParentKeys(cls, degree));
      NodesOfAppend(subtypeNodes, ParentKeys(cls, degree), WrapEach(cls.interfaces, degree));
      AppendAssociative(old(edges[node]), NodesOf(subtypeNodes, ParentKeys(cls, degree)),
                        NodesOf(subtypeNodes, WrapEach(cls.interfaces, degree)));
    }

    /** The deferred construction task of the subtype node of key: the node
        gets one edge per ancestor key, in order, to that key's subtype node. */
    method RunBuildSubtypeNode(key: ValueType, node: nat)
      requires Valid() && node < |types|
      modifies this
      ensures Valid() && Grown()
      ensures forall i :: 0 <= i < |Ancestors(classSource, key)| ==> Resolves(subtypeNodes, Ancestors(classSource, key)[i])
      ensures edges[node] == old(edges[node]) + NodesOf(subtypeNodes, Ancestors(classSource, key))
      ensures EdgesKeptExcept(old(edges), edges, node)
    {
      var k, degree := StripArrays(key);
      if k.Object? {
        if k.className in classSource {
          ConnectClassAncestors(node, classSource[k.className], degree);
        } else {
          assert NodesOf(subtypeNodes, []) == [];
          assert edges[node] + [] == edges[node];
        }
      } else {
        ConnectToSubtypeNode(node, RootType());
        assert NodesOf(subtypeNodes, [RootType()]) == [InstancesNode];
      }
    }

    /** The deferred attach task of a virtual-call consumer: the consumer is
        added to the subtype node of the callee's class and is given the
        types that node already has. */
    method RunAttachVirtualCall(callee: MethodRef, c: nat)
      requires Valid() && c < |received|
      modifies this
      ensures Valid()
      ensures Extends(old(subtypeNodes), subtypeNodes) && Grows(old(types), types)
      ensures Resolves(subtypeNodes, Object(callee.className))
      ensures var n := NodeOf(subtypeNodes, Object(callee.className));
              && n < |types|
              && consumers == (old(consumers) + seq(|types| - |old(types)|, _ => []))[n := consumers[n]]
              && consumers[n] == (if n < |old(consumers)| then old(consumers)[n] else []) + [VirtualCall(c)]
              && received == old(received)[c := old(received)[c] + types[n]]
      ensures pending == old(pending) && old(deferred) <= deferred && callees == old(callees)
      ensures virtualCallConsumers == old(virtualCallConsumers)
      ensures linkedClasses == old(linkedClasses) && linkedMethods == old(linkedMethods)
    {
      var node := GetSubtypeNode(Object(callee.className));
      AddConsumer(node, c);
    }

    /** Runs the first deferred task, first in first out. */
    method RunNextTask() returns (task: Task)
      requires Valid() && |deferred| > 0
      modifies this
      ensures Valid()
      ensures task == old(deferred[0]) && old(deferred[1..]) <= deferred
      ensures Grows(old(types), types) && |old(edges)| <= |edges|
      ensures task.BuildSubtypeNode? ==>
                && task.node < |old(edges)|
                && (forall i :: 0 <= i < |Ancestors(classSource, task.key)| ==>
                      Resolves(subtypeNodes, Ancestors(classSource, task.key)[i]))
                && edges[task.node] == old(edges[task.node]) + NodesOf(subtypeNodes, Ancestors(classSource, task.key))
                && EdgesKeptExcept(old(edges), edges, task.node)
      ensures task.AttachVirtualCall? ==>
                && task.consumer < |old(received)|
                && Resolves(subtypeNodes, Object(task.callee.className))
                && var n := NodeOf(subtypeNodes, Object(task.callee.className));
                   && n < |types|
                   && consumers == (old(consumers) + seq(|types| - |old(types)|, _ => []))[n := consumers[n]]
                   && consumers[n] == (if n < |old(consumers)| then old(consumers)[n] else []) + [VirtualCall(task.consumer)]
                   && received == old(received)[task.consumer := old(received)[task.consumer] + types[n]]
    {
      task := deferred[0];
      ConsistentPopTask(types, edges, consumers, pending, callees, received, subtypeNodes, virtualCallConsumers,
                        deferred, taskLog);
      deferred := deferred[1..];
      match task
      case BuildSubtypeNode(key, node) =>
        RunBuildSubtypeNode(key, node);
      case AttachVirtualCall(callee, c) =>
        RunAttachVirtualCall(callee, c);
    }

    /** FastVirtualCallConsumer.consume: the consumer records the type;
        which implementations it then links is not part of this model. */
    method GiveToConsumer(c: nat, t: ValueType)
      requires Valid() && c < |received|
      modifies this
      ensures Valid()
      ensures received == old(received)[c := old(received)[c] + {t}]
      ensures types == old(types) && edges == old(edges) && consumers == old(consumers) && pending == old(pending)
      ensures callees == old(callees) && subtypeNodes == old(subtypeNodes) && virtualCallConsumers == old(virtualCallConsumers)
      ensures deferred == old(deferred) && taskLog == old(taskLog)
      ensures linkedClasses == old(linkedClasses) && linkedMethods == old(linkedMethods)
    {
      received := received[c := received[c] + {t}];
    }

    /** A delivery only ever adds the delivered type t, and only at nodes
        that lacked it (which become pending for t). */
    twostate predicate AddsOnly(t: ValueType)
      reads this
    {
      AddsOnlyBetween(old(types), old(pending), types, pending, t)
    }

    /** Delivery of t from node n along its edges: t is propagated to every successor. */
    method DeliverToSuccessors(n: nat, t: ValueType)
      requires Valid() && n < |types| && t in types[n]
      modifies this
      ensures Valid() && AddsOnly(t)
      ensures forall k :: 0 <= k < |edges[n]| ==> t in types[edges[n][k]]
      ensures edges == old(edges) && consumers == old(consumers) && received == old(received) && callees == old(callees)
      ensures subtypeNodes == old(subtypeNodes) && virtualCallConsumers == old(virtualCallConsumers)
      ensures deferred == old(deferred) && taskLog == old(taskLog)
      ensures linkedClasses == old(linkedClasses) && linkedMethods == old(linkedMethods)
    {
      var targets := edges[n];
      for k := 0 to |targets|
        invariant Valid() && AddsOnly(t) && |types| == |old(types)|
        invariant forall j :: 0 <= j < k ==> t in types[targets[j]]
        invariant edges == old(edges) && consumers == old(consumers) && received == old(received) && callees == old(callees)
        invariant subtypeNodes == old(subtypeNodes) && virtualCallConsumers == old(virtualCallConsumers)
        invariant deferred == old(deferred) && taskLog == old(taskLog)
        invariant linkedClasses == old(linkedClasses) && linkedMethods == old(linkedMethods)
      {
        assert targets[k] < |types|;
        Propagate(targets[k], t);
      }
    }

    /** What delivering to consumers leaves alone or only extends: cached
        nodes, edges and consumers of existing nodes, the types every
        virtual-call consumer has received, deferred tasks. */
    twostate predicate Extended()
      reads this
    {
      && Extends(old(subtypeNodes), subtypeNodes)
      && KeepsPrefix(old(edges), edges) && KeepsPrefix(old(consumers), consumers)
      && |old(received)| == |received| && Grows(old(received), received)
      && callees == old(callees) && virtualCallConsumers == old(virtualCallConsumers)
      && old(deferred) <= deferred
      && linkedClasses == old(linkedClasses) && linkedMethods == old(linkedMethods)
    }

    /** The constructor's consumer on the instances node:
        getSubtypeNode(type).propagate(type). */
    method Dispatch(t: ValueType)
      requires Valid()
      modifies this
      ensures Valid() && AddsOnly(t) && Extended()
      ensures received == old(received)
      ensures t != RootType() ==> t in subtypeNodes && subtypeNodes[t] < |types| && t in types[subtypeNodes[t]]
    {
      var target := GetSubtypeNode(t);
      Propagate(target, t);
    }

    /** Delivery of t to one consumer attached to node n: the dispatch
        consumer propagates t to the subtype node of t itself, a virtual-call
        consumer receives t. */
    method Consume(n: nat, t: ValueType, consumer: Consumer)
      requires Valid() && ConsumerInRange(consumer, n, |received|)
      modifies this
      ensures Valid() && AddsOnly(t) && Extended()
      ensures consumer.VirtualCall? ==> t in received[consumer.id]
      ensures consumer.SubtypeDispatch? && t != RootType() ==> t in subtypeNodes && t in types[subtypeNodes[t]]
    {
      match consumer
      case SubtypeDispatch =>
        Dispatch(t);
      case VirtualCall(c) =>
        GiveToConsumer(c, t);
    }

    /** Delivery of t from node n to its consumers, one after the other. */
    method DeliverToConsumers(n: nat, t: ValueType)
      requires Valid() && n < |types| && t in types[n]
      modifies this
      ensures Valid() && AddsOnly(t) && Extended()
      ensures forall k :: 0 <= k < |consumers[n]| && consumers[n][k].VirtualCall? ==> t in received[consumers[n][k].id]
      ensures n == InstancesNode && t != RootType() ==> t in subtypeNodes && t in types[subtypeNodes[t]]
    {
      var attached := consumers[n];
      for k := 0 to |attached|
        invariant Valid() && AddsOnly(t) && Extended() && n < |consumers| && consumers[n] == attached
        invariant forall j :: 0 <= j < k && attached[j].VirtualCall? ==> t in received[attached[j].id]
        invariant k > 0 && n == InstancesNode && t != RootType() ==> t in subtypeNodes && t in types[subtypeNodes[t]]
      {
        assert ConsumerInRange(attached[k], n, |received|);
        ghost var types1, pending1, subtypeNodes1, edges1, consumers1, received1 :=
          types, pending, subtypeNodes, edges, consumers, received;
        Consume(n, t, attached[k]);
        AddsOnlyTransitive(old(types), old(pending), types1, pending1, types, pending, t);
        ExtendsTransitive(old(subtypeNodes), subtypeNodes1, subtypeNodes);
        KeepsPrefixTransitive(old(edges), edges1, edges);
        KeepsPrefixTransitive(old(consumers), consumers1, consumers);
        GrowsTransitive(old(received), received1, received);
      }
    }

    /** DependencyNode's delivery of a pending type t at node n (that class
        is not part of this model; this is the behaviour the analyzer relies
        on): t reaches every successor, every consumer and, at the instances
        node, the subtype node of t; the delivery is then no longer pending,
        and every new pending delivery is of t itself. */
    method Deliver(n: nat, t: ValueType)
      requires Valid() && (n, t) in pending
      modifies this
      ensures Valid() && Grows(old(types), types) && Extends(old(subtypeNodes), subtypeNodes)
      ensures (n, t) !in pending && old(pending) - {(n, t)} <= pending
      ensures forall p :: p in pending && p !in old(pending) ==> p.1 == t
      ensures forall m :: 0 <= m < |old(types)| ==> types[m] <= old(types[m]) + {t}
      ensures forall k :: 0 <= k < |edges[n]| ==> t in types[edges[n][k]]
      ensures forall k :: 0 <= k < |consumers[n]| && consumers[n][k].VirtualCall? ==> t in received[consumers[n][k].id]
      ensures n == InstancesNode && t != RootType() ==> t in subtypeNodes && t in types[subtypeNodes[t]]
    {
      DeliverToSuccessors(n, t);
      DeliverToConsumers(n, t);
      ConsistentDischarge(types, edges, consumers, pending, callees, received, subtypeNodes, virtualCallConsumers,
                          deferred, taskLog, n, t);
      pending := pending - {(n, t)};
    }

    /** linkClass, recorded: what linking a class does is the base class's
        and not part of this model. */
    method LinkClass(name: string)
      modifies this`linkedClasses
      ensures linkedClasses == old(linkedClasses) + [name]
    {
      linkedClasses := linkedClasses + [name];
    }

    /** linkMethod(method).use(), recorded. */
    method LinkMethod(m: MethodRef)
      modifies this`linkedMethods
      ensures linkedMethods == old(linkedMethods) + [m]
    {
      linkedMethods := linkedMethods + [m];
    }

    /** The try/catch part of processMethod: block by block, every non-null
        exception type is linked, in order. */
    method LinkCaughtClasses(blocks: seq<seq<Option<string>>>)
      modifies this`linkedClasses
      ensures linkedClasses == old(linkedClasses) + CaughtClasses(blocks)
    {
      for b := 0 to |blocks|
        invariant linkedClasses == old(linkedClasses) + CaughtClasses(blocks[..b])
      {
        var tryCatches := blocks[b];
        for j := 0 to |tryCatches|
          invariant linkedClasses == old(linkedClasses) + CaughtClasses(blocks[..b]) + Caught(tryCatches[..j])
        {
          if tryCatches[j].Some? {
            LinkClass(tryCatches[j].value);
          }
          assert tryCatches[..j + 1][..j] == tryCatches[..j];
        }
        assert tryCatches[..|tryCatches|] == tryCatches;
        assert blocks[..b + 1][..b] == blocks[..b];
      }
      assert blocks[..|blocks|] == blocks;
    }

    /** processAsyncMethod: the monitor methods, the asynchronous ones only
        when async is supported. */
    method ProcessAsyncMethod()
      modifies this`linkedMethods
      ensures linkedMethods == old(linkedMethods) + MonitorMethods(asyncSupported)
    {
      if asyncSupported {
        LinkMethod(MonitorEnter);
      }
      LinkMethod(MonitorEnterSync);
      if asyncSupported {
        LinkMethod(MonitorExit);
      }
      LinkMethod(MonitorExitSync);
    }

    /** processMethod: for a method with a body, the caught exception classes
        are linked and every variable gets the instances node; a synchronized
        method links the monitor methods. */
    method ProcessMethod(dep: MethodDependency)
      modifies this`linkedClasses, this`linkedMethods, dep`variableNodes
      ensures linkedClasses == old(linkedClasses)
                + (if dep.reader.program.Some? then CaughtClasses(dep.reader.program.value.tryCatchTypes) else [])
      ensures linkedMethods == old(linkedMethods) + (if dep.reader.synchronized then MonitorMethods(asyncSupported) else [])
      ensures dep.reader.program.Some? ==>
                && fresh(dep.variableNodes)
                && dep.variableNodes.Length == dep.reader.program.value.variableCount
                && forall i :: 0 <= i < dep.variableNodes.Length ==> dep.variableNodes[i] == InstancesNode
      ensures dep.reader.program.None? ==> dep.variableNodes == old(dep.variableNodes)
    {
      var program := dep.reader.program;
      if program.Some? {
        LinkCaughtClasses(program.value.tryCatchTypes);
        var nodes := new nat[program.value.variableCount];
        for i := 0 to nodes.Length
          modifies nodes
          invariant forall j :: 0 <= j < i ==> nodes[j] == InstancesNode
        {
          nodes[i] := InstancesNode;
        }
        dep.variableNodes := nodes;
      } else {
        assert linkedClasses + [] == linkedClasses;
      }
      if dep.reader.synchronized {
        ProcessAsyncMethod();
      } else {
        assert linkedMethods + [] == linkedMethods;
      }
    }

    /** cleanup: both caches are emptied. */
    method Cleanup()
      modifies this
      ensures subtypeNodes == map[] && virtualCallConsumers == map[] && taskLog == []
      ensures types == old(types) && edges == old(edges) && consumers == old(consumers) && pending == old(pending)
      ensures received == old(received) && callees == old(callees) && deferred == old(deferred)
      ensures linkedClasses == old(linkedClasses) && linkedMethods == old(linkedMethods)
    {
      virtualCallConsumers := map[];
      subtypeNodes := map[];
      taskLog := [];
    }
  }
}
