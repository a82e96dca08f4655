/**
 * The applet directory of the dock proxy (panels/dock/dockdbusproxy.cpp): the tree of loaded
 * applets, in which a containment holds further applets in order, and the breadth-first search
 * `appletList` that collects every applet with a given plugin id, with `applet` taking the first.
 */
module AppletTree {
  import opened Wrappers

  /** A loaded applet: a plain applet, or a containment holding child applets in stored order. */
  datatype DApplet = Applet(pluginId: string) | Containment(pluginId: string, applets: seq<DApplet>)

  /** The applets of `cs` whose plugin id is `id`, in order. */
  function Matching(cs: seq<DApplet>, id: string): (r: seq<DApplet>)
    ensures forall i :: 0 <= i < |r| ==> r[i].pluginId == id
  {
    if cs == [] then [] else (if cs[0].pluginId == id then [cs[0]] else []) + Matching(cs[1..], id)
  }

  /** The containments among `cs`, in order: what the search enqueues. */
  function ContainmentsOf(cs: seq<DApplet>): (r: seq<DApplet>)
    ensures AllContainments(r)
  {
    if cs == [] then [] else (if cs[0].Containment? then [cs[0]] else []) + ContainmentsOf(cs[1..])
  }

  predicate AllContainments(q: seq<DApplet>)
  {
    forall i :: 0 <= i < |q| ==> q[i].Containment?
  }

  lemma {:induction false} MatchingAppend(xs: seq<DApplet>, ys: seq<DApplet>, id: string)
    ensures Matching(xs + ys, id) == Matching(xs, id) + Matching(ys, id)
  {
    if xs == [] {
      assert xs + ys == ys;
    } else {
      assert (xs + ys)[1..] == xs[1..] + ys;
      MatchingAppend(xs[1..], ys, id);
    }
  }

  lemma {:induction false} ContainmentsAppend(xs: seq<DApplet>, ys: seq<DApplet>)
    ensures ContainmentsOf(xs + ys) == ContainmentsOf(xs) + ContainmentsOf(ys)
  {
    if xs == [] {
      assert xs + ys == ys;
    } else {
      assert (xs + ys)[1..] == xs[1..] + ys;
      ContainmentsAppend(xs[1..], ys);
    }
  }

  /** One more applet: enqueued after the others when it is a containment. */
  lemma ContainmentsSnoc(xs: seq<DApplet>, a: DApplet)
    ensures ContainmentsOf(xs + [a]) == ContainmentsOf(xs) + (if a.Containment? then [a] else [])
  {
    ContainmentsAppend(xs, [a]);
    assert [a][1..] == [];
  }

  /** One more applet: listed after the others when its plugin id matches. */
  lemma MatchingSnoc(xs: seq<DApplet>, a: DApplet, id: string)
    ensures Matching(xs + [a], id) == Matching(xs, id) + (if a.pluginId == id then [a] else [])
  {
    MatchingAppend(xs, [a], id);
    assert [a][1..] == [];
  }

  /** Number of containments in the tree of `t`, `t` included. */
  function ContainmentCount(t: DApplet): nat
    decreases t
  {
    match t
    case Applet(_) => 0
    case Containment(_, cs) => 1 + ContainmentCountAll(cs)
  }

  /** Number of containments in the trees of `ts`. */
  function ContainmentCountAll(ts: seq<DApplet>): nat
    decreases ts
  {
    if ts == [] then 0 else ContainmentCount(ts[0]) + ContainmentCountAll(ts[1..])
  }

  lemma {:induction false} CountAllAppend(xs: seq<DApplet>, ys: seq<DApplet>)
    ensures ContainmentCountAll(xs + ys) == ContainmentCountAll(xs) + ContainmentCountAll(ys)
  {
    if xs == [] {
      assert xs + ys == ys;
    } else {
      assert (xs + ys)[1..] == xs[1..] + ys;
      CountAllAppend(xs[1..], ys);
    }
  }

  /** Plain applets hold no containment, so keeping only the containments keeps the count. */
  lemma {:induction false} CountAllContainments(cs: seq<DApplet>)
    ensures ContainmentCountAll(ContainmentsOf(cs)) == ContainmentCountAll(cs)
  {
    if cs != [] {
      CountAllContainments(cs[1..]);
      var head := if cs[0].Containment? then [cs[0]] else [];
      CountAllAppend(head, ContainmentsOf(cs[1..]));
    }
  }

  /** Dequeuing a containment and enqueuing its child containments removes exactly one from the count. */
  lemma DequeueCount(q: seq<DApplet>)
    requires q != [] && q[0].Containment?
    ensures ContainmentCountAll(q[1..] + ContainmentsOf(q[0].applets)) + 1 == ContainmentCountAll(q)
  {
    CountAllAppend(q[1..], ContainmentsOf(q[0].applets));
    CountAllContainments(q[0].applets);
  }

  /**
   * What the search loop yields from the applets found so far and a queue of containments:
   * dequeue the first containment, add its matching children in order, enqueue its child
   * containments at the back, and go on until the queue is empty.
   */
  function Scan(found: seq<DApplet>, queue: seq<DApplet>, id: string): seq<DApplet>
    requires AllContainments(queue)
    decreases ContainmentCountAll(queue)
  {
    if queue == [] then found
    else
      DequeueCount(queue);
      Scan(found + Matching(queue[0].applets, id), queue[1..] + ContainmentsOf(queue[0].applets), id)
  }

  /** The applets the search finds from `root`, in the order it finds them. */
  function SearchFrom(root: DApplet, id: string): seq<DApplet>
    requires root.Containment?
  {
    Scan([], [root], id)
  }

  /** `appletList`: breadth-first over the containments from the root, collecting the applets with this plugin id. */
  method AppletList(root: DApplet, pluginId: string) returns (ret: seq<DApplet>, ghost visits: nat)
    requires root.Containment?
    ensures ret == SearchFrom(root, pluginId)
    ensures visits == ContainmentCount(root)
  {
    ret := [];
    visits := 0;
    var containments := [root];
    assert ContainmentCountAll([root]) == ContainmentCount(root);
    while containments != []
      invariant AllContainments(containments)
      invariant Scan(ret, containments, pluginId) == SearchFrom(root, pluginId)
      invariant visits + ContainmentCountAll(containments) == ContainmentCount(root)
      decreases ContainmentCountAll(containments)
    {
      ghost var before := containments;
      var containment := containments[0];
      containments := containments[1..];
      visits := visits + 1;
      containments, ret := VisitChildren(containment.applets, pluginId, containments, ret);
      DequeueCount(before);
    }
  }

  /** What the inner loop has enqueued and collected after one more child. */
  lemma VisitedOneMore(applets: seq<DApplet>, i: nat, id: string)
    requires i < |applets|
    ensures ContainmentsOf(applets[..i + 1]) == ContainmentsOf(applets[..i]) + (if applets[i].Containment? then [applets[i]] else [])
    ensures Matching(applets[..i + 1], id) == Matching(applets[..i], id) + (if applets[i].pluginId == id then [applets[i]] else [])
  {
    assert applets[..i + 1] == applets[..i] + [applets[i]];
    ContainmentsSnoc(applets[..i], applets[i]);
    MatchingSnoc(applets[..i], applets[i], id);
  }

  /** The inner loop of `appletList`: enqueue each child containment and collect each matching child, in order. */
  method VisitChildren(applets: seq<DApplet>, pluginId: string, queue: seq<DApplet>, found: seq<DApplet>)
    returns (queue': seq<DApplet>, found': seq<DApplet>)
    ensures queue' == queue + ContainmentsOf(applets)
    ensures found' == found + Matching(applets, pluginId)
  {
    queue', found' := queue, found;
    for i := 0 to |applets|
      invariant queue' == queue + ContainmentsOf(applets[..i])
      invariant found' == found + Matching(applets[..i], pluginId)
    {
      var applet := applets[i];
      if applet.Containment? {
        queue' := queue' + [applet];
      }
      if applet.pluginId == pluginId {
        found' := found' + [applet];
      }
      VisitedOneMore(applets, i, pluginId);
    }
    assert applets[..|applets|] == applets;
  }

  /** `applet`: the first applet `appletList` finds, or nothing when it finds none. */
  method FindApplet(root: DApplet, pluginId: string) returns (a: Option<DApplet>)
    requires root.Containment?
    ensures a.None? <==> SearchFrom(root, pluginId) == []
    ensures a.Some? ==> a.value == SearchFrom(root, pluginId)[0]
    ensures a.Some? ==> a.value.pluginId == pluginId && a.value in Descendants(root)
  {
    var list, _ := AppletList(root, pluginId);
    if list != [] {
      ScanFindsDescendants(root, pluginId);
      assert list[0] in list;
      return Some(list[0]);
    }
    return None;
  }

  // ----------------------------------------------------------------------------------------
  // The applets below a node, independently of search order
  // ----------------------------------------------------------------------------------------

  /** Every applet strictly below `t`, each once, in depth-first order. */
  function Descendants(t: DApplet): seq<DApplet>
    decreases t
  {
    match t
    case Applet(_) => []
    case Containment(_, cs) => DescendantsAll(cs)
  }

  /** Each applet of `ts` followed by its descendants. */
  function DescendantsAll(ts: seq<DApplet>): seq<DApplet>
    decreases ts
  {
    if ts == [] then [] else [ts[0]] + Descendants(ts[0]) + DescendantsAll(ts[1..])
  }

  /** The descendants of every node of a queue, queue order. */
  function QueueDescendants(q: seq<DApplet>): seq<DApplet>
  {
    if q == [] then [] else Descendants(q[0]) + QueueDescendants(q[1..])
  }

  lemma {:induction false} QueueDescendantsAppend(xs: seq<DApplet>, ys: seq<DApplet>)
    ensures QueueDescendants(xs + ys) == QueueDescendants(xs) + QueueDescendants(ys)
  {
    if xs == [] {
      assert xs + ys == ys;
    } else {
      assert (xs + ys)[1..] == xs[1..] + ys;
      QueueDescendantsAppend(xs[1..], ys);
    }
  }

  /**
   * Below a list of siblings lie the siblings themselves and what lies below their containments
   * (a plain applet has nothing below it).
   */
  lemma {:induction false} DescendantsOfSiblings(cs: seq<DApplet>, id: string)
    ensures multiset(Matching(DescendantsAll(cs), id))
         == multiset(Matching(cs, id)) + multiset(Matching(QueueDescendants(ContainmentsOf(cs)), id))
  {
    if cs != [] {
      var c, rest := cs[0], cs[1..];
      DescendantsOfSiblings(rest, id);
      var below := QueueDescendants(ContainmentsOf(rest));
      assert DescendantsAll(cs) == [c] + Descendants(c) + DescendantsAll(rest);
      MatchingAppend([c] + Descendants(c), DescendantsAll(rest), id);
      MatchingAppend([c], Descendants(c), id);
      assert cs == [c] + rest;
      MatchingAppend([c], rest, id);
      HeadBelow(c, rest);
      MatchingAppend(Descendants(c), below, id);
    }
  }

  /** The queue of containments of `[c] + rest` lies below `c` first, then below `rest`. */
  lemma HeadBelow(c: DApplet, rest: seq<DApplet>)
    ensures QueueDescendants(ContainmentsOf([c] + rest)) == Descendants(c) + QueueDescendants(ContainmentsOf(rest))
  {
    var head := if c.Containment? then [c] else [];
    assert ([c] + rest)[1..] == rest;
    assert ContainmentsOf([c] + rest) == head + ContainmentsOf(rest);
    QueueDescendantsAppend(head, ContainmentsOf(rest));
    if c.Containment? {
      assert QueueDescendants([c]) == Descendants(c) + QueueDescendants([]);
    }
  }

  /** The search adds, with multiplicity, exactly the matching applets below the queued containments. */
  lemma {:induction false} ScanIsComplete(found: seq<DApplet>, q: seq<DApplet>, id: string)
    requires AllContainments(q)
    ensures multiset(Scan(found, q, id)) == multiset(found) + multiset(Matching(QueueDescendants(q), id))
    decreases ContainmentCountAll(q)
  {
    if q != [] {
      var children := q[0].applets;
      var next := q[1..] + ContainmentsOf(children);
      DequeueCount(q);
      ScanIsComplete(found + Matching(children, id), next, id);
      QueueDescendantsAppend(q[1..], ContainmentsOf(children));
      MatchingAppend(QueueDescendants(q[1..]), QueueDescendants(ContainmentsOf(children)), id);
      DescendantsOfSiblings(children, id);
      MatchingAppend(Descendants(q[0]), QueueDescendants(q[1..]), id);
    }
  }

  /** The search only appends: what was found before stays in front. */
  lemma {:induction false} ScanExtends(found: seq<DApplet>, q: seq<DApplet>, id: string)
    requires AllContainments(q)
    ensures |found| <= |Scan(found, q, id)| && Scan(found, q, id)[..|found|] == found
    decreases ContainmentCountAll(q)
  {
    if q != [] {
      var more := found + Matching(q[0].applets, id);
      DequeueCount(q);
      ScanExtends(more, q[1..] + ContainmentsOf(q[0].applets), id);
      assert more[..|found|] == found;
    }
  }

  /**
   * `appletList` is complete and counts right: it returns every applet below the root whose
   * plugin id matches, as often as it occurs there, and nothing else.
   */
  lemma SearchCountsMatches(root: DApplet, id: string)
    requires root.Containment?
    ensures multiset(SearchFrom(root, id)) == multiset(Matching(Descendants(root), id))
  {
    ScanIsComplete([], [root], id);
    assert [root][1..] == [];
    assert QueueDescendants([root]) == Descendants(root);
  }

  /** `appletList` is sound and complete: an applet is listed iff it lies below the root with that id. */
  lemma ScanFindsDescendants(root: DApplet, id: string)
    requires root.Containment?
    ensures forall a :: a in SearchFrom(root, id) <==> a in Descendants(root) && a.pluginId == id
  {
    SearchCountsMatches(root, id);
    forall a
      ensures a in SearchFrom(root, id) <==> a in Descendants(root) && a.pluginId == id
    {
      assert a in SearchFrom(root, id) <==> a in multiset(Matching(Descendants(root), id));
      MatchingKeepsMatches(Descendants(root), id, a);
    }
  }

  /** An applet is kept by `Matching` exactly when it is in the list and carries the id. */
  lemma {:induction false} MatchingKeepsMatches(cs: seq<DApplet>, id: string, a: DApplet)
    ensures a in Matching(cs, id) <==> a in cs && a.pluginId == id
  {
    if cs != [] {
      MatchingKeepsMatches(cs[1..], id, a);
      assert cs == [cs[0]] + cs[1..];
    }
  }

  /** Breadth before depth: the root's own matching children come first, in stored order. */
  lemma DirectChildrenFirst(root: DApplet, id: string)
    requires root.Containment?
    ensures |Matching(root.applets, id)| <= |SearchFrom(root, id)|
    ensures SearchFrom(root, id)[..|Matching(root.applets, id)|] == Matching(root.applets, id)
  {
    DequeueCount([root]);
    assert [root][1..] + ContainmentsOf(root.applets) == ContainmentsOf(root.applets);
    assert [] + Matching(root.applets, id) == Matching(root.applets, id);
    ScanExtends(Matching(root.applets, id), ContainmentsOf(root.applets), id);
  }

  /**
   * Breadth before depth: under a root whose children are a containment B holding a matching
   * applet A, and a matching (empty) containment C, the result is [C, A]. A depth-first search
   * would list A first.
   */
  lemma BreadthFirstExample(x: string, y: string)
    requires x != y
    ensures SearchFrom(Containment(y, [Containment(y, [Applet(x)]), Containment(x, [])]), x)
         == [Containment(x, []), Applet(x)]
  {
    var a, c := Applet(x), Containment(x, []);
    var b := Containment(y, [a]);
    var root := Containment(y, [b, c]);
    var none: seq<DApplet> := [];
    assert Matching([], x) == [] && ContainmentsOf([]) == [];
    assert [b, c][1..] == [c] && [c][1..] == [] && [a][1..] == [] && [root][1..] == [] && [b][1..] == [];
    assert Matching([c], x) == [c] + Matching([], x);
    assert Matching([b, c], x) == [] + Matching([c], x);
    assert ContainmentsOf([c]) == [c] + ContainmentsOf([]);
    assert ContainmentsOf([b, c]) == [b] + ContainmentsOf([c]);
    assert Matching([a], x) == [a] + Matching([], x) && ContainmentsOf([a]) == [] + ContainmentsOf([]);
    DequeueCount([root]);
    assert Matching(root.applets, x) == [c] && ContainmentsOf(root.applets) == [b, c];
    assert none + [c] == [c] && [root][1..] + [b, c] == [b, c];
    assert SearchFrom(root, x) == Scan([c], [b, c], x);
    DequeueCount([b, c]);
    assert [b, c][0].applets == [a];
    assert Scan([c], [b, c], x) == Scan([c] + Matching([a], x), [b, c][1..] + ContainmentsOf([a]), x);
    assert Matching([a], x) == [a] && ContainmentsOf([a]) == [];
    assert Scan([c], [b, c], x) == Scan([c] + [a], [c] + [], x);
    assert [c] + [a] == [c, a] && [c] + [] == [c];
    DequeueCount([c]);
    assert Scan([c, a], [c], x) == Scan([c, a] + [], [] + [], x);
    assert [c, a] + [] == [c, a];
  }
}
