/**
 * The shape of the network built by `Network::new` in src/lib.rs: neurons
 * grouped into layers, and links that always run from an earlier layer to a
 * later one and are registered in both end points' link lists.
 */
module Wiring {
  import opened Neurons

  /** The layers of neuron ids in order, concatenated. */
  function Flatten(layers: seq<seq<nat>>): seq<nat>
    decreases |layers|
  {
    if layers == [] then [] else Flatten(layers[..|layers| - 1]) + layers[|layers| - 1]
  }

  /** Sum of a sequence of layer sizes. */
  function Total(sizes: seq<nat>): nat
    decreases |sizes|
  {
    if sizes == [] then 0 else Total(sizes[..|sizes| - 1]) + sizes[|sizes| - 1]
  }

  /** The source neurons of the links `ids`, in order. */
  function Sources(links: seq<Link>, ids: seq<nat>): (r: seq<nat>)
    requires InRange(links, ids)
    ensures |r| == |ids|
    ensures forall q | 0 <= q < |ids| :: r[q] == links[ids[q]].src
  {
    seq(|ids|, q requires 0 <= q < |ids| => links[ids[q]].src)
  }

  /**
   * `layers` partitions the `count` neurons: `layerOf[m]` is the one layer
   * that holds neuron `m`, and no layer lists a neuron twice.
   */
  ghost predicate Layered(count: nat, layers: seq<seq<nat>>, layerOf: seq<nat>) {
    && |layerOf| == count
    && (forall m | 0 <= m < count :: layerOf[m] < |layers| && m in layers[layerOf[m]])
    && (forall k, j | 0 <= k < |layers| && 0 <= j < |layers[k]| :: layers[k][j] < count && layerOf[layers[k][j]] == k)
    && (forall k | 0 <= k < |layers| :: NoDup(layers[k]))
  }

  /** Every link runs from an earlier layer to a later one. */
  ghost predicate Upward(links: seq<Link>, layerOf: seq<nat>) {
    forall i | 0 <= i < |links| :: links[i].src < |layerOf| && links[i].dst < |layerOf| && layerOf[links[i].src] < layerOf[links[i].dst]
  }

  /** A neuron's incoming links end at it, and its outgoing links start at it. */
  ghost predicate Ends(neurons: seq<Neuron>, links: seq<Link>)
    requires Indexed(neurons, links)
  {
    && (forall n, j | 0 <= n < |neurons| && 0 <= j < |neurons[n].back| :: links[neurons[n].back[j]].dst == n)
    && (forall n, j | 0 <= n < |neurons| && 0 <= j < |neurons[n].forward| :: links[neurons[n].forward[j]].src == n)
  }

  /** Every link is listed by both of its end points. */
  ghost predicate Registered(neurons: seq<Neuron>, links: seq<Link>)
    requires Indexed(neurons, links)
  {
    forall i | 0 <= i < |links| :: i in neurons[links[i].dst].back && i in neurons[links[i].src].forward
  }

  /** No neuron lists a link twice. */
  ghost predicate Distinct(neurons: seq<Neuron>) {
    forall n | 0 <= n < |neurons| :: NoDup(neurons[n].back) && NoDup(neurons[n].forward)
  }

  /**
   * The network invariant: every link runs from an earlier layer to a later
   * one, appears exactly once in its destination's `back` list and once in its
   * source's `forward` list, and those lists hold nothing else.
   */
  ghost predicate Wired(neurons: seq<Neuron>, links: seq<Link>, layers: seq<seq<nat>>, layerOf: seq<nat>) {
    && Indexed(neurons, links)
    && Layered(|neurons|, layers, layerOf)
    && Upward(links, layerOf)
    && Ends(neurons, links)
    && Registered(neurons, links)
    && Distinct(neurons)
  }

  /** Every id listed in `layers` names one of `count` neurons. */
  ghost predicate Members(count: nat, layers: seq<seq<nat>>) {
    forall k, j | 0 <= k < |layers| && 0 <= j < |layers[k]| :: layers[k][j] < count
  }

  /** `a` and `b` hold the same links lists and differ at most in neuron states. */
  ghost predicate SameWiring(a: seq<Neuron>, b: seq<Neuron>) {
    |a| == |b| && forall m | 0 <= m < |a| :: a[m].back == b[m].back && a[m].forward == b[m].forward
  }

  /** Changing neuron states never breaks the network invariant. */
  lemma WiredKept(a: seq<Neuron>, b: seq<Neuron>, links: seq<Link>, layers: seq<seq<nat>>, layerOf: seq<nat>)
    requires Wired(a, links, layers, layerOf) && SameWiring(a, b)
    ensures Wired(b, links, layers, layerOf)
  {
    forall i | 0 <= i < |links|
      ensures i in b[links[i].dst].back && i in b[links[i].src].forward
    {
      assert b[links[i].dst].back == a[links[i].dst].back;
      assert b[links[i].src].forward == a[links[i].src].forward;
    }
  }

  /** Links whose weights and flags change, but not their end points, keep the invariant. */
  lemma WiredLinksKept(neurons: seq<Neuron>, a: seq<Link>, b: seq<Link>, layers: seq<seq<nat>>, layerOf: seq<nat>)
    requires Wired(neurons, a, layers, layerOf)
    requires SameEnds(a, b)
    ensures Wired(neurons, b, layers, layerOf)
  {
  }

  /** The concatenation of layers of the given sizes is as long as their sum. */
  lemma {:induction false} FlattenSize(layers: seq<seq<nat>>, sizes: seq<nat>)
    requires |layers| == |sizes| && forall k | 0 <= k < |sizes| :: |layers[k]| == sizes[k]
    ensures |Flatten(layers)| == Total(sizes)
    decreases |layers|
  {
    if layers != [] {
      FlattenSize(layers[..|layers| - 1], sizes[..|sizes| - 1]);
    }
  }

  /** In a wired network every neuron is attached to exactly its own links. */
  lemma WiredBlamable(neurons: seq<Neuron>, links: seq<Link>, layers: seq<seq<nat>>, layerOf: seq<nat>)
    requires Wired(neurons, links, layers, layerOf)
    ensures Blamable(neurons, links)
  {
    forall n, i | 0 <= n < |neurons| && 0 <= i < |links|
      ensures (i in neurons[n].back <==> links[i].dst == n) && (i in neurons[n].forward <==> links[i].src == n)
      ensures links[i].dst == n ==> links[i].src != n
    {
      if i in neurons[n].back {
        var j :| 0 <= j < |neurons[n].back| && neurons[n].back[j] == i;
      }
      if i in neurons[n].forward {
        var j :| 0 <= j < |neurons[n].forward| && neurons[n].forward[j] == i;
      }
    }
  }

  // ---------------------------------------------------------------------------
  // Construction steps of `Network::new`
  // ---------------------------------------------------------------------------

  /** Every neuron of layer `k` has incoming links from the neurons of layers `0..k-1`, in order. */
  ghost predicate FedInOrder(neurons: seq<Neuron>, links: seq<Link>, layers: seq<seq<nat>>) {
    forall k, j | 0 <= k < |layers| && 0 <= j < |layers[k]| ::
      && layers[k][j] < |neurons|
      && InRange(links, neurons[layers[k][j]].back)
      && Sources(links, neurons[layers[k][j]].back) == Flatten(layers[..k])
  }

  /** The arena after link number `|links|` has been registered at both its end points. */
  function WithLink(neurons: seq<Neuron>, links: seq<Link>, link: Link): seq<Neuron>
    requires link.src < |neurons| && link.dst < |neurons|
  {
    var i := |links|;
    var ns := neurons[link.dst := neurons[link.dst].(back := neurons[link.dst].back + [i])];
    ns[link.src := ns[link.src].(forward := ns[link.src].forward + [i])]
  }

  /** Starting a new, empty layer. */
  lemma LayerOpened(neurons: seq<Neuron>, links: seq<Link>, done: seq<seq<nat>>, layerOf: seq<nat>)
    requires Wired(neurons, links, done, layerOf) && FedInOrder(neurons, links, done)
    ensures Wired(neurons, links, done + [[]], layerOf) && FedInOrder(neurons, links, done + [[]])
  {
    var view := done + [[]];
    forall m | 0 <= m < |neurons| ensures m in view[layerOf[m]] {
      assert view[layerOf[m]] == done[layerOf[m]];
    }
    forall k | 0 <= k < |done| ensures view[..k] == done[..k] { }
  }

  /** Adding a fresh neuron, with no links yet, to the layer being built. */
  lemma NeuronAdded(neurons: seq<Neuron>, links: seq<Link>, done: seq<seq<nat>>, layer: seq<nat>, layerOf: seq<nat>)
    requires Wired(neurons, links, done + [layer], layerOf)
    ensures Members(|neurons|, done + [layer])
    ensures Wired(neurons + [Neuron(Off, [], [])], links, done + [layer + [|neurons|]], layerOf + [|done|])
  {
    LayeredGrown(|neurons|, done, layer, layerOf);
    ArenaGrown(neurons, links, layerOf, |done|);
  }

  /** The fresh neuron `count` joins the last layer. */
  lemma LayeredGrown(count: nat, done: seq<seq<nat>>, layer: seq<nat>, layerOf: seq<nat>)
    requires Layered(count, done + [layer], layerOf)
    ensures Members(count, done + [layer])
    ensures Layered(count + 1, done + [layer + [count]], layerOf + [|done|])
  {
    var id := count;
    var lo := layerOf + [|done|];
    var view, view' := done + [layer], done + [layer + [id]];
    forall m | 0 <= m < count + 1 ensures lo[m] < |view'| && m in view'[lo[m]] {
      if m < id {
        assert m in view[layerOf[m]];
        assert lo[m] == layerOf[m];
        if lo[m] == |done| {
          assert view'[lo[m]] == layer + [id];
        } else {
          assert view'[lo[m]] == view[lo[m]];
        }
      } else {
        assert view'[lo[m]] == layer + [id];
      }
    }
    forall k, j | 0 <= k < |view'| && 0 <= j < |view'[k]| ensures view'[k][j] < count + 1 && lo[view'[k][j]] == k {
      if k < |done| || j < |layer| {
        assert view'[k][j] == view[k][j];
      }
    }
    forall k | 0 <= k < |view'| ensures NoDup(view'[k]) {
      if k == |done| {
        forall j | 0 <= j < |layer| ensures layer[j] < id {
          assert view[|done|][j] == layer[j];
        }
      } else {
        assert view'[k] == view[k];
      }
    }
  }

  /** The arena with one more neuron, with no links, in layer `l`. */
  lemma ArenaGrown(neurons: seq<Neuron>, links: seq<Link>, layerOf: seq<nat>, l: nat)
    requires Indexed(neurons, links) && Upward(links, layerOf) && Ends(neurons, links)
    requires Registered(neurons, links) && Distinct(neurons)
    ensures var ns := neurons + [Neuron(Off, [], [])];
      && Indexed(ns, links) && Upward(links, layerOf + [l]) && Ends(ns, links)
      && Registered(ns, links) && Distinct(ns)
  {
    var ns := neurons + [Neuron(Off, [], [])];
    assert Indexed(ns, links);
    forall i | 0 <= i < |links| ensures i in ns[links[i].dst].back && i in ns[links[i].src].forward {
      assert ns[links[i].dst] == neurons[links[i].dst] && ns[links[i].src] == neurons[links[i].src];
    }
  }

  /** The link lists of the arena after `WithLink`. */
  lemma WithLinkShape(neurons: seq<Neuron>, links: seq<Link>, link: Link)
    requires link.src < |neurons| && link.dst < |neurons|
    ensures var ns := WithLink(neurons, links, link);
      && |ns| == |neurons|
      && (forall m | 0 <= m < |ns| :: ns[m].state == neurons[m].state)
      && (forall m | 0 <= m < |ns| :: ns[m].back == (if m == link.dst then neurons[m].back + [|links|] else neurons[m].back))
      && (forall m | 0 <= m < |ns| :: ns[m].forward == (if m == link.src then neurons[m].forward + [|links|] else neurons[m].forward))
  {
  }

  lemma LinkIndexed(neurons: seq<Neuron>, links: seq<Link>, link: Link)
    requires Indexed(neurons, links) && link.src < |neurons| && link.dst < |neurons|
    ensures Indexed(WithLink(neurons, links, link), links + [link])
  {
    WithLinkShape(neurons, links, link);
  }

  lemma LinkEnds(neurons: seq<Neuron>, links: seq<Link>, link: Link)
    requires Indexed(neurons, links) && Ends(neurons, links) && link.src < |neurons| && link.dst < |neurons|
    ensures Indexed(WithLink(neurons, links, link), links + [link])
    ensures Ends(WithLink(neurons, links, link), links + [link])
  {
    LinkIndexed(neurons, links, link);
    WithLinkShape(neurons, links, link);
  }

  lemma LinkRegistered(neurons: seq<Neuron>, links: seq<Link>, link: Link)
    requires Indexed(neurons, links) && Registered(neurons, links) && link.src < |neurons| && link.dst < |neurons|
    ensures Indexed(WithLink(neurons, links, link), links + [link])
    ensures Registered(WithLink(neurons, links, link), links + [link])
  {
    LinkIndexed(neurons, links, link);
    WithLinkShape(neurons, links, link);
    var ns, ls := WithLink(neurons, links, link), links + [link];
    forall i | 0 <= i < |ls| ensures i in ns[ls[i].dst].back && i in ns[ls[i].src].forward {
      if i < |links| {
        var d, s := links[i].dst, links[i].src;
        assert ls[i] == links[i];
        var j :| 0 <= j < |neurons[d].back| && neurons[d].back[j] == i;
        var j' :| 0 <= j' < |neurons[s].forward| && neurons[s].forward[j'] == i;
        assert ns[d].back[j] == i && ns[s].forward[j'] == i;
      } else {
        assert ns[link.dst].back[|ns[link.dst].back| - 1] == i;
        assert ns[link.src].forward[|ns[link.src].forward| - 1] == i;
      }
    }
  }

  lemma LinkDistinct(neurons: seq<Neuron>, links: seq<Link>, link: Link)
    requires Indexed(neurons, links) && Distinct(neurons) && link.src < |neurons| && link.dst < |neurons|
    ensures Distinct(WithLink(neurons, links, link))
  {
    WithLinkShape(neurons, links, link);
    var ns := WithLink(neurons, links, link);
    forall n | 0 <= n < |ns| ensures NoDup(ns[n].back) && NoDup(ns[n].forward) {
      assert forall j | 0 <= j < |neurons[n].back| :: neurons[n].back[j] < |links|;
      assert forall j | 0 <= j < |neurons[n].forward| :: neurons[n].forward[j] < |links|;
    }
  }

  /** Registering a new link from an earlier layer at both its end points. */
  lemma LinkAdded(neurons: seq<Neuron>, links: seq<Link>, layers: seq<seq<nat>>, layerOf: seq<nat>, link: Link)
    requires Wired(neurons, links, layers, layerOf)
    requires link.src < |neurons| && link.dst < |neurons| && layerOf[link.src] < layerOf[link.dst]
    ensures Wired(WithLink(neurons, links, link), links + [link], layers, layerOf)
  {
    WithLinkShape(neurons, links, link);
    LinkEnds(neurons, links, link);
    LinkRegistered(neurons, links, link);
    LinkDistinct(neurons, links, link);
  }

  /** The sources of a list of links, after one more link is appended to both. */
  lemma SourcesLinked(ids: seq<nat>, links: seq<Link>, link: Link)
    requires InRange(links, ids)
    ensures InRange(links + [link], ids + [|links|])
    ensures Sources(links + [link], ids + [|links|]) == Sources(links, ids) + [link.src]
  {
  }

  /** A new link into a neuron outside `view` does not disturb the incoming links of `view`. */
  lemma FedInOrderLinked(neurons: seq<Neuron>, links: seq<Link>, view: seq<seq<nat>>, link: Link)
    requires FedInOrder(neurons, links, view) && Members(link.dst, view)
    requires link.src < |neurons| && link.dst < |neurons|
    ensures FedInOrder(WithLink(neurons, links, link), links + [link], view)
  {
    var ns, ls := WithLink(neurons, links, link), links + [link];
    forall k, j | 0 <= k < |view| && 0 <= j < |view[k]|
      ensures InRange(ls, ns[view[k][j]].back) && Sources(ls, ns[view[k][j]].back) == Flatten(view[..k])
    {
      var m := view[k][j];
      assert ns[m].back == neurons[m].back;
      assert Sources(ls, ns[m].back) == Sources(links, neurons[m].back);
    }
  }

  /** Appending a neuron with no link lists to the arena. */
  lemma FedInOrderGrown(neurons: seq<Neuron>, links: seq<Link>, view: seq<seq<nat>>)
    requires FedInOrder(neurons, links, view)
    ensures FedInOrder(neurons + [Neuron(Off, [], [])], links, view)
  {
    var ns := neurons + [Neuron(Off, [], [])];
    forall k, j | 0 <= k < |view| && 0 <= j < |view[k]|
      ensures ns[view[k][j]] == neurons[view[k][j]]
    {
    }
  }

  /** Closing the neuron `id` once it has a link from every earlier neuron. */
  lemma FedInOrderClosed(neurons: seq<Neuron>, links: seq<Link>, done: seq<seq<nat>>, layer: seq<nat>, id: nat)
    requires FedInOrder(neurons, links, done + [layer])
    requires id < |neurons| && InRange(links, neurons[id].back)
    requires Sources(links, neurons[id].back) == Flatten(done)
    ensures FedInOrder(neurons, links, done + [layer + [id]])
  {
    var view, view' := done + [layer], done + [layer + [id]];
    forall k, j | 0 <= k < |view'| && 0 <= j < |view'[k]|
      ensures view'[k][j] < |neurons| && InRange(links, neurons[view'[k][j]].back)
        && Sources(links, neurons[view'[k][j]].back) == Flatten(view'[..k])
    {
      assert view'[..k] == view[..k];
      if k == |done| {
        assert view[..k] == done;
        if j < |layer| {
          assert view'[k][j] == view[k][j];
        }
      } else {
        assert view'[k][j] == view[k][j];
      }
    }
  }
}
