/**
 * `Network` of src/lib.rs over an arena: `neurons` and `links` are the
 * neurons and links the source shares through reference-counted cells, and
 * `layers` lists the neuron ids of each layer, input layer first.
 */
module Networks {
  import opened Neurons
  import opened Wiring
  import opened Passes

  class Network {
    var neurons: seq<Neuron>
    var links: seq<Link>
    var layers: seq<seq<nat>>
    /** The layer each neuron belongs to. */
    ghost var layerOf: seq<nat>

    ghost predicate Valid()
      reads this
    {
      Wired(neurons, links, layers, layerOf)
    }

    /**
     * `Network::new(dims)`: layer after layer, each new neuron gets one link
     * from every neuron of every earlier layer, in the order of those layers.
     * Link `i` gets the initial weight `weights(i)`, the `i`-th value drawn.
     */
    constructor (dims: seq<nat>, weights: nat -> real)
      requires forall i: nat :: -1.0 <= weights(i) <= 1.0
      ensures Valid()
      ensures |layers| == |dims| && forall k | 0 <= k < |dims| :: |layers[k]| == dims[k]
      ensures forall k, j | 0 <= k < |layers| && 0 <= j < |layers[k]| ::
        InRange(links, neurons[layers[k][j]].back) && Sources(links, neurons[layers[k][j]].back) == Flatten(layers[..k])
      ensures forall k, j | 0 <= k < |layers| && 0 <= j < |layers[k]| :: |neurons[layers[k][j]].back| == Total(dims[..k])
      ensures forall m | 0 <= m < |neurons| :: neurons[m].state == Off
      ensures forall i | 0 <= i < |links| :: links[i].weight == weights(i) && !links[i].punish
      ensures forall i | 0 <= i < |links| :: -1.0 <= links[i].weight <= 1.0
    {
      var ns, ls, done, lo := Build(dims, weights);
      forall k, j | 0 <= k < |done| && 0 <= j < |done[k]|
        ensures |ns[done[k][j]].back| == Total(dims[..k])
      {
        assert |done[..k]| == |dims[..k]|;
        FlattenSize(done[..k], dims[..k]);
      }
      neurons, links, layers, layerOf := ns, ls, done, lo;
    }

    /**
     * `Neuron::forward` on neuron `n`: its state becomes On iff the weighted
     * sum of its sources' states reaches `NeuronSensitivity`; nothing else changes.
     */
    method Forward(n: nat)
      requires Indexed(neurons, links) && n < |neurons|
      modifies this
      ensures Indexed(neurons, links)
      ensures links == old(links) && layers == old(layers) && layerOf == old(layerOf)
      ensures neurons == Forwarded(old(neurons), links, n)
      ensures neurons[n].state == On <==> Activation(old(neurons), links, neurons[n].back) >= NeuronSensitivity
      ensures forall m | 0 <= m < |neurons| && m != n :: neurons[m] == old(neurons[m])
    {
      var stateSum := SumActivation(neurons, links, neurons[n].back);
      var before := neurons;
      if stateSum >= NeuronSensitivity {
        neurons := neurons[n := neurons[n].(state := On)];
      } else {
        neurons := neurons[n := neurons[n].(state := Off)];
      }
      IndexedKept(before, neurons, links);
    }

    /**
     * `Neuron::back` on neuron `n`: decide from the outgoing links whether to
     * punish back, nudge or flag the incoming (or, for an On neuron that does
     * not punish back, the flagged outgoing) links, then clear every outgoing
     * flag. No neuron state changes.
     */
    method Back(n: nat)
      requires Indexed(neurons, links) && n < |neurons| && Attached(neurons, links, n)
      modifies this
      ensures neurons == old(neurons) && layers == old(layers) && layerOf == old(layerOf)
      ensures links == Blamed(neurons, old(links), n)
    {
      var me := neurons[n];
      ghost var start := links;
      var ls := links;
      assert InRange(ls, me.forward);
      var weightSum, correction := ForwardSums(ls, me.forward);
      var punishBack := PunishesBack(me, weightSum, correction);
      assert punishBack == ShouldPunishBack(neurons, start, n);
      if punishBack {
        ls := PunishLinks(neurons, ls, me.back, me.state);
      } else if me.state == On {
        ls := PayFlagged(ls, me.forward);
      }
      ls := ClearFlags(ls, me.forward);
      assert ls == Blamed(neurons, start, n);
      links := ls;
    }

    /**
     * `Network::calc(data)`: load `data` into the input layer, fire every
     * later layer in order and return the states of the last layer.
     */
    method Calc(data: seq<NeuronState>) returns (out: seq<NeuronState>)
      requires Valid() && |layers| > 0 && |data| == |layers[0]|
      modifies this
      ensures Valid()
      ensures links == old(links) && layers == old(layers) && layerOf == old(layerOf)
      ensures Members(|old(neurons)|, layers)
      ensures neurons == Evaluated(old(neurons), links, layers, data)
      ensures forall p | 0 <= p < |data| :: neurons[layers[0][p]].state == data[p]
      ensures |out| == |layers[|layers| - 1]|
      ensures forall p | 0 <= p < |out| :: out[p] == neurons[layers[|layers| - 1][p]].state
    {
      ghost var start := neurons;
      Evaluate(data);
      WiredKept(start, neurons, links, layers, layerOf);
      InputsLoaded(start, links, layers, layerOf, data);
      out := Outputs(neurons, layers[|layers| - 1]);
    }

    /** Both loops of `calc`. */
    method Evaluate(data: seq<NeuronState>)
      requires Indexed(neurons, links) && Members(|neurons|, layers) && |layers| > 0 && |data| == |layers[0]|
      modifies this
      ensures links == old(links) && layers == old(layers) && layerOf == old(layerOf)
      ensures neurons == Evaluated(old(neurons), links, layers, data) && SameWiring(old(neurons), neurons)
    {
      ghost var start := neurons;
      neurons := Load(neurons, layers[0], data);
      IndexedKept(start, neurons, links);
      FireLayers();
    }

    /** The outer loop of `calc`: every layer after the input layer fires, in order. */
    method FireLayers()
      requires Indexed(neurons, links) && Members(|neurons|, layers) && |layers| > 0
      modifies this
      ensures links == old(links) && layers == old(layers) && layerOf == old(layerOf)
      ensures neurons == Propagated(old(neurons), links, layers, |layers|)
    {
      ghost var start := neurons;
      for k := 1 to |layers|
        invariant links == old(links) && layers == old(layers) && layerOf == old(layerOf)
        invariant Indexed(neurons, links) && neurons == Propagated(start, links, layers, k)
      {
        Fire(layers[k]);
      }
    }

    /** The inner loop of `calc`: `forward` on each neuron of `layer`, in order. */
    method Fire(layer: seq<nat>)
      requires Indexed(neurons, links) && Bounded(layer, |neurons|)
      modifies this
      ensures links == old(links) && layers == old(layers) && layerOf == old(layerOf)
      ensures Indexed(neurons, links) && neurons == ForwardAll(old(neurons), links, layer)
    {
      ghost var start := neurons;
      for j := 0 to |layer|
        invariant links == old(links) && layers == old(layers) && layerOf == old(layerOf)
        invariant Indexed(neurons, links) && neurons == ForwardAll(start, links, layer[..j])
      {
        ForwardAllStep(start, links, layer, j);
        Forward(layer[j]);
      }
      assert layer[..|layer|] == layer;
    }

    /**
     * `Network::fit(expected)`: `back` on every output neuron whose state
     * differs from the expected one (pairs beyond the shorter sequence are
     * ignored), then on every neuron of every other layer, top layer first.
     */
    method Fit(expected: seq<NeuronState>)
      requires Valid() && |layers| > 0
      modifies this
      ensures Valid()
      ensures neurons == old(neurons) && layers == old(layers) && layerOf == old(layerOf)
      ensures Members(|neurons|, layers)
      ensures links == ApplyBlames(neurons, old(links), FitOrder(neurons, layers, expected))
      ensures forall i | 0 <= i < |links| :: !links[i].punish
    {
      ghost var start := links;
      WiredBlamable(neurons, links, layers, layerOf);
      BlameAll(expected);
      FitClearsFlags(neurons, start, layers, layerOf, expected);
      WiredLinksKept(neurons, start, links, layers, layerOf);
    }

    /** Both passes of `fit`, in the order `FitOrder` lists. */
    method BlameAll(expected: seq<NeuronState>)
      requires Blamable(neurons, links) && Members(|neurons|, layers) && |layers| > 0
      modifies this
      ensures neurons == old(neurons) && layers == old(layers) && layerOf == old(layerOf)
      ensures links == ApplyBlames(neurons, old(links), FitOrder(neurons, layers, expected))
    {
      ghost var start := links;
      var top := |layers| - 1;
      var outs := layers[top];
      var m := if |outs| <= |expected| then |outs| else |expected|;
      BlameOutputs(outs[..m], expected[..m], start);
      ghost var mis := Mismatched(neurons, outs[..m], expected[..m]);
      ghost var upper := layers[..top];
      BlameLower(start, mis);
      assert FitOrder(neurons, layers, expected) == mis + FromTop(upper, 0);
    }

    /**
     * The second pass of `fit`: `back` on every neuron of every layer below
     * the output layer, top layer first, after the outputs `done`.
     */
    method BlameLower(ghost start: seq<Link>, ghost done: seq<nat>)
      requires Blamable(neurons, start) && Members(|neurons|, layers) && |layers| > 0
      requires Bounded(done, |neurons|) && links == ApplyBlames(neurons, start, done)
      modifies this
      ensures neurons == old(neurons) && layers == old(layers) && layerOf == old(layerOf)
      ensures Members(|neurons|, layers[..|layers| - 1])
      ensures Bounded(done + FromTop(layers[..|layers| - 1], 0), |neurons|)
      ensures links == ApplyBlames(neurons, start, done + FromTop(layers[..|layers| - 1], 0))
    {
      var top := |layers| - 1;
      var upper := layers[..top];
      MembersPrefix(|neurons|, layers, top);
      OrderBounded(done, upper, |neurons|, top);
      FromTopStep(done, upper, |upper|);
      for k := top downto 0
        invariant neurons == old(neurons) && layers == old(layers) && layerOf == old(layerOf)
        invariant Members(|neurons|, upper)
        invariant Bounded(done + FromTop(upper, k), |neurons|)
        invariant links == ApplyBlames(neurons, start, done + FromTop(upper, k))
      {
        BlameLayer(upper[k], start, done + FromTop(upper, k + 1));
        FromTopStep(done, upper, k);
        OrderBounded(done, upper, |neurons|, k);
      }
      OrderBounded(done, upper, |neurons|, 0);
    }

    /**
     * The first loop of `fit`: `back` on each output neuron `outs[p]` whose
     * state differs from `expected[p]`.
     */
    method BlameOutputs(outs: seq<nat>, expected: seq<NeuronState>, ghost start: seq<Link>)
      requires Blamable(neurons, start) && links == start
      requires |outs| == |expected| && Bounded(outs, |neurons|)
      modifies this
      ensures neurons == old(neurons) && layers == old(layers) && layerOf == old(layerOf)
      ensures links == ApplyBlames(neurons, start, Mismatched(neurons, outs, expected))
    {
      for p := 0 to |outs|
        invariant neurons == old(neurons) && layers == old(layers) && layerOf == old(layerOf)
        invariant links == ApplyBlames(neurons, start, Mismatched(neurons, outs[..p], expected[..p]))
      {
        MismatchedStep(neurons, outs, expected, p);
        BlameIfWrong(outs[p], expected[p], start, Mismatched(neurons, outs[..p], expected[..p]));
      }
      WholePrefix(outs);
      WholePrefix(expected);
    }

    /** One step of the first pass of `fit`: `back` on `n` only when its state is not the expected one. */
    method BlameIfWrong(n: nat, expected: NeuronState, ghost start: seq<Link>, ghost done: seq<nat>)
      requires Blamable(neurons, start) && n < |neurons| && Bounded(done, |neurons|)
      requires links == ApplyBlames(neurons, start, done)
      modifies this
      ensures neurons == old(neurons) && layers == old(layers) && layerOf == old(layerOf)
      ensures links == ApplyBlames(neurons, start, done + (if neurons[n].state != expected then [n] else []))
    {
      if neurons[n].state != expected {
        ApplyBlamesStep(neurons, start, done, n);
        BlamableKept(neurons, start, links, n);
        Back(n);
      } else {
        WholePrefix(done);
      }
    }

    /**
     * The inner loop of the second pass of `fit`: `back` on each neuron of
     * `layer`, after the neurons `done` have already been blamed.
     */
    method BlameLayer(layer: seq<nat>, ghost start: seq<Link>, ghost done: seq<nat>)
      requires Blamable(neurons, start)
      requires Bounded(layer, |neurons|) && Bounded(done, |neurons|)
      requires links == ApplyBlames(neurons, start, done)
      modifies this
      ensures neurons == old(neurons) && layers == old(layers) && layerOf == old(layerOf)
      ensures links == ApplyBlames(neurons, start, done + layer)
    {
      assert done + layer[..0] == done;
      for j := 0 to |layer|
        invariant neurons == old(neurons) && layers == old(layers) && layerOf == old(layerOf)
        invariant links == ApplyBlames(neurons, start, done + layer[..j])
      {
        ApplyBlamesStep(neurons, start, done + layer[..j], layer[j]);
        PrefixStep(done, layer, j);
        BlamableKept(neurons, start, links, layer[j]);
        Back(layer[j]);
      }
      assert layer[..|layer|] == layer;
    }
  }

  // ---------------------------------------------------------------------------
  // The loops of `Network::new`
  // ---------------------------------------------------------------------------

  /** Every neuron is Off and every link carries its drawn weight and no flag. */
  ghost predicate Fresh(neurons: seq<Neuron>, links: seq<Link>, weights: nat -> real) {
    && (forall m | 0 <= m < |neurons| :: neurons[m].state == Off)
    && (forall i | 0 <= i < |links| :: links[i].weight == weights(i) && !links[i].punish)
  }

  /** The invariant of the loops of `Network::new`. */
  ghost predicate Building(neurons: seq<Neuron>, links: seq<Link>, layers: seq<seq<nat>>, layerOf: seq<nat>, weights: nat -> real) {
    Wired(neurons, links, layers, layerOf) && FedInOrder(neurons, links, layers) && Fresh(neurons, links, weights)
  }

  /**
   * The empty arena `Network::new` starts from (`layers` is a new, empty
   * vector), returned from a method so that the loop of `Build` starts
   * from variables rather than from sequence literals.
   */
  method Start(weights: nat -> real) returns (neurons: seq<Neuron>, links: seq<Link>, layers: seq<seq<nat>>, ghost layerOf: seq<nat>)
    ensures Building(neurons, links, layers, layerOf, weights) && Lower(Flatten(layers), layerOf, 0) && layers == []
  {
    neurons, links, layers, layerOf := [], [], [], [];
    NothingBuilt(neurons, links, layers, layerOf, weights);
  }

  /** The empty arena satisfies the construction invariant. */
  lemma NothingBuilt(neurons: seq<Neuron>, links: seq<Link>, layers: seq<seq<nat>>, layerOf: seq<nat>, weights: nat -> real)
    requires neurons == [] && links == [] && layers == [] && layerOf == []
    ensures Building(neurons, links, layers, layerOf, weights) && Lower(Flatten(layers), layerOf, 0)
  {
  }

  /** `layers` has one layer per entry of `dims`, of that size. */
  ghost predicate Shaped(layers: seq<seq<nat>>, dims: seq<nat>) {
    |layers| == |dims| && forall k | 0 <= k < |dims| :: |layers[k]| == dims[k]
  }

  lemma ShapedStep(layers: seq<seq<nat>>, dims: seq<nat>, k: nat, layer: seq<nat>)
    requires k < |dims| && Shaped(layers, dims[..k]) && |layer| == dims[k]
    ensures Shaped(layers + [layer], dims[..k + 1])
  {
  }

  /** The loops of `Network::new`, one layer of `dims` after another. */
  method Build(dims: seq<nat>, weights: nat -> real)
    returns (ns: seq<Neuron>, ls: seq<Link>, done: seq<seq<nat>>, ghost lo: seq<nat>)
    ensures Shaped(done, dims) && Building(ns, ls, done, lo, weights)
  {
    ns, ls, done, lo := Start(weights);
    for k := 0 to |dims|
      invariant Shaped(done, dims[..k])
      invariant Building(ns, ls, done, lo, weights)
      invariant Lower(Flatten(done), lo, k)
    {
      var layer;
      ns, ls, layer, lo := AddLayer(ns, ls, done, lo, dims[k], weights);
      ShapedStep(done, dims, k, layer);
      done := done + [layer];
    }
    WholePrefix(dims);
  }

  /** The neurons `ids` all lie in layers below `k`. */
  ghost predicate Lower(ids: seq<nat>, layerOf: seq<nat>, k: nat) {
    forall p | 0 <= p < |ids| :: ids[p] < |layerOf| && layerOf[ids[p]] < k
  }

  /**
   * One pass of the outer loop of `Network::new`: a layer of `count` fresh
   * neurons, each linked from every neuron of the layers `done`.
   */
  method AddLayer(neurons: seq<Neuron>, links: seq<Link>, done: seq<seq<nat>>, ghost layerOf: seq<nat>,
                  count: nat, weights: nat -> real)
    returns (ns: seq<Neuron>, ls: seq<Link>, layer: seq<nat>, ghost lo: seq<nat>)
    requires Building(neurons, links, done, layerOf, weights)
    requires Lower(Flatten(done), layerOf, |done|)
    ensures |layer| == count
    ensures Building(ns, ls, done + [layer], lo, weights)
    ensures Lower(Flatten(done + [layer]), lo, |done| + 1)
  {
    var k := |done|;
    var earlier := Flatten(done);
    ns, ls, layer, lo := neurons, links, [], layerOf;
    LayerOpened(ns, ls, done, lo);
    for c := 0 to count
      invariant |layer| == c
      invariant Wired(ns, ls, done + [layer], lo) && FedInOrder(ns, ls, done + [layer]) && Fresh(ns, ls, weights)
      invariant Lower(earlier, lo, k)
      invariant forall p | 0 <= p < |layer| :: layer[p] < |lo| && lo[layer[p]] == k
    {
      var id := |ns|;
      NeuronAdded(ns, ls, done, layer, lo);
      FedInOrderGrown(ns, ls, done + [layer]);
      ns := ns + [Neuron(Off, [], [])];
      lo := lo + [k];
      ns, ls := Connect(ns, ls, earlier, id, done + [layer + [id]], done + [layer], lo, weights);
      FedInOrderClosed(ns, ls, done, layer, id);
      layer := layer + [id];
    }
    assert Flatten(done + [layer]) == earlier + layer by {
      assert (done + [layer])[..|done|] == done;
    }
  }

  /**
   * The inner loop of `Network::new`: a link into neuron `id` from each
   * neuron of `earlier`, in order, registered at both end points.
   */
  method Connect(neurons: seq<Neuron>, links: seq<Link>, earlier: seq<nat>, id: nat,
                 ghost view: seq<seq<nat>>, ghost fed: seq<seq<nat>>, ghost layerOf: seq<nat>, weights: nat -> real)
    returns (ns: seq<Neuron>, ls: seq<Link>)
    requires Wired(neurons, links, view, layerOf) && FedInOrder(neurons, links, fed) && Fresh(neurons, links, weights)
    requires id < |neurons| && neurons[id].back == [] && Members(id, fed)
    requires Lower(earlier, layerOf, layerOf[id])
    ensures |ns| == |neurons|
    ensures Wired(ns, ls, view, layerOf) && FedInOrder(ns, ls, fed) && Fresh(ns, ls, weights)
    ensures InRange(ls, ns[id].back) && Sources(ls, ns[id].back) == earlier
  {
    ns, ls := neurons, links;
    for p := 0 to |earlier|
      invariant |ns| == |neurons|
      invariant Wired(ns, ls, view, layerOf) && FedInOrder(ns, ls, fed) && Fresh(ns, ls, weights)
      invariant InRange(ls, ns[id].back) && Sources(ls, ns[id].back) == earlier[..p]
    {
      var link := Link(earlier[p], id, weights(|ls|), false);
      LinkStep(ns, ls, earlier, p, id, view, layerOf, link);
      FedInOrderLinked(ns, ls, fed, link);
      FreshLinked(ns, ls, weights, link);
      SourcesStep(ns, ls, earlier, p, id, link);
      ns := WithLink(ns, ls, link);
      ls := ls + [link];
    }
    WholePrefix(earlier);
  }

  /** One pass of the inner loop of `Network::new` keeps the network invariant. */
  lemma LinkStep(ns: seq<Neuron>, ls: seq<Link>, earlier: seq<nat>, p: nat, id: nat,
                 view: seq<seq<nat>>, layerOf: seq<nat>, link: Link)
    requires Wired(ns, ls, view, layerOf)
    requires id < |ns| && p < |earlier| && Lower(earlier, layerOf, layerOf[id])
    requires link.src == earlier[p] && link.dst == id
    ensures Wired(WithLink(ns, ls, link), ls + [link], view, layerOf)
  {
    LinkAdded(ns, ls, view, layerOf, link);
  }

  /** A link drawn as `Network::new` draws it keeps the arena fresh. */
  lemma FreshLinked(ns: seq<Neuron>, ls: seq<Link>, weights: nat -> real, link: Link)
    requires Fresh(ns, ls, weights) && link.src < |ns| && link.dst < |ns|
    requires link.weight == weights(|ls|) && !link.punish
    ensures |WithLink(ns, ls, link)| == |ns|
    ensures Fresh(WithLink(ns, ls, link), ls + [link], weights)
  {
    WithLinkShape(ns, ls, link);
  }

  /** The new neuron's incoming links, after one more from `earlier[p]`. */
  lemma SourcesStep(ns: seq<Neuron>, ls: seq<Link>, earlier: seq<nat>, p: nat, id: nat, link: Link)
    requires id < |ns| && p < |earlier| && link.src == earlier[p] && link.dst == id && link.src < |ns|
    requires InRange(ls, ns[id].back) && Sources(ls, ns[id].back) == earlier[..p]
    ensures InRange(ls + [link], WithLink(ns, ls, link)[id].back)
    ensures Sources(ls + [link], WithLink(ns, ls, link)[id].back) == earlier[..p + 1]
  {
    WithLinkShape(ns, ls, link);
    SourcesLinked(ns[id].back, ls, link);
    PrefixStep([], earlier, p);
  }
}
