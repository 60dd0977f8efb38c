/**
 * The two passes of `Network` in src/lib.rs, as functions of the arena:
 * `calc` (load the input layer, then fire every later layer in order) and
 * `fit` (blame the mismatching outputs, then every neuron of every other
 * layer from the top down), with the properties they promise.
 */
module Passes {
  import opened Neurons
  import opened Wiring

  /** Every id in `order` names one of `count` neurons. */
  ghost predicate Bounded(order: seq<nat>, count: nat) {
    forall p | 0 <= p < |order| :: order[p] < count
  }

  lemma IndexedKept(a: seq<Neuron>, b: seq<Neuron>, links: seq<Link>)
    requires Indexed(a, links) && SameWiring(a, b)
    ensures Indexed(b, links)
  {
    forall n, j | 0 <= n < |b| && 0 <= j < |b[n].back| ensures b[n].back[j] < |links| {
      assert b[n].back == a[n].back;
    }
    forall n, j | 0 <= n < |b| && 0 <= j < |b[n].forward| ensures b[n].forward[j] < |links| {
      assert b[n].forward == a[n].forward;
    }
  }

  // ---------------------------------------------------------------------------
  // calc
  // ---------------------------------------------------------------------------

  /** The arena after `forward` on each of the neurons `ids`, in order. */
  function ForwardAll(neurons: seq<Neuron>, links: seq<Link>, ids: seq<nat>): (r: seq<Neuron>)
    requires Indexed(neurons, links) && Bounded(ids, |neurons|)
    ensures SameWiring(r, neurons)
    ensures forall m | 0 <= m < |neurons| && m !in ids :: r[m] == neurons[m]
    decreases |ids|
  {
    if ids == [] then neurons
    else
      var before := ForwardAll(neurons, links, ids[..|ids| - 1]);
      IndexedKept(neurons, before, links);
      Forwarded(before, links, ids[|ids| - 1])
  }

  /** One more `forward` at the end of `ids[..j]`. */
  lemma ForwardAllStep(neurons: seq<Neuron>, links: seq<Link>, ids: seq<nat>, j: nat)
    requires Indexed(neurons, links) && Bounded(ids, |neurons|) && j < |ids|
    ensures Indexed(ForwardAll(neurons, links, ids[..j]), links)
    ensures ForwardAll(neurons, links, ids[..j + 1]) == Forwarded(ForwardAll(neurons, links, ids[..j]), links, ids[j])
  {
    var o := ids[..j + 1];
    assert o[..j] == ids[..j] && |o| - 1 == j && o[j] == ids[j];
    IndexedKept(neurons, ForwardAll(neurons, links, ids[..j]), links);
  }

  /** The arena after the neurons `ids` have been given the states `data`. */
  function Loaded(neurons: seq<Neuron>, ids: seq<nat>, data: seq<NeuronState>): (r: seq<Neuron>)
    requires |ids| == |data| && Bounded(ids, |neurons|)
    ensures SameWiring(r, neurons)
    ensures forall m | 0 <= m < |neurons| && m !in ids :: r[m] == neurons[m]
    ensures NoDup(ids) ==> forall p | 0 <= p < |ids| :: r[ids[p]].state == data[p]
    decreases |ids|
  {
    if ids == [] then neurons
    else
      var p := |ids| - 1;
      var before := Loaded(neurons, ids[..p], data[..p]);
      before[ids[p] := before[ids[p]].(state := data[p])]
  }

  /** The first loop of `calc`: the neurons `ids` take the states `data`, in order. */
  method Load(neurons: seq<Neuron>, ids: seq<nat>, data: seq<NeuronState>) returns (r: seq<Neuron>)
    requires |ids| == |data| && Bounded(ids, |neurons|)
    ensures r == Loaded(neurons, ids, data)
  {
    r := neurons;
    for p := 0 to |data|
      invariant r == Loaded(neurons, ids[..p], data[..p])
    {
      LoadedStep(neurons, ids, data, p);
      r := r[ids[p] := r[ids[p]].(state := data[p])];
    }
    assert ids[..|data|] == ids && data[..|data|] == data;
  }

  lemma LoadedStep(neurons: seq<Neuron>, ids: seq<nat>, data: seq<NeuronState>, p: nat)
    requires |ids| == |data| && Bounded(ids, |neurons|) && p < |ids|
    ensures var before := Loaded(neurons, ids[..p], data[..p]);
      Loaded(neurons, ids[..p + 1], data[..p + 1]) == before[ids[p] := before[ids[p]].(state := data[p])]
  {
    var o, d := ids[..p + 1], data[..p + 1];
    assert o[..p] == ids[..p] && d[..p] == data[..p];
    assert |o| - 1 == p && o[p] == ids[p] && d[p] == data[p];
  }

  /** The arena after layers 1 up to (not including) `k` have fired, in order. */
  function Propagated(neurons: seq<Neuron>, links: seq<Link>, layers: seq<seq<nat>>, k: nat): (r: seq<Neuron>)
    requires Indexed(neurons, links) && Members(|neurons|, layers) && 1 <= k <= |layers|
    ensures SameWiring(r, neurons)
    decreases k
  {
    if k == 1 then neurons
    else
      var before := Propagated(neurons, links, layers, k - 1);
      IndexedKept(neurons, before, links);
      ForwardAll(before, links, layers[k - 1])
  }

  /** The arena after `calc(data)`. */
  function Evaluated(neurons: seq<Neuron>, links: seq<Link>, layers: seq<seq<nat>>, data: seq<NeuronState>): (r: seq<Neuron>)
    requires Indexed(neurons, links) && Members(|neurons|, layers)
    requires |layers| > 0 && |data| == |layers[0]|
    ensures SameWiring(r, neurons)
  {
    var loaded := Loaded(neurons, layers[0], data);
    IndexedKept(neurons, loaded, links);
    Propagated(loaded, links, layers, |layers|)
  }

  /** The states of the neurons `ids`. */
  function Outputs(neurons: seq<Neuron>, ids: seq<nat>): (r: seq<NeuronState>)
    requires Bounded(ids, |neurons|)
    ensures |r| == |ids|
    ensures forall p | 0 <= p < |ids| :: r[p] == neurons[ids[p]].state
  {
    seq(|ids|, p requires 0 <= p < |ids| => neurons[ids[p]].state)
  }

  /** `a` and `b` give the same state to every neuron below layer `k`. */
  ghost predicate AgreeBelow(a: seq<Neuron>, b: seq<Neuron>, layerOf: seq<nat>, k: nat) {
    && |a| == |b| == |layerOf|
    && forall m | 0 <= m < |a| && layerOf[m] < k :: a[m].state == b[m].state
  }

  /** An activation reads only the states of the links' sources. */
  lemma {:induction false} ActivationAgrees(a: seq<Neuron>, b: seq<Neuron>, links: seq<Link>, ids: seq<nat>)
    requires Reaches(a, links, ids) && |a| == |b|
    requires forall j | 0 <= j < |ids| :: a[links[ids[j]].src].state == b[links[ids[j]].src].state
    ensures Activation(a, links, ids) == Activation(b, links, ids)
    decreases |ids|
  {
    if ids != [] {
      ActivationAgrees(a, b, links, ids[..|ids| - 1]);
    }
  }

  /** Every incoming link of a neuron starts in a lower layer. */
  ghost predicate FedFromBelow(neurons: seq<Neuron>, links: seq<Link>, layerOf: seq<nat>)
    requires Indexed(neurons, links) && |layerOf| == |neurons|
  {
    forall n, j | 0 <= n < |neurons| && 0 <= j < |neurons[n].back| :: layerOf[links[neurons[n].back[j]].src] < layerOf[n]
  }

  lemma WiredFedFromBelow(neurons: seq<Neuron>, links: seq<Link>, layers: seq<seq<nat>>, layerOf: seq<nat>)
    requires Wired(neurons, links, layers, layerOf)
    ensures FedFromBelow(neurons, links, layerOf)
  {
    forall n, j | 0 <= n < |neurons| && 0 <= j < |neurons[n].back|
      ensures layerOf[links[neurons[n].back[j]].src] < layerOf[n]
    {
      assert links[neurons[n].back[j]].dst == n;
    }
  }

  lemma SameWiringTrans(a: seq<Neuron>, b: seq<Neuron>, c: seq<Neuron>)
    requires SameWiring(a, b) && SameWiring(b, c)
    ensures SameWiring(a, c)
  {
  }

  /**
   * `a` and `b` are two arenas with the wiring of `w`, a layered arena
   * whose every incoming link starts in a lower layer.
   */
  ghost predicate Twins(w: seq<Neuron>, a: seq<Neuron>, b: seq<Neuron>, links: seq<Link>, layers: seq<seq<nat>>, layerOf: seq<nat>) {
    && Indexed(w, links) && Layered(|w|, layers, layerOf) && FedFromBelow(w, links, layerOf)
    && Indexed(a, links) && Indexed(b, links) && SameWiring(a, w) && SameWiring(b, w)
  }

  /** `a` and `b` give the same state to each of the neurons `ids`. */
  ghost predicate AgreeOn(a: seq<Neuron>, b: seq<Neuron>, ids: seq<nat>) {
    forall p | 0 <= p < |ids| :: ids[p] < |a| && ids[p] < |b| && a[ids[p]].state == b[ids[p]].state
  }

  /**
   * Firing neurons of layer `k` from two arenas that agree below layer `k`
   * gives arenas that still agree there and also agree on every neuron fired.
   */
  lemma {:induction false} ForwardAllAgrees(w: seq<Neuron>, a: seq<Neuron>, b: seq<Neuron>, links: seq<Link>,
                                            layers: seq<seq<nat>>, layerOf: seq<nat>, ids: seq<nat>, k: nat)
    requires Twins(w, a, b, links, layers, layerOf)
    requires forall p | 0 <= p < |ids| :: ids[p] < |w| && layerOf[ids[p]] == k
    requires AgreeBelow(a, b, layerOf, k)
    ensures AgreeBelow(ForwardAll(a, links, ids), ForwardAll(b, links, ids), layerOf, k)
    ensures AgreeOn(ForwardAll(a, links, ids), ForwardAll(b, links, ids), ids)
    decreases |ids|
  {
    if ids != [] {
      var q := |ids| - 1;
      var pre := ids[..q];
      ForwardAllAgrees(w, a, b, links, layers, layerOf, pre, k);
      var ra, rb := ForwardAll(a, links, pre), ForwardAll(b, links, pre);
      IndexedKept(a, ra, links);
      IndexedKept(b, rb, links);
      SameWiringTrans(ra, a, w);
      SameWiringTrans(rb, b, w);
      ForwardedAgrees(w, ra, rb, links, layers, layerOf, ids, k);
    }
  }

  /**
   * Firing the last neuron `x` of `ids`, of layer `k`, in two arenas that
   * agree below layer `k` and on the rest of `ids` gives it the same state.
   */
  lemma ForwardedAgrees(w: seq<Neuron>, a: seq<Neuron>, b: seq<Neuron>, links: seq<Link>,
                        layers: seq<seq<nat>>, layerOf: seq<nat>, ids: seq<nat>, k: nat)
    requires Twins(w, a, b, links, layers, layerOf)
    requires |ids| > 0 && ids[|ids| - 1] < |w| && layerOf[ids[|ids| - 1]] == k
    requires AgreeBelow(a, b, layerOf, k) && AgreeOn(a, b, ids[..|ids| - 1])
    ensures AgreeBelow(Forwarded(a, links, ids[|ids| - 1]), Forwarded(b, links, ids[|ids| - 1]), layerOf, k)
    ensures AgreeOn(Forwarded(a, links, ids[|ids| - 1]), Forwarded(b, links, ids[|ids| - 1]), ids)
  {
    var q := |ids| - 1;
    var x := ids[q];
    var inputs := w[x].back;
    assert a[x].back == inputs && b[x].back == inputs;
    forall j | 0 <= j < |inputs|
      ensures a[links[inputs[j]].src].state == b[links[inputs[j]].src].state
    {
      assert layerOf[links[inputs[j]].src] < k;
    }
    ActivationAgrees(a, b, links, inputs);
    var fa, fb := Forwarded(a, links, x), Forwarded(b, links, x);
    forall p | 0 <= p < |ids| ensures ids[p] < |fa| && ids[p] < |fb| && fa[ids[p]].state == fb[ids[p]].state {
      if p < q {
        assert ids[p] == ids[..q][p];
      }
    }
  }

  /** Two arenas that agree on the input layer agree below layer `k` once layers 1..k-1 have fired. */
  lemma {:induction false} PropagatedAgrees(w: seq<Neuron>, a: seq<Neuron>, b: seq<Neuron>, links: seq<Link>,
                                            layers: seq<seq<nat>>, layerOf: seq<nat>, k: nat)
    requires Twins(w, a, b, links, layers, layerOf) && 1 <= k <= |layers|
    requires AgreeBelow(a, b, layerOf, 1)
    ensures Members(|a|, layers) && Members(|b|, layers)
    ensures AgreeBelow(Propagated(a, links, layers, k), Propagated(b, links, layers, k), layerOf, k)
    decreases k
  {
    if k > 1 {
      PropagatedAgrees(w, a, b, links, layers, layerOf, k - 1);
      var ra, rb := Propagated(a, links, layers, k - 1), Propagated(b, links, layers, k - 1);
      PropagatedTwins(w, a, b, ra, rb, links, layers, layerOf);
      LayerAgrees(w, ra, rb, links, layers, layerOf, k - 1);
      assert Propagated(a, links, layers, k) == ForwardAll(ra, links, layers[k - 1]);
      assert Propagated(b, links, layers, k) == ForwardAll(rb, links, layers[k - 1]);
    }
  }

  lemma PropagatedTwins(w: seq<Neuron>, a: seq<Neuron>, b: seq<Neuron>, ra: seq<Neuron>, rb: seq<Neuron>,
                        links: seq<Link>, layers: seq<seq<nat>>, layerOf: seq<nat>)
    requires Twins(w, a, b, links, layers, layerOf) && SameWiring(ra, a) && SameWiring(rb, b)
    ensures Twins(w, ra, rb, links, layers, layerOf)
  {
    IndexedKept(a, ra, links);
    IndexedKept(b, rb, links);
  }

  /** Firing layer `k` in two arenas that agree below layer `k` gives arenas that agree below `k + 1`. */
  lemma LayerAgrees(w: seq<Neuron>, a: seq<Neuron>, b: seq<Neuron>, links: seq<Link>,
                    layers: seq<seq<nat>>, layerOf: seq<nat>, k: nat)
    requires Twins(w, a, b, links, layers, layerOf)
    requires k < |layers| && AgreeBelow(a, b, layerOf, k)
    ensures Members(|a|, layers) && Members(|b|, layers)
    ensures AgreeBelow(ForwardAll(a, links, layers[k]), ForwardAll(b, links, layers[k]), layerOf, k + 1)
  {
    ForwardAllAgrees(w, a, b, links, layers, layerOf, layers[k], k);
    AgreeOnLayer(ForwardAll(a, links, layers[k]), ForwardAll(b, links, layers[k]), layers, layerOf, k);
  }

  /** Agreement below layer `k` and on every neuron of layer `k` is agreement below `k + 1`. */
  lemma AgreeOnLayer(a: seq<Neuron>, b: seq<Neuron>, layers: seq<seq<nat>>, layerOf: seq<nat>, k: nat)
    requires Layered(|a|, layers, layerOf) && k < |layers|
    requires AgreeBelow(a, b, layerOf, k)
    requires AgreeOn(a, b, layers[k])
    ensures AgreeBelow(a, b, layerOf, k + 1)
  {
    forall m | 0 <= m < |a| && layerOf[m] == k ensures a[m].state == b[m].state {
      var p :| 0 <= p < |layers[k]| && layers[k][p] == m;
    }
  }

  /**
   * The arena `calc(data)` leaves behind does not depend on the neuron states
   * it started from: it is a function of the wiring, the weights and `data`.
   */
  lemma EvaluationIgnoresStates(a: seq<Neuron>, b: seq<Neuron>, links: seq<Link>,
                                layers: seq<seq<nat>>, layerOf: seq<nat>, data: seq<NeuronState>)
    requires Wired(a, links, layers, layerOf) && SameWiring(a, b)
    requires |layers| > 0 && |data| == |layers[0]|
    ensures Indexed(b, links) && Members(|b|, layers)
    ensures Evaluated(a, links, layers, data) == Evaluated(b, links, layers, data)
  {
    IndexedKept(a, b, links);
    var la, lb := Loaded(a, layers[0], data), Loaded(b, layers[0], data);
    forall m | 0 <= m < |a| && layerOf[m] < 1 ensures la[m].state == lb[m].state {
      var p :| 0 <= p < |layers[0]| && layers[0][p] == m;
    }
    IndexedKept(a, la, links);
    IndexedKept(b, lb, links);
    WiredFedFromBelow(a, links, layers, layerOf);
    SameWiringTrans(lb, b, a);
    PropagatedAgrees(a, la, lb, links, layers, layerOf, |layers|);
    var ea, eb := Evaluated(a, links, layers, data), Evaluated(b, links, layers, data);
    forall m | 0 <= m < |ea| ensures ea[m] == eb[m] {
      assert ea[m].state == eb[m].state;
    }
  }

  /** Running `calc` again with the same input, and no `fit` between, changes nothing. */
  lemma CalcIdempotent(neurons: seq<Neuron>, links: seq<Link>, layers: seq<seq<nat>>, layerOf: seq<nat>,
                       data: seq<NeuronState>)
    requires Wired(neurons, links, layers, layerOf)
    requires |layers| > 0 && |data| == |layers[0]|
    ensures var once := Evaluated(neurons, links, layers, data);
            Indexed(once, links) && Evaluated(once, links, layers, data) == once
  {
    var once := Evaluated(neurons, links, layers, data);
    EvaluationIgnoresStates(neurons, once, links, layers, layerOf, data);
  }

  /** Firing the neurons `ids` leaves every neuron not in `ids` as it was. */
  lemma {:induction false} PropagatedKeeps(neurons: seq<Neuron>, links: seq<Link>, layers: seq<seq<nat>>,
                                           layerOf: seq<nat>, k: nat)
    requires Wired(neurons, links, layers, layerOf) && 1 <= k <= |layers|
    ensures forall m | 0 <= m < |neurons| && layerOf[m] == 0 :: Propagated(neurons, links, layers, k)[m] == neurons[m]
    decreases k
  {
    if k > 1 {
      PropagatedKeeps(neurons, links, layers, layerOf, k - 1);
      var before := Propagated(neurons, links, layers, k - 1);
      forall m | 0 <= m < |neurons| && layerOf[m] == 0 ensures m !in layers[k - 1] {
        var layer := layers[k - 1];
        forall p | 0 <= p < |layer| ensures layer[p] != m {
          assert layerOf[layer[p]] == k - 1;
        }
      }
    }
  }

  /** After `calc(data)` the input layer holds exactly `data`. */
  lemma InputsLoaded(neurons: seq<Neuron>, links: seq<Link>, layers: seq<seq<nat>>, layerOf: seq<nat>,
                     data: seq<NeuronState>)
    requires Wired(neurons, links, layers, layerOf)
    requires |layers| > 0 && |data| == |layers[0]|
    ensures forall p | 0 <= p < |data| :: Evaluated(neurons, links, layers, data)[layers[0][p]].state == data[p]
  {
    var loaded := Loaded(neurons, layers[0], data);
    WiredKept(neurons, loaded, links, layers, layerOf);
    PropagatedKeeps(loaded, links, layers, layerOf, |layers|);
  }

  // ---------------------------------------------------------------------------
  // fit
  // ---------------------------------------------------------------------------

  /** The neurons `outs[p]` whose state differs from `expected[p]`, in order. */
  function Mismatched(neurons: seq<Neuron>, outs: seq<nat>, expected: seq<NeuronState>): (r: seq<nat>)
    requires |outs| == |expected| && Bounded(outs, |neurons|)
    ensures forall q | 0 <= q < |r| :: r[q] in outs
    decreases |outs|
  {
    if outs == [] then []
    else
      var p := |outs| - 1;
      var init := Mismatched(neurons, outs[..p], expected[..p]);
      assert forall q | 0 <= q < |init| :: init[q] in outs;
      init + (if neurons[outs[p]].state != expected[p] then [outs[p]] else [])
  }

  /** With no output listed twice, `Mismatched` holds exactly the outputs that differ from what is expected. */
  lemma {:induction false} MismatchedExactly(neurons: seq<Neuron>, outs: seq<nat>, expected: seq<NeuronState>)
    requires |outs| == |expected| && Bounded(outs, |neurons|) && NoDup(outs)
    ensures forall p | 0 <= p < |outs| ::
      outs[p] in Mismatched(neurons, outs, expected) <==> neurons[outs[p]].state != expected[p]
    decreases |outs|
  {
    if outs != [] {
      var q := |outs| - 1;
      var o, e := outs[..q], expected[..q];
      assert NoDup(o) by {
        forall j, j' | 0 <= j < j' < |o| ensures o[j] != o[j'] {
          assert o[j] == outs[j] && o[j'] == outs[j'];
        }
      }
      MismatchedExactly(neurons, o, e);
      var init := Mismatched(neurons, o, e);
      var last: seq<nat> := if neurons[outs[q]].state != expected[q] then [outs[q]] else [];
      assert Mismatched(neurons, outs, expected) == init + last;
      forall p | 0 <= p < |outs|
        ensures outs[p] in init + last <==> neurons[outs[p]].state != expected[p]
      {
        if p < q {
          assert outs[p] == o[p] && expected[p] == e[p];
          assert outs[p] != outs[q];
        } else {
          forall r | 0 <= r < |init| ensures init[r] != outs[q] {
            var j :| 0 <= j < q && o[j] == init[r];
            assert outs[j] != outs[q];
          }
        }
      }
    }
  }

  /** One more output pair compared. */
  lemma MismatchedStep(neurons: seq<Neuron>, outs: seq<nat>, expected: seq<NeuronState>, p: nat)
    requires |outs| == |expected| && Bounded(outs, |neurons|) && p < |outs|
    ensures Mismatched(neurons, outs[..p + 1], expected[..p + 1])
      == Mismatched(neurons, outs[..p], expected[..p]) + (if neurons[outs[p]].state != expected[p] then [outs[p]] else [])
  {
    var o, e := outs[..p + 1], expected[..p + 1];
    assert o[..p] == outs[..p] && e[..p] == expected[..p];
    assert |o| - 1 == p && o[p] == outs[p] && e[p] == expected[p];
  }

  /** The layers `ls[k..]` concatenated from the top layer down. */
  function FromTop(ls: seq<seq<nat>>, k: nat): seq<nat>
    requires k <= |ls|
    decreases |ls| - k
  {
    if k == |ls| then [] else FromTop(ls, k + 1) + ls[k]
  }

  lemma {:induction false} FromTopBounded(ls: seq<seq<nat>>, count: nat, k: nat)
    requires k <= |ls| && Members(count, ls)
    ensures forall p | 0 <= p < |FromTop(ls, k)| :: FromTop(ls, k)[p] < count
    decreases |ls| - k
  {
    if k < |ls| {
      FromTopBounded(ls, count, k + 1);
    }
  }

  /**
   * The order in which `fit(expected)` runs `back`: the output neurons whose
   * state differs from the expected one (as far as both sequences reach),
   * then every neuron of every other layer, top layer first.
   */
  function FitOrder(neurons: seq<Neuron>, layers: seq<seq<nat>>, expected: seq<NeuronState>): (r: seq<nat>)
    requires |layers| > 0 && Members(|neurons|, layers)
    ensures Bounded(r, |neurons|)
  {
    var top := |layers| - 1;
    var outs := layers[top];
    var m := if |outs| <= |expected| then |outs| else |expected|;
    FromTopBounded(layers[..top], |neurons|, 0);
    Mismatched(neurons, outs[..m], expected[..m]) + FromTop(layers[..top], 0)
  }

  /** The links after `back` on each of the neurons `order`, in order. */
  function ApplyBlames(neurons: seq<Neuron>, links: seq<Link>, order: seq<nat>): (r: seq<Link>)
    requires Indexed(neurons, links) && Bounded(order, |neurons|)
    ensures SameEnds(links, r)
    decreases |order|
  {
    if order == [] then links
    else Blamed(neurons, ApplyBlames(neurons, links, order[..|order| - 1]), order[|order| - 1])
  }

  /** Extending a prefix of `s` by one element. */
  lemma PrefixStep(done: seq<nat>, s: seq<nat>, j: nat)
    requires j < |s|
    ensures done + s[..j + 1] == done + s[..j] + [s[j]]
  {
    assert s[..j + 1] == s[..j] + [s[j]];
  }

  /** Layer `k` follows the layers above it. */
  lemma FromTopStep(done: seq<nat>, ls: seq<seq<nat>>, k: nat)
    requires k <= |ls|
    ensures k < |ls| ==> done + FromTop(ls, k) == done + FromTop(ls, k + 1) + ls[k]
    ensures done + FromTop(ls, |ls|) == done
  {
  }

  /** Every id in `order` names one of `count` neurons. */
  lemma MembersPrefix(count: nat, layers: seq<seq<nat>>, top: nat)
    requires Members(count, layers) && top <= |layers|
    ensures Members(count, layers[..top])
  {
    forall k, j | 0 <= k < top && 0 <= j < |layers[..top][k]| ensures layers[..top][k][j] < count {
      assert layers[..top][k] == layers[k];
    }
  }

  /** Every neuron blamed in the second pass of `fit`, after the outputs `done`, exists. */
  lemma OrderBounded(done: seq<nat>, ls: seq<seq<nat>>, count: nat, k: nat)
    requires (forall p | 0 <= p < |done| :: done[p] < count) && Members(count, ls) && k <= |ls|
    ensures Bounded(done + FromTop(ls, k), count)
  {
    FromTopBounded(ls, count, k);
  }

  /** The whole of a sequence is its longest prefix. */
  lemma WholePrefix<T>(s: seq<T>)
    ensures s[..|s|] == s && s + [] == s
  {
  }

  /** One more `back` at the end of the order. */
  lemma ApplyBlamesStep(neurons: seq<Neuron>, links: seq<Link>, order: seq<nat>, n: nat)
    requires Indexed(neurons, links) && Bounded(order, |neurons|) && n < |neurons|
    ensures Indexed(neurons, ApplyBlames(neurons, links, order))
    ensures ApplyBlames(neurons, links, order + [n]) == Blamed(neurons, ApplyBlames(neurons, links, order), n)
  {
    assert (order + [n])[..|order|] == order;
  }

  /** `order` never goes up a layer. */
  ghost predicate Descending(layerOf: seq<nat>, order: seq<nat>) {
    && (forall p | 0 <= p < |order| :: order[p] < |layerOf|)
    && (forall p, q | 0 <= p < q < |order| :: layerOf[order[p]] >= layerOf[order[q]])
  }

  /**
   * Blaming neurons in an order that never goes up a layer leaves no flag
   * set on any link that leaves a blamed neuron: a later step only flags
   * links into the neuron it blames, and those start in lower layers.
   */
  lemma {:induction false} ApplyBlamesClears(neurons: seq<Neuron>, links: seq<Link>, layerOf: seq<nat>, order: seq<nat>)
    requires Indexed(neurons, links) && Upward(links, layerOf) && Descending(layerOf, order)
    requires Bounded(order, |neurons|)
    ensures forall i | 0 <= i < |links| && links[i].src in order :: !ApplyBlames(neurons, links, order)[i].punish
    decreases |order|
  {
    if order != [] {
      var q := |order| - 1;
      var pre, m := order[..q], order[q];
      assert Descending(layerOf, pre);
      ApplyBlamesClears(neurons, links, layerOf, pre);
      var before := ApplyBlames(neurons, links, pre);
      var after := Blamed(neurons, before, m);
      assert ApplyBlames(neurons, links, order) == after;
      forall i | 0 <= i < |links| && links[i].src in order
        ensures !after[i].punish
      {
        var src := links[i].src;
        if src != m {
          var p :| 0 <= p < |order| && order[p] == src;
          assert p < q && pre[p] == src;
          assert layerOf[src] >= layerOf[m];
          assert before[i].src == src && before[i].dst == links[i].dst;
          assert links[i].dst != m;
        }
      }
    }
  }

  /** `FromTop(ls, k)` descends through the layers `k..` of `ls`. */
  lemma {:induction false} FromTopDescends(ls: seq<seq<nat>>, layerOf: seq<nat>, k: nat)
    requires k <= |ls|
    requires forall k', j | 0 <= k' < |ls| && 0 <= j < |ls[k']| :: ls[k'][j] < |layerOf| && layerOf[ls[k'][j]] == k'
    ensures Descending(layerOf, FromTop(ls, k))
    ensures forall p | 0 <= p < |FromTop(ls, k)| :: k <= layerOf[FromTop(ls, k)[p]] < |ls|
    decreases |ls| - k
  {
    if k < |ls| {
      FromTopDescends(ls, layerOf, k + 1);
      var upper := FromTop(ls, k + 1);
      assert FromTop(ls, k) == upper + ls[k];
      forall p | 0 <= p < |FromTop(ls, k)| ensures FromTop(ls, k)[p] < |layerOf| {
        if p >= |upper| { assert FromTop(ls, k)[p] == ls[k][p - |upper|]; }
      }
    }
  }

  /** `FromTop(ls, k)` lists every neuron of the layers `k..` of `ls`. */
  lemma {:induction false} FromTopCovers(ls: seq<seq<nat>>, layerOf: seq<nat>, k: nat)
    requires k <= |ls|
    requires forall m | 0 <= m < |layerOf| && layerOf[m] < |ls| :: m in ls[layerOf[m]]
    ensures forall m | 0 <= m < |layerOf| && k <= layerOf[m] < |ls| :: m in FromTop(ls, k)
    decreases |ls| - k
  {
    if k < |ls| {
      FromTopCovers(ls, layerOf, k + 1);
      assert FromTop(ls, k) == FromTop(ls, k + 1) + ls[k];
    }
  }

  /** `fit` blames the neurons from the top layer down, never going up a layer. */
  lemma FitOrderDescends(neurons: seq<Neuron>, layers: seq<seq<nat>>, layerOf: seq<nat>, expected: seq<NeuronState>)
    requires Layered(|neurons|, layers, layerOf) && |layers| > 0
    ensures Members(|neurons|, layers)
    ensures Descending(layerOf, FitOrder(neurons, layers, expected))
  {
    var top := |layers| - 1;
    var outs := layers[top];
    var m := if |outs| <= |expected| then |outs| else |expected|;
    var mis := Mismatched(neurons, outs[..m], expected[..m]);
    var upper := layers[..top];
    FromTopDescends(upper, layerOf, 0);
    var rest := FromTop(upper, 0);
    forall q | 0 <= q < |mis| ensures mis[q] < |layerOf| && layerOf[mis[q]] == top {
      var p :| 0 <= p < m && outs[p] == mis[q];
    }
    assert FitOrder(neurons, layers, expected) == mis + rest;
  }

  /** In the order of `fit`, every link's destination comes before its source. */
  lemma FitOrderDownstreamFirst(neurons: seq<Neuron>, links: seq<Link>, layers: seq<seq<nat>>, layerOf: seq<nat>,
                                expected: seq<NeuronState>)
    requires Wired(neurons, links, layers, layerOf) && |layers| > 0
    ensures Members(|neurons|, layers)
    ensures var order := FitOrder(neurons, layers, expected);
      forall i, a, b | 0 <= i < |links| && 0 <= a < |order| && 0 <= b < |order|
                       && order[a] == links[i].dst && order[b] == links[i].src :: a < b
  {
    FitOrderDescends(neurons, layers, layerOf, expected);
  }

  /** `fit` runs `back` on an output neuron exactly when its state differs from the expected one. */
  lemma FitOrderOutputs(neurons: seq<Neuron>, layers: seq<seq<nat>>, layerOf: seq<nat>, expected: seq<NeuronState>)
    requires Layered(|neurons|, layers, layerOf) && |layers| > 0
    ensures Members(|neurons|, layers)
    ensures var outs := layers[|layers| - 1];
      forall p | 0 <= p < |outs| ::
        outs[p] in FitOrder(neurons, layers, expected) <==> p < |expected| && neurons[outs[p]].state != expected[p]
  {
    var top := |layers| - 1;
    var outs := layers[top];
    var m := if |outs| <= |expected| then |outs| else |expected|;
    var mis := Mismatched(neurons, outs[..m], expected[..m]);
    var upper := layers[..top];
    FromTopDescends(upper, layerOf, 0);
    var rest := FromTop(upper, 0);
    assert FitOrder(neurons, layers, expected) == mis + rest;
    assert NoDup(outs[..m]);
    MismatchedExactly(neurons, outs[..m], expected[..m]);
    forall p | 0 <= p < |outs|
      ensures outs[p] in mis + rest <==> p < |expected| && neurons[outs[p]].state != expected[p]
    {
      assert outs[p] !in rest;
      if p >= m {
        assert forall p' | 0 <= p' < m :: outs[..m][p'] != outs[p];
        assert forall q | 0 <= q < |mis| :: mis[q] != outs[p];
      } else {
        assert outs[..m][p] == outs[p];
      }
    }
  }

  /** After `fit`, no link is left flagged. */
  lemma FitClearsFlags(neurons: seq<Neuron>, links: seq<Link>, layers: seq<seq<nat>>, layerOf: seq<nat>,
                       expected: seq<NeuronState>)
    requires Wired(neurons, links, layers, layerOf) && |layers| > 0
    ensures Members(|neurons|, layers)
    ensures forall i | 0 <= i < |links| :: !ApplyBlames(neurons, links, FitOrder(neurons, layers, expected))[i].punish
  {
    var top := |layers| - 1;
    var order := FitOrder(neurons, layers, expected);
    FitOrderDescends(neurons, layers, layerOf, expected);
    ApplyBlamesClears(neurons, links, layerOf, order);
    var upper := layers[..top];
    FromTopCovers(upper, layerOf, 0);
    var outs := layers[top];
    var m := if |outs| <= |expected| then |outs| else |expected|;
    assert order == Mismatched(neurons, outs[..m], expected[..m]) + FromTop(upper, 0);
    forall i | 0 <= i < |links| ensures links[i].src in order {
      assert links[i].src in FromTop(upper, 0);
    }
  }
}
