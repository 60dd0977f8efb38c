/**
 * Binary neurons, weighted links and the two local rules that act on them:
 * forward activation and the backward blame ("punish") step of src/lib.rs.
 *
 * Neurons and links live in an arena: a neuron names its incoming (`back`)
 * and outgoing (`forward`) links by their index in a sequence of links, and a
 * link names its two end points by their index in a sequence of neurons.
 */
module Neurons {

  /** Share of flagged outgoing weight above which a neuron passes blame on. */
  const PunishBackPercent: real := 0.8
  /** Fixed nudge added to a link weight. */
  const WeightIncreaseRate: real := 0.02
  /** Fixed nudge subtracted from a link weight. */
  const WeightDecreaseRate: real := 0.02
  /** Activation at or above which a neuron turns On. */
  const NeuronSensitivity: real := 0.5

  datatype NeuronState = On | Off

  /** The numeric reading of a state: On is 1, Off is 0. */
  function Bit(s: NeuronState): real {
    if s == On then 1.0 else 0.0
  }

  /** `state * weight`: a weight passes through an On neuron and is blocked by an Off one. */
  function Mul(s: NeuronState, w: real): (r: real)
    ensures r == Bit(s) * w
    ensures s == On ==> r == w
    ensures s == Off ==> r == 0.0
  {
    match s
    case On => w
    case Off => 0.0
  }

  /** A directed link from neuron `src` to neuron `dst`. */
  datatype Link = Link(src: nat, dst: nat, weight: real, punish: bool)

  /** A neuron: its state, and the indices of its incoming and outgoing links. */
  datatype Neuron = Neuron(state: NeuronState, back: seq<nat>, forward: seq<nat>)

  /** Every index stored in the arena points at an existing neuron or link. */
  ghost predicate Indexed(neurons: seq<Neuron>, links: seq<Link>) {
    && (forall i | 0 <= i < |links| :: links[i].src < |neurons| && links[i].dst < |neurons|)
    && (forall n, j | 0 <= n < |neurons| && 0 <= j < |neurons[n].back| :: neurons[n].back[j] < |links|)
    && (forall n, j | 0 <= n < |neurons| && 0 <= j < |neurons[n].forward| :: neurons[n].forward[j] < |links|)
  }

  /** The links `ids` exist and start at existing neurons. */
  ghost predicate Reaches(neurons: seq<Neuron>, links: seq<Link>, ids: seq<nat>) {
    forall j | 0 <= j < |ids| :: ids[j] < |links| && links[ids[j]].src < |neurons|
  }

  ghost predicate InRange(links: seq<Link>, ids: seq<nat>) {
    forall j | 0 <= j < |ids| :: ids[j] < |links|
  }

  ghost predicate NoDup<T>(s: seq<T>) {
    forall j, j' | 0 <= j < j' < |s| :: s[j] != s[j']
  }

  /** `b` holds the same links as `a`, up to weights and flags. */
  ghost predicate SameEnds(a: seq<Link>, b: seq<Link>) {
    |a| == |b| && forall i | 0 <= i < |a| :: a[i].src == b[i].src && a[i].dst == b[i].dst
  }

  /**
   * Neuron `n` lists each of its incoming links once in `back`, each of its
   * outgoing links once in `forward`, and no link runs from `n` to itself.
   */
  ghost predicate Attached(neurons: seq<Neuron>, links: seq<Link>, n: nat)
    requires n < |neurons|
  {
    && NoDup(neurons[n].back) && NoDup(neurons[n].forward)
    && forall i | 0 <= i < |links| ::
      && (i in neurons[n].back <==> links[i].dst == n)
      && (i in neurons[n].forward <==> links[i].src == n)
      && (links[i].dst == n ==> links[i].src != n)
  }

  /** `back` may run on every neuron: the arena is indexed and every neuron attached to its links. */
  ghost predicate Blamable(neurons: seq<Neuron>, links: seq<Link>) {
    Indexed(neurons, links) && forall n | 0 <= n < |neurons| :: Attached(neurons, links, n)
  }

  /** Attachment depends only on the end points of the links. */
  lemma BlamableKept(neurons: seq<Neuron>, a: seq<Link>, b: seq<Link>, n: nat)
    requires Blamable(neurons, a) && SameEnds(a, b) && n < |neurons|
    ensures Indexed(neurons, b) && Attached(neurons, b, n)
  {
    assert Attached(neurons, a, n);
    forall i | 0 <= i < |b|
      ensures (i in neurons[n].back <==> b[i].dst == n) && (i in neurons[n].forward <==> b[i].src == n)
    {
      assert b[i].src == a[i].src && b[i].dst == a[i].dst;
    }
  }

  // ---------------------------------------------------------------------------
  // Forward activation (Neuron::forward)
  // ---------------------------------------------------------------------------

  /** Sum over the links `ids` of the source's state times the link's weight. */
  function Activation(neurons: seq<Neuron>, links: seq<Link>, ids: seq<nat>): real
    requires Reaches(neurons, links, ids)
    decreases |ids|
  {
    if ids == [] then 0.0
    else
      var last := links[ids[|ids| - 1]];
      Activation(neurons, links, ids[..|ids| - 1]) + Mul(neurons[last.src].state, last.weight)
  }

  /** The loop of `forward` that accumulates `state_sum`. */
  method SumActivation(neurons: seq<Neuron>, links: seq<Link>, ids: seq<nat>) returns (stateSum: real)
    requires Reaches(neurons, links, ids)
    ensures stateSum == Activation(neurons, links, ids)
  {
    stateSum := 0.0;
    for j := 0 to |ids|
      invariant stateSum == Activation(neurons, links, ids[..j])
    {
      var link := links[ids[j]];
      stateSum := stateSum + Mul(neurons[link.src].state, link.weight);
      assert ids[..j + 1][..j] == ids[..j];
    }
    assert ids[..|ids|] == ids;
  }

  /** The state `forward` gives neuron `n`: On iff its activation reaches the sensitivity. */
  function Fired(neurons: seq<Neuron>, links: seq<Link>, n: nat): (s: NeuronState)
    requires n < |neurons| && Reaches(neurons, links, neurons[n].back)
    ensures s == On <==> Activation(neurons, links, neurons[n].back) >= NeuronSensitivity
  {
    if Activation(neurons, links, neurons[n].back) >= NeuronSensitivity then On else Off
  }

  /** The arena after `forward` on neuron `n`: only the state of `n` changes. */
  function Forwarded(neurons: seq<Neuron>, links: seq<Link>, n: nat): (r: seq<Neuron>)
    requires n < |neurons| && Reaches(neurons, links, neurons[n].back)
    ensures |r| == |neurons|
    ensures r[n].back == neurons[n].back && r[n].forward == neurons[n].forward
    ensures r[n].state == On <==> Activation(neurons, links, neurons[n].back) >= NeuronSensitivity
    ensures forall m | 0 <= m < |neurons| && m != n :: r[m] == neurons[m]
  {
    neurons[n := neurons[n].(state := Fired(neurons, links, n))]
  }

  // ---------------------------------------------------------------------------
  // Backward blame step (Neuron::back)
  // ---------------------------------------------------------------------------

  /** `weight_sum`: the total weight of the links `ids`. */
  function WeightSum(links: seq<Link>, ids: seq<nat>): real
    requires InRange(links, ids)
    decreases |ids|
  {
    if ids == [] then 0.0
    else WeightSum(links, ids[..|ids| - 1]) + links[ids[|ids| - 1]].weight
  }

  /** `correction_weight`: the total weight of those links `ids` that are flagged. */
  function CorrectionWeight(links: seq<Link>, ids: seq<nat>): real
    requires InRange(links, ids)
    decreases |ids|
  {
    if ids == [] then 0.0
    else
      var last := links[ids[|ids| - 1]];
      CorrectionWeight(links, ids[..|ids| - 1]) + (if last.punish then last.weight else 0.0)
  }

  /** The first loop of `back`, over the outgoing links. */
  method ForwardSums(links: seq<Link>, ids: seq<nat>) returns (weightSum: real, correction: real)
    requires InRange(links, ids)
    ensures weightSum == WeightSum(links, ids)
    ensures correction == CorrectionWeight(links, ids)
  {
    weightSum, correction := 0.0, 0.0;
    for j := 0 to |ids|
      invariant weightSum == WeightSum(links, ids[..j])
      invariant correction == CorrectionWeight(links, ids[..j])
    {
      var link := links[ids[j]];
      weightSum := weightSum + link.weight;
      if link.punish {
        correction := correction + link.weight;
      }
      assert ids[..j + 1][..j] == ids[..j];
    }
    assert ids[..|ids|] == ids;
  }

  /**
   * `correction / weightSum > PunishBackPercent`. The source divides even when
   * `weightSum` is zero; the IEEE quotient is then +inf, NaN or -inf as
   * `correction` is positive, zero or negative, and only +inf exceeds the
   * threshold, so at a zero denominator the comparison holds iff `correction > 0`.
   */
  function Exceeds(correction: real, weightSum: real): (r: bool)
    ensures weightSum == 0.0 ==> (r <==> correction > 0.0)
    ensures weightSum > 0.0 ==> (r <==> correction > PunishBackPercent * weightSum)
    ensures weightSum < 0.0 ==> (r <==> correction < PunishBackPercent * weightSum)
  {
    if weightSum == 0.0 then correction > 0.0
    else correction / weightSum > PunishBackPercent
  }

  /** `punish_back`: whether neuron `me` passes blame to its incoming links. */
  function PunishesBack(me: Neuron, weightSum: real, correction: real): (r: bool)
    ensures me.forward == [] ==> r
    ensures me.forward != [] && me.back == [] ==> !r
    ensures me.forward != [] && me.back != [] ==> (r <==> Exceeds(correction, weightSum))
  {
    (Exceeds(correction, weightSum) && me.back != []) || me.forward == []
  }

  /** The decision `back` makes for neuron `n`, from the weights and flags of its outgoing links. */
  function ShouldPunishBack(neurons: seq<Neuron>, links: seq<Link>, n: nat): bool
    requires n < |neurons| && InRange(links, neurons[n].forward)
  {
    var me := neurons[n];
    PunishesBack(me, WeightSum(links, me.forward), CorrectionWeight(links, me.forward))
  }

  /**
   * An incoming link `l` of a neuron in state `own` that punishes back, whose
   * source is in state `source`: Off/Off flags a positive weight, Off/On
   * strengthens the link, On/Off flags a negative weight, and On/On weakens the
   * link and flags it if its weight is still positive.
   */
  function Nudged(own: NeuronState, source: NeuronState, l: Link): (r: Link)
    ensures r.src == l.src && r.dst == l.dst
    ensures source == Off ==> r.weight == l.weight
    ensures source == On && own == Off ==> r.weight == l.weight + WeightIncreaseRate
    ensures source == On && own == On ==> r.weight == l.weight - WeightDecreaseRate
    ensures r.punish <==> l.punish || match (own, source)
      case (Off, Off) => l.weight > 0.0
      case (On, Off) => l.weight < 0.0
      case (On, On) => r.weight > 0.0
      case (Off, On) => false
  {
    match (own, source)
    case (Off, Off) => if l.weight > 0.0 then l.(punish := true) else l
    case (Off, On) => l.(weight := l.weight + WeightIncreaseRate)
    case (On, Off) => if l.weight < 0.0 then l.(punish := true) else l
    case (On, On) =>
      var w := l.weight - WeightDecreaseRate;
      if w > 0.0 then l.(weight := w, punish := true) else l.(weight := w)
  }

  /**
   * An outgoing link `l` of a neuron in state `own`: an On neuron that does
   * not punish back pays for every flagged outgoing link; the flag is then
   * cleared in every case.
   */
  function Settled(own: NeuronState, punishBack: bool, l: Link): (r: Link)
    ensures r.src == l.src && r.dst == l.dst && !r.punish
    ensures own == On && !punishBack && l.punish ==> r.weight == l.weight - WeightDecreaseRate
    ensures own == Off || punishBack || !l.punish ==> r.weight == l.weight
  {
    var w := if own == On && !punishBack && l.punish then l.weight - WeightDecreaseRate else l.weight;
    l.(weight := w, punish := false)
  }

  /**
   * The loop of `back` over the incoming links `ids` of a neuron in state
   * `own` that punishes back: each link is nudged or flagged as `Nudged` says.
   */
  method PunishLinks(neurons: seq<Neuron>, links: seq<Link>, ids: seq<nat>, own: NeuronState) returns (r: seq<Link>)
    requires Reaches(neurons, links, ids) && NoDup(ids)
    ensures |r| == |links|
    ensures forall i | 0 <= i < |links| ::
      r[i] == if i in ids then Nudged(own, neurons[links[i].src].state, links[i]) else links[i]
  {
    r := links;
    match own {
      case Off =>
        for j := 0 to |ids|
          invariant |r| == |links|
          invariant forall i | 0 <= i < |r| ::
            r[i] == if i in ids[..j] then Nudged(Off, neurons[links[i].src].state, links[i]) else links[i]
        {
          var id := ids[j];
          assert id !in ids[..j];
          var link := r[id];
          match neurons[link.src].state {
            case Off =>
              if link.weight > 0.0 {
                r := r[id := link.(punish := true)];
              }
            case On =>
              r := r[id := link.(weight := link.weight + WeightIncreaseRate)];
          }
          assert ids[..j + 1] == ids[..j] + [id];
        }
      case On =>
        for j := 0 to |ids|
          invariant |r| == |links|
          invariant forall i | 0 <= i < |r| ::
            r[i] == if i in ids[..j] then Nudged(On, neurons[links[i].src].state, links[i]) else links[i]
        {
          var id := ids[j];
          assert id !in ids[..j];
          var link := r[id];
          match neurons[link.src].state {
            case Off =>
              if link.weight < 0.0 {
                r := r[id := link.(punish := true)];
              }
            case On =>
              var w := link.weight - WeightDecreaseRate;
              r := r[id := link.(weight := w)];
              if w > 0.0 {
                r := r[id := r[id].(punish := true)];
              }
          }
          assert ids[..j + 1] == ids[..j] + [id];
        }
    }
    assert ids[..|ids|] == ids;
  }

  /**
   * The loop of `back` over the outgoing links `ids` of an On neuron that does
   * not punish back: every flagged link loses `WeightDecreaseRate`.
   */
  method PayFlagged(links: seq<Link>, ids: seq<nat>) returns (r: seq<Link>)
    requires InRange(links, ids) && NoDup(ids)
    ensures |r| == |links|
    ensures forall i | 0 <= i < |links| ::
      r[i] == if i in ids && links[i].punish then links[i].(weight := links[i].weight - WeightDecreaseRate) else links[i]
  {
    r := links;
    for j := 0 to |ids|
      invariant |r| == |links|
      invariant forall i | 0 <= i < |r| ::
        r[i] == if i in ids[..j] && links[i].punish then links[i].(weight := links[i].weight - WeightDecreaseRate) else links[i]
    {
      var id := ids[j];
      assert id !in ids[..j];
      if r[id].punish {
        r := r[id := r[id].(weight := r[id].weight - WeightDecreaseRate)];
      }
      assert ids[..j + 1] == ids[..j] + [id];
    }
    assert ids[..|ids|] == ids;
  }

  /** The last loop of `back`: the flags of the outgoing links `ids` are cleared. */
  method ClearFlags(links: seq<Link>, ids: seq<nat>) returns (r: seq<Link>)
    requires InRange(links, ids)
    ensures |r| == |links|
    ensures forall i | 0 <= i < |links| :: r[i] == if i in ids then links[i].(punish := false) else links[i]
  {
    r := links;
    for j := 0 to |ids|
      invariant |r| == |links|
      invariant forall i | 0 <= i < |r| :: r[i] == if i in ids[..j] then links[i].(punish := false) else links[i]
    {
      var id := ids[j];
      r := r[id := r[id].(punish := false)];
      assert ids[..j + 1] == ids[..j] + [id];
    }
    assert ids[..|ids|] == ids;
  }

  /** The links after `back` on neuron `n`. */
  function Blamed(neurons: seq<Neuron>, links: seq<Link>, n: nat): (r: seq<Link>)
    requires Indexed(neurons, links) && n < |neurons|
    ensures |r| == |links|
    ensures SameEnds(links, r)
    ensures forall i | 0 <= i < |links| && links[i].src == n :: !r[i].punish
    ensures forall i | 0 <= i < |links| && links[i].src != n && links[i].dst != n :: r[i] == links[i]
    ensures forall i | 0 <= i < |links| ::
      || r[i].weight == links[i].weight
      || r[i].weight == links[i].weight + WeightIncreaseRate
      || r[i].weight == links[i].weight - WeightDecreaseRate
  {
    var me := neurons[n];
    var punishBack := ShouldPunishBack(neurons, links, n);
    seq(|links|, i requires 0 <= i < |links| =>
      if links[i].src == n then Settled(me.state, punishBack, links[i])
      else if links[i].dst == n && punishBack then Nudged(me.state, neurons[links[i].src].state, links[i])
      else links[i])
  }

  /**
   * Raising (`up`) or lowering (`!up`) the weights of the links whose source
   * is On raises or lowers the activation; weights of links from Off sources
   * do not count.
   */
  lemma {:induction false} ActivationMoves(neurons: seq<Neuron>, a: seq<Link>, b: seq<Link>, ids: seq<nat>, up: bool)
    requires Reaches(neurons, a, ids) && |b| == |a|
    requires forall j | 0 <= j < |ids| :: b[ids[j]].src == a[ids[j]].src
    requires forall j | 0 <= j < |ids| :: neurons[a[ids[j]].src].state == On ==>
      if up then b[ids[j]].weight >= a[ids[j]].weight else b[ids[j]].weight <= a[ids[j]].weight
    ensures Reaches(neurons, b, ids)
    ensures if up then Activation(neurons, b, ids) >= Activation(neurons, a, ids)
            else Activation(neurons, b, ids) <= Activation(neurons, a, ids)
    decreases |ids|
  {
    if ids != [] {
      var q := |ids| - 1;
      ActivationMoves(neurons, a, b, ids[..q], up);
      var i := ids[q];
      assert b[i].src == a[i].src;
    }
  }

  /**
   * `back` on neuron `n` never moves its activation away from the other
   * state: the activation of an Off neuron does not drop and that of an On
   * neuron does not rise.
   */
  lemma BackMovesActivation(neurons: seq<Neuron>, links: seq<Link>, n: nat)
    requires Indexed(neurons, links) && n < |neurons| && Attached(neurons, links, n)
    ensures var after, ids := Blamed(neurons, links, n), neurons[n].back;
      && Reaches(neurons, links, ids) && Reaches(neurons, after, ids)
      && (neurons[n].state == Off ==> Activation(neurons, after, ids) >= Activation(neurons, links, ids))
      && (neurons[n].state == On ==> Activation(neurons, after, ids) <= Activation(neurons, links, ids))
  {
    var after, ids := Blamed(neurons, links, n), neurons[n].back;
    var own := neurons[n].state;
    forall j | 0 <= j < |ids|
      ensures neurons[links[ids[j]].src].state == On ==>
        if own == Off then after[ids[j]].weight >= links[ids[j]].weight else after[ids[j]].weight <= links[ids[j]].weight
    {
      var i := ids[j];
      assert i in neurons[n].back;
      assert links[i].dst == n && links[i].src != n;
    }
    ActivationMoves(neurons, links, after, ids, own == Off);
  }
}
