# monkeybrain in Dafny

A model of the library crate of monkeybrain (`src/lib.rs`). It is a small
layered network of threshold neurons, trained by a blame-passing rule rather
than by gradient descent. Every neuron is On or Off. `calc` loads an input
pattern into the first layer and fires each later layer in order. A neuron
turns On when the weighted sum of its sources' states reaches 0.5. `fit`
compares the outputs with the expected pattern. Each wrong output runs
`back`, and then every neuron below the output layer runs `back`, top layer
first. `back` nudges weights by 0.02 and flags links whose source should take
part of the blame.

The Rust code shares neurons and links through `Arc<RefCell<..>>`. The model
uses an arena instead:

- `Networks.Network` is a class with four fields: `neurons: seq<Neuron>`,
  `links: seq<Link>`, `layers: seq<seq<nat>>` and a ghost `layerOf`.
  `layers` holds the neuron ids of each layer, input layer first; `layerOf`
  gives the layer of each neuron.
- A neuron's `back` and `forward` lists hold link ids.
- A link records its source `src`, its destination `dst`, its `weight` and
  its `punish` flag (`punish_back` in the source).

The methods of the class change these fields in place, as the source's
methods change the cells. Each method of `calc`, `fit`, `forward` and `back`
is proved against a specification function in `Passes` or `Neurons`:

- `Forwarded` for `forward`;
- `Blamed` for `back`;
- `Evaluated` for `calc`;
- `ApplyBlames(FitOrder)` for `fit`.

The constructor and its loops (`Build`, `AddLayer`, `Connect`) are proved
against predicates instead. `Wired` is the network invariant. `FedInOrder`
says every neuron is fed from all earlier layers in order. `Fresh` says
every neuron is Off and every link carries its drawn weight and no flag.

The properties the library promises are shown as lemmas about those
functions and predicates.

Modules:

- `Neurons` (`neuron.dfy`): the constants, `NeuronState` and its product with
  a weight, and neuron `forward` and `back` on the arena. Some loops of the
  Rust code work on one neuron's links: the sums in `forward` and `back`, and
  the loops of `back` that nudge, pay and clear links. They are methods that
  take and return sequences, and the class method `Back` assigns their result
  to `links`. `Passes.Load` and the loops of `Network::new` (in `Networks`)
  are built the same way.
- `Wiring` (`wiring.dfy`): the network invariant `Wired`. Every link runs
  from a lower layer to a higher one. Each link is listed exactly once by its
  destination (`back`) and once by its source (`forward`). Those lists hold
  nothing else. The `Wiring` lemmas show that one new neuron or link keeps
  the invariant.
- `Passes` (`passes.dfy`): `calc` and `fit` as functions of the arena, and
  the lemmas about them.
- `Networks` (`network.dfy`): the class and the loops of `Network::new`.

## Model

| member | source | states |
|---|---|---|
| Neurons.Mul | src/lib.rs:16-25 | `state * weight` is the weight for On and 0 for Off, i.e. the state read as 1 or 0 times the weight |
| Neurons.SumActivation | src/lib.rs:67-74 | the accumulation loop of `forward` computes `Activation`, the sum over the incoming links of source state times weight |
| Neurons.ActivationMoves | src/lib.rs:69-74 | raising (or lowering) the weights of links from On sources never lowers (or raises) the activation; links from Off sources do not count |
| Neurons.Fired | src/lib.rs:76-80 | the new state is On exactly when the activation is at least `NeuronSensitivity` (0.5) |
| Neurons.Forwarded | src/lib.rs:66-82 | after `forward` on n, n is On iff its activation reaches 0.5; its link lists and every other neuron are unchanged |
| Networks.Network.Forward | src/lib.rs:66-82 | the method sets the state of n as `Forwarded` says, keeps `Indexed`, and leaves links, layers and all other neurons unchanged |
| Neurons.ForwardSums | src/lib.rs:85-97 | the first loop of `back` returns the total weight of the outgoing links and the total weight of the flagged ones |
| Neurons.Exceeds | src/lib.rs:99 | the flagged share `correction / weightSum` exceeds 0.8: for a positive sum iff `correction > 0.8 * weightSum`, for a negative sum iff `correction < 0.8 * weightSum`, and for a zero sum (IEEE division) iff `correction > 0` |
| Neurons.PunishesBack | src/lib.rs:99-101 | a neuron with no outgoing links always punishes back; one with outgoing links but no incoming links never does; otherwise it does exactly when the flagged share exceeds 0.8 |
| Neurons.Nudged | src/lib.rs:106-135 | an incoming link of a neuron that punishes back keeps its end points; its weight is unchanged for an Off source, +0.02 for an On source into an Off neuron, −0.02 for an On source into an On neuron; it becomes flagged when its weight is positive (Off/Off), negative (On/Off), or still positive after the decrease (On/On) |
| Neurons.Settled | src/lib.rs:136-148 | an outgoing link keeps its end points and ends unflagged; it loses 0.02 exactly when its neuron is On, does not punish back and the link was flagged |
| Neurons.PunishLinks | src/lib.rs:103-135 | the incoming-link loops of `back` change exactly the listed links, each as `Nudged` says: Off/On source +0.02, On/On source −0.02 then flagged if still positive, Off/Off flags positive weights, On/Off flags negative weights |
| Neurons.PayFlagged | src/lib.rs:136-142 | an On neuron that does not punish back takes 0.02 off every flagged outgoing link and off no other link |
| Neurons.ClearFlags | src/lib.rs:146-148 | the last loop of `back` clears the flag of every outgoing link and changes nothing else |
| Neurons.Blamed | src/lib.rs:84-149 | `back` keeps every link's end points, leaves every outgoing link unflagged, leaves links not touching n as they were, and moves each weight by 0, +0.02 or −0.02 only |
| Neurons.BackMovesActivation | src/lib.rs:103-142 | `back` never moves the activation of n away from the other state: an Off neuron's activation does not drop, an On neuron's does not rise |
| Networks.Network.Back | src/lib.rs:84-149 | the method leaves neurons and layers unchanged, so no state changes, and sets the links to `Blamed` |
| Networks.Network.constructor | src/lib.rs:158-189 | a wired network with one layer per dimension, each of the given size; every neuron of layer k has exactly one incoming link from each neuron of layers 0..k−1, in layer order, `Total(dims[..k])` of them; all neurons Off; link i has the i-th drawn weight, which lies in [−1, 1], and no flag |
| Networks.Build | src/lib.rs:162-186 | the outer loop yields layers shaped as `dims`, the network invariant, incoming links fed in layer order, and fresh neurons and links |
| Networks.AddLayer | src/lib.rs:163-185 | one pass adds a layer of exactly `count` new Off neurons, which are `Neuron::default`, keeping the network invariant; all earlier neurons are in lower layers |
| Networks.Connect | src/lib.rs:168-180 | the new neuron gets one link from each earlier neuron, in order, registered in both end points' lists, with the next drawn weights and no flag |
| Wiring.FlattenSize | src/lib.rs:168-171 | the flattened earlier layers hold as many neurons as the layer sizes add up to |
| Wiring.WiredBlamable | src/lib.rs:178-179 | in a wired network each neuron's `back` list holds exactly the links ending at it and its `forward` list exactly those starting at it, never its own |
| Passes.Loaded | src/lib.rs:193-197 | loading `data` sets the state of input neuron p to `data[p]`, touches no other neuron and no link list |
| Passes.Load | src/lib.rs:193-197 | the loading loop computes `Loaded` |
| Passes.ForwardAll | src/lib.rs:200-202 | firing a layer changes only the states of that layer's neurons |
| Networks.Network.Fire | src/lib.rs:200-202 | the inner loop of `calc` computes `ForwardAll` of the layer and keeps links and layers |
| Networks.Network.FireLayers | src/lib.rs:199-203 | the outer loop fires layers 1.. in order, i.e. computes `Propagated` up to the last layer |
| Networks.Network.Evaluate | src/lib.rs:192-203 | both loops of `calc` compute `Evaluated` and change no link list |
| Passes.PropagatedKeeps | src/lib.rs:199-203 | firing the later layers never changes an input-layer neuron |
| Passes.Outputs | src/lib.rs:205-208 | one state per output neuron, in the order of the output layer |
| Passes.InputsLoaded | src/lib.rs:191-209 | after `calc(data)` the input layer holds exactly `data` |
| Passes.EvaluationIgnoresStates | src/lib.rs:191-209 | the arena `calc` leaves is the same whatever neuron states it started from |
| Passes.CalcIdempotent | src/lib.rs:191-209 | running `calc` again on the same input, with no `fit` between, changes nothing |
| Networks.Network.Calc | src/lib.rs:191-209 | `calc` keeps the invariant and the links, loads `data` into the input layer, and returns the new states of the output layer, one per output neuron in order |
| Passes.MismatchedExactly | src/lib.rs:212-217 | among distinct outputs, an output is blamed exactly when its state differs from its expected state |
| Networks.Network.BlameIfWrong | src/lib.rs:213-216 | `back` runs on an output neuron exactly when its state is not the expected one |
| Networks.Network.BlameOutputs | src/lib.rs:212-217 | the first pass of `fit` applies `back` to the mismatched outputs, in order |
| Networks.Network.BlameLayer | src/lib.rs:220-223 | `back` on every neuron of one layer, in order |
| Networks.Network.BlameLower | src/lib.rs:219-224 | the second pass applies `back` to every layer below the output layer, top layer first |
| Networks.Network.BlameAll | src/lib.rs:211-225 | both passes together apply `back` in exactly the order `FitOrder` lists |
| Passes.FromTopDescends | src/lib.rs:219 | walking the layers in reverse never goes up a layer |
| Passes.FromTopCovers | src/lib.rs:219-224 | the second pass visits every neuron below the output layer |
| Passes.FitOrderOutputs | src/lib.rs:212-217 | an output neuron is blamed iff it has an expected value and differs from it; matching outputs are skipped |
| Passes.FitOrderDescends | src/lib.rs:211-225 | the order of `fit` never goes up a layer |
| Passes.FitOrderDownstreamFirst | src/lib.rs:211-225 | for every link blamed at both ends, `fit` blames its destination before its source |
| Passes.ApplyBlamesClears | src/lib.rs:146-148 | in an order that never goes up a layer, no link out of a blamed neuron is left flagged |
| Passes.FitClearsFlags | src/lib.rs:211-225 | after `fit` no link is flagged |
| Networks.Network.Fit | src/lib.rs:211-225 | `fit` keeps the invariant, changes no neuron state and no layer, applies `back` in `FitOrder`, and leaves no link flagged |

## Left out

- Floating point: weights and sums are `real`, so IEEE rounding and accumulation order are not modelled. The sums are still formed in the source's link order.
- Division by a zero `weight_sum` in `back`: the code divides anyway. In IEEE arithmetic the quotient is +inf, NaN or −inf, and only +inf exceeds 0.8, so `Neurons.Exceeds` holds at a zero denominator exactly when `correction > 0`. The model follows the code here. It does not follow the stricter reading "a zero sum never punishes".
- `thread_rng`: the random draws are the constructor parameter `weights`, where link i gets `weights(i)`. The constructor requires every value to lie in [−1, 1], the range `gen_range(-1.0..=1.0)` draws from.
- The `read` field of `Neuron`: it is written in `forward` and `calc` but never read. It is left out.
- `Arc`/`RefCell` sharing and borrow panics: the arena replaces the shared cells. The invariant `Wired` rules out the self-links that would make `borrow_mut` panic.
- Networks.Network.Calc: it requires `|data| == |layers[0]|`, the `debug_assert_eq` at line 192, and a non-empty `layers`, because `self.layers[0]` panics without them. In a release build `zip` would truncate a mismatched input; that is not modelled.
- Networks.Network.Fit: it requires a non-empty `layers`, because `self.layers.len() - 1` underflows without one. A length mismatch is modelled as the source handles it: `zip` stops at the shorter sequence.
- Networks.Network.constructor: it accepts every dimension list, as the code does. An empty list or a zero size gives an empty network or an empty layer, not an error.
- `src/main.rs` (the XOR-like training driver and its printing) is not part of this model, and neither are the `Debug`/`Clone` derives.
