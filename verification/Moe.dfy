/** The CPU fallback of the fused mixture-of-experts kernel: expert by expert, masked, in place. */
module Moe {
  import opened Basics

  type Vec = seq<real>

  /** The SwiGLU weights of one expert. */
  datatype Expert = Expert(gate: seq<Vec>, up: seq<Vec>, down: seq<Vec>)

  predicate Shaped(rows: seq<Vec>, n: nat) {
    forall r <- rows :: |r| == n
  }

  /** `torch.nn.functional.linear` without bias, on one row. */
  function Linear(x: Vec, rows: seq<Vec>): (y: Vec)
    requires Shaped(rows, |x|)
    ensures |y| == |rows|
  {
    seq(|rows|, i requires 0 <= i < |rows| => Dot(rows[i], x))
  }

  predicate ExpertShaped(e: Expert, width: nat) {
    && Shaped(e.gate, width) && Shaped(e.up, width) && |e.gate| == |e.up|
    && Shaped(e.down, |e.gate|) && |e.down| == width
  }

  /** `down(silu(gate x) * (up x))` */
  function Output(e: Expert, x: Vec, silu: real -> real): (y: Vec)
    requires ExpertShaped(e, |x|)
    ensures |y| == |x|
  {
    var g, u := Linear(x, e.gate), Linear(x, e.up);
    Linear(seq(|g|, i requires 0 <= i < |g| => silu(g[i]) * u[i]), e.down)
  }

  predicate Inputs(experts: seq<Expert>, weights: seq<Vec>, selected: seq<seq<int>>, hidden: seq<Vec>, width: nat) {
    && (forall i | 0 <= i < |experts| :: ExpertShaped(experts[i], width))
    && |weights| == |selected| == |hidden|
    && forall t | 0 <= t < |hidden| :: |hidden[t]| == width && |weights[t]| == |selected[t]|
  }

  // ------------------------------------------------------------------ the sums

  function Times(x: real, y: real): real {
    x * y
  }

  /** The routing weight of expert `e`: that of every slot selecting it. */
  function Weight(weights: Vec, selected: seq<int>, e: int): real
    requires |weights| == |selected|
  {
    if weights == [] then 0.0
    else (if selected[0] == e then weights[0] else 0.0) + Weight(weights[1..], selected[1..], e)
  }

  /** The weighted outputs of the slots that select an expert below `limit`. */
  function SlotSum(weights: Vec, selected: seq<int>, value: nat -> real, limit: nat): real
    requires |weights| == |selected|
  {
    if weights == [] then 0.0
    else (if 0 <= selected[0] < limit then Times(weights[0], value(selected[0])) else 0.0)
         + SlotSum(weights[1..], selected[1..], value, limit)
  }

  predicate InRange(selected: seq<int>, limit: nat) {
    forall j | 0 <= j < |selected| :: 0 <= selected[j] < limit
  }

  /** The sum over the token's slots of routing weight times the selected expert's output. */
  function TopKSum(weights: Vec, selected: seq<int>, value: nat -> real, limit: nat): real
    requires |weights| == |selected| && InRange(selected, limit)
  {
    if weights == [] then 0.0
    else Times(weights[0], value(selected[0])) + TopKSum(weights[1..], selected[1..], value, limit)
  }

  lemma {:induction false} AddOneExpert(weights: Vec, selected: seq<int>, value: nat -> real, e: nat)
    requires |weights| == |selected|
    ensures SlotSum(weights, selected, value, e + 1)
            == SlotSum(weights, selected, value, e) + Times(value(e), Weight(weights, selected, e))
    decreases |weights|
  {
    if weights == [] {
      TimesZero(value(e));
    } else {
      hide Times;
      AddOneExpert(weights[1..], selected[1..], value, e);
      if selected[0] == e {
        Distribute(value(e), weights[0], Weight(weights[1..], selected[1..], e));
      }
    }
  }

  lemma Distribute(x: real, a: real, b: real)
    ensures Times(x, a + b) == Times(a, x) + Times(x, b)
  {
  }

  lemma TimesZero(x: real)
    ensures Times(x, 0.0) == 0.0
  {
  }

  lemma {:induction false} NotSelected(weights: Vec, selected: seq<int>, e: int)
    requires |weights| == |selected| && e !in selected
    ensures Weight(weights, selected, e) == 0.0
    decreases |weights|
  {
    if weights != [] {
      assert selected[0] in selected;
      NotSelected(weights[1..], selected[1..], e);
    }
  }

  lemma {:induction false} NothingBelowZero(weights: Vec, selected: seq<int>, value: nat -> real)
    requires |weights| == |selected|
    ensures SlotSum(weights, selected, value, 0) == 0.0
    decreases |weights|
  {
    if weights != [] {
      NothingBelowZero(weights[1..], selected[1..], value);
    }
  }

  /** When every selected index is in range, no slot is left out. */
  lemma {:induction false} InRangeSum(weights: Vec, selected: seq<int>, value: nat -> real, limit: nat)
    requires |weights| == |selected| && InRange(selected, limit)
    ensures SlotSum(weights, selected, value, limit) == TopKSum(weights, selected, value, limit)
    decreases |weights|
  {
    if weights != [] {
      hide Times;
      InRangeSum(weights[1..], selected[1..], value, limit);
    }
  }

  // ------------------------------------------------------------------ the loop

  /** Component `h` of each expert's output on token `x`. */
  function Component(experts: seq<Expert>, x: Vec, silu: real -> real, h: nat): nat -> real
    requires (forall i | 0 <= i < |experts| :: ExpertShaped(experts[i], |x|)) && h < |x|
  {
    (e: nat) => if e < |experts| then Output(experts[e], x, silu)[h] else 0.0
  }

  /** The tokens routed to expert `e`: `sel.any(dim=1)`, as positions. */
  function Routed(selected: seq<seq<int>>, e: int, n: nat): (r: seq<nat>)
    requires n <= |selected|
    ensures forall i | 0 <= i < |r| :: r[i] < n && e in selected[r[i]]
    ensures forall t: nat | t < n && e in selected[t] :: t in r
    ensures Increasing(r, n)
  {
    if n == 0 then []
    else Routed(selected, e, n - 1) + (if e in selected[n - 1] then [n - 1] else [])
  }

  predicate Increasing(tok: seq<nat>, n: nat) {
    && (forall i | 0 <= i < |tok| :: tok[i] < n)
    && forall i, j | 0 <= i < j < |tok| :: tok[i] < tok[j]
  }

  /** `out[t] += y * weight` for one row. */
  method AddRow(out: array2<real>, t: nat, y: Vec, weight: real)
    requires t < out.Length0 && |y| == out.Length1
    modifies out
    ensures forall s: nat, h: nat | s < out.Length0 && h < out.Length1 ::
              out[s, h] == if s == t then old(out[s, h]) + Times(y[h], weight) else old(out[s, h])
  {
    hide Times;
    var h := 0;
    while h < out.Length1
      invariant 0 <= h <= out.Length1
      invariant forall s: nat, k: nat | s < out.Length0 && k < out.Length1 ::
                  out[s, k] == if s == t && k < h then old(out[s, k]) + Times(y[k], weight) else old(out[s, k])
    {
      out[t, h] := out[t, h] + Times(y[h], weight);
      h := h + 1;
    }
  }

  /** `out[tok] += y * weight`: row `i` goes to token `tok[i]`, every other row of `out` stays. */
  method Scatter(out: array2<real>, tok: seq<nat>, y: seq<Vec>, weight: seq<real>)
    requires Increasing(tok, out.Length0) && |y| == |weight| == |tok| && Shaped(y, out.Length1)
    modifies out
    ensures forall i: nat, h: nat | i < |tok| && h < out.Length1 ::
              out[tok[i], h] == old(out[tok[i], h]) + Times(y[i][h], weight[i])
    ensures forall t: nat, h: nat | t < out.Length0 && h < out.Length1 && t !in tok :: out[t, h] == old(out[t, h])
  {
    hide Times;
    var i := 0;
    while i < |tok|
      invariant 0 <= i <= |tok|
      invariant forall k: nat, h: nat | k < i && h < out.Length1 ::
                  out[tok[k], h] == old(out[tok[k], h]) + Times(y[k][h], weight[k])
      invariant forall k: nat, h: nat | i <= k < |tok| && h < out.Length1 :: out[tok[k], h] == old(out[tok[k], h])
      invariant forall t: nat, h: nat | t < out.Length0 && h < out.Length1 && t !in tok :: out[t, h] == old(out[t, h])
    {
      assert y[i] in y;
      AddRow(out, tok[i], y[i], weight[i]);
      i := i + 1;
    }
  }

  /** What expert `e` adds to component `h` of token `t`. */
  function Share(experts: seq<Expert>, weights: seq<Vec>, selected: seq<seq<int>>, hidden: seq<Vec>, silu: real -> real,
                 width: nat, e: nat, t: nat, h: nat): real
    requires Inputs(experts, weights, selected, hidden, width) && e < |experts| && t < |hidden| && h < width
  {
    if e in selected[t] then Times(Output(experts[e], hidden[t], silu)[h], Weight(weights[t], selected[t], e)) else 0.0
  }

  /** One pass of the loop: gather the routed tokens, run the expert on them, scatter the weighted rows. */
  method AddExpert(out: array2<real>, experts: seq<Expert>, weights: seq<Vec>, selected: seq<seq<int>>,
                   hidden: seq<Vec>, silu: real -> real, width: nat, e: nat)
    requires Inputs(experts, weights, selected, hidden, width) && e < |experts|
    requires out.Length0 == |hidden| && out.Length1 == width
    modifies out
    ensures forall t: nat, h: nat | t < |hidden| && h < width ::
              out[t, h] == old(out[t, h]) + Share(experts, weights, selected, hidden, silu, width, e, t, h)
  {
    hide Times, Output, Weight, Share, ExpertShaped;
    var tok := Routed(selected, e, |selected|);
    if tok == [] {
      forall t: nat, h: nat | t < |hidden| && h < width
        ensures Share(experts, weights, selected, hidden, silu, width, e, t, h) == 0.0
      {
        NoShare(experts, weights, selected, hidden, silu, width, e, t, h);
      }
      return;
    }
    var y := seq(|tok|, i requires 0 <= i < |tok| => Output(experts[e], hidden[tok[i]], silu));
    var weight := seq(|tok|, i requires 0 <= i < |tok| => Weight(weights[tok[i]], selected[tok[i]], e));
    Scatter(out, tok, y, weight);
    forall t: nat, h: nat | t < |hidden| && h < width
      ensures out[t, h] == old(out[t, h]) + Share(experts, weights, selected, hidden, silu, width, e, t, h)
    {
      if e in selected[t] {
        var i: nat :| i < |tok| && tok[i] == t;
        ShareOf(experts, weights, selected, hidden, silu, width, e, t, h);
        assert out[tok[i], h] == old(out[tok[i], h]) + Times(y[i][h], weight[i]);
      } else {
        NoShare(experts, weights, selected, hidden, silu, width, e, t, h);
      }
    }
  }

  lemma ShareOf(experts: seq<Expert>, weights: seq<Vec>, selected: seq<seq<int>>, hidden: seq<Vec>, silu: real -> real,
                width: nat, e: nat, t: nat, h: nat)
    requires Inputs(experts, weights, selected, hidden, width) && e < |experts| && t < |hidden| && h < width
    requires e in selected[t]
    ensures Share(experts, weights, selected, hidden, silu, width, e, t, h)
            == Times(Output(experts[e], hidden[t], silu)[h], Weight(weights[t], selected[t], e))
  {
  }

  lemma NoShare(experts: seq<Expert>, weights: seq<Vec>, selected: seq<seq<int>>, hidden: seq<Vec>, silu: real -> real,
                width: nat, e: nat, t: nat, h: nat)
    requires Inputs(experts, weights, selected, hidden, width) && e < |experts| && t < |hidden| && h < width
    requires e !in selected[t]
    ensures Share(experts, weights, selected, hidden, silu, width, e, t, h) == 0.0
  {
  }

  /** Component `h` of token `t`, over the slots that select an expert below `limit`. */
  function Routing(experts: seq<Expert>, weights: seq<Vec>, selected: seq<seq<int>>, hidden: seq<Vec>,
                   silu: real -> real, width: nat, limit: nat, t: nat, h: nat): real
    requires Inputs(experts, weights, selected, hidden, width) && t < |hidden| && h < width
  {
    SlotSum(weights[t], selected[t], Component(experts, hidden[t], silu, h), limit)
  }

  lemma RoutingGrows(experts: seq<Expert>, weights: seq<Vec>, selected: seq<seq<int>>, hidden: seq<Vec>,
                     silu: real -> real, width: nat, e: nat, t: nat, h: nat)
    requires Inputs(experts, weights, selected, hidden, width) && e < |experts| && t < |hidden| && h < width
    ensures Routing(experts, weights, selected, hidden, silu, width, e + 1, t, h)
            == Routing(experts, weights, selected, hidden, silu, width, e, t, h)
               + Share(experts, weights, selected, hidden, silu, width, e, t, h)
  {
    hide Times, Output, SlotSum, Weight;
    var value := Component(experts, hidden[t], silu, h);
    AddOneExpert(weights[t], selected[t], value, e);
    if e !in selected[t] {
      NotSelected(weights[t], selected[t], e);
      TimesZero(value(e));
    }
  }

  /** `_torch_forward`: every entry is the weighted sum over the token's slots whose index is in range. */
  method Forward(experts: seq<Expert>, weights: seq<Vec>, selected: seq<seq<int>>, hidden: seq<Vec>,
                 silu: real -> real, width: nat)
    returns (out: array2<real>)
    requires Inputs(experts, weights, selected, hidden, width)
    ensures fresh(out) && out.Length0 == |hidden| && out.Length1 == width
    ensures forall t: nat, h: nat | t < |hidden| && h < width ::
              out[t, h] == Routing(experts, weights, selected, hidden, silu, width, |experts|, t, h)
  {
    hide Share, Routing;
    out := new real[|hidden|, width]((t, h) => 0.0);
    forall t: nat, h: nat | t < |hidden| && h < width
      ensures Routing(experts, weights, selected, hidden, silu, width, 0, t, h) == 0.0
    {
      RoutingStarts(experts, weights, selected, hidden, silu, width, t, h);
    }
    var e := 0;
    while e < |experts|
      invariant 0 <= e <= |experts|
      invariant fresh(out) && out.Length0 == |hidden| && out.Length1 == width
      invariant forall t: nat, h: nat | t < |hidden| && h < width ::
                  out[t, h] == Routing(experts, weights, selected, hidden, silu, width, e, t, h)
    {
      AddExpert(out, experts, weights, selected, hidden, silu, width, e);
      forall t: nat, h: nat | t < |hidden| && h < width
        ensures Routing(experts, weights, selected, hidden, silu, width, e + 1, t, h)
                == Routing(experts, weights, selected, hidden, silu, width, e, t, h)
                   + Share(experts, weights, selected, hidden, silu, width, e, t, h)
      {
        RoutingGrows(experts, weights, selected, hidden, silu, width, e, t, h);
      }
      e := e + 1;
    }
  }

  lemma RoutingStarts(experts: seq<Expert>, weights: seq<Vec>, selected: seq<seq<int>>, hidden: seq<Vec>,
                      silu: real -> real, width: nat, t: nat, h: nat)
    requires Inputs(experts, weights, selected, hidden, width) && t < |hidden| && h < width
    ensures Routing(experts, weights, selected, hidden, silu, width, 0, t, h) == 0.0
  {
    NothingBelowZero(weights[t], selected[t], Component(experts, hidden[t], silu, h));
  }

  /** With every index in range the loop computes, for every token, the top-k sum. */
  lemma RoutingIsTopK(experts: seq<Expert>, weights: seq<Vec>, selected: seq<seq<int>>, hidden: seq<Vec>,
                      silu: real -> real, width: nat, t: nat, h: nat)
    requires Inputs(experts, weights, selected, hidden, width) && t < |hidden| && h < width
    requires InRange(selected[t], |experts|)
    ensures Routing(experts, weights, selected, hidden, silu, width, |experts|, t, h)
            == TopKSum(weights[t], selected[t], Component(experts, hidden[t], silu, h), |experts|)
  {
    InRangeSum(weights[t], selected[t], Component(experts, hidden[t], silu, h), |experts|);
  }

  // ------------------------------------------------------------------ the mixture, slot by slot

  /** Weight times value, summed over the first `n` slots whose index is below `limit`. */
  ghost function Mixture(weights: Vec, selected: seq<int>, value: nat -> real, limit: nat, n: nat): real
    requires n <= |weights| == |selected|
  {
    if n == 0 then 0.0
    else
      Mixture(weights, selected, value, limit, n - 1)
      + if 0 <= selected[n - 1] < limit then weights[n - 1] * value(selected[n - 1]) else 0.0
  }

  lemma {:induction false} SlotSumIs(weights: Vec, selected: seq<int>, value: nat -> real, limit: nat)
    requires |weights| == |selected|
    ensures SlotSum(weights, selected, value, limit) == Mixture(weights, selected, value, limit, |weights|)
    decreases |weights|
  {
    if weights != [] {
      SlotSumIs(weights[1..], selected[1..], value, limit);
      MixtureShifts(weights, selected, value, limit, |weights| - 1);
    }
  }

  lemma {:induction false} MixtureShifts(weights: Vec, selected: seq<int>, value: nat -> real, limit: nat, n: nat)
    requires n < |weights| == |selected|
    ensures Mixture(weights, selected, value, limit, n + 1) ==
            (if 0 <= selected[0] < limit then weights[0] * value(selected[0]) else 0.0)
            + Mixture(weights[1..], selected[1..], value, limit, n)
  {
    if n > 0 {
      MixtureShifts(weights, selected, value, limit, n - 1);
    }
  }

  /** The gated activations of an expert on `x`. */
  ghost predicate Gated(e: Expert, x: Vec, silu: real -> real, g: Vec)
    requires ExpertShaped(e, |x|)
  {
    |g| == |e.gate| && forall i | 0 <= i < |g| :: g[i] == silu(Dot(e.gate[i], x)) * Dot(e.up[i], x)
  }

  /** An expert puts its gated activations through its down weights: only the gate goes through `silu`. */
  lemma OutputIs(e: Expert, x: Vec, silu: real -> real, g: Vec, h: nat)
    requires ExpertShaped(e, |x|) && h < |x| && Gated(e, x, silu, g)
    ensures Output(e, x, silu)[h] == Dot(e.down[h], g)
  {
    hide Dot;
    var gate, up := Linear(x, e.gate), Linear(x, e.up);
    var gated := seq(|gate|, i requires 0 <= i < |gate| => silu(gate[i]) * up[i]);
    forall i | 0 <= i < |g| ensures gated[i] == g[i] {
      assert gate[i] == Dot(e.gate[i], x) && up[i] == Dot(e.up[i], x);
    }
    assert gated == g;
    assert Output(e, x, silu) == Linear(g, e.down);
  }

  /**
   * Every entry that the loop computes is the sum, over the token's slots whose index is in range, of the
   * slot's weight times the selected expert's output on the token.
   */
  lemma RoutingIsMixture(experts: seq<Expert>, weights: seq<Vec>, selected: seq<seq<int>>, hidden: seq<Vec>,
                         silu: real -> real, width: nat, t: nat, h: nat, value: nat -> real)
    requires Inputs(experts, weights, selected, hidden, width) && t < |hidden| && h < width
    requires forall e: nat | e < |experts| :: value(e) == Output(experts[e], hidden[t], silu)[h]
    ensures Routing(experts, weights, selected, hidden, silu, width, |experts|, t, h)
            == Mixture(weights[t], selected[t], value, |experts|, |weights[t]|)
  {
    SlotSumIs(weights[t], selected[t], Component(experts, hidden[t], silu, h), |experts|);
    SameMixture(weights[t], selected[t], Component(experts, hidden[t], silu, h), value, |experts|, |weights[t]|);
  }

  lemma {:induction false} SameMixture(weights: Vec, selected: seq<int>, u: nat -> real, v: nat -> real, limit: nat,
                                       n: nat)
    requires n <= |weights| == |selected| && forall e: nat | e < limit :: u(e) == v(e)
    ensures Mixture(weights, selected, u, limit, n) == Mixture(weights, selected, v, limit, n)
  {
    if n > 0 {
      SameMixture(weights, selected, u, v, limit, n - 1);
    }
  }
}
