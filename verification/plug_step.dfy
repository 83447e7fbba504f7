/**
 One tick of `tuned_plug_work_fn`: the on/off switch, the snapshot of the
 online count, the scale-up loop and the scale-down loop. A run of the
 governor is a sequence of ticks.
 */
module PlugStep {
  import opened PlugState
  import opened PlugOps

  /** The inputs of one tick: the value of `tuned_plug_active`, and what the
      policy query returns for each CPU in the scale-up loop and, separately,
      in the scale-down loop (the code queries each CPU once per loop). */
  datatype Tick = Tick(active: bool, upObs: seq<Probe>, downObs: seq<Probe>)

  /** The tick carries one observation per CPU for each loop. */
  predicate TickFits(t: Tick, n: nat)
  {
    |t.upObs| == n && |t.downObs| == n
  }

  /** The scale-up loop from index `i` on: each CPU `i < N-1` that is online
      at the moment it is visited and reports saturation triggers one
      `up_one`. A CPU brought online earlier in the loop is visited too. */
  function UpPhase(g: Governor, obs: seq<Probe>, i: nat): (r: Governor)
    requires g.Valid() && |obs| == |g.online| && i <= |g.online|
    ensures SameShape(g, r)
    ensures BootCpuKept(g, r)
    ensures OnlyBringsUp(g, r)
    decreases |g.online| - i
  {
    if i == |g.online| then g
    else
      var g' := if g.online[i] && i < |g.online| - 1 && Saturated(obs[i]) then UpOne(g) else g;
      UpPhase(g', obs, i + 1)
  }

  /** The scale-down loop from index `i` on: each CPU other than CPU 0 that is
      online at the moment it is visited and reports idling at its floor
      triggers one `down_one` (the `msleep` after it changes no state). */
  function DownPhase(g: Governor, obs: seq<Probe>, i: nat): (r: Governor)
    requires g.Valid() && |obs| == |g.online| && i <= |g.online|
    ensures SameShape(g, r)
    ensures BootCpuKept(g, r)
    ensures OnlyTakesDown(g, r)
    decreases |g.online| - i
  {
    if i == |g.online| then g
    else
      var g' := if i != 0 && g.online[i] && AtFloor(obs[i]) then DownOne(g) else g;
      DownPhase(g', obs, i + 1)
  }

  /** The state the scale-down loop of an active tick starts from: the result
      of the scale-up loop when the snapshot count is below `N`, the state
      itself otherwise. */
  function AfterScaleUp(g: Governor, t: Tick): (r: Governor)
    requires g.Valid() && TickFits(t, |g.online|)
    ensures SameShape(g, r)
    ensures BootCpuKept(g, r)
    ensures OnlyBringsUp(g, r)
    ensures CountOnline(g.online) == |g.online| ==> r == g
  {
    if CountOnline(g.online) < |g.online| then UpPhase(g, t.upObs, 0) else g
  }

  /** One tick of the work function. With the switch off nothing changes;
      otherwise the scale-up loop runs when the snapshot count is below `N`
      and the scale-down loop runs when the snapshot was above 1. */
  function Step(g: Governor, t: Tick): (r: Governor)
    requires g.Valid() && TickFits(t, |g.online|)
    ensures SameShape(g, r)
    ensures BootCpuKept(g, r)
    ensures !t.active ==> r == g
  {
    if !t.active then g
    else
      var g1 := AfterScaleUp(g, t);
      if CountOnline(g.online) > 1 then DownPhase(g1, t.downObs, 0) else g1
  }

  /** Every tick of a run fits `n` CPUs. */
  predicate TicksFit(ticks: seq<Tick>, n: nat)
  {
    forall i :: 0 <= i < |ticks| ==> TickFits(ticks[i], n)
  }

  /** Every tick of a run has the switch off. */
  predicate AllInactive(ticks: seq<Tick>)
  {
    forall i :: 0 <= i < |ticks| ==> !ticks[i].active
  }

  /** The governor after the given ticks, one call of the work function each. */
  function Run(g: Governor, ticks: seq<Tick>): (r: Governor)
    requires g.Valid() && TicksFit(ticks, |g.online|)
    ensures SameShape(g, r)
    ensures BootCpuKept(g, r)
    ensures g.online[0] ==> CountOnline(r.online) >= 1
    ensures AllInactive(ticks) ==> r == g
    decreases |ticks|
  {
    if |ticks| == 0 then g
    else Run(Step(g, ticks[0]), ticks[1..])
  }
}
