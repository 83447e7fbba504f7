/**
 Properties of the tuned_plug governor: what each helper changes, the
 invariants every tick keeps (CPU 0 untouched, counters bounded, online
 CPUs packed at the low indices), when the loops act at all, and the
 hysteresis of `down_one`.
 */
module PlugProperties {
  import opened PlugState
  import opened PlugOps
  import opened PlugStep

  // ---------------------------------------------------------------------
  // The helpers
  // ---------------------------------------------------------------------

  /** `up_one` brings at most one CPU online: exactly one when some CPU in
      `1 .. N-1` is offline, none otherwise. */
  lemma {:induction false} UpOneBringsUpOne(g: Governor)
    requires g.Valid()
    ensures CountOnline(UpOne(g).online)
         == CountOnline(g.online) + (if AllOnlineAbove0(g.online) then 0 else 1)
  {
    var r := UpOne(g);
    if !AllOnlineAbove0(g.online) {
      var k := LowestOfflineExists(g.online);
      assert r.online == g.online[k := true];
      CountOnlineUpdate(g.online, k, true);
    }
  }

  /** `down_one` takes at most one CPU offline, and only the top online CPU
      whose counter is above the threshold. */
  lemma {:induction false} DownOneTakesDownOne(g: Governor)
    requires g.Valid()
    ensures CountOnline(g.online) <= CountOnline(DownOne(g).online) + 1
    ensures forall j :: 0 <= j < |g.online| && g.online[j] && !DownOne(g).online[j] ==>
              IsTopOnline(g.online, j) && g.downcpu[j] > DownThreshold
  {
    var r := DownOne(g);
    if !NoneOnlineAbove0(g.online) {
      var k := TopOnlineExists(g.online);
      if g.downcpu[k] > DownThreshold {
        assert r.online == g.online[k := false];
        CountOnlineUpdate(g.online, k, false);
      } else {
        assert r.online == g.online;
      }
    }
  }

  /** `down_one` keeps every counter within `CounterCeiling`: it increments
      only a counter that is at most `DownThreshold`. */
  lemma {:induction false} DownOneBounded(g: Governor)
    requires g.Valid() && CountersBounded(g)
    ensures CountersBounded(DownOne(g))
  {
    if !NoneOnlineAbove0(g.online) {
      var k := TopOnlineExists(g.online);
    }
  }

  /** With CPU 0 online and the online CPUs packed at the low indices,
      `up_one` brings up the CPU just above the packed range, so the online
      CPUs stay packed. */
  lemma {:induction false} UpOneContiguous(g: Governor)
    requires g.Valid() && g.online[0] && Contiguous(g.online)
    ensures Contiguous(UpOne(g).online)
  {
    var r := UpOne(g);
    if !AllOnlineAbove0(g.online) {
      var k := LowestOfflineExists(g.online);
      assert r.online == g.online[k := true];
      forall j, m | 0 <= j < m < |r.online| && r.online[m]
        ensures r.online[j]
      {
        if m != k && j != k {
          assert g.online[m];
        }
      }
    }
  }

  /** `down_one` takes down the top online CPU, so packed online CPUs stay
      packed: CPUs go offline in descending index order. */
  lemma {:induction false} DownOneContiguous(g: Governor)
    requires g.Valid() && Contiguous(g.online)
    ensures Contiguous(DownOne(g).online)
  {
    var r := DownOne(g);
    if !NoneOnlineAbove0(g.online) {
      var k := TopOnlineExists(g.online);
      if g.downcpu[k] > DownThreshold {
        assert r.online == g.online[k := false];
      } else {
        assert r.online == g.online;
      }
    }
  }

  // ---------------------------------------------------------------------
  // The two loops of one tick
  // ---------------------------------------------------------------------

  /** Without a saturated observation for an online CPU below `N-1`, the
      scale-up loop calls `up_one` not once and changes nothing: until the
      first `up_one` the loop sees the starting mask. */
  lemma {:induction false} UpPhaseQuiet(g: Governor, obs: seq<Probe>, i: nat)
    requires g.Valid() && |obs| == |g.online| && i <= |g.online|
    requires forall j :: i <= j < |g.online| - 1 && g.online[j] ==> !Saturated(obs[j])
    ensures UpPhase(g, obs, i) == g
    decreases |g.online| - i
  {
    if i < |g.online| {
      UpPhaseQuiet(g, obs, i + 1);
    }
  }

  /** Without an at-floor observation for an online CPU other than CPU 0,
      the scale-down loop calls `down_one` not once and changes nothing. */
  lemma {:induction false} DownPhaseQuiet(g: Governor, obs: seq<Probe>, i: nat)
    requires g.Valid() && |obs| == |g.online| && i <= |g.online|
    requires forall j :: i <= j < |g.online| && j != 0 && g.online[j] ==> !AtFloor(obs[j])
    ensures DownPhase(g, obs, i) == g
    decreases |g.online| - i
  {
    if i < |g.online| {
      DownPhaseQuiet(g, obs, i + 1);
    }
  }

  /** One saturated online CPU `w < N-1` that the loop still has to visit is
      enough: if some CPU in `1 .. N-1` is offline, the loop ends with more
      CPUs online than it started with. */
  lemma {:induction false} UpPhaseResponsive(g: Governor, obs: seq<Probe>, i: nat, w: nat)
    requires g.Valid() && |obs| == |g.online|
    requires i <= w < |g.online| - 1 && g.online[w] && Saturated(obs[w])
    requires !AllOnlineAbove0(g.online)
    ensures CountOnline(g.online) < CountOnline(UpPhase(g, obs, i).online)
    decreases |g.online| - i
  {
    var r := UpPhase(g, obs, i);
    if g.online[i] && i < |g.online| - 1 && Saturated(obs[i]) {
      var g' := UpOne(g);
      UpOneBringsUpOne(g);
      CountOnlineMonotone(g'.online, r.online);
    } else {
      assert i != w;
      UpPhaseResponsive(g, obs, i + 1, w);
    }
  }

  /** The number of saturated observations the scale-up loop from index `i`
      can act on: CPUs `i .. N-2` that are online in the mask `online`. The
      loop only brings CPUs online, and a CPU that triggers is online when it
      is visited, so with the mask the loop ends with this counts every
      observation it reads. */
  function UpTriggersOn(online: seq<bool>, obs: seq<Probe>, i: nat): nat
    requires |obs| == |online|
    decreases |obs| - i
  {
    if i + 1 >= |obs| then 0
    else (if online[i] && Saturated(obs[i]) then 1 else 0) + UpTriggersOn(online, obs, i + 1)
  }

  /** The number of at-floor observations the scale-down loop from index `i`
      can act on: CPUs `i .. N-1` other than CPU 0 that are online in the
      mask `online`. The loop never brings a CPU online, so with the mask it
      starts from this counts every observation it can read. */
  function DownTriggersOn(online: seq<bool>, obs: seq<Probe>, i: nat): nat
    requires |obs| == |online|
    decreases |obs| - i
  {
    if i >= |obs| then 0
    else (if i != 0 && online[i] && AtFloor(obs[i]) then 1 else 0) + DownTriggersOn(online, obs, i + 1)
  }

  /** A mask with fewer online CPUs gives no more triggers. */
  lemma {:induction false} DownTriggersOnMonotone(a: seq<bool>, b: seq<bool>, obs: seq<Probe>, i: nat)
    requires |a| == |b| == |obs|
    requires forall j :: 0 <= j < |a| && a[j] ==> b[j]
    ensures DownTriggersOn(a, obs, i) <= DownTriggersOn(b, obs, i)
    decreases |obs| - i
  {
    if i < |obs| {
      DownTriggersOnMonotone(a, b, obs, i + 1);
    }
  }

  /** Each `up_one` of the scale-up loop brings at most one CPU online, so the
      loop adds at most one online CPU per saturated observation it reads:
      observations of CPUs that stay offline throughout count for nothing. */
  lemma {:induction false} UpPhaseAtMostOnePerTrigger(g: Governor, obs: seq<Probe>, i: nat)
    requires g.Valid() && |obs| == |g.online| && i <= |g.online|
    ensures CountOnline(UpPhase(g, obs, i).online)
         <= CountOnline(g.online) + UpTriggersOn(UpPhase(g, obs, i).online, obs, i)
    decreases |g.online| - i
  {
    if i < |g.online| {
      var r := UpPhase(g, obs, i);
      if g.online[i] && i < |g.online| - 1 && Saturated(obs[i]) {
        var g' := UpOne(g);
        assert r == UpPhase(g', obs, i + 1);
        assert r.online[i];
        UpOneBringsUpOne(g);
        UpPhaseAtMostOnePerTrigger(g', obs, i + 1);
      } else {
        assert r == UpPhase(g, obs, i + 1);
        UpPhaseAtMostOnePerTrigger(g, obs, i + 1);
      }
    }
  }

  /** When CPUs `0 .. i` are online and every CPU from `i` to `N-2` reports
      saturation, the scale-up loop from `i` ends with every CPU online: CPU
      `i+1` is online before the loop visits it, because it was online already
      or it is the lowest offline CPU, which `up_one` brings up. */
  lemma {:induction false} UpPhaseFillsUp(g: Governor, obs: seq<Probe>, i: nat)
    requires g.Valid() && |obs| == |g.online| && i < |g.online|
    requires forall j :: 0 <= j <= i ==> g.online[j]
    requires forall j :: i <= j < |g.online| - 1 ==> Saturated(obs[j])
    ensures forall j :: 0 <= j < |g.online| ==> UpPhase(g, obs, i).online[j]
    decreases |g.online| - i
  {
    if i == |g.online| - 1 {
      assert UpPhase(g, obs, i) == UpPhase(g, obs, i + 1) == g;
    } else {
      var g' := UpOne(g);
      assert UpPhase(g, obs, i) == UpPhase(g', obs, i + 1);
      if !AllOnlineAbove0(g.online) {
        var k := LowestOfflineExists(g.online);
        assert i < k;
        assert g'.online[i + 1];
      }
      UpPhaseFillsUp(g', obs, i + 1);
    }
  }

  /** Each `down_one` of the scale-down loop takes at most one CPU offline, so
      the loop removes at most one online CPU per at-floor observation of a
      CPU other than CPU 0 that is online when the loop starts. */
  lemma {:induction false} DownPhaseAtMostOnePerTrigger(g: Governor, obs: seq<Probe>, i: nat)
    requires g.Valid() && |obs| == |g.online| && i <= |g.online|
    ensures CountOnline(g.online)
         <= CountOnline(DownPhase(g, obs, i).online) + DownTriggersOn(g.online, obs, i)
    decreases |g.online| - i
  {
    if i < |g.online| {
      var g' := if i != 0 && g.online[i] && AtFloor(obs[i]) then DownOne(g) else g;
      DownOneTakesDownOne(g);
      DownPhaseAtMostOnePerTrigger(g', obs, i + 1);
      DownTriggersOnMonotone(g'.online, g.online, obs, i + 1);
    }
  }

  /** Every `down_one` of the scale-down loop bumps the counter of the top
      online CPU `k`, whichever CPU was observed at its floor: while `k`'s
      counter stays within `CounterCeiling`, the loop adds to it the number of
      triggers and changes nothing else. */
  lemma {:induction false} DownPhaseBumpsTop(g: Governor, obs: seq<Probe>, i: nat, k: nat)
    requires g.Valid() && |obs| == |g.online| && i <= |g.online|
    requires IsTopOnline(g.online, k)
    requires g.downcpu[k] + DownTriggersOn(g.online, obs, i) <= CounterCeiling
    ensures DownPhase(g, obs, i)
         == g.(downcpu := g.downcpu[k := g.downcpu[k] + DownTriggersOn(g.online, obs, i)])
    decreases |g.online| - i, 1
  {
    if i == |g.online| {
      assert g.downcpu[k := g.downcpu[k]] == g.downcpu;
    } else if i != 0 && g.online[i] && AtFloor(obs[i]) {
      DownPhaseBumpsTopTrigger(g, obs, i, k);
    } else {
      DownPhaseBumpsTopSkip(g, obs, i, k);
    }
  }

  /** `DownPhaseBumpsTop` at a CPU that triggers `down_one`. */
  lemma {:induction false} DownPhaseBumpsTopTrigger(g: Governor, obs: seq<Probe>, i: nat, k: nat)
    requires g.Valid() && |obs| == |g.online| && i < |g.online|
    requires i != 0 && g.online[i] && AtFloor(obs[i])
    requires IsTopOnline(g.online, k)
    requires g.downcpu[k] + DownTriggersOn(g.online, obs, i) <= CounterCeiling
    ensures DownPhase(g, obs, i)
         == g.(downcpu := g.downcpu[k := g.downcpu[k] + DownTriggersOn(g.online, obs, i)])
    decreases |g.online| - i, 0
  {
    var n := DownTriggersOn(g.online, obs, i);
    var b := g.(downcpu := g.downcpu[k := g.downcpu[k] + 1]);
    DownOneBumpsTop(g, k);
    DownPhaseBumpsTop(b, obs, i + 1, k);
    UpdateTwice(g.downcpu, k, g.downcpu[k] + 1, g.downcpu[k] + n);
  }

  /** `DownPhaseBumpsTop` at a CPU that does not trigger `down_one`. */
  lemma {:induction false} DownPhaseBumpsTopSkip(g: Governor, obs: seq<Probe>, i: nat, k: nat)
    requires g.Valid() && |obs| == |g.online| && i < |g.online|
    requires !(i != 0 && g.online[i] && AtFloor(obs[i]))
    requires IsTopOnline(g.online, k)
    requires g.downcpu[k] + DownTriggersOn(g.online, obs, i) <= CounterCeiling
    ensures DownPhase(g, obs, i)
         == g.(downcpu := g.downcpu[k := g.downcpu[k] + DownTriggersOn(g.online, obs, i)])
    decreases |g.online| - i, 0
  {
    DownPhaseBumpsTop(g, obs, i + 1, k);
  }

  /** Writing the same index twice keeps only the second write. */
  lemma UpdateTwice(s: seq<nat>, k: nat, a: nat, b: nat)
    requires k < |s|
    ensures s[k := a][k := b] == s[k := b]
  {
  }

  /** The scale-down loop keeps every counter within `CounterCeiling`. */
  lemma {:induction false} DownPhaseBounded(g: Governor, obs: seq<Probe>, i: nat)
    requires g.Valid() && |obs| == |g.online| && i <= |g.online|
    requires CountersBounded(g)
    ensures CountersBounded(DownPhase(g, obs, i))
    decreases |g.online| - i
  {
    if i < |g.online| {
      var g' := if i != 0 && g.online[i] && AtFloor(obs[i]) then DownOne(g) else g;
      DownOneBounded(g);
      DownPhaseBounded(g', obs, i + 1);
    }
  }

  /** The scale-up loop keeps CPU 0 online and the online CPUs packed. */
  lemma {:induction false} UpPhaseContiguous(g: Governor, obs: seq<Probe>, i: nat)
    requires g.Valid() && |obs| == |g.online| && i <= |g.online|
    requires g.online[0] && Contiguous(g.online)
    ensures Contiguous(UpPhase(g, obs, i).online)
    decreases |g.online| - i
  {
    if i < |g.online| {
      var g' := if g.online[i] && i < |g.online| - 1 && Saturated(obs[i]) then UpOne(g) else g;
      UpOneContiguous(g);
      UpPhaseContiguous(g', obs, i + 1);
    }
  }

  /** The scale-down loop keeps the online CPUs packed. */
  lemma {:induction false} DownPhaseContiguous(g: Governor, obs: seq<Probe>, i: nat)
    requires g.Valid() && |obs| == |g.online| && i <= |g.online|
    requires Contiguous(g.online)
    ensures Contiguous(DownPhase(g, obs, i).online)
    decreases |g.online| - i
  {
    if i < |g.online| {
      var g' := if i != 0 && g.online[i] && AtFloor(obs[i]) then DownOne(g) else g;
      DownOneContiguous(g);
      DownPhaseContiguous(g', obs, i + 1);
    }
  }

  // ---------------------------------------------------------------------
  // One tick
  // ---------------------------------------------------------------------

  /** No CPU comes online in a tick unless the snapshot count was below `N`
      and some CPU below `N-1`, online at the start of the tick, reported
      saturation. */
  lemma StepNeedsSaturation(g: Governor, t: Tick)
    requires g.Valid() && TickFits(t, |g.online|)
    requires || CountOnline(g.online) == |g.online|
             || forall j :: 0 <= j < |g.online| - 1 && g.online[j] ==> !Saturated(t.upObs[j])
    ensures forall j :: 0 <= j < |g.online| && Step(g, t).online[j] ==> g.online[j]
  {
    if t.active {
      if CountOnline(g.online) < |g.online| {
        UpPhaseQuiet(g, t.upObs, 0);
      }
    }
  }

  /** No CPU goes offline in a tick unless the snapshot count was above 1
      and some CPU other than CPU 0 reported idling at its floor while online
      in the state the scale-down loop starts from. */
  lemma StepNeedsFloor(g: Governor, t: Tick)
    requires g.Valid() && TickFits(t, |g.online|)
    requires || CountOnline(g.online) <= 1
             || forall j :: 1 <= j < |g.online| && AfterScaleUp(g, t).online[j] ==>
                  !AtFloor(t.downObs[j])
    ensures forall j :: 0 <= j < |g.online| && g.online[j] ==> Step(g, t).online[j]
  {
    if t.active {
      var g1 := AfterScaleUp(g, t);
      if CountOnline(g.online) > 1 {
        DownPhaseQuiet(g1, t.downObs, 0);
      }
    }
  }

  /** An active tick in which an online CPU below `N-1` reports saturation,
      while some CPU in `1 .. N-1` is offline and no CPU online after the
      scale-up loop reports idling at its floor, ends with more CPUs online
      than it started with. */
  lemma StepResponsive(g: Governor, t: Tick, w: nat)
    requires g.Valid() && TickFits(t, |g.online|) && t.active
    requires w < |g.online| - 1 && g.online[w] && Saturated(t.upObs[w])
    requires !AllOnlineAbove0(g.online)
    requires forall j :: 1 <= j < |g.online| && AfterScaleUp(g, t).online[j] ==>
               !AtFloor(t.downObs[j])
    ensures CountOnline(g.online) < CountOnline(Step(g, t).online)
  {
    var k := LowestOfflineExists(g.online);
    CountOnlineBelowLength(g.online, k);
    UpPhaseResponsive(g, t.upObs, 0, w);
    var g1 := UpPhase(g, t.upObs, 0);
    if CountOnline(g.online) > 1 {
      DownPhaseQuiet(g1, t.downObs, 0);
    }
  }

  /** A tick keeps every counter within `CounterCeiling`. */
  lemma StepBounded(g: Governor, t: Tick)
    requires g.Valid() && TickFits(t, |g.online|) && CountersBounded(g)
    ensures CountersBounded(Step(g, t))
  {
    if t.active {
      var g1 := AfterScaleUp(g, t);
      DownPhaseBounded(g1, t.downObs, 0);
    }
  }

  /** A tick keeps CPU 0 online and the online CPUs packed at the low
      indices. */
  lemma StepContiguous(g: Governor, t: Tick)
    requires g.Valid() && TickFits(t, |g.online|)
    requires g.online[0] && Contiguous(g.online)
    ensures Step(g, t).online[0] && Contiguous(Step(g, t).online)
  {
    if t.active {
      var g1 := AfterScaleUp(g, t);
      UpPhaseContiguous(g, t.upObs, 0);
      DownPhaseContiguous(g1, t.downObs, 0);
    }
  }

  // ---------------------------------------------------------------------
  // Runs of many ticks
  // ---------------------------------------------------------------------

  /** Over any run, every counter stays within `CounterCeiling` (so a 32-bit
      counter never wraps). */
  lemma {:induction false} RunBounded(g: Governor, ticks: seq<Tick>)
    requires g.Valid() && TicksFit(ticks, |g.online|) && CountersBounded(g)
    ensures CountersBounded(Run(g, ticks))
    decreases |ticks|
  {
    if |ticks| > 0 {
      StepBounded(g, ticks[0]);
      assert TicksFit(ticks[1..], |g.online|);
      RunBounded(Step(g, ticks[0]), ticks[1..]);
    }
  }

  /** Over any run, the online CPUs stay packed at the low indices: CPUs come
      online in ascending and go offline in descending index order. */
  lemma {:induction false} RunContiguous(g: Governor, ticks: seq<Tick>)
    requires g.Valid() && TicksFit(ticks, |g.online|)
    requires g.online[0] && Contiguous(g.online)
    ensures Contiguous(Run(g, ticks).online)
    decreases |ticks|
  {
    if |ticks| > 0 {
      StepContiguous(g, ticks[0]);
      assert TicksFit(ticks[1..], |g.online|);
      RunContiguous(Step(g, ticks[0]), ticks[1..]);
    }
  }

  // ---------------------------------------------------------------------
  // Hysteresis of down_one
  // ---------------------------------------------------------------------

  /** `m` consecutive calls of `down_one`. */
  function DownOneTimes(g: Governor, m: nat): (r: Governor)
    requires g.Valid()
    ensures SameShape(g, r)
    decreases m
  {
    if m == 0 then g else DownOne(DownOneTimes(g, m - 1))
  }

  /** While the top online CPU's counter stays within `CounterCeiling`, each
      call of `down_one` adds one to it and changes nothing else. */
  lemma {:induction false} DownOneBumps(g: Governor, k: nat, m: nat)
    requires g.Valid() && IsTopOnline(g.online, k)
    requires g.downcpu[k] + m <= CounterCeiling
    ensures DownOneTimes(g, m) == g.(downcpu := g.downcpu[k := g.downcpu[k] + m])
    decreases m
  {
    if m == 0 {
      DownOneBumpsNone(g, k);
    } else {
      DownOneBumps(g, k, m - 1);
      DownOneBumpsStep(g, k, m, DownOneTimes(g, m - 1));
    }
  }

  /** The inductive step of `DownOneBumps`: one more call of `down_one` on
      the state after `m - 1` calls adds one more to the top CPU's counter. */
  lemma DownOneBumpsStep(g: Governor, k: nat, m: nat, h: Governor)
    requires g.Valid() && IsTopOnline(g.online, k)
    requires 1 <= m && g.downcpu[k] + m <= CounterCeiling
    requires h == g.(downcpu := g.downcpu[k := g.downcpu[k] + (m - 1)])
    ensures DownOne(h) == g.(downcpu := g.downcpu[k := g.downcpu[k] + m])
  {
    DownOneBumpsTop(h, k);
    assert h.downcpu[k := h.downcpu[k] + 1] == g.downcpu[k := g.downcpu[k] + m];
  }

  /** Zero calls of `down_one` leave the state as it is. */
  lemma DownOneBumpsNone(g: Governor, k: nat)
    requires g.Valid() && k < |g.online|
    ensures DownOneTimes(g, 0) == g.(downcpu := g.downcpu[k := g.downcpu[k] + 0])
  {
    assert g.downcpu[k := g.downcpu[k]] == g.downcpu;
  }

  /** A call of `down_one` that finds the top online CPU's counter at most
      the threshold adds one to it and changes nothing else. */
  lemma DownOneBumpsTop(h: Governor, k: nat)
    requires h.Valid() && IsTopOnline(h.online, k) && h.downcpu[k] <= DownThreshold
    ensures DownOne(h) == h.(downcpu := h.downcpu[k := h.downcpu[k] + 1])
  {
  }

  /** A call of `down_one` that finds the top online CPU's counter above the
      threshold takes exactly that CPU offline and resets its counter. */
  lemma DownOneRetiresTop(h: Governor, k: nat)
    requires h.Valid() && IsTopOnline(h.online, k) && h.downcpu[k] > DownThreshold
    ensures DownOne(h) == h.(online := h.online[k := false], downcpu := h.downcpu[k := 0])
  {
  }

  /** A top online CPU whose counter is `m` short of `CounterCeiling` goes
      offline on the `(m + 1)`-th consecutive call of `down_one`, with its
      counter reset and every other CPU untouched. */
  lemma DownOneRetires(g: Governor, k: nat, m: nat)
    requires g.Valid() && IsTopOnline(g.online, k) && g.downcpu[k] + m == CounterCeiling
    ensures DownOneTimes(g, m + 1)
            == g.(online := g.online[k := false], downcpu := g.downcpu[k := 0])
  {
    DownOneBumps(g, k, m);
    var h := g.(downcpu := g.downcpu[k := CounterCeiling]);
    DownOneRetiresTop(h, k);
    assert h.downcpu[k := 0] == g.downcpu[k := 0];
  }

  /** A top online CPU whose counter starts at 0 stays online for the first
      31 calls of `down_one`, its counter counting them, and goes offline on
      the 32nd, with its counter reset and every other CPU untouched. */
  lemma DownOneHysteresis(g: Governor, k: nat)
    requires g.Valid() && IsTopOnline(g.online, k) && g.downcpu[k] == 0
    ensures forall m :: 0 <= m <= CounterCeiling ==>
              DownOneTimes(g, m).online[k] && DownOneTimes(g, m).downcpu[k] == m
    ensures var r := DownOneTimes(g, CounterCeiling + 1);
            !r.online[k] && r.downcpu[k] == 0 && FrameExcept(g, r, k)
  {
    forall m | 0 <= m <= CounterCeiling
      ensures DownOneTimes(g, m).online[k] && DownOneTimes(g, m).downcpu[k] == m
    {
      DownOneBumps(g, k, m);
    }
    DownOneRetires(g, k, CounterCeiling);
  }

  // ---------------------------------------------------------------------
  // Concrete ticks
  // ---------------------------------------------------------------------

  /** One tick can bring up several CPUs: with CPU 0 alone online and every
      CPU saturated, the first `up_one` brings CPU 1 online, which the same
      loop then visits and which triggers a second `up_one` for CPU 2. */
  lemma SeveralUpsInOneTick()
    ensures var sat := Policy(1000, 300, 1000);
            Step(Governor([true, false, false], [5, 7, 9]),
                 Tick(true, [sat, sat, sat], [Unavailable, Unavailable, Unavailable]))
            == Governor([true, true, true], [5, 0, 0])
  {
    var sat := Policy(1000, 300, 1000);
    var g := Governor([true, false, false], [5, 7, 9]);
    UpPhaseFillsUp(g, [sat, sat, sat], 0);
  }

  /** With every CPU of four idling at its floor, one tick calls `down_one`
      three times, and all three calls bump the counter of CPU 3, the top
      online CPU, rather than the counters of the CPUs observed idle. */
  lemma IdleTickBumpsTopOnly()
    ensures var idle := Policy(300, 300, 1000);
            Step(Governor([true, true, true, true], [0, 0, 0, 0]),
                 Tick(true, [idle, idle, idle, idle], [idle, idle, idle, idle]))
            == Governor([true, true, true, true], [0, 0, 0, 3])
  {
    var idle := Policy(300, 300, 1000);
    var obs := [idle, idle, idle, idle];
    var g := Governor([true, true, true, true], [0, 0, 0, 0]);
    assert CountOnline(g.online) == 4;
    assert IsTopOnline(g.online, 3);
    assert AtFloor(idle);
    assert DownTriggersOn(g.online, obs, 4) == 0;
    assert DownTriggersOn(g.online, obs, 3) == 1;
    assert DownTriggersOn(g.online, obs, 2) == 2;
    assert DownTriggersOn(g.online, obs, 1) == 3;
    assert DownTriggersOn(g.online, obs, 0) == 3;
    DownPhaseBumpsTop(g, obs, 0, 3);
  }
}
