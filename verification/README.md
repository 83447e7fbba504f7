# tuned_plug hotplug governor — a Dafny model

`tuned_plug` is a small CPU hotplug driver for MSM kernels. Every 50 ms a work
item looks at the cpufreq policy of each online CPU. The online count is taken
once, at the start of the tick, and it gates two loops:

- When that count is below `NR_CPUS`, each online CPU below `NR_CPUS-1` that
  runs at its maximum frequency triggers one call of `up_one`. That call brings
  the lowest offline CPU above 0 online, if there is one.
- When that count is above 1, each online CPU other than CPU 0 that idles at
  its minimum frequency triggers one call of `down_one`. That helper works on
  the highest online CPU above 0. It debounces with a per-CPU counter
  (`downcpu[]`) and takes that CPU offline only when its counter exceeds 30.

This project models the decision logic of `arch/arm/mach-msm/tuned_plug.c` as
pure functions over an immutable state:

- `PlugState` (`plug_state.dfy`) holds the state and the observations.
  - `Governor` is the online mask plus the `downcpu` counters, one entry per
    CPU `0 .. N-1`. `N` stands for `NR_CPUS`.
  - `Probe` is the result of one `cpufreq_get_policy` query: `Unavailable`, or
    `Policy(cur, min, max)`.
  - `Saturated` and `AtFloor` are the two tests the work function applies to a
    probe.
  - The module also holds the predicates the properties are stated with, and
    small counting lemmas about `num_online_cpus`.
- `PlugOps` (`plug_ops.dfy`) holds `DownOne` and `UpOne`, the models of
  `down_one` and `up_one`. `DownScan` and `UpScan` are their loops.
- `PlugStep` (`plug_step.dfy`) models one run of `tuned_plug_work_fn`.
  - `UpPhase` and `DownPhase` are its two `for_each_online_cpu` loops. Each
    visits the indices in ascending order and tests the live online flag at
    every index.
  - `Step` models the whole call: the `tuned_plug_active` switch, the snapshot
    of the online count, then the two loops.
  - `Run` applies one `Step` per tick.
- `PlugProperties` (`plug_properties.dfy`) holds the lemmas: frame conditions,
  invariants, when each loop acts, the hysteresis of `down_one`, and two
  concrete ticks.

Behaviour of the code that the model keeps as written:

- `down_one` increments the counter of the highest online CPU, not the counter
  of the CPU observed idle. While that CPU's counter stays at most 31, so that
  no CPU goes offline during the tick, one tick therefore adds the number of
  its triggers to the top CPU's counter (`DownPhaseBumpsTop`). With four CPUs
  all idle, one tick bumps CPU 3's counter three times
  (`IdleTickBumpsTopOnly`). Once a call takes the top CPU offline, the later
  calls of the same tick work on the next online CPU down.
- A CPU's counter is never reset when the CPU runs above its minimum. Only
  `down_one` taking the CPU offline and `up_one` bringing it online reset it.
- One tick can bring up several CPUs. Each saturated CPU below `N-1` that is
  online when the loop visits it calls `up_one`, which brings a CPU online only
  while some CPU in `1 .. N-1` is offline (`UpPhaseAtMostOnePerTrigger`). A
  CPU brought online earlier in the same loop is visited too when its index is
  above the loop's current index. That is always the case when the online
  CPUs form a prefix of the indices with CPU 0 online. `RunContiguous` shows
  that the governor keeps such a prefix a prefix, provided nothing else
  changes the online mask. With CPUs `0 .. i` online and every CPU from `i`
  on saturated, the loop brings every CPU online (`UpPhaseFillsUp`,
  `SeveralUpsInOneTick`).
- Both loops are gated by the online count taken once, before the scale-up
  loop runs.
- `cpu_up` and `cpu_down` are modelled as setting and clearing the online flag.
  The counter is reset whatever they return, as in the code.

## Model

| member | source | states |
|---|---|---|
| PlugOps.DownOne | arch/arm/mach-msm/tuned_plug.c:31-45 | `down_one` acts only on the top online CPU above 0: above 30 it goes offline with its counter at 0, otherwise its counter grows by one; every other CPU, and CPU 0, is unchanged; with no online CPU above 0 nothing changes; it never brings a CPU online or lowers the counter of a CPU that stays online |
| PlugOps.UpOne | arch/arm/mach-msm/tuned_plug.c:46-56 | `up_one` brings exactly the lowest offline CPU in `1 .. N-1` online with counter 0 and touches nothing else; with all of them online the state is unchanged; CPU 0 is never touched |
| PlugStep.UpPhase | arch/arm/mach-msm/tuned_plug.c:70-76 | the scale-up loop only brings CPUs online, each with counter 0; every other flag and counter, and CPU 0, is unchanged |
| PlugStep.DownPhase | arch/arm/mach-msm/tuned_plug.c:80-87 | the scale-down loop only takes CPUs offline, each with counter 0; counters of CPUs that stay online never shrink, so they are not reset when a CPU is busy; offline CPUs and CPU 0 are untouched |
| PlugStep.AfterScaleUp | arch/arm/mach-msm/tuned_plug.c:67-77 | the state the scale-down loop starts from differs from the tick's starting state only by CPUs brought online with counter 0, and equals it when the snapshot count is already `N` |
| PlugStep.Step | arch/arm/mach-msm/tuned_plug.c:64-88 | one tick keeps CPU 0 untouched, and with `tuned_plug_active` off it leaves every flag and counter unchanged |
| PlugStep.Run | arch/arm/mach-msm/tuned_plug.c:31-65 | over any sequence of ticks CPU 0's flag and counter are untouched, because `down_one` stops above index 0 and `up_one` starts at 1, so a governor that starts with CPU 0 online never has zero CPUs online; ticks with the switch off change nothing |
| PlugProperties.UpOneBringsUpOne | arch/arm/mach-msm/tuned_plug.c:46-56 | `up_one` raises the online count by exactly one when a CPU in `1 .. N-1` is offline, and by zero otherwise |
| PlugProperties.DownOneTakesDownOne | arch/arm/mach-msm/tuned_plug.c:31-45 | `down_one` lowers the online count by at most one, and a CPU it takes down was the top online CPU with a counter above 30 |
| PlugProperties.DownOneBounded | arch/arm/mach-msm/tuned_plug.c:35-40 | `down_one` keeps every counter at most 31, since it increments only a counter that is at most 30 |
| PlugProperties.UpOneContiguous | arch/arm/mach-msm/tuned_plug.c:46-56 | with CPU 0 online and the online CPUs forming a prefix of the indices, they still form a prefix after `up_one` |
| PlugProperties.DownOneContiguous | arch/arm/mach-msm/tuned_plug.c:31-45 | online CPUs that form a prefix still form a prefix after `down_one`, so CPUs go offline in descending order |
| PlugProperties.UpPhaseQuiet | arch/arm/mach-msm/tuned_plug.c:70-76 | if no CPU that is online and below `N-1` reports `cur >= max` with both nonzero, the scale-up loop changes nothing; failed queries contribute nothing |
| PlugProperties.DownPhaseQuiet | arch/arm/mach-msm/tuned_plug.c:80-87 | if no online CPU other than CPU 0 reports `cur <= min` with both nonzero, the scale-down loop changes nothing; CPU 0 and failed queries are skipped |
| PlugProperties.UpPhaseResponsive | arch/arm/mach-msm/tuned_plug.c:69-76 | one online CPU below `N-1` reporting `cur >= max > 0` is enough: if a CPU in `1 .. N-1` is offline, the loop ends with more CPUs online |
| PlugProperties.UpPhaseAtMostOnePerTrigger | arch/arm/mach-msm/tuned_plug.c:70-76 | the scale-up loop may call `up_one` several times, but it adds at most one online CPU per saturated observation of a CPU below `N-1` that is online when the loop ends; observations of CPUs that stay offline are never read |
| PlugProperties.UpPhaseFillsUp | arch/arm/mach-msm/tuned_plug.c:46-76 | with CPUs `0 .. i` online and every CPU from `i` to `N-2` saturated, the scale-up loop from `i` brings every CPU online, because CPU `i+1` is online before the loop visits it: it was online already, or it is the lowest offline CPU, which `up_one` brings up |
| PlugProperties.DownPhaseAtMostOnePerTrigger | arch/arm/mach-msm/tuned_plug.c:80-87 | the scale-down loop removes at most one online CPU per at-floor observation of a CPU other than CPU 0 that is online when the loop starts; observations of offline CPUs are never read |
| PlugProperties.DownPhaseBumpsTop | arch/arm/mach-msm/tuned_plug.c:80-87 | for any inputs, while the top online CPU's counter stays at most 31, the scale-down loop adds the number of its triggers to that CPU's counter and changes nothing else, so the CPUs observed idle keep their counters |
| PlugProperties.DownPhaseBounded | arch/arm/mach-msm/tuned_plug.c:79-88 | the scale-down loop keeps every counter at most 31 |
| PlugProperties.UpPhaseContiguous | arch/arm/mach-msm/tuned_plug.c:69-77 | the scale-up loop keeps the online CPUs a prefix of the indices |
| PlugProperties.DownPhaseContiguous | arch/arm/mach-msm/tuned_plug.c:79-88 | the scale-down loop keeps the online CPUs a prefix of the indices |
| PlugProperties.StepNeedsSaturation | arch/arm/mach-msm/tuned_plug.c:67-77 | no CPU comes online in a tick unless the snapshot count is below `N` and some CPU below `N-1` that is online at the start of the tick reports saturation |
| PlugProperties.StepNeedsFloor | arch/arm/mach-msm/tuned_plug.c:79-88 | no CPU goes offline in a tick unless the snapshot count is above 1 and some CPU other than CPU 0, online in the state the scale-down loop starts from, reports idling at its floor |
| PlugProperties.StepResponsive | arch/arm/mach-msm/tuned_plug.c:67-88 | an active tick with a saturated online CPU below `N-1`, an offline CPU in `1 .. N-1`, and no CPU other than 0 at its floor among those online after the scale-up loop, ends with more CPUs online |
| PlugProperties.StepBounded | arch/arm/mach-msm/tuned_plug.c:64-88 | one tick keeps every counter at most 31 |
| PlugProperties.StepContiguous | arch/arm/mach-msm/tuned_plug.c:64-88 | one tick keeps CPU 0 online and the online CPUs a prefix of the indices |
| PlugProperties.RunBounded | arch/arm/mach-msm/tuned_plug.c:29-56 | over any run every `downcpu` entry stays at most 31, so the unsigned counters never wrap |
| PlugProperties.RunContiguous | arch/arm/mach-msm/tuned_plug.c:31-56 | over any run the online CPUs stay a prefix of the indices: they come online in ascending and go offline in descending index order |
| PlugProperties.DownOneBumps | arch/arm/mach-msm/tuned_plug.c:35-40 | while the top online CPU's counter stays at most 31, each `down_one` adds one to it and changes nothing else |
| PlugProperties.DownOneRetires | arch/arm/mach-msm/tuned_plug.c:35-40 | a top online CPU whose counter is `m` below 31 goes offline on the `(m + 1)`-th consecutive `down_one` call, and the result differs from the start only in that CPU being offline with counter 0 |
| PlugProperties.DownOneHysteresis | arch/arm/mach-msm/tuned_plug.c:35-40 | a top online CPU with counter 0 stays online through 31 consecutive `down_one` calls and goes offline on the 32nd, never earlier, with its counter reset and every other CPU untouched |
| PlugProperties.SeveralUpsInOneTick | arch/arm/mach-msm/tuned_plug.c:69-76 | with CPU 0 alone online out of three and every CPU saturated, one tick brings CPUs 1 and 2 online |
| PlugProperties.IdleTickBumpsTopOnly | arch/arm/mach-msm/tuned_plug.c:79-88 | with four CPUs online and all idle, one tick calls `down_one` three times, and every call bumps CPU 3's counter |

## Left out

- Scheduling is left out: `alloc_workqueue`, `queue_delayed_work_on`, the jiffies conversion, the 40 s first delay and the 50 ms period (lines 62 and 94-100). They change no governor state. One `Step` is one tick. The re-arm at line 62 comes before the switch test, so every tick is re-armed; a `Run` simply has one `Step` per tick.
- `msleep(100)` after each `down_one` (line 85) is a delay with no state change, so the model omits it.
- `tuned_plug_active` being written from sysfs while a tick runs is not modelled (line 25). The switch is an input read once per tick.
- `cpufreq_get_policy` is an observation oracle. Each tick carries one observation per CPU for the scale-up loop and one for the scale-down loop, because the code queries each CPU in each loop.
- `cpu_up` and `cpu_down` always succeed in the model, so a refused request is not modelled. The source resets the counter whatever they return, so a failure would change only the flag.
- Every index `0 .. N-1` is taken to be a CPU that can come online, with `N` standing for `NR_CPUS`. On a kernel whose `NR_CPUS` exceeds the CPUs present, `for_each_online_cpu` stops at `nr_cpu_ids` and `up_one` keeps calling `cpu_up` on an index with no CPU behind it, which fails. The model does not distinguish `NR_CPUS` from `nr_cpu_ids` and does not model that failure.
- Changes to the online mask made by anyone other than the governor are not modelled, between ticks or during one.
- `num_online_cpus` is computed from the modelled online mask (`CountOnline`).
- The `unsigned int` width of `downcpu[]` is not modelled. Counters are unbounded naturals, and `RunBounded` shows they never exceed 31, so 32-bit wrap-around cannot arise.
- `pr_info` logging, the `MODULE_*` macros, `late_initcall` and `tuned_plug_init` are left out. They are logging and registration only.
