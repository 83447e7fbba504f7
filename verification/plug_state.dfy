/**
 The state of the tuned_plug CPU hotplug governor: one online flag and one
 idle counter (`downcpu`) per CPU index `0 .. N-1`, where `N` stands for the
 kernel's `NR_CPUS`, together with the per-CPU frequency observations the
 governor reads on every tick.
 */
module PlugState {

  /** A CPU whose counter is strictly above this value is taken offline. */
  const DownThreshold: nat := 30

  /** The largest value a counter can ever hold: it is only incremented while
      it is at most `DownThreshold`. */
  const CounterCeiling: nat := DownThreshold + 1

  /** What one `cpufreq_get_policy` query returns for one CPU: either a failure,
      or the policy's current, minimum and maximum frequency. */
  datatype Probe = Unavailable | Policy(cur: nat, min: nat, max: nat)

  /** The CPU runs at its ceiling: `cur` and `max` are nonzero and `cur >= max`. */
  predicate Saturated(p: Probe)
  {
    p.Policy? && p.cur != 0 && p.max != 0 && p.cur >= p.max
  }

  /** The CPU idles at its floor: `cur` and `min` are nonzero and `cur <= min`. */
  predicate AtFloor(p: Probe)
  {
    p.Policy? && p.cur != 0 && p.min != 0 && p.cur <= p.min
  }

  /** The online mask and the `downcpu` array, indexed by CPU number. */
  datatype Governor = Governor(online: seq<bool>, downcpu: seq<nat>)
  {
    /** There is at least one CPU and one counter per CPU. */
    predicate Valid()
    {
      |online| >= 1 && |downcpu| == |online|
    }
  }

  /** `g` and `h` describe the same number of CPUs. */
  predicate SameShape(g: Governor, h: Governor)
  {
    g.Valid() && h.Valid() && |g.online| == |h.online|
  }

  /** Every CPU other than `k` has the same flag and counter in `g` and `h`. */
  predicate FrameExcept(g: Governor, h: Governor, k: int)
    requires SameShape(g, h)
  {
    forall j :: 0 <= j < |g.online| && j != k ==>
      h.online[j] == g.online[j] && h.downcpu[j] == g.downcpu[j]
  }

  /** CPU 0 has the same flag and counter in `g` and `h`. */
  predicate BootCpuKept(g: Governor, h: Governor)
    requires SameShape(g, h)
  {
    h.online[0] == g.online[0] && h.downcpu[0] == g.downcpu[0]
  }

  /** From `g` to `r` CPUs only come online, each with a fresh counter;
      every other CPU keeps its flag and counter. */
  predicate OnlyBringsUp(g: Governor, r: Governor)
    requires SameShape(g, r)
  {
    forall j :: 0 <= j < |g.online| ==>
      || (r.online[j] == g.online[j] && r.downcpu[j] == g.downcpu[j])
      || (!g.online[j] && r.online[j] && r.downcpu[j] == 0)
  }

  /** From `g` to `r` CPUs only go offline, each with its counter reset;
      the counters of CPUs that stay online only grow, and offline CPUs are
      not touched. */
  predicate OnlyTakesDown(g: Governor, r: Governor)
    requires SameShape(g, r)
  {
    forall j :: 0 <= j < |g.online| ==>
      || (&& r.online[j] == g.online[j]
          && g.downcpu[j] <= r.downcpu[j]
          && (!g.online[j] ==> r.downcpu[j] == g.downcpu[j]))
      || (g.online[j] && !r.online[j] && r.downcpu[j] == 0)
  }

  /** `k` is the highest-indexed online CPU, and it is not CPU 0. */
  predicate IsTopOnline(online: seq<bool>, k: int)
  {
    1 <= k < |online| && online[k] && forall j :: k < j < |online| ==> !online[j]
  }

  /** No CPU other than CPU 0 is online. */
  predicate NoneOnlineAbove0(online: seq<bool>)
  {
    forall j :: 1 <= j < |online| ==> !online[j]
  }

  /** `k` is the lowest-indexed offline CPU among `1 .. N-1`. */
  predicate IsLowestOffline(online: seq<bool>, k: int)
  {
    1 <= k < |online| && !online[k] && forall j :: 1 <= j < k ==> online[j]
  }

  /** Every CPU in `1 .. N-1` is online. */
  predicate AllOnlineAbove0(online: seq<bool>)
  {
    forall j :: 1 <= j < |online| ==> online[j]
  }

  /** Every counter is at most `CounterCeiling`. */
  predicate CountersBounded(g: Governor)
  {
    forall j :: 0 <= j < |g.downcpu| ==> g.downcpu[j] <= CounterCeiling
  }

  /** The online CPUs form a prefix `0 .. m-1` of the indices. */
  predicate Contiguous(online: seq<bool>)
  {
    forall j, k :: 0 <= j < k < |online| && online[k] ==> online[j]
  }

  /** The number of online CPUs (the kernel's `num_online_cpus()`). */
  function CountOnline(online: seq<bool>): (n: nat)
    ensures n <= |online|
  {
    if |online| == 0 then 0
    else (if online[0] then 1 else 0) + CountOnline(online[1..])
  }

  /** Setting one flag changes the count by exactly the difference it makes. */
  lemma {:induction false} CountOnlineUpdate(s: seq<bool>, k: nat, b: bool)
    requires k < |s|
    ensures CountOnline(s[k := b]) + (if s[k] then 1 else 0)
         == CountOnline(s) + (if b then 1 else 0)
  {
    if k == 0 {
      assert s[k := b][1..] == s[1..];
    } else {
      assert s[k := b][1..] == s[1..][k - 1 := b];
      CountOnlineUpdate(s[1..], k - 1, b);
    }
  }

  /** A mask that only gains flags never has a smaller count. */
  lemma {:induction false} CountOnlineMonotone(a: seq<bool>, b: seq<bool>)
    requires |a| == |b|
    requires forall j :: 0 <= j < |a| && a[j] ==> b[j]
    ensures CountOnline(a) <= CountOnline(b)
  {
    if |a| > 0 {
      CountOnlineMonotone(a[1..], b[1..]);
    }
  }

  /** A mask with an offline CPU counts fewer CPUs than it has. */
  lemma {:induction false} CountOnlineBelowLength(s: seq<bool>, w: nat)
    requires w < |s| && !s[w]
    ensures CountOnline(s) < |s|
  {
    if w == 0 {
      assert CountOnline(s[1..]) <= |s[1..]|;
    } else {
      CountOnlineBelowLength(s[1..], w - 1);
    }
  }

  /** If some CPU above 0 is online, a highest one exists. */
  lemma {:induction false} TopOnlineExists(online: seq<bool>) returns (k: nat)
    requires !NoneOnlineAbove0(online)
    ensures IsTopOnline(online, k)
  {
    k := |online| - 1;
    while !online[k]
      invariant 1 <= k < |online|
      invariant forall j :: k < j < |online| ==> !online[j]
      invariant exists j :: 1 <= j <= k && online[j]
      decreases k
    {
      k := k - 1;
    }
  }

  /** If some CPU in `1 .. N-1` is offline, a lowest one exists. */
  lemma {:induction false} LowestOfflineExists(online: seq<bool>) returns (k: nat)
    requires !AllOnlineAbove0(online)
    ensures IsLowestOffline(online, k)
  {
    k := 1;
    while online[k]
      invariant 1 <= k < |online|
      invariant forall j :: 1 <= j < k ==> online[j]
      invariant exists j :: k <= j < |online| && !online[j]
      decreases |online| - k
    {
      k := k + 1;
    }
  }
}
