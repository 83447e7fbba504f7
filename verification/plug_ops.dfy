/**
 The two hotplug helpers of tuned_plug: `down_one`, which works on the
 highest-indexed online CPU above 0, and `up_one`, which brings the
 lowest-indexed offline CPU above 0 online. `cpu_down` and `cpu_up` are
 modelled as clearing and setting the CPU's online flag.
 */
module PlugOps {
  import opened PlugState

  /** What `down_one` does to CPU `k` when it is the top online CPU: above the
      threshold it goes offline with its counter reset, otherwise its counter
      grows by one; every other CPU is left alone. */
  predicate DownEffect(g: Governor, r: Governor, k: nat)
    requires SameShape(g, r) && k < |g.online|
  {
    && FrameExcept(g, r, k)
    && (g.downcpu[k] > DownThreshold ==> !r.online[k] && r.downcpu[k] == 0)
    && (g.downcpu[k] <= DownThreshold ==> r.online[k] && r.downcpu[k] == g.downcpu[k] + 1)
  }

  /** What `up_one` does to CPU `k` when it is the lowest offline CPU: it comes
      online with its counter reset; every other CPU is left alone. */
  predicate UpEffect(g: Governor, r: Governor, k: nat)
    requires SameShape(g, r) && k < |g.online|
  {
    FrameExcept(g, r, k) && r.online[k] && r.downcpu[k] == 0
  }

  /** The descending scan of `down_one`, currently at index `i`: every CPU
      above `i` is already known to be offline. */
  function DownScan(g: Governor, i: nat): (r: Governor)
    requires g.Valid() && i < |g.online|
    requires forall j :: i < j < |g.online| ==> !g.online[j]
    ensures SameShape(g, r)
    ensures BootCpuKept(g, r)
    ensures OnlyTakesDown(g, r)
    ensures NoneOnlineAbove0(g.online) ==> r == g
    ensures forall k :: IsTopOnline(g.online, k) ==> DownEffect(g, r, k)
    decreases i
  {
    if i == 0 then g
    else if g.online[i] then
      if g.downcpu[i] > DownThreshold then
        g.(online := g.online[i := false], downcpu := g.downcpu[i := 0])
      else
        g.(downcpu := g.downcpu[i := g.downcpu[i] + 1])
    else DownScan(g, i - 1)
  }

  /** `down_one`: acts on the highest-indexed online CPU above 0 and on
      nothing else; with no such CPU the state is unchanged. */
  function DownOne(g: Governor): (r: Governor)
    requires g.Valid()
    ensures SameShape(g, r)
    ensures BootCpuKept(g, r)
    ensures OnlyTakesDown(g, r)
    ensures NoneOnlineAbove0(g.online) ==> r == g
    ensures forall k :: IsTopOnline(g.online, k) ==> DownEffect(g, r, k)
  {
    DownScan(g, |g.online| - 1)
  }

  /** The ascending scan of `up_one`, currently at index `i`: every CPU in
      `1 .. i-1` is already known to be online. */
  function UpScan(g: Governor, i: nat): (r: Governor)
    requires g.Valid() && 1 <= i <= |g.online|
    requires forall j :: 1 <= j < i ==> g.online[j]
    ensures SameShape(g, r)
    ensures BootCpuKept(g, r)
    ensures OnlyBringsUp(g, r)
    ensures AllOnlineAbove0(g.online) ==> r == g
    ensures forall k :: IsLowestOffline(g.online, k) ==> UpEffect(g, r, k)
    decreases |g.online| - i
  {
    if i == |g.online| then g
    else if !g.online[i] then
      g.(online := g.online[i := true], downcpu := g.downcpu[i := 0])
    else UpScan(g, i + 1)
  }

  /** `up_one`: brings the lowest-indexed offline CPU in `1 .. N-1` online
      with a fresh counter and touches nothing else; with every such CPU
      online the state is unchanged. */
  function UpOne(g: Governor): (r: Governor)
    requires g.Valid()
    ensures SameShape(g, r)
    ensures BootCpuKept(g, r)
    ensures OnlyBringsUp(g, r)
    ensures AllOnlineAbove0(g.online) ==> r == g
    ensures forall k :: IsLowestOffline(g.online, k) ==> UpEffect(g, r, k)
  {
    UpScan(g, 1)
  }
}
