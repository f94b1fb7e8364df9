/** The linear-scan register allocator. */
module LinearScan {
  import opened MachineIR
  import opened LiveIntervals
  import opened Finite

  type PReg = nat

  /** The 16-bit pattern the allocator writes for "no register". */
  const NO_PREG: PReg := 0xFFFF

  /** Size of the table of used registers. */
  const MAX_PREGS: nat := 256

  datatype ActiveEntry = ActiveEntry(vreg: VReg, end: nat, preg: PReg)

  predicate StartsBefore(a: LiveInterval, b: LiveInterval) {
    a.start < b.start || (a.start == b.start && a.end <= b.end)
  }

  ghost predicate SortedByStart(s: seq<LiveInterval>) {
    forall i, j :: 0 <= i < j < |s| ==> s[i].start < s[j].start || (s[i].start == s[j].start && s[i].end <= s[j].end)
  }

  lemma StartedEarlier(s: seq<LiveInterval>, j: nat, m: nat)
    requires SortedByStart(s) && j < |s| && m < |s| && s[j].start < s[m].start
    ensures j < m
  {
    if m < j { NoEarlier(s, m, j); }
  }

  lemma NoEarlier(s: seq<LiveInterval>, m: nat, j: nat)
    requires SortedByStart(s) && m < j < |s|
    ensures s[m].start <= s[j].start
  {
    assert StartsBefore(s[m], s[j]);
  }

  lemma StartsAscend(s: seq<LiveInterval>)
    requires SortedByStart(s)
    ensures forall i :: 0 < i < |s| ==> s[i - 1].start <= s[i].start
  {
    assert forall i :: 0 < i < |s| ==> StartsBefore(s[i - 1], s[i]);
  }

  /** Orders intervals by start, then end. The order of ties is not promised. */
  method SortByStart(s: seq<LiveInterval>) returns (r: seq<LiveInterval>)
    ensures SortedByStart(r)
    ensures multiset(r) == multiset(s)
  {
    r := [];
    for i := 0 to |s|
      invariant SortedByStart(r) && multiset(r) == multiset(s[..i])
    {
      var j := 0;
      while j < |r| && StartsBefore(r[j], s[i])
        invariant 0 <= j <= |r|
        invariant forall k :: 0 <= k < j ==> StartsBefore(r[k], s[i])
      {
        j := j + 1;
      }
      assert r == r[..j] + r[j..];
      assert s[..i + 1] == s[..i] + [s[i]];
      r := r[..j] + [s[i]] + r[j..];
    }
    assert s[..|s|] == s;
  }

  /** Keeps the entries that end after `start`. */
  function Expire(active: seq<ActiveEntry>, start: nat): (r: seq<ActiveEntry>)
    ensures forall e :: e in r <==> e in active && e.end > start
  {
    if active == [] then []
    else
      var rest := Expire(active[1..], start);
      if active[0].end <= start then rest else [active[0]] + rest
  }

  ghost predicate DistinctPRegs(active: seq<ActiveEntry>) {
    forall i, j :: 0 <= i < j < |active| ==> active[i].preg != active[j].preg
  }

  lemma {:induction false} ExpireKeepsDistinct(active: seq<ActiveEntry>, start: nat)
    requires DistinctPRegs(active)
    ensures DistinctPRegs(Expire(active, start))
  {
    if active != [] {
      ExpireKeepsDistinct(active[1..], start);
      var rest := Expire(active[1..], start);
      if active[0].end > start {
        forall e | e in rest ensures e.preg != active[0].preg {
          assert e in active[1..];
          var k :| 0 <= k < |active[1..]| && active[1..][k] == e;
          assert active[k + 1] == e;
        }
      }
    }
  }

  /** The first entry with the furthest end. */
  method FurthestEnd(active: seq<ActiveEntry>) returns (k: nat)
    requires active != []
    ensures k < |active|
    ensures forall j :: 0 <= j < |active| ==> active[j].end <= active[k].end
    ensures forall j :: 0 <= j < k ==> active[j].end < active[k].end
  {
    k := 0;
    for i := 1 to |active|
      invariant k < i <= |active|
      invariant forall j :: 0 <= j < i ==> active[j].end <= active[k].end
      invariant forall j :: 0 <= j < k ==> active[j].end < active[k].end
    {
      if active[k].end < active[i].end { k := i; }
    }
  }

  ghost predicate Held(active: seq<ActiveEntry>, p: PReg) {
    exists e :: e in active && e.preg == p
  }

  method UsedTable(active: seq<ActiveEntry>) returns (used: seq<bool>)
    ensures |used| == MAX_PREGS
    ensures forall p :: 0 <= p < MAX_PREGS ==> (used[p] <==> Held(active, p))
  {
    used := seq(MAX_PREGS, _ => false);
    for i := 0 to |active|
      invariant |used| == MAX_PREGS
      invariant forall p :: 0 <= p < MAX_PREGS ==> (used[p] <==> Held(active[..i], p))
    {
      assert active[..i + 1] == active[..i] + [active[i]];
      if active[i].preg < MAX_PREGS {
        used := used[active[i].preg := true];
      }
    }
    assert active[..|active|] == active;
  }

  /** The finished tables of an allocation, as its clients read them. */
  datatype Allocation = Allocation(assignment: seq<PReg>, spilled: seq<bool>) {
    function Assignment(v: VReg): PReg {
      if v >= |assignment| then 0 else assignment[v]
    }

    predicate IsSpilled(v: VReg) {
      v < |spilled| && spilled[v]
    }
  }

  /** Only registers with an interval are spilled. */
  ghost predicate SpilledListed(ivs: seq<LiveInterval>, spilled: seq<bool>) {
    forall v: VReg :: v < |spilled| && spilled[v] ==> Listed(ivs, v)
  }

  ghost predicate Listed(ivs: seq<LiveInterval>, v: VReg) {
    exists k :: 0 <= k < |ivs| && ivs[k].vreg == v
  }

  ghost function SpilledSet(spilled: seq<bool>): set<nat> {
    set v | 0 <= v < |spilled| && spilled[v]
  }

  /** One more spill. */
  lemma SpillCounts(ivs: seq<LiveInterval>, spilled: seq<bool>, v: VReg)
    requires SpilledListed(ivs, spilled) && v < |spilled| && !spilled[v] && Listed(ivs, v)
    ensures SpilledListed(ivs, spilled[v := true])
    ensures |SpilledSet(spilled[v := true])| == |SpilledSet(spilled)| + 1
  {
    assert SpilledSet(spilled[v := true]) == SpilledSet(spilled) + {v};
  }

  // ---- Parts of the allocator's loop invariant, over the tables as values ----

  ghost predicate WellNumbered(ivs: seq<LiveInterval>, size: nat) {
    && (forall k :: 0 <= k < |ivs| ==> ivs[k].vreg < size && ivs[k].start < ivs[k].end)
    && (forall j, k :: 0 <= j < k < |ivs| ==> ivs[j].vreg != ivs[k].vreg)
  }

  ghost predicate ActiveFor(iv: LiveInterval, e: ActiveEntry, assignment: seq<PReg>, spilled: seq<bool>) {
    && iv.vreg < |assignment| == |spilled|
    && e == ActiveEntry(iv.vreg, iv.end, assignment[iv.vreg])
    && !spilled[iv.vreg]
  }

  /** `active` lists exactly the unspilled intervals among the first `n` that end after `now`. */
  ghost predicate ActiveExact(ivs: seq<LiveInterval>, n: nat, active: seq<ActiveEntry>, now: nat,
                              assignment: seq<PReg>, spilled: seq<bool>)
    requires n <= |ivs| && |assignment| == |spilled| && WellNumbered(ivs, |assignment|)
  {
    && DistinctPRegs(active)
    && (forall k :: 0 <= k < n ==> ivs[k].start <= now)
    && (forall e :: e in active ==> exists k :: 0 <= k < n && ActiveFor(ivs[k], e, assignment, spilled))
    && (forall k :: 0 <= k < n && !spilled[ivs[k].vreg] && ivs[k].end > now ==>
          ActiveEntry(ivs[k].vreg, ivs[k].end, assignment[ivs[k].vreg]) in active)
  }

  ghost predicate Separated(ivs: seq<LiveInterval>, n: nat, assignment: seq<PReg>, spilled: seq<bool>)
    requires n <= |ivs| && |assignment| == |spilled| && WellNumbered(ivs, |assignment|)
  {
    forall j, k ::
      0 <= j < k < n && !spilled[ivs[j].vreg] && !spilled[ivs[k].vreg] && Overlap(ivs[j], ivs[k])
      ==> assignment[ivs[j].vreg] != assignment[ivs[k].vreg]
  }

  /** Call-spanning intervals may only take registers from the first callee-saved one on. */
  function FloorOf(iv: LiveInterval, from: nat): nat {
    if iv.spansCall then from else 0
  }

  /** Register `q` belongs to an interval among the first `n` that is open at `start`. */
  ghost predicate TakenAt(ivs: seq<LiveInterval>, n: nat, start: nat, q: PReg, assignment: seq<PReg>)
    requires n <= |ivs| && WellNumbered(ivs, |assignment|)
  {
    exists j :: 0 <= j < n && ivs[j].start <= start < ivs[j].end && assignment[ivs[j].vreg] == q
  }

  /** What an active entry holds is taken. */
  lemma HeldIsTaken(ivs: seq<LiveInterval>, n: nat, active: seq<ActiveEntry>, assignment: seq<PReg>, spilled: seq<bool>,
                    q: PReg)
    requires n < |ivs| && |assignment| == |spilled| && WellNumbered(ivs, |assignment|)
    requires ActiveExact(ivs, n, active, ivs[n].start, assignment, spilled)
    requires (forall e :: e in active ==> e.end > ivs[n].start) && Held(active, q)
    ensures TakenAt(ivs, n, ivs[n].start, q, assignment)
  {
    var e :| e in active && e.preg == q;
    var k :| 0 <= k < n && ActiveFor(ivs[k], e, assignment, spilled);
  }

  /** Every one of the first `n` intervals has the lowest register that was free where it starts. */
  ghost predicate Fitted(ivs: seq<LiveInterval>, n: nat, from: nat, assignment: seq<PReg>)
    requires n <= |ivs| && WellNumbered(ivs, |assignment|)
  {
    forall k, q :: 0 <= k < n && FloorOf(ivs[k], from) <= q < assignment[ivs[k].vreg]
      ==> TakenAt(ivs, k, ivs[k].start, q, assignment)
  }

  lemma FittedNext(ivs: seq<LiveInterval>, n: nat, from: nat, assignment: seq<PReg>, preg: PReg)
    requires n < |ivs| && WellNumbered(ivs, |assignment|) && Fitted(ivs, n, from, assignment)
    requires forall q :: FloorOf(ivs[n], from) <= q < preg ==> TakenAt(ivs, n, ivs[n].start, q, assignment)
    ensures Fitted(ivs, n + 1, from, assignment[ivs[n].vreg := preg])
  {
    var assignment' := assignment[ivs[n].vreg := preg];
    forall k, q | 0 <= k < n + 1 && FloorOf(ivs[k], from) <= q < assignment'[ivs[k].vreg]
      ensures TakenAt(ivs, k, ivs[k].start, q, assignment')
    {
      assert TakenAt(ivs, k, ivs[k].start, q, assignment);
      var j :| 0 <= j < k && ivs[j].start <= ivs[k].start < ivs[j].end && assignment[ivs[j].vreg] == q;
      assert assignment'[ivs[j].vreg] == q;
    }
  }

  // ---- When the allocator may spill ----

  /** The registers the first `n` instructions mention. */
  ghost function Mentioned(p: Program, n: nat): (r: set<VReg>)
    requires n <= |p|
    ensures forall v :: v in r <==> Occurs(p, v, n)
  {
    if n == 0 then {} else Mentioned(p, n - 1) + Members(p[n - 1].defs) + Members(p[n - 1].uses)
  }

  /** The other registers that are in use where `v` is first mentioned. */
  ghost function OpenAtStart(p: Program, v: VReg): set<VReg> {
    set u | u in Mentioned(p, |p|) && u != v && Begin(p, u) <= Begin(p, v) <= Finish(p, u)
  }

  /** Every register has the lowest home that no other one in use where it starts has. */
  ghost predicate FitsFirst(p: Program, al: Allocation) {
    forall v: VReg, q: PReg :: Live(p, v) && q < al.Assignment(v) ==> TakenBy(p, al, v, q)
  }

  /** Another register in use where `v` starts has the home `q`. */
  ghost predicate TakenBy(p: Program, al: Allocation, v: VReg, q: PReg) {
    exists u :: u in OpenAtStart(p, v) && al.Assignment(u) == q
  }

  /** The other intervals that are open where interval `k` starts. */
  ghost function Rivals(ivs: seq<LiveInterval>, k: nat): set<VReg>
    requires k < |ivs|
  {
    set j | 0 <= j < |ivs| && ivs[j].vreg != ivs[k].vreg && ivs[j].start <= ivs[k].start < ivs[j].end
      :: ivs[j].vreg
  }

  /** When every register of a range is held, that many other intervals are open. */
  lemma HeldMeansRivals(ivs: seq<LiveInterval>, n: nat, active: seq<ActiveEntry>,
                        assignment: seq<PReg>, spilled: seq<bool>, lo: nat, hi: nat)
    requires n < |ivs| && |assignment| == |spilled| && WellNumbered(ivs, |assignment|)
    requires ActiveExact(ivs, n, active, ivs[n].start, assignment, spilled)
    requires forall e :: e in active ==> e.end > ivs[n].start
    requires forall q :: lo <= q < hi ==> Held(active, q)
    ensures |Rivals(ivs, n)| >= hi - lo
  {
    var all := Range(lo, hi);
    forall q | q in all ensures exists u :: u in Rivals(ivs, n) && u < |assignment| && assignment[u] == q {
      assert Held(active, q);
      var e :| e in active && e.preg == q;
      var k :| 0 <= k < n && ActiveFor(ivs[k], e, assignment, spilled);
      assert ivs[k].vreg in Rivals(ivs, n);
    }
    ImageBound(all, Rivals(ivs, n), assignment);
  }

  // ---- What the allocator spills ----

  /** Interval `j` holds a home where interval `n` starts. */
  ghost predicate HasHome(ivs: seq<LiveInterval>, j: nat, n: nat, spilled: seq<bool>) {
    j < n < |ivs| && ivs[j].vreg < |spilled| && !spilled[ivs[j].vreg] && ivs[n].start < ivs[j].end
  }

  /** Of interval `n` and those that hold a home where it starts, `k` ends last; of several, `n` itself. */
  ghost predicate EndsLast(ivs: seq<LiveInterval>, n: nat, k: nat, spilled: seq<bool>) {
    && n < |ivs| && (k == n || HasHome(ivs, k, n, spilled))
    && (k != n ==> ivs[n].end < ivs[k].end)
    && forall j: nat {:trigger HasHome(ivs, j, n, spilled)} :: HasHome(ivs, j, n, spilled) ==> ivs[j].end <= ivs[k].end
  }

  /** Where interval `m` starts, `k` is in use and no interval that keeps its home ends later. */
  ghost predicate OutlastsAt(ivs: seq<LiveInterval>, k: nat, m: nat, spilled: seq<bool>) {
    && k <= m < |ivs| && ivs[k].start <= ivs[m].start < ivs[k].end
    && (ivs[m].vreg < |spilled| && !spilled[ivs[m].vreg] ==> ivs[m].end <= ivs[k].end)
    && forall j: nat {:trigger HasHome(ivs, j, m, spilled)} :: HasHome(ivs, j, m, spilled) ==> ivs[j].end <= ivs[k].end
  }

  /** Every spilled interval was, where it was given up, the one that ended last. */
  ghost predicate SpilledOutlast(ivs: seq<LiveInterval>, n: nat, spilled: seq<bool>) {
    forall k: nat :: k < |ivs| && ivs[k].vreg < |spilled| && spilled[ivs[k].vreg] ==> GivenUp(ivs, n, k, spilled)
  }

  ghost predicate GivenUp(ivs: seq<LiveInterval>, n: nat, k: nat, spilled: seq<bool>) {
    exists m: nat :: m < n && OutlastsAt(ivs, k, m, spilled)
  }

  /** Interval `k` is spilled in favour of interval `n`, which takes its home, or `n` itself is. */
  ghost predicate SpillsLast(ivs: seq<LiveInterval>, n: nat, k: nat, spilled: seq<bool>, assignment: seq<PReg>,
                             spilled': seq<bool>, assignment': seq<PReg>)
  {
    && EndsLast(ivs, n, k, spilled) && ivs[k].vreg < |spilled| == |assignment| && ivs[n].vreg < |assignment|
    && spilled' == spilled[ivs[k].vreg := true]
    && assignment' == assignment[ivs[n].vreg := if k == n then NO_PREG else assignment[ivs[k].vreg]]
  }

  /** The first `n` intervals that are not spilled have homes below `bank`. */
  ghost predicate InBank(ivs: seq<LiveInterval>, n: nat, spilled: seq<bool>, assignment: seq<PReg>, bank: nat) {
    n <= |ivs| && |spilled| == |assignment| && WellNumbered(ivs, |assignment|)
    && forall k :: 0 <= k < n && !spilled[ivs[k].vreg] ==> assignment[ivs[k].vreg] < bank
  }

  lemma SpillKeepsBank(ivs: seq<LiveInterval>, n: nat, k: nat, spilled: seq<bool>, assignment: seq<PReg>,
                       spilled': seq<bool>, assignment': seq<PReg>, bank: nat)
    requires InBank(ivs, n, spilled, assignment, bank) && SpillsLast(ivs, n, k, spilled, assignment, spilled',
      assignment')
    ensures InBank(ivs, n + 1, spilled', assignment', bank)
  {
  }

  lemma FreeKeepsBank(ivs: seq<LiveInterval>, n: nat, spilled: seq<bool>, assignment: seq<PReg>, preg: PReg, bank: nat)
    requires InBank(ivs, n, spilled, assignment, bank) && n < |ivs| && preg < bank
    ensures InBank(ivs, n + 1, spilled, assignment[ivs[n].vreg := preg], bank)
  {
  }

  lemma OutlastsStill(ivs: seq<LiveInterval>, i: nat, m: nat, spilled: seq<bool>, v: VReg)
    requires OutlastsAt(ivs, i, m, spilled) && v < |spilled|
    ensures OutlastsAt(ivs, i, m, spilled[v := true])
  {
    forall j: nat {:trigger HasHome(ivs, j, m, spilled[v := true])} | HasHome(ivs, j, m, spilled[v := true])
      ensures ivs[j].end <= ivs[i].end
    {
      assert HasHome(ivs, j, m, spilled);
    }
  }

  lemma LastOutlasts(ivs: seq<LiveInterval>, n: nat, k: nat, spilled: seq<bool>)
    requires n < |ivs| && WellNumbered(ivs, |spilled|) && SortedByStart(ivs) && EndsLast(ivs, n, k, spilled)
    ensures ivs[k].vreg < |spilled| && OutlastsAt(ivs, k, n, spilled[ivs[k].vreg := true])
  {
    var spilled' := spilled[ivs[k].vreg := true];
    assert k < n ==> StartsBefore(ivs[k], ivs[n]);
    forall j: nat {:trigger HasHome(ivs, j, n, spilled')} | HasHome(ivs, j, n, spilled')
      ensures ivs[j].end <= ivs[k].end
    {
      assert HasHome(ivs, j, n, spilled);
    }
  }

  lemma SpillOutlasts(ivs: seq<LiveInterval>, n: nat, k: nat, spilled: seq<bool>)
    requires n < |ivs| && WellNumbered(ivs, |spilled|) && SortedByStart(ivs)
    requires SpilledOutlast(ivs, n, spilled) && EndsLast(ivs, n, k, spilled)
    ensures SpilledOutlast(ivs, n + 1, spilled[ivs[k].vreg := true])
  {
    LastOutlasts(ivs, n, k, spilled);
    hide OutlastsAt, EndsLast, HasHome, SortedByStart;
    var spilled' := spilled[ivs[k].vreg := true];
    forall i: nat | i < |ivs| && ivs[i].vreg < |spilled'| && spilled'[ivs[i].vreg]
      ensures GivenUp(ivs, n + 1, i, spilled')
    {
      if i != k {
        assert ivs[i].vreg != ivs[k].vreg && GivenUp(ivs, n, i, spilled);
        var m: nat :| m < n && OutlastsAt(ivs, i, m, spilled);
        OutlastsStill(ivs, i, m, spilled, ivs[k].vreg);
      }
    }
  }

  lemma NoSpillOutlasts(ivs: seq<LiveInterval>, n: nat, spilled: seq<bool>)
    requires SpilledOutlast(ivs, n, spilled)
    ensures SpilledOutlast(ivs, n + 1, spilled)
  {
    forall k: nat | k < |ivs| && ivs[k].vreg < |spilled| && spilled[ivs[k].vreg]
      ensures GivenUp(ivs, n + 1, k, spilled)
    {
      assert GivenUp(ivs, n, k, spilled);
    }
  }

  /** Whatever holds a home is active. */
  lemma HomedIsActive(ivs: seq<LiveInterval>, n: nat, active: seq<ActiveEntry>, assignment: seq<PReg>,
        spilled: seq<bool>, j: nat) returns (i: nat)
    requires n < |ivs| && |assignment| == |spilled| && WellNumbered(ivs, |assignment|)
    requires ActiveExact(ivs, n, active, ivs[n].start, assignment, spilled)
    requires HasHome(ivs, j, n, spilled)
    ensures i < |active| && active[i] == ActiveEntry(ivs[j].vreg, ivs[j].end, assignment[ivs[j].vreg])
  {
    i :| 0 <= i < |active| && active[i] == ActiveEntry(ivs[j].vreg, ivs[j].end, assignment[ivs[j].vreg]);
  }

  lemma HomeKeepsSeparated(ivs: seq<LiveInterval>, n: nat, active: seq<ActiveEntry>, preg: PReg,
                           assignment: seq<PReg>, spilled: seq<bool>)
    requires n < |ivs| && |assignment| == |spilled| && WellNumbered(ivs, |assignment|)
    requires ActiveExact(ivs, n, active, ivs[n].start, assignment, spilled)
    requires Separated(ivs, n, assignment, spilled)
    requires forall e :: e in active ==> e.preg != preg
    ensures Separated(ivs, n + 1, assignment[ivs[n].vreg := preg], spilled)
  {
  }

  lemma HomeKeepsActive(ivs: seq<LiveInterval>, n: nat, active: seq<ActiveEntry>, preg: PReg,
                        assignment: seq<PReg>, spilled: seq<bool>)
    requires n < |ivs| && |assignment| == |spilled| && WellNumbered(ivs, |assignment|)
    requires ActiveExact(ivs, n, active, ivs[n].start, assignment, spilled)
    requires forall e :: e in active ==> e.preg != preg
    requires !spilled[ivs[n].vreg]
    ensures ActiveExact(ivs, n + 1, active + [ActiveEntry(ivs[n].vreg, ivs[n].end, preg)], ivs[n].start,
                        assignment[ivs[n].vreg := preg], spilled)
  {
    var assignment' := assignment[ivs[n].vreg := preg];
    var mine := ActiveEntry(ivs[n].vreg, ivs[n].end, preg);
    forall e | e in active + [mine]
      ensures exists k :: 0 <= k < n + 1 && ActiveFor(ivs[k], e, assignment', spilled)
    {
      if e in active {
        var k :| 0 <= k < n && ActiveFor(ivs[k], e, assignment, spilled);
        assert ActiveFor(ivs[k], e, assignment', spilled);
      } else {
        assert ActiveFor(ivs[n], e, assignment', spilled);
      }
    }
    assert mine in active + [mine];
  }

  lemma SpillKeepsSeparated(ivs: seq<LiveInterval>, n: nat, assignment: seq<PReg>, spilled: seq<bool>, v: VReg)
    requires n <= |ivs| && |assignment| == |spilled| && WellNumbered(ivs, |assignment|) && v < |spilled|
    requires Separated(ivs, n, assignment, spilled)
    ensures Separated(ivs, n, assignment, spilled[v := true])
  {
  }

  lemma SpillKeepsActive(ivs: seq<LiveInterval>, n: nat, active: seq<ActiveEntry>,
                         assignment: seq<PReg>, spilled: seq<bool>)
    requires n < |ivs| && |assignment| == |spilled| && WellNumbered(ivs, |assignment|)
    requires ActiveExact(ivs, n, active, ivs[n].start, assignment, spilled)
    ensures ActiveExact(ivs, n + 1, active, ivs[n].start,
                        assignment[ivs[n].vreg := NO_PREG], spilled[ivs[n].vreg := true])
  {
    var assignment', spilled' := assignment[ivs[n].vreg := NO_PREG], spilled[ivs[n].vreg := true];
    forall e | e in active
      ensures exists k :: 0 <= k < n + 1 && ActiveFor(ivs[k], e, assignment', spilled')
    {
      var k :| 0 <= k < n && ActiveFor(ivs[k], e, assignment, spilled);
      assert ActiveFor(ivs[k], e, assignment', spilled');
    }
  }

  lemma DropOne(active: seq<ActiveEntry>, victim: nat)
    requires DistinctPRegs(active) && victim < |active|
    ensures var kept := active[..victim] + active[victim + 1..];
      && DistinctPRegs(kept)
      && (forall e :: e in kept ==> e in active && e.preg != active[victim].preg)
      && (forall e :: e in active && e != active[victim] ==> e in kept)
  {
    var kept := active[..victim] + active[victim + 1..];
    forall e | e in kept ensures e in active && e.preg != active[victim].preg {
      var k :| 0 <= k < |kept| && kept[k] == e;
      assert e == active[if k < victim then k else k + 1];
    }
    forall e | e in active && e != active[victim] ensures e in kept {
      var k :| 0 <= k < |active| && active[k] == e;
      assert kept[if k < victim then k else k - 1] == e;
    }
  }

  lemma DropKeepsActive(ivs: seq<LiveInterval>, n: nat, active: seq<ActiveEntry>, now: nat,
                        assignment: seq<PReg>, spilled: seq<bool>, victim: nat)
    requires n <= |ivs| && |assignment| == |spilled| && WellNumbered(ivs, |assignment|)
    requires ActiveExact(ivs, n, active, now, assignment, spilled) && victim < |active|
    requires active[victim].vreg < |spilled|
    ensures var kept := active[..victim] + active[victim + 1..];
      && ActiveExact(ivs, n, kept, now, assignment, spilled[active[victim].vreg := true])
      && forall e :: e in kept ==> e.preg != active[victim].preg
  {
    var out := active[victim];
    var kept := active[..victim] + active[victim + 1..];
    var spilled' := spilled[out.vreg := true];
    assert out in active;
    DropOne(active, victim);
    forall e | e in kept
      ensures exists k :: 0 <= k < n && ActiveFor(ivs[k], e, assignment, spilled')
    {
      var k :| 0 <= k < n && ActiveFor(ivs[k], e, assignment, spilled);
      assert ActiveFor(ivs[k], e, assignment, spilled');
    }
  }

  lemma ExpireKeepsActive(ivs: seq<LiveInterval>, n: nat, active: seq<ActiveEntry>, now: nat,
                          assignment: seq<PReg>, spilled: seq<bool>)
    requires n < |ivs| && |assignment| == |spilled| && WellNumbered(ivs, |assignment|)
    requires ActiveExact(ivs, n, active, now, assignment, spilled) && now <= ivs[n].start
    ensures ActiveExact(ivs, n, Expire(active, ivs[n].start), ivs[n].start, assignment, spilled)
  {
    ExpireKeepsDistinct(active, ivs[n].start);
  }

  class LinearScanAllocator {
    const program: Program
    const numGpr: nat
    const numFpr: nat
    var calleeSavedFrom: nat
    var assignment: seq<PReg>
    var spilled: seq<bool>

    constructor (program: Program, numGpr: nat, numFpr: nat)
      ensures this.program == program && this.numGpr == numGpr && this.numFpr == numFpr
      ensures calleeSavedFrom == 0 && assignment == [] && spilled == []
    {
      this.program, this.numGpr, this.numFpr := program, numGpr, numFpr;
      calleeSavedFrom, assignment, spilled := 0, [], [];
    }

    method SetCalleeSavedFrom(from: nat)
      modifies this`calleeSavedFrom
      ensures calleeSavedFrom == from
    {
      calleeSavedFrom := from;
    }

    function Tables(): Allocation
      reads this`assignment, this`spilled
    {
      Allocation(assignment, spilled)
    }

    function Assignment(v: VReg): PReg
      reads this`assignment, this`spilled
    {
      Tables().Assignment(v)
    }

    predicate IsSpilled(v: VReg)
      reads this`assignment, this`spilled
    {
      Tables().IsSpilled(v)
    }

    function Limit(rc: RegClass): nat {
      if rc.Float? then numFpr else numGpr
    }

    /** Two registers that are in use at the same time never share a home. */
    ghost predicate NoConflict()
      reads this
    {
      forall u, v: VReg ::
        u != v && Live(program, u) && Live(program, v) && !IsSpilled(u) && !IsSpilled(v)
        && Overlap(IntervalOf(program, u), IntervalOf(program, v))
        ==> Assignment(u) != Assignment(v)
    }

    /** Every register has a home of its class, and a callee-saved one if its interval spans a call. */
    ghost predicate AllHomed()
      reads this
    {
      forall v: VReg :: Live(program, v) ==>
        && !IsSpilled(v)
        && Floor(IntervalOf(program, v)) <= Assignment(v)
        && Assignment(v) < Limit(ClassOf(program, v, |program|))
    }

    /** Where `v` starts, at least as many other registers are in use as there are homes `v` may take. */
    ghost predicate Outnumbered(v: VReg)
      reads this
    {
      |OpenAtStart(program, v)| >= Limit(ClassOf(program, v, |program|)) - Floor(IntervalOf(program, v))
    }

    /** All registers may take the same homes: one limit, and no interval spans a call or none is held back for those.
        */
    ghost predicate OneRange()
      reads this
    {
      forall u, v: VReg :: Live(program, u) && Live(program, v) ==>
        && Floor(IntervalOf(program, v)) == 0
        && Limit(ClassOf(program, u, |program|)) == Limit(ClassOf(program, v, |program|))
    }

    /** The loop invariant of `Run`: the first `n` intervals have been placed, the last one at `now`. */
    ghost predicate Placed(ivs: seq<LiveInterval>, n: nat, active: seq<ActiveEntry>, now: nat, spills: nat)
      reads this
    {
      && n <= |ivs|
      && |assignment| == |spilled|
      && WellNumbered(ivs, |assignment|)
      && ActiveExact(ivs, n, active, now, assignment, spilled)
      && Separated(ivs, n, assignment, spilled)
      && (forall k :: n <= k < |ivs| ==> !spilled[ivs[k].vreg])
      && spills == |SpilledSet(spilled)| && SpilledListed(ivs, spilled)
      && (spills == 0 ==> forall k :: 0 <= k < n ==>
            Floor(ivs[k]) <= assignment[ivs[k].vreg] < Limit(ivs[k].rc))
      && (spills == 0 ==> Fitted(ivs, n, calleeSavedFrom, assignment))
    }

    /** Every register has the lowest home, at or above its floor, that no other one in use where it starts has. */
    ghost predicate FirstFit()
      reads this
    {
      forall v: VReg, q: PReg :: Live(program, v) && Floor(IntervalOf(program, v)) <= q < Assignment(v)
        ==> TakenBy(program, Tables(), v, q)
    }

    /** At least as many other intervals are open where this one starts as it has registers to choose from. */
    ghost predicate Pressed(ivs: seq<LiveInterval>, k: nat)
      reads this`calleeSavedFrom
      requires k < |ivs|
    {
      |Rivals(ivs, k)| >= Limit(ivs[k].rc) - Floor(ivs[k])
    }

    function Floor(iv: LiveInterval): nat
      reads this`calleeSavedFrom
    {
      FloorOf(iv, calleeSavedFrom)
    }

    method PlaceFree(ghost ivs: seq<LiveInterval>, ghost n: nat, iv: LiveInterval,
                     active: seq<ActiveEntry>, ghost spills: nat, preg: PReg)
      returns (active': seq<ActiveEntry>)
      requires n < |ivs| && iv == ivs[n] && Placed(ivs, n, active, iv.start, spills)
      requires forall e :: e in active ==> e.preg != preg
      requires Floor(iv) <= preg < Limit(iv.rc)
      requires (forall e :: e in active ==> e.end > iv.start) && forall q :: Floor(iv) <= q < preg ==> Held(active, q)
      modifies this`assignment
      ensures Placed(ivs, n + 1, active', iv.start, spills)
      ensures assignment == old(assignment)[iv.vreg := preg]
    {
      hide Fitted, TakenAt, ActiveExact, Separated;
      if spills == 0 {
        forall q | Floor(iv) <= q < preg ensures TakenAt(ivs, n, iv.start, q, assignment) {
          HeldIsTaken(ivs, n, active, assignment, spilled, q);
        }
        FittedNext(ivs, n, calleeSavedFrom, assignment, preg);
      }
      HomeKeepsSeparated(ivs, n, active, preg, assignment, spilled);
      HomeKeepsActive(ivs, n, active, preg, assignment, spilled);
      assignment := assignment[iv.vreg := preg];
      active' := active + [ActiveEntry(iv.vreg, iv.end, preg)];
    }

    method SpillCurrent(ghost ivs: seq<LiveInterval>, ghost n: nat, iv: LiveInterval,
                        ghost active: seq<ActiveEntry>, ghost spills: nat)
      requires n < |ivs| && iv == ivs[n] && Placed(ivs, n, active, iv.start, spills)
      modifies this`assignment, this`spilled
      ensures Placed(ivs, n + 1, active, iv.start, spills + 1)
      ensures spilled == old(spilled)[iv.vreg := true] && assignment == old(assignment)[iv.vreg := NO_PREG]
    {
      hide Fitted, SpilledListed, SpilledSet;
      assert Listed(ivs, iv.vreg);
      SpillCounts(ivs, spilled, iv.vreg);
      SpillKeepsActive(ivs, n, active, assignment, spilled);
      spilled := spilled[iv.vreg := true];
      assignment := assignment[iv.vreg := NO_PREG];
    }

    /** Gives the current interval the register of the active entry `victim`, which is spilled. */
    method Evict(ghost ivs: seq<LiveInterval>, ghost n: nat, iv: LiveInterval,
                 active: seq<ActiveEntry>, ghost spills: nat, victim: nat)
      returns (active': seq<ActiveEntry>)
      requires n < |ivs| && iv == ivs[n] && Placed(ivs, n, active, iv.start, spills)
      requires victim < |active|
      modifies this`assignment, this`spilled
      ensures Placed(ivs, n + 1, active', iv.start, spills + 1)
      ensures active[victim].vreg < |old(spilled)| && spilled == old(spilled)[active[victim].vreg := true]
      ensures assignment == old(assignment)[iv.vreg := active[victim].preg]
    {
      var out := active[victim];
      assert out in active;
      ghost var v :| 0 <= v < n && ActiveFor(ivs[v], out, assignment, spilled);
      SpillKeepsSeparated(ivs, n, assignment, spilled, out.vreg);
      assert Listed(ivs, out.vreg);
      hide Fitted, SpilledListed, SpilledSet, Separated, ActiveExact, Listed, ActiveFor;
      SpillCounts(ivs, spilled, out.vreg);
      var kept := active[..victim] + active[victim + 1..];
      DropKeepsActive(ivs, n, active, iv.start, assignment, spilled, victim);
      spilled := spilled[out.vreg := true];
      HomeKeepsSeparated(ivs, n, kept, out.preg, assignment, spilled);
      HomeKeepsActive(ivs, n, kept, out.preg, assignment, spilled);
      assignment := assignment[iv.vreg := out.preg];
      active' := kept + [ActiveEntry(iv.vreg, iv.end, out.preg)];
    }

    /** The lowest register of the interval's class that no active entry holds, at or above its floor;
        the class limit when there is none. */
    method FirstFree(iv: LiveInterval, active: seq<ActiveEntry>) returns (p: PReg)
      requires numGpr <= MAX_PREGS && numFpr <= MAX_PREGS
      ensures p >= Floor(iv)
      ensures p < Limit(iv.rc) ==> forall e :: e in active ==> e.preg != p
      ensures p >= Limit(iv.rc) ==> forall q :: Floor(iv) <= q < Limit(iv.rc) ==> Held(active, q)
      ensures p < Limit(iv.rc) ==> forall q :: Floor(iv) <= q < p ==> Held(active, q)
    {
      var used := UsedTable(active);
      p := Floor(iv);
      while p < Limit(iv.rc) && used[p]
        invariant p >= Floor(iv)
        invariant forall q :: Floor(iv) <= q < p && q < MAX_PREGS ==> Held(active, q)
      {
        p := p + 1;
      }
    }

    /** Places interval `n`. When every home it may take is held, the interval that ends last among it and those holding
        one, `k`, is spilled. */
    method PlaceNext(ghost ivs: seq<LiveInterval>, ghost n: nat, iv: LiveInterval,
                     active0: seq<ActiveEntry>, ghost now: nat, spills0: nat)
      returns (active: seq<ActiveEntry>, spills: nat, ghost k: nat)
      requires numGpr <= MAX_PREGS && numFpr <= MAX_PREGS
      requires n < |ivs| && iv == ivs[n] && now <= iv.start && Placed(ivs, n, active0, now, spills0)
      modifies this`assignment, this`spilled
      ensures Placed(ivs, n + 1, active, iv.start, spills) && spills0 <= spills <= spills0 + 1
      ensures spills == spills0 ==> PlacedFree(iv, old(spilled), old(assignment))
      ensures spills > spills0 ==>
        Pressed(ivs, n) && SpillsLast(ivs, n, k, old(spilled), old(assignment), spilled, assignment)
    {
      ExpireKeepsActive(ivs, n, active0, now, assignment, spilled);
      active, spills, k := Expire(active0, iv.start), spills0, n;
      var p := FirstFree(iv, active);
      if p < Limit(iv.rc) {
        active := PlaceFree(ivs, n, iv, active, spills, p);
        return;
      }
      HeldMeansRivals(ivs, n, active, assignment, spilled, Floor(iv), Limit(iv.rc));
      spills := spills + 1;
      if active != [] {
        var victim := FurthestEnd(active);
        if active[victim].end > iv.end {
          k := VictimEndsLast(ivs, n, active, victim);
          active := Evict(ivs, n, iv, active, spills0, victim);
          return;
        }
      }
      CurrentEndsLast(ivs, n, active);
      SpillCurrent(ivs, n, iv, active, spills0);
    }

    /** The interval has a home of its class, and nothing else has changed. */
    ghost predicate PlacedFree(iv: LiveInterval, spilled0: seq<bool>, assignment0: seq<PReg>)
      reads this
    {
      && spilled == spilled0 && iv.vreg < |assignment| && iv.vreg < |assignment0|
      && assignment == assignment0[iv.vreg := assignment[iv.vreg]] && assignment[iv.vreg] < Limit(iv.rc)
    }

    /** What is active and ends last, when it ends after the current interval. */
    lemma VictimEndsLast(ivs: seq<LiveInterval>, n: nat, active: seq<ActiveEntry>, victim: nat) returns (k: nat)
      requires n < |ivs| && Placed(ivs, n, active, ivs[n].start, SpillCount()) && victim < |active|
      requires (forall e :: e in active ==> e.end > ivs[n].start) && active[victim].end > ivs[n].end
      requires forall j :: 0 <= j < |active| ==> active[j].end <= active[victim].end
      ensures EndsLast(ivs, n, k, spilled) && k != n && ivs[k].vreg == active[victim].vreg
      ensures assignment[ivs[k].vreg] == active[victim].preg
    {
      hide Separated, Fitted, SpilledListed, SpilledSet;
      var e := active[victim];
      assert e in active;
      k :| 0 <= k < n && ActiveFor(ivs[k], e, assignment, spilled);
      assert HasHome(ivs, k, n, spilled);
      forall j: nat {:trigger HasHome(ivs, j, n, spilled)} | HasHome(ivs, j, n, spilled)
        ensures ivs[j].end <= ivs[k].end
      {
        var i := HomedIsActive(ivs, n, active, assignment, spilled, j);
      }
    }

    lemma CurrentEndsLast(ivs: seq<LiveInterval>, n: nat, active: seq<ActiveEntry>)
      requires n < |ivs| && Placed(ivs, n, active, ivs[n].start, SpillCount())
      requires forall j :: 0 <= j < |active| ==> active[j].end <= ivs[n].end
      ensures EndsLast(ivs, n, n, spilled)
    {
      hide Separated, Fitted, SpilledListed, SpilledSet;
      forall j: nat {:trigger HasHome(ivs, j, n, spilled)} | HasHome(ivs, j, n, spilled)
        ensures ivs[j].end <= ivs[n].end
      {
        var i := HomedIsActive(ivs, n, active, assignment, spilled, j);
      }
    }

    ghost function SpillCount(): nat
      reads this`spilled
    {
      |SpilledSet(spilled)|
    }

    /** The program's intervals, one per register it mentions. */
    ghost predicate AllIntervals(ivs: seq<LiveInterval>) {
      && (forall v: VReg :: Live(program, v) ==> IntervalOf(program, v) in ivs)
      && (forall k :: 0 <= k < |ivs| ==>
            Live(program, ivs[k].vreg) && ivs[k] == IntervalOf(program, ivs[k].vreg))
    }

    method SortedIntervals() returns (ivs: seq<LiveInterval>, maxV: VReg)
      requires |program| < UNSET
      ensures SortedByStart(ivs) && AllIntervals(ivs) && WellNumbered(ivs, maxV + 1)
    {
      var unsorted, bound := ComputeIntervals(program);
      IntervalsToFacts(program, bound);
      ivs := SortByStart(unsorted);
      SortKeepsMembers(unsorted, ivs);
      forall k | 0 <= k < |ivs|
        ensures Live(program, ivs[k].vreg) && ivs[k] == IntervalOf(program, ivs[k].vreg)
        ensures ivs[k].start < ivs[k].end
      {
        assert ivs[k] in unsorted;
        IntervalNonEmpty(program, ivs[k].vreg);
      }
      maxV := 0;
      for i := 0 to |ivs|
        invariant forall k :: 0 <= k < i ==> ivs[k].vreg <= maxV
      {
        if ivs[i].vreg > maxV { maxV := ivs[i].vreg; }
      }
    }

    lemma NothingPlaced(ivs: seq<LiveInterval>, size: nat)
      requires WellNumbered(ivs, size) && |assignment| == |spilled| == size
      requires forall v :: 0 <= v < size ==> !spilled[v]
      ensures Placed(ivs, 0, [], 0, 0) && SpilledOutlast(ivs, 0, spilled) && InBank(ivs, 0, spilled, assignment, Bank())
    {
      assert SpilledSet(spilled) == {};
    }

    /** Walks the sorted intervals; `pressed` is the last one placed by spilling. */
    method PlaceAll(ivs: seq<LiveInterval>, maxV: VReg)
      returns (spills: nat, ghost active: seq<ActiveEntry>, ghost now: nat, ghost pressed: nat)
      requires SortedByStart(ivs) && WellNumbered(ivs, maxV + 1)
      requires numGpr <= MAX_PREGS && numFpr <= MAX_PREGS
      modifies this`assignment, this`spilled
      ensures Placed(ivs, |ivs|, active, now, spills)
      ensures spills > 0 ==> pressed < |ivs| && Pressed(ivs, pressed)
      ensures SpilledOutlast(ivs, |ivs|, spilled) && InBank(ivs, |ivs|, spilled, assignment, Bank())
    {
      hide *;
      StartsAscend(ivs);
      assignment := seq(maxV + 1, _ => 0);
      spilled := seq(maxV + 1, _ => false);
      var live: seq<ActiveEntry> := [];
      spills, now, pressed := 0, 0, 0;
      NothingPlaced(ivs, maxV + 1);
      for i := 0 to |ivs|
        invariant Placed(ivs, i, live, now, spills)
        invariant spills > 0 ==> pressed < |ivs| && Pressed(ivs, pressed)
        invariant i < |ivs| ==> now <= ivs[i].start
        invariant SpilledOutlast(ivs, i, spilled) && InBank(ivs, i, spilled, assignment, Bank())
      {
        ghost var before, spilled0, assignment0 := spills, spilled, assignment;
        ghost var k;
        live, spills, k := PlaceNext(ivs, i, ivs[i], live, now, spills);
        now := ivs[i].start;
        StepOutlasts(ivs, i, spilled0, assignment0, before, spills, k);
        if spills > before { pressed := i; }
      }
      active := live;
    }

    lemma StepOutlasts(ivs: seq<LiveInterval>, i: nat, spilled0: seq<bool>, assignment0: seq<PReg>, before: nat,
          spills: nat, k: nat)
      requires i < |ivs| && SortedByStart(ivs) && before <= spills
      requires SpilledOutlast(ivs, i, spilled0) && InBank(ivs, i, spilled0, assignment0, Bank())
      requires spills == before ==> PlacedFree(ivs[i], spilled0, assignment0)
      requires spills > before ==> SpillsLast(ivs, i, k, spilled0, assignment0, spilled, assignment)
      ensures SpilledOutlast(ivs, i + 1, spilled) && InBank(ivs, i + 1, spilled, assignment, Bank())
    {
      hide SpilledOutlast, SortedByStart;
      if spills == before {
        NoSpillOutlasts(ivs, i, spilled0);
        FreeKeepsBank(ivs, i, spilled0, assignment0, assignment[ivs[i].vreg], Bank());
      } else {
        SpillOutlasts(ivs, i, k, spilled0);
        SpillKeepsBank(ivs, i, k, spilled0, assignment0, spilled, assignment, Bank());
      }
    }

    /** The larger of the two limits. */
    function Bank(): nat {
      if numGpr > numFpr then numGpr else numFpr
    }

    /** Each spilled register is in use where some register `c` starts and ends no earlier than any that is in use there
        and keeps its home, `c` included. */
    ghost predicate SpilledEndLast()
      reads this
    {
      forall v: VReg :: IsSpilled(v) ==> exists c: VReg :: Live(program, c) && EndsLastAt(v, c)
    }

    ghost predicate EndsLastAt(v: VReg, c: VReg)
      reads this
    {
      && Begin(program, v) <= Begin(program, c) <= Finish(program, v)
      && forall u: VReg :: Live(program, u) && !IsSpilled(u)
           && (u == c || Begin(program, u) < Begin(program, c) <= Finish(program, u))
           ==> Finish(program, u) <= Finish(program, v)
    }

    lemma GivenUpEndsLast(ivs: seq<LiveInterval>, v: VReg)
      requires SortedByStart(ivs) && AllIntervals(ivs) && WellNumbered(ivs, |spilled|)
      requires SpilledOutlast(ivs, |ivs|, spilled) && IsSpilled(v) && Live(program, v)
      ensures exists c: VReg :: Live(program, c) && EndsLastAt(v, c)
    {
      hide Begin, Finish, ClassOf, SpansCall, Live;
      var k :| 0 <= k < |ivs| && ivs[k] == IntervalOf(program, v);
      assert GivenUp(ivs, |ivs|, k, spilled);
      var m: nat :| m < |ivs| && OutlastsAt(ivs, k, m, spilled);
      var c := ivs[m].vreg;
      forall u: VReg | Live(program, u) && !IsSpilled(u)
        && (u == c || Begin(program, u) < Begin(program, c) <= Finish(program, u))
        ensures Finish(program, u) <= Finish(program, v)
      {
        if u != c {
          var j :| 0 <= j < |ivs| && ivs[j] == IntervalOf(program, u);
          StartedEarlier(ivs, j, m);
          assert HasHome(ivs, j, m, spilled);
        }
      }
      assert EndsLastAt(v, c);
    }

    /** Allocates every interval and returns the number of spills. */
    method Run() returns (spills: nat)
      requires |program| < UNSET && numGpr <= MAX_PREGS && numFpr <= MAX_PREGS
      modifies this`assignment, this`spilled
      ensures NoConflict() && SpilledEndLast()
      ensures spills == |SpilledSet(spilled)| && forall v: VReg :: IsSpilled(v) ==> Live(program, v)
      ensures forall v: VReg :: Live(program, v) && !IsSpilled(v) ==> Assignment(v) < Bank()
      ensures spills == 0 ==> AllHomed() && FirstFit()
      ensures spills > 0 ==> exists v: VReg :: Live(program, v) && Outnumbered(v)
      ensures OneRange() ==> (spills > 0 <==> exists v: VReg :: Live(program, v) && Outnumbered(v))
    {
      var ivs, maxV := SortedIntervals();
      ghost var active, now, pressed;
      spills, active, now, pressed := PlaceAll(ivs, maxV);
      PlacedAll(ivs, active, now, spills);
      AllOutlast(ivs);
      if spills > 0 {
        PressedIsOutnumbered(ivs, pressed);
      } else {
        FittedIsFirstFit(ivs, active, now);
        if OneRange() {
          forall v: VReg | Live(program, v) ensures !Outnumbered(v) { HomedIsNotOutnumbered(v); }
        }
      }
    }

    lemma AllOutlast(ivs: seq<LiveInterval>)
      requires SortedByStart(ivs) && AllIntervals(ivs) && WellNumbered(ivs, |spilled|) && SpilledListed(ivs, spilled)
      requires SpilledOutlast(ivs, |ivs|, spilled) && InBank(ivs, |ivs|, spilled, assignment, Bank())
      ensures SpilledEndLast() && forall v: VReg :: IsSpilled(v) ==> Live(program, v)
      ensures forall v: VReg :: Live(program, v) && !IsSpilled(v) ==> Assignment(v) < Bank()
    {
      hide SpilledOutlast, SortedByStart, Live, Begin, Finish, ClassOf, SpansCall;
      forall v: VReg | IsSpilled(v) ensures Live(program, v) && exists c: VReg :: Live(program, c) && EndsLastAt(v, c) {
        assert Listed(ivs, v);
        GivenUpEndsLast(ivs, v);
      }
      forall v: VReg | Live(program, v) && !IsSpilled(v) ensures Assignment(v) < Bank() {
        var k :| 0 <= k < |ivs| && ivs[k] == IntervalOf(program, v);
      }
    }

    lemma TakenIsOpen(ivs: seq<LiveInterval>, k: nat, q: PReg)
      requires k < |ivs| && WellNumbered(ivs, |assignment|) && AllIntervals(ivs)
      requires TakenAt(ivs, k, ivs[k].start, q, assignment)
      ensures TakenBy(program, Tables(), ivs[k].vreg, q)
    {
      var j :| 0 <= j < k && ivs[j].start <= ivs[k].start < ivs[j].end && assignment[ivs[j].vreg] == q;
      assert ivs[j].vreg in OpenAtStart(program, ivs[k].vreg);
    }

    lemma FittedIsFirstFit(ivs: seq<LiveInterval>, active: seq<ActiveEntry>, now: nat)
      requires Placed(ivs, |ivs|, active, now, 0) && AllIntervals(ivs)
      ensures FirstFit()
    {
      hide ActiveExact, Separated, SpilledSet, Begin, Finish, ClassOf, SpansCall, OpenAtStart;
      forall v: VReg, q: PReg | Live(program, v) && Floor(IntervalOf(program, v)) <= q < Assignment(v)
        ensures TakenBy(program, Tables(), v, q)
      {
        var k :| 0 <= k < |ivs| && ivs[k] == IntervalOf(program, v);
        assert TakenAt(ivs, k, ivs[k].start, q, assignment);
        TakenIsOpen(ivs, k, q);
      }
    }

    lemma OpenApart(v: VReg, u: VReg, w: VReg)
      requires NoConflict() && AllHomed() && Live(program, v) && u != w
      requires u in OpenAtStart(program, v) + {v} && w in OpenAtStart(program, v) + {v}
      ensures Live(program, u) && Assignment(u) != Assignment(w)
    {
      OpenTogether(program, v, u, w);
      hide OpenAtStart, Begin, Finish, ClassOf;
    }

    /** Registers in use together have different homes, so where they share one range there are at most as many. */
    lemma HomedIsNotOutnumbered(v: VReg)
      requires NoConflict() && AllHomed() && OneRange() && Live(program, v)
      ensures !Outnumbered(v)
    {
      var limit := Limit(ClassOf(program, v, |program|));
      var all := OpenAtStart(program, v) + {v};
      assert v !in OpenAtStart(program, v);
      hide NoConflict, OpenAtStart, Begin, Finish, ClassOf, Live;
      forall u, w | u in all && w in all && u != w ensures Assignment(u) != Assignment(w) {
        OpenApart(v, u, w);
      }
      forall u | u in all ensures Assignment(u) < limit {
        if u != v { OpenApart(v, u, v); }
      }
      InjectiveBound(all, Tables(), limit);
    }

    lemma PressedIsOutnumbered(ivs: seq<LiveInterval>, k: nat)
      requires k < |ivs| && Pressed(ivs, k)
      requires WellNumbered(ivs, |assignment|)
      requires AllIntervals(ivs)
      ensures Live(program, ivs[k].vreg) && Outnumbered(ivs[k].vreg)
    {
      var v := ivs[k].vreg;
      forall u | u in Rivals(ivs, k) ensures u in OpenAtStart(program, v) {
      }
      forall u | u in OpenAtStart(program, v) ensures u in Rivals(ivs, k) {
        assert IntervalOf(program, u) in ivs;
      }
      assert Rivals(ivs, k) == OpenAtStart(program, v);
    }

    lemma PlacedAll(ivs: seq<LiveInterval>, active: seq<ActiveEntry>, now: nat, spills: nat)
      requires Placed(ivs, |ivs|, active, now, spills)
      requires AllIntervals(ivs)
      ensures NoConflict()
      ensures spills == 0 ==> AllHomed()
    {
      hide Fitted, ActiveExact, SpilledSet, Begin, Finish, ClassOf;
      forall u, v: VReg |
        u != v && Live(program, u) && Live(program, v) && !IsSpilled(u) && !IsSpilled(v)
        && Overlap(IntervalOf(program, u), IntervalOf(program, v))
        ensures Assignment(u) != Assignment(v)
      {
        var a :| 0 <= a < |ivs| && ivs[a] == IntervalOf(program, u);
        var b :| 0 <= b < |ivs| && ivs[b] == IntervalOf(program, v);
        if a < b { assert Overlap(ivs[a], ivs[b]); } else { assert Overlap(ivs[b], ivs[a]); }
      }
      if spills == 0 { PlacedHomed(ivs, active, now); }
    }

    lemma PlacedHomed(ivs: seq<LiveInterval>, active: seq<ActiveEntry>, now: nat)
      requires Placed(ivs, |ivs|, active, now, 0)
      requires AllIntervals(ivs)
      ensures AllHomed()
    {
      hide Fitted, ActiveExact, Separated, Begin, Finish, ClassOf;
      forall v: VReg | Live(program, v)
        ensures !IsSpilled(v)
        ensures Floor(IntervalOf(program, v)) <= Assignment(v)
        ensures Assignment(v) < Limit(ClassOf(program, v, |program|))
      {
        var a :| 0 <= a < |ivs| && ivs[a] == IntervalOf(program, v);
        assert spilled[v] ==> v in SpilledSet(spilled);
      }
    }
  }

  lemma OpenTogether(p: Program, v: VReg, u: VReg, w: VReg)
    requires Live(p, v) && u in OpenAtStart(p, v) + {v} && w in OpenAtStart(p, v) + {v}
    ensures Live(p, u) && Live(p, w) && Overlap(IntervalOf(p, u), IntervalOf(p, w))
  {
    IntervalNonEmpty(p, v);
  }

  /** Registers with different homes below a limit are no more than the limit. */
  lemma {:induction false} InjectiveBound(regs: set<VReg>, al: Allocation, limit: nat)
    requires forall u :: u in regs ==> al.Assignment(u) < limit
    requires forall u, w :: u in regs && w in regs && u != w ==> al.Assignment(u) != al.Assignment(w)
    ensures |regs| <= limit
  {
    var homes := HomesOfAll(regs, al);
    SubsetSize(homes, Range(0, limit));
  }

  lemma {:induction false} HomesOfAll(regs: set<VReg>, al: Allocation) returns (homes: set<nat>)
    requires forall u, w :: u in regs && w in regs && u != w ==> al.Assignment(u) != al.Assignment(w)
    ensures |homes| == |regs| && forall q :: q in homes <==> exists u :: u in regs && al.Assignment(u) == q
  {
    if regs == {} {
      homes := {};
    } else {
      var u :| u in regs;
      var rest := HomesOfAll(regs - {u}, al);
      homes := rest + {al.Assignment(u)};
    }
  }

  lemma SortKeepsMembers(s: seq<LiveInterval>, r: seq<LiveInterval>)
    requires multiset(r) == multiset(s)
    requires forall j, k :: 0 <= j < k < |s| ==> s[j].vreg < s[k].vreg
    ensures forall x :: x in r <==> x in s
    ensures forall j, k :: 0 <= j < k < |r| ==> r[j].vreg != r[k].vreg
  {
    forall x ensures x in r <==> x in s {
      assert x in r <==> x in multiset(r);
      assert x in s <==> x in multiset(s);
    }
    forall j, k | 0 <= j < k < |r| ensures r[j].vreg != r[k].vreg {
      if r[j].vreg == r[k].vreg {
        assert r[j] in s && r[k] in s;
        assert r[j] == r[k];
        assert r == r[..j] + [r[j]] + r[j + 1..k] + [r[k]] + r[k + 1..];
        assert multiset(r)[r[j]] >= 2;
        CountOnce(s, r[j]);
        assert false;
      }
    }
  }

  lemma {:induction false} CountOnce(s: seq<LiveInterval>, x: LiveInterval)
    requires forall j, k :: 0 <= j < k < |s| ==> s[j].vreg < s[k].vreg
    ensures multiset(s)[x] <= 1
  {
    if s != [] {
      var n := |s| - 1;
      CountOnce(s[..n], x);
      assert s == s[..n] + [s[n]];
      if s[n] == x {
        assert x !in s[..n];
      }
    }
  }
}
