/** The busiest processes between two samples: find_prev_ticks and compute_top5 of system_service/sys_stat.c. */
module TopProcs {
  import opened Bytes

  const MAX_PROCS := 512

  datatype Proc = Proc(pid: int, ticks: nat, comm: string)

  /** A process that ran between the samples, for `dt` ticks. */
  datatype Entry = Entry(dt: nat, pid: int, comm: string)

  /** The ticks of the first sample for this pid, 0 for a process that is new. */
  function PrevTicks(prev: seq<Proc>, pid: int): nat {
    if prev == [] then 0 else if prev[0].pid == pid then prev[0].ticks else PrevTicks(prev[1..], pid)
  }

  /** Sample `i` is the first of this pid. */
  ghost predicate IsFirst(prev: seq<Proc>, i: nat, pid: int) {
    i < |prev| && prev[i].pid == pid && forall j :: 0 <= j < i ==> prev[j].pid != pid
  }

  ghost predicate IsNew(prev: seq<Proc>, pid: int) {
    forall i :: 0 <= i < |prev| ==> prev[i].pid != pid
  }

  method FindPrevTicks(prev: seq<Proc>, pid: int) returns (ticks: nat)
    ensures (exists i: nat :: IsFirst(prev, i, pid) && ticks == prev[i].ticks) || (IsNew(prev, pid) && ticks == 0)
    ensures ticks == PrevTicks(prev, pid)
  {
    var i := 0;
    while i < |prev|
      invariant 0 <= i <= |prev|
      invariant forall j :: 0 <= j < i ==> prev[j].pid != pid
      invariant PrevTicks(prev, pid) == PrevTicks(prev[i..], pid)
    {
      if prev[i].pid == pid {
        assert IsFirst(prev, i, pid);
        return prev[i].ticks;
      }
      assert prev[i..][1..] == prev[i + 1..];
      i := i + 1;
    }
    return 0;
  }

  lemma {:induction false} PrevTicksOf(prev: seq<Proc>, pid: int)
    ensures IsNew(prev, pid) ==> PrevTicks(prev, pid) == 0
    ensures forall i: nat :: IsFirst(prev, i, pid) ==> PrevTicks(prev, pid) == prev[i].ticks
  {
    if prev == [] {
    } else {
      PrevTicksOf(prev[1..], pid);
      assert IsNew(prev, pid) ==> prev[0].pid != pid && IsNew(prev[1..], pid);
      forall i: nat | IsFirst(prev, i, pid)
        ensures PrevTicks(prev, pid) == prev[i].ticks
      {
        if i > 0 { assert IsFirst(prev[1..], i - 1, pid); }
      }
    }
  }

  predicate Ran(prev: seq<Proc>, p: Proc) {
    p.ticks > PrevTicks(prev, p.pid)
  }

  function Delta(prev: seq<Proc>, p: Proc): Entry
    requires Ran(prev, p)
  {
    Entry(p.ticks - PrevTicks(prev, p.pid), p.pid, p.comm)
  }

  /** The processes that ran, in the order of the current sample. */
  function Deltas(prev: seq<Proc>, cur: seq<Proc>): seq<Entry> {
    if cur == [] then []
    else
      var p := cur[|cur| - 1];
      Deltas(prev, cur[..|cur| - 1]) + (if Ran(prev, p) then [Delta(prev, p)] else [])
  }

  /** What fits into the table of entries; all of them for a sample of at most MAX_PROCS processes. */
  function Taken(prev: seq<Proc>, cur: seq<Proc>): seq<Entry> {
    Deltas(prev, cur)[..Min(MAX_PROCS, |Deltas(prev, cur)|)]
  }

  lemma {:induction false} DeltasPrefix(prev: seq<Proc>, cur: seq<Proc>, i: nat)
    requires i <= |cur|
    ensures Deltas(prev, cur[..i]) <= Deltas(prev, cur)
  {
    if i == |cur| {
      assert cur[..i] == cur;
    } else {
      DeltasPrefix(prev, cur[..|cur| - 1], i);
      assert cur[..|cur| - 1][..i] == cur[..i];
    }
  }

  predicate DistinctPids(entries: seq<Entry>) {
    forall i, j :: 0 <= i < j < |entries| ==> entries[i].pid != entries[j].pid
  }

  predicate DistinctProcs(procs: seq<Proc>) {
    forall i, j :: 0 <= i < j < |procs| ==> procs[i].pid != procs[j].pid
  }

  /** Every entry is a current process that ran, and every such process has an entry. */
  lemma {:induction false} DeltasExact(prev: seq<Proc>, cur: seq<Proc>, e: Entry)
    ensures e in Deltas(prev, cur) <==> exists p :: p in cur && Ran(prev, p) && Delta(prev, p) == e
  {
    if cur == [] {
    } else {
      var front, last := cur[..|cur| - 1], cur[|cur| - 1];
      DeltasExact(prev, front, e);
      assert forall p :: p in cur <==> p in front || p == last;
    }
  }

  /** A current process has an entry exactly when it ran: a new one for all its ticks, another one for the ticks
      beyond those of its first sample before. */
  lemma EntriesMean(prev: seq<Proc>, cur: seq<Proc>, p: Proc, dt: nat)
    requires p in cur && dt > 0
    ensures IsNew(prev, p.pid) && p.ticks == dt ==> Entry(dt, p.pid, p.comm) in Deltas(prev, cur)
    ensures forall i: nat :: IsFirst(prev, i, p.pid) && p.ticks == prev[i].ticks + dt ==>
              Entry(dt, p.pid, p.comm) in Deltas(prev, cur)
  {
    PrevTicksOf(prev, p.pid);
    DeltasExact(prev, cur, Entry(dt, p.pid, p.comm));
    assert p.ticks == PrevTicks(prev, p.pid) + dt ==> Delta(prev, p) == Entry(dt, p.pid, p.comm);
  }

  /** And every entry is of that kind. */
  lemma EntryMeans(prev: seq<Proc>, cur: seq<Proc>, e: Entry) returns (p: Proc, i: nat)
    requires e in Deltas(prev, cur)
    ensures p in cur && e.dt > 0 && e.pid == p.pid && e.comm == p.comm
    ensures (IsNew(prev, p.pid) && p.ticks == e.dt) || (IsFirst(prev, i, p.pid) && p.ticks == prev[i].ticks + e.dt)
  {
    DeltasExact(prev, cur, e);
    p :| p in cur && Ran(prev, p) && Delta(prev, p) == e;
    PrevTicksOf(prev, p.pid);
    i := FirstOrNew(prev, p.pid);
  }

  lemma {:induction false} FirstOrNew(prev: seq<Proc>, pid: int) returns (i: nat)
    ensures IsNew(prev, pid) || IsFirst(prev, i, pid)
  {
    i := 0;
    if prev == [] || prev[0].pid == pid {
    } else {
      var k := FirstOrNew(prev[1..], pid);
      i := k + 1;
      assert forall j :: 1 <= j < |prev| ==> prev[j] == prev[1..][j - 1];
    }
  }

  lemma {:induction false} DeltasDistinct(prev: seq<Proc>, cur: seq<Proc>)
    requires DistinctProcs(cur)
    ensures |Deltas(prev, cur)| <= |cur| && DistinctPids(Deltas(prev, cur)) && DistinctPids(Taken(prev, cur))
  {
    if cur == [] {
    } else {
      var front := cur[..|cur| - 1];
      DeltasDistinct(prev, front);
      forall e | e in Deltas(prev, front)
        ensures e.pid != cur[|cur| - 1].pid
      {
        DeltasExact(prev, front, e);
      }
    }
  }

  // ---------- partial selection sort ----------

  function Swapped(s: seq<Entry>, i: nat, j: nat): seq<Entry>
    requires i < |s| && j < |s|
  {
    s[i := s[j]][j := s[i]]
  }

  /** `t` is reached from `s` by permuting entries; pids stay distinct if they were. */
  ghost predicate Permutes(s: seq<Entry>, t: seq<Entry>) {
    SameEntries(s, t) && (DistinctPids(s) ==> DistinctPids(t))
  }

  ghost predicate SameEntries(s: seq<Entry>, t: seq<Entry>) {
    |s| == |t| && multiset(s) == multiset(t)
  }

  lemma SwapPermutes(s: seq<Entry>, t: seq<Entry>, i: nat, j: nat)
    requires Permutes(s, t) && i < |t| && j < |t|
    ensures Permutes(s, Swapped(t, i, j))
  {
  }

  /** The first `n` entries are in non-increasing order and no later entry exceeds any of them. */
  ghost predicate Leads(s: seq<Entry>, n: nat) {
    n <= |s| && forall i, j :: 0 <= i < n && i < j < |s| ==> s[i].dt >= s[j].dt
  }

  ghost predicate Largest(s: seq<Entry>, i: nat, best: nat) {
    best < |s| && forall j :: i <= j < |s| ==> s[j].dt <= s[best].dt
  }

  /** No entry from `i` on comes before an equal one. */
  ghost predicate NoneBefore(s: seq<Entry>, i: nat, best: nat) {
    best < |s| && forall j :: i <= j < best ==> s[j].dt < s[best].dt
  }

  lemma SwapLeads(s: seq<Entry>, i: nat, best: nat)
    requires i <= best < |s| && Leads(s, i) && Largest(s, i, best)
    ensures Leads(Swapped(s, i, best), i + 1)
  {
  }

  /** compute_top5; `rest` holds the entries that are left out. */
  method ComputeTop(prev: seq<Proc>, cur: seq<Proc>, outMax: nat)
    returns (top: seq<Entry>, ghost rest: seq<Entry>)
    ensures |top| == Min(outMax, |Taken(prev, cur)|)
    ensures Permutes(Taken(prev, cur), top + rest)
    ensures Leads(top + rest, |top|)
  {
    var entries, k := Collect(prev, cur);
    var want := if k < outMax then k else outMax;
    top := Arrange(entries, k, want, Taken(prev, cur));
    rest := entries[..k][want..];
    assert top + rest == entries[..k];
  }

  method Arrange(entries: array<Entry>, k: nat, want: nat, ghost given: seq<Entry>) returns (top: seq<Entry>)
    requires want <= k <= entries.Length && Permutes(given, entries[..k])
    modifies entries
    ensures Permutes(given, entries[..k]) && Leads(entries[..k], want)
    ensures top == entries[..k][..want]
  {
    top := [];
    var i := 0;
    while i < want
      invariant 0 <= i <= want
      invariant Permutes(given, entries[..k]) && Leads(entries[..k], i)
      invariant top == entries[..k][..i]
    {
      Select(entries, i, k, given);
      top := top + [entries[i]];
      i := i + 1;
    }
  }

  /** One round of the sort: the first of the largest entries from `i` on comes to place `i`. */
  method Select(entries: array<Entry>, i: nat, k: nat, ghost given: seq<Entry>)
    requires i < k <= entries.Length && Permutes(given, entries[..k]) && Leads(entries[..k], i)
    modifies entries
    ensures Permutes(given, entries[..k]) && Leads(entries[..k], i + 1)
    ensures entries[..k][..i] == old(entries[..k])[..i]
  {
    var best := Best(entries, i, k);
    ghost var now := entries[..k];
    SwapPermutes(given, now, i, best);
    SwapLeads(now, i, best);
    Exchange(entries, i, best, k);
    assert Swapped(now, i, best)[..i] == now[..i];
  }

  method Exchange(entries: array<Entry>, i: nat, j: nat, k: nat)
    requires i < k <= entries.Length && j < k
    modifies entries
    ensures entries[..k] == Swapped(old(entries[..k]), i, j)
  {
    entries[i], entries[j] := entries[j], entries[i];
  }

  /** The first of the largest entries from `i` on. */
  method Best(entries: array<Entry>, i: nat, k: nat) returns (best: nat)
    requires i < k <= entries.Length
    ensures i <= best < k && Largest(entries[..k], i, best)
    ensures NoneBefore(entries[..k], i, best)
  {
    best := i;
    var j := i + 1;
    while j < k
      invariant i < j <= k && i <= best < j
      invariant forall m :: i <= m < j ==> entries[m].dt <= entries[best].dt
      invariant forall m :: i <= m < best ==> entries[m].dt < entries[best].dt
    {
      if entries[j].dt > entries[best].dt {
        best := j;
      }
      j := j + 1;
    }
  }

  /** The entries of the processes that ran; a full array of MAX_PROCS ends the loop. */
  method Collect(prev: seq<Proc>, cur: seq<Proc>) returns (entries: array<Entry>, k: nat)
    ensures fresh(entries) && entries.Length == MAX_PROCS && k <= MAX_PROCS
    ensures entries[..k] == Taken(prev, cur)
  {
    entries := new Entry[MAX_PROCS](_ => Entry(0, 0, ""));
    k := 0;
    var i := 0;
    while i < |cur| && k < MAX_PROCS
      invariant 0 <= k <= i <= |cur| && k <= MAX_PROCS
      invariant entries[..k] == Deltas(prev, cur[..i])
    {
      var pt := FindPrevTicks(prev, cur[i].pid);
      assert cur[..i + 1][..i] == cur[..i];
      if cur[i].ticks > pt {
        entries[k] := Entry(cur[i].ticks - pt, cur[i].pid, cur[i].comm);
        assert entries[..k + 1] == entries[..k] + [entries[k]];
        k := k + 1;
      }
      i := i + 1;
    }
    DeltasPrefix(prev, cur, i);
    assert cur[..|cur|] == cur;
  }
}
