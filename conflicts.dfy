/** `find_cgroup_mismatches`: after grouping the snapshot by cgroup, every
    unordered pair of distinct cgroups is compared once, in key order, for a
    common CPU in their unions; each intersecting pair contributes one report
    per pair of member processes. */
module Conflicts {
  import opened Text
  import opened Collector
  import opened Grouping

  /** One report `(pid1, pid2, shared)`: `pid1` from the earlier cgroup,
      `pid2` from the later one, `shared` the intersection of the two unions. */
  datatype Mismatch = Mismatch(pid1: Pid, pid2: Pid, shared: set<nat>)

  /** The reports for one process of the first cgroup against the members of the second. */
  function Row(pid1: Pid, pids2: seq<Pid>, shared: set<nat>): (r: seq<Mismatch>)
    ensures |r| == |pids2|
  {
    if pids2 == [] then []
    else Row(pid1, pids2[..|pids2| - 1], shared) + [Mismatch(pid1, pids2[|pids2| - 1], shared)]
  }

  /** The reports for all member pairs of two cgroups. */
  function Cross(pids1: seq<Pid>, pids2: seq<Pid>, shared: set<nat>): (r: seq<Mismatch>)
  {
    if pids1 == [] then []
    else Cross(pids1[..|pids1| - 1], pids2, shared) + Row(pids1[|pids1| - 1], pids2, shared)
  }

  /** Two intersecting cgroups give `|pids1| * |pids2|` reports. */
  lemma {:induction false} CrossCount(pids1: seq<Pid>, pids2: seq<Pid>, shared: set<nat>)
    ensures |Cross(pids1, pids2, shared)| == |pids1| * |pids2|
  {
    if pids1 != [] {
      var n := |pids1|;
      CrossCount(pids1[..n - 1], pids2, shared);
      assert (n - 1) * |pids2| + |pids2| == n * |pids2|;
    }
  }

  /** `cgroup_cpus[cg1] & cgroup_cpus[cg2]` for the i-th and j-th cgroups. */
  function Shared(g: Groups, i: nat, j: nat): set<nat>
    requires WellFormed(g)
    requires i < |g.cgroups| && j < |g.cgroups|
  {
    g.cpus[g.cgroups[i]] * g.cpus[g.cgroups[j]]
  }

  /** The reports of one compared pair of cgroups: none when they share no CPU. */
  function Block(g: Groups, i: nat, j: nat): (r: seq<Mismatch>)
    requires WellFormed(g)
    requires i < |g.cgroups| && j < |g.cgroups|
  {
    var shared := Shared(g, i, j);
    if shared == {} then [] else Cross(g.members[g.cgroups[i]], g.members[g.cgroups[j]], shared)
  }

  /** The reports of the i-th cgroup against the cgroups i+1 .. j-1. */
  function Blocks(g: Groups, i: nat, j: nat): (r: seq<Mismatch>)
    requires WellFormed(g)
    requires i < j <= |g.cgroups|
    decreases j
  {
    if j == i + 1 then [] else Blocks(g, i, j - 1) + Block(g, i, j - 1)
  }

  /** The reports of the first n rows of the upper-triangular scan. */
  function Scan(g: Groups, n: nat): (r: seq<Mismatch>)
    requires WellFormed(g)
    requires n <= |g.cgroups|
  {
    if n == 0 then [] else Scan(g, n - 1) + Blocks(g, n - 1, |g.cgroups|)
  }

  /** One more compared pair extends a row of the scan by that pair's reports. */
  lemma BlocksNext(g: Groups, i: nat, j: nat)
    requires WellFormed(g)
    requires i < j < |g.cgroups|
    ensures Blocks(g, i, j + 1) == Blocks(g, i, j) +
      (var shared := g.cpus[g.cgroups[i]] * g.cpus[g.cgroups[j]];
       if shared == {} then [] else Cross(g.members[g.cgroups[i]], g.members[g.cgroups[j]], shared))
  {
  }

  /** The number of cgroup pairs compared in the first i rows out of c cgroups. */
  function PairTests(c: nat, i: nat): nat
    requires i <= c
  {
    if i == 0 then 0 else PairTests(c, i - 1) + (c - i)
  }

  /** The scan tests each unordered pair once: after i rows,
      i * (2c - 1 - i) / 2 pairs, and c * (c - 1) / 2 in all. */
  lemma {:induction false} PairTestsCount(c: nat, i: nat)
    requires i <= c
    ensures 2 * PairTests(c, i) == i * (2 * c - 1 - i)
  {
    if i > 0 {
      PairTestsCount(c, i - 1);
      assert (i - 1) * (2 * c - i) + 2 * (c - i) == i * (2 * c - 1 - i);
    }
  }

  /** Out of c cgroups, c * (c - 1) / 2 pairs are compared. */
  lemma AllPairTests(c: nat)
    ensures 2 * PairTests(c, c) == c * (c - 1)
  {
    PairTestsCount(c, c);
  }

  /** The two inner loops of the scan: one report per member of the first
      cgroup and member of the second, appended in that order. */
  method AppendMemberPairs(mismatches: seq<Mismatch>, m1: seq<Pid>, m2: seq<Pid>, shared: set<nat>)
    returns (out: seq<Mismatch>)
    ensures out == mismatches + Cross(m1, m2, shared)
  {
    out := mismatches;
    for a := 0 to |m1|
      invariant out == mismatches + Cross(m1[..a], m2, shared)
    {
      for b := 0 to |m2|
        invariant out == mismatches + Cross(m1[..a], m2, shared) + Row(m1[a], m2[..b], shared)
      {
        assert m2[..b + 1][..b] == m2[..b];
        out := out + [Mismatch(m1[a], m2[b], shared)];
      }
      assert m2[..|m2|] == m2;
      assert m1[..a + 1][..a] == m1[..a];
    }
    assert m1[..|m1|] == m1;
  }

  /** One row of the scan: the i-th cgroup against every later one
      (`for cg2 in cgroups[i+1:]`, walked here by the index j of `cg2`). */
  method ScanRow(g: Groups, i: nat, mismatches: seq<Mismatch>) returns (out: seq<Mismatch>, ghost tests: nat)
    requires WellFormed(g)
    requires i < |g.cgroups|
    ensures out == mismatches + Blocks(g, i, |g.cgroups|)
    ensures tests == |g.cgroups| - 1 - i
  {
    var cgroups := g.cgroups;
    var n := |cgroups|;
    var cg1 := cgroups[i];
    out := mismatches;
    tests := 0;
    for j := i + 1 to n
      invariant out == mismatches + Blocks(g, i, j)
      invariant tests == j - i - 1
    {
      var cg2 := cgroups[j];
      var shared := g.cpus[cg1] * g.cpus[cg2];
      tests := tests + 1;
      ghost var row := Blocks(g, i, j);
      BlocksNext(g, i, j);
      if shared != {} {
        ghost var pairs := Cross(g.members[cg1], g.members[cg2], shared);
        out := AppendMemberPairs(out, g.members[cg1], g.members[cg2], shared);
        assert out == mismatches + (row + pairs);
      }
    }
  }

  /** The scan of `find_cgroup_mismatches` over its groups: every pair i < j of
      cgroups in key order, reporting the member pairs of those whose unions
      intersect. The ghost `tests` counts the pairs whose unions are
      intersected. */
  method ScanPairs(g: Groups) returns (mismatches: seq<Mismatch>, ghost tests: nat)
    requires WellFormed(g)
    ensures mismatches == Scan(g, |g.cgroups|)
    ensures tests == PairTests(|g.cgroups|, |g.cgroups|)
  {
    var n := |g.cgroups|;
    mismatches := [];
    tests := 0;
    for i := 0 to n
      invariant mismatches == Scan(g, i)
      invariant tests == PairTests(n, i)
    {
      ghost var rowTests;
      mismatches, rowTests := ScanRow(g, i, mismatches);
      tests := tests + rowTests;
    }
  }

  /** Report `m` comes from the pair (i, j) of cgroups: its processes are
      members of the two, and its CPU set is their non-empty overlap. */
  ghost predicate FromPair(g: Groups, i: nat, j: nat, m: Mismatch)
    requires WellFormed(g)
    requires i < |g.cgroups| && j < |g.cgroups|
  {
    && m.pid1 in g.members[g.cgroups[i]]
    && m.pid2 in g.members[g.cgroups[j]]
    && m.shared == Shared(g, i, j)
    && m.shared != {}
  }

  lemma {:induction false} InRow(pid1: Pid, pids2: seq<Pid>, shared: set<nat>, m: Mismatch)
    ensures m in Row(pid1, pids2, shared) <==> m.pid1 == pid1 && m.pid2 in pids2 && m.shared == shared
  {
    if pids2 != [] {
      var init := pids2[..|pids2| - 1];
      InRow(pid1, init, shared, m);
      assert pids2 == init + [pids2[|pids2| - 1]];
    }
  }

  /** The reports of two cgroups pair every member of the first with every
      member of the second, and nothing else. */
  lemma {:induction false} InCross(pids1: seq<Pid>, pids2: seq<Pid>, shared: set<nat>, m: Mismatch)
    ensures m in Cross(pids1, pids2, shared) <==> m.pid1 in pids1 && m.pid2 in pids2 && m.shared == shared
  {
    if pids1 != [] {
      var init := pids1[..|pids1| - 1];
      InCross(init, pids2, shared, m);
      InRow(pids1[|pids1| - 1], pids2, shared, m);
      assert pids1 == init + [pids1[|pids1| - 1]];
    }
  }

  lemma InBlock(g: Groups, i: nat, j: nat, m: Mismatch)
    requires WellFormed(g)
    requires i < |g.cgroups| && j < |g.cgroups|
    ensures m in Block(g, i, j) <==> FromPair(g, i, j, m)
  {
    InCross(g.members[g.cgroups[i]], g.members[g.cgroups[j]], Shared(g, i, j), m);
  }

  /** Each report of a row comes from one of the row's pairs. */
  lemma {:induction false} BlocksFromPair(g: Groups, i: nat, j: nat, m: Mismatch) returns (k: nat)
    requires WellFormed(g)
    requires i < j <= |g.cgroups|
    requires m in Blocks(g, i, j)
    ensures i < k < j && FromPair(g, i, k, m)
    decreases j
  {
    var before := Blocks(g, i, j - 1);
    assert Blocks(g, i, j) == before + Block(g, i, j - 1);
    if m in before {
      k := BlocksFromPair(g, i, j - 1, m);
    } else {
      InBlock(g, i, j - 1, m);
      k := j - 1;
    }
  }

  /** Each report of a pair of the row is in the row. */
  lemma {:induction false} PairInBlocks(g: Groups, i: nat, j: nat, k: nat, m: Mismatch)
    requires WellFormed(g)
    requires i < k < j <= |g.cgroups|
    requires FromPair(g, i, k, m)
    ensures m in Blocks(g, i, j)
    decreases j
  {
    var before := Blocks(g, i, j - 1);
    assert Blocks(g, i, j) == before + Block(g, i, j - 1);
    if k < j - 1 {
      PairInBlocks(g, i, j - 1, k, m);
      assert m in before;
    } else {
      InBlock(g, i, j - 1, m);
      assert m in Block(g, i, j - 1);
    }
  }

  /** Each report of the scan comes from one of its rows. */
  lemma {:induction false} ScanFromRow(g: Groups, n: nat, m: Mismatch) returns (i: nat)
    requires WellFormed(g)
    requires n <= |g.cgroups|
    requires m in Scan(g, n)
    ensures i < n && m in Blocks(g, i, |g.cgroups|)
  {
    var rest := Scan(g, n - 1);
    assert Scan(g, n) == rest + Blocks(g, n - 1, |g.cgroups|);
    if m in rest {
      i := ScanFromRow(g, n - 1, m);
    } else {
      i := n - 1;
    }
  }

  /** Every report of a scanned row is in the scan. */
  lemma {:induction false} RowInScan(g: Groups, n: nat, i: nat, m: Mismatch)
    requires WellFormed(g)
    requires i < n <= |g.cgroups|
    requires m in Blocks(g, i, |g.cgroups|)
    ensures m in Scan(g, n)
  {
    var rest := Scan(g, n - 1);
    assert Scan(g, n) == rest + Blocks(g, n - 1, |g.cgroups|);
    if i < n - 1 {
      RowInScan(g, n - 1, i, m);
      assert m in rest;
    } else {
      assert m in Blocks(g, n - 1, |g.cgroups|);
    }
  }

  /** The scan reports exactly the member pairs of the cgroup pairs i < j
      whose unions intersect. */
  lemma ScanExact(g: Groups, m: Mismatch)
    requires WellFormed(g)
    ensures m in Scan(g, |g.cgroups|) <==>
              exists i, j :: 0 <= i < j < |g.cgroups| && FromPair(g, i, j, m)
  {
    var n := |g.cgroups|;
    if m in Scan(g, n) {
      var i := ScanFromRow(g, n, m);
      var j := BlocksFromPair(g, i, n, m);
    }
    if exists i, j :: 0 <= i < j < n && FromPair(g, i, j, m) {
      var i, j :| 0 <= i < j < n && FromPair(g, i, j, m);
      PairInBlocks(g, i, n, j, m);
      RowInScan(g, n, i, m);
    }
  }

  /** Both processes have a cgroup, and not the same one. */
  ghost predicate InDistinctGroups(snap: Snapshot, p: Pid, q: Pid)
  {
    && p in snap.procs && q in snap.procs
    && Grouped(snap.procs[p]) && Grouped(snap.procs[q])
    && snap.procs[p].cgroup != snap.procs[q].cgroup
  }

  /** The CPUs common to the cgroups of `p` and `q`, each cgroup's CPUs being
      the union over all its processes. */
  ghost function Overlap(snap: Snapshot, p: Pid, q: Pid): set<nat>
    requires InDistinctGroups(snap, p, q)
  {
    CgroupCpus(snap.procs, snap.procs[p].cgroup.value) * CgroupCpus(snap.procs, snap.procs[q].cgroup.value)
  }

  /** The cgroup of `p` is a key of `by_cgroup` before that of `q`. */
  ghost predicate Before(snap: Snapshot, p: Pid, q: Pid)
    requires ValidSnapshot(snap)
    requires InDistinctGroups(snap, p, q)
  {
    var cgs := GroupsOf(snap).cgroups;
    exists i, j :: 0 <= i < j < |cgs| && cgs[i] == snap.procs[p].cgroup.value && cgs[j] == snap.procs[q].cgroup.value
  }

  /** What the detector reports on a snapshot. */
  ghost function Reports(snap: Snapshot): seq<Mismatch>
    requires ValidSnapshot(snap)
  {
    Scan(GroupsOf(snap), |GroupsOf(snap).cgroups|)
  }

  /** Every report names two processes in different cgroups, the earlier
      cgroup first, with the non-empty overlap of the two cgroups' CPUs. */
  lemma ReportSound(snap: Snapshot, m: Mismatch)
    requires ValidSnapshot(snap)
    requires m in Reports(snap)
    ensures InDistinctGroups(snap, m.pid1, m.pid2)
    ensures m.shared == Overlap(snap, m.pid1, m.pid2) && m.shared != {}
    ensures Before(snap, m.pid1, m.pid2)
  {
    var g := GroupsOf(snap);
    ScanExact(g, m);
    var i, j :| 0 <= i < j < |g.cgroups| && FromPair(g, i, j, m);
    GroupsOfCgroups(snap);
    GroupsOfMembers(snap, g.cgroups[i], m.pid1);
    GroupsOfMembers(snap, g.cgroups[j], m.pid2);
    GroupsOfCpus(snap, g.cgroups[i]);
    GroupsOfCpus(snap, g.cgroups[j]);
  }

  /** The position of a process's cgroup among the groups, with the process
      among its members and the group's CPUs its union. */
  lemma LocateGroup(snap: Snapshot, p: Pid) returns (i: nat)
    requires ValidSnapshot(snap)
    requires p in snap.procs && Grouped(snap.procs[p])
    ensures i < |GroupsOf(snap).cgroups|
    ensures GroupsOf(snap).cgroups[i] == snap.procs[p].cgroup.value
    ensures p in GroupsOf(snap).members[GroupsOf(snap).cgroups[i]]
    ensures GroupsOf(snap).cpus[GroupsOf(snap).cgroups[i]] == CgroupCpus(snap.procs, snap.procs[p].cgroup.value)
  {
    var g := GroupsOf(snap);
    var a := snap.procs[p].cgroup.value;
    GroupsOfCgroups(snap);
    assert a in g.cgroups;
    i :| 0 <= i < |g.cgroups| && g.cgroups[i] == a;
    GroupsOfMembers(snap, a, p);
    GroupsOfCpus(snap, a);
  }

  /** Every two processes in different cgroups whose CPUs overlap are
      reported, in one orientation or the other. */
  lemma ReportComplete(snap: Snapshot, p: Pid, q: Pid)
    requires ValidSnapshot(snap)
    requires InDistinctGroups(snap, p, q)
    requires Overlap(snap, p, q) != {}
    ensures Mismatch(p, q, Overlap(snap, p, q)) in Reports(snap) ||
            Mismatch(q, p, Overlap(snap, p, q)) in Reports(snap)
  {
    var g := GroupsOf(snap);
    var shared := Overlap(snap, p, q);
    var i := LocateGroup(snap, p);
    var j := LocateGroup(snap, q);
    if i < j {
      assert FromPair(g, i, j, Mismatch(p, q, shared));
      ScanExact(g, Mismatch(p, q, shared));
    } else {
      assert i != j;
      assert Shared(g, j, i) == shared;
      assert FromPair(g, j, i, Mismatch(q, p, shared));
      ScanExact(g, Mismatch(q, p, shared));
    }
  }

  /** In a list without repeats, `a` before `b` rules out `b` before `a`. */
  lemma NotBothOrders(cgs: seq<string>, i: nat, j: nat)
    requires Distinct(cgs)
    requires i < j < |cgs|
    ensures forall i2, j2 :: 0 <= i2 < j2 < |cgs| ==> !(cgs[i2] == cgs[j] && cgs[j2] == cgs[i])
  {
    forall i2, j2 | 0 <= i2 < j2 < |cgs| ensures !(cgs[i2] == cgs[j] && cgs[j2] == cgs[i]) {
      assert cgs[i2] == cgs[j] ==> i2 == j;
      assert cgs[j2] == cgs[i] ==> j2 == i;
    }
  }

  /** A pair is never reported in both orientations. */
  lemma OneOrientation(snap: Snapshot, m: Mismatch)
    requires ValidSnapshot(snap)
    requires m in Reports(snap)
    ensures Mismatch(m.pid2, m.pid1, m.shared) !in Reports(snap)
  {
    var cgs := GroupsOf(snap).cgroups;
    ReportSound(snap, m);
    GroupsOfCgroups(snap);
    var i, j :| 0 <= i < j < |cgs| && cgs[i] == snap.procs[m.pid1].cgroup.value && cgs[j] == snap.procs[m.pid2].cgroup.value;
    NotBothOrders(cgs, i, j);
    assert !Before(snap, m.pid2, m.pid1);
    if Mismatch(m.pid2, m.pid1, m.shared) in Reports(snap) {
      ReportSound(snap, Mismatch(m.pid2, m.pid1, m.shared));
    }
  }

  /** `find_cgroup_mismatches`: the groups of the snapshot, then the scan.
      It reports exactly the pairs of processes in different cgroups whose
      cgroups' CPU unions overlap, each pair once, and tests c * (c - 1) / 2
      pairs of cgroups for c cgroups, however many processes there are. */
  method FindCgroupMismatches(snap: Snapshot) returns (mismatches: seq<Mismatch>, ghost tests: nat)
    requires ValidSnapshot(snap)
    ensures mismatches == Reports(snap)
    ensures forall m :: m in mismatches ==>
              InDistinctGroups(snap, m.pid1, m.pid2) && m.shared == Overlap(snap, m.pid1, m.pid2) && m.shared != {}
    ensures forall p, q :: InDistinctGroups(snap, p, q) && Overlap(snap, p, q) != {} ==>
              Mismatch(p, q, Overlap(snap, p, q)) in mismatches || Mismatch(q, p, Overlap(snap, p, q)) in mismatches
    ensures forall m :: m in mismatches ==> Mismatch(m.pid2, m.pid1, m.shared) !in mismatches
    ensures 2 * tests == |GroupsOf(snap).cgroups| * (|GroupsOf(snap).cgroups| - 1)
  {
    var g := BuildGroups(snap);
    mismatches, tests := ScanPairs(g);
    AllPairTests(|g.cgroups|);
    forall m | m in mismatches
      ensures InDistinctGroups(snap, m.pid1, m.pid2) && m.shared == Overlap(snap, m.pid1, m.pid2) && m.shared != {}
      ensures Mismatch(m.pid2, m.pid1, m.shared) !in mismatches
    {
      ReportSound(snap, m);
      OneOrientation(snap, m);
    }
    forall p, q | InDistinctGroups(snap, p, q) && Overlap(snap, p, q) != {}
      ensures Mismatch(p, q, Overlap(snap, p, q)) in mismatches || Mismatch(q, p, Overlap(snap, p, q)) in mismatches
    {
      ReportComplete(snap, p, q);
    }
  }

  lemma TwoOrder(order: seq<Pid>, procs: map<Pid, ProcRecord>, p: Pid, q: Pid)
    requires order == [p, q]
    requires p in procs && q in procs
    requires Grouped(procs[p]) && Grouped(procs[q])
    requires procs[p].cgroup != procs[q].cgroup
    ensures Covers(order, procs)
    ensures CgroupOrder(order, procs) == [procs[p].cgroup.value, procs[q].cgroup.value]
    ensures Members(order, procs, procs[p].cgroup.value) == [p]
    ensures Members(order, procs, procs[q].cgroup.value) == [q]
  {
    assert order[..1] == [p];
    assert order[..1][..0] == [];
    assert CgroupOrder([], procs) == [];
    assert CgroupOrder(order[..1], procs) == [procs[p].cgroup.value];
    var a := procs[p].cgroup.value;
    var b := procs[q].cgroup.value;
    assert Members(order[..1], procs, a) == [p];
    assert Members(order[..1], procs, b) == [];
  }

  lemma SingleUnion(pid: Pid, procs: map<Pid, ProcRecord>)
    requires pid in procs
    ensures UnionOf([pid], procs) == procs[pid].cpus
  {
    assert [pid][..0] == [];
  }

  /** The groups of a snapshot of two processes in two different cgroups. */
  lemma TwoGroups(snap: Snapshot, p: Pid, q: Pid)
    requires snap.order == [p, q] && p != q
    requires snap.procs.Keys == {p, q}
    requires Grouped(snap.procs[p]) && Grouped(snap.procs[q])
    requires snap.procs[p].cgroup != snap.procs[q].cgroup
    ensures ValidSnapshot(snap)
    ensures GroupsOf(snap).cgroups == [snap.procs[p].cgroup.value, snap.procs[q].cgroup.value]
    ensures GroupsOf(snap).members[snap.procs[p].cgroup.value] == [p]
    ensures GroupsOf(snap).members[snap.procs[q].cgroup.value] == [q]
    ensures GroupsOf(snap).cpus[snap.procs[p].cgroup.value] == snap.procs[p].cpus
    ensures GroupsOf(snap).cpus[snap.procs[q].cgroup.value] == snap.procs[q].cpus
  {
    TwoOrder(snap.order, snap.procs, p, q);
    SingleUnion(p, snap.procs);
    SingleUnion(q, snap.procs);
  }

  /** With two cgroups the scan tests the one pair. */
  lemma TwoScan(g: Groups)
    requires WellFormed(g)
    requires |g.cgroups| == 2
    ensures Scan(g, 2) == Block(g, 0, 1)
  {
    assert Scan(g, 2) == Scan(g, 1) + Blocks(g, 1, 2);
    assert Scan(g, 1) == Blocks(g, 0, 2);
  }

  lemma SingleCross(p: Pid, q: Pid, shared: set<nat>)
    ensures Cross([p], [q], shared) == [Mismatch(p, q, shared)]
  {
    assert [p][..0] == [] && [q][..0] == [];
  }

  lemma OnlyCpuOneShared()
    ensures {0, 1} * {1, 2} == {1}
  {
  }

  /** Two processes in two cgroups, on CPUs {0, 1} and {1, 2}: one report,
      sharing CPU 1. */
  lemma SharedCpuExample(snap: Snapshot, p: Pid, q: Pid)
    requires snap.order == [p, q] && p != q
    requires snap.procs.Keys == {p, q}
    requires Grouped(snap.procs[p]) && Grouped(snap.procs[q])
    requires snap.procs[p].cgroup != snap.procs[q].cgroup
    requires snap.procs[p].cpus == {0, 1} && snap.procs[q].cpus == {1, 2}
    ensures ValidSnapshot(snap)
    ensures Reports(snap) == [Mismatch(p, q, {1})]
  {
    TwoGroups(snap, p, q);
    var g := GroupsOf(snap);
    TwoScan(g);
    OnlyCpuOneShared();
    SingleCross(p, q, {1});
  }
}
