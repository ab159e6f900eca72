/** Grouping of a snapshot by cgroup, and the CPU union of each group: the
    first two steps of `find_cgroup_mismatches`, which `print_stats` repeats.
    `by_cgroup` is a dict whose keys keep their insertion order; it is modelled
    as that order (`cgroups`) beside the mapping (`byCgroup`). */
module Grouping {
  import opened Text
  import opened Collector

  /** `if cg := info['cgroup']`: the cgroup is present and non-empty. */
  predicate Grouped(r: ProcRecord)
  {
    r.cgroup.Some? && r.cgroup.value != ""
  }

  /** The process belongs to group `cg`. */
  predicate InGroup(r: ProcRecord, cg: string)
  {
    Grouped(r) && r.cgroup.value == cg
  }

  ghost predicate Distinct<T>(s: seq<T>)
  {
    forall i, j :: 0 <= i < j < |s| ==> s[i] != s[j]
  }

  ghost predicate Covers(order: seq<Pid>, procs: map<Pid, ProcRecord>)
  {
    forall k :: 0 <= k < |order| ==> order[k] in procs
  }

  /** The keys of `by_cgroup`: each cgroup once, in order of first appearance. */
  function CgroupOrder(order: seq<Pid>, procs: map<Pid, ProcRecord>): (r: seq<string>)
    requires Covers(order, procs)
    ensures forall k :: 0 <= k < |r| ==> r[k] != ""
    ensures |r| <= |order|
  {
    if order == [] then []
    else
      var prev := CgroupOrder(order[..|order| - 1], procs);
      var info := procs[order[|order| - 1]];
      if Grouped(info) && info.cgroup.value !in prev then prev + [info.cgroup.value] else prev
  }

  /** The group order lists each cgroup once, and exactly the cgroups some
      process carries. */
  lemma {:induction false} CgroupOrderExact(order: seq<Pid>, procs: map<Pid, ProcRecord>)
    requires Covers(order, procs)
    ensures Distinct(CgroupOrder(order, procs))
    ensures forall cg :: cg in CgroupOrder(order, procs) <==>
              exists k :: 0 <= k < |order| && InGroup(procs[order[k]], cg)
  {
    if order != [] {
      var init := order[..|order| - 1];
      CgroupOrderExact(init, procs);
      var info := procs[order[|order| - 1]];
      forall cg | exists k :: 0 <= k < |order| && InGroup(procs[order[k]], cg)
        ensures (exists k :: 0 <= k < |init| && InGroup(procs[init[k]], cg)) || InGroup(info, cg)
      {
        var k :| 0 <= k < |order| && InGroup(procs[order[k]], cg);
        if k < |init| {
          assert init[k] == order[k];
        }
      }
      forall cg, k | 0 <= k < |init| && InGroup(procs[init[k]], cg)
        ensures exists k :: 0 <= k < |order| && InGroup(procs[order[k]], cg)
      {
        assert order[k] == init[k];
      }
    }
  }

  /** `by_cgroup[cg]`: the pids of group `cg`, in snapshot order. */
  function Members(order: seq<Pid>, procs: map<Pid, ProcRecord>, cg: string): (r: seq<Pid>)
    requires Covers(order, procs)
    ensures |r| <= |order|
    ensures forall k :: 0 <= k < |r| ==> r[k] in procs && InGroup(procs[r[k]], cg)
  {
    if order == [] then []
    else
      var pid := order[|order| - 1];
      Members(order[..|order| - 1], procs, cg) + (if InGroup(procs[pid], cg) then [pid] else [])
  }

  /** A group holds exactly the processes labelled with its cgroup. */
  lemma {:induction false} MembersExact(order: seq<Pid>, procs: map<Pid, ProcRecord>, cg: string, pid: Pid)
    requires Covers(order, procs)
    ensures pid in Members(order, procs, cg) <==> pid in order && InGroup(procs[pid], cg)
  {
    if order != [] {
      var init := order[..|order| - 1];
      MembersExact(init, procs, cg, pid);
      assert order == init + [order[|order| - 1]];
    }
  }

  /** `set().union(*(procs[pid]['cpus'] for pid in pids))` */
  function UnionOf(pids: seq<Pid>, procs: map<Pid, ProcRecord>): (r: set<nat>)
    requires forall k :: 0 <= k < |pids| ==> pids[k] in procs
    ensures forall c :: c in r <==> exists k :: 0 <= k < |pids| && c in procs[pids[k]].cpus
  {
    if pids == [] then {}
    else
      var init := pids[..|pids| - 1];
      var r := UnionOf(init, procs) + procs[pids[|pids| - 1]].cpus;
      assert forall c :: c in r ==> exists k :: 0 <= k < |pids| && c in procs[pids[k]].cpus by {
        forall c | c in r ensures exists k :: 0 <= k < |pids| && c in procs[pids[k]].cpus {
          if c !in procs[pids[|pids| - 1]].cpus {
            var k :| 0 <= k < |init| && c in procs[init[k]].cpus;
            assert pids[k] == init[k];
          }
        }
      }
      assert forall c :: (exists k :: 0 <= k < |pids| && c in procs[pids[k]].cpus) ==> c in r by {
        forall c | exists k :: 0 <= k < |pids| && c in procs[pids[k]].cpus ensures c in r {
          var k :| 0 <= k < |pids| && c in procs[pids[k]].cpus;
          if k < |init| {
            assert init[k] == pids[k];
          }
        }
      }
      r
  }

  /** The CPU union of a cgroup, stated without reference to the loops: every
      CPU of every process in the cgroup. */
  ghost function CgroupCpus(procs: map<Pid, ProcRecord>, cg: string): set<nat>
  {
    set pid, c | pid in procs && InGroup(procs[pid], cg) && c in procs[pid].cpus :: c
  }

  /** The union over a group's members is the CPU union of the cgroup. */
  lemma UnionOfMembers(snap: Snapshot, cg: string)
    requires ValidSnapshot(snap)
    ensures Covers(snap.order, snap.procs)
    ensures UnionOf(Members(snap.order, snap.procs, cg), snap.procs) == CgroupCpus(snap.procs, cg)
  {
    var ms := Members(snap.order, snap.procs, cg);
    forall c | c in CgroupCpus(snap.procs, cg) ensures c in UnionOf(ms, snap.procs) {
      var pid :| pid in snap.procs && InGroup(snap.procs[pid], cg) && c in snap.procs[pid].cpus;
      MembersExact(snap.order, snap.procs, cg, pid);
      var k :| 0 <= k < |ms| && ms[k] == pid;
    }
    forall c | c in UnionOf(ms, snap.procs) ensures c in CgroupCpus(snap.procs, cg) {
      var k :| 0 <= k < |ms| && c in snap.procs[ms[k]].cpus;
      MembersExact(snap.order, snap.procs, cg, ms[k]);
    }
  }

  /** The cgroups, their members and their CPU unions. */
  datatype Groups = Groups(cgroups: seq<string>, members: map<string, seq<Pid>>, cpus: map<string, set<nat>>)

  /** Every listed cgroup has its members and its CPUs. */
  ghost predicate WellFormed(g: Groups)
  {
    forall k :: 0 <= k < |g.cgroups| ==> g.cgroups[k] in g.members && g.cgroups[k] in g.cpus
  }

  /** The members of each listed cgroup. */
  ghost function MembersMap(snap: Snapshot): map<string, seq<Pid>>
    requires ValidSnapshot(snap)
  {
    map cg | cg in CgroupOrder(snap.order, snap.procs) :: Members(snap.order, snap.procs, cg)
  }

  /** The CPU union of each listed cgroup. */
  ghost function CpusMap(snap: Snapshot): map<string, set<nat>>
    requires ValidSnapshot(snap)
  {
    map cg | cg in CgroupOrder(snap.order, snap.procs) :: UnionOf(Members(snap.order, snap.procs, cg), snap.procs)
  }

  /** The groups of a snapshot, defined directly from its processes: each
      cgroup in order of first appearance, its members and its CPU union. */
  ghost function GroupsOf(snap: Snapshot): (g: Groups)
    requires ValidSnapshot(snap)
    ensures WellFormed(g)
  {
    Groups(CgroupOrder(snap.order, snap.procs), MembersMap(snap), CpusMap(snap))
  }

  /** Each cgroup is listed once, and the listed cgroups are exactly the
      non-empty labels some process carries: a process whose cgroup is `None`
      or empty is in no group. */
  lemma GroupsOfCgroups(snap: Snapshot)
    requires ValidSnapshot(snap)
    ensures Distinct(GroupsOf(snap).cgroups)
    ensures forall cg :: cg in GroupsOf(snap).cgroups <==>
              cg != "" && exists pid :: pid in snap.procs && snap.procs[pid].cgroup == Some(cg)
  {
    var cgs := GroupsOf(snap).cgroups;
    CgroupOrderExact(snap.order, snap.procs);
    forall cg | cg != "" && exists pid :: pid in snap.procs && snap.procs[pid].cgroup == Some(cg)
      ensures cg in cgs
    {
      var pid :| pid in snap.procs && snap.procs[pid].cgroup == Some(cg);
      var k :| 0 <= k < |snap.order| && snap.order[k] == pid;
      assert InGroup(snap.procs[snap.order[k]], cg);
    }
    forall cg | cg in cgs
      ensures cg != "" && exists pid :: pid in snap.procs && snap.procs[pid].cgroup == Some(cg)
    {
      var k :| 0 <= k < |snap.order| && InGroup(snap.procs[snap.order[k]], cg);
      assert snap.procs[snap.order[k]].cgroup == Some(cg);
    }
  }

  /** A group's members are exactly the processes labelled with its cgroup. */
  lemma GroupsOfMembers(snap: Snapshot, cg: string, pid: Pid)
    requires ValidSnapshot(snap)
    requires cg in GroupsOf(snap).cgroups
    ensures pid in GroupsOf(snap).members[cg] <==> pid in snap.procs && snap.procs[pid].cgroup == Some(cg)
  {
    GroupsOfCgroups(snap);
    MembersExact(snap.order, snap.procs, cg, pid);
  }

  /** A group's CPUs are the union of its members' CPUs. */
  lemma GroupsOfCpus(snap: Snapshot, cg: string)
    requires ValidSnapshot(snap)
    requires cg in GroupsOf(snap).cgroups
    ensures GroupsOf(snap).cpus[cg] == CgroupCpus(snap.procs, cg)
  {
    UnionOfMembers(snap, cg);
  }

  /** `by_cgroup.get(cg, [])` */
  function Lookup(byCgroup: map<string, seq<Pid>>, cg: string): seq<Pid>
  {
    if cg in byCgroup then byCgroup[cg] else []
  }

  /** One step of the grouping loop: `by_cgroup.setdefault(cg, []).append(pid)`
      when the process has a cgroup. */
  function GroupInto(byCgroup: map<string, seq<Pid>>, pid: Pid, info: ProcRecord): map<string, seq<Pid>>
  {
    if Grouped(info) then
      var cg := info.cgroup.value;
      byCgroup[cg := Lookup(byCgroup, cg) + [pid]]
    else byCgroup
  }

  /** `by_cgroup` once the loop has seen the processes `order`. */
  function GroupAll(order: seq<Pid>, procs: map<Pid, ProcRecord>): map<string, seq<Pid>>
    requires Covers(order, procs)
  {
    if order == [] then map[]
    else
      var pid := order[|order| - 1];
      GroupInto(GroupAll(order[..|order| - 1], procs), pid, procs[pid])
  }

  /** The loop's mapping has a key for each listed cgroup, holding its members. */
  lemma {:induction false} GroupAllExact(order: seq<Pid>, procs: map<Pid, ProcRecord>)
    requires Covers(order, procs)
    ensures forall cg :: cg in GroupAll(order, procs) <==> cg in CgroupOrder(order, procs)
    ensures forall cg :: Lookup(GroupAll(order, procs), cg) == Members(order, procs, cg)
  {
    if order != [] {
      GroupAllExact(order[..|order| - 1], procs);
    }
  }

  /** One more process: the fold and the group order take one step. */
  lemma GroupStep(order: seq<Pid>, procs: map<Pid, ProcRecord>, i: nat)
    requires Covers(order, procs)
    requires i < |order|
    ensures Covers(order[..i], procs) && Covers(order[..i + 1], procs)
    ensures var info := procs[order[i]]; var prev := CgroupOrder(order[..i], procs);
      CgroupOrder(order[..i + 1], procs) ==
        if Grouped(info) && info.cgroup.value !in prev then prev + [info.cgroup.value] else prev
    ensures GroupAll(order[..i + 1], procs) == GroupInto(GroupAll(order[..i], procs), order[i], procs[order[i]])
    ensures forall cg :: cg in GroupAll(order[..i], procs) <==> cg in CgroupOrder(order[..i], procs)
  {
    assert order[..i + 1][..i] == order[..i];
    GroupAllExact(order[..i], procs);
  }

  /** After the loop: the keys are the group order, and each list holds its group's members. */
  lemma GroupLoopDone(order: seq<Pid>, procs: map<Pid, ProcRecord>, byCgroup: map<string, seq<Pid>>)
    requires Covers(order, procs)
    requires byCgroup == GroupAll(order[..|order|], procs)
    ensures forall cg :: cg in byCgroup <==> cg in CgroupOrder(order, procs)
    ensures forall cg :: cg in byCgroup ==> byCgroup[cg] == Members(order, procs, cg)
  {
    assert order[..|order|] == order;
    GroupAllExact(order, procs);
    forall cg | cg in byCgroup ensures byCgroup[cg] == Members(order, procs, cg) {
      assert Lookup(byCgroup, cg) == byCgroup[cg];
    }
  }

  /** The grouping loop of `find_cgroup_mismatches`: `by_cgroup.setdefault(cg, []).append(pid)`
      for every process with a cgroup, in snapshot order. */
  method GroupByCgroup(snap: Snapshot) returns (cgroups: seq<string>, byCgroup: map<string, seq<Pid>>)
    requires Covers(snap.order, snap.procs)
    ensures cgroups == CgroupOrder(snap.order, snap.procs)
    ensures forall cg :: cg in byCgroup <==> cg in cgroups
    ensures forall cg :: cg in byCgroup ==> byCgroup[cg] == Members(snap.order, snap.procs, cg)
  {
    cgroups := [];
    byCgroup := map[];
    for i := 0 to |snap.order|
      invariant cgroups == CgroupOrder(snap.order[..i], snap.procs)
      invariant byCgroup == GroupAll(snap.order[..i], snap.procs)
    {
      GroupStep(snap.order, snap.procs, i);
      var pid := snap.order[i];
      var info := snap.procs[pid];
      if info.cgroup.Some? && info.cgroup.value != "" {
        var cg := info.cgroup.value;
        if cg !in byCgroup {
          cgroups := cgroups + [cg];
        }
        byCgroup := byCgroup[cg := Lookup(byCgroup, cg) + [pid]];
      }
    }
    assert snap.order[..|snap.order|] == snap.order;
    GroupLoopDone(snap.order, snap.procs, byCgroup);
  }

  /** `cgroup_cpus[cg] = set().union(...)` for every group, in key order. */
  method CgroupUnions(procs: map<Pid, ProcRecord>, cgroups: seq<string>, byCgroup: map<string, seq<Pid>>)
    returns (cgroupCpus: map<string, set<nat>>)
    requires forall cg :: cg in byCgroup <==> cg in cgroups
    requires forall cg, k :: cg in byCgroup && 0 <= k < |byCgroup[cg]| ==> byCgroup[cg][k] in procs
    ensures forall cg :: cg in cgroupCpus <==> cg in cgroups
    ensures forall cg :: cg in cgroupCpus ==> cgroupCpus[cg] == UnionOf(byCgroup[cg], procs)
  {
    cgroupCpus := map[];
    for i := 0 to |cgroups|
      invariant forall cg :: cg in cgroupCpus <==> cg in cgroups[..i]
      invariant forall cg :: cg in cgroupCpus ==> cgroupCpus[cg] == UnionOf(byCgroup[cg], procs)
    {
      var cg := cgroups[i];
      cgroupCpus := cgroupCpus[cg := UnionOf(byCgroup[cg], procs)];
    }
    assert cgroups[..|cgroups|] == cgroups;
  }

  lemma MembersMatch(snap: Snapshot, cgroups: seq<string>, byCgroup: map<string, seq<Pid>>)
    requires ValidSnapshot(snap)
    requires cgroups == CgroupOrder(snap.order, snap.procs)
    requires forall cg :: cg in byCgroup <==> cg in cgroups
    requires forall cg :: cg in byCgroup ==> byCgroup[cg] == Members(snap.order, snap.procs, cg)
    ensures byCgroup == MembersMap(snap)
  {
  }

  lemma CpusMatch(snap: Snapshot, cgroups: seq<string>, cgroupCpus: map<string, set<nat>>)
    requires ValidSnapshot(snap)
    requires cgroups == CgroupOrder(snap.order, snap.procs)
    requires forall cg :: cg in cgroupCpus <==> cg in cgroups
    requires forall cg :: cg in cgroupCpus ==> cgroupCpus[cg] == UnionOf(Members(snap.order, snap.procs, cg), snap.procs)
    ensures cgroupCpus == CpusMap(snap)
  {
  }

  /** The results of the two loops are the groups of the snapshot. */
  lemma GroupsMatch(snap: Snapshot, cgroups: seq<string>, byCgroup: map<string, seq<Pid>>, cgroupCpus: map<string, set<nat>>)
    requires ValidSnapshot(snap)
    requires cgroups == CgroupOrder(snap.order, snap.procs)
    requires forall cg :: cg in byCgroup <==> cg in cgroups
    requires forall cg :: cg in byCgroup ==> byCgroup[cg] == Members(snap.order, snap.procs, cg)
    requires forall cg :: cg in cgroupCpus <==> cg in cgroups
    requires forall cg :: cg in cgroupCpus ==> cgroupCpus[cg] == UnionOf(Members(snap.order, snap.procs, cg), snap.procs)
    ensures Groups(cgroups, byCgroup, cgroupCpus) == GroupsOf(snap)
  {
    MembersMatch(snap, cgroups, byCgroup);
    CpusMatch(snap, cgroups, cgroupCpus);
  }

  /** Both steps together give the groups of the snapshot. */
  method BuildGroups(snap: Snapshot) returns (g: Groups)
    requires ValidSnapshot(snap)
    ensures g == GroupsOf(snap)
  {
    var cgroups, byCgroup := GroupByCgroup(snap);
    var cgroupCpus := CgroupUnions(snap.procs, cgroups, byCgroup);
    GroupsMatch(snap, cgroups, byCgroup, cgroupCpus);
    g := Groups(cgroups, byCgroup, cgroupCpus);
  }
}
