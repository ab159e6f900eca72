/** The per-process snapshot (`get_proc_info`). The `/proc` scan is replaced by
    its outcome: one `RawProc` per `/proc/<pid>` directory, in the order the
    directory listing gives them, holding what reading `status` and `cgroup`
    produced. The keep/drop decision made on each is a pure function of that
    outcome and of the caller's filters. */
module Collector {
  import opened Text
  import opened AffinityMask
  import opened CgroupId

  /** The source keys processes by the name of their `/proc` directory, a string. */
  type Pid = string

  /** The two `status` fields the scan looks for; either may be missing. */
  datatype Status = Status(name: Option<string>, cpusAllowed: Option<string>)

  /** The outcome of reading one `/proc/<pid>` directory. `status` is `None`
      when the process is dropped by the outer handler: reading `status`
      failed, or reading `cgroup` raised `ProcessLookupError`, which the inner
      handler does not catch. `cgroupText` is `None` when reading `cgroup`
      raised `PermissionError` or `FileNotFoundError`, which leaves the process
      without a cgroup. */
  datatype RawProc = RawProc(pid: Pid, status: Option<Status>, cgroupText: Option<string>)

  /** `{'name': name, 'cpus': cpus, 'cgroup': cgroup}` */
  datatype ProcRecord = ProcRecord(name: Option<string>, cpus: set<nat>, cgroup: Option<string>)

  /** A Python dict from pid to record: its keys in insertion order, and the mapping. */
  datatype Snapshot = Snapshot(order: seq<Pid>, procs: map<Pid, ProcRecord>)

  ghost predicate ValidSnapshot(snap: Snapshot)
  {
    && (forall i, j :: 0 <= i < j < |snap.order| ==> snap.order[i] != snap.order[j])
    && (forall pid :: pid in snap.procs <==> pid in snap.order)
  }

  /** `cpu_filter`, `ignore_cgroups`, `ignore_procs`; the sets hold strings, so
      a missing name or cgroup is never ignored. */
  datatype Filters = Filters(cpuFilter: Option<set<nat>>, ignoreCgroups: set<string>, ignoreProcs: set<string>)

  predicate NameIgnored(name: Option<string>, f: Filters)
  {
    name.Some? && name.value in f.ignoreProcs
  }

  predicate CgroupIgnored(cgroup: Option<string>, f: Filters)
  {
    cgroup.Some? && cgroup.value in f.ignoreCgroups
  }

  /** A mask that is present and non-empty (`if cpus_allowed`). */
  predicate HasMask(mask: Option<string>)
  {
    mask.Some? && mask.value != ""
  }

  /** The cgroup of a process: `get_cgroup` of a non-empty `cgroup` file, else none. */
  function ProcCgroup(cgroupText: Option<string>): (r: Option<string>)
    ensures r.Some? ==> cgroupText.Some? && cgroupText.value != ""
    ensures r.Some? ==> r.value != "" && !StartsWith(r.value, "0::")
  {
    if cgroupText.Some? && cgroupText.value != "" then GetCgroup(cgroupText.value) else None
  }

  /** Every mask the scan reaches is one `int(_, 16)` accepts; on any other the
      uncaught `ValueError` would end the whole scan. */
  predicate MaskDecodes(p: RawProc, f: Filters)
  {
    p.status.Some? && !NameIgnored(p.status.value.name, f)
    && !CgroupIgnored(ProcCgroup(p.cgroupText), f) && HasMask(p.status.value.cpusAllowed)
    ==> ValidMask(p.status.value.cpusAllowed.value)
  }

  /** `cpus` is what `parse_cpus_allowed` makes of the process's mask, which is present. */
  predicate DecodedMask(p: RawProc, cpus: set<nat>)
  {
    && p.status.Some? && HasMask(p.status.value.cpusAllowed)
    && ValidMask(p.status.value.cpusAllowed.value)
    && cpus == MaskCpus(p.status.value.cpusAllowed.value)
  }

  /** The keep/drop decision for one process, in the order the source takes
      it: unreadable status, ignored name, ignored cgroup, missing mask, empty
      CPU set, CPU filter. */
  function Admit(p: RawProc, f: Filters): (r: Option<ProcRecord>)
    requires MaskDecodes(p, f)
    ensures r.Some? ==> r.value.cpus != {}
    ensures r.Some? ==> !NameIgnored(r.value.name, f) && !CgroupIgnored(r.value.cgroup, f)
    ensures r.Some? && f.cpuFilter.Some? ==> r.value.cpus * f.cpuFilter.value != {}
    ensures r.Some? ==> p.status.Some? && r.value.name == p.status.value.name
    ensures r.Some? ==> r.value.cgroup == ProcCgroup(p.cgroupText)
    ensures r.Some? ==> DecodedMask(p, r.value.cpus)
  {
    if p.status.None? then None
    else
      var name := p.status.value.name;
      var mask := p.status.value.cpusAllowed;
      var cgroup := ProcCgroup(p.cgroupText);
      if NameIgnored(name, f) || CgroupIgnored(cgroup, f) || !HasMask(mask) then None
      else
        var cpus := MaskCpus(mask.value);
        if cpus != {} && (f.cpuFilter.None? || cpus * f.cpuFilter.value != {})
        then Some(ProcRecord(name, cpus, cgroup))
        else None
  }

  /** A process is kept exactly when each filter lets it through. */
  lemma AdmitIff(p: RawProc, f: Filters)
    requires MaskDecodes(p, f)
    ensures Admit(p, f).Some? <==>
      && p.status.Some?
      && !NameIgnored(p.status.value.name, f)
      && !CgroupIgnored(ProcCgroup(p.cgroupText), f)
      && HasMask(p.status.value.cpusAllowed)
      && MaskCpus(p.status.value.cpusAllowed.value) != {}
      && (f.cpuFilter.None? || MaskCpus(p.status.value.cpusAllowed.value) * f.cpuFilter.value != {})
  {
  }

  /** Tighter filters never keep more: a process kept under filters `g` that
      ignore more names and cgroups and accept fewer CPUs is kept under `f`,
      with the same record. */
  lemma AdmitMonotone(p: RawProc, f: Filters, g: Filters)
    requires f.ignoreProcs <= g.ignoreProcs && f.ignoreCgroups <= g.ignoreCgroups
    requires f.cpuFilter.None? || (g.cpuFilter.Some? && g.cpuFilter.value <= f.cpuFilter.value)
    requires MaskDecodes(p, f) && MaskDecodes(p, g)
    ensures Admit(p, g).Some? ==> Admit(p, f) == Admit(p, g)
  {
    if Admit(p, g).Some? && f.cpuFilter.Some? {
      var cpus := Admit(p, g).value.cpus;
      assert cpus * g.cpuFilter.value <= cpus * f.cpuFilter.value;
    }
  }

  /** The snapshot a scan of `raws` builds: the admitted processes, in scan order. */
  function Collect(raws: seq<RawProc>, f: Filters): (r: Snapshot)
    requires forall k :: 0 <= k < |raws| ==> MaskDecodes(raws[k], f)
    ensures |r.order| <= |raws|
    ensures forall pid :: pid in r.procs <==> pid in r.order
  {
    if raws == [] then Snapshot([], map[])
    else
      var s := Collect(raws[..|raws| - 1], f);
      var p := raws[|raws| - 1];
      match Admit(p, f)
      case None => s
      case Some(r) => Snapshot(s.order + [p.pid], s.procs[p.pid := r])
  }

  ghost predicate DistinctPids(raws: seq<RawProc>)
  {
    forall i, j :: 0 <= i < j < |raws| ==> raws[i].pid != raws[j].pid
  }

  /** The collected dict's keys are its order, and each came from the scan. */
  lemma {:induction false} CollectDomain(raws: seq<RawProc>, f: Filters)
    requires forall k :: 0 <= k < |raws| ==> MaskDecodes(raws[k], f)
    ensures forall pid :: pid in Collect(raws, f).procs <==> pid in Collect(raws, f).order
    ensures forall pid :: pid in Collect(raws, f).procs ==>
              exists k :: 0 <= k < |raws| && raws[k].pid == pid && Admit(raws[k], f).Some?
  {
    if raws != [] {
      var init, p := raws[..|raws| - 1], raws[|raws| - 1];
      var s := Collect(init, f);
      CollectDomain(init, f);
      var procs := match Admit(p, f) case None => s.procs case Some(r) => s.procs[p.pid := r];
      assert Collect(raws, f).procs == procs;
      forall pid | pid in procs
        ensures exists k :: 0 <= k < |raws| && raws[k].pid == pid && Admit(raws[k], f).Some?
      {
        if pid !in s.procs {
          assert raws[|raws| - 1].pid == pid && Admit(raws[|raws| - 1], f).Some?;
        } else {
          var k :| 0 <= k < |init| && init[k].pid == pid && Admit(init[k], f).Some?;
          assert raws[k] == init[k];
        }
      }
    }
  }

  /** With distinct pids, no key is inserted twice. */
  lemma {:induction false} CollectDistinct(raws: seq<RawProc>, f: Filters)
    requires forall k :: 0 <= k < |raws| ==> MaskDecodes(raws[k], f)
    requires DistinctPids(raws)
    ensures ValidSnapshot(Collect(raws, f))
  {
    if raws != [] {
      var init, p := raws[..|raws| - 1], raws[|raws| - 1];
      var s := Collect(init, f);
      CollectDistinct(init, f);
      CollectDomain(init, f);
      assert forall k :: 0 <= k < |init| ==> init[k].pid != p.pid;
      assert p.pid !in s.order;
      match Admit(p, f)
      case None =>
        assert Collect(raws, f) == s;
      case Some(r) =>
        assert Collect(raws, f) == Snapshot(s.order + [p.pid], s.procs[p.pid := r]);
    }
  }

  /** With distinct pids, every admitted process is in the snapshot with the
      record `Admit` gives it. */
  lemma {:induction false} CollectHas(raws: seq<RawProc>, f: Filters, k: nat)
    requires forall j :: 0 <= j < |raws| ==> MaskDecodes(raws[j], f)
    requires DistinctPids(raws)
    requires k < |raws| && Admit(raws[k], f).Some?
    ensures raws[k].pid in Collect(raws, f).procs
    ensures Collect(raws, f).procs[raws[k].pid] == Admit(raws[k], f).value
  {
    var init, p := raws[..|raws| - 1], raws[|raws| - 1];
    var s := Collect(init, f);
    if k < |init| {
      assert init[k] == raws[k];
      CollectHas(init, f, k);
      assert raws[k].pid != p.pid;
      match Admit(p, f)
      case None =>
        assert Collect(raws, f) == s;
      case Some(r) =>
        assert Collect(raws, f) == Snapshot(s.order + [p.pid], s.procs[p.pid := r]);
    } else {
      assert p == raws[k];
      assert Collect(raws, f) == Snapshot(s.order + [p.pid], s.procs[p.pid := Admit(p, f).value]);
    }
  }

  /** Every process the scan keeps has a non-empty CPU set, meets the CPU
      filter, and is in no ignored cgroup and under no ignored name. */
  lemma {:induction false} CollectKeepsFiltered(raws: seq<RawProc>, f: Filters)
    requires forall k :: 0 <= k < |raws| ==> MaskDecodes(raws[k], f)
    requires DistinctPids(raws)
    ensures forall pid :: pid in Collect(raws, f).procs ==>
              var r := Collect(raws, f).procs[pid];
              && r.cpus != {}
              && !CgroupIgnored(r.cgroup, f)
              && !NameIgnored(r.name, f)
              && (f.cpuFilter.Some? ==> r.cpus * f.cpuFilter.value != {})
  {
    CollectDomain(raws, f);
    forall pid | pid in Collect(raws, f).procs
      ensures Collect(raws, f).procs[pid].cpus != {}
      ensures !CgroupIgnored(Collect(raws, f).procs[pid].cgroup, f)
      ensures !NameIgnored(Collect(raws, f).procs[pid].name, f)
      ensures f.cpuFilter.Some? ==> Collect(raws, f).procs[pid].cpus * f.cpuFilter.value != {}
    {
      var k :| 0 <= k < |raws| && raws[k].pid == pid && Admit(raws[k], f).Some?;
      CollectHas(raws, f, k);
    }
  }

  /** `get_proc_info`: walk the `/proc` entries, skip the unreadable and the
      filtered out, and record the rest under their pid. */
  method GetProcInfo(raws: seq<RawProc>, f: Filters) returns (snap: Snapshot)
    requires forall k :: 0 <= k < |raws| ==> MaskDecodes(raws[k], f)
    requires DistinctPids(raws)
    ensures snap == Collect(raws, f)
    ensures ValidSnapshot(snap)
    ensures forall pid :: pid in snap.procs ==> snap.procs[pid].cpus != {}
  {
    snap := Snapshot([], map[]);
    for i := 0 to |raws|
      invariant snap == Collect(raws[..i], f)
    {
      assert raws[..i + 1][..i] == raws[..i];
      var p := raws[i];
      ghost var next := Collect(raws[..i + 1], f);
      assert next == match Admit(p, f)
        case None => snap
        case Some(r) => Snapshot(snap.order + [p.pid], snap.procs[p.pid := r]);
      if p.status.None? {
        continue;
      }
      var name := p.status.value.name;
      var cpusAllowed := p.status.value.cpusAllowed;
      if name.Some? && name.value in f.ignoreProcs {
        continue;
      }
      var cgroup := None;
      if p.cgroupText.Some? && p.cgroupText.value != "" {
        cgroup := GetCgroup(p.cgroupText.value);
      }
      assert cgroup == ProcCgroup(p.cgroupText);
      if cgroup.Some? && cgroup.value in f.ignoreCgroups {
        continue;
      }
      if cpusAllowed.Some? && cpusAllowed.value != "" {
        var cpus := ParseCpusAllowed(cpusAllowed.value);
        if cpus != {} && (f.cpuFilter.None? || cpus * f.cpuFilter.value != {}) {
          snap := Snapshot(snap.order + [p.pid], snap.procs[p.pid := ProcRecord(name, cpus, cgroup)]);
        }
      }
    }
    assert raws[..|raws|] == raws;
    CollectDistinct(raws, f);
    CollectKeepsFiltered(raws, f);
  }
}
