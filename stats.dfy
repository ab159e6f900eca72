/** `print_stats`: the snapshot grouped by cgroup, the processes without one
    set apart, and the twenty largest groups ranked by member count with their
    CPU union written as ranges. What is printed is modelled as the values the
    lines are made of; the printing itself is not. */
module Stats {
  import opened Text
  import opened Collector
  import opened Grouping
  import opened CpuRanges

  /** `no_cgroup`: the processes whose cgroup is missing or empty, in snapshot order. */
  function Ungrouped(order: seq<Pid>, procs: map<Pid, ProcRecord>): (r: seq<Pid>)
    requires Covers(order, procs)
    ensures |r| <= |order|
    ensures forall k :: 0 <= k < |r| ==> r[k] in procs && !Grouped(procs[r[k]])
  {
    if order == [] then []
    else
      var pid := order[|order| - 1];
      Ungrouped(order[..|order| - 1], procs) + (if Grouped(procs[pid]) then [] else [pid])
  }

  /** There are never more groups and ungrouped processes together than
      processes: each process opens at most one group or joins `no_cgroup`. */
  lemma {:induction false} GroupsAndUngroupedFit(order: seq<Pid>, procs: map<Pid, ProcRecord>)
    requires Covers(order, procs)
    ensures |CgroupOrder(order, procs)| + |Ungrouped(order, procs)| <= |order|
  {
    if order != [] {
      GroupsAndUngroupedFit(order[..|order| - 1], procs);
    }
  }

  /** A process is set apart exactly when it has no cgroup. */
  lemma {:induction false} UngroupedExact(order: seq<Pid>, procs: map<Pid, ProcRecord>, pid: Pid)
    requires Covers(order, procs)
    ensures pid in Ungrouped(order, procs) <==> pid in order && !Grouped(procs[pid])
  {
    if order != [] {
      var init := order[..|order| - 1];
      UngroupedExact(init, procs, pid);
      assert order == init + [order[|order| - 1]];
    }
  }

  /** The number of processes over the listed groups: `sum(len(pids) for pids in by_cgroup.values())`. */
  function GroupSizes(order: seq<Pid>, procs: map<Pid, ProcRecord>, cgs: seq<string>): nat
    requires Covers(order, procs)
  {
    if cgs == [] then 0
    else GroupSizes(order, procs, cgs[..|cgs| - 1]) + |Members(order, procs, cgs[|cgs| - 1])|
  }

  /** How often `cg` is listed. */
  function Occurrences(cgs: seq<string>, cg: string): nat
  {
    if cgs == [] then 0
    else Occurrences(cgs[..|cgs| - 1], cg) + (if cgs[|cgs| - 1] == cg then 1 else 0)
  }

  lemma {:induction false} OccurrencesOfDistinct(cgs: seq<string>, cg: string)
    requires Distinct(cgs)
    ensures Occurrences(cgs, cg) == if cg in cgs then 1 else 0
  {
    if cgs != [] {
      var init := cgs[..|cgs| - 1];
      OccurrencesOfDistinct(init, cg);
      assert cgs == init + [cgs[|cgs| - 1]];
    }
  }

  /** One more process adds one member to each listing of its own cgroup. */
  lemma {:induction false} GroupSizesStep(order: seq<Pid>, procs: map<Pid, ProcRecord>, cgs: seq<string>)
    requires Covers(order, procs) && order != []
    ensures Covers(order[..|order| - 1], procs)
    ensures var info := procs[order[|order| - 1]];
      GroupSizes(order, procs, cgs) ==
        GroupSizes(order[..|order| - 1], procs, cgs) + (if Grouped(info) then Occurrences(cgs, info.cgroup.value) else 0)
  {
    if cgs != [] {
      GroupSizesStep(order, procs, cgs[..|cgs| - 1]);
    }
  }

  /** A cgroup no process carries has no members. */
  lemma {:induction false} UnlistedHasNoMembers(order: seq<Pid>, procs: map<Pid, ProcRecord>, cg: string)
    requires Covers(order, procs)
    requires cg !in CgroupOrder(order, procs)
    ensures Members(order, procs, cg) == []
  {
    if order != [] {
      UnlistedHasNoMembers(order[..|order| - 1], procs, cg);
    }
  }

  /** Every process is counted once: in the group of its cgroup, or in `no_cgroup`. */
  lemma {:induction false} EveryProcessCountedOnce(order: seq<Pid>, procs: map<Pid, ProcRecord>)
    requires Covers(order, procs)
    ensures GroupSizes(order, procs, CgroupOrder(order, procs)) + |Ungrouped(order, procs)| == |order|
  {
    if order != [] {
      var init := order[..|order| - 1];
      var info := procs[order[|order| - 1]];
      EveryProcessCountedOnce(init, procs);
      var prev := CgroupOrder(init, procs);
      var cgs := CgroupOrder(order, procs);
      CgroupOrderExact(order, procs);
      GroupSizesStep(order, procs, cgs);
      if Grouped(info) {
        var cg := info.cgroup.value;
        OccurrencesOfDistinct(cgs, cg);
        if cg !in prev {
          assert cgs == prev + [cg];
          assert cgs[..|cgs| - 1] == prev;
          UnlistedHasNoMembers(init, procs, cg);
        }
      }
    }
  }

  /** An item of `by_cgroup.items()`. */
  datatype Entry = Entry(cgroup: string, pids: seq<Pid>)

  /** The sort key, `len(x[1])`. */
  function Size(e: Entry): nat
  {
    |e.pids|
  }

  /** `by_cgroup.items()`, in key order. */
  function Items(cgroups: seq<string>, byCgroup: map<string, seq<Pid>>): (r: seq<Entry>)
    requires forall k :: 0 <= k < |cgroups| ==> cgroups[k] in byCgroup
    ensures |r| == |cgroups|
    ensures forall k :: 0 <= k < |r| ==> r[k] == Entry(cgroups[k], byCgroup[cgroups[k]])
  {
    seq(|cgroups|, k requires 0 <= k < |cgroups| => Entry(cgroups[k], byCgroup[cgroups[k]]))
  }

  /** Largest first. */
  predicate Descending(s: seq<Entry>)
  {
    forall i, j :: 0 <= i < j < |s| ==> Size(s[i]) >= Size(s[j])
  }

  /** The entries of size `n`, in their order. */
  function OfSize(s: seq<Entry>, n: nat): seq<Entry>
  {
    if s == [] then []
    else (if Size(s[0]) == n then [s[0]] else []) + OfSize(s[1..], n)
  }

  /** Puts `e` after every entry at least as large: an entry never overtakes
      an earlier one of the same size. */
  function InsertBySize(s: seq<Entry>, e: Entry): seq<Entry>
  {
    if s == [] then [e]
    else if Size(s[0]) >= Size(e) then [s[0]] + InsertBySize(s[1..], e)
    else [e] + s
  }

  /** `sorted(items, key=lambda x: len(x[1]), reverse=True)`: Python's sort is
      stable, also when reversed, so groups of equal size keep their order. */
  function SortBySize(items: seq<Entry>): (r: seq<Entry>)
    ensures |r| == |items|
  {
    if items == [] then []
    else
      var sorted := SortBySize(items[..|items| - 1]);
      InsertPermutes(sorted, items[|items| - 1]);
      assert |multiset(InsertBySize(sorted, items[|items| - 1]))| == |sorted| + 1;
      InsertBySize(sorted, items[|items| - 1])
  }

  /** The slice `[:20]`. */
  const Shown: nat := 20

  function Top(items: seq<Entry>): (r: seq<Entry>)
    ensures |r| == if |items| <= Shown then |items| else Shown
  {
    var r := SortBySize(items);
    if |r| <= Shown then r else r[..Shown]
  }

  lemma {:induction false} InsertPermutes(s: seq<Entry>, e: Entry)
    ensures multiset(InsertBySize(s, e)) == multiset(s) + multiset{e}
  {
    if s != [] && Size(s[0]) >= Size(e) {
      InsertPermutes(s[1..], e);
      assert s == [s[0]] + s[1..];
    }
  }

  lemma {:induction false} InsertDescending(s: seq<Entry>, e: Entry)
    requires Descending(s)
    ensures Descending(InsertBySize(s, e))
  {
    if s != [] {
      if Size(s[0]) >= Size(e) {
        var rest := InsertBySize(s[1..], e);
        InsertDescending(s[1..], e);
        InsertPermutes(s[1..], e);
        forall k | 0 <= k < |rest| ensures Size(rest[k]) <= Size(s[0]) {
          assert rest[k] in multiset(rest);
          if rest[k] != e {
            assert rest[k] in multiset(s[1..]);
            var j :| 0 <= j < |s[1..]| && s[1..][j] == rest[k];
            assert s[j + 1] == rest[k];
          }
        }
        ConsDescending(s[0], rest);
      } else {
        assert forall k :: 0 <= k < |s| ==> Size(s[k]) <= Size(s[0]);
        ConsDescending(e, s);
      }
    }
  }

  /** An entry at least as large as every entry of a descending list can go first. */
  lemma ConsDescending(x: Entry, s: seq<Entry>)
    requires Descending(s)
    requires forall k :: 0 <= k < |s| ==> Size(s[k]) <= Size(x)
    ensures Descending([x] + s)
  {
    var r := [x] + s;
    assert forall k :: 0 < k < |r| ==> r[k] == s[k - 1];
  }

  lemma {:induction false} NoneOfSize(s: seq<Entry>, n: nat)
    requires forall k :: 0 <= k < |s| ==> Size(s[k]) < n
    ensures OfSize(s, n) == []
  {
    if s != [] {
      NoneOfSize(s[1..], n);
    }
  }

  lemma {:induction false} OfSizeConcat(a: seq<Entry>, b: seq<Entry>, n: nat)
    ensures OfSize(a + b, n) == OfSize(a, n) + OfSize(b, n)
  {
    if a != [] {
      assert (a + b)[1..] == a[1..] + b;
      OfSizeConcat(a[1..], b, n);
    } else {
      assert a + b == b;
    }
  }

  lemma OfSizeOne(e: Entry, n: nat)
    ensures OfSize([e], n) == if Size(e) == n then [e] else []
  {
    assert [e][1..] == [];
  }

  /** Inserting keeps the entries of every size in their order and puts the new one last among its size. */
  lemma {:induction false} InsertKeepsOrder(s: seq<Entry>, e: Entry, n: nat)
    requires Descending(s)
    ensures OfSize(InsertBySize(s, e), n) == OfSize(s, n) + OfSize([e], n)
  {
    OfSizeOne(e, n);
    if s != [] {
      var r := InsertBySize(s, e);
      if Size(s[0]) >= Size(e) {
        InsertKeepsOrder(s[1..], e, n);
        assert r[0] == s[0] && r[1..] == InsertBySize(s[1..], e);
      } else {
        assert r[0] == e && r[1..] == s;
        if Size(e) == n {
          NoneOfSize(s, n);
        }
      }
    }
  }

  /** The ranking is a permutation of the groups. */
  lemma {:induction false} SortPermutes(items: seq<Entry>)
    ensures multiset(SortBySize(items)) == multiset(items)
  {
    if items != [] {
      var init := items[..|items| - 1];
      SortPermutes(init);
      InsertPermutes(SortBySize(init), items[|items| - 1]);
      assert items == init + [items[|items| - 1]];
    }
  }

  /** The ranking puts the largest groups first. */
  lemma {:induction false} SortDescending(items: seq<Entry>)
    ensures Descending(SortBySize(items))
  {
    if items != [] {
      SortDescending(items[..|items| - 1]);
      InsertDescending(SortBySize(items[..|items| - 1]), items[|items| - 1]);
    }
  }

  /** The ranking is stable: groups of the same size keep their `by_cgroup` order. */
  lemma {:induction false} SortStable(items: seq<Entry>, n: nat)
    ensures OfSize(SortBySize(items), n) == OfSize(items, n)
  {
    if items != [] {
      var init := items[..|items| - 1];
      var last := items[|items| - 1];
      SortStable(init, n);
      SortDescending(init);
      InsertKeepsOrder(SortBySize(init), last, n);
      OfSizeConcat(init, [last], n);
      assert items == init + [last];
    }
  }

  /** In a list sorted largest first, nothing after a prefix is larger than anything in it. */
  lemma PrefixLargest(r: seq<Entry>, top: seq<Entry>, rest: seq<Entry>)
    requires Descending(r) && r == top + rest
    ensures forall e, t :: e in multiset(rest) && t in top ==> Size(e) <= Size(t)
  {
    forall e, t | e in multiset(rest) && t in top ensures Size(e) <= Size(t) {
      var j :| 0 <= j < |rest| && rest[j] == e;
      var i :| 0 <= i < |top| && top[i] == t;
      assert r[i] == t && r[|top| + j] == e;
    }
  }

  /** At most twenty groups are shown, the largest first, and no group left
      out is larger than a group shown. */
  lemma TopLargest(items: seq<Entry>)
    ensures |Top(items)| == if |items| <= Shown then |items| else Shown
    ensures Descending(Top(items))
    ensures multiset(Top(items)) <= multiset(items)
    ensures forall e, t :: e in multiset(items) - multiset(Top(items)) && t in Top(items) ==> Size(e) <= Size(t)
  {
    var r := SortBySize(items);
    SortPermutes(items);
    SortDescending(items);
    var top := Top(items);
    var rest := r[|top|..];
    assert r == top + rest;
    assert multiset(items) == multiset(top) + multiset(rest);
    PrefixLargest(r, top, rest);
  }

  /** One printed line: `f"{cg}: {len(pids)} procs, CPUs: {fmt_cpus(cpus)} ({len(cpus)} total)"`. */
  datatype Line = Line(cgroup: string, procs: nat, cpuText: string, cpuCount: nat)

  /** The header `Processes: …, Cgroups: …, No cgroup: …` and the lines of the top groups. */
  datatype Report = Report(processes: nat, cgroups: nat, noCgroup: nat, lines: seq<Line>)

  function LineOf(e: Entry, cgroupCpus: map<string, set<nat>>): Line
    requires e.cgroup in cgroupCpus
  {
    var cpus := cgroupCpus[e.cgroup];
    Line(e.cgroup, |e.pids|, Render(cpus), |cpus|)
  }

  /** The line of each shown group, in ranking order. */
  function LinesOf(top: seq<Entry>, cgroupCpus: map<string, set<nat>>): (r: seq<Line>)
    requires forall k :: 0 <= k < |top| ==> top[k].cgroup in cgroupCpus
    ensures |r| == |top|
  {
    if top == [] then []
    else LinesOf(top[..|top| - 1], cgroupCpus) + [LineOf(top[|top| - 1], cgroupCpus)]
  }

  lemma {:induction false} LinesOfIndex(top: seq<Entry>, cgroupCpus: map<string, set<nat>>, k: nat)
    requires forall k :: 0 <= k < |top| ==> top[k].cgroup in cgroupCpus
    requires k < |top|
    ensures LinesOf(top, cgroupCpus)[k] == LineOf(top[k], cgroupCpus)
  {
    if k < |top| - 1 {
      LinesOfIndex(top[..|top| - 1], cgroupCpus, k);
    }
  }

  /** The groups of the items are the listed cgroups, so every shown group has a CPU union. */
  lemma TopFromItems(g: Groups)
    requires WellFormed(g)
    ensures forall k :: 0 <= k < |Top(Items(g.cgroups, g.members))| ==>
              Top(Items(g.cgroups, g.members))[k].cgroup in g.cgroups
  {
    var items := Items(g.cgroups, g.members);
    var top := Top(items);
    TopLargest(items);
    forall k | 0 <= k < |top| ensures top[k].cgroup in g.cgroups {
      assert top[k] in multiset(items);
      var j :| 0 <= j < |items| && items[j] == top[k];
    }
  }

  /** The lines shown for the groups `g`: the top twenty, ranked. */
  function ShownLines(g: Groups): (r: seq<Line>)
    requires WellFormed(g)
    ensures |r| == if |g.cgroups| <= Shown then |g.cgroups| else Shown
  {
    TopFromItems(g);
    LinesOf(Top(Items(g.cgroups, g.members)), g.cpus)
  }

  /** What `print_stats` shows for a snapshot. */
  ghost function StatsOf(snap: Snapshot): (r: Report)
    requires ValidSnapshot(snap)
    ensures r.cgroups + r.noCgroup <= r.processes
    ensures |r.lines| <= r.cgroups && |r.lines| <= Shown
  {
    var g := GroupsOf(snap);
    GroupsAndUngroupedFit(snap.order, snap.procs);
    Report(|snap.order|, |g.cgroups|, |Ungrouped(snap.order, snap.procs)|, ShownLines(g))
  }

  /** What the grouping loop of `print_stats` builds: the keys of
      `by_cgroup` in order, `by_cgroup` itself, and `no_cgroup`. */
  datatype Tally = Tally(cgroups: seq<string>, byCgroup: map<string, seq<Pid>>, noCgroup: seq<Pid>)

  /** One pass of the loop body. */
  function TallyStep(t: Tally, pid: Pid, info: ProcRecord): Tally
  {
    if Grouped(info) then
      var cg := info.cgroup.value;
      Tally(if cg in t.byCgroup then t.cgroups else t.cgroups + [cg],
            t.byCgroup[cg := Lookup(t.byCgroup, cg) + [pid]],
            t.noCgroup)
    else Tally(t.cgroups, t.byCgroup, t.noCgroup + [pid])
  }

  /** The loop's state once it has seen the processes `order`. */
  function TallyAll(order: seq<Pid>, procs: map<Pid, ProcRecord>): Tally
    requires Covers(order, procs)
  {
    if order == [] then Tally([], map[], [])
    else
      var pid := order[|order| - 1];
      TallyStep(TallyAll(order[..|order| - 1], procs), pid, procs[pid])
  }

  /** The loop builds the group order, the groups and the ungrouped processes. */
  lemma {:induction false} TallyAllExact(order: seq<Pid>, procs: map<Pid, ProcRecord>)
    requires Covers(order, procs)
    ensures TallyAll(order, procs) == Tally(CgroupOrder(order, procs), GroupAll(order, procs), Ungrouped(order, procs))
  {
    if order != [] {
      var init := order[..|order| - 1];
      TallyAllExact(init, procs);
      GroupAllExact(init, procs);
    }
  }

  lemma TallyNext(order: seq<Pid>, procs: map<Pid, ProcRecord>, i: nat)
    requires Covers(order, procs)
    requires i < |order|
    ensures Covers(order[..i], procs) && Covers(order[..i + 1], procs)
    ensures TallyAll(order[..i + 1], procs) == TallyStep(TallyAll(order[..i], procs), order[i], procs[order[i]])
  {
    assert order[..i + 1][..i] == order[..i];
  }

  /** The grouping loop of `print_stats`: like that of `find_cgroup_mismatches`,
      and a process without a cgroup goes to `no_cgroup`. */
  method GroupProcesses(snap: Snapshot) returns (cgroups: seq<string>, byCgroup: map<string, seq<Pid>>, noCgroup: seq<Pid>)
    requires Covers(snap.order, snap.procs)
    ensures cgroups == CgroupOrder(snap.order, snap.procs)
    ensures forall cg :: cg in byCgroup <==> cg in cgroups
    ensures forall cg :: cg in byCgroup ==> byCgroup[cg] == Members(snap.order, snap.procs, cg)
    ensures noCgroup == Ungrouped(snap.order, snap.procs)
  {
    cgroups := [];
    byCgroup := map[];
    noCgroup := [];
    for i := 0 to |snap.order|
      invariant Tally(cgroups, byCgroup, noCgroup) == TallyAll(snap.order[..i], snap.procs)
    {
      TallyNext(snap.order, snap.procs, i);
      var pid := snap.order[i];
      var info := snap.procs[pid];
      if info.cgroup.Some? && info.cgroup.value != "" {
        var cg := info.cgroup.value;
        if cg !in byCgroup {
          cgroups := cgroups + [cg];
        }
        byCgroup := byCgroup[cg := Lookup(byCgroup, cg) + [pid]];
      } else {
        noCgroup := noCgroup + [pid];
      }
    }
    assert snap.order[..|snap.order|] == snap.order;
    TallyAllExact(snap.order, snap.procs);
    GroupLoopDone(snap.order, snap.procs, byCgroup);
  }

  /** The output loop: one line per shown group, its CPUs through `fmt_cpus`. */
  method ShowLines(top: seq<Entry>, cgroupCpus: map<string, set<nat>>) returns (lines: seq<Line>)
    requires forall k :: 0 <= k < |top| ==> top[k].cgroup in cgroupCpus
    ensures lines == LinesOf(top, cgroupCpus)
  {
    lines := [];
    for k := 0 to |top|
      invariant lines == LinesOf(top[..k], cgroupCpus)
    {
      assert top[..k + 1][..k] == top[..k];
      var e := top[k];
      var cpus := cgroupCpus[e.cgroup];
      var text := FmtCpus(cpus);
      lines := lines + [Line(e.cgroup, |e.pids|, text, |cpus|)];
    }
    assert top[..|top|] == top;
  }

  /** `print_stats`, with the printed values returned. */
  method PrintStats(snap: Snapshot) returns (report: Report)
    requires ValidSnapshot(snap)
    ensures report == StatsOf(snap)
  {
    var cgroups, byCgroup, noCgroup := GroupProcesses(snap);
    var cgroupCpus := CgroupUnions(snap.procs, cgroups, byCgroup);
    GroupsMatch(snap, cgroups, byCgroup, cgroupCpus);
    ghost var g := Groups(cgroups, byCgroup, cgroupCpus);
    TopFromItems(g);
    var top := Top(Items(cgroups, byCgroup));
    var lines := ShowLines(top, cgroupCpus);
    assert lines == ShownLines(g);
    report := Report(|snap.order|, |cgroups|, |noCgroup|, lines);
  }

  /** The header counts add up: every process is in exactly one group or in `no_cgroup`. */
  lemma StatsCounts(snap: Snapshot)
    requires ValidSnapshot(snap)
    ensures Covers(snap.order, snap.procs)
    ensures StatsOf(snap).processes ==
              GroupSizes(snap.order, snap.procs, GroupsOf(snap).cgroups) + StatsOf(snap).noCgroup
  {
    EveryProcessCountedOnce(snap.order, snap.procs);
  }

  /** Line `k` shows the `k`-th group of the ranking. */
  lemma LinesMatch(top: seq<Entry>, cgroupCpus: map<string, set<nat>>)
    requires forall k :: 0 <= k < |top| ==> top[k].cgroup in cgroupCpus
    ensures forall k :: 0 <= k < |top| ==> LinesOf(top, cgroupCpus)[k] == LineOf(top[k], cgroupCpus)
  {
    forall k | 0 <= k < |top| ensures LinesOf(top, cgroupCpus)[k] == LineOf(top[k], cgroupCpus) {
      LinesOfIndex(top, cgroupCpus, k);
    }
  }

  /** Each shown line is that of a listed group: its members counted, its CPUs formatted. */
  lemma ShownLineOf(g: Groups, k: nat)
    requires WellFormed(g)
    requires k < |ShownLines(g)|
    ensures var line := ShownLines(g)[k];
      && line.cgroup in g.cgroups
      && line.procs == |g.members[line.cgroup]|
      && line.cpuText == Render(g.cpus[line.cgroup])
      && line.cpuCount == |g.cpus[line.cgroup]|
  {
    var items := Items(g.cgroups, g.members);
    var top := Top(items);
    TopFromItems(g);
    TopLargest(items);
    LinesOfIndex(top, g.cpus, k);
    assert top[k] in multiset(items);
    var j :| 0 <= j < |items| && items[j] == top[k];
  }

  /** Each line shows a cgroup of the snapshot, its member count, and its CPU
      union as a range list that reads back as that union, with its size. */
  lemma StatsLineExact(snap: Snapshot, k: nat)
    requires ValidSnapshot(snap)
    requires k < |StatsOf(snap).lines|
    ensures var line := StatsOf(snap).lines[k];
      && line.cgroup in GroupsOf(snap).cgroups
      && line.procs == |GroupsOf(snap).members[line.cgroup]|
      && ParseCpuList(line.cpuText) == Some(CgroupCpus(snap.procs, line.cgroup))
      && line.cpuCount == |CgroupCpus(snap.procs, line.cgroup)|
  {
    var g := GroupsOf(snap);
    ShownLineOf(g, k);
    var cg := ShownLines(g)[k].cgroup;
    GroupsOfCpus(snap, cg);
    RoundTrip(g.cpus[cg]);
  }

  /** Some line shows cgroup `cg`. */
  predicate Listed(lines: seq<Line>, cg: string)
  {
    exists j :: 0 <= j < |lines| && lines[j].cgroup == cg
  }

  /** A group left out of the top twenty is no larger than one shown. */
  lemma OmittedNotLarger(items: seq<Entry>, e: Entry, k: nat)
    requires e in items && e !in Top(items)
    requires k < |Top(items)|
    ensures Size(e) <= Size(Top(items)[k])
  {
    TopLargest(items);
    assert e in multiset(items) - multiset(Top(items));
    assert Top(items)[k] in Top(items);
  }

  /** Twenty groups are shown, or all when there are fewer, ranked by member count. */
  lemma ShownRanking(g: Groups)
    requires WellFormed(g)
    ensures var lines := ShownLines(g);
      && |lines| == (if |g.cgroups| <= Shown then |g.cgroups| else Shown)
      && (forall i, j :: 0 <= i < j < |lines| ==> lines[i].procs >= lines[j].procs)
  {
    var items := Items(g.cgroups, g.members);
    TopFromItems(g);
    TopLargest(items);
    LinesMatch(Top(items), g.cpus);
  }

  /** A group not shown has no more members than any shown. */
  lemma ShownLargest(g: Groups, cg: string, k: nat)
    requires WellFormed(g)
    requires cg in g.cgroups && !Listed(ShownLines(g), cg)
    requires k < |ShownLines(g)|
    ensures |g.members[cg]| <= ShownLines(g)[k].procs
  {
    var items := Items(g.cgroups, g.members);
    var top := Top(items);
    var lines := ShownLines(g);
    TopFromItems(g);
    LinesMatch(top, g.cpus);
    var j :| 0 <= j < |g.cgroups| && g.cgroups[j] == cg;
    var e := items[j];
    forall i | 0 <= i < |top| ensures top[i] != e {
      assert lines[i].cgroup != cg;
    }
    OmittedNotLarger(items, e, k);
  }

  /** The ranking of a snapshot's groups. */
  lemma StatsRanking(snap: Snapshot)
    requires ValidSnapshot(snap)
    ensures var lines := StatsOf(snap).lines; var g := GroupsOf(snap);
      && |lines| == (if |g.cgroups| <= Shown then |g.cgroups| else Shown)
      && (forall i, j :: 0 <= i < j < |lines| ==> lines[i].procs >= lines[j].procs)
      && (forall cg, k :: cg in g.cgroups && !Listed(lines, cg) && 0 <= k < |lines| ==>
            |g.members[cg]| <= lines[k].procs)
  {
    var g := GroupsOf(snap);
    ShownRanking(g);
    forall cg, k | cg in g.cgroups && !Listed(StatsOf(snap).lines, cg) && 0 <= k < |StatsOf(snap).lines|
      ensures |g.members[cg]| <= StatsOf(snap).lines[k].procs
    {
      ShownLargest(g, cg, k);
    }
  }
}
