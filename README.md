# CPU affinity conflicts between cgroups, in Dafny

This project models the core of `cpu_intersect.py`, a detector that looks for
processes in different control groups (cgroups) whose allowed CPUs overlap.
It models the detector's pure decisions and its loops, and proves what they
promise:

- `AffinityMask` decodes the kernel's hexadecimal `Cpus_allowed` mask into a
  CPU set (`parse_cpus_allowed`). The mask may hold commas between 32-bit
  groups.
- `CgroupId` derives a cgroup label from the text of `/proc/<pid>/cgroup`
  (`get_cgroup`):
  - the first segment that starts with `pod` wins;
  - otherwise the deepest segment that is not a generic systemd slice;
  - otherwise the next line is tried.
- `Collector` models the per-process keep/drop decision of `get_proc_info` and
  the loop that builds the pid-keyed snapshot.
  - What reading `/proc` produced is given as a sequence of `RawProc` values.
  - A Python dict is modelled as its key order plus a map.
- `Grouping` models grouping processes by cgroup and taking the CPU union of
  each group. Both `find_cgroup_mismatches` and `print_stats` do this.
- `Conflicts` models the upper-triangular scan over cgroup pairs in
  `find_cgroup_mismatches`. For every pair whose unions intersect, it reports
  every (member of the first, member of the second) pair of processes.
- `CpuRanges` models `fmt_cpus`, which writes a CPU set as ranges such as
  `0-3,5,7-9`.
  - A reader of that format, `ParseCpuList`, is defined beside it as the
    independent partner of the round-trip property. The source has no such
    reader.
- `Stats` models `print_stats`:
  - the counts in the header line;
  - the `no_cgroup` list;
  - the stable ranking of groups by member count, largest first, cut to 20;
  - the values each output line is made of.
- `Text` holds the string helpers the others need:
  - `str.split`, `str.join` and `str.startswith`;
  - `str.splitlines`, with every line break Python recognises;
  - decimal `str(n)` and its reader.

Points where the model follows the code rather than what one might expect:

- A mask that is not hexadecimal is not read as an empty CPU set. `int(_, 16)`
  raises `ValueError` there, and nothing catches it. `ParseCpusAllowed` and
  `Admit` therefore require the mask to be valid (`ValidMask`, `MaskDecodes`).
- Only segments that start with the literal `0::` are dropped. A cgroup v1
  line such as `12:cpuset:/` yields `12:cpuset:` (`VersionOneHeadKept`).
- Pids are the names of `/proc` directories, so they are strings, not
  integers.
- Ties in the ranking are not broken arbitrarily. Python's `sorted(...,
  reverse=True)` is stable, so groups of equal size keep their `by_cgroup`
  order (`SortStable`).

## Model

| member | source | states |
|---|---|---|
| AffinityMask.ParseCpusAllowed | cpu_intersect.py:23-33 | the loop collects exactly the positions of the one bits of `int(mask without commas, 16)`, each below 4 × the number of hex digits, and equals `MaskCpus` |
| AffinityMask.MaskCpusExact | cpu_intersect.py:26-33 | CPU n is in the decoded set iff bit n of the mask value is one; every decoded CPU is below 4 × the digit count |
| AffinityMask.SameDigitsSameCpus | cpu_intersect.py:26 | two valid masks with the same digits in the same order decode to the same set |
| AffinityMask.CommaInsensitive | cpu_intersect.py:26 | inserting a comma anywhere in a valid mask keeps it valid and leaves the decoded set unchanged |
| AffinityMask.ZeroMaskIsEmpty | cpu_intersect.py:26-33 | a mask of zeros and commas decodes to the empty set |
| AffinityMask.LowDigitExample | cpu_intersect.py:26-33 | `00000005` is valid and decodes to {0, 2} |
| AffinityMask.StripCommas | cpu_intersect.py:26 | `replace(',', '')` leaves no comma and never lengthens the mask |
| AffinityMask.StripCommasAppend | cpu_intersect.py:26 | removing commas from two concatenated texts is removing them from each |
| AffinityMask.HexValue | cpu_intersect.py:26 | `int(s, 16)` of a digit string, most significant digit first; bounded by `HexValueBound` |
| AffinityMask.HexValueBound | cpu_intersect.py:26 | d hexadecimal digits hold a value below 2^(4d) |
| AffinityMask.MaskValue | cpu_intersect.py:26 | the value of the comma-stripped mask, below 2^(4 × the number of digits) |
| Text.SplitJoin | cpu_intersect.py:39 | splitting a join at its separator gives back the pieces, when no piece holds the separator |
| Text.Split | cpu_intersect.py:39 | `split('/')` gives at least one piece and no piece holds the separator |
| Text.JoinSplit | cpu_intersect.py:39 | joining the pieces of a split gives back the string, so empty pieces are kept, as Python's `split` keeps them |
| Text.SplitLines | cpu_intersect.py:38 | no line holds a line break of any kind `splitlines` recognises, and there are no more lines than characters; the lemmas below fix the lines themselves |
| Text.SplitLinesOfLine | cpu_intersect.py:38 | a non-empty text without a line break is a single line |
| Text.SplitLinesBreak | cpu_intersect.py:38 | a break-free line ended by one break, a `\r` counting alone only when no `\n` follows, gives that line and then the lines of the rest; a final break opens no empty last line |
| Text.SplitLinesCrLf | cpu_intersect.py:38 | `\r\n` is one break: the line before it, then the lines of the rest |
| Text.SplitLinesFlatten | cpu_intersect.py:38 | the lines written one after another are the text with its line breaks removed, so no other character is lost |
| Text.StartsWith | cpu_intersect.py:39-45 | `str.startswith`, by definition: the prefix fits and the text begins with it |
| CgroupId.KeepSegments | cpu_intersect.py:39 | every segment kept is non-empty and does not start with `0::` |
| CgroupId.KeepSegmentsExact | cpu_intersect.py:39 | a string is kept iff it is a segment and is non-empty and does not start with `0::` |
| CgroupId.Parts | cpu_intersect.py:39 | every part of a line is non-empty, does not start with `0::`, and holds no `/` |
| CgroupId.FirstPod | cpu_intersect.py:44-46 | the index returned is the first segment starting with `pod`, or the length if none does |
| CgroupId.LastSpecific | cpu_intersect.py:49-51 | the index returned is the last segment that is not a generic slice, or -1 if every segment is generic |
| CgroupId.LineCgroup | cpu_intersect.py:39-51 | a label a line yields is one of its kept segments: non-empty and not starting with `0::` |
| CgroupId.GetCgroup | cpu_intersect.py:36-53 | a label is never empty and never starts with `0::` |
| CgroupId.FirstYield | cpu_intersect.py:38-53 | a label comes from some line of the text and is a kept segment |
| CgroupId.PodWins | cpu_intersect.py:44-46 | on a line with a pod segment, the first pod segment is the label |
| CgroupId.DeepestSpecificWins | cpu_intersect.py:48-51 | on a line without a pod segment, the deepest non-generic segment is the label |
| CgroupId.LineYieldsNothing | cpu_intersect.py:39-51 | a line yields no label iff all its kept segments are generic slices |
| CgroupId.FirstYieldingLineWins | cpu_intersect.py:38-53 | the label is that of the first line that yields one |
| CgroupId.GetCgroupFirstLine | cpu_intersect.py:38-53 | the text is read line by line: the first line's label when it yields one, else the label of the text after its break |
| CgroupId.NoLabelIffNoLineYields | cpu_intersect.py:38-53 | `get_cgroup` returns None iff no line yields a label |
| CgroupId.GenericSliceSkipped | cpu_intersect.py:36-53 | `0::/<generic slice>/<leaf>` gives the leaf, e.g. `0::/user.slice/app.service` gives `app.service` |
| CgroupId.GenericSliceOnly | cpu_intersect.py:36-53 | `0::/<generic slice>` gives None |
| CgroupId.PodBeatsDeeperSegment | cpu_intersect.py:36-53 | `0::/<generic slice>/<pod>/<leaf>` gives the pod segment |
| CgroupId.VersionOneHeadKept | cpu_intersect.py:39 | only the literal `0::` head is dropped: `12:cpuset:/` gives `12:cpuset:` |
| Collector.Admit | cpu_intersect.py:82-97 | a kept record has a mask, its CPU set is `MaskCpus` of that mask, non-empty and meeting the CPU filter, and it carries the process's own name and cgroup, neither ignored |
| Collector.AdmitIff | cpu_intersect.py:82-97 | a process is kept iff its status was read, its name and cgroup are not ignored, its mask is present and decodes to a non-empty set, and that set meets the CPU filter when one is given |
| Collector.AdmitMonotone | cpu_intersect.py:82-96 | tighter filters never keep more, and what they keep has the same record |
| Collector.ProcCgroup | cpu_intersect.py:85-90 | a process has a cgroup only if its `cgroup` file was read and was non-empty, and that cgroup is non-empty and does not start with `0::` |
| Collector.Collect | cpu_intersect.py:70-100 | the snapshot holds at most one entry per scanned directory, and its keys are exactly its key order |
| Collector.CollectDomain | cpu_intersect.py:70-100 | the snapshot's keys are its order, and each key is the pid of a scanned and admitted process |
| Collector.CollectDistinct | cpu_intersect.py:70-100 | with distinct `/proc` names, no key is listed twice |
| Collector.CollectHas | cpu_intersect.py:97 | every admitted process is in the snapshot under its pid, with the record `Admit` gives |
| Collector.CollectKeepsFiltered | cpu_intersect.py:82-97 | every retained record has a non-empty CPU set, meets the CPU filter, and is under no ignored name or cgroup |
| Collector.GetProcInfo | cpu_intersect.py:56-100 | the scan loop builds the snapshot `Collect` defines; its keys are distinct and every record has CPUs |
| Grouping.CgroupOrderExact | cpu_intersect.py:106-109 | the keys of `by_cgroup` are distinct, and are exactly the cgroups some process carries |
| Grouping.MembersExact | cpu_intersect.py:106-109 | a pid is in a group's list iff it is in the snapshot with that cgroup |
| Grouping.CgroupOrder | cpu_intersect.py:106-109 | the keys of `by_cgroup` are non-empty cgroups, no more than there are processes |
| Grouping.Members | cpu_intersect.py:106-109 | `by_cgroup[cg]` lists only processes of the snapshot labelled `cg`, no more than there are processes |
| Grouping.UnionOf | cpu_intersect.py:113 | a CPU is in the union iff some listed process has it |
| Grouping.UnionOfMembers | cpu_intersect.py:112-114 | the union over a group's members is the set of every CPU of every process in that cgroup |
| Grouping.GroupsOfCgroups | cpu_intersect.py:106-109 | each cgroup is listed once, and a cgroup is listed iff it is non-empty and some process carries it, so a process whose cgroup is None or empty is in no group |
| Grouping.GroupsOfMembers | cpu_intersect.py:106-109 | a group's members are exactly the processes labelled with its cgroup |
| Grouping.GroupsOfCpus | cpu_intersect.py:112-114 | a group's CPUs are exactly the union of its members' CPUs |
| Grouping.GroupAllExact | cpu_intersect.py:106-109 | the mapping the loop builds has a key for each listed cgroup, and the list under it is that group's members |
| Grouping.GroupByCgroup | cpu_intersect.py:105-109 | the grouping loop yields the key order and, under each key, the members in snapshot order |
| Grouping.CgroupUnions | cpu_intersect.py:111-114 | the union loop yields, for each key, the union of its members' CPUs |
| Grouping.GroupsMatch | cpu_intersect.py:105-114 | the results of the two loops are the groups of the snapshot |
| Grouping.BuildGroups | cpu_intersect.py:105-114 | grouping, then unions, gives the groups of the snapshot |
| Conflicts.AppendMemberPairs | cpu_intersect.py:128-130 | the two inner loops append one report per (first member, second member), row by row |
| Conflicts.CrossCount | cpu_intersect.py:128-130 | a pair of groups with m1 and m2 members yields m1 × m2 reports |
| Conflicts.Cross | cpu_intersect.py:129-131 | what the two inner loops append: one report per member of the first group against each member of the second, in loop order; its membership is stated by `InCross` |
| Conflicts.Row | cpu_intersect.py:130-131 | one report per member of the second cgroup; `InCross` states which |
| Conflicts.Block | cpu_intersect.py:127-131 | the reports of one compared pair, none when the unions share no CPU; `InBlock` states which |
| Conflicts.InCross | cpu_intersect.py:129-131 | a report is among a pair's reports iff its first pid is in the first group, its second in the second, and it carries that pair's shared set |
| Conflicts.Blocks | cpu_intersect.py:126-131 | the reports of row i against cgroups i+1 .. j-1, in order; its membership is stated by `BlocksFromPair` and `PairInBlocks` |
| Conflicts.InBlock | cpu_intersect.py:127-131 | a report comes from the pair (i, j) iff it names a member of each, with their non-empty shared set |
| Conflicts.BlocksFromPair | cpu_intersect.py:126-131 | a report in a row comes from one later cgroup k in that row |
| Conflicts.PairInBlocks | cpu_intersect.py:126-131 | every report of a pair (i, k) is in row i once the row reaches k |
| Conflicts.Scan | cpu_intersect.py:125-131 | the reports of the first n rows of the scan, row by row; its membership is stated by `ScanExact` |
| Conflicts.ScanRow | cpu_intersect.py:124-130 | one row compares the i-th cgroup with every later one and counts c - 1 - i tests |
| Conflicts.ScanPairs | cpu_intersect.py:121-131 | the pair loops build the upper-triangular scan and count its tests |
| Conflicts.PairTestsCount | cpu_intersect.py:124-125 | the first i rows over c cgroups test i(2c - 1 - i)/2 pairs |
| Conflicts.AllPairTests | cpu_intersect.py:124-125 | all rows test c(c - 1)/2 pairs |
| Conflicts.ScanExact | cpu_intersect.py:121-131 | a report is in the scan iff it comes from some pair i < j whose unions intersect, with that intersection |
| Conflicts.ReportSound | cpu_intersect.py:103-133 | every report names two processes in different cgroups, the earlier key first, with the non-empty overlap of their cgroups' CPUs |
| Conflicts.ReportComplete | cpu_intersect.py:103-133 | every two processes in different cgroups whose cgroups' CPUs overlap are reported, in one orientation |
| Conflicts.OneOrientation | cpu_intersect.py:121-131 | no pair is reported in both orientations |
| Conflicts.FindCgroupMismatches | cpu_intersect.py:103-133 | every report is of two processes in different cgroups with the non-empty overlap of their cgroups' CPUs; every such pair is reported; none in both orientations; c cgroups take c(c - 1)/2 pair tests |
| Conflicts.SharedCpuExample | cpu_intersect.py:103-133 | two processes in different cgroups with CPUs {0,1} and {1,2} give the one report (first, second, {1}) |
| CpuRanges.SortedCpus | cpu_intersect.py:140 | `sorted(cpus)` is strictly increasing and holds exactly the set |
| CpuRanges.SortedUnique | cpu_intersect.py:140 | an increasing list holding exactly a set's members is that set sorted |
| CpuRanges.RunsOf | cpu_intersect.py:141-150 | the runs built from a non-empty sorted list are never empty; `RunsWellSpaced` and `RunsCover` state that they are maximal and cover the list |
| CpuRanges.RunText | cpu_intersect.py:148 | the text of a run is never empty, and it holds a dash iff the run has more than one CPU |
| CpuRanges.Render | cpu_intersect.py:136-151 | the text is empty iff there are no CPUs; `RoundTrip` states that it reads back as the set |
| CpuRanges.RangeTexts | cpu_intersect.py:141-150 | the loop over the sorted CPUs yields the texts of the runs `RunsOf` defines, in order |
| CpuRanges.FmtCpus | cpu_intersect.py:136-151 | the text is empty iff the set is, it reads back as the set it was made from, and it is `Render` |
| CpuRanges.RoundTrip | cpu_intersect.py:136-151 | reading the formatted text gives back the set; only the empty set gives "" |
| CpuRanges.RunsWellSpaced | cpu_intersect.py:142-150 | the runs are ascending and at least one missing CPU lies between two runs, so they are disjoint and maximal |
| CpuRanges.RunsCover | cpu_intersect.py:142-150 | the runs together cover exactly the listed CPUs |
| CpuRanges.ConsecutiveRun | cpu_intersect.py:145-146 | consecutive CPUs form a single run |
| CpuRanges.RunsConcat | cpu_intersect.py:147-149 | a gap splits the runs into those before it and those after it |
| CpuRanges.FormatExample | cpu_intersect.py:136-151 | {0,1,2,3,5,7,8,9} is written `0-3,5,7-9` |
| CpuRanges.SingleCpuExample | cpu_intersect.py:147 | {1} is written `1` |
| Text.ParseNatToString | cpu_intersect.py:147 | `str(n)` reads back as n |
| Text.NatToString | cpu_intersect.py:147-148 | `str(n)` is non-empty and all decimal digits; `ParseNatToString` reads it back |
| Text.Join | cpu_intersect.py:151 | `",".join`; `JoinSplit` and `SplitJoin` make it the inverse of `Split`, and `RoundTrip` reads the joined ranges back as the set |
| Stats.UngroupedExact | cpu_intersect.py:159-163 | a pid is in `no_cgroup` iff it is in the snapshot without a non-empty cgroup |
| Stats.Ungrouped | cpu_intersect.py:159-163 | `no_cgroup` lists only processes without a non-empty cgroup, no more than there are processes |
| Stats.GroupsAndUngroupedFit | cpu_intersect.py:157-163 | the number of groups plus the length of `no_cgroup` never exceeds the number of processes |
| Stats.EveryProcessCountedOnce | cpu_intersect.py:157-163 | the group sizes plus the length of `no_cgroup` equal the number of processes |
| Stats.TallyAllExact | cpu_intersect.py:157-163 | the loop of `print_stats` yields the key order, the groups and `no_cgroup` |
| Stats.GroupProcesses | cpu_intersect.py:155-163 | the grouping loop yields the key order, each group's members in order, and the pids without a cgroup in order |
| Stats.SortPermutes | cpu_intersect.py:171 | the ranking is a permutation of the groups |
| Stats.SortDescending | cpu_intersect.py:171 | the ranking puts groups with more members first |
| Stats.SortStable | cpu_intersect.py:171 | groups of equal size keep their `by_cgroup` order |
| Stats.SortBySize | cpu_intersect.py:171 | the ranking has as many entries as there are groups |
| Stats.Items | cpu_intersect.py:171 | `by_cgroup.items()`: one entry per key, in key order, holding that key's members |
| Stats.Top | cpu_intersect.py:171 | `[:20]` keeps min(20, groups) entries |
| Stats.TopLargest | cpu_intersect.py:171 | the top list holds min(20, groups) groups, taken from the groups, largest first, and no group left out is larger than a group kept |
| Stats.OmittedNotLarger | cpu_intersect.py:171 | a group outside the top 20 has no more members than any group in it |
| Stats.ShowLines | cpu_intersect.py:174-176 | the output loop makes one line per shown group, with its member count, its formatted CPUs and the CPU count |
| Stats.LineOf | cpu_intersect.py:176 | the values of one printed line: the cgroup, its member count, `fmt_cpus` of its union and the union's size; `ShownLineOf` and `StatsLineExact` state them for every shown line |
| Stats.LinesOf | cpu_intersect.py:174-176 | one line per shown group |
| Stats.LinesOfIndex | cpu_intersect.py:174-176 | the k-th line is that of the k-th shown group |
| Stats.PrintStats | cpu_intersect.py:154-176 | the counts and lines computed are those of `StatsOf`: the number of processes, the number of groups, the `no_cgroup` count, and the top groups' lines |
| Stats.StatsOf | cpu_intersect.py:154-176 | in the header, the groups plus the `no_cgroup` processes never outnumber the processes; there are at most 20 lines, and no more than there are groups |
| Stats.ShownLines | cpu_intersect.py:171-176 | min(20, groups) lines are shown |
| Stats.StatsCounts | cpu_intersect.py:173 | in the header, the process count is the sum of the group sizes plus the `no_cgroup` count |
| Stats.ShownLineOf | cpu_intersect.py:174-176 | each line is that of a listed group: its member count, its CPUs formatted, its CPU count |
| Stats.StatsLineExact | cpu_intersect.py:174-176 | each line shows a cgroup of the snapshot, its member count, its CPU union as text that reads back as that union, and the union's size |
| Stats.ShownRanking | cpu_intersect.py:171-176 | min(20, groups) lines are shown, in non-increasing order of member count |
| Stats.ShownLargest | cpu_intersect.py:171-176 | a cgroup with no line has no more members than any cgroup shown |
| Stats.StatsRanking | cpu_intersect.py:171-176 | for a snapshot: min(20, groups) lines, ranked by member count, none left out larger than one shown |

## Left out

- Reading `/proc`: the directory walk, file reads, and the exceptions they raise (lines 71-73, 86-90, 98-99). Their outcome is the `RawProc` input, and its order is the order of the walk.
- Parsing the `Name:` and `Cpus_allowed:` lines of `status` (lines 76-80). This is text I/O, so the two fields are given as `Status` values.
- The command line (lines 179-216): argparse, building the filter sets, and printing the reported pairs.
- The verbose listing (lines 116-120). It only prints.
- Printing in `print_stats`. The values each line is made of are modelled as `Line` and `Report`, not the formatted text.
- The other files of the repository: `lowlevel.py`, `autodoc.py` and `list_allowed_processes_per_cpu.py`. They are not part of this model.
- AffinityMask.ParseCpusAllowed: requires `ValidMask` (hex digits and commas, at least one digit). Python's `int(_, 16)` also accepts a sign, a `0x` prefix, underscores and surrounding spaces; the kernel never writes those, and they are not modelled.
- Collector.GetProcInfo: requires distinct pids. `/proc` directory names are unique, so the source never sees the same key twice.
- Conflicts.ScanRow: the two nested inner loops are in their own method, `AppendMemberPairs`. The statements are the same; only the split is new.
- CpuRanges.FmtCpus: the loop over the sorted CPUs is in its own method, `RangeTexts`. The statements are the same; only the split is new.
- Conflicts.ReportSound: the shared set reported is the overlap of the two cgroups' CPU unions. The two processes named may themselves share no CPU, as in the source.
- Conflicts.FindCgroupMismatches: the promised running time, O(n + c²), is modelled only by the ghost count of pair tests.
