/** The cgroup label of a process (`get_cgroup`): a first-match heuristic over
    the lines of `/proc/<pid>/cgroup`. Each line is cut at `/`; empty segments and
    segments that start with the literal `0::` (the cgroup v2 line head) are
    dropped; the first segment starting with `pod` wins; otherwise the deepest
    segment that is not a generic systemd slice; otherwise the next line. */
module CgroupId {
  import opened Text

  /** The slices every systemd host has, too generic to identify a workload. */
  const GenericSlices: set<string> := {"user.slice", "system.slice", "machine.slice"}

  /** The segments the comprehension keeps: non-empty and not starting with `0::`. */
  predicate IsKept(p: string)
  {
    p != "" && !StartsWith(p, "0::")
  }

  predicate IsPod(p: string)
  {
    StartsWith(p, "pod")
  }

  /** The kept segments, in their original order. */
  function KeepSegments(segments: seq<string>): (r: seq<string>)
    ensures forall k :: 0 <= k < |r| ==> IsKept(r[k])
  {
    if segments == [] then []
    else (if IsKept(segments[0]) then [segments[0]] else []) + KeepSegments(segments[1..])
  }

  /** The comprehension keeps exactly the kept segments. */
  lemma {:induction false} KeepSegmentsExact(segments: seq<string>, x: string)
    ensures x in KeepSegments(segments) <==> x in segments && IsKept(x)
  {
    if segments != [] {
      KeepSegmentsExact(segments[1..], x);
      assert segments == [segments[0]] + segments[1..];
    }
  }

  /** `[p for p in line.split('/') if p and not p.startswith('0::')]` */
  function Parts(line: string): (r: seq<string>)
    ensures forall k :: 0 <= k < |r| ==> IsKept(r[k]) && '/' !in r[k]
  {
    var r := KeepSegments(Split(line, '/'));
    assert forall k :: 0 <= k < |r| ==> '/' !in r[k] by {
      forall k | 0 <= k < |r| ensures '/' !in r[k] {
        KeepSegmentsExact(Split(line, '/'), r[k]);
      }
    }
    r
  }

  /** Index of the first segment starting with `pod`, or `|parts|` if none does. */
  function FirstPod(parts: seq<string>): (i: nat)
    ensures i <= |parts|
    ensures forall j :: 0 <= j < i ==> !IsPod(parts[j])
    ensures i < |parts| ==> IsPod(parts[i])
  {
    if parts == [] || IsPod(parts[0]) then 0 else 1 + FirstPod(parts[1..])
  }

  /** Index of the last segment that is not a generic slice, or -1 if there is none. */
  function LastSpecific(parts: seq<string>): (i: int)
    ensures -1 <= i < |parts|
    ensures forall j :: i < j < |parts| ==> parts[j] in GenericSlices
    ensures 0 <= i ==> parts[i] !in GenericSlices
  {
    if parts == [] then -1
    else if parts[|parts| - 1] !in GenericSlices then |parts| - 1
    else LastSpecific(parts[..|parts| - 1])
  }

  /** What one line yields: the first pod segment, else the deepest
      non-generic segment, else nothing. */
  function LineCgroup(line: string): (r: Option<string>)
    ensures r.Some? ==> r.value in Parts(line) && IsKept(r.value)
  {
    var parts := Parts(line);
    if parts == [] then None
    else
      var i := FirstPod(parts);
      if i < |parts| then Some(parts[i])
      else
        var j := LastSpecific(parts);
        if j >= 0 then Some(parts[j]) else None
  }

  /** The label of the first line, in order, that yields one. */
  function FirstYield(lines: seq<string>): (r: Option<string>)
    ensures r.Some? ==> IsKept(r.value)
    ensures r.Some? ==> exists k :: 0 <= k < |lines| && LineCgroup(lines[k]) == r
  {
    if lines == [] then None
    else if LineCgroup(lines[0]).Some? then LineCgroup(lines[0])
    else FirstYield(lines[1..])
  }

  /** `get_cgroup(cgroup_text)`; `None` when no line yields a label. A label is
      never empty and never starts with `0::`. */
  function GetCgroup(text: string): (r: Option<string>)
    ensures r.Some? ==> r.value != "" && !StartsWith(r.value, "0::")
  {
    FirstYield(SplitLines(text))
  }

  /** The text is read one line at a time: the first line decides when it
      yields a label, and otherwise the text after its line break does. */
  lemma GetCgroupFirstLine(a: string, b: char, c: string)
    requires BreakFree(a) && IsLineBreak(b)
    requires b == '\r' ==> !StartsWith(c, "\n")
    ensures GetCgroup(a + [b] + c) == if LineCgroup(a).Some? then LineCgroup(a) else GetCgroup(c)
  {
    SplitLinesBreak(a, b, c);
    assert ([a] + SplitLines(c))[1..] == SplitLines(c);
  }

  /** On a line with a pod segment, the earliest pod segment is the label. */
  lemma PodWins(line: string, k: nat)
    requires k < |Parts(line)| && IsPod(Parts(line)[k])
    requires forall j :: 0 <= j < k ==> !IsPod(Parts(line)[j])
    ensures LineCgroup(line) == Some(Parts(line)[k])
  {
  }

  /** On a line without a pod segment, the label is the deepest segment that
      is not a generic slice. */
  lemma DeepestSpecificWins(line: string, k: nat)
    requires forall j :: 0 <= j < |Parts(line)| ==> !IsPod(Parts(line)[j])
    requires k < |Parts(line)| && Parts(line)[k] !in GenericSlices
    requires forall j :: k < j < |Parts(line)| ==> Parts(line)[j] in GenericSlices
    ensures LineCgroup(line) == Some(Parts(line)[k])
  {
  }

  /** No generic slice starts with `pod`. */
  lemma GenericIsNotPod(p: string)
    requires p in GenericSlices
    ensures !IsPod(p)
  {
    assert p[0] in {'u', 's', 'm'};
  }

  /** A line yields nothing exactly when every kept segment is a generic slice
      (which covers a line with no kept segment at all). */
  lemma LineYieldsNothing(line: string)
    ensures LineCgroup(line).None? <==>
            forall j :: 0 <= j < |Parts(line)| ==> Parts(line)[j] in GenericSlices
  {
    var parts := Parts(line);
    if parts != [] && forall j :: 0 <= j < |parts| ==> parts[j] in GenericSlices {
      var i := FirstPod(parts);
      if i < |parts| {
        GenericIsNotPod(parts[i]);
      }
    }
  }

  /** The label is that of the first line that yields one. */
  lemma {:induction false} FirstYieldingLineWins(lines: seq<string>, k: nat)
    requires k < |lines| && LineCgroup(lines[k]).Some?
    requires forall j :: 0 <= j < k ==> LineCgroup(lines[j]).None?
    ensures FirstYield(lines) == LineCgroup(lines[k])
  {
    if k > 0 {
      assert LineCgroup(lines[0]).None?;
      FirstYieldingLineWins(lines[1..], k - 1);
    }
  }

  /** No label exactly when no line yields one. */
  lemma {:induction false} NoLabelIffNoLineYields(lines: seq<string>)
    ensures FirstYield(lines).None? <==> forall j :: 0 <= j < |lines| ==> LineCgroup(lines[j]).None?
  {
    if lines != [] {
      var tail := lines[1..];
      NoLabelIffNoLineYields(tail);
      assert forall j :: 0 < j < |lines| ==> lines[j] == tail[j - 1];
      if LineCgroup(lines[0]).None? {
        assert FirstYield(lines) == FirstYield(tail);
      } else {
        assert FirstYield(lines).Some?;
      }
    }
  }

  /** Single-line text is decided by its one line. */
  lemma OneLineText(text: string)
    requires text != [] && IsPlain(text)
    ensures GetCgroup(text) == LineCgroup(text)
  {
    SplitLinesOfPlain(text);
  }

  lemma KeepStep(x: string, rest: seq<string>)
    ensures KeepSegments([x] + rest) == (if IsKept(x) then [x] else []) + KeepSegments(rest)
  {
    assert ([x] + rest)[1..] == rest;
  }

  /** The head `0::` of a cgroup v2 line, and the facts the examples need
      about the generic slices. */
  lemma GenericFacts(slice: string)
    requires slice in GenericSlices
    ensures IsKept(slice) && !IsPod(slice) && '/' !in slice && IsPlain(slice)
    ensures !IsKept("0::") && '/' !in "0::" && IsPlain("0::")
  {
    GenericIsNotPod(slice);
    assert slice[0] != '0';
  }

  lemma JoinThree(a: string, b: string, c: string)
    ensures Join([a, b, c], '/') == a + "/" + b + "/" + c
  {
    assert Join([c], '/') == c;
    assert Join([b, c], '/') == b + "/" + c;
  }

  lemma KeepSliceSegments(slice: string, leaf: string)
    requires slice in GenericSlices && IsKept(leaf)
    ensures KeepSegments(["0::", slice, leaf]) == [slice, leaf]
  {
    GenericFacts(slice);
    assert KeepSegments([leaf]) == [leaf] by {
      KeepStep(leaf, []);
    }
    assert KeepSegments([slice, leaf]) == [slice, leaf] by {
      KeepStep(slice, [leaf]);
    }
    KeepStep("0::", [slice, leaf]);
  }

  lemma SliceLeafParts(slice: string, leaf: string)
    requires slice in GenericSlices
    requires IsKept(leaf) && '/' !in leaf
    ensures Parts("0::/" + slice + "/" + leaf) == [slice, leaf]
  {
    GenericFacts(slice);
    JoinThree("0::", slice, leaf);
    assert "0::" + "/" == "0::/";
    assert "0::/" + slice + "/" + leaf == Join(["0::", slice, leaf], '/');
    SplitJoin(["0::", slice, leaf], '/');
    KeepSliceSegments(slice, leaf);
  }

  /** `0::/<generic slice>/<leaf>` gives the leaf: the generic slice is skipped.
      For example `0::/user.slice/app.service` gives `app.service`. */
  lemma GenericSliceSkipped(slice: string, leaf: string)
    requires slice in GenericSlices
    requires IsKept(leaf) && !IsPod(leaf) && leaf !in GenericSlices
    requires '/' !in leaf && IsPlain(leaf)
    ensures GetCgroup("0::/" + slice + "/" + leaf) == Some(leaf)
  {
    var text := "0::/" + slice + "/" + leaf;
    SliceLeafParts(slice, leaf);
    GenericFacts(slice);
    assert FirstPod([slice, leaf]) == 2;
    assert IsPlain(text) by {
      PlainAppend("0::/", slice);
      PlainAppend("0::/" + slice, "/");
      PlainAppend("0::/" + slice + "/", leaf);
    }
    OneLineText(text);
  }

  /** `0::/<generic slice>` gives no label: nothing is left once the generic
      slice is skipped. For example `0::/system.slice`. */
  lemma GenericSliceOnly(slice: string)
    requires slice in GenericSlices
    ensures GetCgroup("0::/" + slice) == None
  {
    var segments := ["0::", slice];
    var text := "0::/" + slice;
    GenericFacts(slice);
    assert Join(segments, '/') == text;
    SplitJoin(segments, '/');
    KeepStep("0::", [slice]);
    KeepStep(slice, []);
    assert Parts(text) == [slice];
    LineYieldsNothing(text);
    OneLineText(text);
  }

  lemma JoinFour(a: string, b: string, c: string, d: string)
    ensures Join([a, b, c, d], '/') == a + "/" + b + "/" + c + "/" + d
  {
    assert Join([d], '/') == d;
    assert Join([c, d], '/') == c + "/" + d;
    assert Join([b, c, d], '/') == b + "/" + c + "/" + d;
  }

  lemma KeepPodSegments(slice: string, pod: string, leaf: string)
    requires slice in GenericSlices && IsPod(pod) && IsKept(leaf)
    ensures KeepSegments(["0::", slice, pod, leaf]) == [slice, pod, leaf]
  {
    GenericFacts(slice);
    assert IsKept(pod) by {
      assert pod[0] == 'p';
    }
    assert KeepSegments([leaf]) == [leaf] by {
      KeepStep(leaf, []);
    }
    assert KeepSegments([pod, leaf]) == [pod, leaf] by {
      KeepStep(pod, [leaf]);
    }
    assert KeepSegments([slice, pod, leaf]) == [slice, pod, leaf] by {
      KeepStep(slice, [pod, leaf]);
    }
    KeepStep("0::", [slice, pod, leaf]);
  }

  lemma PodLineParts(slice: string, pod: string, leaf: string)
    requires slice in GenericSlices
    requires IsPod(pod) && '/' !in pod
    requires IsKept(leaf) && '/' !in leaf
    ensures Parts("0::/" + slice + "/" + pod + "/" + leaf) == [slice, pod, leaf]
  {
    GenericFacts(slice);
    JoinFour("0::", slice, pod, leaf);
    assert "0::" + "/" == "0::/";
    assert "0::/" + slice + "/" + pod + "/" + leaf == Join(["0::", slice, pod, leaf], '/');
    SplitJoin(["0::", slice, pod, leaf], '/');
    KeepPodSegments(slice, pod, leaf);
  }

  /** A pod segment wins over a generic slice before it and a deeper segment
      after it: `0::/system.slice/pod-abc123/app.scope` gives `pod-abc123`. */
  lemma PodBeatsDeeperSegment(slice: string, pod: string, leaf: string)
    requires slice in GenericSlices
    requires IsPod(pod) && '/' !in pod && IsPlain(pod)
    requires IsKept(leaf) && '/' !in leaf && IsPlain(leaf)
    ensures GetCgroup("0::/" + slice + "/" + pod + "/" + leaf) == Some(pod)
  {
    var text := "0::/" + slice + "/" + pod + "/" + leaf;
    GenericFacts(slice);
    PodLineParts(slice, pod, leaf);
    assert FirstPod([slice, pod, leaf]) == 1;
    assert IsPlain(text) by {
      PlainAppend("0::/", slice);
      PlainAppend("0::/" + slice, "/");
      PlainAppend("0::/" + slice + "/", pod);
      PlainAppend("0::/" + slice + "/" + pod, "/");
      PlainAppend("0::/" + slice + "/" + pod + "/", leaf);
    }
    OneLineText(text);
  }

  /** Only the literal `0::` head is dropped: a cgroup v1 line such as
      `12:cpuset:/` yields its own head, `12:cpuset:`. */
  lemma VersionOneHeadKept(head: string)
    requires head == "12:cpuset:"
    ensures GetCgroup(head + "/") == Some(head)
  {
    var segments := [head, ""];
    var text := head + "/";
    assert '/' !in head && IsPlain(head);
    assert IsKept(head) && !IsPod(head) && head !in GenericSlices by {
      assert head[0] == '1';
    }
    assert Join(segments, '/') == text;
    SplitJoin(segments, '/');
    KeepStep(head, [""]);
    KeepStep("", []);
    assert Parts(text) == [head];
    OneLineText(text);
  }
}
