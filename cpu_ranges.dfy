/** `fmt_cpus`: a CPU set written as ascending comma-separated ranges, `a-b`
    for a run of two or more consecutive CPUs and `a` for a lone CPU, as in
    `0-3,5,7-9`. A reader of that list format is given beside it, and the
    text is shown to read back as the set it was made from. */
module CpuRanges {
  import opened Text

  /** Strictly increasing. */
  ghost predicate Increasing(xs: seq<nat>)
  {
    forall i, j :: 0 <= i < j < |xs| ==> xs[i] < xs[j]
  }

  /** A non-empty finite set of naturals has a least element. */
  lemma {:induction false} Least(s: set<nat>) returns (m: nat)
    requires s != {}
    ensures m in s && forall y :: y in s ==> m <= y
    decreases |s|
  {
    var x :| x in s;
    if s == {x} {
      m := x;
    } else {
      var rest := s - {x};
      var r := Least(rest);
      m := if x < r then x else r;
      forall y | y in s ensures m <= y {
        if y != x {
          assert y in rest;
        }
      }
    }
  }

  lemma HasMin(s: set<nat>)
    requires s != {}
    ensures exists m :: m in s && forall y :: y in s ==> m <= y
  {
    var m := Least(s);
  }

  function Min(s: set<nat>): (m: nat)
    requires s != {}
    ensures m in s && forall y :: y in s ==> m <= y
  {
    HasMin(s);
    var m :| m in s && forall y :: y in s ==> m <= y;
    m
  }

  /** `sorted(cpus)`: the elements of the set, each once, in increasing order. */
  function SortedCpus(s: set<nat>): (xs: seq<nat>)
    ensures Increasing(xs)
    ensures forall c :: c in xs <==> c in s
    decreases |s|
  {
    if s == {} then []
    else
      var m := Min(s);
      [m] + SortedCpus(s - {m})
  }

  /** A maximal run of consecutive CPUs, `start` to `end` inclusive. */
  datatype Run = Run(start: nat, end: nat)

  /** The runs the loop of `fmt_cpus` builds from a sorted list: a CPU one past
      the end of the current run extends it, any other starts a new one. */
  function RunsOf(xs: seq<nat>): (rs: seq<Run>)
    requires xs != []
    ensures rs != []
  {
    if |xs| == 1 then [Run(xs[0], xs[0])]
    else
      var rs := RunsOf(xs[..|xs| - 1]);
      var last := rs[|rs| - 1];
      var cpu := xs[|xs| - 1];
      if cpu == last.end + 1 then rs[..|rs| - 1] + [Run(last.start, cpu)] else rs + [Run(cpu, cpu)]
  }

  /** `f"{start}-{end}" if start != end else str(start)`: a dash appears
      exactly when the run holds more than one CPU. */
  function RunText(r: Run): (t: string)
    ensures t != ""
    ensures '-' in t <==> r.start != r.end
  {
    var a := NatToString(r.start);
    NoDashInDigits(a);
    if r.start != r.end then
      var b := NatToString(r.end);
      NoDashInDigits(b);
      assert (a + "-" + b)[|a|] == '-';
      a + "-" + b
    else a
  }

  function RunTexts(rs: seq<Run>): (ts: seq<string>)
    ensures |ts| == |rs|
  {
    if rs == [] then [] else RunTexts(rs[..|rs| - 1]) + [RunText(rs[|rs| - 1])]
  }

  /** The text `fmt_cpus` returns: empty exactly for the empty set. */
  function Render(cpus: set<nat>): (t: string)
    ensures t == "" <==> cpus == {}
  {
    if cpus == {} then ""
    else
      var rs := RunsOf(SortedCpus(cpus));
      RunTextsIndex(rs, 0);
      JoinNonEmpty(RunTexts(rs), ',');
      Join(RunTexts(rs), ',')
  }

  /** The loop of `fmt_cpus` over the sorted CPUs: extend the current run
      by a CPU one past its end, otherwise close it and open a new one, and
      close the last run at the end. Yields the runs' texts in order. */
  method RangeTexts(sortedCpus: seq<nat>) returns (ranges: seq<string>)
    requires sortedCpus != []
    ensures ranges == RunTexts(RunsOf(sortedCpus))
  {
    ranges := [];
    ghost var runs: seq<Run> := [];
    var start := sortedCpus[0];
    var end := start;
    for k := 1 to |sortedCpus|
      invariant runs + [Run(start, end)] == RunsOf(sortedCpus[..k])
      invariant ranges == RunTexts(runs)
    {
      var cpu := sortedCpus[k];
      RunsOfSnoc(sortedCpus, k, runs, start, end);
      if cpu == end + 1 {
        end := cpu;
      } else {
        var piece := if start != end then NatToString(start) + "-" + NatToString(end) else NatToString(start);
        assert piece == RunText(Run(start, end));
        RunTextsSnoc(runs, Run(start, end));
        ranges := ranges + [piece];
        runs := runs + [Run(start, end)];
        start := cpu;
        end := cpu;
      }
    }
    var piece := if start != end then NatToString(start) + "-" + NatToString(end) else NatToString(start);
    assert piece == RunText(Run(start, end));
    RunTextsSnoc(runs, Run(start, end));
    ranges := ranges + [piece];
    runs := runs + [Run(start, end)];
    assert sortedCpus[..|sortedCpus|] == sortedCpus;
  }

  /** One more CPU either extends the last run or opens a new one. */
  lemma RunsOfSnoc(xs: seq<nat>, k: nat, runs: seq<Run>, start: nat, end: nat)
    requires 0 < k < |xs|
    requires runs + [Run(start, end)] == RunsOf(xs[..k])
    ensures RunsOf(xs[..k + 1]) ==
      if xs[k] == end + 1 then runs + [Run(start, xs[k])] else runs + [Run(start, end)] + [Run(xs[k], xs[k])]
  {
    assert xs[..k + 1][..k] == xs[..k];
    var rs := runs + [Run(start, end)];
    assert rs[..|rs| - 1] == runs;
  }

  lemma RunTextsSnoc(rs: seq<Run>, r: Run)
    ensures RunTexts(rs + [r]) == RunTexts(rs) + [RunText(r)]
  {
    assert (rs + [r])[..|rs|] == rs;
  }

  /** `fmt_cpus`: "" for no CPUs; otherwise sort, collect the runs' texts and
      join them with commas. */
  method FmtCpus(cpus: set<nat>) returns (text: string)
    ensures text == Render(cpus)
    ensures text == "" <==> cpus == {}
    ensures ParseCpuList(text) == Some(cpus)
  {
    if cpus == {} {
      RoundTrip(cpus);
      return "";
    }
    var sortedCpus := SortedCpus(cpus);
    var ranges := RangeTexts(sortedCpus);
    text := Join(ranges, ',');
    RoundTrip(cpus);
  }

  /** Each run is ascending, and between two runs lies at least one missing
      CPU: the runs are disjoint, in increasing order and maximal. */
  ghost predicate WellSpaced(rs: seq<Run>)
  {
    && (forall k :: 0 <= k < |rs| ==> rs[k].start <= rs[k].end)
    && (forall k :: 0 <= k < |rs| - 1 ==> rs[k].end + 1 < rs[k + 1].start)
  }

  /** The runs of an increasing list are well spaced, and the last one ends
      at the list's last CPU. */
  lemma {:induction false} RunsWellSpaced(xs: seq<nat>)
    requires xs != [] && Increasing(xs)
    ensures WellSpaced(RunsOf(xs))
    ensures RunsOf(xs)[|RunsOf(xs)| - 1].end == xs[|xs| - 1]
  {
    if |xs| > 1 {
      var init := xs[..|xs| - 1];
      RunsWellSpaced(init);
      var rs := RunsOf(init);
      var last := rs[|rs| - 1];
      var cpu := xs[|xs| - 1];
      assert last.end == xs[|xs| - 2] < cpu;
      if cpu == last.end + 1 {
        var next := rs[..|rs| - 1] + [Run(last.start, cpu)];
        assert RunsOf(xs) == next;
        forall k | 0 <= k < |next| - 1 ensures next[k].end + 1 < next[k + 1].start {
          assert next[k] == rs[k];
          if k + 1 < |next| - 1 {
            assert next[k + 1] == rs[k + 1];
          }
        }
      }
    }
  }

  /** The CPUs from `lo` to `hi` inclusive. */
  function Range(lo: nat, hi: nat): set<nat>
    decreases hi
  {
    if hi < lo then {} else if hi == lo then {lo} else Range(lo, hi - 1) + {hi}
  }

  lemma {:induction false} RangeExact(lo: nat, hi: nat, v: nat)
    ensures v in Range(lo, hi) <==> lo <= v <= hi
    decreases hi
  {
    if hi > lo {
      RangeExact(lo, hi - 1, v);
    }
  }

  /** The CPUs of a run. */
  function RunSet(r: Run): set<nat>
  {
    Range(r.start, r.end)
  }

  /** The CPUs a list of runs names. */
  function Covered(rs: seq<Run>): set<nat>
  {
    if rs == [] then {} else Covered(rs[..|rs| - 1]) + RunSet(rs[|rs| - 1])
  }

  lemma CoveredSnoc(rs: seq<Run>, r: Run)
    ensures Covered(rs + [r]) == Covered(rs) + RunSet(r)
  {
    assert (rs + [r])[..|rs|] == rs;
  }

  /** The last run ends at the last CPU, and its start is no later. */
  lemma {:induction false} LastRun(xs: seq<nat>)
    requires xs != []
    ensures RunsOf(xs)[|RunsOf(xs)| - 1].end == xs[|xs| - 1]
    ensures RunsOf(xs)[|RunsOf(xs)| - 1].start <= xs[|xs| - 1]
  {
    if |xs| > 1 {
      LastRun(xs[..|xs| - 1]);
    }
  }

  /** The CPUs of a list, as a set. */
  function Elems(xs: seq<nat>): set<nat>
  {
    if xs == [] then {} else Elems(xs[..|xs| - 1]) + {xs[|xs| - 1]}
  }

  lemma {:induction false} ElemsExact(xs: seq<nat>, c: nat)
    ensures c in Elems(xs) <==> c in xs
  {
    if xs != [] {
      ElemsExact(xs[..|xs| - 1], c);
      assert xs == xs[..|xs| - 1] + [xs[|xs| - 1]];
    }
  }

  /** Extending the last run by the next CPU adds that CPU. */
  lemma ExtendRun(front: seq<Run>, last: Run, cpu: nat)
    requires last.start <= last.end && cpu == last.end + 1
    ensures Covered(front + [Run(last.start, cpu)]) == Covered(front + [last]) + {cpu}
  {
    CoveredSnoc(front, last);
    CoveredSnoc(front, Run(last.start, cpu));
  }

  /** The runs of a list name exactly its CPUs. */
  lemma {:induction false} RunsCover(xs: seq<nat>)
    requires xs != []
    ensures Covered(RunsOf(xs)) == Elems(xs)
  {
    var init := xs[..|xs| - 1];
    var cpu := xs[|xs| - 1];
    assert Elems(xs) == Elems(init) + {cpu};
    if |xs| == 1 {
      CoveredSnoc([], Run(cpu, cpu));
      assert [] + [Run(cpu, cpu)] == RunsOf(xs);
    } else {
      RunsCover(init);
      LastRun(init);
      var rs := RunsOf(init);
      var last := rs[|rs| - 1];
      if cpu == last.end + 1 {
        var front := rs[..|rs| - 1];
        assert rs == front + [last];
        assert RunsOf(xs) == front + [Run(last.start, cpu)];
        ExtendRun(front, last, cpu);
      } else {
        assert RunsOf(xs) == rs + [Run(cpu, cpu)];
        CoveredSnoc(rs, Run(cpu, cpu));
      }
    }
  }

  predicate AllDigits(s: string)
  {
    forall k :: 0 <= k < |s| ==> IsDigit(s[k])
  }

  /** One item of a CPU list, `a` or `a-b`, read as the CPUs it names; `None`
      when it is not of either form. */
  function ParseItem(item: string): Option<set<nat>>
  {
    if '-' in item then
      var i := IndexOf(item, '-');
      var lo := item[..i];
      var hi := item[i + 1..];
      if lo != [] && hi != [] && AllDigits(lo) && AllDigits(hi)
      then Some(RunSet(Run(ParseNat(lo), ParseNat(hi))))
      else None
    else if item != [] && AllDigits(item) then Some({ParseNat(item)})
    else None
  }

  function ParseItems(items: seq<string>): Option<set<nat>>
  {
    if items == [] then Some({})
    else
      match (ParseItems(items[..|items| - 1]), ParseItem(items[|items| - 1]))
      case (Some(a), Some(b)) => Some(a + b)
      case _ => None
  }

  /** A reader of the CPU list format: the empty text is the empty set,
      anything else comma-separated items. */
  function ParseCpuList(text: string): Option<set<nat>>
  {
    if text == "" then Some({}) else ParseItems(Split(text, ','))
  }

  lemma NoDashInDigits(s: string)
    requires AllDigits(s)
    ensures '-' !in s && ',' !in s
  {
    assert forall k :: 0 <= k < |s| ==> s[k] != '-' && s[k] != ',';
  }

  /** The text of a run reads back as the run. */
  lemma ParseRunText(r: Run)
    requires r.start <= r.end
    ensures ',' !in RunText(r)
    ensures ParseItem(RunText(r)) == Some(RunSet(r))
  {
    var a := NatToString(r.start);
    var b := NatToString(r.end);
    NoDashInDigits(a);
    NoDashInDigits(b);
    ParseNatToString(r.start);
    ParseNatToString(r.end);
    if r.start != r.end {
      var t := a + "-" + b;
      assert t[|a|] == '-';
      assert t[..|a|] == a;
      assert IndexOf(t, '-') == |a|;
      assert t[|a| + 1..] == b;
    } else {
      assert RunSet(r) == {r.start};
    }
  }

  lemma {:induction false} ParseRunTexts(rs: seq<Run>)
    requires WellSpaced(rs)
    ensures forall k :: 0 <= k < |rs| ==> ',' !in RunTexts(rs)[k]
    ensures ParseItems(RunTexts(rs)) == Some(Covered(rs))
  {
    if rs != [] {
      var init := rs[..|rs| - 1];
      assert WellSpaced(init);
      ParseRunTexts(init);
      ParseRunText(rs[|rs| - 1]);
      assert RunTexts(rs)[..|rs| - 1] == RunTexts(init);
    }
  }

  lemma JoinNonEmpty(ps: seq<string>, sep: char)
    requires |ps| >= 1 && ps[0] != ""
    ensures Join(ps, sep) != ""
  {
  }

  lemma {:induction false} RunTextsIndex(rs: seq<Run>, k: nat)
    requires k < |rs|
    ensures RunTexts(rs)[k] == RunText(rs[k])
  {
    if k < |rs| - 1 {
      RunTextsIndex(rs[..|rs| - 1], k);
    }
  }

  lemma ElemsOfSorted(cpus: set<nat>)
    ensures Elems(SortedCpus(cpus)) == cpus
  {
    forall c ensures c in Elems(SortedCpus(cpus)) <==> c in cpus {
      ElemsExact(SortedCpus(cpus), c);
    }
  }

  /** Reading back what `fmt_cpus` wrote gives the CPU set it was given, and
      only the empty set is written as the empty text. */
  lemma RoundTrip(cpus: set<nat>)
    ensures ParseCpuList(Render(cpus)) == Some(cpus)
    ensures Render(cpus) == "" <==> cpus == {}
  {
    if cpus != {} {
      var xs := SortedCpus(cpus);
      assert Min(cpus) in xs;
      var rs := RunsOf(xs);
      var ts := RunTexts(rs);
      assert Render(cpus) == Join(ts, ',');
      RunsWellSpaced(xs);
      RunsCover(xs);
      ElemsOfSorted(cpus);
      ParseRunTexts(rs);
      SplitJoin(ts, ',');
      RunTextsIndex(rs, 0);
      JoinNonEmpty(ts, ',');
    }
  }

  /** An increasing list holding exactly the CPUs of a set is that set sorted. */
  lemma {:induction false} SortedUnique(xs: seq<nat>, s: set<nat>)
    requires Increasing(xs)
    requires forall c :: c in xs <==> c in s
    ensures SortedCpus(s) == xs
    decreases |xs|
  {
    if xs == [] {
      assert forall c :: c !in s;
      assert s == {};
    } else {
      assert xs[0] in s;
      var m := Min(s);
      var k :| 0 <= k < |xs| && xs[k] == m;
      assert m == xs[0];
      var tail := xs[1..];
      forall c ensures c in tail <==> c in s - {m} {
        if c in s - {m} {
          var j :| 0 <= j < |xs| && xs[j] == c;
          assert j != 0;
          assert tail[j - 1] == c;
        }
      }
      SortedUnique(tail, s - {m});
    }
  }

  /** Consecutive CPUs make a single run. */
  lemma {:induction false} ConsecutiveRun(xs: seq<nat>)
    requires xs != []
    requires forall k :: 0 < k < |xs| ==> xs[k] == xs[k - 1] + 1
    ensures RunsOf(xs) == [Run(xs[0], xs[|xs| - 1])]
  {
    if |xs| > 1 {
      ConsecutiveRun(xs[..|xs| - 1]);
    }
  }

  /** A gap of at least one missing CPU separates the runs before it from
      the runs after it. */
  lemma {:induction false} RunsConcat(xs: seq<nat>, ys: seq<nat>)
    requires xs != [] && ys != []
    requires ys[0] > xs[|xs| - 1] + 1
    ensures RunsOf(xs + ys) == RunsOf(xs) + RunsOf(ys)
    decreases |ys|
  {
    if |ys| == 1 {
      LastRun(xs);
      assert (xs + ys)[..|xs|] == xs;
    } else {
      var init := ys[..|ys| - 1];
      assert (xs + ys)[..|xs + ys| - 1] == xs + init;
      RunsConcat(xs, init);
      ConcatStep(RunsOf(xs), RunsOf(init), RunsOf(xs + init), ys[|ys| - 1]);
    }
  }

  /** Adding one CPU changes only the runs after the gap. */
  lemma ConcatStep(a: seq<Run>, r: seq<Run>, ar: seq<Run>, cpu: nat)
    requires r != [] && ar == a + r
    ensures ar[|ar| - 1] == r[|r| - 1]
    ensures ar[..|ar| - 1] + [Run(r[|r| - 1].start, cpu)] == a + (r[..|r| - 1] + [Run(r[|r| - 1].start, cpu)])
    ensures ar + [Run(cpu, cpu)] == a + (r + [Run(cpu, cpu)])
  {
    assert ar[..|ar| - 1] == a + r[..|r| - 1];
  }

  lemma ExampleRuns(xs: seq<nat>)
    requires |xs| == 8
    requires xs[0] == 0 && xs[1] == 1 && xs[2] == 2 && xs[3] == 3
    requires xs[4] == 5 && xs[5] == 7 && xs[6] == 8 && xs[7] == 9
    ensures RunsOf(xs) == [Run(0, 3), Run(5, 5), Run(7, 9)]
  {
    var low := xs[..4];
    var mid := xs[4..5];
    var high := xs[5..];
    ConsecutiveRun(low);
    ConsecutiveRun(mid);
    ConsecutiveRun(high);
    RunsConcat(low, mid);
    assert low + mid == xs[..5];
    RunsConcat(xs[..5], high);
    assert xs[..5] + high == xs;
  }

  lemma ExampleTexts(rs: seq<Run>)
    requires rs == [Run(0, 3), Run(5, 5), Run(7, 9)]
    ensures RunTexts(rs) == ["0-3", "5", "7-9"]
  {
    assert RunText(Run(0, 3)) == "0-3" by {
      assert NatToString(0) == "0" && NatToString(3) == "3";
    }
    assert RunText(Run(5, 5)) == "5" by {
      assert NatToString(5) == "5";
    }
    assert RunText(Run(7, 9)) == "7-9" by {
      assert NatToString(7) == "7" && NatToString(9) == "9";
    }
    assert rs[..1][..0] == [];
    assert rs[..2][..1] == rs[..1];
    assert rs[..3][..2] == rs[..2];
    assert RunTexts(rs[..1]) == ["0-3"];
    assert RunTexts(rs[..2]) == ["0-3", "5"];
    assert rs[..3] == rs;
  }

  lemma ExampleSorted(cpus: set<nat>)
    requires cpus == {0, 1, 2, 3, 5, 7, 8, 9}
    ensures SortedCpus(cpus) == [0, 1, 2, 3, 5, 7, 8, 9]
  {
    var xs: seq<nat> := [0, 1, 2, 3, 5, 7, 8, 9];
    assert Increasing(xs);
    assert forall c :: c in xs <==> c in cpus;
    SortedUnique(xs, cpus);
  }

  lemma ExampleJoin(ts: seq<string>)
    requires ts == ["0-3", "5", "7-9"]
    ensures Join(ts, ',') == "0-3,5,7-9"
  {
    assert ts[1..][1..] == ["7-9"];
    assert Join(ts[1..], ',') == "5,7-9";
  }

  /** The example of the documentation: CPUs 0, 1, 2, 3, 5, 7, 8 and 9. */
  lemma FormatExample(cpus: set<nat>)
    requires cpus == {0, 1, 2, 3, 5, 7, 8, 9}
    ensures Render(cpus) == "0-3,5,7-9"
  {
    var sorted := SortedCpus(cpus);
    ExampleSorted(cpus);
    ExampleRuns(sorted);
    var rs := RunsOf(sorted);
    ExampleTexts(rs);
    ExampleJoin(RunTexts(rs));
  }

  /** A lone CPU is written as its number: `{1}` gives `1`. */
  lemma SingleCpuExample(cpus: set<nat>)
    requires cpus == {1}
    ensures Render(cpus) == "1"
  {
    var xs: seq<nat> := [1];
    assert forall c :: c in xs <==> c in cpus;
    SortedUnique(xs, cpus);
    assert RunsOf(xs) == [Run(1, 1)];
    assert RunText(Run(1, 1)) == "1";
  }
}
