/** The dashboard statistics: the gender counts, the twelve-bin plan-duration
    histogram and the labelled chart data built from its non-empty bins. */
module Dashboard {
  import opened Common
  import opened Seqs
  import opened Members

  datatype Statistics = Statistics(
    totalMembers: nat, maleMembers: nat, femaleMembers: nat, durationCounts: seq<nat>)

  /** The state before the members query answers: zeros and twelve empty bins. */
  const InitialStatistics: Statistics := Statistics(0, 0, 0, seq(12, _ => 0))

  function GenderCount(members: seq<Member>, gender: string): nat {
    |Filter(members, (m: Member) => m.gender == gender)|
  }

  /** The number of members on a plan of `d` months. */
  function DurationCount(members: seq<Member>, d: int): nat {
    |Filter(members, (m: Member) => m.duration == d)|
  }

  /** The twelve bins: bin `i` counts the members on an `i + 1` month plan. */
  function Histogram(members: seq<Member>): seq<nat> {
    seq(12, i requires 0 <= i < 12 => DurationCount(members, i + 1))
  }

  function Sum(s: seq<nat>): nat {
    if s == [] then 0 else Sum(s[..|s| - 1]) + s[|s| - 1]
  }

  /** The statistics the effect stores for a loaded member list. */
  function Tally(members: seq<Member>): (s: Statistics)
    ensures s.totalMembers == |members|
    ensures s.maleMembers + s.femaleMembers <= s.totalMembers
    ensures |s.durationCounts| == 12
    ensures Sum(s.durationCounts) <= s.totalMembers
  {
    GenderCountsBound(members);
    HistogramSum(members);
    Statistics(|members|, GenderCount(members, "male"), GenderCount(members, "female"),
               Histogram(members))
  }

  /** Men and women are disjoint, so together they are at most everyone. */
  lemma GenderCountsBound(members: seq<Member>)
    ensures GenderCount(members, "male") + GenderCount(members, "female") <= |members|
  {
    DisjointFiltersBound(members, (m: Member) => m.gender == "male", (m: Member) => m.gender == "female");
  }

  /** The first `n` bins together count the members whose plan lasts 1..n months. */
  lemma {:induction false} BinsSum(members: seq<Member>, n: nat)
    requires n <= 12
    ensures Sum(Histogram(members)[..n]) == |Filter(members, (m: Member) => 1 <= m.duration <= n)|
  {
    var h := Histogram(members);
    if n == 0 {
      FilterNone(members, (m: Member) => 1 <= m.duration <= n);
    } else {
      BinsSum(members, n - 1);
      assert h[..n][..n - 1] == h[..n - 1];
      FilterDisjointUnion(members, (m: Member) => 1 <= m.duration <= n - 1, (m: Member) => m.duration == n,
                          (m: Member) => 1 <= m.duration <= n);
    }
  }

  lemma {:induction false} FilterNone<T>(s: seq<T>, p: T -> bool)
    requires forall i :: 0 <= i < |s| ==> !p(s[i])
    ensures Filter(s, p) == []
  {
    if s != [] {
      FilterNone(s[1..], p);
    }
  }

  /** Durations outside 1..12 land in no bin: the bins add up to the members
      with an in-range duration, which is at most everyone. */
  lemma HistogramSum(members: seq<Member>)
    ensures Sum(Histogram(members)) == |Filter(members, (m: Member) => 1 <= m.duration <= 12)|
    ensures Sum(Histogram(members)) <= |members|
  {
    BinsSum(members, 12);
    assert Histogram(members)[..12] == Histogram(members);
  }

  lemma DurationCountAppend(s: seq<Member>, m: Member, d: int)
    ensures DurationCount(s + [m], d) == DurationCount(s, d) + (if m.duration == d then 1 else 0)
  {
    FilterAppend(s, m, (x: Member) => x.duration == d);
  }

  /** One more member adds one to the bin of its duration, if it has one. */
  lemma HistogramAppend(s: seq<Member>, m: Member)
    ensures Histogram(s + [m])
         == if 1 <= m.duration <= 12
            then Histogram(s)[m.duration - 1 := Histogram(s)[m.duration - 1] + 1]
            else Histogram(s)
  {
    forall d | 1 <= d <= 12 {
      DurationCountAppend(s, m, d);
    }
  }

  /** The `forEach` over the members that increments bin `duration - 1` of a
      twelve-element array for each in-range duration. */
  method CountDurations(members: seq<Member>) returns (counts: seq<nat>)
    ensures counts == Histogram(members)
  {
    var bins := new nat[12](_ => 0);
    var k := 0;
    assert members[..0] == [];
    while k < |members|
      invariant 0 <= k <= |members|
      invariant bins[..] == Histogram(members[..k])
    {
      var m := members[k];
      assert members[..k + 1] == members[..k] + [m];
      HistogramAppend(members[..k], m);
      if 1 <= m.duration <= 12 {
        bins[m.duration - 1] := bins[m.duration - 1] + 1;
      }
      k := k + 1;
    }
    assert members[..k] == members;
    counts := bins[..];
  }

  /** The dashboard's state. */
  class StatsView {
    var statistics: Statistics

    constructor ()
      ensures statistics == InitialStatistics
    {
      statistics := InitialStatistics;
    }

    /** The effect on `[members, isLoading]`: the statistics are replaced only
        once the list is present and no longer loading. */
    method OnQueryUpdate(members: Option<seq<Member>>, isLoading: bool)
      modifies this
      ensures members.Some? && !isLoading ==> statistics == Tally(members.value)
      ensures !(members.Some? && !isLoading) ==> statistics == old(statistics)
    {
      if members.Some? && !isLoading {
        var list := members.value;
        var male := |Filter(list, (m: Member) => m.gender == "male")|;
        var female := |Filter(list, (m: Member) => m.gender == "female")|;
        var counts := CountDurations(list);
        statistics := Statistics(|list|, male, female, counts);
      }
    }
  }

  // ---------------------------------------------------------------------------
  // Chart data
  // ---------------------------------------------------------------------------

  datatype PlanBin = PlanBin(count: nat, labelText: string)

  /** `${n} Month${n > 1 ? 's' : ''}`. */
  function DurationLabel(n: nat): string {
    NatToString(n) + " Month" + (if n > 1 then "s" else "")
  }

  /** The label names its duration: `parseInt` reads it back, so distinct bins
      carry distinct labels. */
  lemma DurationLabelParses(n: nat)
    ensures ParseInt(DurationLabel(n)) == Some(n)
    ensures DurationLabel(n) == NatToString(n) + (if n > 1 then " Months" else " Month")
  {
    var rest := " Month" + (if n > 1 then "s" else "");
    assert DurationLabel(n) == NatToString(n) + rest;
    ParseIntOfNatString(n, rest);
  }

  lemma DurationLabelInjective(a: nat, b: nat)
    requires DurationLabel(a) == DurationLabel(b)
    ensures a == b
  {
    DurationLabelParses(a);
    DurationLabelParses(b);
  }

  /** The `.map` step: a labelled bin for each non-zero count, `null` otherwise. */
  function LabelledBins(counts: seq<nat>): seq<Option<PlanBin>> {
    seq(|counts|, i requires 0 <= i < |counts| =>
      if counts[i] > 0 then Some(PlanBin(counts[i], DurationLabel(i + 1))) else None)
  }

  /** `.filter(Boolean)`: the non-null entries. */
  function FilteredDurationCounts(counts: seq<nat>): seq<PlanBin> {
    var kept := Filter(LabelledBins(counts), (o: Option<PlanBin>) => o.Some?);
    seq(|kept|, i requires 0 <= i < |kept| => kept[i].value)
  }

  /** The kept bins are exactly the non-zero bins, in increasing duration: entry
      `j` is bin `durations[j] - 1` with its count and its label. */
  lemma FilteredDurationCountsSpec(counts: seq<nat>) returns (durations: seq<nat>)
    ensures var r := FilteredDurationCounts(counts);
      && |durations| == |r|
      && (forall j :: 0 <= j < |r| ==>
            1 <= durations[j] <= |counts| && counts[durations[j] - 1] > 0
            && r[j] == PlanBin(counts[durations[j] - 1], DurationLabel(durations[j])))
      && (forall j, k :: 0 <= j < k < |r| ==> durations[j] < durations[k])
      && (forall d :: 1 <= d <= |counts| && counts[d - 1] > 0 ==> d in durations)
  {
    var l := LabelledBins(counts);
    var p := (o: Option<PlanBin>) => o.Some?;
    KeptIndicesElements(l, p);
    KeptIndicesIncreasing(l, p);
    var idx := KeptIndices(l, p);
    durations := Shifted(idx);
    forall d | 1 <= d <= |counts| && counts[d - 1] > 0 ensures d in durations {
      KeptIndicesComplete(l, p, d - 1);
      var j :| 0 <= j < |idx| && idx[j] == d - 1;
      assert durations[j] == d;
    }
  }

  /** A bin is shown exactly when its count is non-zero. */
  lemma FilteredDurationCountsMembership(counts: seq<nat>, d: nat, c: nat)
    ensures PlanBin(c, DurationLabel(d)) in FilteredDurationCounts(counts)
        <==> 1 <= d <= |counts| && counts[d - 1] == c && c > 0
  {
    var r := FilteredDurationCounts(counts);
    var durations := FilteredDurationCountsSpec(counts);
    if PlanBin(c, DurationLabel(d)) in r {
      var j :| 0 <= j < |r| && r[j] == PlanBin(c, DurationLabel(d));
      DurationLabelInjective(durations[j], d);
    }
    if 1 <= d <= |counts| && counts[d - 1] == c && c > 0 {
      assert d in durations;
      var j :| 0 <= j < |durations| && durations[j] == d;
      assert r[j] == PlanBin(c, DurationLabel(d));
    }
  }

  /** The bar chart's labels and values. */
  datatype PlanData = PlanData(labels: seq<string>, data: seq<nat>)

  function PlanDataOf(counts: seq<nat>): PlanData {
    var bins := FilteredDurationCounts(counts);
    PlanData(seq(|bins|, i requires 0 <= i < |bins| => bins[i].labelText),
             seq(|bins|, i requires 0 <= i < |bins| => bins[i].count))
  }

  /** Labels and values line up: the i-th label names the bin whose count is the
      i-th value. */
  lemma PlanDataAligned(counts: seq<nat>)
    ensures var pd := PlanDataOf(counts);
      && |pd.labels| == |pd.data|
      && forall i :: 0 <= i < |pd.labels| ==>
           exists d :: 1 <= d <= |counts| && pd.labels[i] == DurationLabel(d)
                       && pd.data[i] == counts[d - 1] && pd.data[i] > 0
  {
    var pd := PlanDataOf(counts);
    var bins := FilteredDurationCounts(counts);
    var durations := FilteredDurationCountsSpec(counts);
    forall i | 0 <= i < |pd.labels|
      ensures exists d :: 1 <= d <= |counts| && pd.labels[i] == DurationLabel(d)
                          && pd.data[i] == counts[d - 1] && pd.data[i] > 0
    {
      var d := durations[i];
      assert pd.labels[i] == DurationLabel(d) && pd.data[i] == counts[d - 1];
    }
  }
}
