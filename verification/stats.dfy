/** The statistics accumulator (rustracer-core/src/stats.rs:6-182): maps
  * from a statistic's "Category/Title" name to its running total, filled
  * by the per-thread reporters and printed grouped by category. Counters
  * are unbounded naturals here; the source's `u64` additions are not
  * checked for overflow. */
module Stats {
  import opened Wrappers

  // ---------------------------------------------------------------------------
  // Accumulating maps
  // ---------------------------------------------------------------------------

  /** A name's entry after `entry(name).or_insert(0) += value`: absent names
    * start at 0, every other name is unchanged. */
  function AddTo(m: map<string, nat>, name: string, value: nat): (r: map<string, nat>)
    ensures r.Keys == m.Keys + {name}
    ensures r[name] == (if name in m then m[name] else 0) + value
    ensures forall n :: n in m && n != name ==> r[n] == m[n]
  {
    m[name := (if name in m then m[name] else 0) + value]
  }

  /** A numerator and a denominator, added componentwise from (0, 0). */
  datatype Fraction = Fraction(num: nat, denom: nat)

  function AddFraction(m: map<string, Fraction>, name: string, num: nat, denom: nat): (r: map<string, Fraction>)
    ensures r.Keys == m.Keys + {name}
    ensures name !in m ==> r[name] == Fraction(num, denom)
    ensures name in m ==> r[name] == Fraction(m[name].num + num, m[name].denom + denom)
    ensures forall n :: n in m && n != name ==> r[n] == m[n]
  {
    var f := if name in m then m[name] else Fraction(0, 0);
    m[name := Fraction(f.num + num, f.denom + denom)]
  }

  /** One `report_counter` call. */
  datatype Report = Report(name: string, value: nat)

  /** The counters after a sequence of reports, in order. */
  function Accumulate(m: map<string, nat>, rs: seq<Report>): map<string, nat>
  {
    if rs == [] then m
    else
      var last := rs[|rs| - 1];
      AddTo(Accumulate(m, rs[..|rs| - 1]), last.name, last.value)
  }

  /** The total reported under a name. */
  function SumFor(rs: seq<Report>, name: string): nat
  {
    if rs == [] then 0
    else SumFor(rs[..|rs| - 1], name) + (if rs[|rs| - 1].name == name then rs[|rs| - 1].value else 0)
  }

  /** Starting from no counters, a name has a counter exactly when it was
    * reported, and the counter is the sum of its reports. */
  lemma {:induction false} AccumulateSums(rs: seq<Report>, name: string)
    ensures name in Accumulate(map[], rs) <==> exists i :: 0 <= i < |rs| && rs[i].name == name
    ensures name in Accumulate(map[], rs) ==> Accumulate(map[], rs)[name] == SumFor(rs, name)
    ensures name !in Accumulate(map[], rs) ==> SumFor(rs, name) == 0
  {
    if rs != [] {
      var init := rs[..|rs| - 1];
      AccumulateSums(init, name);
      if exists i :: 0 <= i < |init| && init[i].name == name {
        var i :| 0 <= i < |init| && init[i].name == name;
        assert rs[i].name == name;
      }
      if exists i :: 0 <= i < |rs| && rs[i].name == name {
        var i :| 0 <= i < |rs| && rs[i].name == name;
        if i < |init| {
          assert init[i].name == name;
        }
      }
    }
  }

  // ---------------------------------------------------------------------------
  // Integer distributions
  // ---------------------------------------------------------------------------

  /** One `report_int_distribution` call. */
  datatype DistReport = DistReport(name: string, sum: nat, count: nat, min: nat, max: nat)

  /** The four per-name totals of a distribution. */
  datatype Dist = Dist(sum: nat, count: nat, min: nat, max: nat)

  function Min(a: nat, b: nat): nat { if a <= b then a else b }
  function Max(a: nat, b: nat): nat { if a >= b then a else b }

  /** What `report_int_distribution` makes of a name's totals: sums and
    * counts add, the minimum and maximum are merged, and the first report
    * initialises all four. */
  function MergeDist(d: Option<Dist>, r: DistReport): (m: Dist)
    ensures d.None? ==> m == Dist(r.sum, r.count, r.min, r.max)
    ensures d.Some? ==> m.sum == d.value.sum + r.sum && m.count == d.value.count + r.count
    ensures d.Some? ==> m.min <= d.value.min && m.min <= r.min && (m.min == d.value.min || m.min == r.min)
    ensures d.Some? ==> m.max >= d.value.max && m.max >= r.max && (m.max == d.value.max || m.max == r.max)
  {
    match d
    case None => Dist(r.sum, r.count, r.min, r.max)
    case Some(x) => Dist(x.sum + r.sum, x.count + r.count, Min(x.min, r.min), Max(x.max, r.max))
  }

  /** A name's distribution in the four maps, when all four hold it. */
  function DistOf(sums: map<string, nat>, counts: map<string, nat>, mins: map<string, nat>,
                  maxs: map<string, nat>, name: string): (r: Option<Dist>)
    ensures r.Some? <==> name in sums && name in counts && name in mins && name in maxs
  {
    if name in sums && name in counts && name in mins && name in maxs
    then Some(Dist(sums[name], counts[name], mins[name], maxs[name]))
    else None
  }

  /** A name's distribution after a sequence of reports, in order. */
  function DistAfter(rs: seq<DistReport>, name: string): Option<Dist>
  {
    if rs == [] then None
    else
      var d := DistAfter(rs[..|rs| - 1], name);
      if rs[|rs| - 1].name == name then Some(MergeDist(d, rs[|rs| - 1])) else d
  }

  /** After any sequence of reports, a name's minimum is the least reported
    * minimum and its maximum the greatest reported maximum. */
  lemma {:induction false} DistAfterBounds(rs: seq<DistReport>, name: string)
    ensures DistAfter(rs, name).Some? <==> exists i :: 0 <= i < |rs| && rs[i].name == name
    ensures DistAfter(rs, name).Some? ==>
      var d := DistAfter(rs, name).value;
      (forall i :: 0 <= i < |rs| && rs[i].name == name ==> d.min <= rs[i].min && rs[i].max <= d.max) &&
      (exists i :: 0 <= i < |rs| && rs[i].name == name && rs[i].min == d.min) &&
      (exists j :: 0 <= j < |rs| && rs[j].name == name && rs[j].max == d.max)
  {
    if rs != [] {
      var init := rs[..|rs| - 1];
      var last := rs[|rs| - 1];
      DistAfterBounds(init, name);
      assert forall i :: 0 <= i < |init| ==> rs[i] == init[i];
      if last.name == name && DistAfter(init, name).Some? {
        var d0 := DistAfter(init, name).value;
        var i0 :| 0 <= i0 < |init| && init[i0].name == name && init[i0].min == d0.min;
        var j0 :| 0 <= j0 < |init| && init[j0].name == name && init[j0].max == d0.max;
        var d := DistAfter(rs, name).value;
        if d.min == d0.min {
          assert rs[i0].name == name && rs[i0].min == d.min;
        } else {
          assert rs[|rs| - 1].min == d.min;
        }
        if d.max == d0.max {
          assert rs[j0].name == name && rs[j0].max == d.max;
        } else {
          assert rs[|rs| - 1].max == d.max;
        }
      } else if last.name == name {
        assert rs[|rs| - 1].name == name;
        assert forall i :: 0 <= i < |init| ==> init[i].name != name;
      }
    }
  }

  // ---------------------------------------------------------------------------
  // Category and title
  // ---------------------------------------------------------------------------

  /** The position of the first '/' in s. */
  function FirstSlash(s: string): (i: nat)
    requires '/' in s
    ensures i < |s| && s[i] == '/' && '/' !in s[..i]
  {
    if s[0] == '/' then 0
    else
      var j := FirstSlash(s[1..]);
      assert s[1..][..j] == s[1..j + 1];
      assert s[..j + 1] == [s[0]] + s[1..][..j];
      j + 1
  }

  /** The pieces of s joined back with '/'. */
  function Join(ps: seq<string>): string
    requires |ps| >= 1
  {
    if |ps| == 1 then ps[0] else ps[0] + "/" + Join(ps[1..])
  }

  /** `s.split('/')`: the maximal pieces without '/', one more than there
    * are separators; an empty string gives one empty piece. */
  function Split(s: string): (ps: seq<string>)
    ensures |ps| >= 1
    ensures forall i :: 0 <= i < |ps| ==> '/' !in ps[i]
    ensures Join(ps) == s
    decreases |s|
  {
    if '/' !in s then [s]
    else
      var i := FirstSlash(s);
      var rest := Split(s[i + 1..]);
      assert s == s[..i] + "/" + s[i + 1..];
      [s[..i]] + rest
  }

  /** Splitting undoes joining pieces that have no '/'. */
  lemma {:induction false} SplitJoin(ps: seq<string>)
    requires |ps| >= 1
    requires forall i :: 0 <= i < |ps| ==> '/' !in ps[i]
    ensures Split(Join(ps)) == ps
  {
    if |ps| > 1 {
      var a, b := ps[0], Join(ps[1..]);
      var s := a + "/" + b;
      assert Join(ps) == s;
      SplitJoin(ps[1..]);
      FirstSlashAfter(a, b);
      assert s[..|a|] == a && s[|a| + 1..] == b;
      assert Split(s) == [a] + Split(b);
    }
  }

  /** In a + "/" + b with no '/' in a, the first '/' is the one after a. */
  lemma FirstSlashAfter(a: string, b: string)
    requires '/' !in a
    ensures '/' in a + "/" + b && FirstSlash(a + "/" + b) == |a|
  {
    var s := a + "/" + b;
    assert s[|a|] == '/';
    assert s[..|a|] == a;
  }


  /** `get_category_and_title`: the first two pieces when the name holds a
    * '/', else no category and the whole name as title. */
  function CategoryAndTitle(s: string): (ct: (string, string))
    ensures '/' !in s ==> ct == ("", s)
    ensures '/' in s ==> ct.0 + "/" <= s && '/' !in ct.0 && '/' !in ct.1
    ensures '/' in s ==> var rest := s[|ct.0| + 1..];
      ct.1 <= rest && (|ct.1| == |rest| || rest[|ct.1|] == '/')
  {
    var v := Split(s);
    if |v| > 1 then
      SplitHead(s);
      (v[0], v[1])
    else ("", s)
  }

  /** A name with a '/' splits into at least two pieces, the first being the
    * text before the first '/', the second the text after it up to the next
    * '/' or the end. */
  lemma SplitHead(s: string)
    requires '/' in s
    ensures |Split(s)| > 1
    ensures var i := FirstSlash(s); Split(s)[0] == s[..i] && Split(s)[1..] == Split(s[i + 1..])
    ensures var rest := s[|Split(s)[0]| + 1..];
      Split(s)[1] <= rest && (|Split(s)[1]| == |rest| || rest[|Split(s)[1]|] == '/')
  {
    var i := FirstSlash(s);
    var rest := s[i + 1..];
    var ps := Split(rest);
    assert Split(s) == [s[..i]] + ps;
    if |ps| > 1 {
      assert rest == ps[0] + "/" + Join(ps[1..]);
      assert rest[|ps[0]|] == '/';
    }
  }

  // ---------------------------------------------------------------------------
  // print_stats
  // ---------------------------------------------------------------------------

  /** The unit `print_stats` picks for a memory counter. */
  datatype MemoryUnit = KiB | MiB | GiB

  /** kiB below 1024 kiB, MiB below 1024 MiB, GiB above. */
  function UnitFor(bytes: nat): (u: MemoryUnit)
    ensures u == KiB <==> bytes < 1024 * 1024
    ensures u == GiB <==> bytes >= 1024 * 1024 * 1024
  {
    if bytes < 1024 * 1024 then KiB else if bytes < 1024 * 1024 * 1024 then MiB else GiB
  }

  /** One printed line, without its text formatting. */
  datatype Line =
    | CounterLine(title: string, value: nat)
    | MemoryLine(title: string, bytes: nat, unit: MemoryUnit)
    | DistributionLine(title: string, sum: nat, count: nat, min: nat, max: nat)
    | PercentageLine(title: string, num: nat, denom: nat)
    | RatioLine(title: string, num: nat, denom: nat)

  class StatAccumulator {
    var counters: map<string, nat>
    var memoryCounters: map<string, nat>
    var intDistributionSums: map<string, nat>
    var intDistributionCounts: map<string, nat>
    var intDistributionMins: map<string, nat>
    var intDistributionMaxs: map<string, nat>
    var percentages: map<string, Fraction>
    var ratios: map<string, Fraction>

    /** Every distribution name is in all four maps, so the unwraps of
      * `print_stats` succeed. */
    predicate Valid()
      reads this
    {
      intDistributionCounts.Keys == intDistributionSums.Keys &&
      intDistributionMins.Keys == intDistributionSums.Keys &&
      intDistributionMaxs.Keys == intDistributionSums.Keys
    }

    /** `StatAccumulator::default()`. */
    constructor ()
      ensures Valid()
      ensures counters == map[] && memoryCounters == map[] && percentages == map[] && ratios == map[]
      ensures intDistributionSums == map[] && intDistributionCounts == map[]
      ensures intDistributionMins == map[] && intDistributionMaxs == map[]
    {
      counters, memoryCounters := map[], map[];
      intDistributionSums, intDistributionCounts := map[], map[];
      intDistributionMins, intDistributionMaxs := map[], map[];
      percentages, ratios := map[], map[];
    }

    /** The distribution recorded for a name. */
    function DistributionOf(name: string): (r: Option<Dist>)
      reads this
      requires Valid()
      ensures r.Some? <==> name in intDistributionSums
    {
      DistOf(intDistributionSums, intDistributionCounts, intDistributionMins, intDistributionMaxs, name)
    }

    method ReportCounter(name: string, value: nat)
      modifies this
      requires Valid()
      ensures Valid()
      ensures counters == AddTo(old(counters), name, value)
      ensures memoryCounters == old(memoryCounters) && percentages == old(percentages) && ratios == old(ratios)
      ensures intDistributionSums == old(intDistributionSums) && intDistributionCounts == old(intDistributionCounts)
      ensures intDistributionMins == old(intDistributionMins) && intDistributionMaxs == old(intDistributionMaxs)
    {
      counters := AddTo(counters, name, value);
    }

    method ReportMemoryCounter(name: string, value: nat)
      modifies this
      requires Valid()
      ensures Valid()
      ensures memoryCounters == AddTo(old(memoryCounters), name, value)
      ensures counters == old(counters) && percentages == old(percentages) && ratios == old(ratios)
      ensures intDistributionSums == old(intDistributionSums) && intDistributionCounts == old(intDistributionCounts)
      ensures intDistributionMins == old(intDistributionMins) && intDistributionMaxs == old(intDistributionMaxs)
    {
      memoryCounters := AddTo(memoryCounters, name, value);
    }

    /** Only the reported name's distribution changes, merged as
      * `MergeDist` says. */
    method ReportIntDistribution(name: string, sum: nat, count: nat, min: nat, max: nat)
      modifies this
      requires Valid()
      ensures Valid()
      ensures DistributionOf(name) == Some(MergeDist(old(DistributionOf(name)), DistReport(name, sum, count, min, max)))
      ensures forall n :: n != name ==> DistributionOf(n) == old(DistributionOf(n))
      ensures counters == old(counters) && memoryCounters == old(memoryCounters)
      ensures percentages == old(percentages) && ratios == old(ratios)
    {
      var s := if name in intDistributionSums then intDistributionSums[name] else 0;
      var c := if name in intDistributionCounts then intDistributionCounts[name] else 0;
      var lo := if name in intDistributionMins then intDistributionMins[name] else min;
      var hi := if name in intDistributionMaxs then intDistributionMaxs[name] else max;
      intDistributionSums, intDistributionCounts := intDistributionSums[name := s + sum], intDistributionCounts[name := c + count];
      intDistributionMins, intDistributionMaxs := intDistributionMins[name := Min(lo, min)], intDistributionMaxs[name := Max(hi, max)];
    }

    method ReportPercentage(name: string, num: nat, denom: nat)
      modifies this
      requires Valid()
      ensures Valid()
      ensures percentages == AddFraction(old(percentages), name, num, denom)
      ensures counters == old(counters) && memoryCounters == old(memoryCounters) && ratios == old(ratios)
      ensures intDistributionSums == old(intDistributionSums) && intDistributionCounts == old(intDistributionCounts)
      ensures intDistributionMins == old(intDistributionMins) && intDistributionMaxs == old(intDistributionMaxs)
    {
      percentages := AddFraction(percentages, name, num, denom);
    }

    method ReportRatio(name: string, num: nat, denom: nat)
      modifies this
      requires Valid()
      ensures Valid()
      ensures ratios == AddFraction(old(ratios), name, num, denom)
      ensures counters == old(counters) && memoryCounters == old(memoryCounters) && percentages == old(percentages)
      ensures intDistributionSums == old(intDistributionSums) && intDistributionCounts == old(intDistributionCounts)
      ensures intDistributionMins == old(intDistributionMins) && intDistributionMaxs == old(intDistributionMaxs)
    {
      ratios := AddFraction(ratios, name, num, denom);
    }

    /** The (category, line) pairs `print_stats` collects, as a set since
      * the maps are iterated in no particular order. */
    function Printed(): (lines: set<(string, Line)>)
      reads this
      requires Valid()
    {
      CounterLines(counters) + MemoryLines(memoryCounters) +
      DistributionLines(intDistributionSums, intDistributionCounts, intDistributionMins, intDistributionMaxs) +
      FractionLines(percentages, true) + FractionLines(ratios, false)
    }
  }

  /** The counter lines: one per nonzero counter, and none for a zero one. */
  function CounterLines(m: map<string, nat>): (r: set<(string, Line)>)
    ensures forall d :: d in m && m[d] != 0 ==> (CategoryAndTitle(d).0, CounterLine(CategoryAndTitle(d).1, m[d])) in r
    ensures forall p :: p in r ==>
      (p.1.CounterLine? && p.1.value != 0 &&
       exists d :: d in m && m[d] == p.1.value && CategoryAndTitle(d) == (p.0, p.1.title))
  {
    set d | d in m && m[d] != 0 :: (CategoryAndTitle(d).0, CounterLine(CategoryAndTitle(d).1, m[d]))
  }

  /** The memory lines: one per nonzero counter, in the unit its size
    * calls for. */
  function MemoryLines(m: map<string, nat>): (r: set<(string, Line)>)
    ensures forall d :: d in m && m[d] != 0 ==>
      (CategoryAndTitle(d).0, MemoryLine(CategoryAndTitle(d).1, m[d], UnitFor(m[d]))) in r
    ensures forall p :: p in r ==> p.1.MemoryLine? && p.1.bytes != 0 && p.1.unit == UnitFor(p.1.bytes)
  {
    set d | d in m && m[d] != 0 :: (CategoryAndTitle(d).0, MemoryLine(CategoryAndTitle(d).1, m[d], UnitFor(m[d])))
  }

  /** The distribution lines: one per name with a nonzero count. */
  function DistributionLines(sums: map<string, nat>, counts: map<string, nat>, mins: map<string, nat>,
                             maxs: map<string, nat>): (r: set<(string, Line)>)
    requires counts.Keys == sums.Keys && mins.Keys == sums.Keys && maxs.Keys == sums.Keys
    ensures forall d :: d in sums && counts[d] != 0 ==>
      (CategoryAndTitle(d).0, DistributionLine(CategoryAndTitle(d).1, sums[d], counts[d], mins[d], maxs[d])) in r
    ensures forall p :: p in r ==>
      (p.1.DistributionLine? && p.1.count != 0 &&
       exists d :: d in sums && DistOf(sums, counts, mins, maxs, d) == Some(Dist(p.1.sum, p.1.count, p.1.min, p.1.max)))
  {
    set d | d in sums && counts[d] != 0 ::
      (CategoryAndTitle(d).0, DistributionLine(CategoryAndTitle(d).1, sums[d], counts[d], mins[d], maxs[d]))
  }

  /** The percentage (or ratio) lines: one per nonzero denominator. */
  function FractionLines(m: map<string, Fraction>, percentage: bool): (r: set<(string, Line)>)
    ensures forall d :: d in m && m[d].denom != 0 ==>
      (CategoryAndTitle(d).0, FractionLine(CategoryAndTitle(d).1, m[d], percentage)) in r
    ensures forall p :: p in r ==>
      ((if percentage then p.1.PercentageLine? else p.1.RatioLine?) &&
       p.1.denom != 0 && exists d :: d in m && m[d] == Fraction(p.1.num, p.1.denom))
  {
    set d | d in m && m[d].denom != 0 :: (CategoryAndTitle(d).0, FractionLine(CategoryAndTitle(d).1, m[d], percentage))
  }

  function FractionLine(title: string, f: Fraction, percentage: bool): Line
  {
    if percentage then PercentageLine(title, f.num, f.denom) else RatioLine(title, f.num, f.denom)
  }
}
