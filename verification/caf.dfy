/**
 * Weekly workload planning (routes/caf.py): the year is cut into 52 weeks
 * starting on its first Monday, weeks can be filtered by the month their
 * Monday falls in, and each project phase spreads its charge over the weeks
 * it overlaps, in proportion to the days it spends in each.
 *
 * Dates are Python date ordinals (see module Calendar).
 */
module Caf {
  import opened Common
  import opened Calendar

  /** The year the views are computed for. */
  const Annee: int := 2025

  /** The number of weeks shown. */
  const WeekCount: int := 52

  // ---------------------------------------------------------------------------
  // The first Monday and the week windows
  // ---------------------------------------------------------------------------

  /** Adding `j` days moves the weekday forward by `j` while it does not wrap past Sunday. */
  lemma WeekdayAfter(n: int, j: int)
    requires 0 <= j && Weekday(n) + j < 7
    ensures Weekday(n + j) == Weekday(n) + j
  {
    var q := (n + 6) / 7;
    assert n + 6 == 7 * q + Weekday(n);
    assert n + j + 6 == 7 * q + (Weekday(n) + j);
  }

  /** From day `n`, the next Monday is `(7 - weekday) % 7` days on, and none comes before it. */
  lemma NextMonday(n: int)
    ensures Weekday(n + (7 - Weekday(n)) % 7) == 0
    ensures forall d | n <= d < n + (7 - Weekday(n)) % 7 :: Weekday(d) != 0
  {
    var w := Weekday(n);
    if w != 0 {
      var q := (n + 6) / 7;
      assert n + 6 == 7 * q + w;
      assert n + (7 - w) % 7 + 6 == 7 * (q + 1);
      forall d | n <= d < n + (7 - w) % 7 ensures Weekday(d) != 0 {
        WeekdayAfter(n, d - n);
      }
    }
  }

  /** The first Monday of year `y`, in closed form. */
  function FirstMondayOf(y: int): (d: int)
    requires MinYear <= y <= MaxYear
    ensures FirstDay(y) <= d <= FirstDay(y) + 6
    ensures Weekday(d) == 0
    ensures forall e | FirstDay(y) <= e < d :: Weekday(e) != 0
  {
    NextMonday(FirstDay(y));
    FirstDay(y) + (7 - Weekday(FirstDay(y))) % 7
  }

  /** The search loop: start at 1 January and step a day at a time until a Monday. */
  method FirstMonday(y: int) returns (start: int)
    requires MinYear <= y <= MaxYear
    ensures Weekday(start) == 0
    ensures FirstDay(y) <= start <= FirstDay(y) + 6
    ensures forall d | FirstDay(y) <= d < start :: Weekday(d) != 0
    ensures start == FirstMondayOf(y)
  {
    start := ToOrdinal(Date(y, 1, 1));
    var monday := FirstMondayOf(y);
    while Weekday(start) != 0
      invariant FirstDay(y) <= start <= monday
      invariant forall d | FirstDay(y) <= d < start :: Weekday(d) != 0
      decreases monday - start
    {
      start := start + 1;
    }
  }

  /** Monday and Sunday of week `i` (1-based) of a year whose first Monday is `start`. */
  function WeekStart(start: int, i: int): int
  {
    start + 7 * (i - 1)
  }

  function WeekEnd(start: int, i: int): int
  {
    WeekStart(start, i) + 6
  }

  /** Week `i` is the seven days from its Monday; consecutive weeks tile the days without gap. */
  lemma WeekWindow(start: int, i: int)
    requires Weekday(start) == 0
    ensures WeekEnd(start, i) - WeekStart(start, i) + 1 == 7
    ensures WeekStart(start, i + 1) == WeekEnd(start, i) + 1
    ensures Weekday(WeekStart(start, i)) == 0
  {
  }

  /** All 52 Mondays fall inside the year itself. */
  lemma MondaysInYear(y: int, i: int)
    requires MinYear <= y <= MaxYear && 1 <= i <= WeekCount
    ensures FirstDay(y) <= WeekStart(FirstMondayOf(y), i) <= LastDay(y)
  {
  }

  /**
   * Below the last year every week's Sunday is still a date `date` can
   * hold, so computing `fin_semaine` never overflows.
   */
  lemma WeekEndsRepresentable(y: int, i: int)
    requires MinYear <= y < MaxYear && 1 <= i <= WeekCount
    ensures WeekEnd(FirstMondayOf(y), i) <= LastDay(MaxYear)
  {
    MondaysInYear(y, i);
    assert LastDay(y) + 6 < LastDay(y + 1);
    if y + 1 < MaxYear {
      assert LastDay(y + 1) <= LastDay(MaxYear);
    }
  }

  /**
   * In year 9999 week 52 runs past 31 December, where the date arithmetic
   * of the planning view would overflow; the year of the views is 2025.
   */
  lemma LastYearOverflows()
    ensures WeekEnd(FirstMondayOf(MaxYear), WeekCount) > LastDay(MaxYear)
  {
    assert FirstDay(MaxYear) == 3651695;
    assert Weekday(FirstDay(MaxYear)) == 4;
  }

  /** The views' year: its weeks start on Monday 6 January 2025 and all end on representable dates. */
  lemma AnneeWeeks()
    ensures MinYear <= Annee < MaxYear
    ensures FirstMondayOf(Annee) == ToOrdinal(Date(2025, 1, 6))
    ensures forall i | 1 <= i <= WeekCount :: WeekEnd(FirstMondayOf(Annee), i) <= LastDay(MaxYear)
  {
    assert FirstDay(Annee) == 739252;
    assert Weekday(FirstDay(Annee)) == 2;
    forall i | 1 <= i <= WeekCount
      ensures WeekEnd(FirstMondayOf(Annee), i) <= LastDay(MaxYear)
    {
      WeekEndsRepresentable(Annee, i);
    }
  }

  // ---------------------------------------------------------------------------
  // caf_automatique: weeks by month and the month filter
  // ---------------------------------------------------------------------------

  /** The Monday of week `i` of year `y`. */
  function WeekMonday(y: int, i: int): (d: int)
    requires MinYear <= y <= MaxYear && 1 <= i <= WeekCount
    ensures FirstDay(y) <= d <= LastDay(y)
  {
    MondaysInYear(y, i);
    WeekStart(FirstMondayOf(y), i)
  }

  /** `strftime("%B")` of the Monday of week `i`. */
  function WeekMonth(y: int, i: int): (name: string)
    requires MinYear <= y <= MaxYear && 1 <= i <= WeekCount
    ensures name in MonthNames
  {
    MonthNameOf(y, WeekMonday(y, i))
  }

  /** The weeks (1-based) whose month in `ms` is `name`, in order. */
  function WeeksOf(ms: seq<string>, name: string): seq<int>
  {
    if ms == [] then []
    else WeeksOf(ms[..|ms| - 1], name) + (if ms[|ms| - 1] == name then [|ms|] else [])
  }

  /** A week is listed for a month exactly when its month is that month. */
  lemma {:induction false} WeeksOfMembers(ms: seq<string>, name: string)
    ensures forall w :: w in WeeksOf(ms, name) <==> 1 <= w <= |ms| && ms[w - 1] == name
  {
    if ms != [] {
      var init := ms[..|ms| - 1];
      WeeksOfMembers(init, name);
      assert forall k | 0 <= k < |init| :: init[k] == ms[k];
    }
  }

  /** The weeks of a month are listed in increasing order. */
  lemma {:induction false} WeeksOfSorted(ms: seq<string>, name: string)
    ensures forall a, b | 0 <= a < b < |WeeksOf(ms, name)| :: WeeksOf(ms, name)[a] < WeeksOf(ms, name)[b]
  {
    if ms != [] {
      var init := ms[..|ms| - 1];
      var prev := WeeksOf(init, name);
      WeeksOfSorted(init, name);
      WeeksOfMembers(init, name);
      if ms[|ms| - 1] == name {
        var cur := prev + [|ms|];
        assert WeeksOf(ms, name) == cur;
        forall a, b | 0 <= a < b < |cur| ensures cur[a] < cur[b] {
          assert cur[a] == prev[a] && prev[a] in prev;
          if b < |prev| {
            assert cur[b] == prev[b];
          }
        }
      }
    }
  }

  /** The month of each week's Monday, week 1 first. */
  ghost predicate IsWeekMonths(y: int, months: seq<string>)
    requires MinYear <= y <= MaxYear
  {
    |months| == WeekCount && forall w | 1 <= w <= WeekCount :: months[w - 1] == WeekMonth(y, w)
  }

  /** Appending week `i`'s month to the months of weeks 1..i-1 gives those of weeks 1..i. */
  lemma AppendWeekMonth(y: int, months: seq<string>, i: int)
    requires MinYear <= y <= MaxYear && 1 <= i <= WeekCount
    requires |months| == i - 1
    requires forall k | 0 <= k < i - 1 :: months[k] == WeekMonth(y, k + 1)
    ensures forall k | 0 <= k < i :: (months + [WeekMonth(y, i)])[k] == WeekMonth(y, k + 1)
  {
    var next := months + [WeekMonth(y, i)];
    forall k | 0 <= k < i
      ensures next[k] == WeekMonth(y, k + 1)
    {
      if k < i - 1 {
        assert next[k] == months[k];
      } else {
        assert next[k] == WeekMonth(y, i);
      }
    }
  }

  /** Some sequence lists the month of each week's Monday. */
  ghost method AllWeekMonths(y: int) returns (months: seq<string>)
    requires MinYear <= y <= MaxYear
    ensures IsWeekMonths(y, months)
  {
    months := [];
    for i := 1 to WeekCount + 1
      invariant |months| == i - 1
      invariant forall k | 0 <= k < i - 1 :: months[k] == WeekMonth(y, k + 1)
    {
      AppendWeekMonth(y, months, i);
      months := months + [WeekMonth(y, i)];
    }
  }

  /** `debut_semaine.strftime("%B")` for week `i`, from the year's first Monday. */
  method MondayMonth(y: int, start: int, i: int, ghost all: seq<string>) returns (mois: string)
    requires MinYear <= y <= MaxYear && 1 <= i <= WeekCount
    requires start == FirstMondayOf(y) && IsWeekMonths(y, all)
    ensures mois == all[i - 1]
  {
    var debutSemaine := start + 7 * (i - 1);
    assert debutSemaine == WeekMonday(y, i);
    mois := MonthNameOf(y, debutSemaine);
    assert mois == WeekMonth(y, i);
  }

  /** The weeks listed for month `m` are exactly the weeks whose Monday is in `m`, in order. */
  ghost predicate WeeksOfMonth(y: int, m: string, weeks: seq<int>)
    requires MinYear <= y <= MaxYear
  {
    && (forall w :: w in weeks <==> 1 <= w <= WeekCount && WeekMonth(y, w) == m)
    && (forall a, b | 0 <= a < b < |weeks| :: weeks[a] < weeks[b])
  }

  /** `{m: [] for m in mois_labels}`. */
  method NoWeeks() returns (r: map<string, seq<int>>)
    ensures forall m :: m in r <==> m in MonthNames
    ensures forall m | m in r :: r[m] == []
  {
    r := map m | m in MonthNames :: [];
  }

  /**
   * The loop of `caf_automatique` over the 52 weeks: the week labels, the month
   * of each week's Monday, and for each month name the weeks it holds, listed
   * by `WeeksOf` from the ghost sequence `months` of the weeks' months.
   * `init` is the empty list for every month name.
   */
  method WeekTable(y: int, init: map<string, seq<int>>)
    returns (weekLabels: seq<int>, semaineToMois: map<int, string>,
             moisToSemaines: map<string, seq<int>>, ghost months: seq<string>)
    requires MinYear <= y <= MaxYear
    requires forall m | m in init :: init[m] == []
    ensures |weekLabels| == WeekCount && forall k | 0 <= k < WeekCount :: weekLabels[k] == k + 1
    ensures |months| == WeekCount
    ensures forall w :: w in semaineToMois <==> 1 <= w <= WeekCount
    ensures forall w | 1 <= w <= WeekCount :: semaineToMois[w] == months[w - 1]
    ensures IsWeekMonths(y, months)
    ensures moisToSemaines.Keys == init.Keys
    ensures forall m | m in moisToSemaines :: moisToSemaines[m] == WeeksOf(months, m)
  {
    var start := FirstMonday(y);
    ghost var all := AllWeekMonths(y);
    months := [];
    moisToSemaines := init;
    weekLabels := [];
    semaineToMois := map[];
    for i := 1 to WeekCount + 1
      invariant |weekLabels| == i - 1 && forall k | 0 <= k < i - 1 :: weekLabels[k] == k + 1
      invariant |months| == i - 1
      invariant forall w :: w in semaineToMois <==> 1 <= w < i
      invariant forall w | 1 <= w < i :: semaineToMois[w] == months[w - 1]
      invariant months == all[..i - 1]
      invariant moisToSemaines.Keys == init.Keys
      invariant forall m | m in moisToSemaines :: moisToSemaines[m] == WeeksOf(months, m)
    {
      var mois := MondayMonth(y, start, i, all);
      weekLabels := weekLabels + [i];
      semaineToMois := semaineToMois[i := mois];
      var before := moisToSemaines;
      if mois in moisToSemaines {
        moisToSemaines := moisToSemaines[mois := moisToSemaines[mois] + [i]];
      }
      ghost var prev := months;
      months := months + [mois];
      assert months[..i - 1] == prev;
      assert all[..i] == all[..i - 1] + [all[i - 1]];
      forall m | m in moisToSemaines ensures moisToSemaines[m] == WeeksOf(months, m) {
        assert moisToSemaines[m] == before[m] + (if mois == m then [i] else []);
      }
    }
    assert all[..WeekCount] == all;
  }

  /**
   * `caf_automatique` without the database: the month filter.  The filter
   * `"all"`, and any text that is not a month name, shows every week.
   */
  method CafAutomatique(y: int, moisFiltre: string)
    returns (weekLabels: seq<int>, semaineToMois: map<int, string>, shown: seq<int>)
    requires MinYear <= y <= MaxYear
    ensures |weekLabels| == WeekCount && forall k | 0 <= k < WeekCount :: weekLabels[k] == k + 1
    ensures forall w :: w in semaineToMois <==> 1 <= w <= WeekCount
    ensures forall w | 1 <= w <= WeekCount :: semaineToMois[w] == WeekMonth(y, w)
    ensures moisFiltre == "all" || moisFiltre !in MonthNames ==> shown == weekLabels
    ensures moisFiltre != "all" && moisFiltre in MonthNames ==> WeeksOfMonth(y, moisFiltre, shown)
  {
    var moisToSemaines;
    ghost var months;
    var init := NoWeeks();
    weekLabels, semaineToMois, moisToSemaines, months := WeekTable(y, init);
    if moisFiltre != "all" && moisFiltre in moisToSemaines {
      shown := moisToSemaines[moisFiltre];
      WeeksOfMembers(months, moisFiltre);
      WeeksOfSorted(months, moisFiltre);
    } else {
      shown := weekLabels;
    }
  }

  // ---------------------------------------------------------------------------
  // caf_requise: proportional split of a phase's charge over the weeks
  // ---------------------------------------------------------------------------

  /**
   * One row of the projects/phases query.  A date is `None` when it does not
   * parse; `duree` and `pourcentage` are `None` when NULL.
   */
  datatype PhaseRow = PhaseRow(
    debut: Option<int>,
    fin: Option<int>,
    duree: Option<real>,
    pourcentage: Option<real>,
    profilId: int)

  /** Both dates parse; otherwise the row is skipped. */
  predicate Parsed(r: PhaseRow)
  {
    r.debut.Some? && r.fin.Some?
  }

  /**
   * `(duree or 0) * ((pourcentage or 1.0) / 100)`: a missing or zero
   * percentage counts as 1 (that is, one per cent of the estimate).
   */
  function ChargeProjet(r: PhaseRow): (c: real)
    ensures r.duree.None? ==> c == 0.0
    ensures r.duree.Some? && (r.pourcentage.None? || r.pourcentage.value == 0.0) ==>
              c * 100.0 == r.duree.value
    ensures r.duree.Some? && r.pourcentage.Some? && r.pourcentage.value != 0.0 ==>
              c * 100.0 == r.duree.value * r.pourcentage.value
  {
    OrElse(r.duree, 0.0) * (OrElse(r.pourcentage, 1.0) / 100.0)
  }

  /** The phase [debut, fin] meets week `i`. */
  predicate Overlaps(start: int, r: PhaseRow, i: int)
  {
    Parsed(r) && r.debut.value <= WeekEnd(start, i) && r.fin.value >= WeekStart(start, i)
  }

  /** `total_jours`: the phase's length in days, counting both ends. */
  function TotalJours(r: PhaseRow): int
    requires Parsed(r)
  {
    r.fin.value - r.debut.value + 1
  }

  /** `jours`: the days of week `i` the phase covers. */
  function Jours(start: int, r: PhaseRow, i: int): int
    requires Parsed(r)
  {
    Min(r.fin.value, WeekEnd(start, i)) - Max(r.debut.value, WeekStart(start, i)) + 1
  }

  /** The row adds to week `i`: it overlaps the week and has a positive length. */
  predicate Adds(start: int, r: PhaseRow, i: int)
  {
    Overlaps(start, r, i) && TotalJours(r) > 0
  }

  /** The days of week `i` the phase covers, 0 when it does not add to the week. */
  function DaysIn(start: int, r: PhaseRow, i: int): int
  {
    if Adds(start, r, i) then Jours(start, r, i) else 0
  }

  /** A week the row adds to holds between 1 and 7 of its days, and no more than the phase has. */
  lemma DaysInBounds(start: int, r: PhaseRow, i: int)
    ensures Adds(start, r, i) ==> 1 <= DaysIn(start, r, i) <= 7 && DaysIn(start, r, i) <= TotalJours(r)
    ensures !Adds(start, r, i) ==> DaysIn(start, r, i) == 0
  {
  }

  /** `(c * d) / t`: the part of a charge `c` spread over `t` days that falls on `d` of them. */
  function Prorata(c: real, d: int, t: int): real
    requires t > 0
  {
    (c * d as real) / t as real
  }

  /** The part of a charge `c` the row puts in week `i`: `c * jours / total_jours`, or nothing. */
  function Part(c: real, start: int, r: PhaseRow, i: int): real
  {
    if Adds(start, r, i) then Prorata(c, Jours(start, r, i), TotalJours(r)) else 0.0
  }

  /** What the row adds to week `i`: its part of `charge_projet`. */
  function Share(start: int, r: PhaseRow, i: int): real
  {
    Part(ChargeProjet(r), start, r, i)
  }

  lemma MulNonNegative(a: real, b: real)
    requires a >= 0.0 && b >= 0.0
    ensures a * b >= 0.0
  {
  }

  /** None of the days is none of the charge, and all of them are all of it. */
  lemma ProrataEnds(c: real, t: int)
    requires t > 0
    ensures Prorata(c, 0, t) == 0.0
    ensures Prorata(c, t, t) == c
  {
    assert c * 0.0 == 0.0;
  }

  /** The parts of two runs of days add up to the part of the combined run. */
  lemma ProrataAdd(c: real, s: int, d: int, t: int)
    requires t > 0
    ensures Prorata(c, s, t) + Prorata(c, d, t) == Prorata(c, s + d, t)
  {
    assert c * (s + d) as real == c * s as real + c * d as real;
  }

  /** The part of some of the days lies between 0 and the whole charge. */
  lemma ProrataBounds(c: real, d: int, t: int)
    requires 0 <= d <= t && t > 0
    ensures c >= 0.0 ==> 0.0 <= Prorata(c, d, t) <= c
    ensures c <= 0.0 ==> c <= Prorata(c, d, t) <= 0.0
  {
    var x := d as real / t as real;
    assert Prorata(c, d, t) == c * x;
    assert 0.0 <= x <= 1.0;
    if c >= 0.0 {
      MulNonNegative(c, x);
      MulNonNegative(c, 1.0 - x);
      assert c * (1.0 - x) == c - c * x;
    } else {
      MulNonNegative(-c, x);
      MulNonNegative(-c, 1.0 - x);
      assert (-c) * x == -(c * x);
      assert (-c) * (1.0 - x) == c * x - c;
    }
  }

  /** Every part is the prorata of the days the row spends in the week. */
  lemma PartIsProrata(c: real, start: int, r: PhaseRow, i: int)
    requires Parsed(r) && TotalJours(r) > 0
    ensures Part(c, start, r, i) == Prorata(c, DaysIn(start, r, i), TotalJours(r))
  {
    if !Adds(start, r, i) {
      ProrataEnds(c, TotalJours(r));
    }
  }

  /** A week's part of a charge lies between 0 and the whole charge. */
  lemma PartBounds(c: real, start: int, r: PhaseRow, i: int)
    ensures c >= 0.0 ==> 0.0 <= Part(c, start, r, i) <= c
    ensures c <= 0.0 ==> c <= Part(c, start, r, i) <= 0.0
  {
    if Adds(start, r, i) {
      DaysInBounds(start, r, i);
      ProrataBounds(c, Jours(start, r, i), TotalJours(r));
    }
  }

  /** A phase that ends before it starts adds nothing to any week. */
  lemma InvertedPhaseAddsNothing(start: int, r: PhaseRow, i: int)
    requires Parsed(r) && r.fin.value < r.debut.value
    ensures Share(start, r, i) == 0.0 && DaysIn(start, r, i) == 0
  {
  }

  /** A row whose dates do not parse is skipped: it adds nothing to any week. */
  lemma UnparsedRowAddsNothing(start: int, r: PhaseRow, i: int)
    requires !Parsed(r)
    ensures !Overlaps(start, r, i)
    ensures Share(start, r, i) == 0.0 && DaysIn(start, r, i) == 0
  {
  }

  /**
   * For a phase that does not end before it starts, meeting week `i` means
   * sharing at least one day with it; the later of the two Mondays-or-starts
   * is such a day.
   */
  lemma OverlapsIffSharedDay(start: int, r: PhaseRow, i: int)
    requires Parsed(r) && r.debut.value <= r.fin.value
    ensures Overlaps(start, r, i) <==> Jours(start, r, i) >= 1
    ensures Overlaps(start, r, i) ==>
              var d := Max(r.debut.value, WeekStart(start, i));
              WeekStart(start, i) <= d <= WeekEnd(start, i) && r.debut.value <= d <= r.fin.value
  {
  }

  /** The sum of the parts of a charge `c` the row puts in weeks 1..n. */
  function SumParts(c: real, start: int, r: PhaseRow, n: nat): real
  {
    if n == 0 then 0.0 else SumParts(c, start, r, n - 1) + Part(c, start, r, n)
  }

  /** The sum of the days the row spends in weeks 1..n. */
  function SumDays(start: int, r: PhaseRow, n: nat): int
  {
    if n == 0 then 0 else SumDays(start, r, n - 1) + DaysIn(start, r, n)
  }

  /** The number of days [a, b] and [lo, hi] share. */
  function CommonDays(a: int, b: int, lo: int, hi: int): (n: int)
    ensures n >= 0
    ensures a <= b && lo <= a && b <= hi ==> n == b - a + 1
  {
    Max(0, Min(b, hi) - Max(a, lo) + 1)
  }

  /** The days spent in weeks 1..n are the days the phase shares with those n weeks. */
  lemma {:induction false} SumDaysIsCommonDays(start: int, r: PhaseRow, n: nat)
    requires Parsed(r) && r.debut.value <= r.fin.value
    ensures SumDays(start, r, n) == CommonDays(r.debut.value, r.fin.value, start, WeekEnd(start, n))
  {
    if n > 0 {
      SumDaysIsCommonDays(start, r, n - 1);
    }
  }

  /** Summing the parts is taking the prorata of the summed days. */
  lemma {:induction false} SumPartsIsProrata(c: real, start: int, r: PhaseRow, n: nat)
    requires Parsed(r) && TotalJours(r) > 0
    ensures SumParts(c, start, r, n) == Prorata(c, SumDays(start, r, n), TotalJours(r))
  {
    if n > 0 {
      SumPartsIsProrata(c, start, r, n - 1);
      PartIsProrata(c, start, r, n);
      ProrataAdd(c, SumDays(start, r, n - 1), DaysIn(start, r, n), TotalJours(r));
    } else {
      ProrataEnds(c, TotalJours(r));
    }
  }

  /**
   * A phase lying wholly inside weeks 1..n has any charge split over them
   * without loss or excess; with n = 52 this is a phase inside the planned year.
   */
  lemma PartsConserved(c: real, start: int, r: PhaseRow, n: nat)
    requires Parsed(r) && r.debut.value <= r.fin.value
    requires start <= r.debut.value && r.fin.value <= WeekEnd(start, n)
    ensures SumParts(c, start, r, n) == c
  {
    SumDaysIsCommonDays(start, r, n);
    SumPartsIsProrata(c, start, r, n);
    ProrataEnds(c, TotalJours(r));
  }

  /** The row's shares over the weeks add up to exactly its `charge_projet`. */
  lemma ChargeConserved(start: int, r: PhaseRow, n: nat)
    requires Parsed(r) && r.debut.value <= r.fin.value
    requires start <= r.debut.value && r.fin.value <= WeekEnd(start, n)
    ensures SumParts(ChargeProjet(r), start, r, n) == ChargeProjet(r)
  {
    PartsConserved(ChargeProjet(r), start, r, n);
  }

  /** The load of profile `p` in week `w`: the shares of the rows for that profile. */
  function Load(start: int, rows: seq<PhaseRow>, p: int, w: int): real
  {
    if rows == [] then 0.0
    else Load(start, rows[..|rows| - 1], p, w)
         + (if rows[|rows| - 1].profilId == p then Share(start, rows[|rows| - 1], w) else 0.0)
  }

  /** The table of loads has a row per week 1..52 and, in each, an entry per profile. */
  ghost predicate Shaped(cs: map<int, map<int, real>>, profils: seq<int>)
  {
    && (forall w :: w in cs <==> 1 <= w <= WeekCount)
    && (forall w | w in cs :: forall p :: p in cs[w] <==> p in profils)
  }

  /** The initial table: every profile at 0 in every week. */
  method ZeroLoads(profils: seq<int>) returns (cs: map<int, map<int, real>>)
    ensures Shaped(cs, profils)
    ensures forall w, p | w in cs && p in cs[w] :: cs[w][p] == 0.0
  {
    var zero := map p | p in profils :: 0.0;
    cs := map[];
    for i := 1 to WeekCount + 1
      invariant forall w :: w in cs <==> 1 <= w < i
      invariant forall w | w in cs :: cs[w] == zero
    {
      cs := cs[i := zero];
    }
  }

  /** The inner loop of `caf_requise`: one row adds its share to every week it meets. */
  method SpreadRow(start: int, row: PhaseRow, profils: seq<int>, cs: map<int, map<int, real>>)
    returns (cs': map<int, map<int, real>>)
    requires Shaped(cs, profils)
    requires forall i | 1 <= i <= WeekCount && Adds(start, row, i) :: row.profilId in profils
    ensures Shaped(cs', profils)
    ensures forall w, p | w in cs' && p in cs'[w] ::
              cs'[w][p] == cs[w][p] + (if row.profilId == p then Share(start, row, w) else 0.0)
  {
    cs' := cs;
    if !Parsed(row) {
      return;
    }
    var debut, fin := row.debut.value, row.fin.value;
    var chargeProjet := ChargeProjet(row);
    for i := 1 to WeekCount + 1
      invariant Shaped(cs', profils)
      invariant forall w, p | w in cs' && p in cs'[w] ::
                  cs'[w][p] == cs[w][p] + (if w < i && row.profilId == p then Share(start, row, w) else 0.0)
    {
      var debutSemaine := start + 7 * (i - 1);
      var finSemaine := debutSemaine + 6;
      if debut <= finSemaine && fin >= debutSemaine {
        var jours := Min(fin, finSemaine) - Max(debut, debutSemaine) + 1;
        var totalJours := fin - debut + 1;
        if totalJours > 0 {
          assert Adds(start, row, i);
          var part := Prorata(chargeProjet, jours, totalJours);
          var pid := row.profilId;
          cs' := cs'[i := cs'[i][pid := cs'[i][pid] + part]];
        }
      }
    }
  }

  /**
   * `caf_requise` without the database: the load of every profile in every
   * week.  A row adding to a week for a profile that is not listed would be a
   * `KeyError` in the source, so the profiles of such rows must be listed.
   */
  method CafRequise(y: int, profils: seq<int>, rows: seq<PhaseRow>)
    returns (chargeSemaine: map<int, map<int, real>>)
    requires MinYear <= y <= MaxYear
    requires forall r, i | r in rows && 1 <= i <= WeekCount && Adds(FirstMondayOf(y), r, i) ::
               r.profilId in profils
    ensures Shaped(chargeSemaine, profils)
    ensures forall w, p | w in chargeSemaine && p in chargeSemaine[w] ::
              chargeSemaine[w][p] == Load(FirstMondayOf(y), rows, p, w)
  {
    var start := FirstMonday(y);
    chargeSemaine := ZeroLoads(profils);
    for k := 0 to |rows|
      invariant Shaped(chargeSemaine, profils)
      invariant forall w, p | w in chargeSemaine && p in chargeSemaine[w] ::
                  chargeSemaine[w][p] == Load(start, rows[..k], p, w)
    {
      assert rows[..k + 1][..k] == rows[..k] && rows[..k + 1][k] == rows[k];
      chargeSemaine := SpreadRow(start, rows[k], profils, chargeSemaine);
    }
    assert rows[..|rows|] == rows;
  }
}
