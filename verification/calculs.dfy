/**
 * Week keys and the per-phase split of a project's charge (utils/calculs.py).
 *
 * The module defines `get_semaine_key` twice; the second definition replaces
 * the first when the module is loaded, so only that one is modelled: it has no
 * error handling, and the date it is given must be a valid calendar date.
 */
module Calculs {
  import opened Common
  import opened Text
  import opened Calendar

  /** The week of the month a day belongs to: days 1-7 are week 1, 8-14 week 2, and so on. */
  function WeekOfMonth(day: int): (w: int)
    requires 1 <= day <= 31
    ensures 1 <= w <= 5
    ensures 7 * (w - 1) + 1 <= day <= 7 * w
  {
    (day - 1) / 7 + 1
  }

  /** `get_semaine_key`: the English month name, `"_S"`, and the week of the month. */
  function WeekKey(d: Date): (k: string)
    requires ValidDate(d)
    ensures |k| >= 4 && k != []
  {
    MonthNames[d.month - 1] + "_S" + PyStr(WeekOfMonth(d.day))
  }

  /** Reads a week key back into its month (1-12) and week of the month. */
  function ParseWeekKey(k: string): (r: Option<(int, int)>)
    ensures r.Some? ==> 1 <= r.value.0 <= 12 && 1 <= r.value.1 <= 9
  {
    if |k| < 4 then None
    else
      var m := MonthIndex(k[..|k| - 3]);
      var tail := k[|k| - 3..];
      if m > 0 && tail[0] == '_' && tail[1] == 'S' && '1' <= tail[2] <= '9'
      then Some((m, DigitValue(tail[2])))
      else None
  }

  /** A week key records exactly the month and the week of the month of its date. */
  lemma WeekKeyRoundTrip(d: Date)
    requires ValidDate(d)
    ensures ParseWeekKey(WeekKey(d)) == Some((d.month, WeekOfMonth(d.day)))
  {
    var k := WeekKey(d);
    var w := WeekOfMonth(d.day);
    assert PyStr(w) == [DigitChar(w)];
    assert k[..|k| - 3] == MonthNames[d.month - 1];
    MonthIndexOfName(d.month);
  }

  /** Two dates share a week key exactly when they share the month and the week of the month. */
  lemma WeekKeySameIff(d1: Date, d2: Date)
    requires ValidDate(d1) && ValidDate(d2)
    ensures WeekKey(d1) == WeekKey(d2) <==>
              d1.month == d2.month && WeekOfMonth(d1.day) == WeekOfMonth(d2.day)
  {
    WeekKeyRoundTrip(d1);
    WeekKeyRoundTrip(d2);
  }

  // ---------------------------------------------------------------------------
  // repartition_charge_par_phase
  // ---------------------------------------------------------------------------

  /** The fields of a project row the split reads. */
  datatype Projet = Projet(
    dureeEstimeeJh: Option<real>,
    programmeNom: string,
    profilNom: string,
    dateDebut: Date)

  /** One row of phase percentages for a programme and a profile. */
  datatype PhaseInfo = PhaseInfo(programmeNom: string, profilNom: string, pourcentage: real)

  /** `projet['duree_estimee_jh'] or 0`: a missing estimate counts as zero days. */
  function TotalJh(p: Projet): (t: real)
    ensures p.dureeEstimeeJh.None? ==> t == 0.0
    ensures p.dureeEstimeeJh.Some? ==> t == p.dureeEstimeeJh.value
  {
    match p.dureeEstimeeJh
    case None => 0.0
    case Some(x) => x
  }

  predicate Matches(p: Projet, ph: PhaseInfo)
  {
    ph.programmeNom == p.programmeNom && ph.profilNom == p.profilNom
  }

  predicate AnyMatch(p: Projet, phases: seq<PhaseInfo>)
  {
    exists i | 0 <= i < |phases| :: Matches(p, phases[i])
  }

  /** The sum of the percentages of the entries that match the project. */
  function SumPct(p: Projet, phases: seq<PhaseInfo>): real
  {
    if phases == [] then 0.0
    else SumPct(p, phases[..|phases| - 1])
         + (if Matches(p, phases[|phases| - 1]) then phases[|phases| - 1].pourcentage else 0.0)
  }

  /** The charge the matching entries add one by one: `total_jh * pourcentage` each. */
  function SumCharge(p: Projet, phases: seq<PhaseInfo>): real
  {
    if phases == [] then 0.0
    else SumCharge(p, phases[..|phases| - 1])
         + (if Matches(p, phases[|phases| - 1]) then TotalJh(p) * phases[|phases| - 1].pourcentage else 0.0)
  }

  /** Adding the entries' charges one by one is `total_jh` times the sum of their percentages. */
  lemma {:induction false} SumChargeFactors(p: Projet, phases: seq<PhaseInfo>)
    ensures SumCharge(p, phases) == TotalJh(p) * SumPct(p, phases)
  {
    if phases != [] {
      var init := phases[..|phases| - 1];
      SumChargeFactors(p, init);
      var t, s0 := TotalJh(p), SumPct(p, init);
      var x := if Matches(p, phases[|phases| - 1]) then phases[|phases| - 1].pourcentage else 0.0;
      assert t * s0 + t * x == t * (s0 + x);
    }
  }

  /**
   * `repartition_charge_par_phase`: every matching entry adds
   * `total_jh * pourcentage` under the week key of the project's start date.
   * The date is parsed only once an entry matches, so only then must it be valid.
   */
  method RepartitionChargeParPhase(p: Projet, phases: seq<PhaseInfo>) returns (charges: map<string, real>)
    requires AnyMatch(p, phases) ==> ValidDate(p.dateDebut)
    ensures !AnyMatch(p, phases) ==> charges == map[]
    ensures AnyMatch(p, phases) ==>
              charges == map[WeekKey(p.dateDebut) := TotalJh(p) * SumPct(p, phases)]
  {
    var totalJh := TotalJh(p);
    charges := map[];
    for i := 0 to |phases|
      invariant !AnyMatch(p, phases[..i]) ==> charges == map[]
      invariant AnyMatch(p, phases[..i]) ==>
                  && ValidDate(p.dateDebut)
                  && charges.Keys == {WeekKey(p.dateDebut)}
                  && charges[WeekKey(p.dateDebut)] == SumCharge(p, phases[..i])
    {
      PrefixStep(p, phases, i);
      if Matches(p, phases[i]) {
        if !AnyMatch(p, phases[..i]) {
          SumChargeFactors(p, phases[..i]);
          SumPctWithoutMatch(p, phases[..i]);
        }
        var key := WeekKey(p.dateDebut);
        var before := if key in charges then charges[key] else 0.0;
        charges := charges[key := before + totalJh * phases[i].pourcentage];
      }
    }
    assert phases[..|phases|] == phases;
    SumChargeFactors(p, phases);
  }

  /** One more entry: it matches or not, and adds its charge only if it does. */
  lemma PrefixStep(p: Projet, phases: seq<PhaseInfo>, i: int)
    requires 0 <= i < |phases|
    ensures AnyMatch(p, phases[..i + 1]) <==> AnyMatch(p, phases[..i]) || Matches(p, phases[i])
    ensures SumCharge(p, phases[..i + 1]) == SumCharge(p, phases[..i])
              + (if Matches(p, phases[i]) then TotalJh(p) * phases[i].pourcentage else 0.0)
  {
    var pre, pre' := phases[..i], phases[..i + 1];
    assert pre'[..i] == pre && pre'[i] == phases[i];
    if AnyMatch(p, pre') {
      var j :| 0 <= j < i + 1 && Matches(p, pre'[j]);
      if j < i {
        assert pre'[j] == pre[j];
      }
    }
    if AnyMatch(p, pre) {
      var j :| 0 <= j < i && Matches(p, pre[j]);
      assert pre'[j] == pre[j];
    }
  }

  /** With no matching entry the percentages sum to zero. */
  lemma {:induction false} SumPctWithoutMatch(p: Projet, phases: seq<PhaseInfo>)
    requires !AnyMatch(p, phases)
    ensures SumPct(p, phases) == 0.0
  {
    if phases != [] {
      var init := phases[..|phases| - 1];
      assert !AnyMatch(p, init) by {
        forall j | 0 <= j < |init| ensures !Matches(p, init[j]) {
          assert init[j] == phases[j];
        }
      }
      SumPctWithoutMatch(p, init);
    }
  }

  /** Only entries for the project's own programme and profile contribute. */
  lemma {:induction false} SumPctIgnoresOthers(p: Projet, phases: seq<PhaseInfo>, ph: PhaseInfo)
    requires !Matches(p, ph)
    ensures SumPct(p, phases + [ph]) == SumPct(p, phases)
    ensures AnyMatch(p, phases + [ph]) == AnyMatch(p, phases)
  {
    assert (phases + [ph])[..|phases|] == phases;
    if AnyMatch(p, phases + [ph]) {
      var j :| 0 <= j < |phases| + 1 && Matches(p, (phases + [ph])[j]);
      assert j < |phases| && (phases + [ph])[j] == phases[j];
    }
    if AnyMatch(p, phases) {
      var j :| 0 <= j < |phases| && Matches(p, phases[j]);
      assert (phases + [ph])[j] == phases[j];
    }
  }
}
