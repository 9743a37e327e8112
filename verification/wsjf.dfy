/**
 * The WSJF scoring engine (services/wsjf_calculator.py): questionnaire answers
 * are looked up in a fixed points table, twelve value fields make the
 * numerator, ten cost fields the denominator, and the score is twice their
 * ratio, with a complexity class and a person-day estimate derived from the
 * denominator.
 */
module Wsjf {
  import opened Common
  import opened Text

  /** The submitted form: field name to answer code, as `request.form.to_dict()` gives it. */
  type Form = map<string, string>

  /**
   * Points per answer code for one field: the entries of a dict literal, in
   * the order they are written.
   */
  type PointTable = seq<(string, int)>

  // ---------------------------------------------------------------------------
  // POINTS_CONFIG
  // ---------------------------------------------------------------------------

  /** The fields that have a table in `POINTS_CONFIG`: thirteen value fields and nine cost fields. */
  datatype TableField =
    | AlignementStrategic | ImpactPnb | ImpactSatisfaction | ConquerirClient
    | MaitriseCouts | AttenuationMenaces | CreationOpportunites | ConditionsTechniques
    | DeadlineReglementaire | PressionConcurrence | EcheancesStrategiques
    | DependancesProjets | UrgenceObsolescence
    | Q1 | Q3 | Q4 | Q5 | Q6 | Q7 | Q8 | Q9 | Q10

  /** The key of the field in the form and in `POINTS_CONFIG`. */
  function Name(f: TableField): string
  {
    match f
    case AlignementStrategic => "alignement_strategic"
    case ImpactPnb => "impact_pnb"
    case ImpactSatisfaction => "impact_satisfaction"
    case ConquerirClient => "conquerir_client"
    case MaitriseCouts => "maitrise_couts"
    case AttenuationMenaces => "attenuation_menaces"
    case CreationOpportunites => "creation_opportunites"
    case ConditionsTechniques => "conditions_techniques"
    case DeadlineReglementaire => "deadline_reglementaire"
    case PressionConcurrence => "pression_concurrence"
    case EcheancesStrategiques => "echeances_strategiques"
    case DependancesProjets => "dependances_projets"
    case UrgenceObsolescence => "urgence_obsolescence"
    case Q1 => "q1"
    case Q3 => "q3"
    case Q4 => "q4"
    case Q5 => "q5"
    case Q6 => "q6"
    case Q7 => "q7"
    case Q8 => "q8"
    case Q9 => "q9"
    case Q10 => "q10"
  }

  /** `POINTS_CONFIG[Name(f)]`, as the list of its entries. */
  function PointsConfig(f: TableField): PointTable
  {
    match f
    case AlignementStrategic => [("fortement_aligne", 55), ("aligne", 21), ("partiellement_aligne", 8), ("non_aligne", 2)]
    case ImpactPnb => [("gt_5m", 55), ("between_1m_5m", 21), ("between_500k_1m", 8), ("lt_500k", 2)]
    case ImpactSatisfaction => [("impact_tres_eleve", 55), ("impact_eleve", 21), ("impact_modere", 8), ("impact_limite", 2)]
    case ConquerirClient => [("gt_10p", 55), ("between_5_10p", 21), ("proche_0", 8), ("negatif", 2)]
    case MaitriseCouts => [("gt_5m", 55), ("between_1m_5m", 21), ("between_500k_1m", 8), ("lt_500k", 2)]
    case AttenuationMenaces => [("tres_eleve", 55), ("elevee", 21), ("acceptable", 8), ("limitee", 2)]
    case CreationOpportunites => [("exceptionnelle", 55), ("pertinentes", 21), ("modestes", 8), ("impact_limite", 2)]
    case ConditionsTechniques => [("diversifiee_robustes", 55), ("pertinentes", 21), ("modestes", 8), ("impact_limite", 2)]
    case DeadlineReglementaire => [("criticite_extreme_imm", 55), ("criticite_elevee_rapp", 21), ("criticite_moderee_ger", 8), ("criticite_faible_ger", 2)]
    case PressionConcurrence => [("criticite_extreme", 55), ("criticite_elevee", 21), ("modecriticite_moderee", 8), ("criticite_faible", 2)]
    case EcheancesStrategiques => [("criticite_extreme", 55), ("criticite_elevee", 21), ("criticite_moderee", 8), ("criticite_faible", 2)]
    case DependancesProjets => [("essentielle", 55), ("significative", 21), ("moderee", 8), ("aucune", 2)]
    case UrgenceObsolescence => [("immediate", 55), ("court_terme", 21), ("moyen_terme", 8), ("long_terme", 2)]
    case Q1 => [("petit", 2), ("moyen", 8), ("large", 21), ("tres_large", 55)]
    case Q3 => [("0", 0), ("1", 3), ("2", 5), ("3", 5), ("4-5", 21)]
    case Q4 => [("1", 1), ("2_3", 2), ("4", 4), ("5", 5), ("6", 6), ("7", 7), ("8", 8), ("9", 9), ("plus_9", 10)]
    case Q5 => [("non", 0), ("tres_faible", 1), ("faible", 2), ("moyen", 3), ("fort", 4)]
    case Q6 => [("1_5", 1), ("6_10", 2), ("11_20", 3), ("21_50", 4), ("51_100", 5), ("101_200", 6), ("201_500", 7), ("501_1000", 8), ("plus_1000", 9)]
    case Q7 => [("inexistant", 0), ("faible", 2), ("moyenne", 8), ("elevee", 21), ("tres_elevee", 55)]
    case Q8 => [("inexistant", 0), ("faible", 2), ("moyenne", 8), ("elevee", 21), ("tres_elevee", 55)]
    case Q9 => [("tres_faible", 0), ("faible", 2), ("moyen", 8), ("eleve", 21), ("tres_eleve", 55)]
    case Q10 => [("evolution_systeme", 2), ("integration_partenaire", 13), ("creation_nouveau", 21)]
  }

  /** The highest entry of each field's table, written out independently of the table. */
  function FieldCap(f: TableField): int
  {
    match f
    case Q3 => 21
    case Q4 => 10
    case Q5 => 4
    case Q6 => 9
    case Q10 => 21
    case _ => 55
  }

  /** The twelve numerator fields; `DependancesProjets` has a table but is not among them. */
  const NumeratorFields: seq<TableField> := [
    AlignementStrategic, ImpactPnb, ImpactSatisfaction,
    ConquerirClient, MaitriseCouts, AttenuationMenaces,
    CreationOpportunites, ConditionsTechniques, DeadlineReglementaire,
    PressionConcurrence, EcheancesStrategiques, UrgenceObsolescence
  ]

  /** A denominator field: "q2" is read as a number, every other one is looked up. */
  datatype CostField = ParsedQ2 | Looked(f: TableField)

  /** The ten denominator fields, in the order they are summed. */
  const DenominatorFields: seq<CostField> := [
    Looked(Q1), ParsedQ2, Looked(Q3), Looked(Q4), Looked(Q5),
    Looked(Q6), Looked(Q7), Looked(Q8), Looked(Q9), Looked(Q10)
  ]

  /** The nine table-driven denominator fields, that is, all of them but "q2". */
  const CostTableFields: seq<TableField> := [Q1, Q3, Q4, Q5, Q6, Q7, Q8, Q9, Q10]

  // Names are compared a group at a time, which keeps each proof small.

  lemma NamesDistinctFromValueField(f: TableField, g: TableField)
    requires g !in {Q1, Q3, Q4, Q5, Q6, Q7, Q8, Q9, Q10}
    ensures Name(f) == Name(g) <==> f == g
  {
  }

  lemma NamesDistinctFromCostField(f: TableField, g: TableField)
    requires g in {Q1, Q3, Q4, Q5, Q6, Q7, Q8, Q9, Q10}
    ensures Name(f) == Name(g) <==> f == g
  {
  }

  lemma NameNotQ2(f: TableField)
    ensures Name(f) != "q2"
  {
  }

  /** No two fields share a name, so each reads its own form entry. */
  lemma NamesDistinct(f: TableField, g: TableField)
    ensures Name(f) == Name(g) <==> f == g
    ensures Name(f) != "q2"
  {
    if g in {Q1, Q3, Q4, Q5, Q6, Q7, Q8, Q9, Q10} {
      NamesDistinctFromCostField(f, g);
    } else {
      NamesDistinctFromValueField(f, g);
    }
    NameNotQ2(f);
  }

  // The keys are checked four at a time, which keeps each proof small.

  lemma NumeratorKeysFirst()
    ensures Name(NumeratorFields[0]) == "alignement_strategic"
    ensures Name(NumeratorFields[1]) == "impact_pnb"
    ensures Name(NumeratorFields[2]) == "impact_satisfaction"
    ensures Name(NumeratorFields[3]) == "conquerir_client"
  {
  }

  lemma NumeratorKeysMiddle()
    ensures Name(NumeratorFields[4]) == "maitrise_couts"
    ensures Name(NumeratorFields[5]) == "attenuation_menaces"
    ensures Name(NumeratorFields[6]) == "creation_opportunites"
    ensures Name(NumeratorFields[7]) == "conditions_techniques"
  {
  }

  lemma NumeratorKeysLast()
    ensures Name(NumeratorFields[8]) == "deadline_reglementaire"
    ensures Name(NumeratorFields[9]) == "pression_concurrence"
    ensures Name(NumeratorFields[10]) == "echeances_strategiques"
    ensures Name(NumeratorFields[11]) == "urgence_obsolescence"
  {
  }

  /** The numerator reads the keys of `numerateur_fields`, in the order listed. */
  lemma NumeratorFieldKeys()
    ensures |NumeratorFields| == 12
    ensures Name(NumeratorFields[0]) == "alignement_strategic"
    ensures Name(NumeratorFields[1]) == "impact_pnb"
    ensures Name(NumeratorFields[2]) == "impact_satisfaction"
    ensures Name(NumeratorFields[3]) == "conquerir_client"
    ensures Name(NumeratorFields[4]) == "maitrise_couts"
    ensures Name(NumeratorFields[5]) == "attenuation_menaces"
    ensures Name(NumeratorFields[6]) == "creation_opportunites"
    ensures Name(NumeratorFields[7]) == "conditions_techniques"
    ensures Name(NumeratorFields[8]) == "deadline_reglementaire"
    ensures Name(NumeratorFields[9]) == "pression_concurrence"
    ensures Name(NumeratorFields[10]) == "echeances_strategiques"
    ensures Name(NumeratorFields[11]) == "urgence_obsolescence"
  {
    NumeratorKeysFirst();
    NumeratorKeysMiddle();
    NumeratorKeysLast();
  }

  lemma ExcludedFromNumerator(f: TableField)
    requires f == DependancesProjets || f in CostTableFields
    ensures f !in NumeratorFields
  {
  }

  lemma ListedInNumerator(f: TableField)
    requires f != DependancesProjets && f !in CostTableFields
    ensures f in NumeratorFields
  {
  }

  /**
   * The numerator fields are every field with a table except
   * `DependancesProjets` and the cost questions.
   */
  lemma NumeratorFieldsExactly(f: TableField)
    ensures f in NumeratorFields <==> f != DependancesProjets && f !in CostTableFields
  {
    if f == DependancesProjets || f in CostTableFields {
      ExcludedFromNumerator(f);
    } else {
      ListedInNumerator(f);
    }
  }

  /** The form key a denominator field reads. */
  function CostName(c: CostField): string
  {
    match c
    case ParsedQ2 => "q2"
    case Looked(f) => Name(f)
  }

  /**
   * The denominator reads the keys of `denominateur_fields`, in the order
   * listed, and only "q2" is parsed rather than looked up.
   */
  lemma DenominatorFieldKeys()
    ensures |DenominatorFields| == 10
    ensures forall k | 0 <= k < 10 :: DenominatorFields[k].ParsedQ2? <==> k == 1
    ensures CostName(DenominatorFields[0]) == "q1"
    ensures CostName(DenominatorFields[1]) == "q2"
    ensures CostName(DenominatorFields[2]) == "q3"
    ensures CostName(DenominatorFields[3]) == "q4"
    ensures CostName(DenominatorFields[4]) == "q5"
    ensures CostName(DenominatorFields[5]) == "q6"
    ensures CostName(DenominatorFields[6]) == "q7"
    ensures CostName(DenominatorFields[7]) == "q8"
    ensures CostName(DenominatorFields[8]) == "q9"
    ensures CostName(DenominatorFields[9]) == "q10"
  {
  }

  // The tables are checked a group at a time as well.

  lemma ValueTableScoresWithinCaps(f: TableField)
    requires f !in {Q1, Q3, Q4, Q5, Q6, Q7, Q8, Q9, Q10}
    ensures forall i | 0 <= i < |PointsConfig(f)| :: 0 <= PointsConfig(f)[i].1 <= FieldCap(f)
  {
  }

  lemma CostTableScoresWithinCaps(f: TableField)
    requires f in {Q1, Q3, Q4, Q5, Q6, Q7, Q8, Q9, Q10}
    ensures forall i | 0 <= i < |PointsConfig(f)| :: 0 <= PointsConfig(f)[i].1 <= FieldCap(f)
  {
    if f in {Q1, Q3, Q4, Q5} {
      SmallCostTableScores(f);
    } else {
      LargeCostTableScores(f);
    }
  }

  lemma SmallCostTableScores(f: TableField)
    requires f in {Q1, Q3, Q4, Q5}
    ensures forall i | 0 <= i < |PointsConfig(f)| :: 0 <= PointsConfig(f)[i].1 <= FieldCap(f)
  {
  }

  lemma LargeCostTableScores(f: TableField)
    requires f in {Q6, Q7, Q8, Q9, Q10}
    ensures forall i | 0 <= i < |PointsConfig(f)| :: 0 <= PointsConfig(f)[i].1 <= FieldCap(f)
  {
  }

  lemma TableScoresWithinCaps(f: TableField)
    ensures forall i | 0 <= i < |PointsConfig(f)| :: 0 <= PointsConfig(f)[i].1 <= FieldCap(f)
  {
    if f in {Q1, Q3, Q4, Q5, Q6, Q7, Q8, Q9, Q10} {
      CostTableScoresWithinCaps(f);
    } else {
      ValueTableScoresWithinCaps(f);
    }
  }

  lemma ValueTableKeysNonEmpty(f: TableField)
    requires f !in {Q1, Q3, Q4, Q5, Q6, Q7, Q8, Q9, Q10}
    ensures forall i | 0 <= i < |PointsConfig(f)| :: |PointsConfig(f)[i].0| > 0
  {
  }

  lemma CostTableKeysNonEmpty(f: TableField)
    requires f in {Q1, Q3, Q4, Q5, Q6, Q7, Q8, Q9, Q10}
    ensures forall i | 0 <= i < |PointsConfig(f)| :: |PointsConfig(f)[i].0| > 0
  {
  }

  lemma TableKeysNonEmpty(f: TableField)
    ensures forall i | 0 <= i < |PointsConfig(f)| :: |PointsConfig(f)[i].0| > 0
  {
    if f in {Q1, Q3, Q4, Q5, Q6, Q7, Q8, Q9, Q10} {
      CostTableKeysNonEmpty(f);
    } else {
      ValueTableKeysNonEmpty(f);
    }
  }

  /** No key occurs twice in the table. */
  predicate DistinctKeys(t: PointTable)
  {
    forall i, j | 0 <= i < j < |t| :: t[i].0 != t[j].0
  }

  lemma ValueTableKeysDistinct(f: TableField)
    requires f !in {Q1, Q3, Q4, Q5, Q6, Q7, Q8, Q9, Q10}
    ensures DistinctKeys(PointsConfig(f))
  {
  }

  lemma SmallCostTableKeysDistinct(f: TableField)
    requires f in {Q1, Q3, Q5, Q7, Q8, Q9, Q10}
    ensures DistinctKeys(PointsConfig(f))
  {
  }

  lemma Q4KeysDistinct()
    ensures DistinctKeys(PointsConfig(Q4))
  {
  }

  lemma Q6KeysDistinct()
    ensures DistinctKeys(PointsConfig(Q6))
  {
  }

  /** No table of `POINTS_CONFIG` repeats a key, so the list of entries is a faithful dict. */
  lemma TableKeysDistinct(f: TableField)
    ensures DistinctKeys(PointsConfig(f))
  {
    if f == Q4 {
      Q4KeysDistinct();
    } else if f == Q6 {
      Q6KeysDistinct();
    } else if f in {Q1, Q3, Q5, Q7, Q8, Q9, Q10} {
      SmallCostTableKeysDistinct(f);
    } else {
      ValueTableKeysDistinct(f);
    }
  }

  /** Every entry of every table lies between 0 and the field's cap, and "" is never a key. */
  lemma TableWithinCaps(f: TableField)
    ensures forall i | 0 <= i < |PointsConfig(f)| :: 0 <= PointsConfig(f)[i].1 <= FieldCap(f)
    ensures forall i | 0 <= i < |PointsConfig(f)| :: PointsConfig(f)[i].0 != ""
  {
    TableScoresWithinCaps(f);
    TableKeysNonEmpty(f);
  }

  // ---------------------------------------------------------------------------
  // Lookups
  // ---------------------------------------------------------------------------

  /** `a` is a key of the table. */
  predicate HasKey(t: PointTable, a: string)
  {
    exists i | 0 <= i < |t| :: t[i].0 == a
  }

  /** `t.get(a)`: the points of the first entry whose key is `a`. */
  function Lookup(t: PointTable, a: string): (r: Option<int>)
    ensures r.None? <==> !HasKey(t, a)
    ensures r.Some? ==> (a, r.value) in t
  {
    if t == [] then None
    else if t[0].0 == a then Some(t[0].1)
    else
      var r := Lookup(t[1..], a);
      assert HasKey(t, a) ==> HasKey(t[1..], a) by {
        if HasKey(t, a) {
          var i :| 0 <= i < |t| && t[i].0 == a;
          assert t[1..][i - 1] == t[i];
        }
      }
      assert HasKey(t[1..], a) ==> HasKey(t, a) by {
        if HasKey(t[1..], a) {
          var i :| 0 <= i < |t[1..]| && t[1..][i].0 == a;
          assert t[i + 1] == t[1..][i];
        }
      }
      r
  }

  /** In a table without repeated keys, an entry's key looks up exactly that entry's points. */
  lemma LookupOfEntry(t: PointTable, a: string, v: int)
    requires DistinctKeys(t) && (a, v) in t
    ensures Lookup(t, a) == Some(v)
  {
    var i :| 0 <= i < |t| && t[i] == (a, v);
    assert HasKey(t, a);
    var r := Lookup(t, a).value;
    var j :| 0 <= j < |t| && t[j] == (a, r);
    assert i == j;
  }

  /** `POINTS_CONFIG[field].get(form_data.get(field, ''), 0)`. */
  function Points(f: TableField, form: Form): int
  {
    var answer := if Name(f) in form then form[Name(f)] else "";
    match Lookup(PointsConfig(f), answer)
    case Some(p) => p
    case None => 0
  }

  /** A missing answer, or one that is not a key of the field's table, scores exactly 0. */
  lemma UnknownAnswerScoresZero(f: TableField, form: Form)
    requires Name(f) !in form || !HasKey(PointsConfig(f), form[Name(f)])
    ensures Points(f, form) == 0
  {
    TableWithinCaps(f);
    assert !HasKey(PointsConfig(f), "");
  }

  /** A field scores between 0 and its cap, and a known answer scores an entry of the table for it. */
  lemma PointsBounds(f: TableField, form: Form)
    ensures 0 <= Points(f, form) <= FieldCap(f)
    ensures Name(f) in form && HasKey(PointsConfig(f), form[Name(f)]) ==>
              (form[Name(f)], Points(f, form)) in PointsConfig(f)
  {
    TableWithinCaps(f);
    var answer := if Name(f) in form then form[Name(f)] else "";
    var r := Lookup(PointsConfig(f), answer);
    if r.Some? {
      var i :| 0 <= i < |PointsConfig(f)| && PointsConfig(f)[i] == (answer, r.value);
    }
  }

  /** An answer listed in the field's table scores exactly the points listed with it. */
  lemma PointsOfEntry(f: TableField, form: Form, v: int)
    requires Name(f) in form && (form[Name(f)], v) in PointsConfig(f)
    ensures Points(f, form) == v
  {
    TableKeysDistinct(f);
    LookupOfEntry(PointsConfig(f), form[Name(f)], v);
  }

  /** The points of `fields`, summed in order. */
  function SumPoints(fields: seq<TableField>, form: Form): int
  {
    if fields == [] then 0 else Points(fields[0], form) + SumPoints(fields[1..], form)
  }

  function SumCaps(fields: seq<TableField>): int
  {
    if fields == [] then 0 else FieldCap(fields[0]) + SumCaps(fields[1..])
  }

  /** A sum of table-driven fields lies between 0 and the sum of their caps. */
  lemma {:induction false} SumPointsBounds(fields: seq<TableField>, form: Form)
    ensures 0 <= SumPoints(fields, form) <= SumCaps(fields)
  {
    if fields != [] {
      PointsBounds(fields[0], form);
      SumPointsBounds(fields[1..], form);
    }
  }

  /** Forms that agree on the named fields. */
  predicate AgreeOn(fields: seq<TableField>, form: Form, form': Form)
  {
    forall k | 0 <= k < |fields| ::
      (Name(fields[k]) in form <==> Name(fields[k]) in form')
      && (Name(fields[k]) in form ==> form[Name(fields[k])] == form'[Name(fields[k])])
  }

  /** A sum of fields reads only those fields of the form. */
  lemma {:induction false} SumPointsFrame(fields: seq<TableField>, form: Form, form': Form)
    requires AgreeOn(fields, form, form')
    ensures SumPoints(fields, form) == SumPoints(fields, form')
  {
    if fields != [] {
      assert AgreeOn(fields[1..], form, form') by {
        forall k | 0 <= k < |fields[1..]| ensures fields[1..][k] == fields[k + 1] { }
      }
      SumPointsFrame(fields[1..], form, form');
    }
  }

  // ---------------------------------------------------------------------------
  // Numerator and denominator
  // ---------------------------------------------------------------------------

  /** The business-value sum over the twelve numerator fields. */
  function Numerator(form: Form): int
  {
    SumPoints(NumeratorFields, form)
  }

  /** `int(form_data.get('q2', '0'))`, with a `ValueError` counting 0. */
  function Q2Points(form: Form): (q: int)
    ensures "q2" !in form ==> q == 0
    ensures "q2" in form && PyInt(form["q2"]).None? ==> q == 0
    ensures "q2" in form && PyInt(form["q2"]).Some? ==> q == PyInt(form["q2"]).value
  {
    var text := if "q2" in form then form["q2"] else "0";
    assert PyInt("0") == Some(0) by { PyIntOfPyStr(0); }
    match PyInt(text)
    case Some(n) => n
    case None => 0
  }

  /** The denominator loop: "q2" is parsed as an integer, the other fields are looked up. */
  function SumCost(fields: seq<CostField>, form: Form): int
  {
    if fields == [] then 0
    else
      (match fields[0]
       case ParsedQ2 => Q2Points(form)
       case Looked(f) => Points(f, form))
      + SumCost(fields[1..], form)
  }

  /** The implementation-cost sum over the ten denominator fields. */
  function Denominator(form: Form): int
  {
    SumCost(DenominatorFields, form)
  }

  /** The table-driven part of the denominator. */
  function TableCost(form: Form): int
  {
    SumPoints(CostTableFields, form)
  }

  // ---------------------------------------------------------------------------
  // Properties of the sums
  // ---------------------------------------------------------------------------

  /** The numerator is the sum of the twelve listed fields, each between 0 and 55, so at most 660. */
  lemma NumeratorBounds(form: Form)
    ensures 0 <= Numerator(form) <= 660
  {
    SumPointsBounds(NumeratorFields, form);
    assert SumCaps(NumeratorFields) == 660;
  }

  /** The numerator never reads "dependances_projets", although that field has a table. */
  lemma DependancesNeverCounts(form: Form, answer: string)
    ensures Numerator(form[Name(DependancesProjets) := answer]) == Numerator(form)
  {
    var form' := form[Name(DependancesProjets) := answer];
    forall k | 0 <= k < |NumeratorFields|
      ensures (Name(NumeratorFields[k]) in form <==> Name(NumeratorFields[k]) in form')
              && (Name(NumeratorFields[k]) in form ==> form[Name(NumeratorFields[k])] == form'[Name(NumeratorFields[k])])
    {
      NamesDistinct(NumeratorFields[k], DependancesProjets);
    }
    SumPointsFrame(NumeratorFields, form, form');
  }

  /** The numerator depends only on the twelve numerator fields of the form. */
  lemma NumeratorReadsOnlyItsFields(form: Form, form': Form)
    requires AgreeOn(NumeratorFields, form, form')
    ensures Numerator(form) == Numerator(form')
  {
    SumPointsFrame(NumeratorFields, form, form');
  }

  /** The looked-up fields of a denominator list, in order. */
  function LookedFields(fields: seq<CostField>): seq<TableField>
  {
    if fields == [] then []
    else if fields[0].Looked? then [fields[0].f] + LookedFields(fields[1..])
    else LookedFields(fields[1..])
  }

  /** The "q2" terms of a denominator list: `Q2Points` once per occurrence. */
  function Q2Part(fields: seq<CostField>, form: Form): int
  {
    if fields == [] then 0
    else (if fields[0].ParsedQ2? then Q2Points(form) else 0) + Q2Part(fields[1..], form)
  }

  /** The denominator loop is the table points of its looked-up fields plus its "q2" terms. */
  lemma {:induction false} SumCostSplits(fields: seq<CostField>, form: Form)
    ensures SumCost(fields, form) == SumPoints(LookedFields(fields), form) + Q2Part(fields, form)
  {
    if fields != [] {
      var tail := fields[1..];
      SumCostSplits(tail, form);
      match fields[0]
      case Looked(f) =>
        var rest := LookedFields(tail);
        assert ([f] + rest)[1..] == rest;
      case ParsedQ2 =>
    }
  }

  /** The denominator list looks up exactly the nine cost tables, in order. */
  lemma DenominatorLooksUpCostTables()
    ensures LookedFields(DenominatorFields) == CostTableFields
  {
  }

  /** A list without "q2" has no "q2" terms. */
  lemma {:induction false} Q2PartWithoutQ2(fields: seq<CostField>, form: Form)
    requires forall k | 0 <= k < |fields| :: fields[k].Looked?
    ensures Q2Part(fields, form) == 0
  {
    if fields != [] {
      assert forall k | 0 <= k < |fields[1..]| :: fields[1..][k] == fields[k + 1];
      Q2PartWithoutQ2(fields[1..], form);
    }
  }

  /** The denominator list reads "q2" exactly once. */
  lemma DenominatorReadsQ2Once(form: Form)
    ensures Q2Part(DenominatorFields, form) == Q2Points(form)
  {
    var d := DenominatorFields;
    assert d[1..][1..] == d[2..];
    Q2PartWithoutQ2(d[2..], form);
  }

  /** The denominator is the nine table-driven cost fields plus the integer value of "q2". */
  lemma DenominatorSplits(form: Form)
    ensures Denominator(form) == TableCost(form) + Q2Points(form)
  {
    SumCostSplits(DenominatorFields, form);
    DenominatorLooksUpCostTables();
    DenominatorReadsQ2Once(form);
  }

  /** A sum of fields that all have the same cap. */
  lemma {:induction false} SumCapsUniform(fields: seq<TableField>, cap: int)
    requires forall k | 0 <= k < |fields| :: FieldCap(fields[k]) == cap
    ensures SumCaps(fields) == cap * |fields|
  {
    if fields != [] {
      assert forall k | 0 <= k < |fields[1..]| :: fields[1..][k] == fields[k + 1];
      SumCapsUniform(fields[1..], cap);
    }
  }

  lemma CostCaps()
    ensures SumCaps(CostTableFields) == 285
  {
  }

  /** The table-driven part of the denominator lies in [0, 285]. */
  lemma TableCostBounds(form: Form)
    ensures 0 <= TableCost(form) <= 285
  {
    SumPointsBounds(CostTableFields, form);
    CostCaps();
  }

  /** A sum reaches the sum of its caps exactly when every field scores its cap. */
  lemma {:induction false} SumAtCapIff(fields: seq<TableField>, form: Form)
    ensures SumPoints(fields, form) == SumCaps(fields) <==>
              forall k | 0 <= k < |fields| :: Points(fields[k], form) == FieldCap(fields[k])
  {
    if fields != [] {
      PointsBounds(fields[0], form);
      SumPointsBounds(fields[1..], form);
      SumAtCapIff(fields[1..], form);
      if forall k | 0 <= k < |fields| :: Points(fields[k], form) == FieldCap(fields[k]) {
        forall k | 0 <= k < |fields[1..]| ensures Points(fields[1..][k], form) == FieldCap(fields[1..][k]) {
          assert fields[1..][k] == fields[k + 1];
        }
      } else {
        var k :| 0 <= k < |fields| && Points(fields[k], form) != FieldCap(fields[k]);
        if k > 0 {
          assert fields[1..][k - 1] == fields[k];
        }
      }
    }
  }

  /** The numerator reaches 660 exactly when all twelve value fields score 55. */
  lemma NumeratorMaxIff(form: Form)
    ensures Numerator(form) == 660 <==>
              forall k | 0 <= k < |NumeratorFields| :: Points(NumeratorFields[k], form) == 55
  {
    SumAtCapIff(NumeratorFields, form);
    NumeratorCaps();
  }

  lemma NumeratorCaps()
    ensures SumCaps(NumeratorFields) == 660
    ensures forall k | 0 <= k < |NumeratorFields| :: FieldCap(NumeratorFields[k]) == 55
  {
    SumCapsUniform(NumeratorFields, 55);
  }

  /** A missing "q2" counts 0, and so does text that is not an integer; integer text counts its value. */
  lemma Q2Defaults(form: Form, n: int)
    ensures "q2" !in form ==> Q2Points(form) == 0
    ensures "q2" in form && PyInt(form["q2"]).None? ==> Q2Points(form) == 0
    ensures WithinStrLimit(n) ==> Q2Points(form["q2" := PyStr(n)]) == n
  {
    if WithinStrLimit(n) {
      PyIntOfPyStr(n);
    }
  }

  // ---------------------------------------------------------------------------
  // calculate_wsjf
  // ---------------------------------------------------------------------------

  /** `get_complexite_label`: 1 (low) below 50, 2 (medium) from 50 to 100, 3 (high) above. */
  function ComplexiteLabel(score: int): (c: int)
    ensures c == 1 <==> score < 50
    ensures c == 2 <==> 50 <= score <= 100
    ensures c == 3 <==> score > 100
    ensures c in {1, 2, 3}
  {
    if score < 50 then 1
    else if 50 <= score <= 100 then 2
    else 3
  }

  /** The class never decreases as the denominator grows. */
  lemma ComplexiteLabelMonotone(a: int, b: int)
    requires a <= b
    ensures ComplexiteLabel(a) <= ComplexiteLabel(b)
  {
  }

  /** `{1: 20, 2: 40, 3: 60}.get(complexite, 30)`. */
  function JhEstime(complexite: int): (jh: int)
    ensures complexite in {1, 2, 3} ==> jh == 20 * complexite
    ensures complexite !in {1, 2, 3} ==> jh == 30
  {
    var table := map[1 := 20, 2 := 40, 3 := 60];
    if complexite in table then table[complexite] else 30
  }

  /** What `calculate_wsjf` returns, with the score unrounded. */
  datatype WsjfResult = WsjfResult(scoreWsjf: real, complexiteScore: int, complexite: int, jhEstime: int)

  /** `calculate_wsjf`. */
  function CalculateWsjf(form: Form): (r: WsjfResult)
    ensures r.complexiteScore == Denominator(form)
    ensures r.complexiteScore != 0 ==>
              r.scoreWsjf * (r.complexiteScore as real) == 2.0 * (Numerator(form) as real)
    ensures r.complexiteScore == 0 ==> r.scoreWsjf == 0.0
    ensures r.complexite == ComplexiteLabel(r.complexiteScore) && r.complexite in {1, 2, 3}
    ensures r.jhEstime == 20 * r.complexite
  {
    var numerateur := Numerator(form);
    var denominateur := Denominator(form);
    var wsjf := if denominateur != 0 then (numerateur * 2) as real / denominateur as real else 0.0;
    var complexite := ComplexiteLabel(denominateur);
    WsjfResult(wsjf, denominateur, complexite, JhEstime(complexite))
  }

  /** The fallback estimate of 30 days is never returned. */
  lemma EffortNeverFallback(form: Form)
    ensures CalculateWsjf(form).jhEstime in {20, 40, 60}
  {
  }

  /** A score of the form is never negative when the cost sum is positive, and at most 1320. */
  lemma ScoreBounds(form: Form)
    requires Denominator(form) > 0
    ensures 0.0 <= CalculateWsjf(form).scoreWsjf <= 1320.0
  {
    NumeratorBounds(form);
    DivideByAtLeastOne((Numerator(form) * 2) as real, Denominator(form) as real);
  }

  /** Dividing a non-negative number by at least 1 keeps it between 0 and itself. */
  lemma DivideByAtLeastOne(x: real, d: real)
    requires 0.0 <= x && 1.0 <= d
    ensures 0.0 <= x / d <= x
  {
    var q := x / d;
    assert q * d == x;
    assert x - q == q * (d - 1.0);
  }

  /** A sum of fields none of which holds a known answer is 0. */
  lemma {:induction false} ZeroWhenAllUnknown(fields: seq<TableField>, form: Form)
    requires forall k | 0 <= k < |fields| :: Name(fields[k]) !in form || !HasKey(PointsConfig(fields[k]), form[Name(fields[k])])
    ensures SumPoints(fields, form) == 0
  {
    if fields != [] {
      UnknownAnswerScoresZero(fields[0], form);
      ZeroWhenAllUnknown(fields[1..], form);
    }
  }

  /** An empty form has no cost at all. */
  lemma EmptyFormCostsNothing()
    ensures Denominator(map[]) == 0
  {
    var empty: Form := map[];
    DenominatorSplits(empty);
    ZeroWhenAllUnknown(CostTableFields, empty);
  }

  /** An empty form scores 0, with complexity class 1 and 20 person-days. */
  lemma EmptyForm()
    ensures CalculateWsjf(map[]) == WsjfResult(0.0, 0, 1, 20)
  {
    EmptyFormCostsNothing();
    var r := CalculateWsjf(map[]);
    assert r.complexiteScore == 0 && r.scoreWsjf == 0.0;
    assert r.complexite == ComplexiteLabel(0) == 1;
  }
}
