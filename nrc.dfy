/** nrc.py: the per-1000-kcal nutrient reference table, its scaling to a
    day's energy requirement, and the LOW / HIGH / OK classifier. The
    energy requirement (`calculate_mer`, a fractional power of the weight)
    is an input. */
module Nrc {
  import opened Wrappers

  /** One row of `NRC_PER_1000KCAL`: minimum, suggested and (optional)
      maximum amount per 1000 kcal. */
  datatype Reference = Reference(key: string, min: real, suggest: real, max: Option<real>)

  /** `NutrientRequirement`: per-day amounts. */
  datatype NutrientRequirement = NutrientRequirement(key: string, minPerDay: real, suggestPerDay: real, maxPerDay: Option<real>)

  /** `NRC_PER_1000KCAL`, in the dictionary's order. */
  const NrcPer1000Kcal: seq<Reference> := [
    Reference("protein_g", 45.0, 52.0, None),
    Reference("fat_g", 13.8, 16.0, None),
    Reference("ca_mg", 1250.0, 1500.0, Some(6250.0)),
    Reference("p_mg", 1000.0, 1200.0, Some(4000.0)),
    Reference("k_mg", 1500.0, 1700.0, None),
    Reference("na_mg", 200.0, 300.0, Some(3200.0)),
    Reference("mg_mg", 150.0, 170.0, None),
    Reference("fe_mg", 7.5, 10.0, Some(75.0)),
    Reference("zn_mg", 15.0, 20.0, Some(300.0)),
    Reference("cu_mg", 1.5, 1.8, Some(30.0)),
    Reference("mn_mg", 1.2, 1.6, Some(24.0)),
    Reference("se_ug", 90.0, 100.0, Some(900.0)),
    Reference("iodine_ug", 220.0, 300.0, Some(2200.0)),
    Reference("vit_a_ug", 379.0, 500.0, Some(18750.0)),
    Reference("vit_d_ug", 3.4, 5.0, Some(80.0)),
    Reference("vit_e_mg", 7.5, 10.0, None)
  ]

  /** Minimum, suggestion and maximum are in order. */
  predicate Ordered(min: real, suggest: real, max: Option<real>) {
    min <= suggest && (max.Some? ==> suggest <= max.value)
  }

  /** The table has sixteen distinct keys and every row is ordered, with
      non-negative amounts. */
  lemma TableWellFormed()
    ensures |NrcPer1000Kcal| == 16
    ensures forall i, j :: 0 <= i < j < |NrcPer1000Kcal| ==> NrcPer1000Kcal[i].key != NrcPer1000Kcal[j].key
    ensures forall i :: 0 <= i < |NrcPer1000Kcal| ==>
              var ref := NrcPer1000Kcal[i];
              0.0 <= ref.min && Ordered(ref.min, ref.suggest, ref.max)
  {
  }

  /** One reference row scaled to a day. */
  function Scale(ref: Reference, scale: real): (r: NutrientRequirement)
    ensures r.key == ref.key && r.minPerDay == ref.min * scale && r.suggestPerDay == ref.suggest * scale
    ensures r.maxPerDay.None? <==> ref.max.None?
    ensures ref.max.Some? ==> r.maxPerDay == Some(ref.max.value * scale)
    ensures scale > 0.0 && Ordered(ref.min, ref.suggest, ref.max) ==> Ordered(r.minPerDay, r.suggestPerDay, r.maxPerDay)
  {
    NutrientRequirement(ref.key, ref.min * scale, ref.suggest * scale,
                        match ref.max case Some(m) => Some(m * scale) case None => None)
  }

  /** `requirements_for_profile`, given the profile's energy requirement
      `mer`: that energy, and one requirement per table row, in table
      order, each amount the table's times `mer / 1000`. */
  function RequirementsForProfile(mer: real): (r: (real, seq<NutrientRequirement>))
    ensures r.0 == mer
    ensures |r.1| == |NrcPer1000Kcal|
    ensures forall i :: 0 <= i < |r.1| ==> r.1[i] == Scale(NrcPer1000Kcal[i], mer / 1000.0)
  {
    var scale := mer / 1000.0;
    (mer, seq(|NrcPer1000Kcal|, i requires 0 <= i < |NrcPer1000Kcal| => Scale(NrcPer1000Kcal[i], scale)))
  }

  /** For a positive energy requirement every requirement keeps
      minimum <= suggestion (<= maximum), and the keys are the table's. */
  lemma RequirementsOrdered(mer: real)
    requires mer > 0.0
    ensures var reqs := RequirementsForProfile(mer).1;
            forall i :: 0 <= i < |reqs| ==>
              reqs[i].key == NrcPer1000Kcal[i].key
              && Ordered(reqs[i].minPerDay, reqs[i].suggestPerDay, reqs[i].maxPerDay)
  {
    TableWellFormed();
  }

  datatype Status = Low | High | Ok

  /** `nrc_status`. */
  function NrcStatus(actual: real, minimum: real, maximum: Option<real>): Status {
    if actual < minimum then Low
    else if maximum.Some? && actual > maximum.value then High
    else Ok
  }

  /** LOW exactly below the minimum, whatever the maximum; HIGH exactly at
      or above the minimum and above a maximum that exists; OK exactly
      within the bounds. */
  lemma NrcStatusMeaning(actual: real, minimum: real, maximum: Option<real>)
    ensures NrcStatus(actual, minimum, maximum) == Low <==> actual < minimum
    ensures NrcStatus(actual, minimum, maximum) == High <==>
              actual >= minimum && maximum.Some? && actual > maximum.value
    ensures NrcStatus(actual, minimum, maximum) == Ok <==>
              minimum <= actual && (maximum.None? || actual <= maximum.value)
  {
  }

  lemma NrcStatusExamples()
    ensures NrcStatus(9.0, 10.0, Some(20.0)) == Low
    ensures NrcStatus(21.0, 10.0, Some(20.0)) == High
    ensures NrcStatus(11.0, 10.0, Some(20.0)) == Ok
    ensures NrcStatus(1000.0, 10.0, None) == Ok
  {
  }
}
