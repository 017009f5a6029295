/** optimizer.py: the greedy recipe optimizer. Candidate foods are
    filtered for safety and energy, seeded so that each supplies an equal
    share of the energy requirement, and then corrected nutrient by
    nutrient for at most 120 rounds until every nutrient is within its
    bounds. */
module Optimizer {
  import opened Wrappers
  import opened Sequences
  import opened Toxicity
  import opened Nrc

  /** A candidate food as the database returns it: its id, its name and
      its nutrient amounts per 100 g. */
  datatype FoodRow = FoodRow(id: int, name: string, nutrients: map<string, real>)

  /** `FormulaItem`. */
  datatype FormulaItem = FormulaItem(foodId: int, foodName: string, grams: real)

  /** `NrcRow`. */
  datatype NrcRow = NrcRow(nutrientKey: string, minimum: real, suggest: real, maximum: Option<real>,
                           actual: real, status: Status)

  /** `FormulaResult`. */
  datatype FormulaResult = FormulaResult(feasible: bool, reason: string, items: seq<FormulaItem>,
                                         nrcRows: seq<NrcRow>)

  /** The number of correction rounds before the optimizer gives up. */
  const MaxRounds: nat := 120

  /** `d.get(key, 0.0)`. */
  function Get(m: map<string, real>, key: string): real {
    if key in m then m[key] else 0.0
  }

  /** A candidate the optimizer keeps: it exists, its name is not toxic and
      it has positive energy. */
  predicate Usable(c: Option<FoodRow>) {
    c.Some? && !IsToxicFoodName(c.value.name) && Get(c.value.nutrients, "kcal") > 0.0
  }

  /** The candidates the optimizer keeps, in their order. */
  function SafeFoods(candidates: seq<Option<FoodRow>>): (r: seq<FoodRow>)
    ensures |r| <= |candidates|
    ensures forall i :: 0 <= i < |r| ==> Usable(Some(r[i])) && Some(r[i]) in candidates
    ensures forall i :: 0 <= i < |candidates| && Usable(candidates[i]) ==> candidates[i].value in r
  {
    if candidates == [] then []
    else
      var rest := SafeFoods(candidates[..|candidates| - 1]);
      var c := candidates[|candidates| - 1];
      assert forall i :: 0 <= i < |candidates| - 1 ==> candidates[i] == candidates[..|candidates| - 1][i];
      if Usable(c) then rest + [c.value] else rest
  }

  /** The candidate-filtering loop of `optimize_recipe`. */
  method SelectFoods(candidates: seq<Option<FoodRow>>) returns (foods: seq<FoodRow>)
    ensures foods == SafeFoods(candidates)
  {
    foods := [];
    var i := 0;
    while i < |candidates|
      invariant 0 <= i <= |candidates|
      invariant foods == SafeFoods(candidates[..i])
    {
      assert candidates[..i + 1][..i] == candidates[..i];
      var row := candidates[i];
      if row.None? || IsToxicFoodName(row.value.name) {
        i := i + 1;
        continue;
      }
      if Get(row.value.nutrients, "kcal") <= 0.0 {
        i := i + 1;
        continue;
      }
      foods := foods + [row.value];
      i := i + 1;
    }
    assert candidates[..i] == candidates;
  }

  /** `nutrient_by_food`. */
  function Nutrients(foods: seq<FoodRow>): (r: seq<map<string, real>>)
    ensures |r| == |foods| && forall i :: 0 <= i < |foods| ==> r[i] == foods[i].nutrients
  {
    seq(|foods|, i requires 0 <= i < |foods| => foods[i].nutrients)
  }

  /** What `g` grams of a food with nutrient amounts `n` per 100 g supply of
      `key`. */
  function Amount(n: map<string, real>, key: string, g: real): real {
    if key in n then n[key] * g / 100.0 else 0.0
  }

  /** The total amount of `key` in the recipe, added up food by food. */
  function Total(grams: seq<real>, ns: seq<map<string, real>>, key: string): real
    requires |grams| == |ns|
  {
    if ns == [] then 0.0
    else Total(grams[..|grams| - 1], ns[..|ns| - 1], key) + Amount(ns[|ns| - 1], key, grams[|grams| - 1])
  }

  /** Every nutrient key some food lists. */
  function KeysOf(ns: seq<map<string, real>>): (r: set<string>)
    ensures forall k :: k in r <==> exists i :: 0 <= i < |ns| && k in ns[i]
  {
    if ns == [] then {}
    else
      var r := KeysOf(ns[..|ns| - 1]) + ns[|ns| - 1].Keys;
      assert forall i :: 0 <= i < |ns| - 1 ==> ns[i] == ns[..|ns| - 1][i];
      r
  }

  /** A key no food lists adds up to nothing. */
  lemma {:induction false} TotalAbsent(grams: seq<real>, ns: seq<map<string, real>>, key: string)
    requires |grams| == |ns| && key !in KeysOf(ns)
    ensures Total(grams, ns, key) == 0.0
  {
    if ns != [] {
      assert forall i :: 0 <= i < |ns| - 1 ==> ns[i] == ns[..|ns| - 1][i];
      TotalAbsent(grams[..|grams| - 1], ns[..|ns| - 1], key);
    }
  }

  /** The totals dictionary `_compute_totals` returns: one entry per listed
      nutrient, holding its total. */
  function TotalsMap(grams: seq<real>, ns: seq<map<string, real>>): (r: map<string, real>)
    requires |grams| == |ns|
  {
    map k | k in KeysOf(ns) :: Total(grams, ns, k)
  }

  /** The totals list exactly the nutrients some food lists, and a lookup
      with default is the nutrient's total, listed or not. */
  lemma TotalsMapGet(grams: seq<real>, ns: seq<map<string, real>>, key: string)
    requires |grams| == |ns|
    ensures key in TotalsMap(grams, ns) <==> exists i :: 0 <= i < |ns| && key in ns[i]
    ensures Get(TotalsMap(grams, ns), key) == Total(grams, ns, key)
  {
    if key !in KeysOf(ns) {
      TotalAbsent(grams, ns, key);
    }
  }

  lemma TotalStep(grams: seq<real>, ns: seq<map<string, real>>, idx: nat, key: string)
    requires |grams| == |ns| && idx < |ns|
    ensures Total(grams[..idx + 1], ns[..idx + 1], key)
            == Total(grams[..idx], ns[..idx], key) + Amount(ns[idx], key, grams[idx])
  {
    assert grams[..idx + 1][..idx] == grams[..idx];
    assert ns[..idx + 1][..idx] == ns[..idx];
  }

  /** `_compute_totals`: for every food in turn, each nutrient it lists is
      added to the running total of that nutrient. */
  method ComputeTotals(grams: seq<real>, ns: seq<map<string, real>>) returns (totals: map<string, real>)
    requires |grams| == |ns|
    ensures totals == TotalsMap(grams, ns)
  {
    totals := map[];
    var idx := 0;
    while idx < |grams|
      invariant 0 <= idx <= |grams|
      invariant totals == TotalsMap(grams[..idx], ns[..idx])
    {
      var before := totals;
      totals := AddFood(totals, ns[idx], grams[idx]);
      ComputeTotalsStep(grams, ns, idx, before, totals);
      idx := idx + 1;
    }
    assert grams[..idx] == grams && ns[..idx] == ns;
  }

  /** The inner loop of `_compute_totals`: every nutrient the food lists
      is added, for `g` grams, to its running total. */
  method AddFood(before: map<string, real>, n: map<string, real>, g: real) returns (totals: map<string, real>)
    ensures totals.Keys == before.Keys + n.Keys
    ensures forall k :: k in totals ==>
              totals[k] == if k in n then Get(before, k) + Amount(n, k, g) else before[k]
  {
    totals := before;
    var remaining := n.Keys;
    while remaining != {}
      invariant remaining <= n.Keys
      invariant totals.Keys == before.Keys + (n.Keys - remaining)
      invariant forall k :: k in totals ==>
                  totals[k] == if k in n.Keys - remaining then Get(before, k) + Amount(n, k, g) else before[k]
      decreases remaining
    {
      var key :| key in remaining;
      var amountPer100g := n[key];
      totals := totals[key := Get(totals, key) + amountPer100g * g / 100.0];
      remaining := remaining - {key};
    }
  }

  /** One food's pass over its nutrients turns the totals of the foods
      before it into the totals including it. */
  lemma ComputeTotalsStep(grams: seq<real>, ns: seq<map<string, real>>, idx: nat,
                          before: map<string, real>, after: map<string, real>)
    requires |grams| == |ns| && idx < |ns|
    requires before == TotalsMap(grams[..idx], ns[..idx])
    requires after.Keys == before.Keys + ns[idx].Keys
    requires forall k :: k in after ==>
               after[k] == if k in ns[idx].Keys then Get(before, k) + Amount(ns[idx], k, grams[idx]) else before[k]
    ensures after == TotalsMap(grams[..idx + 1], ns[..idx + 1])
  {
    var want := TotalsMap(grams[..idx + 1], ns[..idx + 1]);
    assert ns[..idx + 1][..idx] == ns[..idx];
    assert after.Keys == want.Keys;
    forall k | k in after
      ensures after[k] == want[k]
    {
      TotalStep(grams, ns, idx, k);
      TotalsMapGet(grams[..idx], ns[..idx], k);
    }
  }

  /** One row of the report for requirement `req` at the given actual
      amount. */
  function MakeRow(req: NutrientRequirement, actual: real): NrcRow {
    NrcRow(req.key, req.minPerDay, req.suggestPerDay, req.maxPerDay, actual,
           NrcStatus(actual, req.minPerDay, req.maxPerDay))
  }

  /** The report `_make_nrc_rows` builds. */
  function RowsFrom(reqs: seq<NutrientRequirement>, totals: map<string, real>): (r: seq<NrcRow>)
    ensures |r| == |reqs|
  {
    seq(|reqs|, i requires 0 <= i < |reqs| => MakeRow(reqs[i], Get(totals, reqs[i].key)))
  }

  /** The report has one row per requirement, in order, carrying its
      bounds, the total of its nutrient (nothing when no food lists it)
      and the status those give. */
  lemma RowsMeaning(reqs: seq<NutrientRequirement>, totals: map<string, real>)
    ensures var r := RowsFrom(reqs, totals);
            forall i :: 0 <= i < |r| ==>
              && r[i].nutrientKey == reqs[i].key
              && r[i].minimum == reqs[i].minPerDay
              && r[i].suggest == reqs[i].suggestPerDay
              && r[i].maximum == reqs[i].maxPerDay
              && r[i].actual == (if reqs[i].key in totals then totals[reqs[i].key] else 0.0)
              && (r[i].status == Low <==> r[i].actual < r[i].minimum)
              && (r[i].status == High <==>
                    r[i].minimum <= r[i].actual && r[i].maximum.Some? && r[i].actual > r[i].maximum.value)
  {
  }

  /** `_make_nrc_rows`. */
  method MakeNrcRows(reqs: seq<NutrientRequirement>, totals: map<string, real>) returns (rows: seq<NrcRow>)
    ensures rows == RowsFrom(reqs, totals)
  {
    rows := [];
    for i := 0 to |reqs|
      invariant rows == RowsFrom(reqs[..i], totals)
    {
      var req := reqs[i];
      var actual := Get(totals, req.key);
      rows := rows + [NrcRow(req.key, req.minPerDay, req.suggestPerDay, req.maxPerDay, actual,
                             NrcStatus(actual, req.minPerDay, req.maxPerDay))];
    }
    assert reqs[..|reqs|] == reqs;
  }

  /** The rows that are not OK (`hard_fail`), in report order. */
  function HardFail(rows: seq<NrcRow>): seq<NrcRow> {
    Filter(rows, (row: NrcRow) => row.status != Ok)
  }

  /** The first of the first `n` foods richest in `key`, as Python's `max`
      over `range(n)` picks it. */
  function DensestUpTo(ns: seq<map<string, real>>, key: string, n: nat): (idx: nat)
    requires 0 < n <= |ns|
    ensures idx < n
    ensures forall i :: 0 <= i < n ==> Get(ns[i], key) <= Get(ns[idx], key)
    ensures forall i :: 0 <= i < idx ==> Get(ns[i], key) < Get(ns[idx], key)
  {
    if n == 1 then 0
    else
      var best := DensestUpTo(ns, key, n - 1);
      if Get(ns[n - 1], key) > Get(ns[best], key) then n - 1 else best
  }

  /** The food richest in `key`; among equally rich foods, the first. */
  function Densest(ns: seq<map<string, real>>, key: string): (idx: nat)
    requires ns != []
    ensures idx < |ns|
    ensures forall i :: 0 <= i < |ns| ==> Get(ns[i], key) <= Get(ns[idx], key)
    ensures forall i :: 0 <= i < idx ==> Get(ns[i], key) < Get(ns[idx], key)
  {
    DensestUpTo(ns, key, |ns|)
  }

  function Max(a: real, b: real): real {
    if a >= b then a else b
  }

  /** The correction for one failing row: a LOW nutrient raises the food
      richest in it by what covers the deficit, a HIGH one lowers that
      food by what removes the excess (never below zero); nothing changes
      when no food has any of the nutrient. */
  function Adjust(grams: seq<real>, ns: seq<map<string, real>>, row: NrcRow): seq<real>
    requires |grams| == |ns| && ns != []
  {
    var idx := Densest(ns, row.nutrientKey);
    var density := Get(ns[idx], row.nutrientKey);
    if row.status == Low && density > 0.0 then
      grams[idx := grams[idx] + (row.minimum - row.actual) / density * 100.0]
    else if row.status == High && row.maximum.Some? && density > 0.0 then
      grams[idx := Max(0.0, grams[idx] - (row.actual - row.maximum.value) / density * 100.0)]
    else grams
  }

  /** `d * (x / d * 100) / 100 == x`, the step the corrections rely on. */
  lemma DensityCancels(d: real, x: real)
    requires d > 0.0
    ensures d * (x / d * 100.0) / 100.0 == x
  {
    calc {
      d * (x / d * 100.0) / 100.0;
      == d * (x / d);
      == x;
    }
  }

  /** What one correction does: only the food richest in the nutrient
      changes; a LOW row raises it by exactly the grams that supply the
      deficit; a HIGH row lowers it by exactly the grams that carry the
      excess, or to zero; grams stay non-negative. */
  lemma AdjustMeaning(grams: seq<real>, ns: seq<map<string, real>>, row: NrcRow)
    requires |grams| == |ns| && ns != []
    requires row.status == Low ==> row.actual < row.minimum
    ensures var r := Adjust(grams, ns, row);
            var idx := Densest(ns, row.nutrientKey);
            var key := row.nutrientKey;
            && |r| == |grams|
            && (forall i :: 0 <= i < |grams| && i != idx ==> r[i] == grams[i])
            && (Get(ns[idx], key) <= 0.0 || row.status == Ok ==> r == grams)
            && (row.status == Low && Get(ns[idx], key) > 0.0 ==>
                  r[idx] > grams[idx]
                  && Amount(ns[idx], key, r[idx]) == Amount(ns[idx], key, grams[idx]) + (row.minimum - row.actual))
            && (row.status == High && row.maximum.Some? && Get(ns[idx], key) > 0.0 ==>
                  r[idx] >= 0.0
                  && (r[idx] == 0.0 ||
                      Amount(ns[idx], key, r[idx]) == Amount(ns[idx], key, grams[idx]) - (row.actual - row.maximum.value)))
            && ((forall i :: 0 <= i < |grams| ==> grams[i] >= 0.0) ==> forall i :: 0 <= i < |r| ==> r[i] >= 0.0)
  {
    var idx := Densest(ns, row.nutrientKey);
    var key := row.nutrientKey;
    var d := Get(ns[idx], key);
    if d > 0.0 {
      assert key in ns[idx];
      DensityCancels(d, row.minimum - row.actual);
      assert Amount(ns[idx], key, grams[idx] + (row.minimum - row.actual) / d * 100.0)
             == Amount(ns[idx], key, grams[idx]) + d * ((row.minimum - row.actual) / d * 100.0) / 100.0;
      if row.status == High && row.maximum.Some? {
        var excess := row.actual - row.maximum.value;
        DensityCancels(d, excess);
        assert Amount(ns[idx], key, grams[idx] - excess / d * 100.0)
               == Amount(ns[idx], key, grams[idx]) - d * (excess / d * 100.0) / 100.0;
      }
      if row.status == Low {
        assert (row.minimum - row.actual) / d * 100.0 > 0.0;
      }
    }
  }

  /** The corrections for all failing rows, applied in order. */
  function AdjustAll(grams: seq<real>, ns: seq<map<string, real>>, rows: seq<NrcRow>): (r: seq<real>)
    requires |grams| == |ns| && ns != []
    ensures |r| == |grams|
  {
    if rows == [] then grams
    else Adjust(AdjustAll(grams, ns, rows[..|rows| - 1]), ns, rows[|rows| - 1])
  }

  /** The rows of a report never call for a negative amount, so the
      corrections keep every amount of food non-negative. */
  lemma {:induction false} AdjustAllNonNegative(grams: seq<real>, ns: seq<map<string, real>>, rows: seq<NrcRow>)
    requires |grams| == |ns| && ns != []
    requires forall i :: 0 <= i < |grams| ==> grams[i] >= 0.0
    requires forall i :: 0 <= i < |rows| ==> (rows[i].status == Low ==> rows[i].actual < rows[i].minimum)
    ensures forall i :: 0 <= i < |grams| ==> AdjustAll(grams, ns, rows)[i] >= 0.0
  {
    if rows != [] {
      AdjustAllNonNegative(grams, ns, rows[..|rows| - 1]);
      AdjustMeaning(AdjustAll(grams, ns, rows[..|rows| - 1]), ns, rows[|rows| - 1]);
    }
  }

  /** A failing row of a report that is LOW lies below its minimum. */
  lemma LowRowsBelowMinimum(reqs: seq<NutrientRequirement>, totals: map<string, real>)
    ensures var fails := HardFail(RowsFrom(reqs, totals));
            forall i :: 0 <= i < |fails| ==> (fails[i].status == Low ==> fails[i].actual < fails[i].minimum)
  {
    var rows := RowsFrom(reqs, totals);
    var fails := HardFail(rows);
    RowsMeaning(reqs, totals);
    forall i | 0 <= i < |fails|
      ensures fails[i].status == Low ==> fails[i].actual < fails[i].minimum
    {
      var j :| 0 <= j < |rows| && rows[j] == fails[i];
    }
  }

  /** The `for row in hard_fail` loop, which corrects `grams` in place. */
  method ApplyCorrections(grams: array<real>, ns: seq<map<string, real>>, hardFail: seq<NrcRow>)
    requires grams.Length == |ns| && ns != []
    modifies grams
    ensures grams[..] == AdjustAll(old(grams[..]), ns, hardFail)
  {
    for k := 0 to |hardFail|
      invariant grams[..] == AdjustAll(old(grams[..]), ns, hardFail[..k])
    {
      assert hardFail[..k + 1][..k] == hardFail[..k];
      var row := hardFail[k];
      if row.status == Low {
        var idx := Densest(ns, row.nutrientKey);
        var density := Get(ns[idx], row.nutrientKey);
        if density > 0.0 {
          grams[idx] := grams[idx] + (row.minimum - row.actual) / density * 100.0;
        }
      }
      if row.status == High && row.maximum.Some? {
        var idx := Densest(ns, row.nutrientKey);
        var density := Get(ns[idx], row.nutrientKey);
        if density > 0.0 {
          grams[idx] := Max(0.0, grams[idx] - (row.actual - row.maximum.value) / density * 100.0);
        }
      }
    }
    assert hardFail[..|hardFail|] == hardFail;
  }

  /** The formula items: every food given more than 0.1 g, in order, with
      its amount rounded to one decimal by `round`. */
  function Items(foods: seq<FoodRow>, grams: seq<real>, round: real -> real): (r: seq<FormulaItem>)
    requires |foods| == |grams|
    ensures |r| <= |foods|
  {
    if foods == [] then []
    else
      var n := |foods| - 1;
      var rest := Items(foods[..n], grams[..n], round);
      if grams[n] > 0.1 then rest + [FormulaItem(foods[n].id, foods[n].name, round(grams[n]))]
      else rest
  }

  /** The positions of the foods given more than 0.1 g, in increasing
      order: the foods that `Items` lists. */
  function ItemIndices(grams: seq<real>): (idx: seq<nat>)
    ensures forall k :: 0 <= k < |idx| ==> idx[k] < |grams| && grams[idx[k]] > 0.1
    ensures forall k, l :: 0 <= k < l < |idx| ==> idx[k] < idx[l]
  {
    if grams == [] then []
    else
      var n := |grams| - 1;
      var before := ItemIndices(grams[..n]);
      if grams[n] > 0.1 then before + [n] else before
  }

  /** The k-th item is the food at the k-th position of `ItemIndices`,
      with its amount rounded. */
  lemma {:induction false} ItemsMeaning(foods: seq<FoodRow>, grams: seq<real>, round: real -> real)
    requires |foods| == |grams|
    ensures |Items(foods, grams, round)| == |ItemIndices(grams)|
    ensures forall k :: 0 <= k < |ItemIndices(grams)| ==>
              Items(foods, grams, round)[k]
              == FormulaItem(foods[ItemIndices(grams)[k]].id, foods[ItemIndices(grams)[k]].name,
                             round(grams[ItemIndices(grams)[k]]))
  {
    if foods != [] {
      var n := |foods| - 1;
      var fs, gs := foods[..n], grams[..n];
      ItemsMeaning(fs, gs, round);
      var rest, before := Items(fs, gs, round), ItemIndices(gs);
      var r, idx := Items(foods, grams, round), ItemIndices(grams);
      forall k | 0 <= k < |idx|
        ensures r[k] == FormulaItem(foods[idx[k]].id, foods[idx[k]].name, round(grams[idx[k]]))
      {
        if k < |before| {
          assert idx[k] == before[k] && r[k] == rest[k];
          assert foods[before[k]] == fs[before[k]] && grams[before[k]] == gs[before[k]];
        }
      }
    }
  }

  /** Every food given more than 0.1 g has its item. */
  lemma {:induction false} ItemsComplete(foods: seq<FoodRow>, grams: seq<real>, round: real -> real)
    requires |foods| == |grams|
    ensures forall i :: 0 <= i < |foods| && grams[i] > 0.1 ==>
              FormulaItem(foods[i].id, foods[i].name, round(grams[i])) in Items(foods, grams, round)
  {
    if foods != [] {
      var n := |foods| - 1;
      var fs, gs := foods[..n], grams[..n];
      var rest := Items(fs, gs, round);
      ItemsComplete(fs, gs, round);
      forall i | 0 <= i < n && grams[i] > 0.1
        ensures FormulaItem(foods[i].id, foods[i].name, round(grams[i])) in rest
      {
        assert fs[i] == foods[i] && gs[i] == grams[i];
      }
    }
  }

  /** The report `_make_nrc_rows` gives for the amounts `grams`. */
  function Report(foods: seq<FoodRow>, reqs: seq<NutrientRequirement>, grams: seq<real>): seq<NrcRow>
    requires |grams| == |foods|
  {
    RowsFrom(reqs, TotalsMap(grams, Nutrients(foods)))
  }

  /** Whether every nutrient of the report for `grams` is OK (the loop's
      exit test, `if not hard_fail`). */
  predicate Balanced(foods: seq<FoodRow>, reqs: seq<NutrientRequirement>, grams: seq<real>)
    requires |grams| == |foods|
  {
    HardFail(Report(foods, reqs, grams)) == []
  }

  /** One round of corrections, for every failing row in report order. */
  function Corrected(foods: seq<FoodRow>, reqs: seq<NutrientRequirement>, grams: seq<real>): (r: seq<real>)
    requires |grams| == |foods| && foods != []
    ensures |r| == |grams|
  {
    AdjustAll(grams, Nutrients(foods), HardFail(Report(foods, reqs, grams)))
  }

  /** The rounds of correction with `fuel` rounds left: the amounts they
      stop at, and whether they stopped because every nutrient was OK
      (rather than because no round was left). Rounds that stop OK leave
      every nutrient OK, and no round makes an amount negative. */
  function Settle(foods: seq<FoodRow>, reqs: seq<NutrientRequirement>, grams: seq<real>, fuel: nat)
    : (r: (seq<real>, bool))
    requires |grams| == |foods| && foods != []
    ensures |r.0| == |grams|
    ensures r.1 ==> Balanced(foods, reqs, r.0)
    ensures (forall i :: 0 <= i < |grams| ==> grams[i] >= 0.0) ==> forall i :: 0 <= i < |r.0| ==> r.0[i] >= 0.0
    decreases fuel
  {
    if fuel == 0 then (grams, false)
    else if Balanced(foods, reqs, grams) then (grams, true)
    else
      CorrectionNonNegative(foods, reqs, grams);
      Settle(foods, reqs, Corrected(foods, reqs, grams), fuel - 1)
  }

  /** What the rounds return: a formula of the amounts they settle at, or,
      when no round is left, an infeasible report of the last amounts. */
  function Rounds(foods: seq<FoodRow>, reqs: seq<NutrientRequirement>, grams: seq<real>, fuel: nat,
                  round: real -> real): FormulaResult
    requires |grams| == |foods| && foods != []
  {
    var settled := Settle(foods, reqs, grams, fuel);
    if settled.1 then FormulaResult(true, "ok", Items(foods, settled.0, round), Report(foods, reqs, settled.0))
    else FormulaResult(false, "no feasible solution", [], Report(foods, reqs, settled.0))
  }

  /** The last round's corrections are not checked: with one round left
      and a nutrient out of bounds, the result is infeasible and reports the
      corrected amounts, even when the corrections brought every nutrient
      within its bounds. */
  lemma LastRoundNotRechecked(foods: seq<FoodRow>, reqs: seq<NutrientRequirement>, grams: seq<real>,
                              round: real -> real)
    requires |grams| == |foods| && foods != [] && !Balanced(foods, reqs, grams)
    ensures var r := Rounds(foods, reqs, grams, 1, round);
            !r.feasible && r.reason == "no feasible solution"
            && r.nrcRows == Report(foods, reqs, Corrected(foods, reqs, grams))
  {
    assert Settle(foods, reqs, grams, 1) == Settle(foods, reqs, Corrected(foods, reqs, grams), 0);
  }

  /** A round that finds a nutrient out of bounds corrects and goes on. */
  lemma SettleStep(foods: seq<FoodRow>, reqs: seq<NutrientRequirement>, grams: seq<real>, fuel: nat,
                   rows: seq<NrcRow>)
    requires |grams| == |foods| && foods != [] && fuel > 0
    requires rows == Report(foods, reqs, grams) && HardFail(rows) != []
    ensures Settle(foods, reqs, grams, fuel)
            == Settle(foods, reqs, AdjustAll(grams, Nutrients(foods), HardFail(rows)), fuel - 1)
  {
  }

  /** A round that finds every nutrient OK stops there, settled. */
  lemma SettleDone(foods: seq<FoodRow>, reqs: seq<NutrientRequirement>, grams: seq<real>, fuel: nat,
                   rows: seq<NrcRow>)
    requires |grams| == |foods| && foods != [] && fuel > 0
    requires rows == Report(foods, reqs, grams) && HardFail(rows) == []
    ensures Settle(foods, reqs, grams, fuel) == (grams, true)
  {
  }

  /** One round of corrections keeps the amounts non-negative. */
  lemma CorrectionNonNegative(foods: seq<FoodRow>, reqs: seq<NutrientRequirement>, grams: seq<real>)
    requires |grams| == |foods| && foods != []
    ensures (forall i :: 0 <= i < |grams| ==> grams[i] >= 0.0) ==>
            var next := Corrected(foods, reqs, grams);
            forall i :: 0 <= i < |next| ==> next[i] >= 0.0
  {
    if forall i :: 0 <= i < |grams| ==> grams[i] >= 0.0 {
      LowRowsBelowMinimum(reqs, TotalsMap(grams, Nutrients(foods)));
      AdjustAllNonNegative(grams, Nutrients(foods), HardFail(Report(foods, reqs, grams)));
    }
  }

  /** The starting amounts: each food supplies an equal share of `mer`. */
  function Seed(foods: seq<FoodRow>, mer: real): (r: seq<real>)
    requires foods != []
    requires forall i :: 0 <= i < |foods| ==> Get(foods[i].nutrients, "kcal") > 0.0
    ensures |r| == |foods|
  {
    seq(|foods|, i requires 0 <= i < |foods| =>
          mer / (|foods| as real) / (Get(foods[i].nutrients, "kcal") / 100.0))
  }

  /** `optimize_recipe`, given the candidate rows (`None` for an id with no
      row), the profile's energy requirement and the rounding of the
      reported amounts. */
  function OptimizeRecipeSpec(candidates: seq<Option<FoodRow>>, mer: real, round: real -> real): FormulaResult {
    var foods := SafeFoods(candidates);
    if foods == [] then FormulaResult(false, "no safe foods available", [], [])
    else
      var reqs := RequirementsForProfile(mer).1;
      Rounds(foods, reqs, Seed(foods, mer), MaxRounds, round)
  }

  /** `optimize_recipe`, with `grams` corrected in place. */
  method OptimizeRecipe(candidates: seq<Option<FoodRow>>, mer: real, round: real -> real)
    returns (r: FormulaResult)
    ensures r == OptimizeRecipeSpec(candidates, mer, round)
  {
    var foods := SelectFoods(candidates);
    if foods == [] {
      return FormulaResult(false, "no safe foods available", [], []);
    }
    var reqs := RequirementsForProfile(mer).1;
    var n := |foods|;
    var ns := Nutrients(foods);
    var seed := Seed(foods, mer);
    var grams := new real[n](i requires 0 <= i < n => seed[i]);
    assert grams[..] == seed;
    var iteration := 0;
    while iteration < MaxRounds
      invariant 0 <= iteration <= MaxRounds
      invariant Settle(foods, reqs, grams[..], MaxRounds - iteration) == Settle(foods, reqs, seed, MaxRounds)
    {
      var totals := ComputeTotals(grams[..], ns);
      var rows := MakeNrcRows(reqs, totals);
      var hardFail := HardFail(rows);
      if hardFail == [] {
        SettleDone(foods, reqs, grams[..], MaxRounds - iteration, rows);
        var items := Items(foods, grams[..], round);
        return FormulaResult(true, "ok", items, rows);
      }
      SettleStep(foods, reqs, grams[..], MaxRounds - iteration, rows);
      ApplyCorrections(grams, ns, hardFail);
      iteration := iteration + 1;
    }
    var finalTotals := ComputeTotals(grams[..], ns);
    var finalRows := MakeNrcRows(reqs, finalTotals);
    return FormulaResult(false, "no feasible solution", [], finalRows);
  }

  /** The optimizer reports that no safe food is available exactly when no
      candidate exists, is safe by name and has positive energy; that
      report is infeasible and carries neither items nor rows. */
  lemma NoSafeFoods(candidates: seq<Option<FoodRow>>, mer: real, round: real -> real)
    ensures var r := OptimizeRecipeSpec(candidates, mer, round);
            (r.reason == "no safe foods available" <==> forall i :: 0 <= i < |candidates| ==> !Usable(candidates[i]))
            && (r.reason == "no safe foods available" ==> r == FormulaResult(false, r.reason, [], []))
  {
    var foods := SafeFoods(candidates);
    if foods != [] {
      assert Some(foods[0]) in candidates;
    }
  }

  /** A missing food, a toxic food and a food without energy leave
      nothing to optimize. */
  lemma NoSafeFoodsExample(mer: real, round: real -> real)
    ensures OptimizeRecipeSpec([None, Some(FoodRow(1, "洋葱", map["kcal" := 40.0])), Some(FoodRow(2, "water", map[]))],
                               mer, round)
            == FormulaResult(false, "no safe foods available", [], [])
  {
    var c: seq<Option<FoodRow>> := [None, Some(FoodRow(1, "洋葱", map["kcal" := 40.0])), Some(FoodRow(2, "water", map[]))];
    ExampleRowsUnusable();
    NoSafeFoods(c, mer, round);
  }

  lemma ExampleRowsUnusable()
    ensures !Usable(None)
    ensures !Usable(Some(FoodRow(1, "洋葱", map["kcal" := 40.0])))
    ensures !Usable(Some(FoodRow(2, "water", map[])))
  {
    OnionIsToxic();
  }

  /** One food's seeded amount supplies `share` kcal. */
  lemma SeedShare(kcal: real, share: real)
    requires kcal > 0.0
    ensures kcal * (share / (kcal / 100.0)) / 100.0 == share
  {
    assert share / (kcal / 100.0) == share / kcal * 100.0;
    DensityCancels(kcal, share);
  }

  lemma {:induction false} SeedPrefixEnergy(foods: seq<FoodRow>, mer: real, m: nat)
    requires foods != [] && m <= |foods|
    requires forall i :: 0 <= i < |foods| ==> Get(foods[i].nutrients, "kcal") > 0.0
    ensures Total(Seed(foods, mer)[..m], Nutrients(foods)[..m], "kcal") == (m as real) * (mer / (|foods| as real))
  {
    if m > 0 {
      var share := mer / (|foods| as real);
      SeedPrefixEnergy(foods, mer, m - 1);
      TotalStep(Seed(foods, mer), Nutrients(foods), m - 1, "kcal");
      SeedAmount(foods, mer, m - 1);
      OneMoreShare(m, share);
    }
  }

  lemma OneMoreShare(m: nat, share: real)
    requires m > 0
    ensures ((m - 1) as real) * share + share == (m as real) * share
  {
  }

  lemma SeedAmount(foods: seq<FoodRow>, mer: real, i: nat)
    requires foods != [] && i < |foods|
    requires forall i :: 0 <= i < |foods| ==> Get(foods[i].nutrients, "kcal") > 0.0
    ensures Amount(Nutrients(foods)[i], "kcal", Seed(foods, mer)[i]) == mer / (|foods| as real)
  {
    var share := mer / (|foods| as real);
    var kcal := Get(foods[i].nutrients, "kcal");
    assert "kcal" in Nutrients(foods)[i] && Nutrients(foods)[i]["kcal"] == kcal;
    assert Seed(foods, mer)[i] == share / (kcal / 100.0);
    SeedShare(kcal, share);
  }

  /** The seed gives every food a positive amount, and together they supply
      exactly the energy requirement. */
  lemma SeedEnergy(foods: seq<FoodRow>, mer: real)
    requires foods != [] && mer > 0.0
    requires forall i :: 0 <= i < |foods| ==> Get(foods[i].nutrients, "kcal") > 0.0
    ensures forall i :: 0 <= i < |foods| ==> Seed(foods, mer)[i] > 0.0
    ensures Total(Seed(foods, mer), Nutrients(foods), "kcal") == mer
  {
    var n := |foods| as real;
    forall i | 0 <= i < |foods|
      ensures Seed(foods, mer)[i] > 0.0
    {
      var k := Get(foods[i].nutrients, "kcal") / 100.0;
      assert mer / n > 0.0;
      assert k > 0.0;
    }
    SeedPrefixEnergy(foods, mer, |foods|);
    assert Seed(foods, mer)[..|foods|] == Seed(foods, mer);
    assert Nutrients(foods)[..|foods|] == Nutrients(foods);
  }

  lemma AllOk(rows: seq<NrcRow>)
    requires HardFail(rows) == []
    ensures forall i :: 0 <= i < |rows| ==> rows[i].status == Ok
  {
  }

  /** Every item names a candidate that exists, is safe by name and has
      energy. */
  ghost predicate ItemsFromUsable(items: seq<FormulaItem>, candidates: seq<Option<FoodRow>>) {
    forall k :: 0 <= k < |items| ==>
      exists f :: Some(f) in candidates && Usable(Some(f)) && items[k].foodId == f.id && items[k].foodName == f.name
  }

  /** One row per requirement, in order, each of them OK. */
  predicate AllOkFor(rows: seq<NrcRow>, reqs: seq<NutrientRequirement>) {
    |rows| == |reqs| && forall i :: 0 <= i < |rows| ==> rows[i].status == Ok && rows[i].nutrientKey == reqs[i].key
  }

  lemma ItemsFromCandidates(candidates: seq<Option<FoodRow>>, g: seq<real>, round: real -> real)
    requires |g| == |SafeFoods(candidates)|
    ensures ItemsFromUsable(Items(SafeFoods(candidates), g, round), candidates)
  {
    var foods := SafeFoods(candidates);
    var items := Items(foods, g, round);
    var idx := ItemIndices(g);
    ItemsMeaning(foods, g, round);
    forall k | 0 <= k < |items|
      ensures exists f :: Some(f) in candidates && Usable(Some(f))
                          && items[k].foodId == f.id && items[k].foodName == f.name
    {
      var i := idx[k];
      assert Some(foods[i]) in candidates && Usable(Some(foods[i]));
    }
  }

  lemma ReportAllOk(reqs: seq<NutrientRequirement>, totals: map<string, real>)
    requires HardFail(RowsFrom(reqs, totals)) == []
    ensures AllOkFor(RowsFrom(reqs, totals), reqs)
  {
    AllOk(RowsFrom(reqs, totals));
    RowsMeaning(reqs, totals);
  }

  /** What the optimizer promises: a formula reports, in order, one OK
      row per requirement of the profile (one per reference nutrient,
      by `Nrc.RequirementsOrdered`), and uses only candidates that exist,
      are safe by name and have energy. */
  lemma OptimizeOutcome(candidates: seq<Option<FoodRow>>, mer: real, round: real -> real)
    ensures var r := OptimizeRecipeSpec(candidates, mer, round);
            && (r.feasible ==>
                  && r.reason == "ok"
                  && AllOkFor(r.nrcRows, RequirementsForProfile(mer).1)
                  && ItemsFromUsable(r.items, candidates))
            && (!r.feasible ==> r.items == [])
  {
    var foods := SafeFoods(candidates);
    if foods != [] {
      SeededFormula(candidates, RequirementsForProfile(mer).1, Seed(foods, mer), MaxRounds, round);
    }
  }

  lemma SeededFormula(candidates: seq<Option<FoodRow>>, reqs: seq<NutrientRequirement>, seed: seq<real>,
                      fuel: nat, round: real -> real)
    requires SafeFoods(candidates) != [] && |seed| == |SafeFoods(candidates)|
    ensures var r := Rounds(SafeFoods(candidates), reqs, seed, fuel, round);
            && (r.feasible ==> r.reason == "ok" && AllOkFor(r.nrcRows, reqs) && ItemsFromUsable(r.items, candidates))
            && (!r.feasible ==> r.reason == "no feasible solution" && r.items == [])
  {
    var foods := SafeFoods(candidates);
    var settled := Settle(foods, reqs, seed, fuel);
    if settled.1 {
      ReportAllOk(reqs, TotalsMap(settled.0, Nutrients(foods)));
      ItemsFromCandidates(candidates, settled.0, round);
    }
  }
}
