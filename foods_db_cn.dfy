/** foods_db.py, the Chinese-query side: `expand_query` (intent rules and
    the seed alias map) and `search_foods_cn`, which merges alias hits
    (tier 0) with the token-search hits of every expansion (tier 1) and
    ranks them. The seed map that `_load_seed_alias_map` reads from a CSV
    file is passed in already parsed. */
module FoodsDbCn {
  import opened Wrappers
  import opened Text
  import opened Sequences
  import opened FoodsDb

  // ---------------------------------------------------------------------
  // Query expansion

  /** The English terms the intent rules add; the rules are tried on the
      query as given, in the order 鸡胸肉, 鸡肉, 鸡蛋, and only the first
      that applies adds terms. */
  function IntentTerms(query: string): seq<string> {
    if Contains(query, "鸡胸肉") then ["chicken breast", "chicken", "breast"]
    else if Contains(query, "鸡肉") then ["chicken", "chicken drumstick", "chicken breast"]
    else if Contains(query, "鸡蛋") then ["egg", "eggs"]
    else []
  }

  /** The seed-map terms for an exact normalised query (`seed_map.get`). */
  function SeedTerms(seed: map<string, seq<string>>, normalized: string): seq<string> {
    if normalized in seed then seed[normalized] else []
  }

  /** The list `expand_query` builds before removing duplicates. */
  function Candidates(query: string, seed: map<string, seq<string>>): seq<string> {
    var normalized := Lower(Strip(query));
    [normalized] + IntentTerms(query) + SeedTerms(seed, normalized)
  }

  /** The non-empty items of `xs`, each kept at its first occurrence. */
  function Dedup(xs: seq<string>): (r: seq<string>)
    ensures forall i, j :: 0 <= i < j < |r| ==> r[i] != r[j]
    ensures forall x :: x in r <==> x in xs && x != []
  {
    if xs == [] then []
    else
      var d := Dedup(xs[..|xs| - 1]);
      var x := xs[|xs| - 1];
      assert xs == xs[..|xs| - 1] + [x];
      if x != [] && x !in d then d + [x] else d
  }

  /** Removing duplicates from a longer list only appends to the result
      for its prefix: first-seen order is kept. */
  lemma {:induction false} DedupPrefix(xs: seq<string>, ys: seq<string>)
    ensures Dedup(xs) <= Dedup(xs + ys)
    decreases |ys|
  {
    if ys != [] {
      var init := ys[..|ys| - 1];
      DedupPrefix(xs, init);
      assert (xs + ys)[..|xs + ys| - 1] == xs + init;
    } else {
      assert xs + ys == xs;
    }
  }

  /** What `expand_query` returns. */
  function Expanded(query: string, seed: map<string, seq<string>>): seq<string> {
    Dedup(Candidates(query, seed))
  }

  /** `expand_query`: the normalised query, then the intent terms, then the
      seed terms, with empty strings and repeats removed. */
  method ExpandQuery(query: string, seed: map<string, seq<string>>) returns (deduped: seq<string>)
    ensures deduped == Expanded(query, seed)
  {
    var expanded := Candidates(query, seed);
    var seen: set<string> := {};
    deduped := [];
    for i := 0 to |expanded|
      invariant deduped == Dedup(expanded[..i])
      invariant forall x :: x in seen <==> x in deduped
    {
      var item := expanded[i];
      assert expanded[..i + 1][..i] == expanded[..i];
      if item != [] && item !in seen {
        seen := seen + {item};
        deduped := deduped + [item];
      }
    }
    assert expanded[..|expanded|] == expanded;
  }

  /** The expansion holds no empty string and no repeat, and holds exactly
      the non-empty candidates: the normalised query, the intent terms and
      the seed terms. */
  lemma ExpandedMembers(query: string, seed: map<string, seq<string>>, x: string)
    ensures var r := Expanded(query, seed);
            forall i, j :: 0 <= i < j < |r| ==> r[i] != r[j]
    ensures x in Expanded(query, seed) <==>
              x != [] && (x == Lower(Strip(query)) || x in IntentTerms(query)
                          || x in SeedTerms(seed, Lower(Strip(query))))
  {
  }

  /** A non-blank query comes first, and the intent terms come before any
      seed term: the expansion of the query and the intent terms alone is
      a prefix of the full expansion. */
  lemma ExpandedOrder(query: string, seed: map<string, seq<string>>)
    ensures var normalized := Lower(Strip(query));
            && Dedup([normalized] + IntentTerms(query)) <= Expanded(query, seed)
            && (normalized != [] ==> Expanded(query, seed)[0] == normalized)
  {
    var normalized := Lower(Strip(query));
    DedupPrefix([normalized] + IntentTerms(query), SeedTerms(seed, normalized));
    DedupPrefix([normalized], IntentTerms(query) + SeedTerms(seed, normalized));
    assert [normalized] + IntentTerms(query) + SeedTerms(seed, normalized)
        == [normalized] + (IntentTerms(query) + SeedTerms(seed, normalized));
    if normalized != [] {
      assert [normalized][..0] == [];
      assert Dedup([normalized]) == [normalized];
    }
  }

  lemma {:induction false} DedupOfDistinct(xs: seq<string>)
    requires forall i, j :: 0 <= i < j < |xs| ==> xs[i] != xs[j]
    requires forall i :: 0 <= i < |xs| ==> xs[i] != []
    ensures Dedup(xs) == xs
    decreases |xs|
  {
    if xs != [] {
      var init := xs[..|xs| - 1];
      DedupOfDistinct(init);
      assert xs[|xs| - 1] !in init;
    }
  }

  /** "鸡胸肉" with no seed entry expands to itself and the three chicken
      breast terms. */
  lemma ChickenBreastExpansion()
    ensures Expanded("鸡胸肉", map[]) == ["鸡胸肉", "chicken breast", "chicken", "breast"]
  {
    var q := "鸡胸肉";
    assert TrimStart(q) == q && TrimEnd(q) == q && Lower(q) == q;
    ContainsAt(q, q, 0);
    var c := Candidates(q, map[]);
    assert c == ["鸡胸肉", "chicken breast", "chicken", "breast"];
    DedupOfDistinct(c);
  }

  /** A query that names both chicken meat and egg gets only the chicken
      terms: the 鸡肉 rule comes before the 鸡蛋 rule. */
  lemma IntentPrecedence()
    ensures IntentTerms("鸡肉和鸡蛋") == ["chicken", "chicken drumstick", "chicken breast"]
  {
    var q := "鸡肉和鸡蛋";
    if Contains(q, "鸡胸肉") {
      ContainsChar(q, "鸡胸肉", 1);
    }
    ContainsAt(q, "鸡肉", 0);
  }

  // ---------------------------------------------------------------------
  // Merging and ranking

  /** A value of the `merged` dictionary: the tier a food was first found
      at (0 by alias, 1 by token search) and its record. */
  datatype Ranked = Ranked(tier: int, food: FoodRecord)

  predicate HasId(merged: seq<Ranked>, id: int) {
    exists i :: 0 <= i < |merged| && merged[i].food.id == id
  }

  /** The dictionary's keys are food ids, so no id is held twice. */
  predicate DistinctIds(merged: seq<Ranked>) {
    forall i, j :: 0 <= i < j < |merged| ==> merged[i].food.id != merged[j].food.id
  }

  /** `merged.setdefault(record.id, (tier, record))`, with the dictionary
      as its values in insertion order: a new id is appended, a known one
      leaves the dictionary as it is. */
  function SetDefault(merged: seq<Ranked>, rec: FoodRecord, tier: int): (r: seq<Ranked>)
    ensures merged <= r && |r| <= |merged| + 1
    ensures HasId(r, rec.id)
    ensures |r| == |merged| + 1 <==> !HasId(merged, rec.id)
    ensures |r| == |merged| + 1 ==> r[|merged|] == Ranked(tier, rec)
    ensures DistinctIds(merged) ==> DistinctIds(r)
  {
    if HasId(merged, rec.id) then merged
    else
      var r := merged + [Ranked(tier, rec)];
      assert r[|merged|].food.id == rec.id;
      r
  }

  /** `setdefault` for every record of one search, in order. */
  function SetDefaultAll(merged: seq<Ranked>, recs: seq<FoodRecord>, tier: int): (r: seq<Ranked>)
    ensures merged <= r
    ensures forall i :: 0 <= i < |recs| ==> HasId(r, recs[i].id)
    ensures forall i :: |merged| <= i < |r| ==> r[i].tier == tier && r[i].food in recs
    ensures DistinctIds(merged) ==> DistinctIds(r)
  {
    if recs == [] then merged
    else
      var init := recs[..|recs| - 1];
      var m := SetDefaultAll(merged, init, tier);
      var r := SetDefault(m, recs[|recs| - 1], tier);
      forall i | 0 <= i < |init|
        ensures HasId(r, recs[i].id)
      {
        assert init[i] == recs[i];
        var k :| 0 <= k < |m| && m[k].food.id == recs[i].id;
        assert r[k] == m[k];
      }
      forall i | |merged| <= i < |r|
        ensures r[i].tier == tier && r[i].food in recs
      {
        if i < |m| {
          assert r[i] == m[i] && m[i].food in init;
        }
      }
      r
  }

  /** Every food that the search for one of `terms` returns has an entry
      in `m`. */
  ghost predicate HitsKept(m: seq<Ranked>, foods: seq<FoodRecord>, terms: seq<string>, limit: int) {
    forall t, x :: t in terms && SearchFoods(foods, t, limit).Success? && x in SearchFoods(foods, t, limit).value
      ==> HasId(m, x.id)
  }

  /** The tier-1 pass: `search_foods` for each expansion term in turn,
      merged with `setdefault`; the first search raises when the limit is
      not positive. */
  function MergeTerms(merged: seq<Ranked>, foods: seq<FoodRecord>, terms: seq<string>, limit: int)
    : (r: Result<seq<Ranked>, string>)
    ensures r.Failure? <==> terms != [] && limit <= 0
    ensures r.Success? ==> merged <= r.value && (DistinctIds(merged) ==> DistinctIds(r.value))
    ensures r.Success? ==> forall i :: |merged| <= i < |r.value| ==>
              r.value[i].tier == 1 && r.value[i].food in foods && !IsToxicFoodName(r.value[i].food.name)
    ensures r.Success? ==> HitsKept(r.value, foods, terms, limit)
  {
    if terms == [] then Success(merged)
    else
      match MergeTerms(merged, foods, terms[..|terms| - 1], limit)
      case Failure(e) => Failure(e)
      case Success(m) =>
        match SearchFoods(foods, terms[|terms| - 1], limit)
        case Failure(e) => Failure(e)
        case Success(recs) =>
          var r := SetDefaultAll(m, recs, 1);
          assert forall i :: |m| <= i < |r| ==> r[i].food in recs;
          HitsKeptStep(m, r, foods, terms, limit);
          Success(r)
  }

  /** Merging in the last term's hits keeps the earlier terms' hits and
      adds its own. */
  lemma HitsKeptStep(m: seq<Ranked>, r: seq<Ranked>, foods: seq<FoodRecord>, terms: seq<string>, limit: int)
    requires terms != [] && SearchFoods(foods, terms[|terms| - 1], limit).Success?
    requires HitsKept(m, foods, terms[..|terms| - 1], limit) && m <= r
    requires var recs := SearchFoods(foods, terms[|terms| - 1], limit).value;
             forall i :: 0 <= i < |recs| ==> HasId(r, recs[i].id)
    ensures HitsKept(r, foods, terms, limit)
  {
    forall t, x | t in terms && SearchFoods(foods, t, limit).Success? && x in SearchFoods(foods, t, limit).value
      ensures HasId(r, x.id)
    {
      if t in terms[..|terms| - 1] {
        var k :| 0 <= k < |m| && m[k].food.id == x.id;
        assert r[k] == m[k];
      } else {
        assert t == terms[|terms| - 1];
        var recs := SearchFoods(foods, t, limit).value;
        var i :| 0 <= i < |recs| && recs[i] == x;
      }
    }
  }

  /** `"chicken" not in name.lower()`: false sorts first. */
  predicate NoChicken(e: Ranked) {
    !Contains(Lower(e.food.name), "chicken")
  }

  /** The ranking key: tier, then (when `chickenFirst`) names containing
      "chicken" first, then the lower-cased name in code-point order. */
  predicate RankLe(chickenFirst: bool, p: Ranked, q: Ranked) {
    || p.tier < q.tier
    || (p.tier == q.tier &&
        if chickenFirst && NoChicken(p) != NoChicken(q) then !NoChicken(p)
        else LexLe(Lower(p.food.name), Lower(q.food.name)))
  }

  lemma RankOrder(chickenFirst: bool)
    ensures Total((p: Ranked, q: Ranked) => RankLe(chickenFirst, p, q))
    ensures Transitive((p: Ranked, q: Ranked) => RankLe(chickenFirst, p, q))
  {
    forall p: Ranked, q: Ranked
      ensures RankLe(chickenFirst, p, q) || RankLe(chickenFirst, q, p)
    {
      LexLeTotal(Lower(p.food.name), Lower(q.food.name));
    }
    forall p: Ranked, q: Ranked, s: Ranked | RankLe(chickenFirst, p, q) && RankLe(chickenFirst, q, s)
      ensures RankLe(chickenFirst, p, s)
    {
      var a, b, c := Lower(p.food.name), Lower(q.food.name), Lower(s.food.name);
      if LexLe(a, b) && LexLe(b, c) {
        LexLeTransitive(a, b, c);
      }
    }
  }

  /** `ranked.sort(key=…)`: stable, by the ranking key. */
  function Rank(merged: seq<Ranked>, chickenFirst: bool): (r: seq<Ranked>)
    ensures Sorted(r, (p: Ranked, q: Ranked) => RankLe(chickenFirst, p, q))
    ensures multiset(r) == multiset(merged)
  {
    RankOrder(chickenFirst);
    SortBy(merged, (p: Ranked, q: Ranked) => RankLe(chickenFirst, p, q))
  }

  /** The chicken rule applies when the stripped query contains 鸡胸 or 鸡肉. */
  predicate ChickenFirst(query: string) {
    Contains(Strip(query), "鸡胸") || Contains(Strip(query), "鸡肉")
  }

  /** The merged dictionary of `search_foods_cn`, sorted by the ranking
      key (Python's sort is stable, as `SortBy` is). */
  function Ranking(foods: seq<FoodRecord>, aliases: seq<AliasRow>, query: string,
                   seed: map<string, seq<string>>, limit: int): (r: Result<seq<Ranked>, string>)
    ensures r.Failure? <==> limit <= 0 && Expanded(query, seed) != []
    ensures r.Success? ==> Sorted(r.value, (p: Ranked, q: Ranked) => RankLe(ChickenFirst(query), p, q))
  {
    var byAlias := SearchFoodsByAlias(foods, aliases, query, "zh", limit);
    var first := SetDefaultAll([], byAlias, 0);
    var merged :- MergeTerms(first, foods, Expanded(query, seed), limit);
    Success(Rank(merged, ChickenFirst(query)))
  }

  /** The records of the first `limit` ranked entries (a Python slice). */
  function Finish(ranked: seq<Ranked>, limit: int): (r: seq<FoodRecord>)
    ensures 0 <= limit ==> |r| == if limit < |ranked| then limit else |ranked|
    ensures limit < 0 ==> |r| == if |ranked| + limit < 0 then 0 else |ranked| + limit
    ensures forall i :: 0 <= i < |r| ==> r[i] == ranked[i].food
  {
    var kept := SliceTo(ranked, limit);
    seq(|kept|, i requires 0 <= i < |kept| => kept[i].food)
  }

  /** What `search_foods_cn` returns. */
  function SearchFoodsCnSpec(foods: seq<FoodRecord>, aliases: seq<AliasRow>, query: string,
                             seed: map<string, seq<string>>, limit: int): Result<seq<FoodRecord>, string>
  {
    var ranked :- Ranking(foods, aliases, query, seed, limit);
    Success(Finish(ranked, limit))
  }

  /** `SearchFoodsCnSpec` in the steps the method takes. */
  lemma CnSpecSteps(foods: seq<FoodRecord>, aliases: seq<AliasRow>, query: string,
                    seed: map<string, seq<string>>, limit: int)
    ensures var first := SetDefaultAll([], SearchFoodsByAlias(foods, aliases, query, "zh", limit), 0);
            SearchFoodsCnSpec(foods, aliases, query, seed, limit)
            == match MergeTerms(first, foods, Expanded(query, seed), limit)
               case Failure(e) => Failure(e)
               case Success(m) => Success(Finish(Rank(m, ChickenFirst(query)), limit))
  {
  }

  /** The `setdefault` loop over the records of one search. */
  method MergeRecords(merged: seq<Ranked>, recs: seq<FoodRecord>, tier: int) returns (m: seq<Ranked>)
    ensures m == SetDefaultAll(merged, recs, tier)
  {
    m := merged;
    for k := 0 to |recs|
      invariant m == SetDefaultAll(merged, recs[..k], tier)
    {
      assert recs[..k + 1][..k] == recs[..k];
      m := SetDefault(m, recs[k], tier);
    }
    assert recs[..|recs|] == recs;
  }

  /** The loop of `search_foods_cn` over the expanded terms: each term's
      search is merged in at tier 1, and a search that raises ends it. */
  method MergeAllTerms(first: seq<Ranked>, foods: seq<FoodRecord>, terms: seq<string>, limit: int)
    returns (res: Result<seq<Ranked>, string>)
    ensures res == MergeTerms(first, foods, terms, limit)
  {
    var merged := first;
    for j := 0 to |terms|
      invariant MergeTerms(first, foods, terms[..j], limit) == Success(merged)
    {
      var found := SearchFoods(foods, terms[j], limit);
      MergeTermsStep(first, foods, terms, limit, j, merged);
      if found.Failure? {
        MergeFailureSticks(first, foods, terms, limit, j + 1);
        return Failure(found.error);
      }
      merged := MergeRecords(merged, found.value, 1);
    }
    assert terms[..|terms|] == terms;
    return Success(merged);
  }

  /** `search_foods_cn`, step by step as the source does it. */
  method SearchFoodsCn(foods: seq<FoodRecord>, aliases: seq<AliasRow>, query: string,
                       seed: map<string, seq<string>>, limit: int := 20)
    returns (r: Result<seq<FoodRecord>, string>)
    ensures r == SearchFoodsCnSpec(foods, aliases, query, seed, limit)
  {
    var byAlias := SearchFoodsByAlias(foods, aliases, query, "zh", limit);
    var first := MergeRecords([], byAlias, 0);
    var terms := ExpandQuery(query, seed);
    var merged := MergeAllTerms(first, foods, terms, limit);
    CnSpecSteps(foods, aliases, query, seed, limit);
    if merged.Failure? {
      return Failure(merged.error);
    }
    var chickenFirst := ChickenFirst(query);
    var ranked := Rank(merged.value, chickenFirst);
    r := Success(Finish(ranked, limit));
  }

  /** One more term: its search either raises or is merged in. */
  lemma MergeTermsStep(merged: seq<Ranked>, foods: seq<FoodRecord>, terms: seq<string>, limit: int,
                       j: nat, m: seq<Ranked>)
    requires j < |terms| && MergeTerms(merged, foods, terms[..j], limit) == Success(m)
    ensures var found := SearchFoods(foods, terms[j], limit);
            MergeTerms(merged, foods, terms[..j + 1], limit)
            == if found.Failure? then Failure(found.error) else Success(SetDefaultAll(m, found.value, 1))
  {
    assert terms[..j + 1][..j] == terms[..j];
  }

  /** Once a search has raised, so has every longer run of searches. */
  lemma {:induction false} MergeFailureSticks(merged: seq<Ranked>, foods: seq<FoodRecord>, terms: seq<string>,
                                             limit: int, j: nat)
    requires 0 < j <= |terms| && MergeTerms(merged, foods, terms[..j], limit).Failure?
    ensures MergeTerms(merged, foods, terms, limit) == MergeTerms(merged, foods, terms[..j], limit)
    decreases |terms|
  {
    if j < |terms| {
      MergeFailureSticks(merged, foods, terms[..|terms| - 1], limit, j);
      assert terms[..|terms| - 1][..j] == terms[..j];
    } else {
      assert terms[..j] == terms;
    }
  }

  /** Every entry is a safe food from the table. */
  ghost predicate SafeEntries(m: seq<Ranked>, foods: seq<FoodRecord>) {
    forall i :: 0 <= i < |m| ==> m[i].food in foods && !IsToxicFoodName(m[i].food.name)
  }

  /** Every food of `hits` has an entry at tier 0. */
  ghost predicate TierZeroFor(m: seq<Ranked>, hits: seq<FoodRecord>) {
    forall f :: f in hits ==> exists e :: e in m && e.food.id == f.id && e.tier == 0
  }

  /** Every entry is at tier 0 when the alias search found its food and at
      tier 1 otherwise. */
  ghost predicate TiersFor(m: seq<Ranked>, byAlias: seq<FoodRecord>) {
    forall e :: e in m ==>
      && (e.tier == 0 || e.tier == 1)
      && (e.tier == 0 <==> exists f :: f in byAlias && f.id == e.food.id)
  }

  lemma MergedFacts(foods: seq<FoodRecord>, byAlias: seq<FoodRecord>, terms: seq<string>, limit: int)
    requires forall f :: f in byAlias ==> f in foods && !IsToxicFoodName(f.name)
    ensures var merged := MergeTerms(SetDefaultAll([], byAlias, 0), foods, terms, limit);
            merged.Success? ==>
              DistinctIds(merged.value) && SafeEntries(merged.value, foods) && TierZeroFor(merged.value, byAlias)
  {
    var first := SetDefaultAll([], byAlias, 0);
    var merged := MergeTerms(first, foods, terms, limit);
    if merged.Success? {
      var m := merged.value;
      forall i | 0 <= i < |m|
        ensures m[i].food in foods && !IsToxicFoodName(m[i].food.name)
      {
        if i < |first| {
          assert m[i] == first[i] && first[i].food in byAlias;
        }
      }
      forall f | f in byAlias
        ensures exists e :: e in m && e.food.id == f.id && e.tier == 0
      {
        var i :| 0 <= i < |byAlias| && byAlias[i] == f;
        var k :| 0 <= k < |first| && first[k].food.id == f.id;
        assert m[k] == first[k] && first[k].tier == 0;
      }
    }
  }

  /** The alias hits come first, at tier 0, and since ids are not repeated
      every later entry, at tier 1, is for a food the alias search did not
      find. */
  lemma MergedTiers(first: seq<Ranked>, m: seq<Ranked>, byAlias: seq<FoodRecord>)
    requires first <= m && DistinctIds(m)
    requires forall i :: 0 <= i < |byAlias| ==> HasId(first, byAlias[i].id)
    requires forall i :: 0 <= i < |first| ==> first[i].tier == 0 && first[i].food in byAlias
    requires forall i :: |first| <= i < |m| ==> m[i].tier == 1
    ensures TiersFor(m, byAlias)
  {
    forall e | e in m
      ensures (e.tier == 0 || e.tier == 1) && (e.tier == 0 <==> exists f :: f in byAlias && f.id == e.food.id)
    {
      var i :| 0 <= i < |m| && m[i] == e;
      if i < |first| {
        assert m[i] == first[i] && first[i].food in byAlias;
      } else {
        forall f | f in byAlias
          ensures f.id != e.food.id
        {
          var a :| 0 <= a < |byAlias| && byAlias[a] == f;
          assert HasId(first, byAlias[a].id);
        }
      }
    }
  }

  /** A permutation holds the same ids. */
  lemma PermutationKeepsIds(m: seq<Ranked>, r: seq<Ranked>, id: int)
    requires multiset(m) == multiset(r) && HasId(m, id)
    ensures HasId(r, id)
  {
    var k :| 0 <= k < |m| && m[k].food.id == id;
    assert m[k] in multiset(r);
    var j :| 0 <= j < |r| && r[j] == m[k];
  }

  lemma RankFacts(m: seq<Ranked>, chickenFirst: bool, foods: seq<FoodRecord>, byAlias: seq<FoodRecord>)
    requires DistinctIds(m) && SafeEntries(m, foods) && TierZeroFor(m, byAlias)
    ensures var r := Rank(m, chickenFirst);
            DistinctIds(r) && SafeEntries(r, foods) && TierZeroFor(r, byAlias)
  {
    var r := Rank(m, chickenFirst);
    PermutationKeepsKeysDistinct(m, r, (e: Ranked) => e.food.id);
    forall i | 0 <= i < |r|
      ensures r[i].food in foods && !IsToxicFoodName(r[i].food.name)
    {
      assert r[i] in multiset(m);
    }
    forall f | f in byAlias
      ensures exists e :: e in r && e.food.id == f.id && e.tier == 0
    {
      var e :| e in m && e.food.id == f.id && e.tier == 0;
      assert e in multiset(r);
    }
  }

  /** Sorting moves entries but keeps each one's tier and each term's hits. */
  lemma PermutationKeepsTiersAndHits(m: seq<Ranked>, r: seq<Ranked>, byAlias: seq<FoodRecord>,
                                     foods: seq<FoodRecord>, terms: seq<string>, limit: int)
    requires multiset(m) == multiset(r)
    requires TiersFor(m, byAlias) && HitsKept(m, foods, terms, limit)
    ensures TiersFor(r, byAlias) && HitsKept(r, foods, terms, limit)
  {
    forall e | e in r
      ensures (e.tier == 0 || e.tier == 1) && (e.tier == 0 <==> exists f :: f in byAlias && f.id == e.food.id)
    {
      assert e in multiset(m);
    }
    forall t, x | t in terms && SearchFoods(foods, t, limit).Success? && x in SearchFoods(foods, t, limit).value
      ensures HasId(r, x.id)
    {
      PermutationKeepsIds(m, r, x.id);
    }
  }

  /** The ranking holds each food id once, only safe foods from the table,
      an entry for every food that the alias search or the search for an
      expansion term found, at tier 0 exactly when the alias search found
      it and at tier 1 otherwise. */
  lemma RankingProperties(foods: seq<FoodRecord>, aliases: seq<AliasRow>, query: string,
                          seed: map<string, seq<string>>, limit: int)
    ensures var r := Ranking(foods, aliases, query, seed, limit);
            var byAlias := SearchFoodsByAlias(foods, aliases, query, "zh", limit);
            r.Success? ==>
              && DistinctIds(r.value)
              && SafeEntries(r.value, foods)
              && TierZeroFor(r.value, byAlias)
              && TiersFor(r.value, byAlias)
              && HitsKept(r.value, foods, Expanded(query, seed), limit)
  {
    var byAlias := SearchFoodsByAlias(foods, aliases, query, "zh", limit);
    var first := SetDefaultAll([], byAlias, 0);
    var merged := MergeTerms(first, foods, Expanded(query, seed), limit);
    MergedFacts(foods, byAlias, Expanded(query, seed), limit);
    if merged.Success? {
      MergedTiers(first, merged.value, byAlias);
      RankFacts(merged.value, ChickenFirst(query), foods, byAlias);
      PermutationKeepsTiersAndHits(merged.value, Rank(merged.value, ChickenFirst(query)), byAlias,
                                   foods, Expanded(query, seed), limit);
    }
  }

  /** `search_foods_cn` raises exactly when the limit is not positive and
      there is a term to search; otherwise it returns at most `limit`
      safe foods from the table, each id once. */
  lemma SearchFoodsCnProperties(foods: seq<FoodRecord>, aliases: seq<AliasRow>, query: string,
                                seed: map<string, seq<string>>, limit: int)
    ensures var r := SearchFoodsCnSpec(foods, aliases, query, seed, limit);
            && (r.Failure? <==> limit <= 0 && Expanded(query, seed) != [])
            && (r.Success? ==>
                  && (0 <= limit ==> |r.value| <= limit)
                  && (forall i, j :: 0 <= i < j < |r.value| ==> r.value[i].id != r.value[j].id)
                  && (forall x :: x in r.value ==> x in foods && !IsToxicFoodName(x.name)))
  {
    var ranking := Ranking(foods, aliases, query, seed, limit);
    RankingProperties(foods, aliases, query, seed, limit);
    if ranking.Success? {
      var r := Finish(ranking.value, limit);
      forall x | x in r
        ensures x in foods && !IsToxicFoodName(x.name)
      {
        var i :| 0 <= i < |r| && r[i] == x;
        assert r[i] == ranking.value[i].food;
      }
    }
  }

  /** The foods `search_foods_cn` returns are those of the first `limit`
      entries of the ranking, in ranking order. */
  lemma SearchFoodsCnOrder(foods: seq<FoodRecord>, aliases: seq<AliasRow>, query: string,
                           seed: map<string, seq<string>>, limit: int)
    ensures var r := SearchFoodsCnSpec(foods, aliases, query, seed, limit);
            var ranking := Ranking(foods, aliases, query, seed, limit);
            r.Success? ==>
              && ranking.Success?
              && Sorted(ranking.value, (p: Ranked, q: Ranked) => RankLe(ChickenFirst(query), p, q))
              && (0 <= limit ==> |r.value| == if limit < |ranking.value| then limit else |ranking.value|)
              && (forall i :: 0 <= i < |r.value| ==> r.value[i] == ranking.value[i].food)
  {
  }

  /** `r` holds a food with the given id. */
  predicate Returns(r: seq<FoodRecord>, id: int) {
    exists i :: 0 <= i < |r| && r[i].id == id
  }

  /** Every food of `hits` is in `r`. */
  ghost predicate ReturnsAll(r: seq<FoodRecord>, hits: seq<FoodRecord>) {
    forall x :: x in hits ==> Returns(r, x.id)
  }

  /** Every food that the search for one of `terms` returns is in `r`. */
  ghost predicate ReturnsHits(r: seq<FoodRecord>, foods: seq<FoodRecord>, terms: seq<string>, limit: int) {
    forall t, x :: t in terms && SearchFoods(foods, t, limit).Success? && x in SearchFoods(foods, t, limit).value
      ==> Returns(r, x.id)
  }

  /** When the ranking fits within the limit, `search_foods_cn` returns
      every food that the alias search or a term search found. */
  lemma SearchFoodsCnComplete(foods: seq<FoodRecord>, aliases: seq<AliasRow>, query: string,
                              seed: map<string, seq<string>>, limit: int)
    ensures var r := SearchFoodsCnSpec(foods, aliases, query, seed, limit);
            var ranking := Ranking(foods, aliases, query, seed, limit);
            r.Success? && 0 <= limit && |ranking.value| <= limit ==>
              && ReturnsAll(r.value, SearchFoodsByAlias(foods, aliases, query, "zh", limit))
              && ReturnsHits(r.value, foods, Expanded(query, seed), limit)
  {
    var ranking := Ranking(foods, aliases, query, seed, limit);
    RankingProperties(foods, aliases, query, seed, limit);
    if ranking.Success? && 0 <= limit && |ranking.value| <= limit {
      FinishComplete(ranking.value, limit, SearchFoodsByAlias(foods, aliases, query, "zh", limit),
                     foods, Expanded(query, seed));
    }
  }

  /** A ranking that fits within the limit keeps every alias hit and every
      term hit. */
  lemma FinishComplete(ranked: seq<Ranked>, limit: int, byAlias: seq<FoodRecord>,
                       foods: seq<FoodRecord>, terms: seq<string>)
    requires 0 <= limit && |ranked| <= limit
    requires TierZeroFor(ranked, byAlias) && HitsKept(ranked, foods, terms, limit)
    ensures ReturnsAll(Finish(ranked, limit), byAlias)
    ensures ReturnsHits(Finish(ranked, limit), foods, terms, limit)
  {
    var r := Finish(ranked, limit);
    forall x | x in byAlias
      ensures Returns(r, x.id)
    {
      var e :| e in ranked && e.food.id == x.id && e.tier == 0;
      var k :| 0 <= k < |ranked| && ranked[k] == e;
      FinishKeepsIds(ranked, limit, x.id);
    }
    forall t, x | t in terms && SearchFoods(foods, t, limit).Success? && x in SearchFoods(foods, t, limit).value
      ensures Returns(r, x.id)
    {
      FinishKeepsIds(ranked, limit, x.id);
    }
  }

  /** A ranking that fits within the limit is returned whole. */
  lemma FinishKeepsIds(ranked: seq<Ranked>, limit: int, id: int)
    requires 0 <= limit && |ranked| <= limit && HasId(ranked, id)
    ensures Returns(Finish(ranked, limit), id)
  {
    var k :| 0 <= k < |ranked| && ranked[k].food.id == id;
    assert Finish(ranked, limit)[k] == ranked[k].food;
  }
}
