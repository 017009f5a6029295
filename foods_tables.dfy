/** foods_db.py, the table side: `upsert_food`, `add_food_alias`,
    `delete_food_alias` and `get_food_aliases`, with the `foods` and
    `food_aliases` tables held in memory as sequences of rows. The
    `AUTOINCREMENT` ids are drawn from a counter per table. */
module FoodTables {
  import opened Wrappers
  import opened Text
  import opened Sequences
  import opened FoodsDb

  // ---------------------------------------------------------------------
  // The foods table

  /** What the schema and `upsert_food` keep true of `foods`: ids are
      positive, below the next id and increasing in insertion order, every
      row has a name and non-negative energy, and `UNIQUE(source, fdc_id)`
      holds for the rows with an fdc id (SQL `NULL`s never clash). */
  ghost predicate FoodsWellFormed(foods: seq<FoodRecord>, nextId: int) {
    && 1 <= nextId
    && (forall i :: 0 <= i < |foods| ==> 1 <= foods[i].id < nextId)
    && (forall i, j :: 0 <= i < j < |foods| ==> foods[i].id < foods[j].id)
    && (forall i :: 0 <= i < |foods| ==> foods[i].name != [] && foods[i].kcalPer100g >= 0.0)
    && (forall i, j :: 0 <= i < j < |foods| && foods[i].fdcId.Some? ==>
          !(foods[i].source == foods[j].source && foods[i].fdcId == foods[j].fdcId))
  }

  /** The row `ON CONFLICT(source, fdc_id)` lands on, if any. */
  function FindFdc(foods: seq<FoodRecord>, source: string, fdc: int): (r: Option<nat>)
    ensures r.Some? ==> r.value < |foods| && foods[r.value].source == source && foods[r.value].fdcId == Some(fdc)
    ensures r.Some? ==> forall i :: 0 <= i < r.value ==> !(foods[i].source == source && foods[i].fdcId == Some(fdc))
    ensures r.None? ==> forall i :: 0 <= i < |foods| ==> !(foods[i].source == source && foods[i].fdcId == Some(fdc))
  {
    if foods == [] then None
    else if foods[0].source == source && foods[0].fdcId == Some(fdc) then Some(0)
    else
      match FindFdc(foods[1..], source, fdc)
      case None => None
      case Some(i) => Some(i + 1)
  }

  /** The table and id counter after `upsert_food` writes a validated row:
      without an fdc id a new row is appended; with one, the row holding
      the same (source, fdc id) gets the new name and energy and keeps its
      id, and a new row is appended only when there is none. */
  function Upsert(foods: seq<FoodRecord>, nextId: int, name: string, kcal: real, source: string, fdcId: Option<int>)
    : (r: (seq<FoodRecord>, int))
    ensures |foods| <= |r.0| <= |foods| + 1
    ensures exists i :: 0 <= i < |r.0| && r.0[i] == FoodRecord(r.0[i].id, name, kcal, source, fdcId)
    ensures forall i :: 0 <= i < |foods| ==>
              r.0[i].id == foods[i].id && r.0[i].source == foods[i].source && r.0[i].fdcId == foods[i].fdcId
    ensures |r.0| == |foods| + 1 ==> r.0[..|foods|] == foods
    ensures |r.0| == |foods| + 1 ==> r.0[|foods|] == FoodRecord(nextId, name, kcal, source, fdcId) && r.1 == nextId + 1
    ensures |r.0| == |foods| ==> r.1 == nextId
    ensures fdcId.None? ==> |r.0| == |foods| + 1
  {
    match fdcId
    case None =>
      var r := foods + [FoodRecord(nextId, name, kcal, source, None)];
      assert r[|foods|] == FoodRecord(r[|foods|].id, name, kcal, source, fdcId);
      (r, nextId + 1)
    case Some(fdc) =>
      match FindFdc(foods, source, fdc)
      case Some(i) =>
        var r := foods[i := foods[i].(name := name, kcalPer100g := kcal)];
        assert r[i] == FoodRecord(r[i].id, name, kcal, source, fdcId);
        (r, nextId)
      case None =>
        var r := foods + [FoodRecord(nextId, name, kcal, source, fdcId)];
        assert r[|foods|] == FoodRecord(r[|foods|].id, name, kcal, source, fdcId);
        (r, nextId + 1)
  }

  /** A row whose (source, fdc id) is already present is updated in
      place: no row is added and every id stays where it was. */
  lemma UpsertKeepsId(foods: seq<FoodRecord>, nextId: int, name: string, kcal: real, source: string, fdc: int, i: nat)
    requires FoodsWellFormed(foods, nextId)
    requires i < |foods| && foods[i].source == source && foods[i].fdcId == Some(fdc)
    ensures Upsert(foods, nextId, name, kcal, source, Some(fdc)).0
            == foods[i := FoodRecord(foods[i].id, name, kcal, source, Some(fdc))]
    ensures Upsert(foods, nextId, name, kcal, source, Some(fdc)).1 == nextId
  {
    var k := FindFdc(foods, source, fdc);
    assert k.Some?;
  }

  /** Upserting keeps the table well formed. */
  lemma UpsertWellFormed(foods: seq<FoodRecord>, nextId: int, name: string, kcal: real, source: string, fdcId: Option<int>)
    requires FoodsWellFormed(foods, nextId) && name != [] && kcal >= 0.0
    ensures FoodsWellFormed(Upsert(foods, nextId, name, kcal, source, fdcId).0, Upsert(foods, nextId, name, kcal, source, fdcId).1)
  {
    var r := Upsert(foods, nextId, name, kcal, source, fdcId);
    if fdcId.Some? && FindFdc(foods, source, fdcId.value).Some? {
      var i := FindFdc(foods, source, fdcId.value).value;
      assert r.0 == foods[i := foods[i].(name := name, kcalPer100g := kcal)];
    } else {
      assert r.0 == foods + [FoodRecord(nextId, name, kcal, source, fdcId)];
    }
  }

  /** With an fdc id, upserting the same row twice is upserting it once. */
  lemma UpsertIdempotent(foods: seq<FoodRecord>, nextId: int, name: string, kcal: real, source: string, fdc: int)
    requires FoodsWellFormed(foods, nextId) && name != [] && kcal >= 0.0
    ensures var once := Upsert(foods, nextId, name, kcal, source, Some(fdc));
            Upsert(once.0, once.1, name, kcal, source, Some(fdc)) == once
  {
    var once := Upsert(foods, nextId, name, kcal, source, Some(fdc));
    UpsertWellFormed(foods, nextId, name, kcal, source, Some(fdc));
    var i :| 0 <= i < |once.0| && once.0[i] == FoodRecord(once.0[i].id, name, kcal, source, Some(fdc));
    UpsertKeepsId(once.0, once.1, name, kcal, source, fdc, i);
    assert once.0[i := FoodRecord(once.0[i].id, name, kcal, source, Some(fdc))] == once.0;
  }

  // ---------------------------------------------------------------------
  // The food_aliases table

  /** The columns of `UNIQUE(lang, alias, food_id)`. */
  function AliasKey(a: AliasRow): (string, string, int) {
    (a.lang, a.alias, a.foodId)
  }

  /** Alias ids are positive, below the next id and increasing in
      insertion order, and no two rows share (lang, alias, food id). */
  ghost predicate AliasesWellFormed(aliases: seq<AliasRow>, nextId: int) {
    && 1 <= nextId
    && (forall i :: 0 <= i < |aliases| ==> 1 <= aliases[i].id < nextId)
    && (forall i, j :: 0 <= i < j < |aliases| ==> aliases[i].id < aliases[j].id)
    && (forall i, j :: 0 <= i < j < |aliases| ==> AliasKey(aliases[i]) != AliasKey(aliases[j]))
  }

  predicate HasAliasKey(aliases: seq<AliasRow>, key: (string, string, int)) {
    exists i :: 0 <= i < |aliases| && AliasKey(aliases[i]) == key
  }

  /** The table and id counter after `INSERT OR IGNORE` of a validated
      alias: the row is appended unless its key is already present. */
  function AddAlias(aliases: seq<AliasRow>, nextId: int, foodId: int, lang: string, alias: string)
    : (r: (seq<AliasRow>, int))
    ensures HasAliasKey(r.0, (lang, alias, foodId))
    ensures |aliases| <= |r.0| <= |aliases| + 1 && r.0[..|aliases|] == aliases
    ensures |r.0| == |aliases| <==> HasAliasKey(aliases, (lang, alias, foodId))
    ensures |r.0| == |aliases| + 1 ==> r.0[|aliases|] == AliasRow(nextId, foodId, lang, alias) && r.1 == nextId + 1
    ensures |r.0| == |aliases| ==> r.1 == nextId
  {
    if HasAliasKey(aliases, (lang, alias, foodId)) then (aliases, nextId)
    else
      var r := aliases + [AliasRow(nextId, foodId, lang, alias)];
      assert AliasKey(r[|aliases|]) == (lang, alias, foodId);
      (r, nextId + 1)
  }

  /** Adding an alias keeps the table well formed. */
  lemma AddAliasWellFormed(aliases: seq<AliasRow>, nextId: int, foodId: int, lang: string, alias: string)
    requires AliasesWellFormed(aliases, nextId)
    ensures AliasesWellFormed(AddAlias(aliases, nextId, foodId, lang, alias).0, AddAlias(aliases, nextId, foodId, lang, alias).1)
  {
  }

  /** Adding the same alias twice is adding it once. */
  lemma AddAliasIdempotent(aliases: seq<AliasRow>, nextId: int, foodId: int, lang: string, alias: string)
    ensures var once := AddAlias(aliases, nextId, foodId, lang, alias);
            AddAlias(once.0, once.1, foodId, lang, alias) == once
  {
  }

  /** The `food_aliases` table after `DELETE … WHERE id = aliasId`. */
  function RemoveAlias(aliases: seq<AliasRow>, aliasId: int): (r: seq<AliasRow>)
    ensures forall a :: a in r <==> a in aliases && a.id != aliasId
  {
    var r := Filter(aliases, (a: AliasRow) => a.id != aliasId);
    forall a | a in aliases && a.id != aliasId
      ensures a in r
    {
      var i :| 0 <= i < |aliases| && aliases[i] == a;
    }
    r
  }

  predicate IdLt(a: AliasRow, b: AliasRow) {
    a.id < b.id
  }

  /** Deleting an alias keeps the table well formed. */
  lemma RemoveAliasWellFormed(aliases: seq<AliasRow>, nextId: int, aliasId: int)
    requires AliasesWellFormed(aliases, nextId)
    ensures AliasesWellFormed(RemoveAlias(aliases, aliasId), nextId)
  {
    var r := RemoveAlias(aliases, aliasId);
    assert Transitive(IdLt);
    FilterSorted(aliases, (a: AliasRow) => a.id != aliasId, IdLt);
    forall i, j | 0 <= i < j < |r|
      ensures r[i].id < r[j].id && AliasKey(r[i]) != AliasKey(r[j])
    {
      SortedPairwise(r, IdLt, i, j);
      var p :| 0 <= p < |aliases| && aliases[p] == r[i];
      var q :| 0 <= q < |aliases| && aliases[q] == r[j];
      assert p != q;
    }
    forall i | 0 <= i < |r|
      ensures 1 <= r[i].id < nextId
    {
      var p :| 0 <= p < |aliases| && aliases[p] == r[i];
    }
  }

  /** The aliases `get_food_aliases` lists for a food and an already
      normalised language: those of the matching rows, sorted by code
      point. */
  function AliasesOf(aliases: seq<AliasRow>, foodId: int, lang: string): (r: seq<string>)
    ensures Sorted(r, LexLe)
    ensures forall s :: s in r <==> exists a :: a in aliases && a.foodId == foodId && a.lang == lang && a.alias == s
    ensures |r| == |Filter(aliases, (a: AliasRow) => a.foodId == foodId && a.lang == lang)|
  {
    var names := AliasNames(Filter(aliases, (a: AliasRow) => a.foodId == foodId && a.lang == lang));
    MatchingNames(aliases, foodId, lang);
    LexOrder();
    var r := SortBy(names, LexLe);
    SameMembers(r, names);
    r
  }

  /** The alias column of some rows. */
  function AliasNames(rows: seq<AliasRow>): (r: seq<string>)
    ensures |r| == |rows| && forall i :: 0 <= i < |rows| ==> r[i] == rows[i].alias
  {
    seq(|rows|, i requires 0 <= i < |rows| => rows[i].alias)
  }

  lemma MatchingNames(aliases: seq<AliasRow>, foodId: int, lang: string)
    ensures var names := AliasNames(Filter(aliases, (a: AliasRow) => a.foodId == foodId && a.lang == lang));
            forall s :: s in names <==> exists a :: a in aliases && a.foodId == foodId && a.lang == lang && a.alias == s
  {
    var rows := Filter(aliases, (a: AliasRow) => a.foodId == foodId && a.lang == lang);
    var names := AliasNames(rows);
    forall a | a in aliases && a.foodId == foodId && a.lang == lang
      ensures a.alias in names
    {
      var p :| 0 <= p < |aliases| && aliases[p] == a;
      var i :| 0 <= i < |rows| && rows[i] == a;
      assert names[i] == a.alias;
    }
  }

  /** The two tables of the food database. */
  class Tables {
    var foods: seq<FoodRecord>
    var aliases: seq<AliasRow>
    var nextFoodId: int
    var nextAliasId: int

    ghost predicate Valid()
      reads this
    {
      FoodsWellFormed(foods, nextFoodId) && AliasesWellFormed(aliases, nextAliasId)
    }

    /** Freshly created, empty tables (`init_db`). */
    constructor ()
      ensures Valid()
      ensures foods == [] && aliases == [] && nextFoodId == 1 && nextAliasId == 1
    {
      foods := [];
      aliases := [];
      nextFoodId := 1;
      nextAliasId := 1;
    }

    /** `upsert_food`: the name is stripped and must not be blank, the
        energy must not be negative (checked in that order); a failed call
        changes nothing. */
    method UpsertFood(name: string, kcalPer100g: real, source: string, fdcId: Option<int>) returns (r: Result<(), string>)
      requires Valid()
      modifies this
      ensures Valid()
      ensures r.Failure? <==> Strip(name) == [] || kcalPer100g < 0.0
      ensures Strip(name) == [] ==> r == Failure("Food name cannot be empty")
      ensures Strip(name) != [] && kcalPer100g < 0.0 ==> r == Failure("kcal_per_100g must be >= 0")
      ensures r.Failure? ==> foods == old(foods) && nextFoodId == old(nextFoodId)
      ensures r.Success? ==>
                (foods, nextFoodId) == Upsert(old(foods), old(nextFoodId), Strip(name), kcalPer100g, source, fdcId)
      ensures aliases == old(aliases) && nextAliasId == old(nextAliasId)
    {
      var normalizedName := Strip(name);
      if normalizedName == [] {
        return Failure("Food name cannot be empty");
      }
      if kcalPer100g < 0.0 {
        return Failure("kcal_per_100g must be >= 0");
      }
      UpsertWellFormed(foods, nextFoodId, normalizedName, kcalPer100g, source, fdcId);
      foods, nextFoodId := Upsert(foods, nextFoodId, normalizedName, kcalPer100g, source, fdcId).0,
                           Upsert(foods, nextFoodId, normalizedName, kcalPer100g, source, fdcId).1;
      return Success(());
    }

    /** `add_food_alias`: the alias is stripped, the language stripped and
        lower-cased, and neither may be blank (alias checked first). The
        food id is not checked against `foods`: SQLite leaves foreign keys
        unenforced unless asked. */
    method AddFoodAlias(foodId: int, lang: string, alias: string) returns (r: Result<(), string>)
      requires Valid()
      modifies this
      ensures Valid()
      ensures r.Failure? <==> Strip(alias) == [] || Lower(Strip(lang)) == []
      ensures Strip(alias) == [] ==> r == Failure("alias cannot be empty")
      ensures Strip(alias) != [] && Lower(Strip(lang)) == [] ==> r == Failure("lang cannot be empty")
      ensures r.Failure? ==> aliases == old(aliases) && nextAliasId == old(nextAliasId)
      ensures r.Success? ==>
                (aliases, nextAliasId) == AddAlias(old(aliases), old(nextAliasId), foodId, Lower(Strip(lang)), Strip(alias))
      ensures foods == old(foods) && nextFoodId == old(nextFoodId)
    {
      var normalizedAlias := Strip(alias);
      var normalizedLang := Lower(Strip(lang));
      if normalizedAlias == [] {
        return Failure("alias cannot be empty");
      }
      if normalizedLang == [] {
        return Failure("lang cannot be empty");
      }
      AddAliasWellFormed(aliases, nextAliasId, foodId, normalizedLang, normalizedAlias);
      var added := AddAlias(aliases, nextAliasId, foodId, normalizedLang, normalizedAlias);
      aliases, nextAliasId := added.0, added.1;
      return Success(());
    }

    /** `delete_food_alias`: removes the row with that id, if any. */
    method DeleteFoodAlias(aliasId: int)
      requires Valid()
      modifies this
      ensures Valid()
      ensures aliases == RemoveAlias(old(aliases), aliasId)
      ensures foods == old(foods) && nextFoodId == old(nextFoodId) && nextAliasId == old(nextAliasId)
    {
      RemoveAliasWellFormed(aliases, nextAliasId, aliasId);
      aliases := RemoveAlias(aliases, aliasId);
    }

    /** `get_food_aliases`: the aliases of a food in one language (stripped
        and lower-cased first), in code-point order. */
    function GetFoodAliases(foodId: int, lang: string := "zh"): (r: seq<string>)
      reads this
      ensures Sorted(r, LexLe)
      ensures forall s :: s in r <==>
                exists a :: a in aliases && a.foodId == foodId && a.lang == Lower(Strip(lang)) && a.alias == s
    {
      AliasesOf(aliases, foodId, Lower(Strip(lang)))
    }
  }
}
