/** search.py: the character-overlap (Jaccard) score, query expansion
    through a Chinese alias table, and `search_foods_cn`, which keeps for
    every food the best score any expansion term earned it. The alias table
    (`CN_ALIASES`) is passed in as a parameter; its entries are in the
    dictionary's insertion order. */
module Search {
  import opened Wrappers
  import opened Text
  import opened Sequences
  import opened FoodsDb

  // ---------------------------------------------------------------------
  // Character overlap

  /** `set(s.lower().strip())`. */
  function CharSet(s: string): set<char> {
    set c | c in Strip(Lower(s))
  }

  lemma CardinalityParts(a: set<char>, b: set<char>)
    ensures |a - b| + |b - a| + |a * b| == |a + b|
  {
  }

  /** Two sets whose intersection is as large as their union are equal. */
  lemma EqualWhenOverlapFull(a: set<char>, b: set<char>)
    requires |a * b| == |a + b|
    ensures a == b
  {
    CardinalityParts(a, b);
    assert a - b == {} && b - a == {};
    assert forall x :: x in a ==> x in b;
    assert forall x :: x in b ==> x in a;
  }

  lemma OverlapRatio(a: set<char>, b: set<char>)
    requires a != {} && b != {}
    ensures 0 < |a + b| && |a * b| <= |a + b|
    ensures |a * b| == |a + b| <==> a == b
  {
    CardinalityParts(a, b);
    assert |a| <= |a + b|;
    if |a * b| == |a + b| {
      EqualWhenOverlapFull(a, b);
    }
    if a == b {
      assert a * b == a + b;
    }
  }

  /** `_char_overlap_score`: shared characters over all characters of the
      two lower-cased, stripped strings; 0 when either is empty. The score
      lies in [0, 1] and is 1 exactly for equal, non-empty character
      sets. */
  function CharOverlapScore(a: string, b: string): (r: real)
    ensures CharSet(a) == {} || CharSet(b) == {} ==> r == 0.0
    ensures 0.0 <= r <= 1.0
    ensures r == 1.0 <==> CharSet(a) == CharSet(b) != {}
  {
    var sa, sb := CharSet(a), CharSet(b);
    if sa == {} || sb == {} then 0.0
    else
      OverlapRatio(sa, sb);
      UnitFraction(|sa * sb|, |sa + sb|);
      (|sa * sb| as real) / (|sa + sb| as real)
  }

  lemma UnitFraction(x: nat, y: nat)
    requires 0 < y && x <= y
    ensures 0.0 <= (x as real) / (y as real) <= 1.0
    ensures (x as real) / (y as real) == 1.0 <==> x == y
  {
  }

  /** The score does not depend on the order of its arguments. */
  lemma OverlapSymmetric(a: string, b: string)
    ensures CharOverlapScore(a, b) == CharOverlapScore(b, a)
  {
    assert CharSet(a) * CharSet(b) == CharSet(b) * CharSet(a);
    assert CharSet(a) + CharSet(b) == CharSet(b) + CharSet(a);
  }

  /** A string with a visible character scores 1 against itself. */
  lemma OverlapSelf(a: string)
    requires CharSet(a) != {}
    ensures CharOverlapScore(a, a) == 1.0
  {
  }

  // ---------------------------------------------------------------------
  // Query expansion

  /** One entry of `CN_ALIASES`: a Chinese name and its aliases. */
  datatype AliasEntry = AliasEntry(cn: string, aliases: seq<string>)

  /** The entry's test: the normalised query occurs in the lower-cased key
      or in some lower-cased alias. */
  predicate EntryMatches(e: AliasEntry, q: string) {
    Contains(Lower(e.cn), q) || exists a :: a in e.aliases && Contains(Lower(a), q)
  }

  /** What the loop appends for the given entries: the aliases, then the
      key, of each matching entry in table order. */
  function Collected(q: string, table: seq<AliasEntry>): seq<string> {
    if table == [] then []
    else
      var e := table[|table| - 1];
      Collected(q, table[..|table| - 1]) + (if EntryMatches(e, q) then e.aliases + [e.cn] else [])
  }

  lemma {:induction false} CollectedMembers(q: string, table: seq<AliasEntry>, x: string)
    ensures x in Collected(q, table) <==>
              exists i :: 0 <= i < |table| && EntryMatches(table[i], q) && (x in table[i].aliases || x == table[i].cn)
    decreases |table|
  {
    if table != [] {
      var init := table[..|table| - 1];
      CollectedMembers(q, init, x);
      if x in Collected(q, init) {
        var i :| 0 <= i < |init| && EntryMatches(init[i], q) && (x in init[i].aliases || x == init[i].cn);
        assert table[i] == init[i];
      }
      if exists i :: 0 <= i < |table| && EntryMatches(table[i], q) && (x in table[i].aliases || x == table[i].cn) {
        var i :| 0 <= i < |table| && EntryMatches(table[i], q) && (x in table[i].aliases || x == table[i].cn);
        if i < |init| {
          assert init[i] == table[i];
        }
      }
    }
  }

  /** `list(dict.fromkeys(xs))`: each item at its first occurrence. */
  function Distinct(xs: seq<string>): (r: seq<string>)
    ensures forall i, j :: 0 <= i < j < |r| ==> r[i] != r[j]
    ensures forall x :: x in r <==> x in xs
    ensures xs != [] ==> r != [] && r[0] == xs[0]
  {
    if xs == [] then []
    else
      var init := xs[..|xs| - 1];
      var d := Distinct(init);
      var x := xs[|xs| - 1];
      assert xs == init + [x];
      if x in d then d else d + [x]
  }

  /** Items appended later never reorder the earlier ones: the first-seen
      order of a prefix is kept. */
  lemma {:induction false} DistinctPrefix(xs: seq<string>, ys: seq<string>)
    ensures Distinct(xs) <= Distinct(xs + ys)
    decreases |ys|
  {
    if ys != [] {
      var init := ys[..|ys| - 1];
      DistinctPrefix(xs, init);
      assert (xs + ys)[..|xs + ys| - 1] == xs + init;
    } else {
      assert xs + ys == xs;
    }
  }

  /** What `expand_query` returns. */
  function Expanded(query: string, table: seq<AliasEntry>): seq<string> {
    Distinct([query] + Collected(Lower(Strip(query)), table))
  }

  /** `expand_query`: the query as given, then the aliases and key of each
      matching entry, without repeats. */
  method ExpandQuery(query: string, table: seq<AliasEntry>) returns (r: seq<string>)
    ensures r == Expanded(query, table)
  {
    var q := Lower(Strip(query));
    var candidates := [query];
    for i := 0 to |table|
      invariant candidates == [query] + Collected(q, table[..i])
    {
      assert table[..i + 1][..i] == table[..i];
      var e := table[i];
      if Contains(Lower(e.cn), q) || exists a :: a in e.aliases && Contains(Lower(a), q) {
        candidates := candidates + e.aliases + [e.cn];
      }
    }
    assert table[..|table|] == table;
    r := Distinct(candidates);
  }

  /** The query comes first, nothing repeats, and the expansion is the
      query together with the aliases and key of every matching entry. */
  lemma ExpandedMembers(query: string, table: seq<AliasEntry>, x: string)
    ensures var r := Expanded(query, table);
            && |r| > 0 && r[0] == query
            && (forall i, j :: 0 <= i < j < |r| ==> r[i] != r[j])
    ensures x in Expanded(query, table) <==>
              || x == query
              || exists i :: 0 <= i < |table| && EntryMatches(table[i], Lower(Strip(query)))
                                              && (x in table[i].aliases || x == table[i].cn)
  {
    CollectedMembers(Lower(Strip(query)), table, x);
  }

  /** A blank query matches every entry, so every key and alias is in its
      expansion. */
  lemma BlankQueryExpandsToAll(query: string, table: seq<AliasEntry>, i: nat)
    requires Lower(Strip(query)) == [] && i < |table|
    ensures forall x :: x in table[i].aliases ==> x in Expanded(query, table)
    ensures table[i].cn in Expanded(query, table)
  {
    ContainsAt(Lower(table[i].cn), [], 0);
    assert EntryMatches(table[i], []);
    forall x | x in table[i].aliases
      ensures x in Expanded(query, table)
    {
      ExpandedMembers(query, table, x);
    }
    ExpandedMembers(query, table, table[i].cn);
  }

  // ---------------------------------------------------------------------
  // Best-score merge

  /** `SearchResult`: a food and its score. */
  datatype SearchResult = SearchResult(food: FoodRecord, score: real)

  /** Python's `max(a, b)`. */
  function Max(a: real, b: real): (r: real)
    ensures r >= a && r >= b && (r == a || r == b)
  {
    if b > a then b else a
  }

  /** The score a food earns from one term. */
  function Score(query: string, term: string, food: FoodRecord): real {
    Max(CharOverlapScore(query, food.name), CharOverlapScore(term, food.name))
  }

  /** The dictionary's keys are food ids, so no id is held twice. */
  predicate DistinctIds(c: seq<SearchResult>) {
    forall i, j :: 0 <= i < j < |c| ==> c[i].food.id != c[j].food.id
  }

  /** `candidates.get(food.id)`, as the position of its value. */
  function IndexOfId(c: seq<SearchResult>, id: int): (r: Option<nat>)
    ensures r.Some? ==> r.value < |c| && c[r.value].food.id == id
    ensures r.None? ==> forall i :: 0 <= i < |c| ==> c[i].food.id != id
  {
    if c == [] then None
    else if c[0].food.id == id then Some(0)
    else
      match IndexOfId(c[1..], id)
      case None => None
      case Some(i) => Some(i + 1)
  }

  /** One step of the inner loop: an unseen food is added, a seen one is
      replaced (in its place) only by a strictly better score. */
  function Update(c: seq<SearchResult>, o: SearchResult): (r: seq<SearchResult>)
    ensures |c| <= |r| <= |c| + 1
    ensures forall k :: 0 <= k < |c| ==> r[k].food.id == c[k].food.id && r[k].score >= c[k].score
    ensures exists k :: 0 <= k < |r| && r[k].food.id == o.food.id && r[k].score >= o.score
    ensures forall e :: e in r ==> e in c || e == o
    ensures DistinctIds(c) ==> DistinctIds(r)
  {
    match IndexOfId(c, o.food.id)
    case None =>
      var r := c + [o];
      assert r[|c|] == o;
      r
    case Some(i) =>
      if o.score > c[i].score then c[i := o] else c
  }

  /** With distinct ids, an offer for a food already held replaces its entry
      exactly when it scores strictly higher; on a tie the earlier record
      stays. */
  lemma UpdateOnlyIfBetter(c: seq<SearchResult>, o: SearchResult, i: nat)
    requires DistinctIds(c) && i < |c| && c[i].food.id == o.food.id
    ensures o.score > c[i].score ==> Update(c, o) == c[i := o]
    ensures o.score <= c[i].score ==> Update(c, o) == c
  {
    var k := IndexOfId(c, o.food.id);
    assert k == Some(i);
  }

  /** The inner loop's updates for a sequence of offers, in order. */
  function UpdateAll(c: seq<SearchResult>, os: seq<SearchResult>): seq<SearchResult> {
    if os == [] then c else Update(UpdateAll(c, os[..|os| - 1]), os[|os| - 1])
  }

  /** After a run of updates no entry has lost ground. */
  lemma {:induction false} UpdateAllKeeps(c: seq<SearchResult>, os: seq<SearchResult>)
    ensures var r := UpdateAll(c, os);
            && |c| <= |r|
            && forall k :: 0 <= k < |c| ==> r[k].food.id == c[k].food.id && r[k].score >= c[k].score
    decreases |os|
  {
    if os != [] {
      UpdateAllKeeps(c, os[..|os| - 1]);
    }
  }

  /** Every offer is matched or beaten by the entry for its food. */
  lemma {:induction false} UpdateAllCovers(c: seq<SearchResult>, os: seq<SearchResult>, o: SearchResult)
    requires o in os
    ensures var r := UpdateAll(c, os);
            exists k :: 0 <= k < |r| && r[k].food.id == o.food.id && r[k].score >= o.score
    decreases |os|
  {
    var init := os[..|os| - 1];
    var m := UpdateAll(c, init);
    var r := Update(m, os[|os| - 1]);
    assert UpdateAll(c, os) == r;
    if o != os[|os| - 1] {
      assert o in init;
      UpdateAllCovers(c, init, o);
      var k :| 0 <= k < |m| && m[k].food.id == o.food.id && m[k].score >= o.score;
      assert r[k].food.id == o.food.id && r[k].score >= o.score;
    }
  }

  /** Every entry was there before or was offered. */
  lemma {:induction false} UpdateAllFrom(c: seq<SearchResult>, os: seq<SearchResult>, e: SearchResult)
    requires e in UpdateAll(c, os)
    ensures e in c || e in os
    decreases |os|
  {
    if os != [] {
      var init := os[..|os| - 1];
      if e != os[|os| - 1] {
        UpdateAllFrom(c, init, e);
      }
    }
  }

  /** Ids stay distinct. */
  lemma {:induction false} UpdateAllDistinct(c: seq<SearchResult>, os: seq<SearchResult>)
    requires DistinctIds(c)
    ensures DistinctIds(UpdateAll(c, os))
    decreases |os|
  {
    if os != [] {
      UpdateAllDistinct(c, os[..|os| - 1]);
    }
  }

  lemma {:induction false} UpdateAllAppend(c: seq<SearchResult>, xs: seq<SearchResult>, ys: seq<SearchResult>)
    ensures UpdateAll(c, xs + ys) == UpdateAll(UpdateAll(c, xs), ys)
    decreases |ys|
  {
    if ys == [] {
      assert xs + ys == xs;
    } else {
      var init := ys[..|ys| - 1];
      UpdateAllAppend(c, xs, init);
      assert (xs + ys)[..|xs + ys| - 1] == xs + init;
    }
  }

  /** What one term offers: each found food with the score it earns. */
  function TermOffers(query: string, term: string, recs: seq<FoodRecord>): (r: seq<SearchResult>)
    ensures |r| == |recs|
    ensures forall i :: 0 <= i < |r| ==> r[i] == SearchResult(recs[i], Score(query, term, recs[i]))
  {
    seq(|recs|, i requires 0 <= i < |recs| => SearchResult(recs[i], Score(query, term, recs[i])))
  }

  /** The offers of all terms, in order, for a positive limit. */
  function AllOffers(query: string, foods: seq<FoodRecord>, terms: seq<string>, limit: int): seq<SearchResult>
    requires limit > 0
  {
    if terms == [] then []
    else
      var t := terms[|terms| - 1];
      AllOffers(query, foods, terms[..|terms| - 1], limit) + TermOffers(query, t, SearchFoods(foods, t, limit).value)
  }

  /** Score descending, then name ascending (case-sensitive). */
  predicate ScoreLe(p: SearchResult, q: SearchResult) {
    p.score > q.score || (p.score == q.score && LexLe(p.food.name, q.food.name))
  }

  lemma ScoreOrder()
    ensures Total(ScoreLe) && Transitive(ScoreLe)
  {
    forall p: SearchResult, q: SearchResult
      ensures ScoreLe(p, q) || ScoreLe(q, p)
    {
      LexLeTotal(p.food.name, q.food.name);
    }
    forall p: SearchResult, q: SearchResult, s: SearchResult | ScoreLe(p, q) && ScoreLe(q, s)
      ensures ScoreLe(p, s)
    {
      if LexLe(p.food.name, q.food.name) && LexLe(q.food.name, s.food.name) {
        LexLeTransitive(p.food.name, q.food.name, s.food.name);
      }
    }
  }

  /** The candidate dictionary after every term has been searched. */
  function Candidates(foods: seq<FoodRecord>, query: string, table: seq<AliasEntry>, limit: int): seq<SearchResult>
    requires limit > 0
  {
    UpdateAll([], AllOffers(query, foods, Expanded(query, table), limit))
  }

  /** What `search_foods_cn` returns: the first search raises for a limit
      that is not positive; otherwise the candidates sorted by score and
      name, at most `limit` of them. */
  function SearchFoodsCnSpec(foods: seq<FoodRecord>, query: string, table: seq<AliasEntry>, limit: int)
    : Result<seq<SearchResult>, string>
  {
    if limit <= 0 then Failure("limit must be > 0")
    else
      ScoreOrder();
      Success(SliceTo(SortBy(Candidates(foods, query, table, limit), ScoreLe), limit))
  }

  /** One more term's offers. */
  lemma AllOffersStep(query: string, foods: seq<FoodRecord>, terms: seq<string>, limit: int, j: nat)
    requires limit > 0 && j < |terms|
    ensures AllOffers(query, foods, terms[..j + 1], limit)
            == AllOffers(query, foods, terms[..j], limit) + TermOffers(query, terms[j], SearchFoods(foods, terms[j], limit).value)
  {
    assert terms[..j + 1][..j] == terms[..j];
  }

  /** The inner loop: offer each found food with its score. */
  method OfferAll(candidates: seq<SearchResult>, query: string, term: string, recs: seq<FoodRecord>)
    returns (c: seq<SearchResult>)
    ensures c == UpdateAll(candidates, TermOffers(query, term, recs))
  {
    c := candidates;
    ghost var offers := TermOffers(query, term, recs);
    for k := 0 to |recs|
      invariant c == UpdateAll(candidates, offers[..k])
    {
      assert offers[..k + 1][..k] == offers[..k];
      var food := recs[k];
      var score := Max(CharOverlapScore(query, food.name), CharOverlapScore(term, food.name));
      var prev := IndexOfId(c, food.id);
      if prev.None? {
        c := c + [SearchResult(food, score)];
      } else if score > c[prev.value].score {
        c := c[prev.value := SearchResult(food, score)];
      }
    }
    assert offers[..|recs|] == offers;
  }

  /** `search_foods_cn`, as the source does it. */
  method SearchFoodsCn(foods: seq<FoodRecord>, query: string, table: seq<AliasEntry>, limit: int := 20)
    returns (r: Result<seq<SearchResult>, string>)
    ensures r == SearchFoodsCnSpec(foods, query, table, limit)
  {
    var candidates: seq<SearchResult> := [];
    var terms := ExpandQuery(query, table);
    ExpandedMembers(query, table, query);
    for j := 0 to |terms|
      invariant j > 0 ==> limit > 0
      invariant limit > 0 ==> candidates == UpdateAll([], AllOffers(query, foods, terms[..j], limit))
    {
      var found := SearchFoods(foods, terms[j], limit);
      if found.Failure? {
        return Failure(found.error);
      }
      AllOffersStep(query, foods, terms, limit, j);
      UpdateAllAppend([], AllOffers(query, foods, terms[..j], limit), TermOffers(query, terms[j], found.value));
      candidates := OfferAll(candidates, query, terms[j], found.value);
    }
    assert terms[..|terms|] == terms;
    ScoreOrder();
    r := Success(SliceTo(SortBy(candidates, ScoreLe), limit));
  }

  /** Each entry of `c` was offered, and no offer for its food scored
      higher. */
  ghost predicate BestOf(c: seq<SearchResult>, offers: seq<SearchResult>) {
    && (forall e :: e in c ==> e in offers)
    && (forall e, o :: e in c && o in offers && o.food.id == e.food.id ==> o.score <= e.score)
  }

  /** Starting from an empty dictionary, the updates keep for each food the
      best score offered for it. */
  lemma CandidatesBest(offers: seq<SearchResult>)
    ensures DistinctIds(UpdateAll([], offers)) && BestOf(UpdateAll([], offers), offers)
  {
    var c := UpdateAll([], offers);
    UpdateAllDistinct([], offers);
    forall e | e in c
      ensures e in offers
    {
      UpdateAllFrom([], offers, e);
    }
    forall e, o | e in c && o in offers && o.food.id == e.food.id
      ensures o.score <= e.score
    {
      UpdateAllCovers([], offers, o);
      var k :| 0 <= k < |c| && c[k].food.id == o.food.id && c[k].score >= o.score;
      var i :| 0 <= i < |c| && c[i] == e;
      assert c[i].food.id == c[k].food.id;
    }
  }

  /** Sorting and cutting keeps both facts. */
  lemma RankedBest(c: seq<SearchResult>, offers: seq<SearchResult>, limit: int)
    requires DistinctIds(c) && BestOf(c, offers)
    ensures Total(ScoreLe)
    ensures var r := SliceTo(SortBy(c, ScoreLe), limit);
            Sorted(r, ScoreLe) && DistinctIds(r) && BestOf(r, offers)
  {
    ScoreOrder();
    var sorted := SortBy(c, ScoreLe);
    var r := SliceTo(sorted, limit);
    assert r == sorted[..|r|];
    PermutationKeepsKeysDistinct(c, sorted, (e: SearchResult) => e.food.id);
    forall e | e in r
      ensures e in c
    {
      assert e in multiset(sorted);
    }
  }

  /** Each food id appears once, at most `limit` results, in score-then-name
      order; each result is a food some term found, with a score some term
      earned it, and no term earned that food a higher score. */
  lemma SearchFoodsCnProperties(foods: seq<FoodRecord>, query: string, table: seq<AliasEntry>, limit: int)
    ensures var r := SearchFoodsCnSpec(foods, query, table, limit);
            && (r.Failure? <==> limit <= 0)
            && (r.Success? ==>
                  && |r.value| <= limit
                  && Sorted(r.value, ScoreLe)
                  && DistinctIds(r.value)
                  && BestOf(r.value, AllOffers(query, foods, Expanded(query, table), limit)))
  {
    if limit > 0 {
      var offers := AllOffers(query, foods, Expanded(query, table), limit);
      CandidatesBest(offers);
      RankedBest(UpdateAll([], offers), offers, limit);
    }
  }

  /** The top of the candidates: `search_foods_cn` returns `limit` of the
      candidates, or all of them when there are fewer, and every candidate
      left out ranks no earlier than every one returned. */
  lemma SearchFoodsCnTop(foods: seq<FoodRecord>, query: string, table: seq<AliasEntry>, limit: int)
    requires limit > 0
    ensures var r := SearchFoodsCnSpec(foods, query, table, limit).value;
            var c := Candidates(foods, query, table, limit);
            && |r| == (if limit < |c| then limit else |c|)
            && (forall e :: e in r ==> e in c)
            && (forall e, x :: e in r && x in c && x !in r ==> ScoreLe(e, x))
  {
    ScoreOrder();
    var c := Candidates(foods, query, table, limit);
    var sorted := SortBy(c, ScoreLe);
    var r := SliceTo(sorted, limit);
    assert r == sorted[..|r|];
    forall e | e in r
      ensures e in c
    {
      assert e in multiset(sorted);
    }
    forall e, x | e in r && x in c && x !in r
      ensures ScoreLe(e, x)
    {
      assert x in multiset(sorted);
      var i :| 0 <= i < |r| && r[i] == e;
      var j :| 0 <= j < |sorted| && sorted[j] == x;
      SortedPairwise(sorted, ScoreLe, i, j);
    }
  }

  /** Every offered food has an entry with at least the offered score. */
  ghost predicate Covers(r: seq<SearchResult>, offers: seq<SearchResult>) {
    forall o :: o in offers ==> exists i :: 0 <= i < |r| && r[i].food.id == o.food.id && r[i].score >= o.score
  }

  /** When no more than `limit` foods were found, every food offered by a
      term is returned, with at least the score that term gave it. */
  lemma SearchFoodsCnComplete(foods: seq<FoodRecord>, query: string, table: seq<AliasEntry>, limit: int)
    requires limit > 0
    ensures |Candidates(foods, query, table, limit)| <= limit ==>
              Covers(SearchFoodsCnSpec(foods, query, table, limit).value,
                     AllOffers(query, foods, Expanded(query, table), limit))
  {
    if |Candidates(foods, query, table, limit)| <= limit {
      var offers := AllOffers(query, foods, Expanded(query, table), limit);
      CandidatesCover(offers);
      CutCovers(UpdateAll([], offers), offers, limit);
    }
  }

  /** Starting from an empty dictionary, every offered food gets an entry. */
  lemma CandidatesCover(offers: seq<SearchResult>)
    ensures Covers(UpdateAll([], offers), offers)
  {
    forall o | o in offers
      ensures exists i :: 0 <= i < |UpdateAll([], offers)| &&
                UpdateAll([], offers)[i].food.id == o.food.id && UpdateAll([], offers)[i].score >= o.score
    {
      UpdateAllCovers([], offers, o);
    }
  }

  /** Sorting candidates that fit within the limit and cutting them keeps
      an entry for every offered food. */
  lemma CutCovers(c: seq<SearchResult>, offers: seq<SearchResult>, limit: int)
    requires |c| <= limit && Covers(c, offers)
    ensures Total(ScoreLe)
    ensures Covers(SliceTo(SortBy(c, ScoreLe), limit), offers)
  {
    ScoreOrder();
    var sorted := SortBy(c, ScoreLe);
    assert SliceTo(sorted, limit) == sorted;
    forall o | o in offers
      ensures exists i :: 0 <= i < |sorted| && sorted[i].food.id == o.food.id && sorted[i].score >= o.score
    {
      var k :| 0 <= k < |c| && c[k].food.id == o.food.id && c[k].score >= o.score;
      assert c[k] in multiset(sorted);
      var i :| 0 <= i < |sorted| && sorted[i] == c[k];
    }
  }
}
