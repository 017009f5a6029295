/** foods_db.py, the search side: the 8-keyword safety filter, the query
    tokenizer, token search (`search_foods`), alias search
    (`search_foods_by_alias`) and the energy helper. The SQLite tables are
    passed in as sequences of rows; every query the source sends is a
    filter, an `ORDER BY` and a `LIMIT` over them. */
module FoodsDb {
  import opened Wrappers
  import opened Text
  import opened Sequences
  import Toxicity

  /** A row of the `foods` table (`FoodRecord`). */
  datatype FoodRecord = FoodRecord(id: int, name: string, kcalPer100g: real, source: string, fdcId: Option<int>)

  /** A row of the `food_aliases` table; `created_at` is not modelled. */
  datatype AliasRow = AliasRow(id: int, foodId: int, lang: string, alias: string)

  // ---------------------------------------------------------------------
  // Safety filter used by search

  /** The eight keywords of `_TOXIC_KEYWORDS`, in source order. */
  const ToxicKeywords: seq<string> := ["onion", "chocolate", "grape", "xylitol", "葡萄", "木糖醇", "洋葱", "巧克力"]

  /** `is_toxic_food_name` of foods_db.py: no stripping and no empty-name
      guard, only a lower-cased substring test. */
  predicate IsToxicFoodName(name: string) {
    exists k :: k in ToxicKeywords && Contains(Lower(name), k)
  }

  /** Each of the eight keywords is one of toxicity.py's keywords, so a name
      the search filter rejects is rejected by the optimizer's filter too. */
  lemma {:induction false} SearchFilterWithinToxicity(name: string)
    requires IsToxicFoodName(name)
    ensures Toxicity.IsToxicFoodName(name)
  {
    var k :| k in ToxicKeywords && Contains(Lower(name), k);
    assert k in Toxicity.ToxicKeywords;
    Toxicity.KeywordsWellFormed(k);
    ContainsThroughStrip(Lower(name), k);
    StripLower(name);
  }

  /** Text added around a toxic name leaves it toxic. */
  lemma {:induction false} ToxicSurrounded(pre: string, name: string, post: string)
    requires IsToxicFoodName(name)
    ensures IsToxicFoodName(pre + name + post)
  {
    var k :| k in ToxicKeywords && Contains(Lower(name), k);
    ContainsWithin(Lower(pre), Lower(name), Lower(post), k);
    LowerConcat(pre, name);
    LowerConcat(pre + name, post);
  }

  /** `_rows_to_records`: the rows whose names are not toxic, in order. */
  function RowsToRecords(rows: seq<FoodRecord>): (r: seq<FoodRecord>)
    ensures forall x :: x in r <==> x in rows && !IsToxicFoodName(x.name)
    ensures |r| <= |rows|
  {
    Filter(rows, (x: FoodRecord) => !IsToxicFoodName(x.name))
  }

  // ---------------------------------------------------------------------
  // Tokenizer

  /** The characters of `_TOKEN_SPLIT_RE`, `[\s,;，；、]`. */
  predicate IsSeparator(c: char) {
    IsSpace(c) || c == ',' || c == ';' || c == '，' || c == '；' || c == '、'
  }

  const Stopwords: set<string> := {"and", "or", "&", "the"}

  const MaxQueryTokens: nat := 6

  predicate NoSeparator(s: string) {
    forall i :: 0 <= i < |s| ==> !IsSeparator(s[i])
  }

  /** Skips a run of separators. */
  function DropSeparators(s: string): (r: string)
    ensures |r| <= |s| && r == s[|s| - |r|..]
    ensures r == [] || !IsSeparator(r[0])
  {
    if s != [] && IsSeparator(s[0]) then DropSeparators(s[1..]) else s
  }

  /** `re.split` by a run of separators, `piece` being the part of the
      current piece read so far; like `re.split`, a leading or trailing run
      yields an empty piece. */
  function SplitFrom(s: string, piece: string): seq<string>
    decreases |s|
  {
    if s == [] then [piece]
    else if IsSeparator(s[0]) then [piece] + SplitFrom(DropSeparators(s[1..]), [])
    else SplitFrom(s[1..], piece + [s[0]])
  }

  /** `_TOKEN_SPLIT_RE.split(s)`. */
  function SplitOnSeparators(s: string): seq<string> {
    SplitFrom(s, [])
  }

  /** The characters of `s` that are not separators, in order. */
  function RemoveSeparators(s: string): string {
    if s == [] then [] else (if IsSeparator(s[0]) then [] else [s[0]]) + RemoveSeparators(s[1..])
  }

  function Concat(ss: seq<string>): string {
    if ss == [] then [] else ss[0] + Concat(ss[1..])
  }

  lemma {:induction false} RemoveSeparatorsOfRun(s: string)
    ensures RemoveSeparators(s) == RemoveSeparators(DropSeparators(s))
  {
    if s != [] && IsSeparator(s[0]) {
      RemoveSeparatorsOfRun(s[1..]);
    }
  }

  /** Splitting loses nothing but the separators: the pieces, put back
      together, are the input with its separators removed. */
  lemma {:induction false} SplitKeepsText(s: string, piece: string)
    ensures Concat(SplitFrom(s, piece)) == piece + RemoveSeparators(s)
    decreases |s|
  {
    if s == [] {
    } else if IsSeparator(s[0]) {
      var rest := DropSeparators(s[1..]);
      SplitKeepsText(rest, []);
      RemoveSeparatorsOfRun(s[1..]);
      assert Concat([piece] + SplitFrom(rest, [])) == piece + Concat(SplitFrom(rest, []));
    } else {
      SplitKeepsText(s[1..], piece + [s[0]]);
    }
  }

  /** No piece holds a separator. */
  lemma {:induction false} SplitPiecesClean(s: string, piece: string)
    requires NoSeparator(piece)
    ensures forall p :: p in SplitFrom(s, piece) ==> NoSeparator(p)
    decreases |s|
  {
    if s == [] {
    } else if IsSeparator(s[0]) {
      SplitPiecesClean(DropSeparators(s[1..]), []);
    } else {
      SplitPiecesClean(s[1..], piece + [s[0]]);
    }
  }

  /** What the loop of `_tokenize_query` appends for one piece. */
  function Keep(raw: string): seq<string> {
    var token := Strip(raw);
    if token == [] || token in Stopwords then [] else [token]
  }

  /** The tokens kept from `pieces`, none dropped for the cap. */
  function KeptTokens(pieces: seq<string>): seq<string> {
    if pieces == [] then [] else KeptTokens(pieces[..|pieces| - 1]) + Keep(pieces[|pieces| - 1])
  }

  lemma {:induction false} KeptTokensPrefix(pieces: seq<string>, j: nat)
    requires j <= |pieces|
    ensures KeptTokens(pieces[..j]) <= KeptTokens(pieces)
    decreases |pieces|
  {
    if j < |pieces| {
      KeptTokensPrefix(pieces[..|pieces| - 1], j);
      assert pieces[..|pieces| - 1][..j] == pieces[..j];
    } else {
      assert pieces[..j] == pieces;
    }
  }

  /** The token list `_tokenize_query` returns. */
  function Tokens(query: string): seq<string> {
    Limit(KeptTokens(SplitOnSeparators(Lower(query))), MaxQueryTokens)
  }

  lemma KeptTokensStep(pieces: seq<string>, i: nat)
    requires i < |pieces|
    ensures KeptTokens(pieces[..i + 1]) == KeptTokens(pieces[..i]) + Keep(pieces[i])
  {
    assert pieces[..i + 1][..i] == pieces[..i];
  }

  /** `_tokenize_query`: lower-case, split on separators, strip each piece,
      drop empty pieces and stopwords, stop after six tokens. */
  method TokenizeQuery(query: string) returns (tokens: seq<string>)
    ensures tokens == Tokens(query)
  {
    var pieces := SplitOnSeparators(Lower(query));
    tokens := [];
    for i := 0 to |pieces|
      invariant tokens == KeptTokens(pieces[..i])
      invariant |tokens| < MaxQueryTokens
    {
      KeptTokensStep(pieces, i);
      var token := Strip(pieces[i]);
      if token == [] || token in Stopwords {
        continue;
      }
      tokens := tokens + [token];
      if |tokens| >= MaxQueryTokens {
        KeptTokensPrefix(pieces, i + 1);
        LimitAtCap(tokens, KeptTokens(pieces), MaxQueryTokens);
        return;
      }
    }
    assert pieces[..|pieces|] == pieces;
  }

  lemma {:induction false} KeptTokensClean(pieces: seq<string>)
    requires forall p :: p in pieces ==> NoSeparator(p)
    ensures forall t :: t in KeptTokens(pieces) ==> t != [] && t !in Stopwords && NoSeparator(t)
    decreases |pieces|
  {
    if pieces != [] {
      var last := pieces[|pieces| - 1];
      assert last in pieces;
      KeptTokensClean(pieces[..|pieces| - 1]);
      var off := StripShape(last);
      assert Strip(last) == last[off..off + |Strip(last)|];
    }
  }

  /** At most six tokens; none is empty, a stopword, or holds a separator. */
  lemma TokensWellFormed(query: string)
    ensures |Tokens(query)| <= MaxQueryTokens
    ensures forall t :: t in Tokens(query) ==> t != [] && t !in Stopwords && NoSeparator(t)
  {
    var pieces := SplitOnSeparators(Lower(query));
    SplitPiecesClean(Lower(query), []);
    KeptTokensClean(pieces);
  }

  lemma StripNoSeparator(w: string)
    requires NoSeparator(w)
    ensures Strip(w) == w
  {
    var off := StripShape(w);
    if w != [] {
      assert !IsSpace(w[0]) && !IsSpace(w[|w| - 1]);
    }
  }

  lemma {:induction false} SplitWord(w: string, rest: string, piece: string)
    requires NoSeparator(w)
    ensures SplitFrom(w + rest, piece) == SplitFrom(rest, piece + w)
    decreases |w|
  {
    if w != [] {
      assert (w + rest)[0] == w[0] && !IsSeparator(w[0]);
      assert (w + rest)[1..] == w[1..] + rest;
      assert SplitFrom(w + rest, piece) == SplitFrom(w[1..] + rest, piece + [w[0]]);
      SplitWord(w[1..], rest, piece + [w[0]]);
      assert piece + [w[0]] + w[1..] == piece + w;
    } else {
      assert w + rest == rest && piece + w == piece;
    }
  }

  lemma {:induction false} DropSeparatorRun(sep: string, rest: string)
    requires forall i :: 0 <= i < |sep| ==> IsSeparator(sep[i])
    requires rest == [] || !IsSeparator(rest[0])
    ensures DropSeparators(sep + rest) == rest
    decreases |sep|
  {
    if sep != [] {
      assert (sep + rest)[1..] == sep[1..] + rest;
      DropSeparatorRun(sep[1..], rest);
    }
  }

  /** A blank query has no tokens. */
  lemma BlankQueryHasNoTokens()
    ensures Tokens("") == []
  {
    assert Lower("") == "";
    assert SplitOnSeparators("") == [""];
    assert KeptTokens([""]) == KeptTokens([]) + Keep("");
  }

  lemma {:induction false} SplitTwoWords(a: string, sep: string, b: string)
    requires NoSeparator(a) && NoSeparator(b) && b != []
    requires sep != [] && forall i :: 0 <= i < |sep| ==> IsSeparator(sep[i])
    ensures SplitOnSeparators(a + sep + b) == [a, b]
  {
    assert a + sep + b == a + (sep + b);
    SplitWord(a, sep + b, []);
    assert [] + a == a;
    SplitAtSeparators(a, sep, b);
    SplitLastWord(b);
  }

  lemma SplitAtSeparators(a: string, sep: string, b: string)
    requires NoSeparator(b) && b != []
    requires sep != [] && forall i :: 0 <= i < |sep| ==> IsSeparator(sep[i])
    ensures SplitFrom(sep + b, a) == [a] + SplitFrom(b, [])
  {
    assert (sep + b)[0] == sep[0];
    assert (sep + b)[1..] == sep[1..] + b;
    DropSeparatorRun(sep[1..], b);
  }

  lemma SplitLastWord(b: string)
    requires NoSeparator(b)
    ensures SplitFrom(b, []) == [b]
  {
    assert b + [] == b && [] + b == b;
    SplitWord(b, [], []);
  }

  lemma KeptTwoWords(a: string, b: string)
    requires a != [] && b != [] && NoSeparator(a) && NoSeparator(b)
    requires a !in Stopwords && b !in Stopwords
    ensures KeptTokens([a, b]) == [a, b]
  {
    StripNoSeparator(a);
    StripNoSeparator(b);
    assert [a, b][..1] == [a];
    assert [a][..0] == [];
    assert KeptTokens([a]) == [a];
  }

  /** Two words with any run of separators between them (`"chicken breast"`,
      `"chicken, breast"`) give those two words as tokens, in order. */
  lemma {:induction false} TwoWordTokens(a: string, sep: string, b: string)
    requires a != [] && b != [] && NoSeparator(a) && NoSeparator(b)
    requires Lower(a) == a && Lower(b) == b
    requires a !in Stopwords && b !in Stopwords
    requires sep != [] && forall i :: 0 <= i < |sep| ==> IsSeparator(sep[i])
    ensures Tokens(a + sep + b) == [a, b]
  {
    LowerConcat(a, sep);
    LowerConcat(a + sep, b);
    assert Lower(sep) == sep by {
      forall i | 0 <= i < |sep|
        ensures LowerChar(sep[i]) == sep[i]
      {
      }
    }
    SplitTwoWords(a, sep, b);
    KeptTwoWords(a, b);
  }

  lemma OneWordTokens(a: string)
    requires a != [] && NoSeparator(a) && Lower(a) == a && a !in Stopwords
    ensures Tokens(a) == [a]
  {
    assert a + [] == a && [] + a == a;
    SplitWord(a, [], []);
    assert SplitOnSeparators(a) == SplitFrom([], a) == [a];
    StripNoSeparator(a);
    assert KeptTokens([a]) == KeptTokens([]) + Keep(a);
  }

  // ---------------------------------------------------------------------
  // Token search

  /** Code-point order on strings is a total, transitive order. */
  lemma LexOrder()
    ensures Total(LexLe) && Transitive(LexLe)
  {
    forall a: string, b: string
      ensures LexLe(a, b) || LexLe(b, a)
    {
      LexLeTotal(a, b);
    }
    forall a: string, b: string, c: string | LexLe(a, b) && LexLe(b, c)
      ensures LexLe(a, c)
    {
      LexLeTransitive(a, b, c);
    }
  }

  /** `ORDER BY name ASC`. */
  predicate NameLe(a: FoodRecord, b: FoodRecord) {
    LexLe(a.name, b.name)
  }

  lemma NameOrder()
    ensures Total(NameLe) && Transitive(NameLe)
  {
    forall a: FoodRecord, b: FoodRecord
      ensures NameLe(a, b) || NameLe(b, a)
    {
      LexLeTotal(a.name, b.name);
    }
    forall a: FoodRecord, b: FoodRecord, c: FoodRecord | NameLe(a, b) && NameLe(b, c)
      ensures NameLe(a, c)
    {
      LexLeTransitive(a.name, b.name, c.name);
    }
  }

  /** `lower(name) LIKE '%t%'` holds for every token `t` (the `AND`
      query). */
  predicate MatchesAll(name: string, tokens: seq<string>) {
    forall t :: t in tokens ==> Contains(Lower(name), t)
  }

  /** `lower(name) LIKE '%t%'` holds for some token `t` (the `OR` query). */
  predicate MatchesAny(name: string, tokens: seq<string>) {
    exists t :: t in tokens && Contains(Lower(name), t)
  }

  /** One `SELECT … WHERE … ORDER BY name ASC LIMIT limit` over `foods`,
      then `_rows_to_records`: the limit is applied before toxic rows are
      dropped. */
  function Select(foods: seq<FoodRecord>, matches: FoodRecord -> bool, limit: int): (r: seq<FoodRecord>)
    ensures forall x :: x in r ==> x in foods && matches(x) && !IsToxicFoodName(x.name)
    ensures 0 <= limit ==> |r| <= limit
    ensures Sorted(r, NameLe)
  {
    NameOrder();
    var filtered := Filter(foods, matches);
    var sorted := SortBy(filtered, NameLe);
    forall x | x in Limit(sorted, limit)
      ensures x in foods && matches(x)
    {
      assert x in multiset(sorted);
      assert x in filtered;
      var i :| 0 <= i < |filtered| && filtered[i] == x;
    }
    FilterSorted(Limit(sorted, limit), (x: FoodRecord) => !IsToxicFoodName(x.name), NameLe);
    RowsToRecords(Limit(sorted, limit))
  }

  function AndQuery(foods: seq<FoodRecord>, tokens: seq<string>, limit: int): seq<FoodRecord> {
    Select(foods, (x: FoodRecord) => MatchesAll(x.name, tokens), limit)
  }

  function OrQuery(foods: seq<FoodRecord>, tokens: seq<string>, limit: int): seq<FoodRecord> {
    Select(foods, (x: FoodRecord) => MatchesAny(x.name, tokens), limit)
  }

  /** `search_foods`: the foods whose names contain every query token, or,
      when that query leaves no safe row, the foods whose names contain
      some token; sorted by name, at most `limit` of them, never toxic. */
  function SearchFoods(foods: seq<FoodRecord>, query: string, limit: int := 20): (r: Result<seq<FoodRecord>, string>)
    ensures r.Failure? <==> limit <= 0
    ensures limit <= 0 ==> r == Failure("limit must be > 0")
    ensures r.Success? ==> |r.value| <= limit && Sorted(r.value, NameLe)
    ensures r.Success? ==> forall x :: x in r.value ==> x in foods && !IsToxicFoodName(x.name)
    ensures r.Success? && Tokens(Lower(Strip(query))) == [] ==> r.value == []
    ensures r.Success? ==>
              var tokens := Tokens(Lower(Strip(query)));
              forall x :: x in r.value ==>
                || MatchesAll(x.name, tokens)
                || (AndQuery(foods, tokens, limit) == [] && MatchesAny(x.name, tokens))
  {
    if limit <= 0 then Failure("limit must be > 0")
    else
      var normalized := Lower(Strip(query));
      if normalized == [] then
        BlankQueryHasNoTokens();
        Success([])
      else
        var tokens := Tokens(normalized);
        if tokens == [] then Success([])
        else
          var records := AndQuery(foods, tokens, limit);
          if records != [] then Success(records)
          else Success(OrQuery(foods, tokens, limit))
  }

  /** A safe food matching every token is found whenever no more than
      `limit` foods match every token. */
  lemma SearchFindsMatch(foods: seq<FoodRecord>, query: string, limit: int, x: FoodRecord)
    requires limit > 0 && x in foods && !IsToxicFoodName(x.name)
    requires Tokens(Lower(Strip(query))) != [] && MatchesAll(x.name, Tokens(Lower(Strip(query))))
    requires |Filter(foods, (y: FoodRecord) => MatchesAll(y.name, Tokens(Lower(Strip(query)))))| <= limit
    ensures SearchFoods(foods, query, limit).Success?
    ensures x in SearchFoods(foods, query, limit).value
  {
    var tokens := Tokens(Lower(Strip(query)));
    if Lower(Strip(query)) == [] {
      BlankQueryHasNoTokens();
    }
    var matches := (y: FoodRecord) => MatchesAll(y.name, tokens);
    var filtered := Filter(foods, matches);
    var i :| 0 <= i < |foods| && foods[i] == x;
    assert x in filtered;
    NameOrder();
    var sorted := SortBy(filtered, NameLe);
    assert x in multiset(filtered);
    assert x in sorted;
    assert Limit(sorted, limit) == sorted;
    assert x in AndQuery(foods, tokens, limit);
  }

  lemma ChickenTokens()
    ensures Tokens(Lower(Strip("chicken"))) == ["chicken"]
  {
    var q := "chicken";
    assert TrimStart(q) == q && TrimEnd(q) == q && Lower(q) == q;
    OneWordTokens(q);
  }

  lemma OnionChickenIsToxic()
    ensures IsToxicFoodName("Onion, chicken")
  {
    OnionChickenLower();
    ContainsAt(Lower("Onion, chicken"), "onion", 0);
    assert "onion" in ToxicKeywords;
  }

  lemma ChickenBreastIsSafe()
    ensures !IsToxicFoodName("chicken breast")
  {
    var h := "chicken breast";
    assert Lower(h) == h;
    forall k | k in ToxicKeywords
      ensures !Contains(h, k)
    {
      if Contains(h, k) {
        ContainsChar(h, k, 0);
        if |k| > 2 {
          ContainsChar(h, k, 2);
        }
      }
    }
  }

  lemma OnionChickenLower()
    ensures Lower("Onion, chicken") == "onion, chicken"
  {
    var s, t := "Onion, chicken", "onion, chicken";
    assert LowerChar(s[0]) == t[0];
    forall i | 1 <= i < |s|
      ensures LowerChar(s[i]) == t[i]
    {
      assert s[i] == t[i] && !IsUpperAscii(s[i]);
    }
  }

  lemma ChickenMatches()
    ensures MatchesAll("Onion, chicken", ["chicken"]) && MatchesAny("Onion, chicken", ["chicken"])
    ensures MatchesAll("chicken breast", ["chicken"]) && MatchesAny("chicken breast", ["chicken"])
  {
    OnionChickenLower();
    ContainsAt(Lower("Onion, chicken"), "chicken", 7);
    assert Lower("chicken breast") == "chicken breast";
    ContainsAt(Lower("chicken breast"), "chicken", 0);
  }

  /** Sorting two distinct rows puts them in their name order. */
  lemma SortTwo(a: FoodRecord, b: FoodRecord)
    requires NameLe(a, b) && !NameLe(b, a)
    ensures Total(NameLe)
    ensures SortBy([b, a], NameLe) == [a, b]
  {
    NameOrder();
    var sorted := SortBy([b, a], NameLe);
    assert a != b;
    assert multiset(sorted) == multiset{a, b};
    assert sorted[0] in multiset(sorted) && sorted[1] in multiset(sorted);
  }

  /** Either pass over the two example rows, whatever it matches, keeps
      only the toxic row that sorts first and then drops it. */
  lemma SelectExample(matches: FoodRecord -> bool)
    requires matches(FoodRecord(1, "Onion, chicken", 40.0, "fdc", Some(1)))
    requires matches(FoodRecord(2, "chicken breast", 165.0, "fdc", Some(2)))
    ensures Select([FoodRecord(2, "chicken breast", 165.0, "fdc", Some(2)),
                    FoodRecord(1, "Onion, chicken", 40.0, "fdc", Some(1))], matches, 1) == []
  {
    var onion := FoodRecord(1, "Onion, chicken", 40.0, "fdc", Some(1));
    var breast := FoodRecord(2, "chicken breast", 165.0, "fdc", Some(2));
    ExampleOrdered(matches);
    assert Limit([onion, breast], 1) == [onion];
    OnionChickenIsToxic();
    assert RowsToRecords([onion]) == [];
  }

  lemma ExampleOrdered(matches: FoodRecord -> bool)
    requires matches(FoodRecord(1, "Onion, chicken", 40.0, "fdc", Some(1)))
    requires matches(FoodRecord(2, "chicken breast", 165.0, "fdc", Some(2)))
    ensures Total(NameLe)
    ensures SortBy(Filter([FoodRecord(2, "chicken breast", 165.0, "fdc", Some(2)),
                           FoodRecord(1, "Onion, chicken", 40.0, "fdc", Some(1))], matches), NameLe)
            == [FoodRecord(1, "Onion, chicken", 40.0, "fdc", Some(1)), FoodRecord(2, "chicken breast", 165.0, "fdc", Some(2))]
  {
    var onion := FoodRecord(1, "Onion, chicken", 40.0, "fdc", Some(1));
    var breast := FoodRecord(2, "chicken breast", 165.0, "fdc", Some(2));
    assert Filter([breast, onion], matches) == [breast, onion] by {
      assert Filter([onion], matches) == [onion];
    }
    assert NameLe(onion, breast) && !NameLe(breast, onion) by {
      assert onion.name[0] < breast.name[0];
    }
    SortTwo(onion, breast);
  }

  /** `LIMIT` is applied before the toxic rows are dropped: with limit 1,
      a toxic name that sorts first hides a safe match, and since the `AND`
      pass then has no safe row the `OR` pass runs and hides it too. */
  lemma LimitBeforeToxicFilter()
    ensures
      var breast := FoodRecord(2, "chicken breast", 165.0, "fdc", Some(2));
      && !IsToxicFoodName(breast.name)
      && MatchesAll(breast.name, Tokens(Lower(Strip("chicken"))))
      && SearchFoods([breast, FoodRecord(1, "Onion, chicken", 40.0, "fdc", Some(1))], "chicken", 1) == Success([])
  {
    var onion := FoodRecord(1, "Onion, chicken", 40.0, "fdc", Some(1));
    var breast := FoodRecord(2, "chicken breast", 165.0, "fdc", Some(2));
    ChickenTokens();
    ChickenBreastIsSafe();
    ChickenMatches();
    SelectExample((x: FoodRecord) => MatchesAll(x.name, ["chicken"]));
    SelectExample((x: FoodRecord) => MatchesAny(x.name, ["chicken"]));
  }

  // ---------------------------------------------------------------------
  // Alias search

  /** The `JOIN foods ON f.id = a.food_id` with the `WHERE` of
      `search_foods_by_alias`: each matching alias row paired with its
      food. */
  function JoinAliases(aliases: seq<AliasRow>, foods: seq<FoodRecord>, lang: string, needle: string): (r: seq<(AliasRow, FoodRecord)>)
    ensures forall p :: p in r ==>
              && p.0 in aliases && p.1 in foods && p.1.id == p.0.foodId
              && p.0.lang == lang && Contains(Lower(p.0.alias), needle)
    ensures forall a, f ::
              a in aliases && f in foods && f.id == a.foodId && a.lang == lang && Contains(Lower(a.alias), needle)
              ==> (a, f) in r
  {
    if aliases == [] then []
    else
      var a := aliases[0];
      var named := Filter(foods, (f: FoodRecord) => f.id == a.foodId);
      var pairs := seq(|named|, i requires 0 <= i < |named| => (a, named[i]));
      forall f | f in foods && f.id == a.foodId
        ensures (a, f) in pairs
      {
        var j :| 0 <= j < |foods| && foods[j] == f;
        assert f in named;
        var i :| 0 <= i < |named| && named[i] == f;
        assert pairs[i] == (a, f);
      }
      (if a.lang == lang && Contains(Lower(a.alias), needle) then pairs else [])
      + JoinAliases(aliases[1..], foods, lang, needle)
  }

  /** `LexLe` without equality. */
  predicate LexLt(a: string, b: string) {
    !LexLe(b, a)
  }

  /** `ORDER BY a.alias ASC, f.name ASC`. */
  predicate AliasNameLe(p: (AliasRow, FoodRecord), q: (AliasRow, FoodRecord)) {
    LexLt(p.0.alias, q.0.alias) || (p.0.alias == q.0.alias && LexLe(p.1.name, q.1.name))
  }

  lemma AliasNameOrderTotal()
    ensures Total(AliasNameLe)
  {
    forall p: (AliasRow, FoodRecord), q: (AliasRow, FoodRecord)
      ensures AliasNameLe(p, q) || AliasNameLe(q, p)
    {
      LexLeTotal(p.1.name, q.1.name);
      LexLeTotal(p.0.alias, q.0.alias);
      if LexLe(p.0.alias, q.0.alias) && LexLe(q.0.alias, p.0.alias) {
        LexLeAntisymmetric(p.0.alias, q.0.alias);
      }
    }
  }

  /** `search_foods_by_alias`: the safe foods with an alias in language
      `lang` whose lower-cased text contains the stripped, lower-cased
      query, ordered by alias then food name, at most `limit` of them (a
      negative limit is no limit, as in SQLite). */
  function SearchFoodsByAlias(foods: seq<FoodRecord>, aliases: seq<AliasRow>, query: string,
                              lang: string := "zh", limit: int := 20): (r: seq<FoodRecord>)
    ensures Lower(Strip(query)) == [] ==> r == []
    ensures 0 <= limit ==> |r| <= limit
    ensures forall x :: x in r ==>
              && x in foods && !IsToxicFoodName(x.name)
              && exists a :: a in aliases && a.foodId == x.id && a.lang == Lower(Strip(lang))
                                          && Contains(Lower(a.alias), Lower(Strip(query)))
  {
    var normalized := Lower(Strip(query));
    if normalized == [] then []
    else
      var joined := JoinAliases(aliases, foods, Lower(Strip(lang)), normalized);
      AliasNameOrderTotal();
      var rows := Limit(SortBy(joined, AliasNameLe), limit);
      var named := seq(|rows|, i requires 0 <= i < |rows| => rows[i].1);
      forall x | x in named
        ensures exists a :: a in aliases && a.foodId == x.id && a.lang == Lower(Strip(lang))
                            && Contains(Lower(a.alias), normalized)
        ensures x in foods
      {
        var i :| 0 <= i < |rows| && rows[i].1 == x;
        assert rows[i] in multiset(joined);
      }
      RowsToRecords(named)
  }

  /** A safe food with a matching alias is found whenever no more than
      `limit` alias rows match (or the limit is negative). */
  lemma AliasSearchFinds(foods: seq<FoodRecord>, aliases: seq<AliasRow>, query: string, lang: string,
                         limit: int, a: AliasRow, f: FoodRecord)
    requires Lower(Strip(query)) != []
    requires a in aliases && f in foods && f.id == a.foodId && !IsToxicFoodName(f.name)
    requires a.lang == Lower(Strip(lang)) && Contains(Lower(a.alias), Lower(Strip(query)))
    requires limit < 0 || |JoinAliases(aliases, foods, Lower(Strip(lang)), Lower(Strip(query)))| <= limit
    ensures f in SearchFoodsByAlias(foods, aliases, query, lang, limit)
  {
    var joined := JoinAliases(aliases, foods, Lower(Strip(lang)), Lower(Strip(query)));
    assert (a, f) in joined;
    AliasNameOrderTotal();
    var sorted := SortBy(joined, AliasNameLe);
    assert (a, f) in multiset(joined);
    assert (a, f) in sorted;
    var rows := Limit(sorted, limit);
    assert rows == sorted;
    var named := seq(|rows|, i requires 0 <= i < |rows| => rows[i].1);
    var i :| 0 <= i < |rows| && rows[i] == (a, f);
    assert named[i] == f;
    assert f in RowsToRecords(named);
  }

  // ---------------------------------------------------------------------
  // Energy

  /** `calculate_kcal_for_grams`: negative inputs are rejected, energy per
      100 g first. */
  function CalculateKcalForGrams(kcalPer100g: real, grams: real): (r: Result<real, string>)
    ensures r.Failure? <==> kcalPer100g < 0.0 || grams < 0.0
    ensures kcalPer100g < 0.0 ==> r == Failure("kcal_per_100g must be >= 0")
    ensures kcalPer100g >= 0.0 && grams < 0.0 ==> r == Failure("grams must be >= 0")
    ensures r.Success? ==> r.value >= 0.0
  {
    if kcalPer100g < 0.0 then Failure("kcal_per_100g must be >= 0")
    else if grams < 0.0 then Failure("grams must be >= 0")
    else Success((kcalPer100g * grams) / 100.0)
  }

  /** Energy is proportional to weight: 100 g carry the per-100 g value,
      and two portions carry the sum of their energies. */
  lemma KcalProportional(kcalPer100g: real, g1: real, g2: real)
    requires kcalPer100g >= 0.0 && g1 >= 0.0 && g2 >= 0.0
    ensures CalculateKcalForGrams(kcalPer100g, 100.0) == Success(kcalPer100g)
    ensures CalculateKcalForGrams(kcalPer100g, g1 + g2).value
            == CalculateKcalForGrams(kcalPer100g, g1).value + CalculateKcalForGrams(kcalPer100g, g2).value
  {
  }
}
