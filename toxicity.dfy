/** toxicity.py: the safety predicate the optimizer applies to candidate
    foods. */
module Toxicity {
  import opened Text

  /** Unsafe-ingredient keywords for dogs, English and Chinese
      (`TOXIC_KEYWORDS`). */
  const ToxicKeywords: set<string> := {
    "onion", "garlic", "chive", "leek", "chocolate", "cocoa", "grape", "raisin",
    "xylitol", "alcohol", "macadamia", "avocado pit", "coffee", "tea leaf",
    "洋葱", "大蒜", "韭菜", "巧克力", "可可", "葡萄", "葡萄干", "木糖醇", "酒精", "夏威夷果"
  }

  /** `is_toxic_food_name`: the stripped, lower-cased name is checked against
      every keyword; a blank name is never toxic. */
  predicate IsToxicFoodName(name: string) {
    var lowered := Lower(Strip(name));
    if lowered == [] then false
    else exists k :: k in ToxicKeywords && Contains(lowered, k)
  }

  /** Every keyword is lower-case already, is not empty, and neither starts
      nor ends with whitespace. */
  lemma KeywordsWellFormed(k: string)
    requires k in ToxicKeywords
    ensures k != [] && !IsSpace(k[0]) && !IsSpace(k[|k| - 1])
    ensures Lower(k) == k
  {
  }

  /** An empty or all-whitespace name is never toxic. */
  lemma BlankNameIsSafe(name: string)
    requires forall i :: 0 <= i < |name| ==> IsSpace(name[i])
    ensures !IsToxicFoodName(name)
  {
    StripEmptyIffBlank(name);
  }

  /** The empty-name guard changes nothing: a name is toxic exactly when some
      keyword occurs in its stripped, lower-cased form. */
  lemma ToxicIffKeyword(name: string)
    ensures IsToxicFoodName(name) <==>
            exists k :: k in ToxicKeywords && Contains(Lower(Strip(name)), k)
  {
    var lowered := Lower(Strip(name));
    if lowered == [] {
      forall k | k in ToxicKeywords
        ensures !Contains(lowered, k)
      {
        KeywordsWellFormed(k);
      }
    }
  }

  /** Only the lower-cased name matters: names that lower-case alike are
      equally toxic. */
  lemma {:induction false} CaseInsensitive(a: string, b: string)
    requires Lower(a) == Lower(b)
    ensures IsToxicFoodName(a) == IsToxicFoodName(b)
  {
    StripLower(a);
    StripLower(b);
  }

  /** Containment is a substring test, so text added around a toxic name
      leaves it toxic. */
  lemma {:induction false} ToxicSurrounded(pre: string, name: string, post: string)
    requires IsToxicFoodName(name)
    ensures IsToxicFoodName(pre + name + post)
  {
    var k :| k in ToxicKeywords && Contains(Lower(Strip(name)), k);
    KeywordsWellFormed(k);
    StripLower(name);
    ContainsFromStrip(Lower(name), k);
    ContainsWithin(Lower(pre), Lower(name), Lower(post), k);
    LowerConcat(pre, name);
    LowerConcat(pre + name, post);
    ContainsThroughStrip(Lower(pre + name + post), k);
    StripLower(pre + name + post);
  }

  /** The cases the test suite pins down. */
  lemma OnionIsToxic()
    ensures IsToxicFoodName("洋葱")
  {
    var s := "洋葱";
    assert TrimStart(s) == s && TrimEnd(s) == s && Lower(s) == s;
    assert OccursAt(s, "洋葱", 0);
  }

  lemma DarkChocolateIsToxic()
    ensures IsToxicFoodName("dark chocolate")
  {
    var s := "dark chocolate";
    assert TrimStart(s) == s && TrimEnd(s) == s && Lower(s) == s;
    assert OccursAt(s, "chocolate", 5);
  }

  lemma ChickenBreastIsSafe()
    ensures !IsToxicFoodName("鸡胸肉")
  {
    var s := "鸡胸肉";
    assert TrimStart(s) == s && TrimEnd(s) == s && Lower(s) == s;
    forall k | k in ToxicKeywords
      ensures !Contains(s, k)
    {
      KeywordsWellFormed(k);
      if Contains(s, k) {
        ContainsFirstChar(s, k);
      }
    }
  }
}
