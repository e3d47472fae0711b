/** The category table (src/data/emoji-categories.ts): fifteen tabs, the
    "all" sentinel first, then the fourteen real categories, and the two
    backward-compatibility lookups. */
module Categories {
  import opened Seqs
  import opened Types

  /** The "all" tab, meaning "do not filter". */
  const AllCategory: EmojiCategory := EmojiCategory("all", "全部", "🌟")

  const EmojiCategories: seq<EmojiCategory> := [
    AllCategory,
    EmojiCategory("smileys", "表情", "😊"),
    EmojiCategory("people", "人物", "👨‍👩‍👧"),
    EmojiCategory("gestures", "手势", "👋"),
    EmojiCategory("animals", "动物", "🐱"),
    EmojiCategory("food", "食物", "🍔"),
    EmojiCategory("drinks", "饮品", "🍹"),
    EmojiCategory("travel", "旅行", "🏖️"),
    EmojiCategory("places", "地点", "🏢"),
    EmojiCategory("transportation", "交通", "🚗"),
    EmojiCategory("activities", "活动", "⚽"),
    EmojiCategory("objects", "物品", "💡"),
    EmojiCategory("nature", "自然", "🌿"),
    EmojiCategory("symbols", "符号", "♥️"),
    EmojiCategory("flags", "旗帜", "🏁")
  ]

  /** The tags of the fourteen real categories (every value but "all"). */
  const RealCategoryValues: set<string> := {
    "smileys", "people", "gestures", "animals", "food", "drinks", "travel",
    "places", "transportation", "activities", "objects", "nature", "symbols", "flags"
  }

  /** A tag that names some entry of the table, "all" included. */
  predicate IsCategoryValue(v: string)
  {
    exists i :: 0 <= i < |EmojiCategories| && EmojiCategories[i].value == v
  }

  /** `emojiCategories.find(cat => cat.value === v)`. */
  function FindCategory(v: string): (r: Option<EmojiCategory>)
    ensures r.Some? <==> IsCategoryValue(v)
    ensures r.Some? ==> r.value in EmojiCategories && r.value.value == v
  {
    Find((d: EmojiCategory) => d.value == v, EmojiCategories)
  }

  /** Fifteen entries, the "all" sentinel first. */
  lemma TableSize()
    ensures |EmojiCategories| == 15 && EmojiCategories[0] == AllCategory && AllCategory.value == "all"
  {
  }

  /** No two entries carry the same tag. */
  lemma TableValuesDistinct()
    ensures forall i, j :: 0 <= i < j < |EmojiCategories| ==> EmojiCategories[i].value != EmojiCategories[j].value
  {
  }

  /** The tags of the table are "all" and the fourteen real categories, and nothing else. */
  lemma TableValues(v: string)
    ensures IsCategoryValue(v) <==> v == "all" || v in RealCategoryValues
  {
    var i :=
      if v == "smileys" then 1 else if v == "people" then 2 else if v == "gestures" then 3
      else if v == "animals" then 4 else if v == "food" then 5 else if v == "drinks" then 6
      else if v == "travel" then 7 else if v == "places" then 8 else if v == "transportation" then 9
      else if v == "activities" then 10 else if v == "objects" then 11 else if v == "nature" then 12
      else if v == "symbols" then 13 else if v == "flags" then 14 else 0;
    assert v in RealCategoryValues ==> EmojiCategories[i].value == v;
  }

  /** Only the first entry carries the "all" tag. */
  lemma OnlyFirstIsAll(i: int)
    requires 0 < i < |EmojiCategories|
    ensures EmojiCategories[i].value != "all" && EmojiCategories[i].value in RealCategoryValues
  {
  }

  /** `getSubcategories`: there are no sub-categories any more. */
  function GetSubcategories(): (r: seq<EmojiCategory>)
    ensures r == []
  {
    []
  }

  /** `getMainCategory`: every category is its own main category. */
  function GetMainCategory(category: string): (r: string)
    ensures r == category
  {
    category
  }
}
