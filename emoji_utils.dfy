/** The runtime filters of src/data/emoji-utils.ts: the tag normaliser,
    the emoji filter and the choice of category tabs. The emoji list they
    read is a generated file, so it is a parameter here. */
module EmojiUtils {
  import opened Seqs
  import opened Types
  import opened Categories

  /** `defaultCategories` (line 6): the tabs that are always offered. */
  const DefaultCategories: seq<string> := ["smileys", "animals", "food", "symbols"]

  // ---------------------------------------------------------------------
  // validateEmojiCategory (lines 12-18)
  // ---------------------------------------------------------------------

  /** An empty or undefined tag (both written "") and a tag outside the
      category table become "objects"; a tag of the table, "all"
      included, is kept. */
  function ValidateEmojiCategory(category: string): (r: string)
    ensures r == if IsCategoryValue(category) then category else "objects"
    ensures IsCategoryValue(r) && r != ""
  {
    TableValues(category);
    TableValues("objects");
    TableValues("");
    if category == "" then "objects"
    else
      match FindCategory(category)
      case Some(_) => category
      case None => "objects"
  }

  /** Normalising a normalised tag changes nothing. */
  lemma ValidateIdempotent(category: string)
    ensures ValidateEmojiCategory(ValidateEmojiCategory(category)) == ValidateEmojiCategory(category)
  {
  }

  /** `{ ...emoji, category: validateEmojiCategory(emoji.category) }` (lines 28-31). */
  function Normalize(e: EmojiItem): (r: EmojiItem)
    ensures r.name == e.name && r.path == e.path
    ensures IsCategoryValue(r.category) && r.category != ""
    ensures IsCategoryValue(e.category) ==> r == e
  {
    e.(category := ValidateEmojiCategory(e.category))
  }

  /** A list whose tags are all in the category table is already normalised. */
  lemma {:induction false} NormalizeValidList(list: seq<EmojiItem>)
    requires forall e :: e in list ==> IsCategoryValue(e.category)
    ensures Map(Normalize, list) == list
  {
    forall i | 0 <= i < |list| ensures Map(Normalize, list)[i] == list[i] {
      assert list[i] in list;
      var c := list[i].category;
      assert ValidateEmojiCategory(c) == c;
      assert Map(Normalize, list)[i] == Normalize(list[i]);
    }
  }

  // ---------------------------------------------------------------------
  // filterEmojisByCategories (lines 25-50)
  // ---------------------------------------------------------------------

  /** `categories.includes('all') || categories.length === 0` (lines 34 and 76). */
  predicate SelectsAll(categories: seq<string>)
    ensures !SelectsAll(categories) ==> |categories| >= 1 && forall i :: 0 <= i < |categories| ==> categories[i] != "all"
  {
    "all" in categories || |categories| == 0
  }

  /** The test of lines 40-41: the tag, with "" read as "objects", is selected. */
  predicate InSelection(categories: seq<string>, e: EmojiItem)
  {
    (if e.category == "" then "objects" else e.category) in categories
  }

  /** For a tag of the table or an empty tag, the test of lines 40-41 asks
      whether the validated tag is selected. */
  lemma InSelectionValidated(categories: seq<string>, e: EmojiItem)
    requires IsCategoryValue(e.category) || e.category == ""
    ensures InSelection(categories, e) <==> ValidateEmojiCategory(e.category) in categories
  {
  }

  /** The emojis to show for a selection of tabs, with their tags normalised. */
  function FilterEmojisByCategories(emojiList: seq<EmojiItem>, categories: seq<string> := DefaultCategories): (r: seq<EmojiItem>)
    ensures SelectsAll(categories) ==> |r| == |emojiList|
    ensures SelectsAll(categories) ==> forall i :: 0 <= i < |r| ==>
      r[i].name == emojiList[i].name && r[i].path == emojiList[i].path &&
      r[i].category == ValidateEmojiCategory(emojiList[i].category)
    ensures !SelectsAll(categories) ==> forall e :: e in r <==> e in Map(Normalize, emojiList) && e.category in categories
    ensures !SelectsAll(categories) ==> r == Filter((e: EmojiItem) => e.category in categories, Map(Normalize, emojiList))
    ensures Subsequence(r, Map(Normalize, emojiList))
    ensures forall e :: e in r ==> IsCategoryValue(e.category)
  {
    var validated := Map(Normalize, emojiList);
    ValidatedTags(emojiList);
    SubsequenceRefl(validated);
    if SelectsAll(categories) then validated
    else
      SelectedTags(categories, validated);
      FilterOrder((e: EmojiItem) => InSelection(categories, e), validated);
      FilterCongruent((e: EmojiItem) => InSelection(categories, e), (e: EmojiItem) => e.category in categories, validated);
      Filter((e: EmojiItem) => InSelection(categories, e), validated)
  }

  /** With a real selection, every copy of a selected record is kept: a
      record listed n times whose normalised tag is selected is shown n
      times, any other record not at all. */
  lemma FilterEmojisKeepsCopies(emojiList: seq<EmojiItem>, categories: seq<string>, e: EmojiItem)
    requires !SelectsAll(categories)
    ensures multiset(FilterEmojisByCategories(emojiList, categories))[e] ==
      if e.category in categories then multiset(Map(Normalize, emojiList))[e] else 0
  {
    FilterMultiplicity((x: EmojiItem) => x.category in categories, Map(Normalize, emojiList));
  }

  /** Every normalised record keeps its name and path and carries a tag of the table. */
  lemma ValidatedTags(emojiList: seq<EmojiItem>)
    ensures forall i :: 0 <= i < |emojiList| ==> Map(Normalize, emojiList)[i] == Normalize(emojiList[i])
    ensures forall e :: e in Map(Normalize, emojiList) ==> IsCategoryValue(e.category) && e.category != ""
  {
    var validated := Map(Normalize, emojiList);
    forall e | e in validated ensures IsCategoryValue(e.category) && e.category != "" {
      var i :| 0 <= i < |validated| && validated[i] == e;
      assert e == Normalize(emojiList[i]);
    }
  }

  /** On normalised records the test of lines 40-41 is membership of the tag. */
  lemma SelectedTags(categories: seq<string>, validated: seq<EmojiItem>)
    requires forall e :: e in validated ==> e.category != ""
    ensures forall e :: e in Filter((e: EmojiItem) => InSelection(categories, e), validated) <==> e in validated && e.category in categories
  {
  }

  lemma {:induction false} SubsequenceRefl<T>(s: seq<T>)
    ensures Subsequence(s, s)
  {
    if s != [] {
      SubsequenceRefl(s[1..]);
    }
  }

  /** Filtering what was filtered with the same selection changes nothing. */
  lemma FilterEmojisIdempotent(emojiList: seq<EmojiItem>, categories: seq<string>)
    ensures FilterEmojisByCategories(FilterEmojisByCategories(emojiList, categories), categories)
      == FilterEmojisByCategories(emojiList, categories)
  {
    var r := FilterEmojisByCategories(emojiList, categories);
    NormalizeValidList(r);
    NormalizeValidList(Map(Normalize, r));
    if !SelectsAll(categories) {
      var validated := Map(Normalize, emojiList);
      FilterIdempotent((e: EmojiItem) => InSelection(categories, e), validated);
    }
  }

  /** Leaving the selection out is selecting the four defaults (lines 6 and 25). */
  lemma FilterEmojisDefault(emojiList: seq<EmojiItem>)
    ensures FilterEmojisByCategories(emojiList) == FilterEmojisByCategories(emojiList, ["smileys", "animals", "food", "symbols"])
    ensures forall e :: e in FilterEmojisByCategories(emojiList) ==> e.category in DefaultCategories
  {
    assert !SelectsAll(DefaultCategories);
  }

  // ---------------------------------------------------------------------
  // filterCategories (lines 55-100)
  // ---------------------------------------------------------------------

  /** The tags the list uses, as they are, without normalisation (lines 66-70). */
  function RawCategories(emojiList: seq<EmojiItem>): (r: set<string>)
    ensures forall i :: 0 <= i < |emojiList| ==> emojiList[i].category in r
    ensures forall c :: c in r ==> exists i :: 0 <= i < |emojiList| && emojiList[i].category == c
  {
    set e | e in emojiList :: e.category
  }

  /** The "used" set after the defaults are added (line 73). */
  function UsedCategories(emojiList: seq<EmojiItem>): (r: set<string>)
    ensures RawCategories(emojiList) <= r
    ensures forall i :: 0 <= i < |DefaultCategories| ==> DefaultCategories[i] in r
  {
    RawCategories(emojiList) + set d | d in DefaultCategories
  }

  /** The filter of lines 80-83. */
  predicate ShownForAll(used: set<string>, c: EmojiCategory)
    ensures ShownForAll(used, c) ==> c != AllCategory && c.value in used
  {
    c.value != "all" && c.value in used
  }

  /** The filter of lines 89-93. */
  predicate ShownForSelection(categories: seq<string>, used: set<string>, c: EmojiCategory)
    ensures ShownForSelection(categories, used, c) && !SelectsAll(categories) ==> c != AllCategory
  {
    c.value in categories && (c.value in used || c.value in DefaultCategories)
  }

  /** The tabs to show out of `table`: the "all" tab first, then the table
      entries that the branch of lines 76-95 keeps, in table order. The
      table is a parameter so that the facts hold for any category table. */
  function CategoryTabs(table: seq<EmojiCategory>, emojiList: seq<EmojiItem>, categories: seq<string>): (r: seq<EmojiCategory>)
    ensures |r| >= 1 && r[0] == AllCategory
    ensures forall i :: 0 < i < |r| ==> r[i].value != "all"
    ensures Subsequence(r[1..], table)
  {
    var used := UsedCategories(emojiList);
    UsedMembers(emojiList);
    var shown :=
      if SelectsAll(categories) then
        (FilterOrder((c: EmojiCategory) => ShownForAll(used, c), table);
         Filter((c: EmojiCategory) => ShownForAll(used, c), table))
      else
        (FilterOrder((c: EmojiCategory) => ShownForSelection(categories, used, c), table);
         Filter((c: EmojiCategory) => ShownForSelection(categories, used, c), table));
    var r := [AllCategory] + shown;
    assert r[1..] == shown;
    assert forall i :: 0 < i < |r| ==> r[i] == shown[i - 1] && shown[i - 1] in shown;
    r
  }

  /** Without a real selection, the tabs after "all" are the table entries
      other than "all" whose tag an emoji carries or that are defaults. */
  lemma TabsForAll(table: seq<EmojiCategory>, emojiList: seq<EmojiItem>, categories: seq<string>, c: EmojiCategory)
    requires SelectsAll(categories)
    ensures c in CategoryTabs(table, emojiList, categories)[1..] <==>
      c in table && c.value != "all" && (c.value in RawCategories(emojiList) || c.value in DefaultCategories)
  {
    UsedMembers(emojiList);
    var r := CategoryTabs(table, emojiList, categories);
    assert r[1..] == Filter((c: EmojiCategory) => ShownForAll(UsedCategories(emojiList), c), table);
  }

  /** With a real selection, the tabs after "all" are the requested table
      entries whose tag an emoji carries or that are defaults. */
  lemma TabsForSelection(table: seq<EmojiCategory>, emojiList: seq<EmojiItem>, categories: seq<string>, c: EmojiCategory)
    requires !SelectsAll(categories)
    ensures c in CategoryTabs(table, emojiList, categories)[1..] <==>
      c in table && c.value in categories && (c.value in RawCategories(emojiList) || c.value in DefaultCategories)
  {
    UsedMembers(emojiList);
    var r := CategoryTabs(table, emojiList, categories);
    assert r[1..] == Filter((c: EmojiCategory) => ShownForSelection(categories, UsedCategories(emojiList), c), table);
  }

  /** A tag is used when some emoji carries it or it is a default. */
  lemma UsedMembers(emojiList: seq<EmojiItem>)
    ensures forall v :: v in UsedCategories(emojiList) <==> v in RawCategories(emojiList) || v in DefaultCategories
  {
  }

  /** `filterCategories`: collect the used tags into a set, add the
      defaults one by one, then filter the category table. */
  method FilterCategories(emojiList: seq<EmojiItem>, categories: seq<string> := DefaultCategories) returns (r: seq<EmojiCategory>)
    ensures r == CategoryTabs(EmojiCategories, emojiList, categories)
  {
    var used: set<string> := {};
    for i := 0 to |emojiList|
      invariant used == RawCategories(emojiList[..i])
    {
      assert emojiList[..i + 1] == emojiList[..i] + [emojiList[i]];
      used := used + {emojiList[i].category};
    }
    assert emojiList[..|emojiList|] == emojiList;
    for i := 0 to |DefaultCategories|
      invariant used == RawCategories(emojiList) + set d | d in DefaultCategories[..i]
    {
      assert DefaultCategories[..i + 1] == DefaultCategories[..i] + [DefaultCategories[i]];
      used := used + {DefaultCategories[i]};
    }
    assert DefaultCategories[..|DefaultCategories|] == DefaultCategories;
    assert used == UsedCategories(emojiList);
    var allCategory := EmojiCategory("all", "全部", "🌟");
    var table := EmojiCategories;
    if SelectsAll(categories) {
      r := [allCategory] + Filter((c: EmojiCategory) => ShownForAll(used, c), table);
    } else {
      r := [allCategory] + Filter((c: EmojiCategory) => ShownForSelection(categories, used, c), table);
    }
  }

  /** The "all" tab is listed once, whatever the selection. */
  lemma AllTabOnce(emojiList: seq<EmojiItem>, categories: seq<string>, i: nat)
    requires i < |CategoryTabs(EmojiCategories, emojiList, categories)|
    ensures CategoryTabs(EmojiCategories, emojiList, categories)[i].value == "all" <==> i == 0
  {
  }

  /** Without a real selection the four default tabs are always offered,
      even when no emoji uses them. */
  lemma DefaultTabsAlwaysShown(emojiList: seq<EmojiItem>, categories: seq<string>, d: string)
    requires SelectsAll(categories) && d in DefaultCategories
    ensures exists c :: c in CategoryTabs(EmojiCategories, emojiList, categories)[1..] && c.value == d
  {
    TableValues(d);
    var i :| 0 <= i < |EmojiCategories| && EmojiCategories[i].value == d;
    ShownDefault(EmojiCategories, emojiList, categories, EmojiCategories[i]);
  }

  lemma ShownDefault(table: seq<EmojiCategory>, emojiList: seq<EmojiItem>, categories: seq<string>, c: EmojiCategory)
    requires SelectsAll(categories) && c in table && c.value in DefaultCategories
    ensures c in CategoryTabs(table, emojiList, categories)[1..]
  {
  }

  /** With a real selection, only requested tabs of the table are offered. */
  lemma SelectedTabsAreRequested(table: seq<EmojiCategory>, emojiList: seq<EmojiItem>, categories: seq<string>, c: EmojiCategory)
    requires !SelectsAll(categories) && c in CategoryTabs(table, emojiList, categories)[1..]
    ensures c.value in categories && c in table
  {
  }

  /** When no requested tag is used or a default, only the "all" tab is offered. */
  lemma OnlyAllTab(table: seq<EmojiCategory>, emojiList: seq<EmojiItem>, categories: seq<string>)
    requires !SelectsAll(categories)
    requires forall v :: v in categories ==> v !in RawCategories(emojiList) && v !in DefaultCategories
    ensures CategoryTabs(table, emojiList, categories) == [AllCategory]
  {
    UsedMembers(emojiList);
    FilterDropsAll((c: EmojiCategory) => ShownForSelection(categories, UsedCategories(emojiList), c), table);
  }

  /** The "used" set is built from the raw tags (lines 66-70), not from the
      normalised ones: an emoji without a tag is shown under "objects", yet
      the "objects" tab is not offered for it. */
  lemma RawTagsHideObjectsTab()
    ensures FilterEmojisByCategories([EmojiItem("X", "x.svg", "")], ["objects"]) == [EmojiItem("X", "x.svg", "objects")]
    ensures CategoryTabs(EmojiCategories, [EmojiItem("X", "x.svg", "")], ["objects"]) == [AllCategory]
  {
    var list := [EmojiItem("X", "x.svg", "")];
    var validated := Map(Normalize, list);
    assert validated == [EmojiItem("X", "x.svg", "objects")];
    FilterKeepsAll((e: EmojiItem) => e.category in ["objects"], validated);
    assert RawCategories(list) == {""};
    OnlyAllTab(EmojiCategories, list, ["objects"]);
  }

  /** Every emoji without a tag is shown under the "objects" selection,
      tagged "objects". */
  lemma UntaggedIsShownAsObjects(emojiList: seq<EmojiItem>, e: EmojiItem)
    requires e in emojiList && e.category == ""
    ensures e.(category := "objects") in FilterEmojisByCategories(emojiList, ["objects"])
  {
    var i :| 0 <= i < |emojiList| && emojiList[i] == e;
    assert Map(Normalize, emojiList)[i] == e.(category := "objects");
  }

  /** Three smileys, two animals and a food item. */
  const ExampleList: seq<EmojiItem> := [
    EmojiItem("Grinning Face", "grinning-face.svg", "smileys"),
    EmojiItem("Winking Face", "winking-face.svg", "smileys"),
    EmojiItem("Crying Face", "crying-face.svg", "smileys"),
    EmojiItem("Cat", "cat.svg", "animals"),
    EmojiItem("Dog", "dog.svg", "animals"),
    EmojiItem("Pizza", "pizza.svg", "food")
  ]

  /** Selecting smileys and animals shows their five emojis ... */
  lemma ExampleEmojis()
    ensures FilterEmojisByCategories(ExampleList, ["smileys", "animals"]) == ExampleList[..5]
  {
    ExampleTagsValid();
    FilterOfValidList(ExampleList, ["smileys", "animals"]);
    ExampleSelection();
  }

  lemma ExampleTagsValid()
    ensures forall e :: e in ExampleList ==> IsCategoryValue(e.category)
  {
    TableValues("smileys");
    TableValues("animals");
    TableValues("food");
  }

  lemma ExampleSelection()
    ensures Filter((e: EmojiItem) => InSelection(["smileys", "animals"], e), ExampleList) == ExampleList[..5]
  {
    FirstFiveSelected(ExampleList, ["smileys", "animals"]);
  }

  /** On records already normalised the emoji filter is a plain filter. */
  lemma FilterOfValidList(list: seq<EmojiItem>, categories: seq<string>)
    requires !SelectsAll(categories)
    requires forall e :: e in list ==> IsCategoryValue(e.category)
    ensures FilterEmojisByCategories(list, categories) == Filter((e: EmojiItem) => InSelection(categories, e), list)
  {
    NormalizeValidList(list);
  }

  lemma FirstFiveSelected(list: seq<EmojiItem>, categories: seq<string>)
    requires |list| == 6
    requires forall i :: 0 <= i < 5 ==> list[i].category in categories && list[i].category != ""
    requires list[5].category !in categories && list[5].category != ""
    ensures Filter((e: EmojiItem) => InSelection(categories, e), list) == list[..5]
  {
    var p := (e: EmojiItem) => InSelection(categories, e);
    assert list == list[..5] + list[5..];
    FilterConcat(p, list[..5], list[5..]);
    FilterKeepsAll(p, list[..5]);
    FilterDropsAll(p, list[5..]);
  }

  /** ... and the tabs "all", "smileys" and "animals", in table order. */
  lemma ExampleTabs()
    ensures CategoryTabs(EmojiCategories, ExampleList, ["smileys", "animals"]) == [AllCategory, EmojiCategories[1], EmojiCategories[4]]
  {
    ExampleUsesBoth();
    TableValuesDistinct();
    TableSize();
    UsedTabsOfTwo(EmojiCategories, ExampleList, ["smileys", "animals"]);
  }

  lemma ExampleUsesBoth()
    ensures forall v :: v in ["smileys", "animals"] ==> v in RawCategories(ExampleList)
  {
    assert ExampleList[0].category == "smileys" && ExampleList[3].category == "animals";
  }

  /** When both requested tags are used and only the second and fifth of
      fifteen entries carry them, those two are the tabs after "all". */
  lemma UsedTabsOfTwo(table: seq<EmojiCategory>, list: seq<EmojiItem>, categories: seq<string>)
    requires |table| == 15 && |categories| == 2 && !SelectsAll(categories)
    requires forall v :: v in categories ==> v in RawCategories(list)
    requires table[1].value == categories[0] && table[4].value == categories[1]
    requires forall i :: 0 <= i < |table| && i != 1 && i != 4 ==> table[i].value !in categories
    ensures CategoryTabs(table, list, categories) == [AllCategory, table[1], table[4]]
  {
    TabsWhenAllUsed(table, list, categories);
    TabsOfTwo(table, categories);
  }

  /** When every requested tag is used, the tabs are the requested entries of the table. */
  lemma TabsWhenAllUsed(table: seq<EmojiCategory>, list: seq<EmojiItem>, categories: seq<string>)
    requires !SelectsAll(categories)
    requires forall v :: v in categories ==> v in RawCategories(list)
    ensures CategoryTabs(table, list, categories) == [AllCategory] + Filter((c: EmojiCategory) => c.value in categories, table)
  {
    var used := UsedCategories(list);
    UsedMembers(list);
    FilterCongruent((c: EmojiCategory) => ShownForSelection(categories, used, c), (c: EmojiCategory) => c.value in categories, table);
  }

  lemma TabsOfTwo(table: seq<EmojiCategory>, categories: seq<string>)
    requires |table| == 15 && |categories| == 2
    requires table[1].value == categories[0] && table[4].value == categories[1]
    requires forall i :: 0 <= i < |table| && i != 1 && i != 4 ==> table[i].value !in categories
    ensures Filter((c: EmojiCategory) => c.value in categories, table) == [table[1], table[4]]
  {
    FilterTwo((c: EmojiCategory) => c.value in categories, table, 1, 4);
  }
}
