# fluent-emoji-ms — the emoji catalogue, its filters and the selector state

This project models the data core of fluent-emoji-ms, a Vue component library
that shows the Fluent UI emoji set. The model covers:

- **The list generator** (scripts/generate-emoji-list.js). It scans the icon
  directory and keeps the `.svg` files. It turns each file name into a display
  name (`formatNameFromPath`) and guesses a category from a keyword table
  (`guessCategory` over `CATEGORY_MAP`). It also writes the category table.
- **The category table** (src/data/emoji-categories.ts): fifteen tabs, the
  `all` sentinel first, and two backward-compatibility lookups.
- **The style table** (src/data/emoji-styles.ts) and `getStyleName`.
- **The runtime filters** (src/data/emoji-utils.ts):
  - `validateEmojiCategory`;
  - `filterEmojisByCategories`, which picks the emojis of the selected tabs;
  - `filterCategories`, which picks the tabs to offer.
- **The global configuration store** (src/config/index.ts). `updateConfig`
  merges properties into one section with `Object.assign`.
- **The selector composable** (src/composables/useEmojiSelector.ts): the
  current selection, the CDN switch and the image-URL builder.

## How the model is organised

- Each module follows one source file: `Categories`, `Styles`, `KeywordTable`
  and `Generator`, `EmojiUtils`, `Config`, `Selector`.
- `Seqs` and `Text` define the JavaScript array and string operations the
  source relies on, once:
  - `filter`, `find`, `map`;
  - `toLowerCase`, `includes`/`indexOf`, `endsWith`;
  - `replace` with a string pattern, `split`, `join`.
- The generated emoji list is a parameter of the runtime filters. The
  generator's input is the directory listing.
- The keyword table is the ordered list of pairs that `Object.entries` yields
  for `CATEGORY_MAP`. The object literal defines `light` twice (lines 49 and
  375) and `mouse` twice (lines 124 and 363). JavaScript keeps such a key at
  the position of its first definition, with the value of its last one. The
  table therefore holds `("light", "objects")` among the people keywords and
  `("mouse", "objects")` among the animal keywords. `GuessLight` and
  `GuessMouse` state the consequence.
- `updateConfig` and the selector change state in place. They are methods of
  the classes `Config.ConfigStore` and `Selector.EmojiSelector`. The loops of
  `guessCategory` and `filterCategories` are methods with loop invariants.
  Each method is proved equal to the pure function that the other facts are
  stated about.
- Two behaviours of the source are kept as written and stated as facts:
  - `replace('.svg', '')` removes the first `.svg` of a file name, wherever it
    is (`Generator.StemRemovesFirstOccurrence`).
  - `filterCategories` looks at the raw tags, while `filterEmojisByCategories`
    looks at the validated ones. An emoji without a tag is shown under
    "objects", yet the "objects" tab is not offered for it
    (`EmojiUtils.RawTagsHideObjectsTab`).

## Model

A few helpers that only compute have no row of their own. The rows of the
lemmas about them state what they mean:

- `Generator.IsSvgFile` is the `endsWith('.svg')` test of line 571. See
  `Text.EndsWith`, `Generator.BuildEmojiList` and
  `Generator.BuildEmojiListCounts`.
- `EmojiUtils.InSelection` is the test of src/data/emoji-utils.ts lines 40-41.
  See `EmojiUtils.InSelectionValidated` and `EmojiUtils.SelectedTags`.
- `KeywordTable.Concat` and `KeywordTable.CategoryMap` are
  `Object.entries(CATEGORY_MAP)`, built from the sections of lines 16-503. See
  `KeywordTable.Tag`, `Generator.SectionsLayout`, `Generator.ConcatValues`,
  `Generator.FindInSections` and `Generator.CategoryMapValues`.

| member | source | states |
|---|---|---|
| Seqs.Filter | src/data/emoji-utils.ts:39-42 | `Array.prototype.filter`: an element is in the result exactly when it is in the input and satisfies the predicate |
| Seqs.FilterOrder | src/data/emoji-utils.ts:39-42 | the filter keeps the elements in their original order (the result is a subsequence of the input) |
| Seqs.FilterMultiplicity | scripts/generate-emoji-list.js:570-571 | the filter keeps every copy of an element that satisfies the predicate and drops every copy of the others |
| Seqs.FilterKeepsAll | src/data/emoji-utils.ts:39-42 | when every element satisfies the predicate, the filter returns its input |
| Seqs.FilterDropsAll | src/data/emoji-utils.ts:89-93 | when no element satisfies the predicate, the filter returns the empty list |
| Seqs.FilterFirst | src/data/emoji-utils.ts:89-93 | when the element at position i is the first to satisfy the predicate, the filter result starts with it and continues with the filtered rest |
| Seqs.FilterLastHit | src/data/emoji-utils.ts:89-93 | when position k is the only hit after position i, the filter of what follows i is that one element |
| Seqs.FilterTwo | src/data/emoji-utils.ts:89-93 | when exactly two positions i < k satisfy the predicate, the filter yields those two elements in that order |
| Seqs.FilterConcat | src/data/emoji-utils.ts:89-93 | filtering a concatenation is concatenating the filtered parts |
| Seqs.FilterIdempotent | src/data/emoji-utils.ts:39-42 | filtering twice with the same predicate is filtering once |
| Seqs.FilterCongruent | src/data/emoji-utils.ts:89-93 | two predicates that agree on every element give the same filter result |
| Seqs.Find | src/data/emoji-utils.ts:16 | `Array.prototype.find`: no result exactly when no element matches; otherwise the result is a matching element with no match before it |
| Seqs.FindFirst | scripts/generate-emoji-list.js:514-518 | the first matching element is the one `find` returns |
| Seqs.FindConcat | scripts/generate-emoji-list.js:514-525 | searching a concatenation searches the left part first, then the right part |
| Seqs.FindIgnoresFiltered | scripts/generate-emoji-list.js:521-525 | elements that cannot match can be dropped without changing what `find` returns |
| Seqs.Map | scripts/generate-emoji-list.js:572 | `Array.prototype.map` keeps the length and applies the function at every position |
| Text.LowerChar | scripts/generate-emoji-list.js:511 | `toLowerCase` on one character: the result is never upper-case, upper-case letters become lower-case letters, and other characters are kept |
| Text.UpperChar | scripts/generate-emoji-list.js:546 | `toUpperCase` on one character: the result is never lower-case, and other characters are kept |
| Text.ToLower | scripts/generate-emoji-list.js:511 | `toLowerCase` keeps the length |
| Text.ToLowerIdempotent | scripts/generate-emoji-list.js:511 | lower-casing twice is lower-casing once (the name is lower-cased both by the caller at line 574 and by `guessCategory`) |
| Text.ToLowerOfLowerCase | scripts/generate-emoji-list.js:511 | a string without upper-case letters is its own lower-case form |
| Text.LowerOfUpper | scripts/generate-emoji-list.js:546 | lower-casing an upper-cased character is lower-casing it |
| Text.ToLowerKeepsUncased | scripts/generate-emoji-list.js:511 | lower-casing neither adds nor removes a character without case, such as '-' |
| Text.SameFromIff | scripts/generate-emoji-list.js:515 | comparing equal-length strings character by character from position j on is equality of their tails |
| Text.EqualTextIff | scripts/generate-emoji-list.js:515 | character-by-character comparison decides `===` on strings |
| Text.MatchesAtIff | scripts/generate-emoji-list.js:522 | the character-by-character match of a pattern at a position is equality of the slice |
| Text.IndexOfFrom | scripts/generate-emoji-list.js:522 | the scan from position k finds the first occurrence at or after k, or reports that there is none |
| Text.IndexOf | scripts/generate-emoji-list.js:541 | `indexOf` gives the first position where the pattern occurs, or none when it occurs nowhere |
| Text.IncludesAt | scripts/generate-emoji-list.js:522 | a pattern that occurs anywhere makes `includes` hold |
| Text.IncludedCharsOccur | scripts/generate-emoji-list.js:522 | every character of an included pattern occurs in the string |
| Text.IncludedByEmpty | scripts/generate-emoji-list.js:522 | the empty string includes exactly the empty pattern |
| Text.Includes | scripts/generate-emoji-list.js:522 | `includes` holds exactly when the pattern occurs at some position |
| Text.EndsWith | scripts/generate-emoji-list.js:571 | `endsWith` holds exactly when the string is some text followed by the pattern |
| Text.RemoveFirst | scripts/generate-emoji-list.js:541 | `replace(p, '')` returns a string without `p` unchanged and otherwise removes exactly the first occurrence of `p`: the text before it followed by the text after it |
| Text.RemoveFirstSuffix | scripts/generate-emoji-list.js:541 | when the only occurrence is at the end, the replacement strips that suffix |
| Text.Split | scripts/generate-emoji-list.js:545 | `split` on a one-character separator gives one more piece than there are separators, and no piece holds the separator |
| Text.CountChar | scripts/generate-emoji-list.js:545 | the number of separators is at most the length, and zero exactly when the separator does not occur |
| Text.Join | scripts/generate-emoji-list.js:547 | joining no pieces gives ""; otherwise the joined string starts with the first piece |
| Text.CountCharPointwise | scripts/generate-emoji-list.js:545-547 | two equal-length strings with x and y at the same positions hold as many of each |
| Text.JoinSplit | scripts/generate-emoji-list.js:545-547 | joining the pieces of a split with the same separator gives back the string |
| Text.JoinConsFirst | scripts/generate-emoji-list.js:547 | prepending a character to the first piece prepends it to the joined string |
| Categories.FindCategory | src/data/emoji-utils.ts:16 | the lookup of a tag in the category table succeeds exactly for a tag of the table, and returns the entry with that tag |
| Categories.TableSize | src/data/emoji-categories.ts:8-84 | the table has fifteen entries, the "all" entry first |
| Categories.TableValuesDistinct | src/data/emoji-categories.ts:8-84 | no two entries carry the same tag |
| Categories.TableValues | src/data/emoji-categories.ts:8-84 | the tags of the table are exactly "all" and the fourteen real categories |
| Categories.OnlyFirstIsAll | src/data/emoji-categories.ts:8-84 | every entry after the first carries a real category tag |
| Categories.GetSubcategories | src/data/emoji-categories.ts:88 | `getSubcategories` returns no sub-categories |
| Categories.GetMainCategory | src/data/emoji-categories.ts:89 | `getMainCategory` maps every category to itself |
| Styles.GetStyleName | src/data/emoji-styles.ts:17-20 | a known style value gives that style's display name; an unknown value is returned unchanged |
| Styles.StylesShape | src/data/emoji-styles.ts:6-10 | there are three styles, "modern", "flat" and "high-contrast", with distinct values |
| Styles.KnownStyleNames | src/data/emoji-styles.ts:6-20 | the display names of the three styles |
| Styles.UnknownStyleName | src/data/emoji-styles.ts:17-20 | any value other than "modern", "flat" and "high-contrast" is returned unchanged |
| KeywordTable.Tag | scripts/generate-emoji-list.js:16-503 | a section of the keyword table pairs each of its keywords, in order, with the section's category |
| Generator.ExactMatch | scripts/generate-emoji-list.js:514-518 | the exact pass finds nothing exactly when no keyword equals the name; otherwise it returns an entry whose keyword equals the name and before which no keyword does |
| Generator.PartialMatch | scripts/generate-emoji-list.js:521-525 | the substring pass finds nothing exactly when the name includes no keyword; otherwise it returns an entry whose keyword the name includes and before which the name includes none |
| Generator.Classify | scripts/generate-emoji-list.js:510-529 | over any keyword table, the result is "objects" or the category of some entry |
| Generator.GuessCategory | scripts/generate-emoji-list.js:510-529 | the category guessed for any name is one of the fourteen real categories |
| Generator.ClassifyExact | scripts/generate-emoji-list.js:514-518 | a name equal to a keyword gets the category of the first such keyword, whatever keywords before it the name contains |
| Generator.ClassifyPartial | scripts/generate-emoji-list.js:521-525 | with no exact match, the name gets the category of the first keyword in table order that it includes |
| Generator.ClassifyFallback | scripts/generate-emoji-list.js:528 | with neither kind of match, the category is "objects" |
| Generator.ClassifyIgnoresCase | scripts/generate-emoji-list.js:511 | classification depends only on the lower-cased name |
| Generator.ClassifyWithin | scripts/generate-emoji-list.js:510-529 | every result is a category of the table or the "objects" fallback |
| Generator.ClassifyIgnoresHyphenated | scripts/generate-emoji-list.js:521-525 | for a name without '-', dropping the keywords that contain '-' does not change the result |
| Generator.ClassifyLoops | scripts/generate-emoji-list.js:510-529 | the two early-return loops, over any keyword table, compute the classifier |
| Generator.GuessCategoryLoops | scripts/generate-emoji-list.js:510-529 | the loops run over `Object.entries(CATEGORY_MAP)` compute `GuessCategory`, and the result is a real category |
| Generator.FormatNameFromPath | scripts/generate-emoji-list.js:536-548 | the name has the stem's length; '-' becomes a space, the first character of each word is upper-cased, and every other character is kept |
| Generator.Stem | scripts/generate-emoji-list.js:541 | a file name without ".svg" is kept; otherwise exactly its first ".svg" is removed |
| Generator.Capitalize | scripts/generate-emoji-list.js:546 | capitalizing keeps the length, upper-cases the first character and keeps every other one |
| Generator.TitleChar | scripts/generate-emoji-list.js:544-547 | a formatted character is never '-': a hyphen becomes a space and any other character keeps its letter, up to case |
| Generator.Title | scripts/generate-emoji-list.js:544-547 | the one-pass formatting keeps the length of the stem |
| Generator.Words | scripts/generate-emoji-list.js:546 | the capitalized pieces are as many as the pieces; every piece after the first is capitalized, and the first is capitalized when it starts a word |
| Generator.TitleWords | scripts/generate-emoji-list.js:544-547 | split, capitalize and join equals the one-pass, character-by-character formatting of the stem |
| Generator.WordsAfterHyphen | scripts/generate-emoji-list.js:545-547 | an empty first piece (left by a leading hyphen) is kept empty, and every later piece starts a word and is capitalized |
| Generator.WordsAfterLetter | scripts/generate-emoji-list.js:545-547 | a character other than a hyphen joins the first piece of the rest of the stem |
| Generator.JoinCons | scripts/generate-emoji-list.js:547 | joining a piece before a non-empty list puts the separator between it and the joined list |
| Generator.WordsCapitalized | scripts/generate-emoji-list.js:546 | capitalizing every piece is mapping `charAt(0).toUpperCase() + slice(1)` over the pieces |
| Generator.TitleAt | scripts/generate-emoji-list.js:544-547 | the one-pass formatting keeps the length and gives, at each position, the space, the capital or the kept character |
| Generator.TitleIsTitleChar | scripts/generate-emoji-list.js:544-547 | the one-pass formatting equals the per-position description |
| Generator.TitleTail | scripts/generate-emoji-list.js:544-547 | after the first character, the one-pass formatting continues with the formatting of the rest |
| Generator.FormattedNameHasNoHyphen | scripts/generate-emoji-list.js:545-547 | a formatted name holds no '-' |
| Generator.FormattedWordCount | scripts/generate-emoji-list.js:545-547 | for a stem without spaces, the name has one more word than the stem has hyphens |
| Generator.Hyphenate | scripts/generate-emoji-list.js:545 | turning spaces back into hyphens keeps the length |
| Generator.FormatNameRestoresStem | scripts/generate-emoji-list.js:541-547 | for a stem without spaces, formatting loses only case: lower-casing the name and turning its spaces into hyphens gives the lower-cased stem |
| Generator.StemOfSvgFile | scripts/generate-emoji-list.js:541 | a file name whose only ".svg" is its extension loses exactly that suffix |
| Generator.StemRemovesFirstOccurrence | scripts/generate-emoji-list.js:541 | `replace` removes the first ".svg", not the extension: "a.svg-b.svg" becomes "a-b.svg" |
| Generator.BuildEmojiList | scripts/generate-emoji-list.js:570-581 | there is one record per SVG file, in listing order. Each record's path is that file, its name is the file's formatted name (without '-'), and its category is the guess for the lower-cased name |
| Generator.MakeRecord | scripts/generate-emoji-list.js:572-580 | a record's path is the file, its name is the formatted file name and holds no '-', and its category is the guess for the lower-cased name, a real category |
| Generator.RecordsOf | scripts/generate-emoji-list.js:572-581 | the records of a list of files have those files as paths, in order, and every file has its record |
| Generator.BuildEmojiListCounts | scripts/generate-emoji-list.js:570-571 | an SVG file listed n times yields n records and any other file yields none, and the records follow the listing order |
| Generator.GeneratedCategoryIgnoresHyphenatedKeywords | scripts/generate-emoji-list.js:573-574 | a generated record's category is unchanged when the table's hyphenated keywords, such as "heart-eyes", are dropped |
| Generator.GeneratedCategories | scripts/generate-emoji-list.js:615-631 | the generator writes exactly the category table the application reads |
| Generator.CategoryMapValues | scripts/generate-emoji-list.js:16-503 | every category in the keyword table is one of the fourteen real categories |
| Generator.ConcatValues | scripts/generate-emoji-list.js:16-503 | if every section's categories lie in a set, so do the categories of the whole table |
| Generator.FindInSections | scripts/generate-emoji-list.js:514-525 | a search through the table skips the sections with no match and stops in the first section that has one |
| Generator.NoMatchInSections | scripts/generate-emoji-list.js:514-525 | when no section has a match, the whole table has none |
| Generator.ExactInSections | scripts/generate-emoji-list.js:514-518 | the exact pass over the table returns the hit of the first section that has an equal keyword |
| Generator.PartialInSections | scripts/generate-emoji-list.js:521-525 | the substring pass over the table returns the hit of the first section that has an included keyword |
| Generator.NoExactInSections | scripts/generate-emoji-list.js:514-518 | with no equal keyword in any section, the exact pass finds nothing |
| Generator.NoPartialInSections | scripts/generate-emoji-list.js:521-525 | with no included keyword in any section, the substring pass finds nothing |
| Generator.NoExactInSection | scripts/generate-emoji-list.js:514-518 | a section with no keyword equal to the name has no exact match |
| Generator.NoPartialInSection | scripts/generate-emoji-list.js:521-525 | a section with no keyword included in the name has no substring match |
| Generator.FirstPartialInSection | scripts/generate-emoji-list.js:521-525 | the first keyword of a section that the name includes is that section's substring match |
| Generator.SectionsLayout | scripts/generate-emoji-list.js:16-502 | the table has twenty sections; the smileys first, the single "light" entry third, the gestures fifth, the first animals sixth, the single "mouse" entry seventh, the symbols eighteenth |
| Generator.GuessLight | scripts/generate-emoji-list.js:510-529 | "light" is classified as "objects", the value of its last definition (line 375, not line 49) |
| Generator.LightIsExact | scripts/generate-emoji-list.js:514-518 | the exact pass for "light" returns the entry ("light", "objects"): the key of line 49 with the value of line 375 |
| Generator.LightNotBeforeItsEntry | scripts/generate-emoji-list.js:18-48 | no smiley and no earlier people keyword is "light" |
| Generator.GuessMouse | scripts/generate-emoji-list.js:510-529 | "mouse" is classified as "objects", the value of its last definition (line 363, not line 124) |
| Generator.MouseNotBeforeItsEntry | scripts/generate-emoji-list.js:18-123 | no section before the "mouse" entry has the keyword "mouse" |
| Generator.MouseNotAmongPeopleKeywords | scripts/generate-emoji-list.js:18-90 | "mouse" is no smiley, people or gesture keyword |
| Generator.MouseNotAmongEarlyAnimalKeywords | scripts/generate-emoji-list.js:93-123 | "mouse" is none of the animal keywords before its own entry |
| Generator.GuessCat | scripts/generate-emoji-list.js:510-529 | "cat" is classified as "animals" (its keyword at line 94) |
| Generator.CatNotBeforeAnimals | scripts/generate-emoji-list.js:18-90 | no section before the animals has the keyword "cat" |
| Generator.CatNotAmongPeopleKeywords | scripts/generate-emoji-list.js:18-90 | "cat" is no smiley, people or gesture keyword |
| Generator.CatIsSecondAnimal | scripts/generate-emoji-list.js:93-94 | the exact pass over the first animal section returns ("cat", "animals") |
| Generator.HeartOnlyInSymbols | scripts/generate-emoji-list.js:16-461 | no section before the symbols section has the keyword "heart" |
| Generator.HeartNotAmongPeopleKeywords | scripts/generate-emoji-list.js:18-90 | "heart" is no smiley, people or gesture keyword |
| Generator.HeartNotAmongAnimalKeywords | scripts/generate-emoji-list.js:93-161 | "heart" is no animal keyword |
| Generator.HeartNotAmongFoodKeywords | scripts/generate-emoji-list.js:164-247 | "heart" is no food, dessert or drink keyword |
| Generator.HeartNotAmongPlaceKeywords | scripts/generate-emoji-list.js:250-308 | "heart" is no travel, place or transportation keyword |
| Generator.HeartNotAmongActivityKeywords | scripts/generate-emoji-list.js:311-354 | "heart" is no activity keyword |
| Generator.HeartNotAmongNatureKeywords | scripts/generate-emoji-list.js:441-461 | "heart" is no nature keyword |
| Generator.HeartNotAmongObjectKeywords | scripts/generate-emoji-list.js:357-438 | "heart" is no object keyword |
| Generator.GuessHeart | scripts/generate-emoji-list.js:514-518 | "heart" is classified as "symbols" by the exact pass |
| Generator.HeartIsSecondSymbol | scripts/generate-emoji-list.js:464-465 | the exact pass over the symbols returns ("heart", "symbols") |
| Generator.HeartIncludesEar | scripts/generate-emoji-list.js:521-525 | the first keyword in table order that "heart" includes is the gesture "ear", so the exact pass is what decides "heart" |
| Generator.HeartIncludesNothingBeforeGestures | scripts/generate-emoji-list.js:18-66 | "heart" includes no keyword of the sections before the gestures |
| Generator.HeartIncludesNoSmileyKeyword | scripts/generate-emoji-list.js:18-41 | "heart" includes no smiley keyword |
| Generator.HeartIncludesNoPeopleKeyword | scripts/generate-emoji-list.js:44-66 | "heart" includes no people keyword, "light" included |
| Generator.HeartIncludesGestureEar | scripts/generate-emoji-list.js:69-90 | "ear" is the first gesture keyword that "heart" includes |
| Generator.GuessCatFace | scripts/generate-emoji-list.js:510-529 | "cat face" equals no keyword; it includes "face" before "cat", so it is classified as "smileys" |
| Generator.CatFaceIsNoKeyword | scripts/generate-emoji-list.js:514-518 | "cat face" has no exact match |
| Generator.CatFaceIncludesFace | scripts/generate-emoji-list.js:521-525 | the first keyword that "cat face" includes is "face", the smiley of line 18 |
| Generator.CatFaceInNoSection | scripts/generate-emoji-list.js:16-502 | no section has the keyword "cat face" |
| Generator.CatFaceNotAmongPeopleKeywords | scripts/generate-emoji-list.js:18-90 | "cat face" is no smiley, people or gesture keyword |
| Generator.CatFaceNotAmongAnimalKeywords | scripts/generate-emoji-list.js:93-161 | "cat face" is no animal keyword |
| Generator.CatFaceNotAmongFoodKeywords | scripts/generate-emoji-list.js:164-247 | "cat face" is no food, dessert or drink keyword |
| Generator.CatFaceNotAmongPlaceKeywords | scripts/generate-emoji-list.js:250-308 | "cat face" is no travel, place or transportation keyword |
| Generator.CatFaceNotAmongActivityKeywords | scripts/generate-emoji-list.js:311-354 | "cat face" is no activity keyword |
| Generator.CatFaceNotAmongNatureKeywords | scripts/generate-emoji-list.js:441-499 | "cat face" is no nature, symbol or flag keyword |
| Generator.CatFaceNotAmongObjectKeywords | scripts/generate-emoji-list.js:357-438 | "cat face" is no object keyword |
| Generator.GuessEmpty | scripts/generate-emoji-list.js:528 | the empty name equals no keyword and includes none, so it falls back to "objects" |
| Generator.EmptyIsNoKeyword | scripts/generate-emoji-list.js:514-518 | the empty name has no exact match |
| Generator.EmptyIncludesNoKeyword | scripts/generate-emoji-list.js:521-525 | the empty name has no substring match |
| Generator.EmptyIncludesOnlyEmpty | scripts/generate-emoji-list.js:521-525 | a table with no empty keyword has no substring match for the empty name |
| Generator.EmptyInNoSection | scripts/generate-emoji-list.js:16-502 | no section has the empty keyword |
| Generator.EmptyNotAmongPeopleKeywords | scripts/generate-emoji-list.js:18-90 | no smiley, people or gesture keyword is empty |
| Generator.EmptyNotAmongAnimalKeywords | scripts/generate-emoji-list.js:93-161 | no animal keyword is empty |
| Generator.EmptyNotAmongFoodKeywords | scripts/generate-emoji-list.js:164-247 | no food, dessert or drink keyword is empty |
| Generator.EmptyNotAmongPlaceKeywords | scripts/generate-emoji-list.js:250-308 | no travel, place or transportation keyword is empty |
| Generator.EmptyNotAmongActivityKeywords | scripts/generate-emoji-list.js:311-354 | no activity keyword is empty |
| Generator.EmptyNotAmongNatureKeywords | scripts/generate-emoji-list.js:441-499 | no nature, symbol or flag keyword is empty |
| Generator.EmptyNotAmongObjectKeywords | scripts/generate-emoji-list.js:357-438 | no object keyword is empty |
| Generator.EmptyNotAmongSmileyKeywords | scripts/generate-emoji-list.js:18-41 | no smiley keyword is empty |
| Generator.EmptyNotInSection | scripts/generate-emoji-list.js:514-518 | a section of non-empty keywords has no exact match for the empty name |
| EmojiUtils.ValidateEmojiCategory | src/data/emoji-utils.ts:12-18 | a tag of the category table is kept; an empty, missing or unknown tag becomes "objects"; the result is always a non-empty tag of the table |
| EmojiUtils.Normalize | src/data/emoji-utils.ts:28-31 | validating a record keeps its name and path and gives it a non-empty tag of the table; a record with a tag of the table is unchanged |
| EmojiUtils.SelectsAll | src/data/emoji-utils.ts:34 | a selection that does not select everything is non-empty and holds no "all" |
| EmojiUtils.InSelectionValidated | src/data/emoji-utils.ts:40-41 | for a tag of the table or an empty tag, the test of lines 40-41 is membership of the validated tag in the selection |
| EmojiUtils.ValidateIdempotent | src/data/emoji-utils.ts:12-18 | validating a validated tag changes nothing |
| EmojiUtils.NormalizeValidList | src/data/emoji-utils.ts:28-31 | a list whose tags are all in the table is unchanged by validation |
| EmojiUtils.FilterEmojisByCategories | src/data/emoji-utils.ts:25-50 | with "all" or an empty selection, every emoji is returned in order with its tag validated. Otherwise the result is the stable filter of the validated emojis by "tag is selected": every copy of a selected emoji is kept, in order, and nothing else. The result carries only tags of the table |
| EmojiUtils.FilterEmojisKeepsCopies | src/data/emoji-utils.ts:39-42 | with a real selection, an emoji listed n times (after validation) is shown n times when its tag is selected and not at all otherwise |
| EmojiUtils.ValidatedTags | src/data/emoji-utils.ts:28-31 | each validated record is the validated input record and carries a non-empty tag of the table |
| EmojiUtils.SelectedTags | src/data/emoji-utils.ts:39-42 | on validated records, the test of lines 40-41 is membership of the tag in the selection |
| EmojiUtils.SubsequenceRefl | src/data/emoji-utils.ts:34-35 | returning the whole validated list keeps its order |
| EmojiUtils.FilterEmojisIdempotent | src/data/emoji-utils.ts:25-50 | filtering the filtered emojis again with the same selection changes nothing |
| EmojiUtils.FilterEmojisDefault | src/data/emoji-utils.ts:6-25 | with no selection given, the four default tabs are selected and only their emojis are shown |
| EmojiUtils.CategoryTabs | src/data/emoji-utils.ts:55-100 | the tabs start with the "all" tab; no later tab is "all"; the later tabs are table entries in table order |
| EmojiUtils.TabsForAll | src/data/emoji-utils.ts:76-84 | with "all" or an empty selection, a tab is offered after "all" exactly when it is a non-"all" table entry whose tag some emoji carries or is a default |
| EmojiUtils.TabsForSelection | src/data/emoji-utils.ts:85-94 | otherwise a tab is offered after "all" exactly when it is a requested table entry whose tag some emoji carries or is a default |
| EmojiUtils.RawCategories | src/data/emoji-utils.ts:66-70 | the set of tags holds every emoji's tag and only tags some emoji carries |
| EmojiUtils.UsedCategories | src/data/emoji-utils.ts:66-73 | the used set holds every emoji's tag and every default tag |
| EmojiUtils.ShownForAll | src/data/emoji-utils.ts:80-83 | the "all" entry of the table is never offered again after the leading "all" tab, and an offered tab's tag is used |
| EmojiUtils.ShownForSelection | src/data/emoji-utils.ts:89-93 | with a real selection, the "all" entry of the table is never offered after the leading "all" tab |
| EmojiUtils.UsedMembers | src/data/emoji-utils.ts:66-73 | a tag is "used" exactly when some emoji carries it or it is a default |
| EmojiUtils.FilterCategories | src/data/emoji-utils.ts:55-100 | the loop that collects the used tags and adds the defaults one by one, followed by the table filter, computes `CategoryTabs` over the category table |
| EmojiUtils.AllTabOnce | src/data/emoji-utils.ts:63-94 | the "all" tab is offered once, at the front |
| EmojiUtils.DefaultTabsAlwaysShown | src/data/emoji-utils.ts:73-84 | with "all" or an empty selection, the four default tabs are always offered, even when no emoji uses them |
| EmojiUtils.ShownDefault | src/data/emoji-utils.ts:73-83 | with "all" or an empty selection, a table entry whose tag is a default is offered |
| EmojiUtils.SelectedTabsAreRequested | src/data/emoji-utils.ts:89-93 | with a real selection, only requested table entries are offered |
| EmojiUtils.OnlyAllTab | src/data/emoji-utils.ts:87-94 | when no requested tag is used or a default, only the "all" tab is offered |
| EmojiUtils.RawTagsHideObjectsTab | src/data/emoji-utils.ts:28-93 | for an emoji without a tag and the selection ["objects"], the emoji is shown, tagged "objects", yet only the "all" tab is offered |
| EmojiUtils.UntaggedIsShownAsObjects | src/data/emoji-utils.ts:12-42 | every emoji without a tag, in any list, is shown under the "objects" selection, tagged "objects" |
| EmojiUtils.ExampleEmojis | src/data/emoji-utils.ts:39-42 | for three smileys, two animals and a pizza, selecting smileys and animals shows the first five emojis |
| EmojiUtils.ExampleTagsValid | src/data/emoji-utils.ts:12-18 | the example's tags are all tags of the table |
| EmojiUtils.ExampleSelection | src/data/emoji-utils.ts:39-42 | the selection test keeps the example's first five emojis |
| EmojiUtils.FilterOfValidList | src/data/emoji-utils.ts:28-42 | on a list with valid tags and a real selection, the emoji filter is the plain selection filter |
| EmojiUtils.FirstFiveSelected | src/data/emoji-utils.ts:39-42 | of six emojis whose first five tags are selected and whose last is not, the first five are kept |
| EmojiUtils.ExampleTabs | src/data/emoji-utils.ts:87-94 | for the same example, the tabs offered are "all", "smileys" and "animals", in table order |
| EmojiUtils.UsedTabsOfTwo | src/data/emoji-utils.ts:66-94 | when both requested tags are used and only the second and fifth entries carry them, the tabs are "all" and those two entries |
| EmojiUtils.ExampleUsesBoth | src/data/emoji-utils.ts:66-70 | the example uses both requested tags |
| EmojiUtils.TabsWhenAllUsed | src/data/emoji-utils.ts:87-94 | when every requested tag is used, the tabs are "all" followed by the requested table entries |
| EmojiUtils.TabsOfTwo | src/data/emoji-utils.ts:89-93 | when only the second and fifth of fifteen entries carry a requested tag, the filter yields exactly those two |
| Config.Assign | src/config/index.ts:24 | `Object.assign` of one source: the result has the properties of both; a property of the source gets the source's value, and every other property keeps its old value |
| Config.AssignLastWins | src/config/index.ts:24 | of two successive writes to the same property, the later one is kept |
| Config.AssignTwice | src/config/index.ts:24 | two successive merges are one merge of the two sources, the later source winning |
| Config.AssignIdempotent | src/config/index.ts:24 | merging the same properties twice is merging them once |
| Config.AssignKeepsProperties | src/config/index.ts:24 | a merge never removes a property, and merging nothing changes nothing |
| Config.ConfigStore.constructor | src/config/index.ts:4-19 | the initial state: the jsDelivr address, style "modern", 6 columns, width 320, emoji size 28, the ten display categories and 100 emojis per category |
| Config.ConfigStore.UpdateConfig | src/config/index.ts:22-26 | for "cdn" or "defaults", that section becomes the shallow merge of the value into it and nothing else changes; for any other key, nothing changes |
| Selector.NatText | src/composables/useEmojiSelector.ts:30 | the decimal text of a number is a non-empty string of digits |
| Selector.NatTextValue | src/composables/useEmojiSelector.ts:30 | reading the decimal text back gives the number |
| Selector.TemplateText | src/composables/useEmojiSelector.ts:30 | the template literal renders a missing property as "undefined", a string as it is, and a number (an integer JavaScript holds exactly, whose text has no exponent) in decimal |
| Selector.BaseUrlText | src/composables/useEmojiSelector.ts:30 | a string `baseUrl` is used as it is |
| Selector.ImageUrl | src/composables/useEmojiSelector.ts:28-31 | no emoji gives ""; otherwise the URL is the address, then "/icons/", the style, "/" and the path |
| Selector.NextSlash | src/composables/useEmojiSelector.ts:30 | the position found is the first '/' at or after the start, or the end |
| Selector.SlashAfter | src/composables/useEmojiSelector.ts:30 | a piece without '/' that is followed by '/' ends at the next slash |
| Selector.ImageUrlDetermines | src/composables/useEmojiSelector.ts:30 | for styles without '/', two emojis with the same URL have the same style and the same path |
| Selector.UrlAfterCdnUpdate | src/composables/useEmojiSelector.ts:23-30 | once an address is merged into the CDN section, every image URL starts with it, whatever the section held before |
| Selector.EmojiSelector.constructor | src/composables/useEmojiSelector.ts:7-9 | nothing is selected at first, and the selector reads the given store |
| Selector.EmojiSelector.HandleSelectEmoji | src/composables/useEmojiSelector.ts:12-15 | the emoji becomes the selection and is returned |
| Selector.EmojiSelector.ClearSelectedEmoji | src/composables/useEmojiSelector.ts:17-19 | the selection is cleared |
| Selector.EmojiSelector.UpdateCdnUrl | src/composables/useEmojiSelector.ts:23-25 | the address is merged into the CDN section and no other section changes; afterwards the address is the new one, and every image URL starts with it |
| Selector.EmojiSelector.GetEmojiImageUrl | src/composables/useEmojiSelector.ts:28-31 | no emoji gives ""; otherwise the URL starts with the store's current address and ends with the emoji's path |

## Left out

- File-system access, directory checks and console output of the generator
  and the filters. The directory listing is a parameter, and the generated
  files are not written.
- `path.basename` (line 538 of the generator). `readdirSync` yields bare file
  names, so the formatter is applied to the name as given.
- `toLowerCase`/`toUpperCase` beyond ASCII. Only A-Z and a-z change case; the
  file names of the icon set are ASCII.
- The `try`/`catch` fallbacks and the `Array.isArray` guard of the filters
  (src/data/emoji-utils.ts:26, 46-49, 57-60, 96-99). They answer malformed
  data that typed callers cannot pass.
- A missing (`undefined`) category and the empty string are one value, "". No
  operation tells them apart, except that line 68 drops `undefined` from the
  used set while it keeps "". Neither is a tag of the table, so the tabs
  offered are the same.
- Vue's `reactive`, `readonly`, `ref` and `inject`. The store and the
  selection are plain mutable fields, and the selector is handed the store
  that `useEmojiConfig` would inject.
- Config.ConfigStore.UpdateConfig: for the key "displayCategories",
  `Object.assign` would write the value's properties onto the array; the model
  keeps the list unchanged. Keys inherited from `Object.prototype` (which
  `key in configState` also accepts) change no modelled state.
- Config.Value: property values other than strings and safe integers are not
  modelled: booleans, nested objects, fractional numbers, and integers beyond
  2^53 - 1 in size, which JavaScript may store inexactly and from 10^21 on writes
  in exponent form.
- The publishing and deployment scripts, the build configuration, the plugin
  installer (except the store it injects), the entry points and the example
  index. None of them is part of the modelled core.
