/** The record shapes shared by the generator, the filters and the selector
    (src/types/emoji.d.ts). A missing `category` (undefined in JavaScript) is
    represented by the empty string. No operation's result tells the two
    apart: the used-tag set of `filterCategories` keeps "" and drops
    undefined, but neither is a tag of the category table. */
module Types {

  /** One icon of the generated emoji list. */
  datatype EmojiItem = EmojiItem(name: string, path: string, category: string)

  /** An emoji together with the rendering style it is shown in. */
  datatype EmojiItemWithStyle = EmojiItemWithStyle(name: string, path: string, category: string, style: string)

  /** A category tab: the tag it filters on, its label and its glyph. */
  datatype EmojiCategory = EmojiCategory(value: string, name: string, icon: string)

  /** A rendering style: its label and the directory name used in asset URLs. */
  datatype StyleOption = StyleOption(name: string, value: string)
}
