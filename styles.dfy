/** The rendering styles (src/data/emoji-styles.ts) and the lookup of a
    style's display name. */
module Styles {
  import opened Seqs
  import opened Types

  const EmojiStyles: seq<StyleOption> := [
    StyleOption("现代", "modern"),
    StyleOption("扁平", "flat"),
    StyleOption("高对比", "high-contrast")
  ]

  /** `getStyleName`: the display name of the style whose value is
      `styleValue`; an unknown value is returned unchanged. */
  function GetStyleName(styleValue: string): (r: string)
    ensures forall i :: 0 <= i < |EmojiStyles| && EmojiStyles[i].value == styleValue ==> r == EmojiStyles[i].name
    ensures (forall i :: 0 <= i < |EmojiStyles| ==> EmojiStyles[i].value != styleValue) ==> r == styleValue
    ensures r == styleValue || exists i :: 0 <= i < |EmojiStyles| && r == EmojiStyles[i].name
  {
    match Find((s: StyleOption) => s.value == styleValue, EmojiStyles)
    case Some(style) => style.name
    case None => styleValue
  }

  /** Exactly three styles, with pairwise distinct values. */
  lemma StylesShape()
    ensures |EmojiStyles| == 3
    ensures [EmojiStyles[0].value, EmojiStyles[1].value, EmojiStyles[2].value] == ["modern", "flat", "high-contrast"]
    ensures forall i, j :: 0 <= i < j < |EmojiStyles| ==> EmojiStyles[i].value != EmojiStyles[j].value
  {
  }

  /** The display names of the three styles. */
  lemma KnownStyleNames()
    ensures GetStyleName("modern") == "现代"
    ensures GetStyleName("flat") == "扁平"
    ensures GetStyleName("high-contrast") == "高对比"
  {
    StylesShape();
  }

  /** A value that is none of the three styles is returned as it is. */
  lemma UnknownStyleName(v: string)
    requires v != "modern" && v != "flat" && v != "high-contrast"
    ensures GetStyleName(v) == v
  {
    StylesShape();
  }
}
