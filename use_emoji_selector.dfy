/** The selection state and image-URL builder of `useEmojiSelector`
    (src/composables/useEmojiSelector.ts), over the global configuration
    store. */
module Selector {
  import opened Seqs
  import opened Types
  import opened Config

  /** The decimal text of a natural number, as a template literal renders it. */
  function NatText(n: nat): (r: string)
    ensures |r| >= 1 && IsDigits(r)
  {
    var d := ['0' + (n % 10) as char];
    if n < 10 then d else NatText(n / 10) + d
  }

  predicate IsDigits(s: string)
  {
    forall i :: 0 <= i < |s| ==> '0' <= s[i] <= '9'
  }

  /** The number a string of decimal digits denotes. */
  function DigitsValue(s: string): (r: nat)
    requires IsDigits(s)
  {
    if s == [] then 0 else 10 * DigitsValue(s[..|s| - 1]) + (s[|s| - 1] - '0') as nat
  }

  /** Reading the decimal text back gives the number. */
  lemma {:induction false} NatTextValue(n: nat)
    ensures DigitsValue(NatText(n)) == n
  {
    var d := ['0' + (n % 10) as char];
    if n >= 10 {
      NatTextValue(n / 10);
      var r := NatText(n / 10) + d;
      assert r[..|r| - 1] == NatText(n / 10);
    }
  }

  /** The text a template literal produces for a property: a string as it
      is, a number in decimal, and "undefined" for a missing property. */
  function TemplateText(v: Option<Value>): (r: string)
    ensures v.None? ==> r == "undefined"
    ensures v.Some? && v.value.Str? ==> r == v.value.s
    ensures v.Some? && v.value.Num? ==> 
      if v.value.n < 0 then |r| >= 2 && r[0] == '-' && IsDigits(r[1..]) && DigitsValue(r[1..]) == -v.value.n
      else IsDigits(r) && DigitsValue(r) == v.value.n
  {
    match v
    case None => "undefined"
    case Some(Str(s)) => s
    case Some(Num(n)) =>
      NatTextValue(if n < 0 then -n else n);
      if n < 0 then (assert ("-" + NatText(-n))[1..] == NatText(-n); "-" + NatText(-n)) else NatText(n)
  }

  /** The text of `config.cdn.baseUrl`. */
  function BaseUrlText(cdn: Section): (r: string)
    ensures "baseUrl" in cdn && cdn["baseUrl"].Str? ==> r == cdn["baseUrl"].s
  {
    TemplateText(if "baseUrl" in cdn then Some(cdn["baseUrl"]) else None)
  }

  /** `getEmojiImageUrl` for a given CDN address: the empty string without an
      emoji, otherwise the address, "/icons/", the style, "/" and the path. */
  function ImageUrl(baseUrl: string, emoji: Option<EmojiItemWithStyle>): (r: string)
    ensures emoji.None? ==> r == ""
    ensures emoji.Some? ==> |r| == |baseUrl| + 7 + |emoji.value.style| + 1 + |emoji.value.path|
    ensures emoji.Some? ==> r[..|baseUrl|] == baseUrl && r[|baseUrl|..|baseUrl| + 7] == "/icons/"
    ensures emoji.Some? ==> r[|baseUrl| + 7..|baseUrl| + 7 + |emoji.value.style|] == emoji.value.style
    ensures emoji.Some? ==> r[|baseUrl| + 7 + |emoji.value.style|] == '/'
    ensures emoji.Some? ==> r[|r| - |emoji.value.path|..] == emoji.value.path
  {
    match emoji
    case None => ""
    case Some(e) => baseUrl + "/icons/" + e.style + "/" + e.path
  }

  /** The position of the first '/' at or after `k` (|u| when there is none). */
  function NextSlash(u: string, k: nat): (r: nat)
    requires k <= |u|
    ensures k <= r <= |u|
    ensures forall i :: k <= i < r ==> u[i] != '/'
    ensures r < |u| ==> u[r] == '/'
    decreases |u| - k
  {
    if k == |u| then |u| else if u[k] == '/' then k else NextSlash(u, k + 1)
  }

  /** A piece without '/' that is followed by '/' ends at the next slash. */
  lemma SlashAfter(u: string, k: nat, piece: string)
    requires k + |piece| < |u| && u[k..k + |piece|] == piece && u[k + |piece|] == '/'
    requires '/' !in piece
    ensures NextSlash(u, k) == k + |piece|
  {
    assert forall i :: k <= i < k + |piece| ==> u[i] == piece[i - k];
  }

  /** For a style without '/', the URL determines the style and the path:
      two emojis with the same URL share both. */
  lemma ImageUrlDetermines(baseUrl: string, a: EmojiItemWithStyle, b: EmojiItemWithStyle)
    requires '/' !in a.style && '/' !in b.style
    requires ImageUrl(baseUrl, Some(a)) == ImageUrl(baseUrl, Some(b))
    ensures a.style == b.style && a.path == b.path
  {
    var u := ImageUrl(baseUrl, Some(a));
    SlashAfter(u, |baseUrl| + 7, a.style);
    SlashAfter(u, |baseUrl| + 7, b.style);
  }

  /** Once the address `u` is merged into the CDN section, every image URL
      starts with `u`, whatever the section held before. */
  lemma UrlAfterCdnUpdate(cdn: Section, u: string, e: EmojiItemWithStyle)
    ensures BaseUrlText(Assign(cdn, map["baseUrl" := Str(u)])) == u
    ensures ImageUrl(BaseUrlText(Assign(cdn, map["baseUrl" := Str(u)])), Some(e))[..|u|] == u
  {
  }

  /** The emoji picked last, and the actions of the composable. */
  class EmojiSelector {
    const config: ConfigStore
    var selectedEmoji: Option<EmojiItemWithStyle>

    /** Line 9: nothing is selected yet. */
    constructor(config: ConfigStore)
      ensures this.config == config && selectedEmoji == None
    {
      this.config := config;
      selectedEmoji := None;
    }

    /** `handleSelectEmoji`: store the emoji as the selection and hand it back. */
    method HandleSelectEmoji(emoji: EmojiItemWithStyle) returns (r: EmojiItemWithStyle)
      modifies this
      ensures r == emoji && selectedEmoji == Some(emoji)
    {
      selectedEmoji := Some(emoji);
      r := emoji;
    }

    /** `clearSelectedEmoji`: forget the selection. */
    method ClearSelectedEmoji()
      modifies this
      ensures selectedEmoji == None
    {
      selectedEmoji := None;
    }

    /** `updateCdnUrl`: merge the new address into the CDN section; every URL
        built afterwards starts with it. */
    method UpdateCdnUrl(newUrl: string)
      modifies config
      ensures config.cdn == Assign(old(config.cdn), map["baseUrl" := Str(newUrl)])
      ensures config.defaults == old(config.defaults) && config.displayCategories == old(config.displayCategories)
      ensures config.maxPerCategory == old(config.maxPerCategory)
      ensures BaseUrlText(config.cdn) == newUrl
      ensures forall e :: GetEmojiImageUrl(Some(e))[..|newUrl|] == newUrl
    {
      config.UpdateConfig("cdn", map["baseUrl" := Str(newUrl)]);
      forall e {
        UrlAfterCdnUpdate(old(config.cdn), newUrl, e);
      }
    }

    /** `getEmojiImageUrl`, against the address currently in the store. */
    function GetEmojiImageUrl(emoji: Option<EmojiItemWithStyle>): (r: string)
      reads config
      ensures emoji.None? ==> r == ""
      ensures emoji.Some? ==> |r| > |BaseUrlText(config.cdn)| + |emoji.value.path|
      ensures emoji.Some? ==> r[..|BaseUrlText(config.cdn)|] == BaseUrlText(config.cdn)
      ensures emoji.Some? ==> r[|r| - |emoji.value.path|..] == emoji.value.path
    {
      ImageUrl(BaseUrlText(config.cdn), emoji)
    }
  }
}
