/** The global configuration store (src/config/index.ts): four top-level
    sections, two of which are plain objects that `updateConfig` merges new
    properties into with `Object.assign`. A plain object is modelled as a map
    from property names to property values. */
module Config {

  /** The integers a JavaScript number holds exactly: |n| <= 2^53 - 1
      (`Number.MAX_SAFE_INTEGER`). Within this range a template literal
      writes a number in plain decimal. */
  type SafeInteger = n: int | -0x1F_FFFF_FFFF_FFFF <= n <= 0x1F_FFFF_FFFF_FFFF

  /** A property value: the configuration only ever holds strings and numbers. */
  datatype Value = Str(s: string) | Num(n: SafeInteger)

  /** A plain JavaScript object: its own enumerable properties. */
  type Section = map<string, Value>

  /** The CDN address the store starts with. */
  const DefaultBaseUrl: string := "https://cdn.jsdelivr.net/npm/fluentui-emoji@1.1.1"

  /** `Object.assign(target, source)` for one source: every property of
      `source` is copied onto `target`, overwriting a property of the same
      name; the properties `source` does not name keep their values. */
  function Assign(target: Section, source: Section): (r: Section)
    ensures r.Keys == target.Keys + source.Keys
    ensures forall k :: k in source ==> r[k] == source[k]
    ensures forall k :: k in target && k !in source ==> r[k] == target[k]
  {
    target + source
  }

  /** Of two successive writes to the same property, the later one is kept. */
  lemma AssignLastWins(target: Section, k: string, first: Value, second: Value)
    ensures Assign(Assign(target, map[k := first]), map[k := second]) == Assign(target, map[k := second])
  {
  }

  /** Two successive merges are one merge of the two sources, the later one
      winning where both name a property. */
  lemma AssignTwice(target: Section, a: Section, b: Section)
    ensures Assign(Assign(target, a), b) == Assign(target, Assign(a, b))
  {
  }

  /** Merging the same properties again changes nothing. */
  lemma AssignIdempotent(target: Section, source: Section)
    ensures Assign(Assign(target, source), source) == Assign(target, source)
  {
  }

  /** Merging never removes a property, and merging nothing changes nothing. */
  lemma AssignKeepsProperties(target: Section, source: Section, k: string)
    ensures k in target ==> k in Assign(target, source)
    ensures Assign(target, map[]) == target
  {
  }

  /** `configState` and `updateConfig`. */
  class ConfigStore {
    var cdn: Section
    var defaults: Section
    var displayCategories: seq<string>
    var maxPerCategory: int

    /** The initial state of lines 4-19. */
    constructor()
      ensures cdn == map["baseUrl" := Str(DefaultBaseUrl)]
      ensures defaults == map["initialStyle" := Str("modern"), "columns" := Num(6), "width" := Num(320), "emojiSize" := Num(28)]
      ensures displayCategories == ["smileys", "people", "animals", "food", "activities", "travel", "places", "objects", "symbols", "flags"]
      ensures maxPerCategory == 100
    {
      cdn := map["baseUrl" := Str(DefaultBaseUrl)];
      defaults := map["initialStyle" := Str("modern"), "columns" := Num(6), "width" := Num(320), "emojiSize" := Num(28)];
      displayCategories := ["smileys", "people", "animals", "food", "activities", "travel", "places", "objects", "symbols", "flags"];
      maxPerCategory := 100;
    }

    /** `updateConfig(key, value)`: for the two object sections, a shallow
        merge of `value` into that section and nothing else; for a key that is
        no section, no change. `Object.assign` onto the number
        `maxPerCategory` writes to a temporary wrapper object, so that section
        keeps its value too. */
    method UpdateConfig(key: string, value: Section)
      modifies this
      ensures cdn == if key == "cdn" then Assign(old(cdn), value) else old(cdn)
      ensures defaults == if key == "defaults" then Assign(old(defaults), value) else old(defaults)
      ensures displayCategories == old(displayCategories)
      ensures maxPerCategory == old(maxPerCategory)
    {
      if key == "cdn" {
        cdn := Assign(cdn, value);
      } else if key == "defaults" {
        defaults := Assign(defaults, value);
      }
    }
  }
}
