/** The keyword table CATEGORY_MAP of scripts/generate-emoji-list.js
    (lines 16-503) as the ordered list of [keyword, category] pairs that
    `Object.entries` yields for it.

    The object literal names two keys twice: 'light' (line 49 as 'people',
    line 375 as 'objects') and 'mouse' (line 124 as 'animals', line 363 as
    'objects'). A JavaScript object literal keeps a repeated key at the
    position of its FIRST definition and gives it the value of its LAST one,
    so the effective table holds ("light", "objects") in the people section
    and ("mouse", "objects") in the animals section, and nothing at lines 363
    and 375. The keyword lists below follow the source's sections. */
module KeywordTable {
  import opened Categories

  /** One `[keyword, category]` entry of `Object.entries(CATEGORY_MAP)`. */
  type Entry = (string, string)
  type Table = seq<Entry>

  /** Pairs every keyword of a section with that section's category. */
  function Tag(keywords: seq<string>, category: string): (t: Table)
    ensures |t| == |keywords|
    ensures forall i :: 0 <= i < |t| ==> t[i] == (keywords[i], category)
  {
    seq(|keywords|, i requires 0 <= i < |keywords| => (keywords[i], category))
  }

  /** The tables of `sections`, one after the other. */
  function Concat(sections: seq<Table>): (t: Table)
  {
    if sections == [] then [] else sections[0] + Concat(sections[1..])
  }

  /** scripts/generate-emoji-list.js lines 18-41: every keyword maps to "smileys". */
  const Smileys: seq<string> := [
    "face", "smiling", "grinning", "heart-eyes", "laughing", "tears", "joy", "winking",
    "kissing", "thinking", "neutral", "expressionless", "sad", "crying", "angry", "rage",
    "mask", "medical-mask", "sunglasses", "nerd", "crazy", "dizzy", "emoji", "emotion"
  ]

  /** scripts/generate-emoji-list.js lines 44-48: every keyword maps to "people". */
  const PeopleBeforeLight: seq<string> := [
    "person", "breast", "pregnant", "man", "medium"
  ]

  /** scripts/generate-emoji-list.js lines 50-66: every keyword maps to "people". */
  const PeopleAfterLight: seq<string> := [
    "astronaut", "dark", "woman", "boy", "girl", "child", "baby", "adult", "princess",
    "prince", "fairy", "elf", "mermaid", "merman", "zombie", "ghost", "human"
  ]

  /** scripts/generate-emoji-list.js lines 69-90: every keyword maps to "gestures". */
  const Gestures: seq<string> := [
    "hand", "hands", "finger", "pinch", "fist", "palm", "clap", "shake", "thumbs", "pointing",
    "ear", "eye", "eyes", "nose", "mouth", "tongue", "tooth", "bone", "foot", "leg", "arm",
    "gesture"
  ]

  /** scripts/generate-emoji-list.js lines 93-123: every keyword maps to "animals". */
  const AnimalsBeforeMouse: seq<string> := [
    "animal", "cat", "dog", "lion", "tiger", "leopard", "puppy", "wolf", "fox", "bird", "duck",
    "swan", "owl", "eagle", "penguin", "chicken", "fish", "dolphin", "whale", "shark"
  ] + [
    "octopus", "shell", "crab", "snake", "lizard", "turtle", "dragon", "bear", "panda",
    "koala", "rabbit"
  ]

  /** scripts/generate-emoji-list.js lines 125-161: every keyword maps to "animals". */
  const AnimalsAfterMouse: seq<string> := [
    "hamster", "monkey", "gorilla", "orangutan", "horse", "unicorn", "zebra", "deer", "cow",
    "pig", "goat", "sheep", "elephant", "mammoth", "rhino", "hippo", "bat", "sloth", "otter",
    "skunk"
  ] + [
    "camel", "llama", "giraffe", "kangaroo", "frog", "bug", "ant", "spider", "scorpion",
    "mosquito", "fly", "worm", "beetle", "butterfly", "ladybug", "bee", "insect"
  ]

  /** scripts/generate-emoji-list.js lines 164-218: every keyword maps to "food". */
  const Food: seq<string> := [
    "food", "fruit", "berry", "apple", "pear", "orange", "lemon", "banana", "watermelon",
    "grapes", "melon", "pineapple", "coconut", "peach", "cherry", "strawberry", "vegetable",
    "potato", "carrot", "corn"
  ] + [
    "garlic", "onion", "pepper", "cucumber", "broccoli", "pumpkin", "tomato", "mushroom",
    "peanut", "chestnut", "bread", "croissant", "sandwich", "pancake", "waffle", "egg", "dish",
    "salad", "popcorn", "bacon"
  ] + [
    "taco", "burrito", "rice", "curry", "ramen", "spaghetti", "stew", "fondue", "pizza",
    "soup", "bento", "burger", "cheese", "cream", "milk"
  ]

  /** scripts/generate-emoji-list.js lines 221-232: every keyword maps to "food". */
  const Desserts: seq<string> := [
    "ice-cream", "cupcake", "pie", "cake", "cookie", "chocolate", "candy", "lollipop",
    "custard", "honey", "doughnut", "sweet"
  ]

  /** scripts/generate-emoji-list.js lines 235-247: every keyword maps to "drinks". */
  const Drinks: seq<string> := [
    "beverage", "drink", "cocktail", "wine", "beer", "whisky", "champagne", "tea", "coffee",
    "mate", "bubble-tea", "juice", "water"
  ]

  /** scripts/generate-emoji-list.js lines 250-261: every keyword maps to "travel". */
  const Travel: seq<string> := [
    "travel", "mountain", "beach", "camping", "tent", "map", "compass", "desert", "island",
    "forest", "globe", "world"
  ]

  /** scripts/generate-emoji-list.js lines 264-278: every keyword maps to "places". */
  const Places: seq<string> := [
    "building", "house", "office", "home", "school", "post", "hospital", "bank", "hotel",
    "castle", "stadium", "tower", "city", "town", "village"
  ]

  /** scripts/generate-emoji-list.js lines 281-308: every keyword maps to "transportation". */
  const Transportation: seq<string> := [
    "car", "automobile", "taxi", "bus", "trolley", "truck", "bike", "bicycle", "kick-scooter",
    "motorcycle", "auto-rickshaw", "train", "tram", "railway", "subway", "airplane",
    "parachute", "helicopter", "rocket", "satellite"
  ] + [
    "flying-saucer", "ship", "boat", "canoe", "sailboat", "ferry", "anchor", "vehicle"
  ]

  /** scripts/generate-emoji-list.js lines 311-354: every keyword maps to "activities". */
  const Activities: seq<string> := [
    "activities", "sport", "ball", "soccer", "baseball", "softball", "basketball",
    "volleyball", "football", "rugby", "tennis", "badminton", "boxing", "wrestling", "hockey",
    "fishing", "running", "skier", "snowboard", "kite"
  ] + [
    "sled", "bullseye", "yo-yo", "game", "chess", "dice", "joker", "trophy", "medal", "award",
    "ribbon", "music", "musical", "guitar", "violin", "trumpet", "saxophone", "accordion",
    "drum", "microphone"
  ] + [
    "headphone", "art", "paintbrush", "artist"
  ]

  /** scripts/generate-emoji-list.js lines 357-438 (without 363 and 375, see above): every keyword maps to "objects". */
  const Objects: seq<string> := [
    "objects", "phone", "telephone", "computer", "laptop", "keyboard", "disc", "joystick",
    "videogame", "speaker", "camera", "film", "movie", "radio", "television", "projector",
    "battery", "lamp", "bulb", "candle"
  ] + [
    "fire", "toilet", "lotion", "soap", "sponge", "shower", "bath", "razor", "toothbrush",
    "comb", "tool", "hammer", "axe", "wrench", "screwdriver", "pencil", "pen", "marker",
    "file", "folder"
  ] + [
    "clipboard", "notepad", "envelope", "mailbox", "package", "calendar", "card", "scissors",
    "book", "newspaper", "money", "currency", "coin", "credit-card", "receipt", "shopping",
    "cart", "luggage", "backpack", "clothing"
  ] + [
    "dress", "shirt", "tie", "jeans", "coat", "sock", "glove", "shoe", "boot", "hat",
    "glasses", "umbrella", "gift", "balloon", "party", "popper", "puzzle", "toy", "device",
    "gadget"
  ]

  /** scripts/generate-emoji-list.js lines 441-461: every keyword maps to "nature". */
  const Nature: seq<string> := [
    "plant", "flower", "sakura", "tulip", "rose", "bouquet", "tree", "cactus", "herb",
    "shamrock", "leaf", "seedling", "sun", "moon", "star", "cloud", "weather", "snow", "rain",
    "lightning", "rainbow"
  ]

  /** scripts/generate-emoji-list.js lines 464-494: every keyword maps to "symbols". */
  const Symbols: seq<string> := [
    "symbols", "heart", "broken-heart", "love", "sparkles", "bang", "zap", "wave", "collision",
    "sweat", "dash", "bomb", "hole", "speech", "thought", "bubble", "zzz", "memo", "number",
    "keycap"
  ] + [
    "digit", "arrow", "plus", "minus", "multiply", "divide", "infinity", "equal", "percent",
    "sign", "icon"
  ]

  /** scripts/generate-emoji-list.js lines 497-499: every keyword maps to "flags". */
  const Flags: seq<string> := [
    "flag", "country", "nation"
  ]

  /** The sections of the table in definition order, with the two repeated
      keys at the position of their first definition. */
  const Sections: seq<Table> := [
    Tag(Smileys, "smileys"),
    Tag(PeopleBeforeLight, "people"),
    [("light", "objects")],         // line 49, value from line 375
    Tag(PeopleAfterLight, "people"),
    Tag(Gestures, "gestures"),
    Tag(AnimalsBeforeMouse, "animals"),
    [("mouse", "objects")],         // line 124, value from line 363
    Tag(AnimalsAfterMouse, "animals"),
    Tag(Food, "food"),
    Tag(Desserts, "food"),
    Tag(Drinks, "drinks"),
    Tag(Travel, "travel"),
    Tag(Places, "places"),
    Tag(Transportation, "transportation"),
    Tag(Activities, "activities"),
    Tag(Objects, "objects"),
    Tag(Nature, "nature"),
    Tag(Symbols, "symbols"),
    Tag(Flags, "flags"),
    [("default", "objects")]        // line 502
  ]

  /** `Object.entries(CATEGORY_MAP)`. */
  const CategoryMap: Table := Concat(Sections)
}
