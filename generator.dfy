/** The pure part of scripts/generate-emoji-list.js: the keyword classifier
    `guessCategory`, the name formatter `formatNameFromPath`, the record
    building inside `generateEmojiList`, and the category table that
    `generateCategoriesFile` writes. Reading the icon directory and writing
    the generated files is not modelled: the list builder takes the file
    names as a parameter. */
module Generator {
  import opened Seqs
  import opened Text
  import opened Types
  import opened Categories
  import opened KeywordTable

  // ---------------------------------------------------------------------
  // guessCategory (lines 510-529)
  // ---------------------------------------------------------------------

  /** The first loop (lines 514-518): the first entry whose keyword equals the name. */
  function ExactMatch(t: Table, nameLower: string): (r: Option<Entry>)
    ensures r.None? <==> forall j :: 0 <= j < |t| ==> t[j].0 != nameLower
    ensures r.Some? ==> exists j :: 0 <= j < |t| && t[j] == r.value && r.value.0 == nameLower && forall i :: 0 <= i < j ==> t[i].0 != nameLower
  {
    Find((e: Entry) => e.0 == nameLower, t)
  }

  /** The second loop (lines 521-525): the first entry whose keyword the name includes. */
  function PartialMatch(t: Table, nameLower: string): (r: Option<Entry>)
    ensures r.None? <==> forall j :: 0 <= j < |t| ==> !Includes(nameLower, t[j].0)
    ensures r.Some? ==> exists j :: 0 <= j < |t| && t[j] == r.value && Includes(nameLower, r.value.0) && forall i :: 0 <= i < j ==> !Includes(nameLower, t[i].0)
  {
    Find((e: Entry) => Includes(nameLower, e.0), t)
  }

  /** `guessCategory` over an arbitrary keyword table: lower-case the name,
      try exact matches in table order, then substring matches in table
      order, and fall back to "objects" (line 528). */
  function Classify(t: Table, name: string): (r: string)
    ensures r == "objects" || exists j :: 0 <= j < |t| && t[j].1 == r
  {
    var nameLower := ToLower(name);
    match ExactMatch(t, nameLower)
    case Some(e) => e.1
    case None =>
      match PartialMatch(t, nameLower)
      case Some(e) => e.1
      case None => "objects"
  }

  /** `guessCategory` itself: the classifier over CATEGORY_MAP. It never
      yields "all" or a tag outside the category table. */
  function GuessCategory(name: string): (r: string)
    ensures r in RealCategoryValues
  {
    CategoryMapValues();
    ClassifyWithin(CategoryMap, name, RealCategoryValues);
    Classify(CategoryMap, name)
  }

  /** If the lower-cased name equals a keyword, the category of the first
      such keyword is returned, whatever keywords before it the name contains. */
  lemma ClassifyExact(t: Table, name: string, i: nat)
    requires i < |t| && t[i].0 == ToLower(name)
    requires forall j :: 0 <= j < i ==> t[j].0 != ToLower(name)
    ensures Classify(t, name) == t[i].1
  {
    FindFirst((e: Entry) => e.0 == ToLower(name), t, i);
  }

  /** If no keyword equals the lower-cased name, the category of the first
      keyword (in table order) that the name includes is returned. */
  lemma ClassifyPartial(t: Table, name: string, i: nat)
    requires forall j :: 0 <= j < |t| ==> t[j].0 != ToLower(name)
    requires i < |t| && Includes(ToLower(name), t[i].0)
    requires forall j :: 0 <= j < i ==> !Includes(ToLower(name), t[j].0)
    ensures Classify(t, name) == t[i].1
  {
    FindFirst((e: Entry) => Includes(ToLower(name), e.0), t, i);
  }

  /** With neither an exact nor a substring match the result is "objects". */
  lemma ClassifyFallback(t: Table, name: string)
    requires forall j :: 0 <= j < |t| ==> t[j].0 != ToLower(name) && !Includes(ToLower(name), t[j].0)
    ensures Classify(t, name) == "objects"
  {
  }

  /** The classifier is case-insensitive: only the lower-cased name matters. */
  lemma ClassifyIgnoresCase(t: Table, name: string)
    ensures Classify(t, name) == Classify(t, ToLower(name))
  {
    ToLowerIdempotent(name);
  }

  /** Every result is a category of the table or the fallback. */
  lemma ClassifyWithin(t: Table, name: string, cats: set<string>)
    requires forall j :: 0 <= j < |t| ==> t[j].1 in cats
    requires "objects" in cats
    ensures Classify(t, name) in cats
  {
  }

  /** A keyword containing '-' never decides the category of a name without
      '-': classifying with the hyphenated keywords removed from the table
      gives the same result. */
  lemma ClassifyIgnoresHyphenated(t: Table, name: string)
    requires '-' !in name
    ensures Classify(t, name) == Classify(Filter(NoHyphen, t), name)
  {
    var nameLower := ToLower(name);
    ToLowerKeepsUncased(name, '-');
    var exact := (e: Entry) => e.0 == nameLower;
    var partial := (e: Entry) => Includes(nameLower, e.0);
    FindIgnoresFiltered(exact, NoHyphen, t);
    forall e: Entry | partial(e) ensures NoHyphen(e) {
      if '-' in e.0 {
        IncludedCharsOccur(nameLower, e.0, '-');
      }
    }
    FindIgnoresFiltered(partial, NoHyphen, t);
  }

  /** The entry's keyword has no '-'. */
  predicate NoHyphen(e: Entry)
  {
    '-' !in e.0
  }

  /** The two loops of `guessCategory` as written (lines 510-529), over any
      keyword table: a scan for an equal keyword, then a scan for an included
      keyword, each returning at the first hit. They compute the classifier. */
  method ClassifyLoops(entries: Table, name: string) returns (r: string)
    ensures r == Classify(entries, name)
  {
    var nameLower := ToLower(name);
    for i := 0 to |entries|
      invariant forall j :: 0 <= j < i ==> entries[j].0 != nameLower
    {
      if nameLower == entries[i].0 {
        ClassifyExact(entries, name, i);
        return entries[i].1;
      }
    }
    for i := 0 to |entries|
      invariant forall j :: 0 <= j < i ==> !Includes(nameLower, entries[j].0)
    {
      if Includes(nameLower, entries[i].0) {
        ClassifyPartial(entries, name, i);
        return entries[i].1;
      }
    }
    ClassifyFallback(entries, name);
    return "objects";
  }

  /** `guessCategory` run over `Object.entries(CATEGORY_MAP)`. */
  method GuessCategoryLoops(name: string) returns (r: string)
    ensures r == GuessCategory(name)
    ensures r in RealCategoryValues
  {
    r := ClassifyLoops(CategoryMap, name);
  }

  // ---------------------------------------------------------------------
  // formatNameFromPath (lines 536-548)
  // ---------------------------------------------------------------------

  /** `filename.replace('.svg', '')` (line 541): the first ".svg" is removed,
      wherever it is. */
  function Stem(file: string): (r: string)
    ensures (forall k: nat :: !OccursAt(file, ".svg", k)) ==> r == file
    ensures forall k: nat :: OccursAt(file, ".svg", k) && (forall m: nat :: m < k ==> !OccursAt(file, ".svg", m)) ==> r == file[..k] + file[k + 4..]
  {
    RemoveFirst(file, ".svg")
  }

  /** `word.charAt(0).toUpperCase() + word.slice(1)` (line 546). */
  function Capitalize(word: string): (r: string)
    ensures |r| == |word|
    ensures word != [] ==> r[0] == UpperChar(word[0])
    ensures forall i :: 0 < i < |word| ==> r[i] == word[i]
  {
    if word == [] then "" else [UpperChar(word[0])] + word[1..]
  }

  /** What the formatter puts at position `i` of a stem `u`: a hyphen becomes
      a space, the first character of every hyphen-separated word is
      upper-cased, and every other character is kept. */
  function TitleChar(u: string, i: nat): (r: char)
    requires i < |u|
    ensures r != '-'
    ensures u[i] == '-' ==> r == ' '
    ensures u[i] != '-' ==> LowerChar(r) == LowerChar(u[i])
  {
    LowerOfUpper(u[i]);
    if u[i] == '-' then ' '
    else if i == 0 || u[i - 1] == '-' then UpperChar(u[i])
    else u[i]
  }

  /** `formatNameFromPath` on a bare file name: split the stem on '-',
      capitalize every piece and join with ' ' (lines 541-547). */
  function FormatNameFromPath(file: string): (r: string)
    ensures |r| == |Stem(file)|
    ensures forall i :: 0 <= i < |r| ==> r[i] == TitleChar(Stem(file), i)
  {
    var u := Stem(file);
    TitleWords(u, true);
    WordsCapitalized(Split(u, '-'));
    TitleAt(u, true);
    TitleIsTitleChar(u);
    Join(Map(Capitalize, Split(u, '-')), ' ')
  }

  /** The formatted stem, computed one character at a time; `start` says
      whether the first character begins a word. */
  function Title(u: string, start: bool): (r: string)
    ensures |r| == |u|
  {
    if u == [] then ""
    else if u[0] == '-' then " " + Title(u[1..], true)
    else [if start then UpperChar(u[0]) else u[0]] + Title(u[1..], false)
  }

  /** The capitalized words, except that the first is left alone when it
      continues a word. */
  function Words(ws: seq<string>, start: bool): (r: seq<string>)
    ensures |r| == |ws|
    ensures forall i :: 0 < i < |ws| ==> r[i] == Capitalize(ws[i])
    ensures |ws| > 0 ==> r[0] == if start then Capitalize(ws[0]) else ws[0]
  {
    seq(|ws|, i requires 0 <= i < |ws| => if i == 0 && !start then ws[0] else Capitalize(ws[i]))
  }

  lemma {:induction false} TitleWords(u: string, start: bool)
    ensures Join(Words(Split(u, '-'), start), ' ') == Title(u, start)
  {
    if u != [] {
      var rest := Split(u[1..], '-');
      if u[0] == '-' {
        TitleWords(u[1..], true);
        WordsAfterHyphen(rest, start);
        JoinCons("", Words(rest, true), ' ');
      } else {
        var c := if start then UpperChar(u[0]) else u[0];
        TitleWords(u[1..], false);
        WordsAfterLetter(u[0], rest, start);
        JoinConsFirst(c, rest[0], Words(rest, false)[1..], ' ');
      }
    }
  }

  /** A leading hyphen contributes an empty word, and the next word starts afresh. */
  lemma WordsAfterHyphen(rest: seq<string>, start: bool)
    ensures Words([""] + rest, start) == [""] + Words(rest, true)
  {
  }

  /** A leading letter joins the first word, upper-cased when it starts it. */
  lemma WordsAfterLetter(c: char, rest: seq<string>, start: bool)
    requires |rest| >= 1
    ensures Words([[c] + rest[0]] + rest[1..], start) == [[if start then UpperChar(c) else c] + rest[0]] + Words(rest, false)[1..]
    ensures Words(rest, false) == [rest[0]] + Words(rest, false)[1..]
  {
    var ws := [[c] + rest[0]] + rest[1..];
    assert Words(ws, start)[0] == [if start then UpperChar(c) else c] + rest[0];
  }

  /** Joining a list of at least two words puts the separator after the first. */
  lemma JoinCons(w: string, ws: seq<string>, sep: char)
    requires |ws| >= 1
    ensures Join([w] + ws, sep) == w + [sep] + Join(ws, sep)
  {
    assert ([w] + ws)[1..] == ws;
  }

  /** Starting afresh, every word is capitalized. */
  lemma WordsCapitalized(ws: seq<string>)
    ensures Words(ws, true) == Map(Capitalize, ws)
  {
  }

  lemma {:induction false} TitleAt(u: string, start: bool)
    ensures |Title(u, start)| == |u|
    ensures forall i {:trigger Title(u, start)[i]} :: 0 <= i < |u| ==>
      Title(u, start)[i] == (if u[i] == '-' then ' '
        else if (i == 0 && start) || (i > 0 && u[i - 1] == '-') then UpperChar(u[i])
        else u[i])
  {
    if u != [] {
      var t := Title(u[1..], u[0] == '-');
      TitleAt(u[1..], u[0] == '-');
      forall i | 0 <= i < |u|
        ensures Title(u, start)[i] == (if u[i] == '-' then ' '
          else if (i == 0 && start) || (i > 0 && u[i - 1] == '-') then UpperChar(u[i])
          else u[i])
      {
        if i == 0 {
          assert Title(u, start)[0] == if u[0] == '-' then ' ' else if start then UpperChar(u[0]) else u[0];
        } else {
          TitleTail(u, start, i);
          assert u[1..][i - 1] == u[i];
          if i > 1 {
            assert u[1..][i - 2] == u[i - 1];
          }
        }
      }
    }
  }

  lemma TitleIsTitleChar(u: string)
    ensures |Title(u, true)| == |u|
    ensures forall i :: 0 <= i < |u| ==> Title(u, true)[i] == TitleChar(u, i)
  {
    TitleAt(u, true);
  }

  lemma TitleTail(u: string, start: bool, i: nat)
    requires 0 < i < |u| && i - 1 < |Title(u[1..], u[0] == '-')|
    ensures Title(u, start)[i] == Title(u[1..], u[0] == '-')[i - 1]
  {
  }

  /** The formatted name has no '-' left. */
  lemma FormattedNameHasNoHyphen(file: string)
    ensures '-' !in FormatNameFromPath(file)
  {
    var r := FormatNameFromPath(file);
    forall i | 0 <= i < |r| ensures r[i] != '-' {
      assert r[i] == TitleChar(Stem(file), i);
    }
  }

  /** One word per hyphen-separated piece: when the stem has no space, the
      formatted name splits on ' ' into one more word than the stem has
      hyphens. */
  lemma FormattedWordCount(file: string)
    requires ' ' !in Stem(file)
    ensures |Split(FormatNameFromPath(file), ' ')| == CountChar(Stem(file), '-') + 1
  {
    var u := Stem(file);
    var r := FormatNameFromPath(file);
    forall i | 0 <= i < |r| ensures r[i] == ' ' <==> u[i] == '-' {
      assert r[i] == TitleChar(u, i);
      assert u[i] != ' ';
    }
    CountCharPointwise(r, u, ' ', '-');
  }

  /** ' ' back to '-'. */
  function Hyphenate(s: string): (r: string)
    ensures |r| == |s|
  {
    seq(|s|, i requires 0 <= i < |s| => if s[i] == ' ' then '-' else s[i])
  }

  /** Formatting loses nothing but case: for a stem without spaces,
      lower-casing the name and turning spaces back into hyphens gives the
      lower-cased stem. */
  lemma FormatNameRestoresStem(file: string)
    requires ' ' !in Stem(file)
    ensures Hyphenate(ToLower(FormatNameFromPath(file))) == ToLower(Stem(file))
  {
    var u := Stem(file);
    var r := FormatNameFromPath(file);
    forall i | 0 <= i < |u| ensures Hyphenate(ToLower(r))[i] == ToLower(u)[i] {
      assert r[i] == TitleChar(u, i);
      assert u[i] != ' ';
      LowerOfUpper(u[i]);
    }
  }

  /** A file name whose only ".svg" is its extension loses exactly that suffix. */
  lemma StemOfSvgFile(file: string)
    requires EndsWith(file, ".svg")
    requires forall k: nat :: k < |file| - 4 ==> !OccursAt(file, ".svg", k)
    ensures Stem(file) == file[..|file| - 4]
  {
    RemoveFirstSuffix(file, ".svg");
  }

  /** `replace` with a string pattern removes the first ".svg", not the extension. */
  lemma StemRemovesFirstOccurrence()
    ensures Stem("a.svg-b.svg") == "a-b.svg"
  {
    var s := "a.svg-b.svg";
    assert OccursAt(s, ".svg", 1);
    assert s[0..4][0] != ".svg"[0];
    assert s[..1] + s[5..] == "a-b.svg";
  }

  // ---------------------------------------------------------------------
  // The record building of generateEmojiList (lines 570-581)
  // ---------------------------------------------------------------------

  /** `file.endsWith('.svg')` (line 571). */
  predicate IsSvgFile(file: string)
  {
    EndsWith(file, ".svg")
  }

  /** The record built for one file (lines 572-580). */
  function MakeRecord(file: string): (r: EmojiItem)
    ensures r.path == file && r.name == FormatNameFromPath(file) && '-' !in r.name
    ensures r.category == GuessCategory(ToLower(r.name)) && r.category in RealCategoryValues
  {
    FormattedNameHasNoHyphen(file);
    var name := FormatNameFromPath(file);
    EmojiItem(name, file, GuessCategory(ToLower(name)))
  }

  function PathOf(e: EmojiItem): (r: string)
  {
    e.path
  }

  /** `files.filter(isSvg).map(makeRecord)`: one record per SVG file, in the
      order of the directory listing. */
  function BuildEmojiList(files: seq<string>): (r: seq<EmojiItem>)
    ensures Map(PathOf, r) == Filter(IsSvgFile, files)
    ensures forall e :: e in r ==> e.path in files && IsSvgFile(e.path)
    ensures forall f :: f in files && IsSvgFile(f) ==> exists e :: e in r && e.path == f
    ensures forall e :: e in r ==> e.name == FormatNameFromPath(e.path) && '-' !in e.name
    ensures forall e :: e in r ==> e.category == GuessCategory(ToLower(e.name)) && e.category in RealCategoryValues
  {
    var svgs := Filter(IsSvgFile, files);
    RecordsOf(svgs);
    Map(MakeRecord, svgs)
  }

  /** The records of a list of files, one per file and in the same order. */
  lemma RecordsOf(svgs: seq<string>)
    ensures Map(PathOf, Map(MakeRecord, svgs)) == svgs
    ensures forall e :: e in Map(MakeRecord, svgs) ==> e == MakeRecord(e.path) && e.path in svgs
    ensures forall f :: f in svgs ==> MakeRecord(f) in Map(MakeRecord, svgs)
    ensures forall e :: e in Map(MakeRecord, svgs) ==> '-' !in e.name
  {
    var r := Map(MakeRecord, svgs);
    forall f | f in svgs ensures MakeRecord(f) in r {
      var i :| 0 <= i < |svgs| && svgs[i] == f;
      assert r[i] == MakeRecord(f);
    }
  }

  /** The records are listed in directory order and each file yields as many
      records as it has listings, if it is an SVG file, and none otherwise. */
  lemma BuildEmojiListCounts(files: seq<string>, f: string)
    requires f in files
    ensures multiset(Map(PathOf, BuildEmojiList(files)))[f] == if IsSvgFile(f) then multiset(files)[f] else 0
    ensures Subsequence(Map(PathOf, BuildEmojiList(files)), files)
  {
    FilterMultiplicity(IsSvgFile, files);
    FilterOrder(IsSvgFile, files);
  }

  /** Because the formatted name has no '-', the hyphenated keywords of the
      table (such as "ice-cream" or "heart-eyes") never decide a generated
      record's category: the table without them classifies the same way. */
  lemma GeneratedCategoryIgnoresHyphenatedKeywords(file: string)
    ensures MakeRecord(file).category == Classify(Filter(NoHyphen, CategoryMap), ToLower(FormatNameFromPath(file)))
  {
    var name := FormatNameFromPath(file);
    FormattedNameHasNoHyphen(file);
    ToLowerKeepsUncased(name, '-');
    ClassifyIgnoresHyphenated(CategoryMap, ToLower(name));
  }

  // ---------------------------------------------------------------------
  // generateCategoriesFile (lines 612-654)
  // ---------------------------------------------------------------------

  /** The category list that `generateCategoriesFile` writes (lines 615-631):
      the very table the application reads. */
  function GeneratedCategories(): (r: seq<EmojiCategory>)
    ensures r == EmojiCategories
  {
    [
      EmojiCategory("all", "全部", "🌟"),
      EmojiCategory("smileys", "表情", "😊"),
      EmojiCategory("people", "人物", "👨‍👩‍👧"),
      EmojiCategory("gestures", "手势", "👋"),
      EmojiCategory("animals", "动物", "🐱"),
      EmojiCategory("food", "食物", "🍔"),
      EmojiCategory("drinks", "饮品", "🍹"),
      EmojiCategory("travel", "旅行", "🏖️"),
      EmojiCategory("places", "地点", "🏢"),
      EmojiCategory("transportation", "交通", "🚗"),
      EmojiCategory("activities", "活动", "⚽"),
      EmojiCategory("objects", "物品", "💡"),
      EmojiCategory("nature", "自然", "🌿"),
      EmojiCategory("symbols", "符号", "♥️"),
      EmojiCategory("flags", "旗帜", "🏁")
    ]
  }

  // ---------------------------------------------------------------------
  // Facts about CATEGORY_MAP
  // ---------------------------------------------------------------------

  /** Every category of the keyword table is one of the fourteen real tags. */
  lemma CategoryMapValues()
    ensures forall j :: 0 <= j < |CategoryMap| ==> CategoryMap[j].1 in RealCategoryValues
  {
    forall k | 0 <= k < |Sections|
      ensures forall j :: 0 <= j < |Sections[k]| ==> Sections[k][j].1 in RealCategoryValues
    {
    }
    ConcatValues(Sections, RealCategoryValues);
  }

  lemma {:induction false} ConcatValues(sections: seq<Table>, cats: set<string>)
    requires forall k, j :: 0 <= k < |sections| && 0 <= j < |sections[k]| ==> sections[k][j].1 in cats
    ensures forall j :: 0 <= j < |Concat(sections)| ==> Concat(sections)[j].1 in cats
  {
    if sections != [] {
      ConcatValues(sections[1..], cats);
      assert forall k, j :: 0 <= k < |sections[1..]| && 0 <= j < |sections[1..][k]| ==> sections[1..][k][j] == sections[k + 1][j];
    }
  }

  /** Searching the concatenated sections skips the sections that have no match. */
  lemma {:induction false} FindInSections(p: Entry -> bool, sections: seq<Table>, k: nat)
    requires k < |sections|
    requires forall j :: 0 <= j < k ==> Find(p, sections[j]).None?
    ensures Find(p, Concat(sections)) == if Find(p, sections[k]).Some? then Find(p, sections[k]) else Find(p, Concat(sections[k + 1..]))
  {
    FindConcat(p, sections[0], Concat(sections[1..]));
    if k > 0 {
      FindInSections(p, sections[1..], k - 1);
      assert sections[1..][k - 1] == sections[k];
      assert sections[1..][k..] == sections[k + 1..];
    }
  }

  /** No section has a match, so the concatenation has none. */
  lemma {:induction false} NoMatchInSections(p: Entry -> bool, sections: seq<Table>)
    requires forall j :: 0 <= j < |sections| ==> Find(p, sections[j]).None?
    ensures Find(p, Concat(sections)).None?
  {
    if sections != [] {
      FindConcat(p, sections[0], Concat(sections[1..]));
      NoMatchInSections(p, sections[1..]);
    }
  }

  /** The exact pass over concatenated sections skips the sections without an
      equal keyword: a hit in section `k` is the result. */
  lemma ExactInSections(sections: seq<Table>, nameLower: string, k: nat, section: Table)
    requires k < |sections| && sections[k] == section
    requires forall j :: 0 <= j < k ==> ExactMatch(sections[j], nameLower).None?
    requires ExactMatch(section, nameLower).Some?
    ensures ExactMatch(Concat(sections), nameLower) == ExactMatch(section, nameLower)
  {
    FindInSections((e: Entry) => e.0 == nameLower, sections, k);
  }

  /** The substring pass over concatenated sections skips the sections without
      an included keyword: a hit in section `k` is the result. */
  lemma PartialInSections(sections: seq<Table>, nameLower: string, k: nat, section: Table)
    requires k < |sections| && sections[k] == section
    requires forall j :: 0 <= j < k ==> PartialMatch(sections[j], nameLower).None?
    requires PartialMatch(section, nameLower).Some?
    ensures PartialMatch(Concat(sections), nameLower) == PartialMatch(section, nameLower)
  {
    FindInSections((e: Entry) => Includes(nameLower, e.0), sections, k);
  }

  /** No section has an equal keyword, so the concatenation has none. */
  lemma NoExactInSections(sections: seq<Table>, nameLower: string)
    requires forall j :: 0 <= j < |sections| ==> ExactMatch(sections[j], nameLower).None?
    ensures ExactMatch(Concat(sections), nameLower).None?
  {
    NoMatchInSections((e: Entry) => e.0 == nameLower, sections);
  }

  /** No section has an included keyword, so the concatenation has none. */
  lemma NoPartialInSections(sections: seq<Table>, nameLower: string)
    requires forall j :: 0 <= j < |sections| ==> PartialMatch(sections[j], nameLower).None?
    ensures PartialMatch(Concat(sections), nameLower).None?
  {
    NoMatchInSections((e: Entry) => Includes(nameLower, e.0), sections);
  }

  // ---------------------------------------------------------------------
  // Classification examples
  // ---------------------------------------------------------------------

  /** A section none of whose keywords equals the name has no exact match. */
  lemma NoExactInSection(keywords: seq<string>, category: string, nameLower: string)
    requires forall i :: 0 <= i < |keywords| ==> !EqualText(keywords[i], nameLower)
    ensures ExactMatch(Tag(keywords, category), nameLower).None?
  {
    forall i | 0 <= i < |keywords| ensures keywords[i] != nameLower {
      EqualTextIff(keywords[i], nameLower);
    }
  }

  /** "light" is a keyword twice in the source; the effective entry says "objects". */
  lemma GuessLight()
    ensures GuessCategory("light") == "objects"
  {
    ToLowerOfLowerCase("light");
    LightIsExact();
  }

  lemma LightIsExact()
    ensures ExactMatch(CategoryMap, "light") == Some(("light", "objects"))
  {
    LightNotBeforeItsEntry();
    SectionsLayout();
    ExactInSections(Sections, "light", 2, [("light", "objects")]);
  }

  /** Where the sections the examples need sit in the table. */
  lemma SectionsLayout()
    ensures |Sections| == 20
    ensures Sections[0] == Tag(Smileys, "smileys") && Sections[2] == [("light", "objects")]
    ensures Sections[4] == Tag(Gestures, "gestures") && Sections[5] == Tag(AnimalsBeforeMouse, "animals")
    ensures Sections[6] == [("mouse", "objects")] && Sections[17] == Tag(Symbols, "symbols")
  {
  }

  lemma LightNotBeforeItsEntry()
    ensures forall j :: 0 <= j < 2 ==> ExactMatch(Sections[j], "light").None?
  {
    NoExactInSection(Smileys, "smileys", "light");
    NoExactInSection(PeopleBeforeLight, "people", "light");
  }

  /** "mouse" likewise: its first definition (animals) is overridden by "objects". */
  lemma GuessMouse()
    ensures GuessCategory("mouse") == "objects"
  {
    ToLowerOfLowerCase("mouse");
    MouseNotBeforeItsEntry();
    SectionsLayout();
    ExactInSections(Sections, "mouse", 6, [("mouse", "objects")]);
  }

  lemma MouseNotBeforeItsEntry()
    ensures forall j :: 0 <= j < 6 ==> ExactMatch(Sections[j], "mouse").None?
  {
    MouseNotAmongPeopleKeywords();
    MouseNotAmongEarlyAnimalKeywords();
  }

  /** "mouse" is none of the smiley, people and gesture keywords. */
  lemma MouseNotAmongPeopleKeywords()
    ensures ExactMatch(Tag(Smileys, "smileys"), "mouse").None? && ExactMatch(Tag(PeopleBeforeLight, "people"), "mouse").None? && ExactMatch(Tag(PeopleAfterLight, "people"), "mouse").None? && ExactMatch(Tag(Gestures, "gestures"), "mouse").None?
  {
    NoExactInSection(Smileys, "smileys", "mouse");
    NoExactInSection(PeopleBeforeLight, "people", "mouse");
    NoExactInSection(PeopleAfterLight, "people", "mouse");
    NoExactInSection(Gestures, "gestures", "mouse");
  }

  lemma MouseNotAmongEarlyAnimalKeywords()
    ensures ExactMatch(Tag(AnimalsBeforeMouse, "animals"), "mouse").None?
  {
    NoExactInSection(AnimalsBeforeMouse, "animals", "mouse");
  }

  lemma GuessCat()
    ensures GuessCategory("cat") == "animals"
  {
    ToLowerOfLowerCase("cat");
    CatNotBeforeAnimals();
    CatIsSecondAnimal();
    SectionsLayout();
    ExactInSections(Sections, "cat", 5, Tag(AnimalsBeforeMouse, "animals"));
  }

  lemma CatNotBeforeAnimals()
    ensures forall j :: 0 <= j < 5 ==> ExactMatch(Sections[j], "cat").None?
  {
    CatNotAmongPeopleKeywords();
  }

  /** "cat" is none of the smiley, people and gesture keywords. */
  lemma CatNotAmongPeopleKeywords()
    ensures ExactMatch(Tag(Smileys, "smileys"), "cat").None? && ExactMatch(Tag(PeopleBeforeLight, "people"), "cat").None? && ExactMatch(Tag(PeopleAfterLight, "people"), "cat").None? && ExactMatch(Tag(Gestures, "gestures"), "cat").None?
  {
    NoExactInSection(Smileys, "smileys", "cat");
    NoExactInSection(PeopleBeforeLight, "people", "cat");
    NoExactInSection(PeopleAfterLight, "people", "cat");
    NoExactInSection(Gestures, "gestures", "cat");
  }

  /** "cat" is the second animal keyword, after "animal". */
  lemma CatIsSecondAnimal()
    ensures ExactMatch(Tag(AnimalsBeforeMouse, "animals"), "cat") == Some(("cat", "animals"))
  {
    var animals := Tag(AnimalsBeforeMouse, "animals");
    assert animals[1] == ("cat", "animals") && animals[0] == ("animal", "animals");
    FindFirst((e: Entry) => e.0 == "cat", animals, 1);
  }

  /** A section none of whose keywords occurs in the name has no substring match. */
  lemma NoPartialInSection(keywords: seq<string>, category: string, nameLower: string)
    requires forall i :: 0 <= i < |keywords| ==> !Includes(nameLower, keywords[i])
    ensures PartialMatch(Tag(keywords, category), nameLower).None?
  {
  }

  /** The first keyword of a section that the name includes decides the section's substring match. */
  lemma FirstPartialInSection(keywords: seq<string>, category: string, nameLower: string, k: nat)
    requires k < |keywords| && Includes(nameLower, keywords[k])
    requires forall i :: 0 <= i < k ==> !Includes(nameLower, keywords[i])
    ensures PartialMatch(Tag(keywords, category), nameLower) == Some((keywords[k], category))
  {
    FindFirst((e: Entry) => Includes(nameLower, e.0), Tag(keywords, category), k);
  }

  /** Only the symbols section (the 18th) holds the keyword "heart". */
  lemma HeartOnlyInSymbols()
    ensures forall j :: 0 <= j < 17 ==> ExactMatch(Sections[j], "heart").None?
  {
    HeartNotAmongPeopleKeywords();
    HeartNotAmongAnimalKeywords();
    HeartNotAmongFoodKeywords();
    HeartNotAmongPlaceKeywords();
    HeartNotAmongActivityKeywords();
    HeartNotAmongNatureKeywords();
    HeartNotAmongObjectKeywords();
  }

  /** "heart" is none of the smiley, people and gesture keywords. */
  lemma HeartNotAmongPeopleKeywords()
    ensures ExactMatch(Tag(Smileys, "smileys"), "heart").None? && ExactMatch(Tag(PeopleBeforeLight, "people"), "heart").None? && ExactMatch(Tag(PeopleAfterLight, "people"), "heart").None? && ExactMatch(Tag(Gestures, "gestures"), "heart").None?
  {
    NoExactInSection(Smileys, "smileys", "heart");
    NoExactInSection(PeopleBeforeLight, "people", "heart");
    NoExactInSection(PeopleAfterLight, "people", "heart");
    NoExactInSection(Gestures, "gestures", "heart");
  }

  /** "heart" is none of the animal keywords. */
  lemma HeartNotAmongAnimalKeywords()
    ensures ExactMatch(Tag(AnimalsBeforeMouse, "animals"), "heart").None? && ExactMatch(Tag(AnimalsAfterMouse, "animals"), "heart").None?
  {
    NoExactInSection(AnimalsBeforeMouse, "animals", "heart");
    NoExactInSection(AnimalsAfterMouse, "animals", "heart");
  }

  /** "heart" is none of the food, dessert and drink keywords. */
  lemma HeartNotAmongFoodKeywords()
    ensures ExactMatch(Tag(Food, "food"), "heart").None? && ExactMatch(Tag(Desserts, "food"), "heart").None? && ExactMatch(Tag(Drinks, "drinks"), "heart").None?
  {
    NoExactInSection(Food, "food", "heart");
    NoExactInSection(Desserts, "food", "heart");
    NoExactInSection(Drinks, "drinks", "heart");
  }

  /** "heart" is none of the travel, place and transportation keywords. */
  lemma HeartNotAmongPlaceKeywords()
    ensures ExactMatch(Tag(Travel, "travel"), "heart").None? && ExactMatch(Tag(Places, "places"), "heart").None? && ExactMatch(Tag(Transportation, "transportation"), "heart").None?
  {
    NoExactInSection(Travel, "travel", "heart");
    NoExactInSection(Places, "places", "heart");
    NoExactInSection(Transportation, "transportation", "heart");
  }

  /** "heart" is none of the object keywords. */
  lemma HeartNotAmongObjectKeywords()
    ensures ExactMatch(Tag(Objects, "objects"), "heart").None?
  {
    NoExactInSection(Objects, "objects", "heart");
  }

  /** "heart" is none of the activity keywords. */
  lemma HeartNotAmongActivityKeywords()
    ensures ExactMatch(Tag(Activities, "activities"), "heart").None?
  {
    NoExactInSection(Activities, "activities", "heart");
  }

  /** "heart" is none of the nature keywords. */
  lemma HeartNotAmongNatureKeywords()
    ensures ExactMatch(Tag(Nature, "nature"), "heart").None?
  {
    NoExactInSection(Nature, "nature", "heart");
  }

  /** The exact pass wins: "heart" is a symbol ... */
  lemma GuessHeart()
    ensures GuessCategory("heart") == "symbols"
  {
    ToLowerOfLowerCase("heart");
    HeartOnlyInSymbols();
    HeartIsSecondSymbol();
    SectionsLayout();
    ExactInSections(Sections, "heart", 17, Tag(Symbols, "symbols"));
  }

  /** "heart" is the second symbol keyword, after "symbols". */
  lemma HeartIsSecondSymbol()
    ensures ExactMatch(Tag(Symbols, "symbols"), "heart") == Some(("heart", "symbols"))
  {
    var symbols := Tag(Symbols, "symbols");
    assert symbols[1] == ("heart", "symbols") && symbols[0] == ("symbols", "symbols");
    FindFirst((e: Entry) => e.0 == "heart", symbols, 1);
  }

  /** ... although the first keyword in table order that "heart" includes
      is the gesture "ear". */
  lemma HeartIncludesEar()
    ensures PartialMatch(CategoryMap, "heart") == Some(("ear", "gestures"))
  {
    HeartIncludesNothingBeforeGestures();
    HeartIncludesGestureEar();
    SectionsLayout();
    PartialInSections(Sections, "heart", 4, Tag(Gestures, "gestures"));
  }

  lemma HeartIncludesNothingBeforeGestures()
    ensures forall j :: 0 <= j < 4 ==> PartialMatch(Sections[j], "heart").None?
  {
    HeartIncludesNoSmileyKeyword();
    HeartIncludesNoPeopleKeyword();
  }

  lemma HeartIncludesNoSmileyKeyword()
    ensures PartialMatch(Tag(Smileys, "smileys"), "heart").None?
  {
    NoPartialInSection(Smileys, "smileys", "heart");
  }

  lemma HeartIncludesNoPeopleKeyword()
    ensures PartialMatch(Tag(PeopleBeforeLight, "people"), "heart").None?
    ensures PartialMatch(Tag(PeopleAfterLight, "people"), "heart").None?
    ensures PartialMatch([("light", "objects")], "heart").None?
  {
    assert !Includes("heart", "light") by { NoPartialInSection(["light"], "objects", "heart"); }
    NoPartialInSection(PeopleBeforeLight, "people", "heart");
    NoPartialInSection(PeopleAfterLight, "people", "heart");
  }

  lemma HeartIncludesGestureEar()
    ensures PartialMatch(Tag(Gestures, "gestures"), "heart") == Some(("ear", "gestures"))
  {
    FirstPartialInSection(Gestures, "gestures", "heart", 10);
  }

  /** Only the substring pass can classify a name with a space: "cat face"
      equals no keyword, and the first keyword in table order it includes is
      "face", before "cat". */
  lemma GuessCatFace()
    ensures GuessCategory("cat face") == "smileys"
  {
    ToLowerOfLowerCase("cat face");
    CatFaceIsNoKeyword();
    CatFaceIncludesFace();
  }

  lemma CatFaceIsNoKeyword()
    ensures ExactMatch(CategoryMap, "cat face").None?
  {
    CatFaceInNoSection();
    NoExactInSections(Sections, "cat face");
  }

  lemma CatFaceInNoSection()
    ensures forall j :: 0 <= j < |Sections| ==> ExactMatch(Sections[j], "cat face").None?
  {
    CatFaceNotAmongPeopleKeywords();
    CatFaceNotAmongAnimalKeywords();
    CatFaceNotAmongFoodKeywords();
    CatFaceNotAmongPlaceKeywords();
    CatFaceNotAmongActivityKeywords();
    CatFaceNotAmongNatureKeywords();
    CatFaceNotAmongObjectKeywords();
  }

  lemma CatFaceIncludesFace()
    ensures PartialMatch(CategoryMap, "cat face") == Some(("face", "smileys"))
  {
    FirstPartialInSection(Smileys, "smileys", "cat face", 0);
    SectionsLayout();
    PartialInSections(Sections, "cat face", 0, Tag(Smileys, "smileys"));
  }

  /** "cat face" is none of the smiley, people and gesture keywords. */
  lemma CatFaceNotAmongPeopleKeywords()
    ensures ExactMatch(Tag(Smileys, "smileys"), "cat face").None? && ExactMatch(Tag(PeopleBeforeLight, "people"), "cat face").None? && ExactMatch(Tag(PeopleAfterLight, "people"), "cat face").None? && ExactMatch(Tag(Gestures, "gestures"), "cat face").None?
  {
    NoExactInSection(Smileys, "smileys", "cat face");
    NoExactInSection(PeopleBeforeLight, "people", "cat face");
    NoExactInSection(PeopleAfterLight, "people", "cat face");
    NoExactInSection(Gestures, "gestures", "cat face");
  }

  /** "cat face" is none of the animal keywords. */
  lemma CatFaceNotAmongAnimalKeywords()
    ensures ExactMatch(Tag(AnimalsBeforeMouse, "animals"), "cat face").None? && ExactMatch(Tag(AnimalsAfterMouse, "animals"), "cat face").None?
  {
    NoExactInSection(AnimalsBeforeMouse, "animals", "cat face");
    NoExactInSection(AnimalsAfterMouse, "animals", "cat face");
  }

  /** "cat face" is none of the food, dessert and drink keywords. */
  lemma CatFaceNotAmongFoodKeywords()
    ensures ExactMatch(Tag(Food, "food"), "cat face").None? && ExactMatch(Tag(Desserts, "food"), "cat face").None? && ExactMatch(Tag(Drinks, "drinks"), "cat face").None?
  {
    NoExactInSection(Food, "food", "cat face");
    NoExactInSection(Desserts, "food", "cat face");
    NoExactInSection(Drinks, "drinks", "cat face");
  }

  /** "cat face" is none of the travel, place and transportation keywords. */
  lemma CatFaceNotAmongPlaceKeywords()
    ensures ExactMatch(Tag(Travel, "travel"), "cat face").None? && ExactMatch(Tag(Places, "places"), "cat face").None? && ExactMatch(Tag(Transportation, "transportation"), "cat face").None?
  {
    NoExactInSection(Travel, "travel", "cat face");
    NoExactInSection(Places, "places", "cat face");
    NoExactInSection(Transportation, "transportation", "cat face");
  }

  /** "cat face" is none of the activity keywords. */
  lemma CatFaceNotAmongActivityKeywords()
    ensures ExactMatch(Tag(Activities, "activities"), "cat face").None?
  {
    NoExactInSection(Activities, "activities", "cat face");
  }

  /** "cat face" is none of the nature, symbol and flag keywords. */
  lemma CatFaceNotAmongNatureKeywords()
    ensures ExactMatch(Tag(Nature, "nature"), "cat face").None? && ExactMatch(Tag(Symbols, "symbols"), "cat face").None? && ExactMatch(Tag(Flags, "flags"), "cat face").None?
  {
    NoExactInSection(Nature, "nature", "cat face");
    NoExactInSection(Symbols, "symbols", "cat face");
    NoExactInSection(Flags, "flags", "cat face");
  }

  /** "cat face" is none of the object keywords. */
  lemma CatFaceNotAmongObjectKeywords()
    ensures ExactMatch(Tag(Objects, "objects"), "cat face").None?
  {
    NoExactInSection(Objects, "objects", "cat face");
  }

  /** The empty name equals no keyword and includes none, so it falls back
      to "objects". */
  lemma GuessEmpty()
    ensures GuessCategory("") == "objects"
  {
    assert ToLower("") == "";
    EmptyIsNoKeyword();
    EmptyIncludesNoKeyword();
  }

  lemma EmptyIsNoKeyword()
    ensures ExactMatch(CategoryMap, "").None?
  {
    EmptyInNoSection();
    NoExactInSections(Sections, "");
  }

  lemma EmptyInNoSection()
    ensures forall j :: 0 <= j < |Sections| ==> ExactMatch(Sections[j], "").None?
  {
    EmptyNotAmongPeopleKeywords();
    EmptyNotAmongAnimalKeywords();
    EmptyNotAmongFoodKeywords();
    EmptyNotAmongPlaceKeywords();
    EmptyNotAmongActivityKeywords();
    EmptyNotAmongNatureKeywords();
    EmptyNotAmongObjectKeywords();
  }

  lemma EmptyIncludesNoKeyword()
    ensures PartialMatch(CategoryMap, "").None?
  {
    EmptyIsNoKeyword();
    EmptyIncludesOnlyEmpty(CategoryMap);
  }

  /** The empty name is none of the smiley, people and gesture keywords. */
  lemma EmptyNotAmongPeopleKeywords()
    ensures ExactMatch(Tag(Smileys, "smileys"), "").None? && ExactMatch(Tag(PeopleBeforeLight, "people"), "").None? && ExactMatch(Tag(PeopleAfterLight, "people"), "").None? && ExactMatch(Tag(Gestures, "gestures"), "").None?
  {
    EmptyNotAmongSmileyKeywords();
    EmptyNotInSection(PeopleBeforeLight, "people");
    EmptyNotInSection(PeopleAfterLight, "people");
    EmptyNotInSection(Gestures, "gestures");
  }

  lemma EmptyNotAmongSmileyKeywords()
    ensures ExactMatch(Tag(Smileys, "smileys"), "").None?
  {
    EmptyNotInSection(Smileys, "smileys");
  }

  /** The empty name is none of the animal keywords. */
  lemma EmptyNotAmongAnimalKeywords()
    ensures ExactMatch(Tag(AnimalsBeforeMouse, "animals"), "").None? && ExactMatch(Tag(AnimalsAfterMouse, "animals"), "").None?
  {
    EmptyNotInSection(AnimalsBeforeMouse, "animals");
    EmptyNotInSection(AnimalsAfterMouse, "animals");
  }

  /** The empty name is none of the food, dessert and drink keywords. */
  lemma EmptyNotAmongFoodKeywords()
    ensures ExactMatch(Tag(Food, "food"), "").None? && ExactMatch(Tag(Desserts, "food"), "").None? && ExactMatch(Tag(Drinks, "drinks"), "").None?
  {
    EmptyNotInSection(Food, "food");
    EmptyNotInSection(Desserts, "food");
    EmptyNotInSection(Drinks, "drinks");
  }

  /** The empty name is none of the travel, place and transportation keywords. */
  lemma EmptyNotAmongPlaceKeywords()
    ensures ExactMatch(Tag(Travel, "travel"), "").None? && ExactMatch(Tag(Places, "places"), "").None? && ExactMatch(Tag(Transportation, "transportation"), "").None?
  {
    EmptyNotInSection(Travel, "travel");
    EmptyNotInSection(Places, "places");
    EmptyNotInSection(Transportation, "transportation");
  }

  /** The empty name is none of the activity keywords. */
  lemma EmptyNotAmongActivityKeywords()
    ensures ExactMatch(Tag(Activities, "activities"), "").None?
  {
    EmptyNotInSection(Activities, "activities");
  }

  /** The empty name is none of the nature, symbol and flag keywords. */
  lemma EmptyNotAmongNatureKeywords()
    ensures ExactMatch(Tag(Nature, "nature"), "").None? && ExactMatch(Tag(Symbols, "symbols"), "").None? && ExactMatch(Tag(Flags, "flags"), "").None?
  {
    EmptyNotInSection(Nature, "nature");
    EmptyNotInSection(Symbols, "symbols");
    EmptyNotInSection(Flags, "flags");
  }

  /** The empty name is none of the object keywords. */
  lemma EmptyNotAmongObjectKeywords()
    ensures ExactMatch(Tag(Objects, "objects"), "").None?
  {
    EmptyNotInSection(Objects, "objects");
  }

  /** No keyword of a section of non-empty keywords equals the empty name. */
  lemma EmptyNotInSection(keywords: seq<string>, category: string)
    requires forall i :: 0 <= i < |keywords| ==> |keywords[i]| > 0
    ensures ExactMatch(Tag(keywords, category), "").None?
  {
  }

  /** The empty name includes only the empty keyword: a table with no empty
      keyword has no substring match for it either. */
  lemma EmptyIncludesOnlyEmpty(t: Table)
    requires ExactMatch(t, "").None?
    ensures PartialMatch(t, "").None?
  {
    forall j | 0 <= j < |t| ensures !Includes("", t[j].0) {
      IncludedByEmpty(t[j].0);
    }
  }
}
