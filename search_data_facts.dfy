/**
  What the search index promises the palette and the sidebar: twelve topics
  with distinct ids, every id an anchor of the navigation tree, five sections
  each listed in one block, and lower-case keywords.
*/
module SearchDataFacts {
  import opened Text
  import opened Seqs
  import opened SearchData
  import opened SearchCommand
  import opened DocsSidebar

  /** The ids of the index, in order. */
  function Ids(items: seq<SearchItem>): (r: seq<string>)
    ensures |r| == |items|
    ensures forall i | 0 <= i < |items| :: r[i] == items[i].id
  {
    seq(|items|, i requires 0 <= i < |items| => items[i].id)
  }

  const IndexIds: seq<string> := [
    "introduction", "how-it-works", "tech-stack", "apps-gallery", "games", "ai-assistant",
    "hardware-overview", "serial-protocol", "installation", "project-structure", "challenges", "roadmap"
  ]

  lemma IdsWrittenOut()
    ensures Ids(SearchItems) == IndexIds
  {
  }

  lemma IndexIdsDistinct()
    ensures Distinct(IndexIds)
  {
    var ids := IndexIds;
    forall i, j | 0 <= i < j < |ids| ensures ids[i] != ids[j] {
    }
  }

  /** Twelve topics whose ids are distinct, so each hit's `key` and navigation target are unique. */
  lemma IndexShape()
    ensures |SearchItems| == 12
    ensures Distinct(Ids(SearchItems))
  {
    IdsWrittenOut();
    IndexIdsDistinct();
  }

  /** Every topic has a title, a content text and at least one keyword. */
  lemma IndexEntriesFilled()
    ensures forall i | 0 <= i < |SearchItems| ::
      SearchItems[i].title != "" && SearchItems[i].content != "" && SearchItems[i].keywords != []
  {
  }

  /** The keyword lists of the index, in order. */
  function Keywords(items: seq<SearchItem>): seq<seq<string>> {
    seq(|items|, i requires 0 <= i < |items| => items[i].keywords)
  }

  const IndexKeywords: seq<seq<string>> := [
    ["vision", "ai", "gesture", "controller", "peripherals"],
    ["pipeline", "fps", "mediapipe", "ssd", "tracking", "smoothing"],
    ["technologies", "frameworks", "libraries", "python", "cpp", "arduino"],
    ["tools", "utilities", "programs", "software", "paint", "math"],
    ["entertainment", "play", "arcade", "physics", "collision"],
    ["voice", "llm", "gpt", "gemini", "chat", "commands"],
    ["electronics", "circuit", "sensors", "actuators", "physical", "iot"],
    ["uart", "baud", "communication", "firmware", "commands"],
    ["setup", "start", "requirements", "controls", "gestures"],
    ["files", "folders", "code", "architecture", "modules"],
    ["problems", "fixes", "optimization", "performance", "bugs"],
    ["future", "upcoming", "features", "plans", "goals"]
  ]

  lemma KeywordsWrittenOut()
    ensures Keywords(SearchItems) == IndexKeywords
  {
  }

  lemma FirstKeywordsLowerCase()
    ensures forall i, k | 0 <= i < 6 && k in IndexKeywords[i] :: IsLower(k)
  {
  }

  lemma LastKeywordsLowerCase()
    ensures forall i, k | 6 <= i < 12 && k in IndexKeywords[i] :: IsLower(k)
  {
  }

  lemma IndexKeywordsLowerCase()
    ensures forall i, k | 0 <= i < |IndexKeywords| && k in IndexKeywords[i] :: IsLower(k)
  {
    FirstKeywordsLowerCase();
    LastKeywordsLowerCase();
  }

  /** Keyword facts carry over from the written-out lists to the items they were read from. */
  lemma LowerCaseFromKeywords(items: seq<SearchItem>, lists: seq<seq<string>>)
    requires Keywords(items) == lists
    requires forall i, k | 0 <= i < |lists| && k in lists[i] :: IsLower(k)
    ensures forall i, k | 0 <= i < |items| && k in items[i].keywords :: IsLower(k)
  {
    forall i | 0 <= i < |items| ensures items[i].keywords == lists[i] {
      assert Keywords(items)[i] == items[i].keywords;
    }
  }

  /** The keywords are written in lower case. */
  lemma KeywordsLowerCase()
    ensures forall i, k | 0 <= i < |SearchItems| && k in SearchItems[i].keywords :: IsLower(k)
  {
    KeywordsWrittenOut();
    IndexKeywordsLowerCase();
    LowerCaseFromKeywords(SearchItems, IndexKeywords);
  }

  /** Lower-casing leaves lower-case keywords as they are. */
  lemma UnchangedByLower(items: seq<SearchItem>)
    requires forall i, k | 0 <= i < |items| && k in items[i].keywords :: IsLower(k)
    ensures forall i, k | 0 <= i < |items| && k in items[i].keywords :: Lower(k) == k
  {
    forall i, k | 0 <= i < |items| && k in items[i].keywords ensures Lower(k) == k {
      LowerOfLowerCase(k);
    }
  }

  /** So the palette's lower-casing leaves every keyword as it is. */
  lemma KeywordsUnchangedByLower()
    ensures forall i, k | 0 <= i < |SearchItems| && k in SearchItems[i].keywords :: Lower(k) == k
  {
    KeywordsLowerCase();
    UnchangedByLower(SearchItems);
  }

  /** Every hit navigates to an anchor that the sidebar lists. */
  lemma IdsAreNavAnchors()
    ensures forall i | 0 <= i < |SearchItems| :: SearchItems[i].id in NavIds(NavItems)
  {
    IdsWrittenOut();
    NavIdsWrittenOut();
    assert forall x | x in IndexIds :: x in AllNavIds;
  }

  /** The section of each topic, in order. */
  function SectionNames(items: seq<SearchItem>): (r: seq<string>)
    ensures |r| == |items|
    ensures forall i | 0 <= i < |items| :: r[i] == items[i].section
  {
    seq(|items|, i requires 0 <= i < |items| => items[i].section)
  }

  const IndexSectionNames: seq<string> := [
    "General", "General", "General", "Features", "Features", "Features",
    "Implementation", "Implementation", "Guide", "Guide", "Reference", "Reference"
  ]

  lemma SectionNamesWrittenOut()
    ensures SectionNames(SearchItems) == IndexSectionNames
  {
  }

  /** The distinct names among `names[..k]` in order of first appearance, counted by position. */
  function KeysUpTo(names: seq<string>, k: nat): seq<string>
    requires k <= |names|
  {
    if k == 0 then []
    else
      var keys := KeysUpTo(names, k - 1);
      if names[k - 1] in keys then keys else keys + [names[k - 1]]
  }

  /** Whether `names[..k]` keeps equal names adjacent, counted by position. */
  predicate AdjacentUpTo(names: seq<string>, k: nat)
    requires k <= |names|
  {
    k == 0 ||
      (&& AdjacentUpTo(names, k - 1)
       && (k > 1 && names[k - 1] in KeysUpTo(names, k - 1) ==> names[k - 1] == names[k - 2]))
  }

  /** `Sections` and `Contiguous` only look at the section names. */
  lemma {:induction false} UpToIsPrefix(items: seq<SearchItem>, k: nat)
    requires k <= |items|
    ensures KeysUpTo(SectionNames(items), k) == Sections(items[..k])
    ensures AdjacentUpTo(SectionNames(items), k) <==> Contiguous(items[..k])
  {
    if k > 0 {
      UpToIsPrefix(items, k - 1);
      assert items[..k][..k - 1] == items[..k - 1];
    }
  }

  lemma IndexLayout()
    ensures KeysUpTo(IndexSectionNames, 12) == ["General", "Features", "Implementation", "Guide", "Reference"]
    ensures AdjacentUpTo(IndexSectionNames, 12)
  {
    var n := IndexSectionNames;
    assert KeysUpTo(n, 1) == ["General"] && AdjacentUpTo(n, 1);
    assert KeysUpTo(n, 2) == ["General"] && AdjacentUpTo(n, 2);
    assert KeysUpTo(n, 3) == ["General"] && AdjacentUpTo(n, 3);
    assert KeysUpTo(n, 4) == ["General", "Features"] && AdjacentUpTo(n, 4);
    assert KeysUpTo(n, 5) == ["General", "Features"] && AdjacentUpTo(n, 5);
    assert KeysUpTo(n, 6) == ["General", "Features"] && AdjacentUpTo(n, 6);
    assert KeysUpTo(n, 7) == ["General", "Features", "Implementation"] && AdjacentUpTo(n, 7);
    assert KeysUpTo(n, 8) == ["General", "Features", "Implementation"] && AdjacentUpTo(n, 8);
    assert KeysUpTo(n, 9) == ["General", "Features", "Implementation", "Guide"] && AdjacentUpTo(n, 9);
    assert KeysUpTo(n, 10) == ["General", "Features", "Implementation", "Guide"] && AdjacentUpTo(n, 10);
    assert KeysUpTo(n, 11) == ["General", "Features", "Implementation", "Guide", "Reference"] && AdjacentUpTo(n, 11);
    assert KeysUpTo(n, 12) == ["General", "Features", "Implementation", "Guide", "Reference"] && AdjacentUpTo(n, 12);
  }

  /** The index lists its five sections one block after another. */
  lemma IndexSections()
    ensures Sections(SearchItems) == ["General", "Features", "Implementation", "Guide", "Reference"]
    ensures Contiguous(SearchItems)
  {
    SectionNamesWrittenOut();
    IndexLayout();
    UpToIsPrefix(SearchItems, 12);
    assert SearchItems[..12] == SearchItems;
  }

  /**
    For every query the grouped list reads the hits in their index order: the
    groups come out in first-appearance order and concatenate back to the
    filtered list.
  */
  lemma GroupedListIsFilteredList(query: string)
    ensures Flatten(Sections(FilteredItems(query)), FilteredItems(query)) == FilteredItems(query)
  {
    IndexSections();
    FilterContiguous(SearchItems, query);
    GroupsInOrder(FilteredItems(query));
  }

  /** The icon each topic of the index shows in the palette. */
  const IndexIcons: seq<Icon> := [FileText, FileText, FileText, Calculator, Gamepad2, Zap, Wrench, Wrench, Download, FileText, Lightbulb, Rocket]

  lemma IconOfIntroduction()
    ensures GetIcon("introduction") == FileText
  {
    AbsentChar("introduction", "game", 'g');
    AbsentChar("introduction", "app", 'a');
    AbsentChar("introduction", "ai", 'a');
    AbsentChar("introduction", "hardware", 'h');
    AbsentChar("introduction", "serial", 's');
    AbsentChar("introduction", "install", 's');
    AbsentChar("introduction", "challenge", 'h');
    AbsentChar("introduction", "roadmap", 'a');
  }

  lemma IconOfHowItWorks()
    ensures GetIcon("how-it-works") == FileText
  {
    AbsentChar("how-it-works", "game", 'g');
    AbsentChar("how-it-works", "app", 'a');
    AbsentChar("how-it-works", "ai", 'a');
    AbsentChar("how-it-works", "hardware", 'a');
    AbsentChar("how-it-works", "serial", 'e');
    AbsentChar("how-it-works", "install", 'n');
    AbsentChar("how-it-works", "challenge", 'c');
    AbsentChar("how-it-works", "roadmap", 'a');
  }

  lemma IconOfTechStack()
    ensures GetIcon("tech-stack") == FileText
  {
    AbsentChar("tech-stack", "game", 'g');
    AbsentChar("tech-stack", "app", 'p');
    AbsentChar("tech-stack", "ai", 'i');
    AbsentChar("tech-stack", "hardware", 'r');
    AbsentChar("tech-stack", "serial", 'r');
    AbsentChar("tech-stack", "install", 'i');
    AbsentChar("tech-stack", "challenge", 'l');
    AbsentChar("tech-stack", "roadmap", 'r');
  }

  lemma IconOfAppsGallery()
    ensures GetIcon("apps-gallery") == Calculator
  {
    AbsentChar("apps-gallery", "game", 'm');
    assert OccursAt("apps-gallery", "app", 0);
  }

  lemma IconOfGames()
    ensures GetIcon("games") == Gamepad2
  {
    assert OccursAt("games", "game", 0);
  }

  lemma IconOfAiAssistant()
    ensures GetIcon("ai-assistant") == Zap
  {
    AbsentChar("ai-assistant", "game", 'g');
    AbsentChar("ai-assistant", "app", 'p');
    assert OccursAt("ai-assistant", "ai", 0);
  }

  lemma IconOfHardwareOverview()
    ensures GetIcon("hardware-overview") == Wrench
  {
    AbsentChar("hardware-overview", "game", 'g');
    AbsentChar("hardware-overview", "app", 'p');
    AbsentPair("hardware-overview", "ai");
    assert OccursAt("hardware-overview", "hardware", 0);
  }

  lemma IconOfSerialProtocol()
    ensures GetIcon("serial-protocol") == Wrench
  {
    AbsentChar("serial-protocol", "game", 'g');
    AbsentPair("serial-protocol", "app");
    AbsentPair("serial-protocol", "ai");
    AbsentChar("serial-protocol", "hardware", 'h');
    assert OccursAt("serial-protocol", "serial", 0);
  }

  lemma IconOfInstallation()
    ensures GetIcon("installation") == Download
  {
    AbsentChar("installation", "game", 'g');
    AbsentChar("installation", "app", 'p');
    AbsentPair("installation", "ai");
    AbsentChar("installation", "hardware", 'h');
    AbsentChar("installation", "serial", 'e');
    assert OccursAt("installation", "install", 0);
  }

  lemma IconOfProjectStructure()
    ensures GetIcon("project-structure") == FileText
  {
    AbsentChar("project-structure", "game", 'g');
    AbsentChar("project-structure", "app", 'a');
    AbsentChar("project-structure", "ai", 'a');
    AbsentChar("project-structure", "hardware", 'h');
    AbsentChar("project-structure", "serial", 'i');
    AbsentChar("project-structure", "install", 'i');
    AbsentChar("project-structure", "challenge", 'h');
    AbsentChar("project-structure", "roadmap", 'a');
  }

  lemma IconOfChallenges()
    ensures GetIcon("challenges") == Lightbulb
  {
    AbsentChar("challenges", "game", 'm');
    AbsentChar("challenges", "app", 'p');
    AbsentChar("challenges", "ai", 'i');
    AbsentChar("challenges", "hardware", 'r');
    AbsentChar("challenges", "serial", 'r');
    AbsentChar("challenges", "install", 'i');
    assert OccursAt("challenges", "challenge", 0);
  }

  lemma IconOfRoadmap()
    ensures GetIcon("roadmap") == Rocket
  {
    AbsentChar("roadmap", "game", 'g');
    AbsentPair("roadmap", "app");
    AbsentChar("roadmap", "ai", 'i');
    AbsentChar("roadmap", "hardware", 'h');
    AbsentChar("roadmap", "serial", 's');
    AbsentChar("roadmap", "install", 'i');
    AbsentChar("roadmap", "challenge", 'c');
    assert OccursAt("roadmap", "roadmap", 0);
  }

  lemma IndexIconsComputed()
    ensures forall i | 0 <= i < |IndexIds| :: GetIcon(IndexIds[i]) == IndexIcons[i]
  {
    IconOfIntroduction();
    IconOfHowItWorks();
    IconOfTechStack();
    IconOfAppsGallery();
    IconOfGames();
    IconOfAiAssistant();
    IconOfHardwareOverview();
    IconOfSerialProtocol();
    IconOfInstallation();
    IconOfProjectStructure();
    IconOfChallenges();
    IconOfRoadmap();
  }

  /**
    Each topic's icon: the id decides it, first match winning, and topics no
    rule matches fall back to FileText.
  */
  lemma IconsOfIndex()
    ensures forall i | 0 <= i < |SearchItems| :: GetIcon(SearchItems[i].id) == IndexIcons[i]
  {
    IdsWrittenOut();
    IndexIconsComputed();
  }
}
