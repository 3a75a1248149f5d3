/**
  The search palette: the query filter over the search index, the grouping of
  the hits by section, the icon chosen for each hit, and the open/closed state
  of the dialog with its keyboard shortcut.
*/
module SearchCommand {
  import opened Text
  import opened Seqs
  import opened SearchData

  // ---------------------------------------------------------------------------
  // Filtering (`filteredItems`)
  // ---------------------------------------------------------------------------

  /** The test applied to each item, for a query that has already been lower-cased. */
  predicate Matches(item: SearchItem, lowerQuery: string) {
    || Contains(Lower(item.title), lowerQuery)
    || Contains(Lower(item.content), lowerQuery)
    || exists k | k in item.keywords :: Contains(Lower(k), lowerQuery)
  }

  /** `items.filter(...)`: the items that match, in their original order. */
  function KeepMatching(items: seq<SearchItem>, lowerQuery: string): (r: seq<SearchItem>)
    ensures |r| <= |items|
    ensures forall x | x in r :: x in items && Matches(x, lowerQuery)
    decreases |items|
  {
    if items == [] then []
    else
      var last := items[|items| - 1];
      KeepMatching(items[..|items| - 1], lowerQuery) + (if Matches(last, lowerQuery) then [last] else [])
  }

  /** The palette's result list for `query`: everything for the empty query, else the matches. */
  function Filter(items: seq<SearchItem>, query: string): (r: seq<SearchItem>)
    ensures query == "" ==> r == items
    ensures |r| <= |items|
    ensures forall x | x in r :: x in items
  {
    if query == "" then items else KeepMatching(items, Lower(query))
  }

  /** `filteredItems`, which runs the filter over the constant index. */
  function FilteredItems(query: string): (r: seq<SearchItem>)
    ensures |r| <= |SearchItems|
    ensures forall x | x in r :: x in SearchItems
  {
    Filter(SearchItems, query)
  }

  lemma {:induction false} KeepMatchingMembers(items: seq<SearchItem>, lowerQuery: string)
    ensures forall x :: x in KeepMatching(items, lowerQuery) <==> x in items && Matches(x, lowerQuery)
    decreases |items|
  {
    if items != [] {
      var init := items[..|items| - 1];
      KeepMatchingMembers(init, lowerQuery);
      assert items == init + [items[|items| - 1]];
    }
  }

  lemma {:induction false} KeepMatchingSubsequence(items: seq<SearchItem>, lowerQuery: string)
    ensures Subsequence(KeepMatching(items, lowerQuery), items)
    decreases |items|
  {
    if items != [] {
      var init, last := items[..|items| - 1], items[|items| - 1];
      KeepMatchingSubsequence(init, lowerQuery);
      SubsequenceSnoc(KeepMatching(init, lowerQuery), init, last);
      assert items == init + [last];
      if Matches(last, lowerQuery) {
        assert KeepMatching(items, lowerQuery) == KeepMatching(init, lowerQuery) + [last];
      } else {
        assert KeepMatching(items, lowerQuery) == KeepMatching(init, lowerQuery);
      }
    }
  }

  /**
    The empty query returns the index unchanged; any other query keeps exactly
    the items whose lower-cased title, content or some keyword contains the
    lower-cased query.
  */
  lemma FilterSpec(items: seq<SearchItem>, query: string)
    ensures query == "" ==> Filter(items, query) == items
    ensures query != "" ==>
      forall x :: x in Filter(items, query) <==> x in items && Matches(x, Lower(query))
  {
    KeepMatchingMembers(items, Lower(query));
  }

  /** The result is an order-preserving subsequence: nothing is invented, repeated or reordered. */
  lemma FilterSubsequence(items: seq<SearchItem>, query: string)
    ensures Subsequence(Filter(items, query), items)
    ensures multiset(Filter(items, query)) <= multiset(items)
    ensures Distinct(items) ==> Distinct(Filter(items, query))
  {
    var r := Filter(items, query);
    if query == "" {
      SubsequenceRefl(items);
    } else {
      KeepMatchingSubsequence(items, Lower(query));
    }
    SubsequenceMultiset(r, items);
    if Distinct(items) {
      SubsequenceDistinct(r, items);
    }
  }

  /** Queries that differ only in letter case give the same results. */
  lemma FilterCaseInsensitive(items: seq<SearchItem>, q1: string, q2: string)
    requires Lower(q1) == Lower(q2)
    ensures Filter(items, q1) == Filter(items, q2)
  {
    assert |q1| == |Lower(q1)| == |Lower(q2)| == |q2|;
  }

  /** An item that matches a query also matches every substring of that query. */
  lemma MatchesSubstring(item: SearchItem, a: string, b: string)
    requires Contains(a, b) && Matches(item, a)
    ensures Matches(item, b)
  {
    if Contains(Lower(item.title), a) {
      ContainsTransitive(Lower(item.title), a, b);
    } else if Contains(Lower(item.content), a) {
      ContainsTransitive(Lower(item.content), a, b);
    } else {
      var k :| k in item.keywords && Contains(Lower(k), a);
      ContainsTransitive(Lower(k), a, b);
    }
  }

  lemma {:induction false} KeepMatchingMonotone(items: seq<SearchItem>, a: string, b: string)
    requires Contains(a, b)
    ensures Subsequence(KeepMatching(items, a), KeepMatching(items, b))
    decreases |items|
  {
    if items != [] {
      var init, last := items[..|items| - 1], items[|items| - 1];
      var ra, rb := KeepMatching(items, a), KeepMatching(items, b);
      KeepMatchingMonotone(init, a, b);
      SubsequenceSnoc(KeepMatching(init, a), KeepMatching(init, b), last);
      if Matches(last, a) {
        MatchesSubstring(last, a, b);
        assert ra == KeepMatching(init, a) + [last] && rb == KeepMatching(init, b) + [last];
      } else if Matches(last, b) {
        assert ra == KeepMatching(init, a) && rb == KeepMatching(init, b) + [last];
      } else {
        assert ra == KeepMatching(init, a) && rb == KeepMatching(init, b);
      }
    }
  }

  /**
    Monotonicity in the query: if `q'` is a substring of `q`, then the results
    for `q` are among, and in the same order as, the results for `q'`. The
    empty query is a substring of every query and lists everything.
  */
  lemma FilterMonotone(items: seq<SearchItem>, q: string, q': string)
    requires Contains(q, q')
    ensures Subsequence(Filter(items, q), Filter(items, q'))
    ensures forall x | x in Filter(items, q) :: x in Filter(items, q')
  {
    if q' == "" {
      FilterSubsequence(items, q);
    } else {
      var i: nat :| i <= |q| && OccursAt(q, q', i);
      assert q != "";
      ContainsLower(q, q');
      KeepMatchingMonotone(items, Lower(q), Lower(q'));
    }
    SubsequenceMembers(Filter(items, q), Filter(items, q'));
  }

  // ---------------------------------------------------------------------------
  // Grouping (`groupedItems`)
  // ---------------------------------------------------------------------------

  /** The distinct sections of `items` in order of first appearance. */
  function Sections(items: seq<SearchItem>): seq<string>
    decreases |items|
  {
    if items == [] then []
    else
      var keys := Sections(items[..|items| - 1]);
      var s := items[|items| - 1].section;
      if s in keys then keys else keys + [s]
  }

  /** The items of `section`, in their order in `items`. */
  function InSection(items: seq<SearchItem>, section: string): seq<SearchItem>
    decreases |items|
  {
    if items == [] then []
    else
      var last := items[|items| - 1];
      InSection(items[..|items| - 1], section) + (if last.section == section then [last] else [])
  }

  /** The groups of `keys`, concatenated in key order: what the palette lists. */
  function Flatten(keys: seq<string>, items: seq<SearchItem>): seq<SearchItem>
    decreases |keys|
  {
    if keys == [] then []
    else Flatten(keys[..|keys| - 1], items) + InSection(items, keys[|keys| - 1])
  }

  /** Items of one section are adjacent: a section, once left, never comes back. */
  predicate Contiguous(items: seq<SearchItem>)
    decreases |items|
  {
    if items == [] then true
    else
      var init := items[..|items| - 1];
      && Contiguous(init)
      && (init != [] && items[|items| - 1].section in Sections(init) ==>
            items[|items| - 1].section == init[|init| - 1].section)
  }

  /** Section keys are distinct, and are exactly the sections that occur in `items`. */
  lemma {:induction false} SectionsSpec(items: seq<SearchItem>)
    ensures Distinct(Sections(items))
    ensures forall s :: s in Sections(items) <==> exists x | x in items :: x.section == s
    decreases |items|
  {
    if items != [] {
      var init := items[..|items| - 1];
      SectionsSpec(init);
      assert items == init + [items[|items| - 1]];
      var keys := Sections(init);
      var s := items[|items| - 1].section;
      if s !in keys {
        forall i, j | 0 <= i < j < |keys + [s]| ensures (keys + [s])[i] != (keys + [s])[j] {
          if j == |keys| {
            assert (keys + [s])[i] == keys[i];
          }
        }
      }
    }
  }

  /** Each item lands in the group of its own section and in no other; a group keeps the input order. */
  lemma {:induction false} InSectionSpec(items: seq<SearchItem>, section: string)
    ensures forall x :: x in InSection(items, section) <==> x in items && x.section == section
    ensures Subsequence(InSection(items, section), items)
    decreases |items|
  {
    if items != [] {
      var init, last := items[..|items| - 1], items[|items| - 1];
      InSectionSpec(init, section);
      assert items == init + [last];
      SubsequenceSnoc(InSection(init, section), init, last);
      if last.section == section {
        assert InSection(items, section) == InSection(init, section) + [last];
      } else {
        assert InSection(items, section) == InSection(init, section);
      }
    }
  }

  lemma InSectionAbsent(items: seq<SearchItem>, section: string)
    requires section !in Sections(items)
    ensures InSection(items, section) == []
  {
    SectionsSpec(items);
    InSectionSpec(items, section);
  }

  /** Appending an item whose section is not among `keys` leaves their groups alone. */
  lemma {:induction false} FlattenFrame(keys: seq<string>, items: seq<SearchItem>, x: SearchItem)
    requires x.section !in keys
    ensures Flatten(keys, items + [x]) == Flatten(keys, items)
    decreases |keys|
  {
    if keys != [] {
      FlattenFrame(keys[..|keys| - 1], items, x);
      assert (items + [x])[..|items + [x]| - 1] == items;
    }
  }

  /** Appending an item whose section is among `keys` adds exactly that item to the listing. */
  lemma {:induction false} FlattenAddOne(keys: seq<string>, items: seq<SearchItem>, x: SearchItem)
    requires x.section in keys && Distinct(keys)
    ensures multiset(Flatten(keys, items + [x])) == multiset(Flatten(keys, items)) + multiset{x}
    decreases |keys|
  {
    var init, k := keys[..|keys| - 1], keys[|keys| - 1];
    assert (items + [x])[..|items + [x]| - 1] == items;
    if k == x.section {
      assert x.section !in init by {
        forall i | 0 <= i < |init| ensures init[i] != k {
          assert init[i] == keys[i];
        }
      }
      FlattenFrame(init, items, x);
    } else {
      assert x.section in init by {
        var i :| 0 <= i < |keys| && keys[i] == x.section;
        assert init[i] == keys[i];
      }
      FlattenAddOne(init, items, x);
    }
  }

  /** Nothing is lost or duplicated: the groups, taken together, hold exactly the items. */
  lemma {:induction false} GroupsPartition(items: seq<SearchItem>)
    ensures multiset(Flatten(Sections(items), items)) == multiset(items)
    decreases |items|
  {
    if items != [] {
      var init, x := items[..|items| - 1], items[|items| - 1];
      var keys := Sections(init);
      assert items == init + [x];
      GroupsPartition(init);
      SectionsSpec(init);
      if x.section in keys {
        FlattenAddOne(keys, init, x);
      } else {
        FlattenFrame(keys, init, x);
        InSectionAbsent(init, x.section);
        assert (keys + [x.section])[..|keys|] == keys;
      }
    }
  }

  /** In contiguous input, the last key is the section of the last item. */
  lemma {:induction false} LastSection(items: seq<SearchItem>)
    requires Contiguous(items) && items != []
    ensures Sections(items) != []
    ensures Sections(items)[|Sections(items)| - 1] == items[|items| - 1].section
    decreases |items|
  {
    var init := items[..|items| - 1];
    if init != [] && items[|items| - 1].section in Sections(init) {
      LastSection(init);
    }
  }

  /**
    For contiguous input, listing the groups in key order reproduces the input
    order exactly.
  */
  lemma {:induction false} GroupsInOrder(items: seq<SearchItem>)
    requires Contiguous(items)
    ensures Flatten(Sections(items), items) == items
    decreases |items|
  {
    if items != [] {
      var init, x := items[..|items| - 1], items[|items| - 1];
      var keys := Sections(init);
      assert items == init + [x];
      GroupsInOrder(init);
      SectionsSpec(init);
      if x.section in keys {
        GroupsInOrderJoin(init, x);
      } else {
        assert Sections(items) == keys + [x.section];
        FlattenFrame(keys, init, x);
        InSectionAbsent(init, x.section);
        assert InSection(items, x.section) == [x];
        assert (keys + [x.section])[..|keys|] == keys;
      }
    }
  }

  /** The step of `GroupsInOrder` where the new item continues the last group. */
  lemma {:induction false} GroupsInOrderJoin(init: seq<SearchItem>, x: SearchItem)
    requires Contiguous(init + [x]) && x.section in Sections(init)
    requires Flatten(Sections(init), init) == init
    ensures Flatten(Sections(init + [x]), init + [x]) == init + [x]
  {
    var items := init + [x];
    assert items[..|items| - 1] == init;
    var keys := Sections(init);
    SectionsSpec(init);
    LastSection(init);
    assert keys[|keys| - 1] == x.section;
    DistinctLast(keys);
    assert Sections(items) == keys;
    FlattenJoinLast(keys, init, x);
  }

  /** A hit of the last listed section lands at the end of the listing. */
  lemma FlattenJoinLast(keys: seq<string>, items: seq<SearchItem>, x: SearchItem)
    requires keys != [] && keys[|keys| - 1] == x.section && x.section !in keys[..|keys| - 1]
    ensures Flatten(keys, items + [x]) == Flatten(keys, items) + [x]
  {
    var front := keys[..|keys| - 1];
    FlattenFrame(front, items, x);
    assert (items + [x])[..|items + [x]| - 1] == items;
    assert InSection(items + [x], x.section) == InSection(items, x.section) + [x];
  }

  lemma {:induction false} KeepMatchingLastSection(items: seq<SearchItem>, lowerQuery: string)
    requires Contiguous(items) && items != []
    requires items[|items| - 1].section in Sections(KeepMatching(items, lowerQuery))
    ensures KeepMatching(items, lowerQuery) != []
    ensures var r := KeepMatching(items, lowerQuery); r[|r| - 1].section == items[|items| - 1].section
    decreases |items|
  {
    var init, x := items[..|items| - 1], items[|items| - 1];
    if !Matches(x, lowerQuery) {
      var r := KeepMatching(init, lowerQuery);
      assert KeepMatching(items, lowerQuery) == r;
      KeepMatchingSections(init, lowerQuery);
      assert init != [];
      KeepMatchingLastSection(init, lowerQuery);
    }
  }

  /** Filtering introduces no new section. */
  lemma KeepMatchingSections(items: seq<SearchItem>, lowerQuery: string)
    ensures forall s | s in Sections(KeepMatching(items, lowerQuery)) :: s in Sections(items)
  {
    var r := KeepMatching(items, lowerQuery);
    SectionsSpec(r);
    SectionsSpec(items);
    forall s | s in Sections(r) ensures s in Sections(items) {
      var y :| y in r && y.section == s;
      assert y in items;
    }
  }

  lemma {:induction false} KeepMatchingContiguous(items: seq<SearchItem>, lowerQuery: string)
    requires Contiguous(items)
    ensures Contiguous(KeepMatching(items, lowerQuery))
    decreases |items|
  {
    if items != [] {
      var init, x := items[..|items| - 1], items[|items| - 1];
      var r := KeepMatching(init, lowerQuery);
      KeepMatchingContiguous(init, lowerQuery);
      if !Matches(x, lowerQuery) {
        assert KeepMatching(items, lowerQuery) == r;
      } else {
        assert KeepMatching(items, lowerQuery) == r + [x];
        if r != [] && x.section in Sections(r) {
          KeepMatchingJoinsLast(items, lowerQuery);
        }
        ContiguousSnoc(r, x);
      }
    }
  }

  /** A hit whose section was already kept continues the last kept group. */
  lemma KeepMatchingJoinsLast(items: seq<SearchItem>, lowerQuery: string)
    requires Contiguous(items) && items != []
    requires var r := KeepMatching(items[..|items| - 1], lowerQuery);
      r != [] && items[|items| - 1].section in Sections(r)
    ensures var r := KeepMatching(items[..|items| - 1], lowerQuery);
      r != [] && items[|items| - 1].section == r[|r| - 1].section
  {
    var init, x := items[..|items| - 1], items[|items| - 1];
    var r := KeepMatching(init, lowerQuery);
    SectionsSpec(r);
    SectionsSpec(init);
    KeepMatchingMembers(init, lowerQuery);
    assert init != [];
    KeepMatchingLastSection(init, lowerQuery);
  }

  /** Appending an item keeps a list contiguous when its section, if already present, is the last one. */
  lemma ContiguousSnoc(r: seq<SearchItem>, x: SearchItem)
    requires Contiguous(r)
    requires r != [] && x.section in Sections(r) ==> x.section == r[|r| - 1].section
    ensures Contiguous(r + [x])
  {
    assert (r + [x])[..|r|] == r;
  }

  /** Filtering keeps sections contiguous. */
  lemma FilterContiguous(items: seq<SearchItem>, query: string)
    requires Contiguous(items)
    ensures Contiguous(Filter(items, query))
  {
    if query != "" {
      KeepMatchingContiguous(items, Lower(query));
    }
  }

  /**
    `groupedItems`: one pass over the hits that creates a group the first time
    a section is seen and pushes each item onto its section's group. `keys` is
    the insertion order of the groups, which is the order `Object.entries`
    lists them in (section names are not integer-like).
  */
  method GroupBySection(items: seq<SearchItem>) returns (keys: seq<string>, groups: map<string, seq<SearchItem>>)
    ensures keys == Sections(items)
    ensures forall s :: s in groups <==> s in keys
    ensures forall s | s in groups :: groups[s] == InSection(items, s)
  {
    keys, groups := [], map[];
    for i := 0 to |items|
      invariant keys == Sections(items[..i])
      invariant forall s :: s in groups <==> s in keys
      invariant forall s | s in groups :: groups[s] == InSection(items[..i], s)
    {
      var item := items[i];
      assert items[..i + 1][..i] == items[..i];
      if item.section !in groups {
        InSectionAbsent(items[..i], item.section);
        groups := groups[item.section := []];
        keys := keys + [item.section];
      }
      groups := groups[item.section := groups[item.section] + [item]];
    }
    assert items[..|items|] == items;
  }

  // ---------------------------------------------------------------------------
  // Icons (`getIcon`)
  // ---------------------------------------------------------------------------

  /** The lucide icons the palette can show next to a hit. */
  datatype Icon = Gamepad2 | Calculator | Zap | Wrench | Download | Lightbulb | Rocket | FileText

  /** The `switch (true)` chain over substrings of the item id. */
  function GetIcon(id: string): (r: Icon)
    ensures Contains(id, "game") ==> r == Gamepad2
    ensures r == FileText <==>
      !Contains(id, "game") && !Contains(id, "app") && !Contains(id, "ai") && !Contains(id, "hardware")
      && !Contains(id, "serial") && !Contains(id, "install") && !Contains(id, "challenge") && !Contains(id, "roadmap")
  {
    if Contains(id, "game") then Gamepad2
    else if Contains(id, "app") then Calculator
    else if Contains(id, "ai") then Zap
    else if Contains(id, "hardware") || Contains(id, "serial") then Wrench
    else if Contains(id, "install") then Download
    else if Contains(id, "challenge") then Lightbulb
    else if Contains(id, "roadmap") then Rocket
    else FileText
  }

  /** One case of the chain: the icon, and the substrings any of which selects it. */
  datatype IconRule = IconRule(needles: seq<string>, icon: Icon)

  /** The cases of the chain, highest priority first. */
  const IconRules: seq<IconRule> := [
    IconRule(["game"], Gamepad2),
    IconRule(["app"], Calculator),
    IconRule(["ai"], Zap),
    IconRule(["hardware", "serial"], Wrench),
    IconRule(["install"], Download),
    IconRule(["challenge"], Lightbulb),
    IconRule(["roadmap"], Rocket)
  ]

  predicate RuleMatches(rule: IconRule, id: string) {
    exists n | n in rule.needles :: Contains(id, n)
  }

  /** First-match-wins over a priority list of rules, with a fallback icon. */
  function FirstMatch(rules: seq<IconRule>, id: string, fallback: Icon): (r: Icon)
    ensures (forall k | 0 <= k < |rules| :: !RuleMatches(rules[k], id)) ==> r == fallback
    ensures forall k | 0 <= k < |rules| && RuleMatches(rules[k], id) ::
      (forall j | 0 <= j < k :: !RuleMatches(rules[j], id)) ==> r == rules[k].icon
    decreases |rules|
  {
    if rules == [] then fallback
    else if RuleMatches(rules[0], id) then rules[0].icon
    else
      var r := FirstMatch(rules[1..], id, fallback);
      assert forall k | 1 <= k < |rules| :: rules[k] == rules[1..][k - 1];
      r
  }

  /** `getIcon` is the first-match-wins reading of the rule list, falling back to FileText. */
  lemma GetIconIsFirstMatch(id: string)
    ensures GetIcon(id) == FirstMatch(IconRules, id, FileText)
  {
    var rs := IconRules;
    assert RuleMatches(rs[0], id) <==> Contains(id, "game");
    assert RuleMatches(rs[1], id) <==> Contains(id, "app");
    assert RuleMatches(rs[2], id) <==> Contains(id, "ai");
    assert RuleMatches(rs[3], id) <==> Contains(id, "hardware") || Contains(id, "serial");
    assert RuleMatches(rs[4], id) <==> Contains(id, "install");
    assert RuleMatches(rs[5], id) <==> Contains(id, "challenge");
    assert RuleMatches(rs[6], id) <==> Contains(id, "roadmap");
  }

  // ---------------------------------------------------------------------------
  // The dialog (`open`, `query`)
  // ---------------------------------------------------------------------------

  /** The palette component's state: whether the dialog is open, and the query typed into it. */
  class SearchPalette {
    var open: bool
    var query: string

    constructor ()
      ensures !open && query == ""
    {
      open, query := false, "";
    }

    /** The document `keydown` listener: "k" with Meta or Ctrl flips the dialog, other keys do nothing. */
    method KeyDown(key: string, metaKey: bool, ctrlKey: bool)
      modifies this
      ensures open == if key == "k" && (metaKey || ctrlKey) then !old(open) else old(open)
      ensures query == old(query)
    {
      if key == "k" && (metaKey || ctrlKey) {
        open := !open;
      }
    }

    /** The "Search..." button opens the dialog. */
    method ClickSearchButton()
      modifies this
      ensures open && query == old(query)
    {
      open := true;
    }

    /** The dialog's own `onOpenChange` (Escape, clicking outside) sets the flag it is given. */
    method OpenChange(value: bool)
      modifies this
      ensures open == value && query == old(query)
    {
      open := value;
    }

    /** Typing into the input replaces the query. */
    method SetQuery(value: string)
      modifies this
      ensures query == value && open == old(open)
    {
      query := value;
    }

    /**
      Selecting a hit runs `runCommand`: it closes the dialog and then navigates
      to the hit's id, which is returned.
    */
    method Select(item: SearchItem) returns (target: string)
      modifies this
      ensures !open && query == old(query)
      ensures target == item.id
    {
      open := false;
      target := item.id;
    }
  }
}
