/**
  The documentation sidebar: the navigation tree, the list of expanded parent
  entries with its toggle, the active-entry test, and the mobile menu flag.
*/
module DocsSidebar {
  import opened Wrappers
  import opened Seqs

  /** A child link under a parent entry. */
  datatype NavLink = NavLink(id: string, caption: string)

  /** A top-level entry; entries with `children` are expandable parents. The icon is not modelled. */
  datatype NavItem = NavItem(id: string, caption: string, children: Option<seq<NavLink>>)

  /** The navigation tree, top to bottom. */
  const NavItems: seq<NavItem> := [
    NavItem("introduction", "Introduction", None),
    NavItem("how-it-works", "How It Works", None),
    NavItem("tech-stack", "Tech Stack", None),
    NavItem("applications", "Applications", Some([
      NavLink("apps-gallery", "App Gallery"),
      NavLink("games", "Games"),
      NavLink("ai-assistant", "AI Assistant")])),
    NavItem("hardware", "Hardware", Some([
      NavLink("hardware-overview", "Overview"),
      NavLink("components", "Components"),
      NavLink("serial-protocol", "Serial Protocol"),
      NavLink("arduino-firmware", "Firmware")])),
    NavItem("installation", "Installation", None),
    NavItem("project-structure", "Project Structure", None),
    NavItem("challenges", "Challenges & Solutions", None),
    NavItem("roadmap", "Future Roadmap", None)
  ]

  /** `NavIds(NavItems)` written out. */
  const AllNavIds: seq<string> := [
    "introduction", "how-it-works", "tech-stack",
    "applications", "apps-gallery", "games", "ai-assistant",
    "hardware", "hardware-overview", "components", "serial-protocol", "arduino-firmware",
    "installation", "project-structure", "challenges", "roadmap"
  ]

  /** The parents that start expanded. */
  const InitialExpanded: seq<string> := ["applications", "hardware"]

  /** The ids of a parent's child links, in order. */
  function ChildIds(item: NavItem): seq<string> {
    if item.children.Some? then
      var links := item.children.value;
      seq(|links|, i requires 0 <= i < |links| => links[i].id)
    else []
  }

  /** Every id from entry `k` on, in display order: each entry followed by its children. */
  function NavIdsFrom(items: seq<NavItem>, k: nat): seq<string>
    decreases |items| - k
  {
    if k >= |items| then [] else [items[k].id] + ChildIds(items[k]) + NavIdsFrom(items, k + 1)
  }

  /** Every id in the tree, top-level and child, in display order. */
  function NavIds(items: seq<NavItem>): seq<string> {
    NavIdsFrom(items, 0)
  }

  /** The ids of the entries from `k` on that have children. */
  function ParentIdsFrom(items: seq<NavItem>, k: nat): seq<string>
    decreases |items| - k
  {
    if k >= |items| then []
    else (if items[k].children.Some? then [items[k].id] else []) + ParentIdsFrom(items, k + 1)
  }

  /** `prev.filter((s) => s !== id)`. */
  function Without(s: seq<string>, id: string): (r: seq<string>)
    ensures |r| <= |s|
    ensures id !in r
    ensures forall x | x in r :: x in s
    decreases |s|
  {
    if s == [] then []
    else
      var last := s[|s| - 1];
      Without(s[..|s| - 1], id) + (if last == id then [] else [last])
  }

  /** The new list computed by `toggleExpand`. */
  function Toggle(prev: seq<string>, id: string): (r: seq<string>)
    ensures id in r <==> id !in prev
    ensures forall x | x != id :: x in r <==> x in prev
  {
    WithoutSpec(prev, id);
    if id in prev then Without(prev, id) else prev + [id]
  }

  /** `isActive`: the entry is the one the page reports as current. */
  predicate IsActive(activeSection: string, id: string) {
    activeSection == id
  }

  /** The filter drops exactly `id`, keeps the order of the rest, and keeps absent ids' lists intact. */
  lemma {:induction false} WithoutSpec(s: seq<string>, id: string)
    ensures forall x :: x in Without(s, id) <==> x in s && x != id
    ensures Subsequence(Without(s, id), s)
    ensures id !in s ==> Without(s, id) == s
    decreases |s|
  {
    if s != [] {
      var init, last := s[..|s| - 1], s[|s| - 1];
      WithoutSpec(init, id);
      assert s == init + [last];
      SubsequenceSnoc(Without(init, id), init, last);
      if last == id {
        assert Without(s, id) == Without(init, id);
      } else {
        assert Without(s, id) == Without(init, id) + [last];
      }
    }
  }

  /**
    An absent id is appended at the end; a present id has every occurrence
    removed, the other entries keeping their order and their multiplicity.
  */
  lemma ToggleSpec(prev: seq<string>, id: string)
    ensures id !in prev ==> Toggle(prev, id) == prev + [id]
    ensures id in prev ==>
      && id !in Toggle(prev, id)
      && Subsequence(Toggle(prev, id), prev)
      && forall x | x != id :: multiset(Toggle(prev, id))[x] == multiset(prev)[x]
  {
    WithoutSpec(prev, id);
    if id in prev {
      WithoutMultiset(prev, id);
    }
  }

  lemma {:induction false} WithoutMultiset(s: seq<string>, id: string)
    ensures forall x | x != id :: multiset(Without(s, id))[x] == multiset(s)[x]
    decreases |s|
  {
    if s != [] {
      var init, last := s[..|s| - 1], s[|s| - 1];
      WithoutMultiset(init, id);
      assert s == init + [last];
      if last == id {
        assert Without(s, id) == Without(init, id);
      } else {
        assert Without(s, id) == Without(init, id) + [last];
      }
    }
  }

  /** Toggling twice restores membership; for an id that was absent it restores the exact list. */
  lemma ToggleTwice(prev: seq<string>, id: string)
    ensures forall x :: x in Toggle(Toggle(prev, id), id) <==> x in prev
    ensures id !in prev ==> Toggle(Toggle(prev, id), id) == prev
  {
    if id !in prev {
      WithoutSpec(prev + [id], id);
      WithoutSpec(prev, id);
      assert (prev + [id])[..|prev|] == prev;
      assert Without(prev + [id], id) == Without(prev, id);
    }
  }

  /** A list without duplicates has none after a toggle. */
  lemma ToggleDistinct(prev: seq<string>, id: string)
    requires Distinct(prev)
    ensures Distinct(Toggle(prev, id))
  {
    if id in prev {
      WithoutSpec(prev, id);
      SubsequenceDistinct(Without(prev, id), prev);
    } else {
      var r := prev + [id];
      forall i, j | 0 <= i < j < |r| ensures r[i] != r[j] {
        if j == |prev| {
          assert r[i] == prev[i];
        }
      }
    }
  }

  /** The parents that start expanded are exactly the entries that have children, in order. */
  lemma InitialExpandedIsParents()
    ensures ParentIdsFrom(NavItems, 0) == InitialExpanded
  {
  }

  lemma NavIdsOfLeaves()
    ensures NavIdsFrom(NavItems, 5) == ["installation", "project-structure", "challenges", "roadmap"]
  {
    var n := NavItems;
    assert NavIdsFrom(n, 9) == [];
    assert NavIdsFrom(n, 8) == ["roadmap"];
    assert NavIdsFrom(n, 7) == ["challenges", "roadmap"];
    assert NavIdsFrom(n, 6) == ["project-structure", "challenges", "roadmap"];
  }

  lemma NavIdsOfParents()
    ensures NavIdsFrom(NavItems, 3) ==
      ["applications", "apps-gallery", "games", "ai-assistant",
       "hardware", "hardware-overview", "components", "serial-protocol", "arduino-firmware"] + NavIdsFrom(NavItems, 5)
  {
    var n := NavItems;
    assert ChildIds(n[4]) == ["hardware-overview", "components", "serial-protocol", "arduino-firmware"];
    assert ChildIds(n[3]) == ["apps-gallery", "games", "ai-assistant"];
  }

  lemma NavIdsWrittenOut()
    ensures NavIds(NavItems) == AllNavIds
  {
    NavIdsOfLeaves();
    NavIdsOfParents();
    var n := NavItems;
    assert NavIdsFrom(n, 0) == ["introduction", "how-it-works", "tech-stack"] + NavIdsFrom(n, 3);
  }

  /** No id occurs twice in the tree. */
  lemma NavIdsDistinct()
    ensures Distinct(NavIds(NavItems))
  {
    NavIdsWrittenOut();
    AllNavIdsDistinct();
  }

  lemma AllNavIdsDistinct()
    ensures Distinct(AllNavIds)
  {
    var ids := AllNavIds;
    forall i, j | 0 <= i < j < |ids| ensures ids[i] != ids[j] {
    }
  }

  /** Because the ids are distinct, at most one entry of the tree is highlighted. */
  lemma AtMostOneActive(activeSection: string)
    ensures forall i, j | 0 <= i < j < |NavIds(NavItems)| ::
      !(IsActive(activeSection, NavIds(NavItems)[i]) && IsActive(activeSection, NavIds(NavItems)[j]))
  {
    NavIdsDistinct();
  }

  /** The sidebar component's own state. */
  class Sidebar {
    var expandedSections: seq<string>
    var isMobileOpen: bool

    /** The expanded list never holds an id twice. */
    ghost predicate Valid()
      reads this
    {
      Distinct(expandedSections)
    }

    constructor ()
      ensures Valid()
      ensures expandedSections == InitialExpanded && !isMobileOpen
    {
      expandedSections, isMobileOpen := InitialExpanded, false;
    }

    /** Whether a parent's children are shown (the chevron and the collapsible block). */
    predicate IsExpanded(id: string)
      reads this
    {
      id in expandedSections
    }

    /** Clicking a parent entry. */
    method ToggleExpand(id: string)
      requires Valid()
      modifies this
      ensures Valid()
      ensures expandedSections == Toggle(old(expandedSections), id)
      ensures isMobileOpen == old(isMobileOpen)
    {
      ToggleDistinct(expandedSections, id);
      expandedSections := Toggle(expandedSections, id);
    }

    /** Clicking a leaf or child entry (or a search hit): forwards the id and closes the mobile menu. */
    method HandleNavigate(id: string) returns (target: string)
      modifies this
      ensures target == id && !isMobileOpen
      ensures expandedSections == old(expandedSections)
    {
      target := id;
      isMobileOpen := false;
    }

    /** The menu button of the mobile header. */
    method OpenMobileMenu()
      modifies this
      ensures isMobileOpen && expandedSections == old(expandedSections)
    {
      isMobileOpen := true;
    }

    /** The overlay behind the open menu and the menu's close button. */
    method CloseMobileMenu()
      modifies this
      ensures !isMobileOpen && expandedSections == old(expandedSections)
    {
      isMobileOpen := false;
    }
  }
}
