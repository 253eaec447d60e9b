/** The menu catalogue behind the toolbar's "MenuBar" dropdown
    (Editor/MenuBarManager.cs): the discovered menu paths are completed with a
    fixed list of standard paths, deduplicated, filtered, grouped by their first
    path segment, and laid out as a dropdown in which dangerous commands are
    shown disabled. The reflection that discovers the paths is an input. */
module MenuBar {
  import opened Text
  import opened Ordering

  /** Paths appended when reflection did not find them. */
  const StandardMenus: seq<string> := [
    "File/New Scene", "File/Open Scene", "File/Save", "File/Save As...", "File/Save Project",
    "File/Build Settings...", "File/Build And Run", "File/Exit",
    "Edit/Undo", "Edit/Redo", "Edit/Cut", "Edit/Copy", "Edit/Paste", "Edit/Duplicate", "Edit/Delete",
    "Edit/Frame Selected", "Edit/Lock View to Selected", "Edit/Find", "Edit/Select All",
    "Edit/Play", "Edit/Pause", "Edit/Step",
    "Edit/Project Settings...", "Edit/Preferences...",
    "Assets/Create/Folder", "Assets/Create/C# Script", "Assets/Create/Material", "Assets/Create/Scene",
    "Assets/Show in Explorer", "Assets/Open", "Assets/Delete", "Assets/Refresh",
    "Assets/Import New Asset...", "Assets/Export Package...",
    "GameObject/Create Empty", "GameObject/Create Empty Child",
    "GameObject/3D Object/Cube", "GameObject/3D Object/Sphere", "GameObject/3D Object/Capsule",
    "GameObject/Camera", "GameObject/Light/Directional Light",
    "Component/Physics/Rigidbody", "Component/Physics/Box Collider",
    "Component/Mesh/Mesh Renderer", "Component/Audio/Audio Source",
    "Window/General/Project", "Window/General/Console", "Window/General/Hierarchy",
    "Window/General/Inspector", "Window/General/Scene", "Window/General/Game"
  ]

  /** Commands that the dropdown never executes. */
  const DangerousCommands: seq<string> := [
    "File/Exit",
    "File/Quit",
    "Edit/Play Mode/Exit Play Mode",
    "Window/General/Console/Clear",
    "Assets/Refresh",
    "Assets/Reimport All"
  ]

  /** Appended to the label of a dangerous command. */
  const DisabledSuffix: string := " (Disabled for safety)"

  // ---------------------------------------------------------------------------
  // Sequences of paths

  predicate NoDuplicates(s: seq<string>) {
    forall i, j :: 0 <= i < j < |s| ==> s[i] != s[j]
  }

  /** Index of the first occurrence of `x` in `s`. */
  function IndexOf(s: seq<string>, x: string): (k: nat)
    requires x in s
    ensures k < |s| && s[k] == x && x !in s[..k]
  {
    if s[0] == x then 0
    else
      var k := 1 + IndexOf(s[1..], x);
      assert s[..k] == [s[0]] + s[1..][..k - 1];
      k
  }

  /** Every element of `r` occurs in `s`, and `r` lists them in the order of
      their first occurrences in `s`. */
  predicate InFirstOccurrenceOrder(r: seq<string>, s: seq<string>) {
    (forall x :: x in r ==> x in s) &&
    forall i, j :: 0 <= i < j < |r| ==> IndexOf(s, r[i]) < IndexOf(s, r[j])
  }

  lemma IndexOfPrefix(s: seq<string>, t: seq<string>, x: string)
    requires x in s
    ensures IndexOf(s + t, x) == IndexOf(s, x)
  {
    var k := IndexOf(s, x);
    assert (s + t)[k] == x;
    assert (s + t)[..k] == s[..k];
  }

  /** `items` followed by each element of `extra` that is not present yet,
      in the order of `extra`: the effect of
      `foreach (var m in extra) if (!items.Contains(m)) items.Add(m);`. */
  function AppendMissing(items: seq<string>, extra: seq<string>): (r: seq<string>)
    ensures |items| <= |r| && r[..|items|] == items
    ensures forall x :: x in r <==> x in items || x in extra
    ensures forall k :: |items| <= k < |r| ==> r[k] in extra && r[k] !in r[..k]
    decreases |extra|
  {
    if extra == [] then items
    else
      var init := extra[..|extra| - 1];
      var x := extra[|extra| - 1];
      assert extra == init + [x];
      var acc := AppendMissing(items, init);
      if x in acc then acc
      else
        assert forall k :: 0 <= k <= |acc| ==> (acc + [x])[..k] == acc[..k];
        acc + [x]
  }

  /** One more extra path: appended when missing, skipped otherwise. */
  lemma AppendMissingSnoc(items: seq<string>, extra: seq<string>, x: string)
    ensures AppendMissing(items, extra + [x]) ==
      var acc := AppendMissing(items, extra);
      if x in acc then acc else acc + [x]
  {
    assert (extra + [x])[..|extra|] == extra;
  }

  /** The loop step of `AddStandardUnityMenus`: the `i`-th extra path. */
  lemma AppendMissingStep(items: seq<string>, extra: seq<string>, i: nat)
    requires i < |extra|
    ensures AppendMissing(items, extra[..i + 1]) ==
      var acc := AppendMissing(items, extra[..i]);
      if extra[i] in acc then acc else acc + [extra[i]]
  {
    assert extra[..i + 1] == extra[..i] + [extra[i]];
    AppendMissingSnoc(items, extra[..i], extra[i]);
  }

  /** The elements of `r` after position `|items|` follow the order of their
      first occurrences in `extra`. */
  predicate AppendedInOrder(items: seq<string>, extra: seq<string>, r: seq<string>)
    requires forall k :: |items| <= k < |r| ==> r[k] in extra
  {
    forall i, j :: |items| <= i < j < |r| ==> IndexOf(extra, r[i]) < IndexOf(extra, r[j])
  }

  /** The appended elements keep the order of `extra`. */
  lemma {:induction false} AppendMissingOrder(items: seq<string>, extra: seq<string>)
    ensures AppendedInOrder(items, extra, AppendMissing(items, extra))
    decreases |extra|
  {
    if extra != [] {
      var init := extra[..|extra| - 1];
      var x := extra[|extra| - 1];
      assert extra == init + [x];
      var acc := AppendMissing(items, init);
      AppendMissingOrder(items, init);
      var r := AppendMissing(items, extra);
      assert r == if x in acc then acc else acc + [x];
      forall i, j | |items| <= i < j < |r|
        ensures IndexOf(init + [x], r[i]) < IndexOf(init + [x], r[j])
      {
        var a := acc[i];
        assert r[i] == a && a in init;
        IndexOfPrefix(init, [x], a);
        if j < |acc| {
          var b := acc[j];
          assert r[j] == b && b in init;
          IndexOfPrefix(init, [x], b);
          OrderAt(items, init, acc, i, j);
        } else {
          assert r[j] == x && x !in init;
          IndexOfLast(init, x);
        }
      }
    }
  }

  lemma OrderAt(items: seq<string>, extra: seq<string>, r: seq<string>, i: int, j: int)
    requires forall k :: |items| <= k < |r| ==> r[k] in extra
    requires AppendedInOrder(items, extra, r)
    requires |items| <= i < j < |r|
    ensures IndexOf(extra, r[i]) < IndexOf(extra, r[j])
  {
  }

  lemma IndexOfLast(s: seq<string>, x: string)
    requires x !in s
    ensures IndexOf(s + [x], x) == |s|
  {
  }

  /** `items.Distinct()`: the first occurrence of every element, in order. */
  function Distinct(s: seq<string>): (r: seq<string>)
    ensures NoDuplicates(r)
    ensures forall x :: x in r <==> x in s
    ensures InFirstOccurrenceOrder(r, s)
  {
    var r := AppendMissing([], s);
    AppendMissingOrder([], s);
    assert forall i, j :: 0 <= i < j < |r| ==> r[i] in r[..j];
    r
  }

  // ---------------------------------------------------------------------------
  // GetAllMenuItems

  /** The condition of the final `Where`: the path can be listed. */
  predicate IsListable(item: string) {
    item != [] &&
    !Contains(item, "%") &&
    !StartsWithIgnoreCase(item, "internal:") &&
    !StartsWithIgnoreCase(item, "CONTEXT/") &&
    !Contains(item, "---") &&
    !Contains(item, "_MenuItem")
  }

  /** `items.Where(IsListable)`. */
  function KeepListable(s: seq<string>): (r: seq<string>)
    ensures forall x :: x in r <==> x in s && IsListable(x)
    ensures NoDuplicates(s) ==> NoDuplicates(r)
  {
    if s == [] then []
    else
      var rest := KeepListable(s[1..]);
      assert s == [s[0]] + s[1..];
      if IsListable(s[0]) then
        assert NoDuplicates(s) ==> s[0] !in s[1..];
        [s[0]] + rest
      else rest
  }

  /** Filtering keeps the relative order of what it keeps. */
  lemma {:induction false} KeepListableOrder(t: seq<string>, s: seq<string>)
    requires InFirstOccurrenceOrder(t, s)
    ensures InFirstOccurrenceOrder(KeepListable(t), s)
  {
    if t != [] {
      assert InFirstOccurrenceOrder(t[1..], s) by {
        forall i, j | 0 <= i < j < |t[1..]|
          ensures IndexOf(s, t[1..][i]) < IndexOf(s, t[1..][j])
        {
          assert t[1..][i] == t[i + 1] && t[1..][j] == t[j + 1];
        }
      }
      KeepListableOrder(t[1..], s);
      var rest := KeepListable(t[1..]);
      if IsListable(t[0]) {
        var r := [t[0]] + rest;
        forall i, j | 0 <= i < j < |r| ensures IndexOf(s, r[i]) < IndexOf(s, r[j]) {
          if i == 0 {
            assert r[j] in t[1..];
            var k :| 0 <= k < |t[1..]| && t[1..][k] == r[j];
            assert t[k + 1] == r[j];
          } else {
            assert r[i] == rest[i - 1] && r[j] == rest[j - 1];
          }
        }
      }
    }
  }

  /** What `GetAllMenuItems` returns for the menu paths that reflection
      discovered (`None` when enumerating the loaded assemblies threw, in which
      case not even the standard paths are added): listable paths only, each
      once. */
  function Catalogue(discovered: Option<seq<string>>): (r: seq<string>)
    ensures NoDuplicates(r)
    ensures discovered.None? ==> r == []
  {
    var menuItems := if discovered.Some? then AppendMissing(discovered.value, StandardMenus) else [];
    KeepListable(Distinct(menuItems))
  }

  /** The catalogue holds exactly the listable paths that were discovered or
      are standard menus. */
  lemma CatalogueMembers(discovered: seq<string>, x: string)
    ensures x in Catalogue(Some(discovered)) <==>
      IsListable(x) && (x in discovered || x in StandardMenus)
  {
  }

  /** The catalogue keeps the order of first occurrence: discovered paths
      first, then the standard menus that were missing. */
  lemma CatalogueOrder(discovered: seq<string>)
    ensures InFirstOccurrenceOrder(Catalogue(Some(discovered)), AppendMissing(discovered, StandardMenus))
  {
    var menuItems := AppendMissing(discovered, StandardMenus);
    KeepListableOrder(Distinct(menuItems), menuItems);
  }

  /** The loop of `AddStandardUnityMenus`: appends every standard path that
      `menuItems` lacks. */
  method AddStandardUnityMenus(menuItems: seq<string>) returns (r: seq<string>)
    ensures r == AppendMissing(menuItems, StandardMenus)
    ensures |menuItems| <= |r| && r[..|menuItems|] == menuItems
    ensures forall m :: m in StandardMenus ==> m in r
    ensures forall k :: |menuItems| <= k < |r| ==> r[k] in StandardMenus && r[k] !in r[..k]
  {
    r := menuItems;
    for i := 0 to |StandardMenus|
      invariant r == AppendMissing(menuItems, StandardMenus[..i])
    {
      var menu := StandardMenus[i];
      AppendMissingStep(menuItems, StandardMenus, i);
      if menu !in r {
        r := r + [menu];
      }
    }
    assert StandardMenus[..|StandardMenus|] == StandardMenus;
  }

  /** `GetAllMenuItems`, with the reflection scan replaced by its result: the
      imperative entry point, proved to compute the specification function
      `Catalogue`. */
  method GetAllMenuItems(discovered: Option<seq<string>>) returns (r: seq<string>)
    ensures r == Catalogue(discovered)
  {
    var menuItems: seq<string> := [];
    if discovered.Some? {
      menuItems := discovered.value;
      menuItems := AddStandardUnityMenus(menuItems);
    }
    r := KeepListable(Distinct(menuItems));
  }

  // ---------------------------------------------------------------------------
  // GroupMenuItems

  /** `item.Split('/')[0]`: the text before the first '/'. */
  function FirstSegment(item: string): (seg: string)
    ensures StartsWith(item, seg)
    ensures '/' !in seg
    ensures |seg| < |item| ==> item[|seg|] == '/'
  {
    if item == [] || item[0] == '/' then []
    else
      var rest := FirstSegment(item[1..]);
      assert item == [item[0]] + item[1..];
      [item[0]] + rest
  }

  /** Categories that are never shown: "CONTEXT" and "Internal", ignoring
      case (compared through their upper-case forms). */
  predicate IsExcludedCategory(category: string) {
    var folded := FoldCase(category);
    folded == "CONTEXT" || folded == "INTERNAL"
  }

  lemma IsExcludedCategoryIgnoresCase(category: string)
    ensures IsExcludedCategory(category) <==>
      EqualsIgnoreCase(category, "CONTEXT") || EqualsIgnoreCase(category, "Internal")
  {
  }

  /** The items filed under `category`, in input order. */
  function ItemsInCategory(items: seq<string>, category: string): (r: seq<string>)
    ensures forall x :: x in r <==> x in items && FirstSegment(x) == category
    ensures |r| <= |items|
    decreases |items|
  {
    if items == [] then []
    else
      var init := items[..|items| - 1];
      var x := items[|items| - 1];
      assert items == init + [x];
      var rest := ItemsInCategory(init, category);
      if FirstSegment(x) == category then rest + [x] else rest
  }

  /** A group lists its items in the order in which they occur in the input. */
  lemma {:induction false} ItemsInCategoryOrder(items: seq<string>, category: string)
    requires NoDuplicates(items)
    ensures InFirstOccurrenceOrder(ItemsInCategory(items, category), items)
    decreases |items|
  {
    if items != [] {
      var init := items[..|items| - 1];
      var x := items[|items| - 1];
      assert items == init + [x];
      var rest := ItemsInCategory(init, category);
      ItemsInCategoryOrder(init, category);
      forall y | y in rest
        ensures IndexOf(items, y) == IndexOf(init, y) < |init|
      {
        IndexOfPrefix(init, [x], y);
      }
      if FirstSegment(x) == category {
        assert x !in init by {
          forall k | 0 <= k < |init| ensures init[k] != x {
            assert items[k] == init[k];
          }
        }
        IndexOfLast(init, x);
        var r := rest + [x];
        forall i, j | 0 <= i < j < |r|
          ensures IndexOf(items, r[i]) < IndexOf(items, r[j])
        {
          assert r[i] == rest[i] && r[i] in rest;
          if j < |rest| {
            assert r[j] == rest[j] && r[j] in rest;
          }
        }
      }
    }
  }

  /** The categories that get a group. */
  function CategoriesOf(items: seq<string>): set<string> {
    set x | x in items && !IsExcludedCategory(FirstSegment(x)) :: FirstSegment(x)
  }

  /** What `GroupMenuItems` returns. */
  function Grouping(items: seq<string>): (groups: map<string, seq<string>>)
    ensures forall c :: c in groups ==> !IsExcludedCategory(c) && groups[c] != []
    ensures forall x :: x in items && !IsExcludedCategory(FirstSegment(x)) ==>
      FirstSegment(x) in groups && x in groups[FirstSegment(x)]
  {
    map c | c in CategoriesOf(items) :: ItemsInCategory(items, c)
  }

  /** Every item lands in exactly one group, the one named by its first
      segment, unless that segment is an excluded category, in which case it
      lands in none; a group holds nothing but the items of its category. */
  lemma GroupingPartitions(items: seq<string>, x: string, c: string)
    requires x in items
    ensures var groups := Grouping(items);
      (c in groups && x in groups[c]) <==> (c == FirstSegment(x) && !IsExcludedCategory(c))
  {
  }

  lemma ItemsInCategoryAppend(items: seq<string>, x: string, c: string)
    ensures ItemsInCategory(items + [x], c) ==
      if FirstSegment(x) == c then ItemsInCategory(items, c) + [x] else ItemsInCategory(items, c)
  {
  }

  /** `groups` holds exactly the groups of `items`. */
  predicate GroupsOf(groups: map<string, seq<string>>, items: seq<string>) {
    groups.Keys == CategoriesOf(items) &&
    forall c :: c in groups ==> groups[c] == ItemsInCategory(items, c)
  }

  lemma CategoriesOfAppend(done: seq<string>, item: string)
    ensures CategoriesOf(done + [item]) ==
      if IsExcludedCategory(FirstSegment(item)) then CategoriesOf(done)
      else CategoriesOf(done) + {FirstSegment(item)}
  {
  }

  /** A category without a group has no items. */
  lemma NoGroupNoItems(items: seq<string>, c: string)
    ensures !IsExcludedCategory(c) && c !in CategoriesOf(items) ==> ItemsInCategory(items, c) == []
  {
  }

  /** An item whose category is excluded leaves the groups as they are. */
  lemma GroupStepExcluded(groups: map<string, seq<string>>, done: seq<string>, item: string)
    requires GroupsOf(groups, done)
    requires IsExcludedCategory(FirstSegment(item))
    ensures GroupsOf(groups, done + [item])
  {
  }

  /** Any other item is appended to the group of its category, which is
      created when missing. */
  lemma GroupStepIncluded(groups: map<string, seq<string>>, done: seq<string>, item: string)
    requires GroupsOf(groups, done)
    requires !IsExcludedCategory(FirstSegment(item))
    ensures var cat := FirstSegment(item);
      GroupsOf(groups[cat := (if cat in groups then groups[cat] else []) + [item]], done + [item])
  {
    var cat := FirstSegment(item);
    var groups' := groups[cat := (if cat in groups then groups[cat] else []) + [item]];
    CategoriesOfAppend(done, item);
    forall c | c in groups' ensures groups'[c] == ItemsInCategory(done + [item], c) {
      ItemsInCategoryAppend(done, item, c);
      if c == cat && cat !in groups {
        NoGroupNoItems(done, c);
      }
    }
  }

  /** The loop of `GroupMenuItems`. */
  method GroupMenuItems(menuItems: seq<string>) returns (groups: map<string, seq<string>>)
    ensures groups == Grouping(menuItems)
  {
    groups := map[];
    for i := 0 to |menuItems|
      invariant GroupsOf(groups, menuItems[..i])
    {
      var item := menuItems[i];
      assert menuItems[..i + 1] == menuItems[..i] + [item];
      var mainCategory := FirstSegment(item);
      if IsExcludedCategory(mainCategory) {
        GroupStepExcluded(groups, menuItems[..i], item);
        continue;
      }
      GroupStepIncluded(groups, menuItems[..i], item);
      if mainCategory !in groups {
        groups := groups[mainCategory := []];
      }
      groups := groups[mainCategory := groups[mainCategory] + [item]];
    }
    assert menuItems[..|menuItems|] == menuItems;
  }

  // ---------------------------------------------------------------------------
  // IsDangerousMenuItem

  /** `candidates.Any(c => string.Equals(s, c, OrdinalIgnoreCase))`. */
  function AnyEqualsIgnoreCase(s: string, candidates: seq<string>): bool
  {
    if candidates == [] then false
    else EqualsIgnoreCase(s, candidates[0]) || AnyEqualsIgnoreCase(s, candidates[1..])
  }

  /** The scan finds a match exactly when some candidate equals `s`, ignoring
      case. */
  lemma {:induction false} AnyEqualsIgnoreCaseSpec(s: string, candidates: seq<string>)
    ensures AnyEqualsIgnoreCase(s, candidates) <==> exists d :: d in candidates && EqualsIgnoreCase(s, d)
    decreases |candidates|
  {
    if candidates != [] {
      assert candidates == [candidates[0]] + candidates[1..];
      AnyEqualsIgnoreCaseSpec(s, candidates[1..]);
    }
  }

  /** The dangerous commands in upper-case form, one per command. */
  const FoldedDangerousCommands: seq<string> := [
    "FILE/EXIT",
    "FILE/QUIT",
    "EDIT/PLAY MODE/EXIT PLAY MODE",
    "WINDOW/GENERAL/CONSOLE/CLEAR",
    "ASSETS/REFRESH",
    "ASSETS/REIMPORT ALL"
  ]

  /** Each folded form is the fold of the corresponding command. */
  lemma FoldedDangerousCommandsAreFolded()
    ensures |FoldedDangerousCommands| == |DangerousCommands|
    ensures forall i :: 0 <= i < |DangerousCommands| ==> FoldCase(DangerousCommands[i]) == FoldedDangerousCommands[i]
  {
    FoldedFileCommands();
    FoldedPlayModeCommand();
    FoldedConsoleCommand();
    FoldedAssetCommands();
  }

  lemma FoldedFileCommands()
    ensures FoldCase(DangerousCommands[0]) == FoldedDangerousCommands[0]
    ensures FoldCase(DangerousCommands[1]) == FoldedDangerousCommands[1]
  {
    FoldedAt("File/Exit", "FILE/EXIT");
    FoldedAt("File/Quit", "FILE/QUIT");
  }

  lemma FoldedPlayModeCommand()
    ensures FoldCase(DangerousCommands[2]) == FoldedDangerousCommands[2]
  {
    FoldedAt("Edit/Play Mode/Exit Play Mode", "EDIT/PLAY MODE/EXIT PLAY MODE");
  }

  lemma FoldedConsoleCommand()
    ensures FoldCase(DangerousCommands[3]) == FoldedDangerousCommands[3]
  {
    FoldedAt("Window/General/Console/Clear", "WINDOW/GENERAL/CONSOLE/CLEAR");
  }

  lemma FoldedAssetCommands()
    ensures FoldCase(DangerousCommands[4]) == FoldedDangerousCommands[4]
    ensures FoldCase(DangerousCommands[5]) == FoldedDangerousCommands[5]
  {
    FoldedAt("Assets/Refresh", "ASSETS/REFRESH");
    FoldedAt("Assets/Reimport All", "ASSETS/REIMPORT ALL");
  }

  /** `t` is the fold of `s`, checked character by character. */
  lemma FoldedAt(s: string, t: string)
    requires |s| == |t| && forall k :: 0 <= k < |s| ==> UpperAscii(s[k]) == t[k]
    ensures FoldCase(s) == t
  {
  }

  /** `IsDangerousMenuItem`: a null or empty path is never dangerous; any
      other one is compared with the commands through its folded form. */
  function IsDangerousMenuItem(menuItem: Option<string>): (r: bool)
    ensures IsNullOrEmpty(menuItem) ==> !r
  {
    if IsNullOrEmpty(menuItem) then false
    else FoldCase(menuItem.value) in FoldedDangerousCommands
  }

  /** A non-empty path is dangerous exactly when `DangerousCommands.Any(…)`
      finds it, that is, when it equals one of the dangerous commands ignoring
      case. */
  lemma IsDangerousMenuItemSpec(menuItem: Option<string>)
    ensures !IsNullOrEmpty(menuItem) ==>
      IsDangerousMenuItem(menuItem) == AnyEqualsIgnoreCase(menuItem.value, DangerousCommands)
    ensures !IsNullOrEmpty(menuItem) ==>
      (IsDangerousMenuItem(menuItem) <==>
       exists d :: d in DangerousCommands && EqualsIgnoreCase(menuItem.value, d))
  {
    if !IsNullOrEmpty(menuItem) {
      var s := menuItem.value;
      AnyEqualsIgnoreCaseSpec(s, DangerousCommands);
      FoldedDangerousCommandsAreFolded();
      if IsDangerousMenuItem(menuItem) {
        var i :| 0 <= i < |FoldedDangerousCommands| && FoldedDangerousCommands[i] == FoldCase(s);
        assert DangerousCommands[i] in DangerousCommands && EqualsIgnoreCase(s, DangerousCommands[i]);
      }
      if exists d :: d in DangerousCommands && EqualsIgnoreCase(s, d) {
        var d :| d in DangerousCommands && EqualsIgnoreCase(s, d);
        var i :| 0 <= i < |DangerousCommands| && DangerousCommands[i] == d;
        assert FoldCase(s) == FoldedDangerousCommands[i];
      }
    }
  }

  // ---------------------------------------------------------------------------
  // The dropdown

  /** One line of the `GenericMenu`. */
  datatype MenuEntry =
    | Command(caption: string, path: string)  // AddItem: runs ExecuteMenuItem(path)
    | DisabledItem(caption: string)          // AddDisabledItem
    | Separator                             // AddSeparator("")

  /** The entry added for one menu path. */
  function EntryFor(item: string): MenuEntry {
    if IsDangerousMenuItem(Some(item)) then DisabledItem(item + DisabledSuffix)
    else Command(item, item)
  }

  /** The entries of one category's (already sorted) items. */
  function SectionEntries(items: seq<string>): (r: seq<MenuEntry>)
    ensures |r| == |items|
    ensures forall i :: 0 <= i < |items| ==> r[i] == EntryFor(items[i])
  {
    seq(|items|, i requires 0 <= i < |items| => EntryFor(items[i]))
  }

  /** The menu after the first `n` categories of `categories` were laid out:
      each category's items in sorted order, followed by a separator unless it
      is the last category. */
  function LayoutPrefix(categories: seq<string>, groups: map<string, seq<string>>, n: nat): seq<MenuEntry>
    requires n <= |categories|
    requires forall c :: c in categories ==> c in groups
  {
    if n == 0 then []
    else
      LayoutPrefix(categories, groups, n - 1)
        + SectionEntries(Sort(groups[categories[n - 1]]))
        + (if n < |categories| then [Separator] else [])
  }

  /** The dropdown built from a grouping: categories in sorted key order. */
  function Layout(groups: map<string, seq<string>>): seq<MenuEntry> {
    var categories := SortedKeys(groups.Keys);
    LayoutPrefix(categories, groups, |categories|)
  }

  lemma SectionEntriesExtend(items: seq<string>, j: nat)
    requires j < |items|
    ensures SectionEntries(items[..j + 1]) == SectionEntries(items[..j]) + [EntryFor(items[j])]
  {
  }

  /** The inner layout loop: one category's sorted items, each as a command or,
      when dangerous, as a disabled line carrying the safety note. */
  method AppendSection(menu: seq<MenuEntry>, items: seq<string>) returns (r: seq<MenuEntry>)
    ensures r == menu + SectionEntries(items)
  {
    r := menu;
    for j := 0 to |items|
      invariant r == menu + SectionEntries(items[..j])
    {
      var menuItem := items[j];
      SectionEntriesExtend(items, j);
      if IsDangerousMenuItem(Some(menuItem)) {
        r := r + [DisabledItem(menuItem + DisabledSuffix)];
        continue;
      }
      r := r + [Command(menuItem, menuItem)];
    }
    assert items[..|items|] == items;
  }

  /** The layout loop of `ShowMenuBarDropdown`: categories in sorted order,
      a separator between consecutive categories. */
  method BuildDropdown(groupedMenus: map<string, seq<string>>) returns (menu: seq<MenuEntry>)
    ensures menu == Layout(groupedMenus)
  {
    menu := [];
    var sortedCategories := SortedKeys(groupedMenus.Keys);
    for categoryIndex := 0 to |sortedCategories|
      invariant menu == LayoutPrefix(sortedCategories, groupedMenus, categoryIndex)
    {
      var category := sortedCategories[categoryIndex];
      assert LayoutPrefix(sortedCategories, groupedMenus, categoryIndex + 1)
        == menu + SectionEntries(Sort(groupedMenus[category]))
          + (if categoryIndex + 1 < |sortedCategories| then [Separator] else []);
      menu := AppendSection(menu, Sort(groupedMenus[category]));
      if categoryIndex < |sortedCategories| - 1 {
        menu := menu + [Separator];
      }
    }
  }

  function SeparatorCount(menu: seq<MenuEntry>): (n: nat)
    ensures n <= |menu|
  {
    if menu == [] then 0
    else (if menu[0] == Separator then 1 else 0) + SeparatorCount(menu[1..])
  }

  lemma {:induction false} SeparatorCountAppend(a: seq<MenuEntry>, b: seq<MenuEntry>)
    ensures SeparatorCount(a + b) == SeparatorCount(a) + SeparatorCount(b)
  {
    if a == [] {
      assert a + b == b;
    } else {
      assert (a + b)[0] == a[0];
      assert (a + b)[1..] == a[1..] + b;
      SeparatorCountAppend(a[1..], b);
    }
  }

  lemma {:induction false} SectionHasNoSeparator(items: seq<string>)
    ensures SeparatorCount(SectionEntries(items)) == 0
    decreases |items|
  {
    if items != [] {
      var e := SectionEntries(items);
      assert e[0] != Separator;
      assert e[1..] == SectionEntries(items[1..]);
      SectionHasNoSeparator(items[1..]);
    }
  }

  lemma {:induction false} LayoutPrefixSeparators(categories: seq<string>, groups: map<string, seq<string>>, n: nat)
    requires 0 < n <= |categories|
    requires forall c :: c in categories ==> c in groups
    ensures SeparatorCount(LayoutPrefix(categories, groups, n)) == if n < |categories| then n else n - 1
  {
    var items := Sort(groups[categories[n - 1]]);
    var section := SectionEntries(items);
    var sep: seq<MenuEntry> := if n < |categories| then [Separator] else [];
    var before := LayoutPrefix(categories, groups, n - 1);
    assert LayoutPrefix(categories, groups, n) == before + section + sep;
    if n > 1 {
      LayoutPrefixSeparators(categories, groups, n - 1);
      assert SeparatorCount(before) == n - 1;
    } else {
      assert before == [];
    }
    SectionHasNoSeparator(items);
    SeparatorCountStep(before, section, sep);
    assert SeparatorCount(before + section + sep) == n - 1 + |sep|;
  }

  /** Separators of a prefix, a section and an optional trailing separator. */
  lemma SeparatorCountStep(before: seq<MenuEntry>, section: seq<MenuEntry>, sep: seq<MenuEntry>)
    requires sep == [] || sep == [Separator]
    ensures SeparatorCount(before + section + sep) ==
      SeparatorCount(before) + SeparatorCount(section) + |sep|
  {
    SeparatorCountAppend(before, section);
    SeparatorCountAppend(before + section, sep);
    if sep != [] {
      assert sep[1..] == [];
    }
  }

  /** There is exactly one separator between consecutive categories and none
      after the last. */
  lemma LayoutSeparators(groups: map<string, seq<string>>)
    ensures SeparatorCount(Layout(groups)) == if |groups| == 0 then 0 else |groups| - 1
  {
    var categories := SortedKeys(groups.Keys);
    assert |groups.Keys| == |groups|;
    if |categories| > 0 {
      LayoutPrefixSeparators(categories, groups, |categories|);
    }
  }

  /** A dropdown whose groups are all non-empty never ends with a separator. */
  lemma LayoutEndsWithItem(groups: map<string, seq<string>>)
    requires forall c :: c in groups ==> groups[c] != []
    ensures Layout(groups) != [] ==> Layout(groups)[|Layout(groups)| - 1] != Separator
  {
    var categories := SortedKeys(groups.Keys);
    var n := |categories|;
    if n > 0 {
      var last := Sort(groups[categories[n - 1]]);
      assert |last| > 0 by {
        assert |multiset(last)| == |multiset(groups[categories[n - 1]])| > 0;
      }
      var section := SectionEntries(last);
      assert Layout(groups) == LayoutPrefix(categories, groups, n - 1) + section;
      assert section[|section| - 1] == EntryFor(last[|last| - 1]);
    }
  }

  /** In particular the dropdown of any catalogue's grouping does not. */
  lemma GroupedLayoutEndsWithItem(items: seq<string>)
    ensures Layout(Grouping(items)) != [] ==>
      Layout(Grouping(items))[|Layout(Grouping(items))| - 1] != Separator
  {
    LayoutEndsWithItem(Grouping(items));
  }

  /** Every entry of a sorted copy of `xs` is the entry of an item of `xs`. */
  lemma SectionSound(items: seq<string>, xs: seq<string>)
    requires multiset(items) == multiset(xs)
    ensures forall e :: e in SectionEntries(items) ==> exists x :: x in xs && e == EntryFor(x)
  {
    var section := SectionEntries(items);
    forall e | e in section ensures exists x :: x in xs && e == EntryFor(x) {
      var k :| 0 <= k < |section| && section[k] == e;
      assert items[k] in multiset(xs);
    }
  }

  /** The entry of every item of `xs` is among the entries of a sorted copy. */
  lemma SectionHas(items: seq<string>, xs: seq<string>, x: string)
    requires multiset(items) == multiset(xs)
    requires x in xs
    ensures EntryFor(x) in SectionEntries(items)
  {
    assert x in multiset(items);
    var k :| 0 <= k < |items| && items[k] == x;
    assert SectionEntries(items)[k] == EntryFor(x);
  }

  /** Every line of the first `n` categories' layout other than a separator is
      the entry of an item of one of those categories. */
  lemma {:induction false} LayoutPrefixSound(categories: seq<string>, groups: map<string, seq<string>>, n: nat)
    requires n <= |categories|
    requires forall c :: c in categories ==> c in groups
    ensures forall e :: e in LayoutPrefix(categories, groups, n) && e != Separator ==>
      exists i, x :: 0 <= i < n && x in groups[categories[i]] && e == EntryFor(x)
  {
    if n > 0 {
      var c := categories[n - 1];
      LayoutPrefixSound(categories, groups, n - 1);
      SectionSound(Sort(groups[c]), groups[c]);
      forall e | e in LayoutPrefix(categories, groups, n) && e != Separator
        ensures exists i, x :: 0 <= i < n && x in groups[categories[i]] && e == EntryFor(x)
      {
        LayoutPrefixMember(categories, groups, n, e);
        if e in LayoutPrefix(categories, groups, n - 1) {
          var i, x :| 0 <= i < n - 1 && x in groups[categories[i]] && e == EntryFor(x);
        } else {
          var x :| x in groups[c] && e == EntryFor(x);
          assert 0 <= n - 1 < n && x in groups[categories[n - 1]];
        }
      }
    }
  }

  /** The entry of an item of the `i`-th category is in the layout of the
      first `n` categories when `i < n`. */
  lemma {:induction false} LayoutPrefixHas(categories: seq<string>, groups: map<string, seq<string>>,
                                           n: nat, i: nat, x: string)
    requires i < n <= |categories|
    requires forall c :: c in categories ==> c in groups
    requires x in groups[categories[i]]
    ensures EntryFor(x) in LayoutPrefix(categories, groups, n)
    decreases n
  {
    if i < n - 1 {
      LayoutPrefixHas(categories, groups, n - 1, i, x);
    } else {
      SectionHas(Sort(groups[categories[n - 1]]), groups[categories[n - 1]], x);
    }
    LayoutPrefixMember(categories, groups, n, EntryFor(x));
  }

  /** A line is in the layout of `n` categories iff it is in the layout of the
      first `n - 1`, in the `n`-th category's section, or is the separator
      that follows that section. */
  lemma LayoutPrefixMember(categories: seq<string>, groups: map<string, seq<string>>, n: nat, e: MenuEntry)
    requires 0 < n <= |categories|
    requires forall c :: c in categories ==> c in groups
    ensures e in LayoutPrefix(categories, groups, n) <==>
      e in LayoutPrefix(categories, groups, n - 1) ||
      e in SectionEntries(Sort(groups[categories[n - 1]])) ||
      (n < |categories| && e == Separator)
  {
    var before := LayoutPrefix(categories, groups, n - 1);
    var section := SectionEntries(Sort(groups[categories[n - 1]]));
    var sep: seq<MenuEntry> := if n < |categories| then [Separator] else [];
    assert LayoutPrefix(categories, groups, n) == before + section + sep;
  }

  /** Every item of each of the first `n` categories has its entry in the
      layout of those categories. */
  lemma LayoutPrefixComplete(categories: seq<string>, groups: map<string, seq<string>>, n: nat)
    requires n <= |categories|
    requires forall c :: c in categories ==> c in groups
    ensures forall i, x :: 0 <= i < n && x in groups[categories[i]] ==>
      EntryFor(x) in LayoutPrefix(categories, groups, n)
  {
    forall i, x | 0 <= i < n && x in groups[categories[i]]
      ensures EntryFor(x) in LayoutPrefix(categories, groups, n)
    {
      LayoutPrefixHas(categories, groups, n, i, x);
    }
  }

  /** The dropdown never offers a dangerous command for execution, and every
      executable line runs exactly the path it shows. */
  lemma LayoutCommandsAreSafe(groups: map<string, seq<string>>)
    ensures forall e :: e in Layout(groups) && e.Command? ==>
      e.caption == e.path && !IsDangerousMenuItem(Some(e.path))
  {
    var categories := SortedKeys(groups.Keys);
    LayoutPrefixSound(categories, groups, |categories|);
    forall e | e in Layout(groups) && e.Command?
      ensures e.caption == e.path && !IsDangerousMenuItem(Some(e.path))
    {
      var i, x :| 0 <= i < |categories| && x in groups[categories[i]] && e == EntryFor(x);
    }
  }

  /** Every grouped item appears in the dropdown: a dangerous one as a disabled
      line ending in the safety note, any other as a command for its path. */
  lemma LayoutShowsEveryItem(groups: map<string, seq<string>>, c: string, x: string)
    requires c in groups && x in groups[c]
    ensures IsDangerousMenuItem(Some(x)) ==> DisabledItem(x + DisabledSuffix) in Layout(groups)
    ensures !IsDangerousMenuItem(Some(x)) ==> Command(x, x) in Layout(groups)
  {
    var categories := SortedKeys(groups.Keys);
    LayoutPrefixComplete(categories, groups, |categories|);
    var i :| 0 <= i < |categories| && categories[i] == c;
    assert EntryFor(x) in Layout(groups);
  }

  /** One command per path, each running the path it shows. */
  function Commands(paths: seq<string>): (r: seq<MenuEntry>)
    ensures |r| == |paths|
    ensures forall i :: 0 <= i < |paths| ==> r[i] == Command(paths[i], paths[i])
  {
    seq(|paths|, i requires 0 <= i < |paths| => Command(paths[i], paths[i]))
  }

  lemma {:induction false} CommandsHaveNoSeparator(paths: seq<string>)
    ensures SeparatorCount(Commands(paths)) == 0
    decreases |paths|
  {
    if paths != [] {
      assert Commands(paths)[1..] == Commands(paths[1..]);
      CommandsHaveNoSeparator(paths[1..]);
    }
  }

  /** The menu shown when building the dynamic menu failed: four commands, a
      separator, two more commands. */
  function FallbackMenu(): (menu: seq<MenuEntry>)
    ensures |menu| == 7 && SeparatorCount(menu) == 1
    ensures forall e :: e in menu ==> e.Separator? || (e.Command? && e.caption == e.path)
  {
    var first := Commands(["File/New Scene", "File/Save", "Edit/Undo", "Edit/Redo"]);
    var second := Commands(["Window/General/Console", "Window/General/Inspector"]);
    CommandsHaveNoSeparator(["File/New Scene", "File/Save", "Edit/Undo", "Edit/Redo"]);
    CommandsHaveNoSeparator(["Window/General/Console", "Window/General/Inspector"]);
    SeparatorCountAppend(first, [Separator]);
    SeparatorCountAppend(first + [Separator], second);
    first + [Separator] + second
  }

  /** Two strings that differ at index `i` after folding are not equal
      ignoring case. */
  lemma DiffersAt(a: string, b: string, i: int)
    requires 0 <= i < |a| && i < |b| && UpperAscii(a[i]) != UpperAscii(b[i])
    ensures !EqualsIgnoreCase(a, b)
  {
    assert FoldCase(a)[i] != FoldCase(b)[i];
  }

  /** Each fallback path differs from each dangerous command, in length or
      in a folded character. */
  lemma FallbackPathDiffers(p: string, d: string)
    requires p in ["File/New Scene", "File/Save", "Edit/Undo", "Edit/Redo",
                   "Window/General/Console", "Window/General/Inspector"]
    requires d in DangerousCommands
    ensures !EqualsIgnoreCase(p, d)
  {
    if |p| == |d| {
      if p == "File/Save" {
        DiffersAt(p, d, 5);
      } else {
        DiffersAt(p, d, 0);
      }
    }
  }

  /** No command of the fallback menu is a dangerous one. */
  lemma FallbackMenuIsSafe()
    ensures forall e :: e in FallbackMenu() && e.Command? ==> !IsDangerousMenuItem(Some(e.path))
  {
    // Each safe path differs from every dangerous command in length or in a
    // folded character.
    var paths := ["File/New Scene", "File/Save", "Edit/Undo", "Edit/Redo"];
    var more := ["Window/General/Console", "Window/General/Inspector"];
    var first := Commands(paths);
    var second := Commands(more);
    assert FallbackMenu() == first + [Separator] + second;
    forall e | e in FallbackMenu() && e.Command?
      ensures !IsDangerousMenuItem(Some(e.path))
    {
      assert e in first || e in second;
      assert e.path in paths + more;
      IsDangerousMenuItemSpec(Some(e.path));
      forall d | d in DangerousCommands
        ensures !EqualsIgnoreCase(e.path, d)
      {
        FallbackPathDiffers(e.path, d);
      }
    }
  }

  // ---------------------------------------------------------------------------
  // The menu cache

  /** The static cache fields of `MenuBarManager`. */
  class MenuCache {
    var cachedMenuItems: Option<seq<string>>
    var cachedGroupedMenus: Option<map<string, seq<string>>>
    var menuCacheInitialized: bool
    var lastAssemblyCount: nat

    /** A cached grouping is always the grouping of the cached items, and an
        initialized cache holds both. */
    predicate Coherent()
      reads this
    {
      (menuCacheInitialized ==> cachedMenuItems.Some? && cachedGroupedMenus.Some?) &&
      (cachedGroupedMenus.Some? ==>
        cachedMenuItems.Some? && cachedGroupedMenus == Some(Grouping(cachedMenuItems.value)))
    }

    /** The field initializers: nothing cached, no assembly count recorded. */
    constructor ()
      ensures cachedMenuItems.None? && cachedGroupedMenus.None?
      ensures !menuCacheInitialized && lastAssemblyCount == 0
      ensures Coherent()
    {
      cachedMenuItems := None;
      cachedGroupedMenus := None;
      menuCacheInitialized := false;
      lastAssemblyCount := 0;
    }

    /** The cache is reused when it is initialized, holds both values and the
        number of loaded assemblies did not change since it was filled (a
        recorded count of 0 means "unknown" and never invalidates it). */
    predicate CanReuse(currentAssemblyCount: nat)
      reads this
    {
      var assembliesChanged := lastAssemblyCount != 0 && lastAssemblyCount != currentAssemblyCount;
      menuCacheInitialized && cachedMenuItems.Some? && cachedGroupedMenus.Some? && !assembliesChanged
    }

    /** Stores a catalogue and its grouping, marks the cache initialized and
        records the assembly count when it is known. */
    method Fill(items: seq<string>, groups: map<string, seq<string>>, assemblyCount: Option<nat>)
      requires groups == Grouping(items)
      modifies this
      ensures Coherent()
      ensures cachedMenuItems == Some(items) && cachedGroupedMenus == Some(groups) && menuCacheInitialized
      ensures lastAssemblyCount == (if assemblyCount.Some? then assemblyCount.value else old(lastAssemblyCount))
    {
      cachedMenuItems := Some(items);
      cachedGroupedMenus := Some(groups);
      menuCacheInitialized := true;
      if assemblyCount.Some? {
        lastAssemblyCount := assemblyCount.value;
      }
    }

    /** `ShowMenuBarDropdown` without the popup itself: returns the menu lines.
        `assemblyCount` is `None` when counting the loaded assemblies threw,
        which leaves the fallback menu; `discovered` is what the reflection
        scan of `GetAllMenuItems` would find. */
    method ShowMenuBarDropdown(assemblyCount: Option<nat>, discovered: Option<seq<string>>)
      returns (menu: seq<MenuEntry>)
      requires Coherent()
      modifies this
      ensures Coherent()
      ensures assemblyCount.None? ==> menu == FallbackMenu() && unchanged(this)
      ensures assemblyCount.Some? && old(CanReuse(assemblyCount.value)) ==>
        unchanged(this) && menu == Layout(Grouping(cachedMenuItems.value))
      ensures assemblyCount.Some? && !old(CanReuse(assemblyCount.value)) ==>
        cachedMenuItems == Some(Catalogue(discovered)) &&
        cachedGroupedMenus == Some(Grouping(Catalogue(discovered))) &&
        menuCacheInitialized && lastAssemblyCount == assemblyCount.value &&
        menu == Layout(Grouping(Catalogue(discovered)))
      ensures assemblyCount.Some? ==> CanReuse(assemblyCount.value)
    {
      if assemblyCount.None? {
        menu := FallbackMenu();
        return;
      }
      var currentAssemblyCount := assemblyCount.value;
      var menuItems: seq<string>;
      var groupedMenus: map<string, seq<string>>;
      if CanReuse(currentAssemblyCount) {
        menuItems := cachedMenuItems.value;
        groupedMenus := cachedGroupedMenus.value;
        assert Coherent();
      } else {
        menuItems := GetAllMenuItems(discovered);
        groupedMenus := GroupMenuItems(menuItems);
        Fill(menuItems, groupedMenus, assemblyCount);
      }
      menu := BuildDropdown(groupedMenus);
    }

    /** `InitializeMenuCache`: fills an uninitialized cache. When counting the
        assemblies throws (`assemblyCount` is `None`) the items and groups are
        already stored but the recorded count stays as it was. */
    method InitializeMenuCache(assemblyCount: Option<nat>, discovered: Option<seq<string>>)
      requires Coherent()
      modifies this
      ensures Coherent()
      ensures old(menuCacheInitialized) ==> unchanged(this)
      ensures !old(menuCacheInitialized) ==>
        cachedMenuItems == Some(Catalogue(discovered)) &&
        cachedGroupedMenus == Some(Grouping(Catalogue(discovered))) &&
        menuCacheInitialized &&
        lastAssemblyCount == (if assemblyCount.Some? then assemblyCount.value else old(lastAssemblyCount))
    {
      if !menuCacheInitialized {
        var items := GetAllMenuItems(discovered);
        var groups := GroupMenuItems(items);
        Fill(items, groups, assemblyCount);
      }
    }
  }

  /** Loading or unloading assemblies invalidates a cache whose count was
      recorded; an unrecorded count (0) never does. */
  lemma CacheInvalidation(c: MenuCache, current: nat)
    requires c.menuCacheInitialized && c.cachedMenuItems.Some? && c.cachedGroupedMenus.Some?
    ensures c.CanReuse(current) <==> c.lastAssemblyCount == 0 || c.lastAssemblyCount == current
  {
  }
}
