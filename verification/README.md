# Compact View for Editor — a verified model of its core

Compact View for Editor is a Unity Editor extension that reclaims screen space:
it can hide the title, menu and status bars and instead puts a "MenuBar ▼"
button, window buttons and a drag area into the editor's toolbar. This project
models the parts of it that are plain sequential logic and proves what they
promise.

- `text.dfy` (module `Text`): the string operations the code relies on —
  ordinal `Contains`/`StartsWith`, and `OrdinalIgnoreCase` comparison as an
  ASCII upper-case fold.
- `ordering.dfy` (module `Ordering`): the lexicographic order on code points
  used in place of `OrderBy`, a total order; insertion sort and sorted
  dictionary keys.
- `menu_bar.dfy` (module `MenuBar`): the menu catalogue of `MenuBarManager` —
  adding the standard Unity menus, removing duplicates, filtering out unlistable
  paths, grouping paths by their first segment, classifying dangerous commands,
  laying out the dropdown, the fallback menu, and the static menu cache as a
  class (`MenuCache`) with `ShowMenuBarDropdown` and `InitializeMenuCache`.
- `settings.dfy` (module `Settings`): `EditorUISettings` with its six switches,
  the `EditorPrefs` store as a class holding a `map<string, bool>`, and
  `SaveSettings`/`LoadSettings`.
- `coordinator.dfy` (module `Coordinator`): `WindowControlsCoordinator` as a
  class holding the `_attempted` flag, the number of times `TryInstall` is
  subscribed to `EditorApplication.update`, and whether each of the three
  toolbar widgets is installed.
- `drag.dfy` (module `Drag`): `WindowDragManager`'s click classifier
  `IsEmptyToolbarArea`, the left-button gate of its mouse-down callback, and
  `CreateDragArea`, which inserts the `DragArea` marker into a toolbar root
  (a class with a child list) at most once.

Modelling choices that matter when reading the contracts:

- The reflection scan in `GetAllMenuItems` is replaced by its result, an
  `Option<seq<string>>`. `None` means that enumerating the loaded assemblies
  threw; then not even the standard menus are added and the catalogue is empty.
- `ShowMenuBarDropdown` takes the number of loaded assemblies as an
  `Option<nat>`; `None` means counting them threw, and the method returns the
  fallback menu and changes nothing. The menu is returned as a list of
  `MenuEntry` lines (command, disabled item, separator).
- The cache is reused exactly when it is initialized, both cached values are
  present, and the recorded assembly count is 0 or equal to the current one.
  The model also keeps a class invariant, `Coherent`: the cached groups are
  always the grouping of the cached items.
- `update -= TryInstall` on a delegate where `TryInstall` is not subscribed
  leaves the delegate alone, so the subscription count is decremented but never
  goes below zero (`Coordinator.Unsubscribed`). Therefore `HideControls` with a
  switch on leaves the count unchanged when `TryInstall` was subscribed and
  raises it from 0 to 1 when it was not.
- `UQuery`'s `Q(name)` matches the element itself as well as its descendants,
  so `CreateDragArea` does nothing when the root itself is named `DragArea`.
- `LoadSettings` falls back to `true` for `enableWindowDrag`, while the field
  initializer is `false` (Editor/WindowTitleSettings.cs, lines 23 and 56);
  `Settings.LoadFromEmptyStore` states both values.

## Model

| member | source | states |
|---|---|---|
| Text.FoldCase | Editor/MenuBarManager.cs:300-301 | the ASCII upper-case fold behind `OrdinalIgnoreCase`: same length, each character folded |
| Text.Contains | Editor/MenuBarManager.cs:299-303 | `s.Contains(sub)` holds iff `sub` occurs in `s` at some index |
| Ordering.LessEqTotal | Editor/MenuBarManager.cs:182 | the code-point order used for sorting compares any two strings |
| Ordering.Sort | Editor/MenuBarManager.cs:188 | `OrderBy(x => x)`: the result is sorted and a permutation of the input |
| Ordering.SortedKeys | Editor/MenuBarManager.cs:182 | `OrderBy(x => x.Key)`: the keys in strictly increasing order, each key exactly once |
| MenuBar.AppendMissing | Editor/MenuBarManager.cs:361-367 | the input is a prefix of the result; a path is in the result iff it is in the input or the extra list; each appended path comes from the extra list and was not present before |
| MenuBar.AppendMissingOrder | Editor/MenuBarManager.cs:361-367 | appended paths appear in the order of the extra list |
| MenuBar.AddStandardUnityMenus | Editor/MenuBarManager.cs:334-368 | the loop only appends: existing entries stay in place, every standard path is present afterwards, and a path already present is not added again |
| MenuBar.Distinct | Editor/MenuBarManager.cs:297 | `Distinct()`: no duplicates, the same members, first-occurrence order |
| MenuBar.KeepListable | Editor/MenuBarManager.cs:297-304 | the `Where` filter keeps exactly the members that are non-empty, contain no `%`, `---` or `_MenuItem`, and do not start with `internal:` or `CONTEXT/` ignoring case; it keeps a duplicate-free list duplicate-free |
| MenuBar.KeepListableOrder | Editor/MenuBarManager.cs:297-304 | the filter keeps the relative order of what it keeps |
| MenuBar.Catalogue | Editor/MenuBarManager.cs:256-305 | the result of `GetAllMenuItems` has no duplicates, and is empty when enumerating assemblies threw |
| MenuBar.CatalogueMembers | Editor/MenuBarManager.cs:290-304 | a path is returned iff it is listable and was discovered or is a standard menu |
| MenuBar.CatalogueOrder | Editor/MenuBarManager.cs:290-297 | the returned paths keep first-occurrence order of the discovered paths followed by the missing standard menus |
| MenuBar.GetAllMenuItems | Editor/MenuBarManager.cs:256-305 | computes the catalogue |
| MenuBar.FirstSegment | Editor/MenuBarManager.cs:313-316 | `item.Split('/')[0]`: a prefix of the item without `/`, followed by `/` unless it is the whole item |
| MenuBar.IsExcludedCategoryIgnoresCase | Editor/MenuBarManager.cs:318-319 | a category is dropped iff it equals `CONTEXT` or `Internal` ignoring case |
| MenuBar.ItemsInCategory | Editor/MenuBarManager.cs:311-328 | a group holds exactly the items whose first segment is its key |
| MenuBar.ItemsInCategoryOrder | Editor/MenuBarManager.cs:311-328 | for a duplicate-free input (as the catalogue is), a group lists its items in the order in which they occur in the input |
| MenuBar.Grouping | Editor/MenuBarManager.cs:307-332 | no key is an excluded category and no group is empty; every item of a kept category is in the group of its first segment |
| MenuBar.GroupingPartitions | Editor/MenuBarManager.cs:311-328 | an item is in group `c` iff `c` is its first segment and not excluded: each kept item lands in exactly one group, excluded ones in none |
| MenuBar.GroupMenuItems | Editor/MenuBarManager.cs:307-332 | the loop builds the grouping (invariant: the dictionary is the grouping of the items seen so far) |
| MenuBar.AnyEqualsIgnoreCaseSpec | Editor/MenuBarManager.cs:396-397 | `Any(… Equals(…, OrdinalIgnoreCase))`: true iff some candidate equals the path ignoring case |
| MenuBar.FoldedDangerousCommandsAreFolded | Editor/MenuBarManager.cs:386-394 | the upper-case forms the model compares with are exactly the folds of the six dangerous commands |
| MenuBar.IsDangerousMenuItem | Editor/MenuBarManager.cs:383 | a null or empty path is never dangerous |
| MenuBar.IsDangerousMenuItemSpec | Editor/MenuBarManager.cs:381-398 | any other path is dangerous iff `dangerousCommands.Any(…)` finds it, that is, iff it equals one of the six dangerous commands ignoring case |
| MenuBar.AppendSection | Editor/MenuBarManager.cs:188-210 | the inner layout loop appends one line per item, in order: a disabled line with the safety note for a dangerous item, a command otherwise |
| MenuBar.BuildDropdown | Editor/MenuBarManager.cs:182-217 | the layout loop produces the layout: categories in sorted key order, each category's items sorted, a separator after every category but the last |
| MenuBar.LayoutPrefixSeparators | Editor/MenuBarManager.cs:213-216 | after `n` categories the menu holds `n` separators, or `n - 1` when they are all categories |
| MenuBar.LayoutSeparators | Editor/MenuBarManager.cs:182-217 | the dropdown holds exactly one separator fewer than there are categories, and none when there is no category |
| MenuBar.LayoutEndsWithItem | Editor/MenuBarManager.cs:213-216 | when no group is empty, the dropdown does not end with a separator |
| MenuBar.GroupedLayoutEndsWithItem | Editor/MenuBarManager.cs:182-217 | the dropdown built from the grouping of any catalogue does not end with a separator |
| MenuBar.LayoutPrefixSound | Editor/MenuBarManager.cs:182-217 | every line other than a separator is the entry of an item of one of the laid-out categories |
| MenuBar.LayoutPrefixComplete | Editor/MenuBarManager.cs:182-217 | every item of every laid-out category has its entry in the menu |
| MenuBar.LayoutCommandsAreSafe | Editor/MenuBarManager.cs:193-210 | no executable line runs a dangerous command, and every executable line runs the path it shows |
| MenuBar.LayoutShowsEveryItem | Editor/MenuBarManager.cs:193-210 | every grouped dangerous item appears as a disabled line ending in " (Disabled for safety)", every other one as a command for its path |
| MenuBar.FallbackMenu | Editor/MenuBarManager.cs:370-379 | seven lines, one of them a separator; every other line is a command that runs the path it shows |
| MenuBar.FallbackMenuIsSafe | Editor/MenuBarManager.cs:370-379 | no command of the fallback menu is a dangerous one, although the fallback items bypass `IsDangerousMenuItem` |
| MenuBar.MenuCache.constructor | Editor/MenuBarManager.cs:16-19 | nothing cached, not initialized, recorded count 0 |
| MenuBar.MenuCache.ShowMenuBarDropdown | Editor/MenuBarManager.cs:152-223 | fallback menu and no state change when counting assemblies threw; otherwise the cached grouping is laid out unchanged iff the cache may be reused, else the catalogue and its grouping are rebuilt, cached, the count recorded, and laid out; afterwards the cache may be reused for the same count; keeps the cache coherent |
| MenuBar.MenuCache.InitializeMenuCache | Editor/MenuBarManager.cs:236-254 | no-op once initialized; otherwise caches the catalogue and its grouping, marks the cache initialized, and records the count unless counting threw; keeps the cache coherent |
| MenuBar.CacheInvalidation | Editor/MenuBarManager.cs:161-164 | a filled cache is reused iff the recorded count is 0 or equals the current count |
| Settings.SettingKeysDistinct | Editor/WindowTitleSettings.cs:32-37 | the six preference keys are pairwise distinct |
| Settings.Saved | Editor/WindowTitleSettings.cs:39-47 | saving adds exactly the six keys to the store and leaves every other key's value untouched |
| Settings.LoadAfterSave | Editor/WindowTitleSettings.cs:39-57 | loading after saving restores all six switches, whatever the store held before |
| Settings.SaveIdempotent | Editor/WindowTitleSettings.cs:39-47 | saving twice gives the same store as saving once |
| Settings.SaveAfterLoad | Editor/WindowTitleSettings.cs:39-57 | saving what was just loaded from a store that holds all six keys leaves the store unchanged |
| Settings.LoadFromEmptyStore | Editor/WindowTitleSettings.cs:51-56 | on an empty store every switch is false except `showMenuBar` and `enableWindowDrag`; this differs from the field initializers only in `enableWindowDrag` |
| Settings.LoadReadsOnlySettingKeys | Editor/WindowTitleSettings.cs:49-57 | the loaded switches depend on the six keys only |
| Settings.EditorUISettings.constructor | Editor/WindowTitleSettings.cs:10-27 | a fresh object carries the field initializers |
| Settings.EditorUISettings.SaveSettings | Editor/WindowTitleSettings.cs:39-47 | the store becomes the saved store of the current switches; no switch changes; loading from it gives the current switches back |
| Settings.EditorUISettings.LoadSettings | Editor/WindowTitleSettings.cs:49-57 | each of the six switches is read from its own key with its own default, nothing else changes |
| Coordinator.WindowControlsCoordinator.constructor | Editor/WindowControlsCoordinator.cs:9 | `_attempted` starts false with no subscription; the toolbar starts with the given widgets |
| Coordinator.WindowControlsCoordinator.IsInstalled | Editor/WindowControlsCoordinator.cs:155-165 | true iff there are settings and every enabled widget is installed |
| Coordinator.WindowControlsCoordinator.ShowControls | Editor/WindowControlsCoordinator.cs:30-33 | adds one subscription, nothing else changes |
| Coordinator.WindowControlsCoordinator.Initialize | Editor/WindowControlsCoordinator.cs:16-28 | without settings nothing happens; otherwise the settings are loaded from the store and one subscription is added iff some widget is enabled |
| Coordinator.WindowControlsCoordinator.HideControls | Editor/WindowControlsCoordinator.cs:35-69 | clears `_attempted`; removes exactly the disabled widgets and keeps enabled ones; removes one subscription when all widgets are disabled, and otherwise removes one and adds one, so at least one remains |
| Coordinator.WindowControlsCoordinator.ShowMenuBarButton | Editor/WindowControlsCoordinator.cs:72-79 | when the button is enabled, clears `_attempted` and adds one subscription; otherwise changes nothing |
| Coordinator.WindowControlsCoordinator.HideMenuBarButton | Editor/WindowControlsCoordinator.cs:81-84 | the button is no longer installed, nothing else changes |
| Coordinator.WindowControlsCoordinator.ShowWindowControls | Editor/WindowControlsCoordinator.cs:86-93 | when the window buttons are enabled, clears `_attempted` and adds one subscription; otherwise changes nothing |
| Coordinator.WindowControlsCoordinator.HideWindowControls | Editor/WindowControlsCoordinator.cs:95-98 | the window buttons are no longer installed, nothing else changes |
| Coordinator.WindowControlsCoordinator.ShowDragArea | Editor/WindowControlsCoordinator.cs:100-107 | when dragging is enabled, clears `_attempted` and adds one subscription; otherwise changes nothing |
| Coordinator.WindowControlsCoordinator.HideDragArea | Editor/WindowControlsCoordinator.cs:109-112 | the drag area is no longer installed, nothing else changes |
| Coordinator.WindowControlsCoordinator.TryInstall | Editor/WindowControlsCoordinator.cs:114-152 | does nothing once attempted; otherwise removes one subscription; without settings or with every widget disabled installs nothing and leaves `_attempted` false; else calls the helper of each enabled widget that is missing, so a widget becomes installed exactly when its own helper succeeds, never a disabled one, and sets `_attempted`, also on the exception path, so a widget whose helper failed is not retried; afterwards `IsInstalled` holds iff every helper that was called succeeded |
| Drag.IsEmptyToolbarArea | Editor/WindowDragManager.cs:147-166 | false for a null target or root; false for a button, text field, toggle, a button style class, or a name containing `Button` or `Field`, even for the root; otherwise true iff the target is the root, its name is null or empty, or contains `Zone` or `Toolbar` |
| Drag.ButtonNameRejected | Editor/WindowDragManager.cs:152-159 | a target whose name contains `Button` is never a drag area, whatever else its name contains |
| Drag.UnnamedPlainElementAccepted | Editor/WindowDragManager.cs:162-165 | a plain element without a name and without button classes is a drag area |
| Drag.StartsDrag | Editor/WindowDragManager.cs:121-139 | the callback starts a drag iff the left button (0) was pressed on a target the classifier accepts; never on an interactive element |
| Drag.VisualElement.constructor | Editor/WindowDragManager.cs:108-117 | the marker is a new element with the given name, no children, classes or callbacks |
| Drag.CreateDragArea | Editor/WindowDragManager.cs:101-145 | a null root is left alone; if the root or a descendant is already named `DragArea` nothing changes; otherwise exactly one new childless `DragArea` marker is appended after the existing children and one mouse-down callback is registered; afterwards the marker is always present, so a second call changes nothing |

## Left out

- The reflection scan of `GetAllMenuItems` (assemblies, types, methods, `MenuItem` attributes, and the skipping of assemblies whose types cannot be loaded) is replaced by its result, a parameter.
- `AddMenuBarToToolbar`, `RemoveMenuBarFromToolbar`, `IsMenuBarInstalled`, `CreateMenuBarButton` and the corresponding helpers of `WindowButtonsManager` and `WindowDragManager` reach the toolbar by reflection; the coordinator sees their effect as the three installed booleans and, for `TryInstall`, one outcome per helper (`added`). Each helper fails on its own: the menu button needs the toolbar's left zone, the window buttons its right zone, the drag area only its root. A removal is modelled as always taking the widget out, because an unreachable toolbar also reads as "not installed".
- `GenericMenu` rendering, `DropDown`/`ShowAsContext` positioning and the `ExecuteMenuItem` callbacks: the dropdown is the list of lines it would show.
- Culture-sensitive `OrderBy`: the lexicographic order on code points is used instead. It also differs from an ordinal UTF-16 order for characters outside the Basic Multilingual Plane.
- `OrdinalIgnoreCase` for characters outside ASCII: only `a`–`z` are folded.
- MenuBar.MenuCache.ShowMenuBarDropdown: an exception thrown after lines were already added (partial menu followed by the fallback items) is not modelled; the only failure modelled is counting the loaded assemblies.
- `AddStandardUnityMenus` and `GroupMenuItems` update a `List` and a `Dictionary` in place; the model returns the new sequence and map, so aliasing of those collections is not captured.
- The static constructors that schedule `InitializeMenuCache` and `Initialize` on `EditorApplication.delayCall`, and the order in which the editor runs update callbacks.
- `EditorUISettings.Instance` and `CreateOrLoadSettings` (asset lookup and creation through `AssetDatabase`): the settings object is a parameter that may be null.
- Coordinator.WindowControlsCoordinator.TryInstall: the only exception modelled is the one from fetching the settings instance (`instanceThrows`); the install helpers catch their own exceptions.
- `StartWindowDrag` and `GetUnityMainWindow` (user32 calls and the cached window handle): a started drag is the boolean `StartsDrag`; `StopPropagation` is folded into it.
- The marker's style (absolute position, zero size, zero opacity) and the exception handler around `CreateDragArea`.
- WindowButtonsManager.cs, SimpleMenuBarHider.cs, StatusBarHider.cs and EditorUISettingsEditor.cs are not part of this model (window handle calls, floating-point layout and inspector drawing).
- Logging through `Debug.Log…` and the unused timing in the cache code.
