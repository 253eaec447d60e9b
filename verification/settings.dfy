/** `EditorUISettings`: six switches persisted in the editor preferences
    store, one boolean key per switch. */
module Settings {

  const HideTitleBarKey: string := "EditorUISettings_HideTitleBar"
  const HideMenuBarKey: string := "EditorUISettings_HideMenuBar"
  const ShowWindowControlsKey: string := "EditorUISettings_ShowWindowControls"
  const ShowMenuBarButtonKey: string := "EditorUISettings_ShowMenuBarButton"
  const HideStatusBarKey: string := "EditorUISettings_HideStatusBar"
  const EnableWindowDragKey: string := "EditorUISettings_EnableWindowDrag"

  /** The six preference keys, in the order `SaveSettings` writes them. */
  const SettingKeys: seq<string> := [HideTitleBarKey, HideMenuBarKey, ShowWindowControlsKey,
                                     ShowMenuBarButtonKey, HideStatusBarKey, EnableWindowDragKey]

  /** The values of the six switches. */
  datatype Flags = Flags(
    hideTitleBar: bool,
    hideMenuBar: bool,
    showWindowControls: bool,
    showMenuBar: bool,
    hideStatusBar: bool,
    enableWindowDrag: bool)

  /** The field initializers of a fresh settings object. */
  const FieldDefaults: Flags := Flags(false, false, false, true, false, false)

  /** The defaults `LoadSettings` falls back to for a missing key; note that
      window dragging defaults to on here but to off in the field initializer. */
  const LoadDefaults: Flags := Flags(false, false, false, true, false, true)

  /** The six keys are pairwise different, so no switch overwrites another. */
  lemma SettingKeysDistinct()
    ensures forall i, j :: 0 <= i < j < |SettingKeys| ==> SettingKeys[i] != SettingKeys[j]
  {
  }

  /** What `GetBool(key, defaultValue)` returns from the store `m`. */
  function Lookup(m: map<string, bool>, key: string, defaultValue: bool): bool {
    if key in m then m[key] else defaultValue
  }

  /** The store after `SaveSettings` wrote `f` into `m`. */
  function Saved(m: map<string, bool>, f: Flags): (r: map<string, bool>)
    ensures forall k :: k in r <==> k in m || k in SettingKeys
    ensures forall k :: k in m && k !in SettingKeys ==> r[k] == m[k]
  {
    m[HideTitleBarKey := f.hideTitleBar]
     [HideMenuBarKey := f.hideMenuBar]
     [ShowWindowControlsKey := f.showWindowControls]
     [ShowMenuBarButtonKey := f.showMenuBar]
     [HideStatusBarKey := f.hideStatusBar]
     [EnableWindowDragKey := f.enableWindowDrag]
  }

  /** The switches `LoadSettings` reads from the store `m`. */
  function Loaded(m: map<string, bool>): Flags {
    Flags(
      Lookup(m, HideTitleBarKey, LoadDefaults.hideTitleBar),
      Lookup(m, HideMenuBarKey, LoadDefaults.hideMenuBar),
      Lookup(m, ShowWindowControlsKey, LoadDefaults.showWindowControls),
      Lookup(m, ShowMenuBarButtonKey, LoadDefaults.showMenuBar),
      Lookup(m, HideStatusBarKey, LoadDefaults.hideStatusBar),
      Lookup(m, EnableWindowDragKey, LoadDefaults.enableWindowDrag))
  }

  /** Loading what was saved gives back the saved switches, whatever the
      store held before. */
  lemma LoadAfterSave(m: map<string, bool>, f: Flags)
    ensures Loaded(Saved(m, f)) == f
  {
  }

  /** Saving twice is the same as saving once. */
  lemma SaveIdempotent(m: map<string, bool>, f: Flags)
    ensures Saved(Saved(m, f), f) == Saved(m, f)
  {
  }

  /** On an empty store every switch takes its load default, which differs
      from the field initializer for window dragging only. */
  lemma LoadFromEmptyStore()
    ensures Loaded(map[]) == LoadDefaults
    ensures LoadDefaults != FieldDefaults
    ensures LoadDefaults.(enableWindowDrag := false) == FieldDefaults
  {
  }

  /** Loading depends on the six keys only. */
  lemma LoadReadsOnlySettingKeys(m: map<string, bool>, m': map<string, bool>)
    requires forall k :: k in SettingKeys ==> (k in m <==> k in m') && (k in m ==> m[k] == m'[k])
    ensures Loaded(m) == Loaded(m')
  {
  }

  /** Saving what was just loaded from a store that holds all six keys leaves
      the store as it was. */
  lemma SaveAfterLoad(m: map<string, bool>)
    requires forall k :: k in SettingKeys ==> k in m
    ensures Saved(m, Loaded(m)) == m
  {
  }

  /** The editor preferences store (`EditorPrefs`), reduced to its boolean
      entries. */
  class EditorPrefs {
    var entries: map<string, bool>

    constructor (initial: map<string, bool>)
      ensures entries == initial
    {
      entries := initial;
    }

    method SetBool(key: string, value: bool)
      modifies this
      ensures entries == old(entries)[key := value]
    {
      entries := entries[key := value];
    }

    function GetBool(key: string, defaultValue: bool): bool
      reads this
    {
      Lookup(entries, key, defaultValue)
    }
  }

  /** The settings object. */
  class EditorUISettings {
    var hideTitleBar: bool
    var hideMenuBar: bool
    var showWindowControls: bool
    var showMenuBar: bool
    var enableWindowDrag: bool
    var hideStatusBar: bool

    /** The current values of the six switches. */
    function Current(): Flags
      reads this
    {
      Flags(hideTitleBar, hideMenuBar, showWindowControls, showMenuBar, hideStatusBar, enableWindowDrag)
    }

    /** A fresh object carries the field initializers. */
    constructor ()
      ensures Current() == FieldDefaults
    {
      hideTitleBar := false;
      hideMenuBar := false;
      showWindowControls := false;
      showMenuBar := true;
      enableWindowDrag := false;
      hideStatusBar := false;
    }

    /** Writes the six switches to their keys and touches nothing else. */
    method SaveSettings(prefs: EditorPrefs)
      modifies prefs
      ensures prefs.entries == Saved(old(prefs.entries), Current())
      ensures Loaded(prefs.entries) == Current()
    {
      prefs.SetBool(HideTitleBarKey, hideTitleBar);
      prefs.SetBool(HideMenuBarKey, hideMenuBar);
      prefs.SetBool(ShowWindowControlsKey, showWindowControls);
      prefs.SetBool(ShowMenuBarButtonKey, showMenuBar);
      prefs.SetBool(HideStatusBarKey, hideStatusBar);
      prefs.SetBool(EnableWindowDragKey, enableWindowDrag);
      LoadAfterSave(old(prefs.entries), Current());
    }

    /** Reads the six switches from their keys, each with its load default. */
    method LoadSettings(prefs: EditorPrefs)
      modifies this
      ensures Current() == Loaded(prefs.entries)
    {
      hideTitleBar := prefs.GetBool(HideTitleBarKey, false);
      hideMenuBar := prefs.GetBool(HideMenuBarKey, false);
      showWindowControls := prefs.GetBool(ShowWindowControlsKey, false);
      showMenuBar := prefs.GetBool(ShowMenuBarButtonKey, true);
      hideStatusBar := prefs.GetBool(HideStatusBarKey, false);
      enableWindowDrag := prefs.GetBool(EnableWindowDragKey, true);
    }
  }
}
