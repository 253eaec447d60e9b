/** `WindowControlsCoordinator`: installs the toolbar widgets that the
    settings enable, from a callback subscribed to the editor's update loop. */
module Coordinator {
  import opened Settings

  /** The three toolbar widgets. */
  datatype Component = MenuBarButton | WindowControls | DragArea

  /** Whether the settings enable a widget. */
  function Enabled(settings: EditorUISettings, c: Component): bool
    reads settings
  {
    match c
    case MenuBarButton => settings.showMenuBar
    case WindowControls => settings.showWindowControls
    case DragArea => settings.enableWindowDrag
  }

  /** At least one widget is enabled. */
  predicate AnyEnabled(settings: EditorUISettings)
    reads settings
  {
    settings.showWindowControls || settings.showMenuBar || settings.enableWindowDrag
  }

  /** The subscription count after `update -= TryInstall`: removing a handler
      that is not subscribed leaves the delegate as it is. */
  function Unsubscribed(n: nat): nat {
    if n == 0 then 0 else n - 1
  }

  /** The coordinator's static state together with the toolbar state it
      drives: the `_attempted` flag, how many times `TryInstall` is
      subscribed to `EditorApplication.update`, and which widgets the toolbar
      holds. */
  class WindowControlsCoordinator {
    var attempted: bool
    var updateSubscriptions: nat
    var menuBarInstalled: bool
    var windowControlsInstalled: bool
    var dragAreaInstalled: bool

    /** Whether the toolbar holds a widget (`Is…Installed`). */
    function Installed(c: Component): bool
      reads this
    {
      match c
      case MenuBarButton => menuBarInstalled
      case WindowControls => windowControlsInstalled
      case DragArea => dragAreaInstalled
    }

    constructor (menuBar: bool, windowControls: bool, dragArea: bool)
      ensures !attempted && updateSubscriptions == 0
      ensures Installed(MenuBarButton) == menuBar
      ensures Installed(WindowControls) == windowControls
      ensures Installed(DragArea) == dragArea
    {
      attempted := false;
      updateSubscriptions := 0;
      menuBarInstalled := menuBar;
      windowControlsInstalled := windowControls;
      dragAreaInstalled := dragArea;
    }

    /** `IsInstalled`: there are settings and every enabled widget is in the
        toolbar. */
    function IsInstalled(settings: EditorUISettings?): (r: bool)
      reads this, settings
      ensures r <==> settings != null && forall c :: Enabled(settings, c) ==> Installed(c)
    {
      if settings == null then false
      else
        var menuBarCheck := !settings.showMenuBar || menuBarInstalled;
        var windowControlsCheck := !settings.showWindowControls || windowControlsInstalled;
        var dragAreaCheck := !settings.enableWindowDrag || dragAreaInstalled;
        assert !menuBarCheck ==> Enabled(settings, MenuBarButton) && !Installed(MenuBarButton);
        assert !windowControlsCheck ==> Enabled(settings, WindowControls) && !Installed(WindowControls);
        assert !dragAreaCheck ==> Enabled(settings, DragArea) && !Installed(DragArea);
        menuBarCheck && windowControlsCheck && dragAreaCheck
    }

    /** `ShowControls`: subscribes `TryInstall` once more. */
    method ShowControls()
      modifies this
      ensures updateSubscriptions == old(updateSubscriptions) + 1
      ensures attempted == old(attempted)
      ensures forall c :: Installed(c) == old(Installed(c))
    {
      updateSubscriptions := updateSubscriptions + 1;
    }

    /** `Initialize`: loads the settings from the preferences store and starts
        installing when any widget is enabled. */
    method Initialize(settings: EditorUISettings?, prefs: EditorPrefs)
      modifies this, settings
      ensures settings == null ==> unchanged(this)
      ensures settings != null ==> settings.Current() == Loaded(prefs.entries)
      ensures attempted == old(attempted)
      ensures forall c :: Installed(c) == old(Installed(c))
      ensures updateSubscriptions ==
        if settings != null && AnyEnabled(settings) then old(updateSubscriptions) + 1
        else old(updateSubscriptions)
    {
      if settings == null {
        return;
      }
      settings.LoadSettings(prefs);
      if settings.showWindowControls || settings.showMenuBar || settings.enableWindowDrag {
        ShowControls();
      }
    }

    /** `HideControls`: removes every disabled widget, leaves enabled ones in
        place, clears `_attempted`, and re-subscribes `TryInstall` when some
        widget is still enabled. */
    method HideControls(settings: EditorUISettings?)
      modifies this
      ensures !attempted
      ensures settings == null ==>
        updateSubscriptions == old(updateSubscriptions) && forall c :: Installed(c) == old(Installed(c))
      ensures settings != null ==>
        forall c :: Installed(c) == (old(Installed(c)) && Enabled(settings, c))
      ensures settings != null && !AnyEnabled(settings) ==>
        updateSubscriptions == Unsubscribed(old(updateSubscriptions))
      ensures settings != null && AnyEnabled(settings) ==>
        updateSubscriptions == Unsubscribed(old(updateSubscriptions)) + 1
      ensures settings != null && AnyEnabled(settings) ==> updateSubscriptions >= 1
    {
      attempted := false;
      if settings == null {
        return;
      }
      if !settings.showWindowControls {
        HideWindowControls();
      }
      if !settings.showMenuBar {
        HideMenuBarButton();
      }
      if !settings.enableWindowDrag {
        HideDragArea();
      }
      if !settings.showWindowControls && !settings.showMenuBar && !settings.enableWindowDrag {
        updateSubscriptions := Unsubscribed(updateSubscriptions);
      } else {
        attempted := false;
        updateSubscriptions := Unsubscribed(updateSubscriptions);
        updateSubscriptions := updateSubscriptions + 1;
      }
    }

    /** `ShowMenuBarButton`: restarts installing when the button is enabled. */
    method ShowMenuBarButton(settings: EditorUISettings?)
      modifies this
      ensures forall c :: Installed(c) == old(Installed(c))
      ensures settings != null && settings.showMenuBar ==>
        !attempted && updateSubscriptions == old(updateSubscriptions) + 1
      ensures !(settings != null && settings.showMenuBar) ==>
        attempted == old(attempted) && updateSubscriptions == old(updateSubscriptions)
    {
      if settings == null || !settings.showMenuBar {
        return;
      }
      attempted := false;
      updateSubscriptions := updateSubscriptions + 1;
    }

    /** `HideMenuBarButton`: takes the button out of the toolbar. */
    method HideMenuBarButton()
      modifies this
      ensures !Installed(MenuBarButton)
      ensures Installed(WindowControls) == old(Installed(WindowControls))
      ensures Installed(DragArea) == old(Installed(DragArea))
      ensures attempted == old(attempted) && updateSubscriptions == old(updateSubscriptions)
    {
      menuBarInstalled := false;
    }

    /** `ShowWindowControls`: restarts installing when the controls are enabled. */
    method ShowWindowControls(settings: EditorUISettings?)
      modifies this
      ensures forall c :: Installed(c) == old(Installed(c))
      ensures settings != null && settings.showWindowControls ==>
        !attempted && updateSubscriptions == old(updateSubscriptions) + 1
      ensures !(settings != null && settings.showWindowControls) ==>
        attempted == old(attempted) && updateSubscriptions == old(updateSubscriptions)
    {
      if settings == null || !settings.showWindowControls {
        return;
      }
      attempted := false;
      updateSubscriptions := updateSubscriptions + 1;
    }

    /** `HideWindowControls`: takes the window buttons out of the toolbar. */
    method HideWindowControls()
      modifies this
      ensures !Installed(WindowControls)
      ensures Installed(MenuBarButton) == old(Installed(MenuBarButton))
      ensures Installed(DragArea) == old(Installed(DragArea))
      ensures attempted == old(attempted) && updateSubscriptions == old(updateSubscriptions)
    {
      windowControlsInstalled := false;
    }

    /** `ShowDragArea`: restarts installing when dragging is enabled. */
    method ShowDragArea(settings: EditorUISettings?)
      modifies this
      ensures forall c :: Installed(c) == old(Installed(c))
      ensures settings != null && settings.enableWindowDrag ==>
        !attempted && updateSubscriptions == old(updateSubscriptions) + 1
      ensures !(settings != null && settings.enableWindowDrag) ==>
        attempted == old(attempted) && updateSubscriptions == old(updateSubscriptions)
    {
      if settings == null || !settings.enableWindowDrag {
        return;
      }
      attempted := false;
      updateSubscriptions := updateSubscriptions + 1;
    }

    /** `HideDragArea`: takes the drag area out of the toolbar. */
    method HideDragArea()
      modifies this
      ensures !Installed(DragArea)
      ensures Installed(MenuBarButton) == old(Installed(MenuBarButton))
      ensures Installed(WindowControls) == old(Installed(WindowControls))
      ensures attempted == old(attempted) && updateSubscriptions == old(updateSubscriptions)
    {
      dragAreaInstalled := false;
    }

    /** `TryInstall`, the update callback. `instanceThrows` says that fetching
        the settings instance threw (the `catch` path). `added(c)` says whether
        the `Add…ToToolbar` helper of widget `c` puts it into the toolbar when
        called; each helper fails on its own (the menu button needs the left
        zone, the window buttons the right zone, the drag area only the root)
        and catches its own exceptions. */
    method TryInstall(settings: EditorUISettings?, instanceThrows: bool, added: Component -> bool)
      modifies this
      ensures old(attempted) ==> unchanged(this)
      ensures !old(attempted) ==> updateSubscriptions == Unsubscribed(old(updateSubscriptions))
      ensures !old(attempted) && (instanceThrows || (settings != null && AnyEnabled(settings))) ==> attempted
      ensures !old(attempted) && !instanceThrows && (settings == null || !AnyEnabled(settings)) ==>
        !attempted && forall c :: Installed(c) == old(Installed(c))
      ensures !old(attempted) && instanceThrows ==> forall c :: Installed(c) == old(Installed(c))
      ensures !old(attempted) && !instanceThrows && settings != null ==>
        forall c :: Installed(c) == (old(Installed(c)) || (Enabled(settings, c) && added(c)))
      ensures !old(attempted) && !instanceThrows && settings != null ==>
        (IsInstalled(settings) <==> forall c :: Enabled(settings, c) && !old(Installed(c)) ==> added(c))
    {
      if attempted {
        return;
      }
      if instanceThrows {
        attempted := true;
        updateSubscriptions := Unsubscribed(updateSubscriptions);
        return;
      }
      if settings == null || (!settings.showWindowControls && !settings.showMenuBar && !settings.enableWindowDrag) {
        updateSubscriptions := Unsubscribed(updateSubscriptions);
        return;
      }
      if settings.showMenuBar && !menuBarInstalled {
        menuBarInstalled := added(MenuBarButton);
      }
      if settings.showWindowControls && !windowControlsInstalled {
        windowControlsInstalled := added(WindowControls);
      }
      if settings.enableWindowDrag && !dragAreaInstalled {
        dragAreaInstalled := added(DragArea);
      }
      attempted := true;
      updateSubscriptions := Unsubscribed(updateSubscriptions);
    }
  }
}
