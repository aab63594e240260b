/** The tray icon itself, served as `org.kde.StatusNotifierItem`
    (src/dbus/notifier.rs): read-only properties derived from the minimized
    window, a left click that brings the window back and a middle click that
    closes it. */
module TrayIcon {
  import opened Base
  import opened Compositor
  import opened Signal
  import TrayMenu

  /** The `ToolTip` property: icon name, icon pixmaps, title, description. */
  datatype ToolTip = ToolTip(iconName: string, pixmaps: seq<(i32, i32, seq<bv8>)>, title: string, description: string)

  class StatusNotifierItem {
    const windowInfo: WindowInfo
    const exitNotify: ExitSignal
    const hyprland: Hyprland

    constructor (windowInfo: WindowInfo, exitNotify: ExitSignal, hyprland: Hyprland)
      ensures this.windowInfo == windowInfo && this.exitNotify == exitNotify && this.hyprland == hyprland
    {
      this.windowInfo := windowInfo;
      this.exitNotify := exitNotify;
      this.hyprland := hyprland;
    }

    function Category(): string
    {
      "ApplicationStatus"
    }

    function Id(): string
    {
      windowInfo.windowClass
    }

    function Title(): string
    {
      windowInfo.title
    }

    function Status(): string
    {
      "Active"
    }

    function IconName(): string
    {
      windowInfo.windowClass
    }

    function ToolTipValue(): ToolTip
    {
      ToolTip("", [], windowInfo.title, "")
    }

    function ItemIsMenu(): bool
    {
      false
    }

    function Menu(): string
    {
      TrayMenu.MenuPath
    }

    /** `Activate` (a left click): query the active workspace, move the window
        there and focus it, stopping at the first failure; the failure is only
        logged, and the exit signal fires once in every case. */
    method Activate(x: i32, y: i32)
      modifies hyprland, exitNotify
      ensures hyprland.dispatched == old(hyprland.dispatched) + OpenOnActiveDispatches(hyprland, windowInfo.address)
      ensures hyprland.queried == old(hyprland.queried) + ["activeworkspace"]
      ensures exitNotify.notified == old(exitNotify.notified) + 1
    {
      var ws := hyprland.ActiveWorkspace();
      if ws.Ok? {
        var moved := hyprland.Dispatch(MoveCommand(ws.value.id, windowInfo.address));
        if moved.Pass? {
          var focused := hyprland.Dispatch(FocusCommand(windowInfo.address));
        }
      }
      exitNotify.NotifyOne();
    }

    /** `SecondaryActivate` (a middle click): close the window, then fire the
        exit signal once whether or not the close succeeded. */
    method SecondaryActivate(x: i32, y: i32)
      modifies hyprland, exitNotify
      ensures hyprland.dispatched == old(hyprland.dispatched) + [CloseCommand(windowInfo.address)]
      ensures hyprland.queried == old(hyprland.queried)
      ensures exitNotify.notified == old(exitNotify.notified) + 1
    {
      var closed := hyprland.Dispatch(CloseCommand(windowInfo.address));
      exitNotify.NotifyOne();
    }
  }

  /** Every property is a constant or a field of the minimized window: the
      icon and the id are its class, the title and the tooltip its title, and
      the context menu is the one served at the menu path. */
  lemma ItemProperties(item: StatusNotifierItem)
    ensures item.Category() == "ApplicationStatus" && item.Status() == "Active" && !item.ItemIsMenu()
    ensures item.Id() == item.IconName() == item.windowInfo.windowClass
    ensures item.Title() == item.ToolTipValue().title == item.windowInfo.title
    ensures item.ToolTipValue().iconName == "" && item.ToolTipValue().pixmaps == [] && item.ToolTipValue().description == ""
    ensures item.Menu() == TrayMenu.MenuPath == "/Menu"
  {
  }

  /** A left click on the icon does what a click on the menu's first item
      ("Open <title>") does, and a middle click what its third item ("Close
      <title>") does. */
  lemma ClicksMatchMenu(item: StatusNotifierItem)
    ensures OpenOnActiveDispatches(item.hyprland, item.windowInfo.address)
            == TrayMenu.EventDispatches(item.hyprland, item.windowInfo, 1, "clicked")
    ensures ["activeworkspace"] == TrayMenu.EventQueries(1, "clicked")
    ensures [CloseCommand(item.windowInfo.address)]
            == TrayMenu.EventDispatches(item.hyprland, item.windowInfo, 3, "clicked")
    ensures TrayMenu.EventQueries(3, "clicked") == []
  {
  }

  /** With a working compositor reporting workspace 7, a left click moves the
      window to workspace 7 and focuses it: two dispatches, in that order. */
  lemma ActivateOnWorkspaceSeven(h: Hyprland, address: string)
    requires "activeworkspace" in h.replies && h.replies["activeworkspace"] == Output(true, WorkspaceObject(Workspace(7)), "")
    requires h.failing == {}
    ensures OpenOnActiveDispatches(h, address)
            == ["movetoworkspace 7,address:" + address, "focuswindow address:" + address]
  {
    assert h.ExecReply("activeworkspace", WorkspaceShape) == Ok(WorkspaceObject(Workspace(7)));
    assert h.ActiveWorkspaceReply() == Ok(Workspace(7));
    assert IntToString(7) == "7";
    assert MoveCommand(7, address) == "movetoworkspace 7,address:" + address;
    assert OpenOnActiveDispatches(h, address) == MoveThenFocus(h, 7, address);
  }
}
