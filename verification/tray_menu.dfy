/** The tray icon's context menu, served as `com.canonical.dbusmenu`
    (src/dbus/menu.rs): a fixed three-item layout and the click handlers. */
module TrayMenu {
  import opened Base
  import opened Compositor
  import opened Signal

  /** The object path the menu is served at. */
  const MenuPath: string := "/Menu"

  /** A D-Bus variant, as far as this interface uses one. */
  datatype Value = Str(s: string) | Flag(b: bool)

  type Props = map<string, Value>

  datatype MenuItem = MenuItem(id: i32, props: Props, children: seq<MenuItem>)

  /** `GetLayout`'s answer: the layout revision and the root item. */
  datatype Layout = Layout(revision: u32, root: MenuItem)

  /** One element of an `EventGroup` call. */
  datatype MenuEvent = MenuEvent(id: i32, eventId: string, data: Value, timestamp: u32)

  /** The ids the menu offers: 1 open here, 2 open on the original workspace, 3 close. */
  predicate IsItemId(id: int)
  {
    id == 1 || id == 2 || id == 3
  }

  /** The label of item `id` for window `w`. */
  function ItemLabel(w: WindowInfo, id: int): string
    requires IsItemId(id)
  {
    if id == 1 then "Open " + w.title
    else if id == 2 then "Open on original workspace (" + IntToString(w.workspace.id) + ")"
    else "Close " + w.title
  }

  /** The properties `GetGroupProperties` reports for item `id`. */
  function ItemProps(w: WindowInfo, id: int): Props
    requires IsItemId(id)
  {
    map["label" := Str(ItemLabel(w, id)), "enabled" := Flag(true), "visible" := Flag(true), "type" := Str("standard")]
  }

  /** The requested ids that name an item, in request order. */
  function KnownIds(ids: seq<i32>): (r: seq<i32>)
    ensures |r| <= |ids|
    ensures forall k :: 0 <= k < |r| ==> IsItemId(r[k])
  {
    if ids == [] then []
    else KnownIds(ids[..|ids| - 1]) + (if IsItemId(ids[|ids| - 1]) then [ids[|ids| - 1]] else [])
  }

  /** A click is handled only when it is a "clicked" event on one of the three items. */
  predicate Handled(id: int, eventId: string)
  {
    eventId == "clicked" && IsItemId(id)
  }

  /** The dispatches a click on item `id` of window `w` issues. */
  function ClickDispatches(h: Hyprland, w: WindowInfo, id: int): seq<string>
    requires IsItemId(id)
  {
    if id == 1 then OpenOnActiveDispatches(h, w.address)
    else if id == 2 then MoveThenFocus(h, w.workspace.id, w.address)
    else [CloseCommand(w.address)]
  }

  /** The dispatches `Event(id, eventId, ..)` issues. */
  function EventDispatches(h: Hyprland, w: WindowInfo, id: int, eventId: string): seq<string>
  {
    if Handled(id, eventId) then ClickDispatches(h, w, id) else []
  }

  /** The queries `Event(id, eventId, ..)` runs: only item 1 asks for the active workspace. */
  function EventQueries(id: int, eventId: string): seq<string>
  {
    if eventId == "clicked" && id == 1 then ["activeworkspace"] else []
  }

  function GroupDispatches(h: Hyprland, w: WindowInfo, events: seq<MenuEvent>): seq<string>
  {
    if events == [] then []
    else
      var e := events[|events| - 1];
      GroupDispatches(h, w, events[..|events| - 1]) + EventDispatches(h, w, e.id, e.eventId)
  }

  function GroupQueries(events: seq<MenuEvent>): seq<string>
  {
    if events == [] then []
    else
      var e := events[|events| - 1];
      GroupQueries(events[..|events| - 1]) + EventQueries(e.id, e.eventId)
  }

  /** How many events of the batch are handled clicks. */
  function HandledCount(events: seq<MenuEvent>): (n: nat)
    ensures n <= |events|
  {
    if events == [] then 0
    else
      var e := events[|events| - 1];
      HandledCount(events[..|events| - 1]) + (if Handled(e.id, e.eventId) then 1 else 0)
  }

  /** One more event extends the batch's effects by that event's. */
  lemma GroupStep(h: Hyprland, w: WindowInfo, events: seq<MenuEvent>, i: nat)
    requires i < |events|
    ensures GroupDispatches(h, w, events[..i + 1]) == GroupDispatches(h, w, events[..i]) + EventDispatches(h, w, events[i].id, events[i].eventId)
    ensures GroupQueries(events[..i + 1]) == GroupQueries(events[..i]) + EventQueries(events[i].id, events[i].eventId)
    ensures HandledCount(events[..i + 1]) == HandledCount(events[..i]) + (if Handled(events[i].id, events[i].eventId) then 1 else 0)
  {
    var pre := events[..i + 1];
    assert pre == events[..i] + [events[i]];
    HandledCountAppend(events[..i], [events[i]]);
  }

  class DbusMenu {
    const windowInfo: WindowInfo
    const exitNotify: ExitSignal
    const hyprland: Hyprland

    constructor (windowInfo: WindowInfo, exitNotify: ExitSignal, hyprland: Hyprland)
      ensures this.windowInfo == windowInfo && this.exitNotify == exitNotify && this.hyprland == hyprland
    {
      this.windowInfo := windowInfo;
      this.exitNotify := exitNotify;
      this.hyprland := hyprland;
    }

    /** `GetLayout`: the same layout whatever the parent id, depth and
        property names asked for. */
    function GetLayout(parentId: i32, recursionDepth: i32, propertyNames: seq<string>): (r: Layout)
      ensures r.revision == 2 && r.root.id == 0
      ensures r.root.props == map["children-display" := Str("submenu")]
      ensures |r.root.children| == 3
      ensures forall k :: 0 <= k < 3 ==> r.root.children[k].id == k + 1
                                         && r.root.children[k].children == []
                                         && r.root.children[k].props
                                            == map["type" := Str("standard"), "label" := Str(ItemLabel(windowInfo, k + 1))]
    {
      var item := (id: i32) requires IsItemId(id) =>
        MenuItem(id, map["type" := Str("standard"), "label" := Str(ItemLabel(windowInfo, id))], []);
      Layout(2, MenuItem(0, map["children-display" := Str("submenu")], [item(1), item(2), item(3)]))
    }

    /** `GetGroupProperties`: one entry per requested id that names an item,
        in request order; other ids are skipped. */
    method GetGroupProperties(ids: seq<i32>, propertyNames: seq<string>) returns (r: seq<(i32, Props)>)
      ensures |r| == |KnownIds(ids)|
      ensures forall k :: 0 <= k < |r| ==> r[k].0 == KnownIds(ids)[k] && r[k].1 == ItemProps(windowInfo, r[k].0)
    {
      r := [];
      for i := 0 to |ids|
        invariant |r| == |KnownIds(ids[..i])|
        invariant forall k :: 0 <= k < |r| ==> r[k].0 == KnownIds(ids[..i])[k] && r[k].1 == ItemProps(windowInfo, r[k].0)
      {
        assert ids[..i + 1][..i] == ids[..i];
        var id := ids[i];
        if !IsItemId(id) {
          continue;
        }
        r := r + [(id, ItemProps(windowInfo, id))];
      }
      assert ids[..|ids|] == ids;
    }

    /** `handle_open_on_active`. */
    method HandleOpenOnActive() returns (res: Outcome)
      modifies hyprland
      ensures hyprland.dispatched == old(hyprland.dispatched) + OpenOnActiveDispatches(hyprland, windowInfo.address)
      ensures hyprland.queried == old(hyprland.queried) + ["activeworkspace"]
      ensures res == OpenOnActiveReply(hyprland, windowInfo.address)
    {
      var ws := hyprland.ActiveWorkspace();
      if ws.Err? {
        return Fail(ws.error);
      }
      res := hyprland.Dispatch(MoveCommand(ws.value.id, windowInfo.address));
      if res.Fail? {
        return;
      }
      res := hyprland.Dispatch(FocusCommand(windowInfo.address));
    }

    /** `handle_open_on_original`. */
    method HandleOpenOnOriginal() returns (res: Outcome)
      modifies hyprland
      ensures hyprland.dispatched == old(hyprland.dispatched) + MoveThenFocus(hyprland, windowInfo.workspace.id, windowInfo.address)
      ensures hyprland.queried == old(hyprland.queried)
      ensures res == MoveThenFocusReply(hyprland, windowInfo.workspace.id, windowInfo.address)
    {
      res := hyprland.Dispatch(MoveCommand(windowInfo.workspace.id, windowInfo.address));
      if res.Fail? {
        return;
      }
      res := hyprland.Dispatch(FocusCommand(windowInfo.address));
    }

    /** `handle_close`. */
    method HandleClose() returns (res: Outcome)
      modifies hyprland
      ensures hyprland.dispatched == old(hyprland.dispatched) + [CloseCommand(windowInfo.address)]
      ensures hyprland.queried == old(hyprland.queried)
      ensures res == hyprland.DispatchReply(CloseCommand(windowInfo.address))
    {
      res := hyprland.Dispatch(CloseCommand(windowInfo.address));
    }

    /** `Event`: a click on item 1, 2 or 3 runs its action and then fires the
        exit signal once, whether or not the action failed; any other event
        does nothing. */
    method Event(id: i32, eventId: string, data: Value, timestamp: u32)
      modifies hyprland, exitNotify
      ensures hyprland.dispatched == old(hyprland.dispatched) + EventDispatches(hyprland, windowInfo, id, eventId)
      ensures hyprland.queried == old(hyprland.queried) + EventQueries(id, eventId)
      ensures exitNotify.notified == old(exitNotify.notified) + (if Handled(id, eventId) then 1 else 0)
    {
      if eventId != "clicked" {
        return;
      }
      var res;
      if id == 1 {
        res := HandleOpenOnActive();
      } else if id == 2 {
        res := HandleOpenOnOriginal();
      } else if id == 3 {
        res := HandleClose();
      } else {
        return;
      }
      // A failed action is only logged.
      exitNotify.NotifyOne();
    }

    /** `EventGroup`: the events of the batch, one after the other. */
    method EventGroup(events: seq<MenuEvent>)
      modifies hyprland, exitNotify
      ensures hyprland.dispatched == old(hyprland.dispatched) + GroupDispatches(hyprland, windowInfo, events)
      ensures hyprland.queried == old(hyprland.queried) + GroupQueries(events)
      ensures exitNotify.notified == old(exitNotify.notified) + HandledCount(events)
    {
      ghost var d0, q0, n0 := hyprland.dispatched, hyprland.queried, exitNotify.notified;
      for i := 0 to |events|
        invariant hyprland.dispatched == d0 + GroupDispatches(hyprland, windowInfo, events[..i])
        invariant hyprland.queried == q0 + GroupQueries(events[..i])
        invariant exitNotify.notified == n0 + HandledCount(events[..i])
      {
        var e := events[i];
        Event(e.id, e.eventId, e.data, e.timestamp);
        GroupStep(hyprland, windowInfo, events, i);
      }
      assert events[..|events|] == events;
    }

    function AboutToShow(id: i32): bool
    {
      false
    }

    function AboutToShowGroup(ids: seq<i32>): (seq<i32>, seq<i32>)
    {
      ([], [])
    }

    function Version(): u32
    {
      3
    }

    function TextDirection(): string
    {
      "ltr"
    }

    function Status(): string
    {
      "normal"
    }
  }

  /** The fixed members of the menu interface: nothing ever needs updating
      before it is shown, version 3, left to right, status "normal". */
  lemma MenuConstants(m: DbusMenu, id: i32, ids: seq<i32>)
    ensures !m.AboutToShow(id) && m.AboutToShowGroup(ids) == ([], [])
    ensures m.Version() == 3 && m.TextDirection() == "ltr" && m.Status() == "normal"
  {
  }

  /** `GetGroupProperties` reports the same label for an item as `GetLayout`. */
  lemma GroupLabelsMatchLayout(m: DbusMenu, id: i32, parentId: i32, depth: i32, names: seq<string>)
    requires IsItemId(id)
    ensures ItemProps(m.windowInfo, id)["label"] == m.GetLayout(parentId, depth, names).root.children[id - 1].props["label"]
    ensures ItemProps(m.windowInfo, id)["type"] == m.GetLayout(parentId, depth, names).root.children[id - 1].props["type"]
  {
  }

  /** Exactly the requested ids 1, 2 and 3 are answered, each as often as asked. */
  lemma {:induction false} KnownIdsCounts(ids: seq<i32>, id: i32)
    ensures multiset(KnownIds(ids))[id] == if IsItemId(id) then multiset(ids)[id] else 0
  {
    if ids != [] {
      var init := ids[..|ids| - 1];
      KnownIdsCounts(init, id);
      assert ids == init + [ids[|ids| - 1]];
    }
  }

  /** A non-click event, or a click on an id the menu does not have, does nothing. */
  lemma IgnoredEvents(h: Hyprland, w: WindowInfo, id: i32, eventId: string)
    requires eventId != "clicked" || !IsItemId(id)
    ensures EventDispatches(h, w, id, eventId) == [] && !Handled(id, eventId)
    ensures eventId != "clicked" ==> EventQueries(id, eventId) == []
  {
  }

  /** Clicking "Open": the active workspace W is queried, then the window is
      moved to W and focused; a failed move skips the focus. */
  lemma ClickOpenOnActive(h: Hyprland, w: WindowInfo, ws: Workspace)
    requires h.ActiveWorkspaceReply() == Ok(ws)
    ensures EventDispatches(h, w, 1, "clicked") == MoveThenFocus(h, ws.id, w.address)
    ensures MoveCommand(ws.id, w.address) !in h.failing ==>
              EventDispatches(h, w, 1, "clicked") == [MoveCommand(ws.id, w.address), FocusCommand(w.address)]
    ensures MoveCommand(ws.id, w.address) in h.failing ==>
              EventDispatches(h, w, 1, "clicked") == [MoveCommand(ws.id, w.address)]
  {
  }

  /** Clicking "Open on original workspace" moves the window to the workspace
      it was minimized from, then focuses it; clicking "Close" closes it. */
  lemma ClickOriginalAndClose(h: Hyprland, w: WindowInfo)
    ensures MoveCommand(w.workspace.id, w.address) !in h.failing ==>
              EventDispatches(h, w, 2, "clicked") == [MoveCommand(w.workspace.id, w.address), FocusCommand(w.address)]
    ensures EventDispatches(h, w, 3, "clicked") == [CloseCommand(w.address)]
  {
  }

  lemma {:induction false} HandledCountAppend(a: seq<MenuEvent>, b: seq<MenuEvent>)
    ensures HandledCount(a + b) == HandledCount(a) + HandledCount(b)
    decreases |b|
  {
    if b == [] {
      assert a + b == a;
    } else {
      var ab := a + b;
      assert ab[..|ab| - 1] == a + b[..|b| - 1] && ab[|ab| - 1] == b[|b| - 1];
      HandledCountAppend(a, b[..|b| - 1]);
    }
  }
}
