/** Restoring the most recently minimized window (src/restore.rs): pop the
    stack, check the window is still hidden, bring it back and focus it. */
module Restore {
  import opened Base
  import opened Compositor
  import opened WindowStack
  import opened Config
  import Minimize

  /** Whether some client has this address and sits on a special (negative)
      workspace. */
  function IsMinimized(clients: seq<WindowInfo>, address: string): (r: bool)
    ensures r <==> exists i :: 0 <= i < |clients| && clients[i].address == address && clients[i].workspace.id < 0
  {
    if clients == [] then false
    else (clients[0].address == address && clients[0].workspace.id < 0) || IsMinimized(clients[1..], address)
  }

  /** The compositor queries `restore_last_minimized` runs after the stack
      answered `popped`. */
  function RestoreQueries(target: RestoreTarget, h: Hyprland, popped: Result<Option<string>>): (r: seq<string>)
    ensures popped != Ok(None) && popped.Ok? <==> |r| >= 1
    ensures |r| >= 1 ==> r[0] == "clients"
  {
    if popped.Err? || popped.value.None? then []
    else match h.ClientsReply()
      case Err(_) => ["clients"]
      case Ok(clients) =>
        if !IsMinimized(clients, popped.value.value) || target == Original then ["clients"]
        else ["clients", "activeworkspace"]
  }

  /** The dispatches it issues. */
  function RestoreDispatches(target: RestoreTarget, h: Hyprland, popped: Result<Option<string>>): (r: seq<string>)
    ensures |r| <= 2
  {
    if popped.Err? || popped.value.None? then []
    else
      var address := popped.value.value;
      match h.ClientsReply()
      case Err(_) => []
      case Ok(clients) =>
        if !IsMinimized(clients, address) then []
        else if target == Original then [FocusCommand(address)]
        else match h.ActiveWorkspaceReply()
          case Err(_) => []
          case Ok(ws) => MoveThenFocus(h, ws.id, address)
  }

  /** Its result. */
  function RestoreReply(target: RestoreTarget, h: Hyprland, popped: Result<Option<string>>): (r: Outcome)
    ensures popped.Err? ==> r == Fail(popped.error)
    ensures popped == Ok(None) ==> r == Pass
    ensures popped.Ok? && popped.value.Some? && h.ClientsReply().Err? ==>
              r == Fail(Context(h.ClientsReply().error, "Failed to get client list to verify window existence."))
  {
    if popped.Err? then Fail(popped.error)
    else if popped.value.None? then Pass
    else
      var address := popped.value.value;
      match h.ClientsReply()
      case Err(e) => Fail(Context(e, "Failed to get client list to verify window existence."))
      case Ok(clients) =>
        if !IsMinimized(clients, address) then Pass
        else if target == Original then h.DispatchReply(FocusCommand(address))
        else match h.ActiveWorkspaceReply()
          case Err(e) => Fail(Context(e, "Failed to get active workspace for restoration."))
          case Ok(ws) => MoveThenFocusReply(h, ws.id, address)
  }

  /** `restore_last_minimized`: the entry is popped first and never pushed
      back, whatever happens next. */
  method RestoreLastMinimized(target: RestoreTarget, stack: Stack, hyprland: Hyprland) returns (r: Outcome)
    requires stack.Valid()
    modifies stack, hyprland
    ensures stack.Valid()
    ensures stack.present == old(stack.present) && stack.content == old(stack.TextAfterPop())
    ensures r == RestoreReply(target, hyprland, old(stack.PopReply()))
    ensures hyprland.queried == old(hyprland.queried) + RestoreQueries(target, hyprland, old(stack.PopReply()))
    ensures hyprland.dispatched == old(hyprland.dispatched) + RestoreDispatches(target, hyprland, old(stack.PopReply()))
  {
    var popped := stack.Pop();
    r := RestorePopped(target, popped, hyprland);
  }

  /** The rest of `restore_last_minimized`, once the stack has answered
      `popped`: check the window is still hidden, then bring it back. */
  method RestorePopped(target: RestoreTarget, popped: Result<Option<string>>, hyprland: Hyprland) returns (r: Outcome)
    modifies hyprland
    ensures r == RestoreReply(target, hyprland, popped)
    ensures hyprland.queried == old(hyprland.queried) + RestoreQueries(target, hyprland, popped)
    ensures hyprland.dispatched == old(hyprland.dispatched) + RestoreDispatches(target, hyprland, popped)
  {
    if popped.Err? {
      return Fail(popped.error);
    }
    if popped.value.None? {
      return Pass;
    }
    var address := popped.value.value;
    var clients := hyprland.Clients();
    if clients.Err? {
      return Fail(Context(clients.error, "Failed to get client list to verify window existence."));
    }
    if !IsMinimized(clients.value, address) {
      return Pass;
    }
    if target == Active {
      var ws := hyprland.ActiveWorkspace();
      if ws.Err? {
        return Fail(Context(ws.error, "Failed to get active workspace for restoration."));
      }
      r := hyprland.Dispatch(MoveCommand(ws.value.id, address));
      if r.Fail? {
        return;
      }
    }
    r := hyprland.Dispatch(FocusCommand(address));
  }

  // ---------------------------------------------------------------------------
  // Properties.

  /** Nothing to restore: no query, no dispatch, success. */
  lemma NothingToRestore(target: RestoreTarget, h: Hyprland)
    ensures RestoreQueries(target, h, Ok(None)) == [] && RestoreDispatches(target, h, Ok(None)) == []
    ensures RestoreReply(target, h, Ok(None)) == Pass
  {
  }

  /** A window that is gone, or no longer on a special workspace: nothing is
      dispatched and the restore succeeds (the entry stays popped). */
  lemma NotMinimizedIsClean(target: RestoreTarget, h: Hyprland, address: string, clients: seq<WindowInfo>)
    requires h.ClientsReply() == Ok(clients)
    requires forall i :: 0 <= i < |clients| && clients[i].address == address ==> clients[i].workspace.id >= 0
    ensures RestoreDispatches(target, h, Ok(Some(address))) == []
    ensures RestoreQueries(target, h, Ok(Some(address))) == ["clients"]
    ensures RestoreReply(target, h, Ok(Some(address))) == Pass
  {
  }

  /** A minimized window and a working compositor: with target Active it is
      moved to the active workspace and focused; with target Original it is
      only focused, and the active workspace is not asked for. */
  lemma MinimizedIsRestored(h: Hyprland, address: string, clients: seq<WindowInfo>, ws: Workspace)
    requires h.ClientsReply() == Ok(clients) && IsMinimized(clients, address)
    requires h.ActiveWorkspaceReply() == Ok(ws)
    requires h.failing == {}
    ensures RestoreDispatches(Active, h, Ok(Some(address))) == [MoveCommand(ws.id, address), FocusCommand(address)]
    ensures RestoreQueries(Active, h, Ok(Some(address))) == ["clients", "activeworkspace"]
    ensures RestoreReply(Active, h, Ok(Some(address))) == Pass
    ensures RestoreDispatches(Original, h, Ok(Some(address))) == [FocusCommand(address)]
    ensures RestoreQueries(Original, h, Ok(Some(address))) == ["clients"]
    ensures RestoreReply(Original, h, Ok(Some(address))) == Pass
  {
  }

  /** Under the default configuration a minimized window comes back to the
      workspace the user is on. */
  lemma DefaultTargetIsActive(h: Hyprland, address: string, clients: seq<WindowInfo>, ws: Workspace)
    requires h.ClientsReply() == Ok(clients) && IsMinimized(clients, address)
    requires h.ActiveWorkspaceReply() == Ok(ws)
    requires h.failing == {}
    ensures RestoreDispatches(DefaultRestoreTarget, h, Ok(Some(address))) == [MoveCommand(ws.id, address), FocusCommand(address)]
  {
    MinimizedIsRestored(h, address, clients, ws);
  }

  /** A failed move is reported and the focus is not attempted. */
  lemma FailedMoveSkipsFocus(h: Hyprland, address: string, clients: seq<WindowInfo>, ws: Workspace)
    requires h.ClientsReply() == Ok(clients) && IsMinimized(clients, address)
    requires h.ActiveWorkspaceReply() == Ok(ws)
    requires MoveCommand(ws.id, address) in h.failing
    ensures RestoreDispatches(Active, h, Ok(Some(address))) == [MoveCommand(ws.id, address)]
    ensures RestoreReply(Active, h, Ok(Some(address))).Fail?
  {
  }

  /** A failing client query loses the entry: the stack already lost its top
      and the error names the query. */
  lemma FailedQueryLosesEntry(target: RestoreTarget, st: Stack, h: Hyprland)
    requires st.present && !st.readFails && !st.createFails && st.Entries() != [] && AllClean(st.Entries())
    requires h.ClientsReply().Err?
    ensures RestoreDispatches(target, h, st.PopReply()) == []
    ensures RestoreReply(target, h, st.PopReply()).Fail?
    ensures RestoreReply(target, h, st.PopReply()).error.message == "Failed to get client list to verify window existence."
    ensures Lines(st.TextAfterPop()) == st.Entries()[..|st.Entries()| - 1]
  {
    PopKeepsPrefix(st);
  }

  /** The state poller and the restore check read a client list the same way
      for a hidden window: one that counts as minimized keeps the poller
      waiting when it is the first client with its address. */
  lemma MinimizedKeepsPolling(clients: seq<WindowInfo>, address: string, i: nat)
    requires i < |clients| && clients[i].address == address && clients[i].workspace.id < 0
    requires forall j :: 0 <= j < i ==> clients[j].address != address
    ensures IsMinimized(clients, address)
    ensures !Minimize.ShouldExit(Ok(clients), address)
  {
  }

  /** They differ on workspace 0: the restore check does not count such a
      window as minimized, and the poller keeps waiting for it. */
  lemma WorkspaceZeroDisagreement(w: WindowInfo)
    requires w.workspace.id == 0
    ensures !IsMinimized([w], w.address)
    ensures !Minimize.ShouldExit(Ok([w]), w.address)
  {
  }

  /** The compositor of that scenario: the window on special workspace -99,
      the active workspace 3, every dispatch succeeding. */
  lemma RestoreOnWorkspaceThree(h: Hyprland, address: string)
    requires h.replies == map["clients" := Output(true, ClientList([WindowInfo(address, Workspace(-99), "Test", "Test")]), ""),
                              "activeworkspace" := Output(true, WorkspaceObject(Workspace(3)), "")]
    requires h.failing == {}
    ensures RestoreReply(Active, h, Ok(Some(address))) == Pass
    ensures RestoreDispatches(Active, h, Ok(Some(address))) == ["movetoworkspace 3,address:" + address, "focuswindow address:" + address]
  {
    var w := WindowInfo(address, Workspace(-99), "Test", "Test");
    assert h.ExecReply("clients", ClientsShape) == Ok(ClientList([w]));
    assert h.ClientsReply() == Ok([w]);
    assert h.ExecReply("activeworkspace", WorkspaceShape) == Ok(WorkspaceObject(Workspace(3)));
    assert IsMinimized([w], address);
    assert MoveCommand(3, address) == "movetoworkspace 3,address:" + address by {
      assert IntToString(3) == "3";
    }
    MinimizedIsRestored(h, address, [w], Workspace(3));
  }

  /** The scenario of a window pushed onto an empty stack, still on special
      workspace -99, with the active workspace 3: two dispatches, success, and
      the stack is empty afterwards. */
  method RestoreFromSpecialWorkspace(address: string) returns (r: Outcome, dispatched: seq<string>, afterwards: Result<Option<string>>)
    requires CleanLine(address)
    ensures r == Pass
    ensures dispatched == ["movetoworkspace 3,address:" + address, "focuswindow address:" + address]
    ensures afterwards == Ok(None)
  {
    var stack := new Stack("/tmp/stack", None, false, false, false);
    var pushed := stack.Push(address);
    var w := WindowInfo(address, Workspace(-99), "Test", "Test");
    var replies := map["clients" := Output(true, ClientList([w]), ""),
                       "activeworkspace" := Output(true, WorkspaceObject(Workspace(3)), "")];
    var hyprland := new Hyprland(replies, {}, "");
    RestoreOnWorkspaceThree(hyprland, address);
    assert stack.content == Join([address]);
    PopJoined(stack, [address]);
    assert [address][..0] == [];
    r := RestoreLastMinimized(Active, stack, hyprland);
    dispatched := hyprland.dispatched;
    assert stack.content == "" && stack.present;
    afterwards := stack.Pop();
  }
}
