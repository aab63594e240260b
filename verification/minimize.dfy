/** The minimize session (src/minimize.rs): push the window onto the stack,
    hide it on the special workspace, put up the tray icon, wait for the exit
    signal and clean up — rolling back when the tray icon cannot be
    registered — together with the two background monitors. */
module Minimize {
  import opened Base
  import opened Compositor
  import opened Signal
  import opened WindowStack
  import TrayIcon
  import TrayMenu

  /** The bus name is this prefix followed by the process id. */
  const BusNamePrefix: string := "org.kde.StatusNotifierItem.minimizer.p"

  /** The well-known name of the tray host's watcher service. */
  const WatcherName: string := "org.kde.StatusNotifierWatcher"

  function BusName(pid: u32): string
  {
    BusNamePrefix + NatToString(pid)
  }

  /** The process id can be read back from the bus name. */
  lemma BusNameParses(pid: u32)
    ensures |BusName(pid)| > |BusNamePrefix| && BusName(pid)[..|BusNamePrefix|] == BusNamePrefix
    ensures ParseNat(BusName(pid)[|BusNamePrefix|..]) == pid
  {
    assert BusName(pid)[|BusNamePrefix|..] == NatToString(pid);
    ParseNatToString(pid);
  }

  /** Two processes never ask for the same bus name. */
  lemma BusNamesDistinct(p: u32, q: u32)
    requires p != q
    ensures BusName(p) != BusName(q)
  {
    BusNameParses(p);
    BusNameParses(q);
  }

  // ---------------------------------------------------------------------------
  // The D-Bus side, behind the interface the session uses.

  /** A session-bus connection as the workflow sees it: what `setup` answers
      (the bus name of the connection, `None` when no connection was made, or
      an error), what `register` answers, and the bus names handed to the
      watcher's `RegisterStatusNotifierItem` so far. */
  class Bus {
    const setupReply: Result<Option<string>>
    const registerReply: Outcome
    var registered: seq<string>

    constructor (setupReply: Result<Option<string>>, registerReply: Outcome)
      ensures this.setupReply == setupReply && this.registerReply == registerReply
      ensures registered == []
    {
      this.setupReply := setupReply;
      this.registerReply := registerReply;
      registered := [];
    }

    method Setup(windowInfo: WindowInfo, exitNotify: ExitSignal, hyprland: Hyprland) returns (r: Result<Option<string>>)
      ensures r == setupReply
    {
      r := setupReply;
    }

    method Register(busName: string) returns (r: Outcome)
      modifies this
      ensures r == registerReply && registered == old(registered) + [busName]
    {
      registered := registered + [busName];
      r := registerReply;
    }
  }

  /** `setup_dbus_connection`: the tray icon and the menu are built over the
      window, the shared exit signal and the shared compositor handle; the
      connection, when it can be built, owns the bus name of this process. */
  method SetupDbusConnection(windowInfo: WindowInfo, exitNotify: ExitSignal, hyprland: Hyprland, pid: u32, connect: Outcome)
    returns (r: Result<string>, item: TrayIcon.StatusNotifierItem, menu: TrayMenu.DbusMenu)
    ensures connect.Fail? ==> r == Err(connect.error)
    ensures connect.Pass? ==> r == Ok(BusName(pid))
    ensures fresh(item) && item.windowInfo == windowInfo && item.exitNotify == exitNotify && item.hyprland == hyprland
    ensures fresh(menu) && menu.windowInfo == windowInfo && menu.exitNotify == exitNotify && menu.hyprland == hyprland
  {
    var busName := BusName(pid);
    item := new TrayIcon.StatusNotifierItem(windowInfo, exitNotify, hyprland);
    menu := new TrayMenu.DbusMenu(windowInfo, exitNotify, hyprland);
    if connect.Fail? {
      return Err(connect.error), item, menu;
    }
    r := Ok(busName);
  }

  /** What `LiveDbus::setup` answers: it never answers `None`. */
  function LiveSetupReply(pid: u32, connect: Outcome): (r: Result<Option<string>>)
    ensures r.Ok? <==> connect.Pass?
    ensures r.Ok? ==> r.value == Some(BusName(pid))
  {
    if connect.Fail? then Err(connect.error) else Ok(Some(BusName(pid)))
  }

  /** What `setup_and_register_dbus` answers. */
  function DbusReply(bus: Bus): (r: Result<string>)
    ensures r.Ok? <==> bus.setupReply.Ok? && bus.setupReply.value.Some? && bus.registerReply.Pass?
    ensures r.Ok? ==> r.value == bus.setupReply.value.value
    ensures bus.setupReply.Err? ==> r == Err(bus.setupReply.error)
    ensures bus.setupReply == Ok(None) ==> r == Err(Fresh("Mock D-Bus setup failed"))
    ensures bus.setupReply.Ok? && bus.setupReply.value.Some? && bus.registerReply.Fail? ==>
              r.Err? && Messages(r.error) == ["Failed to register tray icon."] + Messages(bus.registerReply.error)
  {
    match bus.setupReply
    case Err(e) => Err(e)
    case Ok(None) => Err(Fresh("Mock D-Bus setup failed"))
    case Ok(Some(name)) =>
      if bus.registerReply.Fail? then Err(Context(bus.registerReply.error, "Failed to register tray icon."))
      else Ok(name)
  }

  /** The live connection, once set up, is handed to the watcher under the
      bus name of this process. */
  lemma LiveDbusRegistersOwnName(bus: Bus, pid: u32)
    requires bus.setupReply == LiveSetupReply(pid, Pass) && bus.registerReply == Pass
    ensures DbusReply(bus) == Ok(BusName(pid))
  {
  }

  /** Which branch of the wait ends the session. */
  datatype ExitCause = CtrlC | Notified

  // ---------------------------------------------------------------------------
  // The workflow.

  class Minimizer {
    const stack: Stack
    const windowInfo: WindowInfo
    const hyprland: Hyprland
    const bus: Bus

    constructor (stack: Stack, windowInfo: WindowInfo, hyprland: Hyprland, bus: Bus)
      ensures this.stack == stack && this.windowInfo == windowInfo && this.hyprland == hyprland && this.bus == bus
    {
      this.stack := stack;
      this.windowInfo := windowInfo;
      this.hyprland := hyprland;
      this.bus := bus;
    }

    /** `minimize_window`: push first; only a successful push is followed by
        the move to the special workspace. */
    method MinimizeWindow() returns (r: Outcome)
      requires stack.Valid()
      modifies stack, hyprland
      ensures stack.Valid() && hyprland.queried == old(hyprland.queried)
      ensures stack.appendFails ==> r == Fail(Fresh("Failed to open stack file for appending"))
                                    && hyprland.dispatched == old(hyprland.dispatched)
                                    && stack.present == old(stack.present) && stack.content == old(stack.content)
      ensures !stack.appendFails ==> r == hyprland.DispatchReply(MoveSilentCommand(windowInfo.address))
                                     && hyprland.dispatched == old(hyprland.dispatched) + [MoveSilentCommand(windowInfo.address)]
                                     && stack.present && stack.content == old(stack.content) + windowInfo.address + "\n"
    {
      r := stack.Push(windowInfo.address);
      if r.Fail? {
        return;
      }
      r := hyprland.Dispatch(MoveSilentCommand(windowInfo.address));
    }

    /** `restore_window`: move the window back to the workspace it came from,
        then drop it from the stack; a failed move leaves the stack alone. */
    method RestoreWindow() returns (r: Outcome)
      requires stack.Valid()
      modifies stack, hyprland
      ensures stack.Valid() && hyprland.queried == old(hyprland.queried)
      ensures hyprland.dispatched == old(hyprland.dispatched) + [MoveCommand(windowInfo.workspace.id, windowInfo.address)]
      ensures MoveCommand(windowInfo.workspace.id, windowInfo.address) in hyprland.failing ==>
                r == hyprland.DispatchReply(MoveCommand(windowInfo.workspace.id, windowInfo.address))
                && stack.present == old(stack.present) && stack.content == old(stack.content)
      ensures MoveCommand(windowInfo.workspace.id, windowInfo.address) !in hyprland.failing ==>
                r == old(stack.RemoveReply())
                && stack.present == old(stack.present) && stack.content == old(stack.TextAfterRemove(windowInfo.address))
    {
      r := hyprland.Dispatch(MoveCommand(windowInfo.workspace.id, windowInfo.address));
      if r.Fail? {
        return;
      }
      r := stack.Remove(windowInfo.address);
    }

    /** `setup_and_register_dbus`: set up, then register the bus name with
        the watcher; a failed registration is wrapped in context. */
    method SetupAndRegisterDbus(exitNotify: ExitSignal) returns (r: Result<string>)
      modifies bus
      ensures r == DbusReply(bus)
      ensures bus.setupReply.Ok? && bus.setupReply.value.Some? ==> bus.registered == old(bus.registered) + [bus.setupReply.value.value]
      ensures !(bus.setupReply.Ok? && bus.setupReply.value.Some?) ==> bus.registered == old(bus.registered)
    {
      var setup := bus.Setup(windowInfo, exitNotify, hyprland);
      if setup.Err? {
        return Err(setup.error);
      }
      if setup.value.None? {
        return Err(Fresh("Mock D-Bus setup failed"));
      }
      var busName := setup.value.value;
      var registered := bus.Register(busName);
      if registered.Fail? {
        return Err(Context(registered.error, "Failed to register tray icon."));
      }
      r := Ok(busName);
    }

    /** `await_exit_signal`: an interrupt moves the window back to the
        workspace it came from (ignoring the result); a notification does
        nothing more. */
    method AwaitExitSignal(exit: ExitCause)
      modifies hyprland
      ensures hyprland.queried == old(hyprland.queried)
      ensures hyprland.dispatched == old(hyprland.dispatched)
                                     + (if exit == CtrlC then [MoveCommand(windowInfo.workspace.id, windowInfo.address)] else [])
    {
      if exit == CtrlC {
        var moved := hyprland.Dispatch(MoveCommand(windowInfo.workspace.id, windowInfo.address));
      }
    }

    /** `minimize`: the whole session. The background monitors it spawns are
        modelled on their own below; `exit` says which branch of the wait
        fires. */
    method Minimize(exit: ExitCause) returns (r: Outcome)
      requires stack.Valid()
      modifies stack, hyprland, bus
      ensures stack.Valid() && hyprland.queried == old(hyprland.queried)
      // The watcher is handed this process's bus name exactly once, and only
      // when the window was hidden and setup made a connection.
      ensures bus.registered == old(bus.registered)
                                + (if !stack.appendFails && MoveSilentCommand(windowInfo.address) !in hyprland.failing
                                      && bus.setupReply.Ok? && bus.setupReply.value.Some?
                                   then [bus.setupReply.value.value] else [])
      // The push failed: nothing else happens.
      ensures stack.appendFails ==>
                r == Fail(Fresh("Failed to open stack file for appending"))
                && hyprland.dispatched == old(hyprland.dispatched) && bus.registered == old(bus.registered)
                && stack.present == old(stack.present) && stack.content == old(stack.content)
      // The move to the special workspace failed: the entry stays on the stack.
      ensures !stack.appendFails && MoveSilentCommand(windowInfo.address) in hyprland.failing ==>
                r == hyprland.DispatchReply(MoveSilentCommand(windowInfo.address))
                && hyprland.dispatched == old(hyprland.dispatched) + [MoveSilentCommand(windowInfo.address)]
                && bus.registered == old(bus.registered)
                && stack.present && stack.content == old(stack.content) + windowInfo.address + "\n"
      // The tray icon could not be put up: roll back.
      ensures !stack.appendFails && MoveSilentCommand(windowInfo.address) !in hyprland.failing && DbusReply(bus).Err? ==>
                hyprland.dispatched == old(hyprland.dispatched)
                                       + [MoveSilentCommand(windowInfo.address), MoveCommand(windowInfo.workspace.id, windowInfo.address)]
                && stack.present
                && (MoveCommand(windowInfo.workspace.id, windowInfo.address) in hyprland.failing ==>
                      r == hyprland.DispatchReply(MoveCommand(windowInfo.workspace.id, windowInfo.address))
                      && stack.content == old(stack.content) + windowInfo.address + "\n")
                && (MoveCommand(windowInfo.workspace.id, windowInfo.address) !in hyprland.failing ==>
                      stack.content == stack.RemovedFrom(old(stack.content) + windowInfo.address + "\n", windowInfo.address)
                      && r == (if stack.RemoveReply().Fail? then stack.RemoveReply() else Fail(Fresh(DbusReply(bus).error.message))))
      // The session ran: wait, then drop the entry, whatever the removal says.
      ensures !stack.appendFails && MoveSilentCommand(windowInfo.address) !in hyprland.failing && DbusReply(bus).Ok? ==>
                r == Pass
                && hyprland.dispatched == old(hyprland.dispatched) + [MoveSilentCommand(windowInfo.address)]
                                          + (if exit == CtrlC then [MoveCommand(windowInfo.workspace.id, windowInfo.address)] else [])
                && stack.present
                && stack.content == stack.RemovedFrom(old(stack.content) + windowInfo.address + "\n", windowInfo.address)
    {
      r := MinimizeWindow();
      if r.Fail? {
        return;
      }
      var exitNotify := new ExitSignal();
      var dbus := SetupAndRegisterDbus(exitNotify);
      if dbus.Err? {
        var restored := RestoreWindow();
        if restored.Fail? {
          return restored;
        }
        // Only the outermost message of the D-Bus error survives.
        return Fail(Fresh(dbus.error.message));
      }
      AwaitExitSignal(exit);
      var removed := stack.Remove(windowInfo.address);
      r := Pass;
    }
  }

  /** After a rollback that succeeds, the stack file holds the same entries
      as before the session started. */
  lemma RollbackRestoresEntries(c: string, address: string)
    requires WellTerminated(c) && AllClean(Lines(c))
    requires CleanLine(address) && Trim(address) == address
    requires forall i :: 0 <= i < |Lines(c)| ==> Trim(Lines(c)[i]) != address
    ensures Lines(RemoveText(c + address + "\n", address)) == Lines(c)
  {
    var lines := Lines(c);
    PushedLines(c, address);
    assert Lines(c + address + "\n") == lines + [address];
    RemoveAllConcat(lines, [address], address);
    RemoveAllNoMatch(lines, address);
    assert RemoveAll([address], address) == Keep(address, address) + RemoveAll([], address) == [];
    assert RemoveAll(lines + [address], address) == lines;
    LinesOfJoinClean(lines);
  }

  /** Removing the only entry of an otherwise empty file leaves it empty. */
  lemma OnlyEntryRemoved(st: Stack, c: string, address: string)
    requires st.present && !st.readFails && !st.createFails
    requires c == "" && CleanLine(address) && Trim(address) == address
    ensures st.RemovedFrom(c + address + "\n", address) == ""
  {
    assert Lines(c) == [];
    PushedLines(c, address);
    assert RemoveAll([address], address) == Keep(address, address) + RemoveAll([], address) == [];
  }

  /** The session on a stack that starts empty, with a setup that makes no
      connection: the caller sees "Mock D-Bus setup failed", and the stack is
      empty again afterwards. */
  method SetupFailureRecovery(address: string, workspace: i32) returns (r: Outcome, afterwards: Result<Option<string>>)
    requires CleanLine(address) && Trim(address) == address
    ensures r == Fail(Fresh("Mock D-Bus setup failed"))
    ensures afterwards == Ok(None)
  {
    var stack;
    r, stack := FailedSetupSession(address, workspace);
    assert Lines("") == [];
    afterwards := stack.Pop();
  }

  /** The session of `SetupFailureRecovery`, up to the final look at the stack. */
  method FailedSetupSession(address: string, workspace: i32) returns (r: Outcome, stack: Stack)
    requires CleanLine(address) && Trim(address) == address
    ensures fresh(stack) && stack.Valid() && stack.present && stack.content == ""
    ensures !stack.readFails && !stack.createFails
    ensures r == Fail(Fresh("Mock D-Bus setup failed"))
  {
    stack := new Stack("/tmp/stack", None, false, false, false);
    var w := WindowInfo(address, Workspace(workspace), "Test Window", "TestApp");
    var hyprland := new Hyprland(map[], {}, "");
    var bus := new Bus(Ok(None), Pass);
    var minimizer := new Minimizer(stack, w, hyprland, bus);
    r := minimizer.Minimize(Notified);
    OnlyEntryRemoved(stack, "", address);
  }

  // ---------------------------------------------------------------------------
  // The state poller.

  /** Whether one poll ends the session: the client list could not be read,
      the window is gone, or it sits on a regular (positive) workspace. */
  function ShouldExit(clients: Result<seq<WindowInfo>>, address: string): (r: bool)
    ensures !r <==> clients.Ok?
                    && exists i :: 0 <= i < |clients.value| && clients.value[i].address == address
                                   && clients.value[i].workspace.id <= 0
                                   && forall j :: 0 <= j < i ==> clients.value[j].address != address
  {
    match clients
    case Err(_) => true
    case Ok(cs) =>
      match FindWindow(cs, address)
      case None => true
      case Some(c) =>
        c.workspace.id > 0
  }

  /** The first poll that ends the session, if any does. */
  function FirstExit(polls: seq<Result<seq<WindowInfo>>>, address: string): (r: Option<nat>)
    ensures r.Some? ==> r.value < |polls| && ShouldExit(polls[r.value], address)
                        && forall j :: 0 <= j < r.value ==> !ShouldExit(polls[j], address)
    ensures r.None? ==> forall j :: 0 <= j < |polls| ==> !ShouldExit(polls[j], address)
  {
    if polls == [] then None
    else if ShouldExit(polls[0], address) then Some(0)
    else
      match FirstExit(polls[1..], address)
      case None => None
      case Some(k) => Some(k + 1)
  }

  /** `poll_window_state`, over the answers of the successive client
      queries: poll until one says the session is over, then fire the exit
      signal once. Running out of answers means it is still polling. */
  method PollWindowState(address: string, polls: seq<Result<seq<WindowInfo>>>, exitNotify: ExitSignal)
    returns (count: nat, exited: bool)
    modifies exitNotify
    ensures exited <==> FirstExit(polls, address).Some?
    ensures count == if exited then FirstExit(polls, address).value + 1 else |polls|
    ensures exitNotify.notified == old(exitNotify.notified) + (if exited then 1 else 0)
  {
    count := 0;
    while count < |polls|
      invariant count <= |polls|
      invariant forall j :: 0 <= j < count ==> !ShouldExit(polls[j], address)
      invariant exitNotify.notified == old(exitNotify.notified)
    {
      var clients := polls[count];
      count := count + 1;
      if ShouldExit(clients, address) {
        exitNotify.NotifyOne();
        return count, true;
      }
    }
    exited := false;
  }

  // ---------------------------------------------------------------------------
  // The tray watcher monitor.

  /** A `NameOwnerChanged` signal, or one whose arguments cannot be read. */
  datatype OwnerChange = Unreadable | NameOwnerChanged(name: string, newOwner: Option<string>)

  /** The tray host (re)started: the watcher name gained an owner. */
  predicate IsWatcherRestart(s: OwnerChange)
  {
    s.NameOwnerChanged? && s.name == WatcherName && s.newOwner.Some?
  }

  function RestartCount(signals: seq<OwnerChange>): (n: nat)
    ensures n <= |signals|
  {
    if signals == [] then 0
    else RestartCount(signals[..|signals| - 1]) + (if IsWatcherRestart(signals[|signals| - 1]) then 1 else 0)
  }

  /** `watch_for_tray_restarts`: when the subscription can be made, register
      the bus name again on every watcher restart, ignoring the result. */
  method WatchForTrayRestarts(bus: Bus, busName: string, subscribed: bool, signals: seq<OwnerChange>)
    modifies bus
    ensures !subscribed ==> bus.registered == old(bus.registered)
    ensures subscribed ==> bus.registered == old(bus.registered) + seq(RestartCount(signals), _ => busName)
  {
    if !subscribed {
      return;
    }
    for i := 0 to |signals|
      invariant bus.registered == old(bus.registered) + seq(RestartCount(signals[..i]), _ => busName)
    {
      assert signals[..i + 1] == signals[..i] + [signals[i]];
      RestartCountAppend(signals[..i], [signals[i]]);
      RestartCountSingle(signals[i]);
      if IsWatcherRestart(signals[i]) {
        var _ := bus.Register(busName);
      }
    }
    assert signals[..|signals|] == signals;
  }

  /** Signals about other names, vanishing owners and unreadable signals
      never cause a registration; each restart causes exactly one. */
  lemma {:induction false} RestartCountAppend(a: seq<OwnerChange>, b: seq<OwnerChange>)
    ensures RestartCount(a + b) == RestartCount(a) + RestartCount(b)
    decreases |b|
  {
    if b == [] {
      assert a + b == a;
    } else {
      var ab := a + b;
      assert ab[..|ab| - 1] == a + b[..|b| - 1] && ab[|ab| - 1] == b[|b| - 1];
      RestartCountAppend(a, b[..|b| - 1]);
    }
  }

  lemma RestartCountSingle(s: OwnerChange)
    ensures RestartCount([s]) == if IsWatcherRestart(s) then 1 else 0
    ensures !IsWatcherRestart(Unreadable)
    ensures !IsWatcherRestart(NameOwnerChanged(WatcherName, None))
  {
    assert [s][..0] == [];
  }
}
