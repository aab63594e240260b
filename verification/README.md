# hyprland-minimizer, modelled in Dafny

hyprland-minimizer hides a Hyprland window in a system-tray icon and brings it
back later. This project models the core of that program and proves
properties about it:

- the per-user **stack file** of minimized window addresses (`WindowStack`);
- the **compositor facade** that runs `hyprctl` queries and dispatches (`Compositor`);
- the **minimize session** (`Minimize`). It pushes the window, hides it on
  `special:minimized`, registers a tray icon over D-Bus and rolls back when
  that fails. It then waits for the exit signal and cleans up. The two
  background monitors are modelled here too: the state poller and the tray
  watcher.
- **restoring** the last minimized window (`Restore`);
- the **tray icon** (`org.kde.StatusNotifierItem`, `TrayIcon`) and its
  **context menu** (`com.canonical.dbusmenu`, `TrayMenu`);
- the **interactive picker** that lists minimized windows for a launcher and
  restores the chosen one (`Selection`).

Shared vocabulary sits in `Base`:

- optional values;
- `anyhow`-style errors: an outermost message and the messages below it. `Context`
  adds a message on top, as `.context` does. Only messages the program
  itself writes are kept; an io or serde cause is not.
- `i32`/`u32` ranges and decimal formatting;
- `char::is_whitespace`, `str::trim`.

`Signal` holds the exit signal, a counter of `notify_one` calls.
`Config` holds the restore target and its default, `Active`.

How the model is built:

- **The stack file is text.** `Lines` splits it like Rust's `BufRead::lines`
  and `Join` writes it back with one `writeln!` per entry. So the
  push-then-pop round trip is a theorem about the text, and it needs an
  address that holds no line terminator.
- **Failure switches.** A `Stack` has three switches: opening for append,
  opening for reading and creating the file can each fail.
- **Scripted compositor.** A `Hyprland` object is a compositor whose replies
  are scripted. It records every command it is handed, in order, in
  `dispatched` and `queried`.
- **Shared handles.** The tray icon, the menu and the session share one
  `Hyprland` and one `ExitSignal`. This matches the original, where clones
  of a handle share the executor and the `Notify` is shared through an
  `Arc`.
- **Specification functions.** Each method is proved against functions of
  the state before the call: `PopReply`, `TextAfterRemove`,
  `OpenOnActiveDispatches`, `RestoreDispatches`, `DbusReply`, `Decide` and
  others. The lemmas state what those functions promise.

Two places where the code does not do what its own comments or a sibling
check suggest. The model follows the code:

- The state poller's comment at src/minimize.rs:242 says it stops once the
  window is back on "a normal workspace", but the test on the next line is
  `client.workspace.id > 0`. A window on workspace 0 keeps it polling. The
  restore check at src/restore.rs:25-27 counts a window as minimized only
  when its id is `< 0`, so it calls the same window "not minimized".
  `Restore.WorkspaceZeroDisagreement` states the gap for workspace 0.
- With restore target `Original`, `restore_last_minimized` skips the move
  and dispatches only the focus (src/restore.rs:35-45). The window stays on
  whatever workspace it is on. `Restore.MinimizedIsRestored` states both
  targets.

## Model

| member | source | states |
|---|---|---|
| Base.NatToString | src/minimize.rs:179-182 | the `{}` of a non-negative number, here the process id: a non-empty string of decimal digits only |
| Base.IntToString | src/restore.rs:39-42 | the `{}` of an `i32` workspace id: never empty, and a negative id is "-" before the digits of its magnitude (stated with `SignThen`) |
| Base.ParseNatToString | src/minimize.rs:179-182 | reading the digits `{}` printed gives the number back |
| Base.NatToStringInjective | src/minimize.rs:179-182 | different numbers are printed as different strings |
| Base.TrimStart | src/stack.rs:58 | the front half of `trim`: a suffix of the text that does not start with whitespace, and everything dropped is whitespace |
| Base.TrimEnd | src/stack.rs:58 | the back half of `trim`: a prefix of the text that does not end in whitespace, and everything dropped is whitespace |
| Base.Trim | src/stack.rs:58 | `str::trim`, built from `TrimEnd` and `TrimStart`; what it keeps is stated by `TrimIsCore`, `TrimEnds` and `TrimOfTrimmed` |
| Base.TrimIsCore | src/stack.rs:58 | `trim` keeps a slice of the entry and drops only whitespace, at both ends |
| Base.TrimEnds | src/stack.rs:58 | the trimmed entry neither starts nor ends with whitespace |
| Base.TrimOfTrimmed | src/stack.rs:58 | an entry without surrounding whitespace trims to itself |
| WindowStack.GetStackFilePath | src/stack.rs:9-20 | the path is "/tmp/hypr-minimizer-stack-" followed by `$USER`; an unset or empty `$USER` is an error, each with its own message |
| WindowStack.StackFilePerUser | src/stack.rs:15 | two different users never share a stack file |
| WindowStack.AtDefaultPath | src/stack.rs:36-40 | a stack is made exactly when the path can be found, at that path; otherwise the path error is returned |
| WindowStack.Lines | src/stack.rs:82-85 | `BufRead::lines` on the file: split at each '\n', one '\r' before it dropped, no empty line after a final '\n'; its laws are `LinesOfJoin`, `LinesAppend` and `LinesHaveNoNewline` |
| WindowStack.Join | src/stack.rs:88-94 | the text `write_stack` leaves: each entry followed by "\n", in order; read back by `LinesOfJoin` |
| WindowStack.RemoveText | src/stack.rs:53-60 | the file text after `remove`: read, filter out the entries that trim to the address, write back; `RemoveTextLeavesNoMatch` and `RemoveTextIdempotent` state what it guarantees |
| WindowStack.LinesHaveNoNewline | src/stack.rs:82-85 | no entry read from the file holds a '\n' |
| WindowStack.LinesOfJoin | src/stack.rs:76-94 | reading back what `write_stack` wrote gives the entries, except that a '\r' then sitting before the '\n' is lost |
| WindowStack.LinesOfJoinClean | src/stack.rs:76-94 | entries without line terminators read back exactly as written |
| WindowStack.LinesAppend | src/stack.rs:43-49 | appending text after a complete last line adds its lines after the old ones |
| WindowStack.PushedLines | src/stack.rs:43-49 | appending "address\n" adds exactly one entry, at the end, and keeps the earlier entries |
| WindowStack.JoinWellTerminated | src/stack.rs:88-94 | `write_stack` always leaves a file that ends in a line terminator, or is empty |
| WindowStack.RemoveAllConcat | src/stack.rs:58 | the filter of `remove` works entry by entry, so it keeps the relative order of the entries it keeps |
| WindowStack.RemoveAllCounts | src/stack.rs:58 | an entry that trims to the address is gone; every other entry stays, as many times as it was there |
| WindowStack.RemoveAllMembers | src/stack.rs:58 | an entry survives if and only if it was there and does not trim to the address |
| WindowStack.RemoveAllNoMatch | src/stack.rs:58 | when no entry trims to the address, nothing changes |
| WindowStack.RemoveAllIdempotent | src/stack.rs:58 | filtering twice is filtering once |
| WindowStack.RemoveAllKeepsClean | src/stack.rs:58 | filtering never introduces a line terminator |
| WindowStack.RemoveTextLeavesNoMatch | src/stack.rs:53-60 | after `remove(a)` no entry of the file trims to `a` |
| WindowStack.TrimStripCR | src/stack.rs:58 | losing a final '\r' on read does not change what the entry trims to |
| WindowStack.RemoveTextIdempotent | src/stack.rs:53-60 | on a file whose entries hold no line terminator, `remove(a)` twice leaves the same text as once (a lone '\r' at the end of an entry would be lost only on the second rewrite) |
| WindowStack.Stack.Push | src/stack.rs:43-50 | appends "address\n" and creates the file if missing; a failed open is reported and changes nothing |
| WindowStack.Stack.ReadStack | src/stack.rs:76-86 | a missing file reads as no entries; an open failure is an error; otherwise the file's lines |
| WindowStack.Stack.WriteStack | src/stack.rs:88-94 | truncates and writes each entry followed by "\n" (loop invariant: the text so far is `Join` of the entries so far); a failed create changes nothing |
| WindowStack.Stack.PopReply | src/stack.rs:63-73 | what `pop` answers: `None` for a missing file or no entries, the read error if opening fails, the create error if the rewrite fails, else the last entry; `PopKeepsPrefix` and `PopOnEmpty` state it |
| WindowStack.Stack.TextAfterPop | src/stack.rs:63-73 | the file after `pop`: unchanged when there was nothing to pop or an open failed, else the entries before the last one, written back |
| WindowStack.Stack.Pop | src/stack.rs:63-73 | answers and rewrites as `PopReply` and `TextAfterPop` say: missing or empty file gives `None` and no rewrite; otherwise the last entry, with the rest rewritten |
| WindowStack.Stack.RemoveReply | src/stack.rs:53-60 | what `remove` answers: Ok for a missing file, the read or create error when opening fails, else Ok |
| WindowStack.Stack.RemovedFrom | src/stack.rs:53-60 | the file after `remove` when it holds the given text: unchanged when missing or when an open fails, else `RemoveText` of it |
| WindowStack.Stack.TextAfterRemove | src/stack.rs:53-60 | `RemovedFrom` applied to the current file |
| WindowStack.Stack.Remove | src/stack.rs:53-60 | a missing file stays missing and gives Ok; otherwise the file is rewritten without the entries that trim to the address |
| WindowStack.PushThenPop | src/stack.rs:43-73 | on a well-terminated file, after pushing an address without line terminators, the top entry is that address and the entries below it are the earlier ones |
| WindowStack.PopKeepsPrefix | src/stack.rs:63-73 | on a non-empty file whose entries hold no line terminator, `pop` returns the last entry and leaves exactly the entries before it |
| WindowStack.PopOnEmpty | src/stack.rs:63-71 | `pop` on a missing or empty stack answers `None` (or the read error) and leaves the file as it is |
| WindowStack.RemoveInTheMiddle | src/stack.rs:172-179 | removing "addr2-restored" from [addr1, addr2-restored, addr3-restored] leaves [addr1, addr3-restored] |
| WindowStack.Reverse | src/stack.rs:159-183 | the reversal used to state the stack discipline, element by element |
| WindowStack.PushAll | src/stack.rs:165-167 | pushing the addresses one by one onto an empty stack leaves the file `Join` of them, in order (loop invariant over the pushes so far) |
| WindowStack.PopJoined | src/stack.rs:63-73 | on a file written from entries without line terminators, `pop` answers the last entry and leaves the ones before it |
| WindowStack.LastInFirstOut | src/stack.rs:159-183 | pushing addresses a1..an without line terminators onto an empty stack and then popping n times: every pop succeeds, the k-th answers the k-th address from the top, so the answers are an..a1; one more pop yields `None` |
| Compositor.MoveSilentCommand | src/minimize.rs:104-106 | the hiding command, "movetoworkspacesilent special:minimized,address:<a>" |
| Compositor.MoveCommand | src/restore.rs:39-42 | "movetoworkspace <id>,address:<a>" with the id printed as by `{}`, also built at src/dbus/menu.rs:34-37 and 44-47, src/minimize.rs:112-115 and 159-162, src/menu.rs:104-107; `MoveCommandsDistinct` shows different ids give different commands |
| Compositor.FocusCommand | src/restore.rs:45 | "focuswindow address:<a>", also at src/dbus/menu.rs:39 and 49, src/menu.rs:109 |
| Compositor.CloseCommand | src/dbus/menu.rs:55 | "closewindow address:<a>" |
| Compositor.FindWindow | src/hyprland.rs:90-93 | the first client with the address, and `None` exactly when no client has it |
| Compositor.FindWindowFirst | src/hyprland.rs:90-93 | clients after the first match never change the answer |
| Compositor.Hyprland.ExecReply | src/hyprland.rs:63-73 | Ok exactly when the query ran, succeeded and decodes to the requested shape; a non-success status is an error carrying stderr, before any decoding |
| Compositor.Hyprland.Exec | src/hyprland.rs:63-73 | the query reaches the executor unchanged, and the answer is `ExecReply` |
| Compositor.Hyprland.Clients | src/hyprland.rs:63-73 | `exec` of "clients" decoded as a client list |
| Compositor.Hyprland.ActiveWorkspace | src/hyprland.rs:63-73 | `exec` of "activeworkspace" decoded as a workspace |
| Compositor.Hyprland.DispatchReply | src/hyprland.rs:76-83 | a dispatch fails exactly when the executor reports a non-success status |
| Compositor.Hyprland.Dispatch | src/hyprland.rs:76-83 | the command reaches the executor unchanged, even when it then fails; Err exactly on a non-success status |
| Compositor.Hyprland.WindowByAddress | src/hyprland.rs:86-94 | a failed client query is wrapped in "Failed to get client list from Hyprland."; otherwise Ok exactly when some client has the address, giving that client; else "Could not find a window with address '…'" |
| Compositor.Hyprland.GetWindowByAddress | src/hyprland.rs:86-94 | one "clients" query, answered as `WindowByAddress` |
| Compositor.ClientListFailureMessages | src/hyprland.rs:87-89 | a failing "clients" query surfaces with both the context and the original "hyprctl command 'clients' failed: …" message |
| Compositor.MoveThenFocus | src/dbus/menu.rs:43-50 | the move is always dispatched; the focus follows exactly when the move succeeded |
| Compositor.MoveThenFocusReply | src/dbus/menu.rs:43-50 | the pair succeeds exactly when neither dispatch fails |
| Compositor.OpenOnActiveDispatches | src/dbus/menu.rs:32-40 | no dispatch when the active workspace cannot be queried; otherwise move to that workspace, then focus |
| Compositor.OpenOnActiveReply | src/dbus/menu.rs:32-40 | the workspace query's error, else the move's error, else the focus's; Ok when all three pass |
| Compositor.MoveCommandsDistinct | src/dbus/menu.rs:34-37 | move commands for different workspace ids are different strings, for every `i32` id, the negative ids of special workspaces included |
| Compositor.DigitsThenComma | src/restore.rs:39-42 | two digit strings each followed by a text starting with ',' are equal only when the digits are: the comma marks where the `{}` of the id ends |
| Compositor.NatThenComma | src/restore.rs:39-42 | different non-negative ids printed before ",address:…" give different texts |
| Compositor.SignThen | src/restore.rs:39-42 | a negative id prints as "-" followed by the digits of its magnitude |
| Compositor.NegativeThenComma | src/restore.rs:39-42 | different negative ids printed before ",address:…" give different texts |
| Compositor.MixedSignThenComma | src/restore.rs:39-42 | a negative and a non-negative id never print the same before ",address:…" |
| Compositor.IntThenComma | src/restore.rs:39-42 | different `i32` ids of any sign printed before ",address:…" give different texts |
| Signal.ExitSignal.NotifyOne | src/dbus/menu.rs:152 | each `notify_one` is counted once |
| TrayMenu.KnownIds | src/dbus/menu.rs:108-118 | only ids 1, 2 and 3 are answered |
| TrayMenu.KnownIdsCounts | src/dbus/menu.rs:108-118 | each of the ids 1, 2, 3 is answered as often as it was asked for, and no other id is answered |
| TrayMenu.HandledCount | src/dbus/menu.rs:129-153 | a batch notifies at most once per event |
| TrayMenu.HandledCountAppend | src/dbus/menu.rs:129-133 | the notifications of two batches add up |
| TrayMenu.DbusMenu.GetLayout | src/dbus/menu.rs:62-99 | revision 2, root 0 with children-display "submenu", three children with ids 1, 2, 3, each with type "standard" and its label, whatever the arguments |
| TrayMenu.DbusMenu.GetGroupProperties | src/dbus/menu.rs:102-126 | one entry per requested id in {1,2,3}, in request order, with label, enabled, visible and type "standard" |
| TrayMenu.GroupLabelsMatchLayout | src/dbus/menu.rs:107-125 | the label and type reported per item match the layout's |
| TrayMenu.DbusMenu.HandleOpenOnActive | src/dbus/menu.rs:32-40 | queries the active workspace, then moves and focuses, stopping at the first failure |
| TrayMenu.DbusMenu.HandleOpenOnOriginal | src/dbus/menu.rs:43-50 | moves to the workspace the window came from, then focuses; no query |
| TrayMenu.DbusMenu.HandleClose | src/dbus/menu.rs:53-56 | dispatches exactly "closewindow address:<a>" |
| TrayMenu.DbusMenu.Event | src/dbus/menu.rs:136-153 | a click on 1, 2 or 3 runs its action and notifies exactly once even if the action failed; any other event changes nothing |
| TrayMenu.DbusMenu.EventGroup | src/dbus/menu.rs:129-133 | the effects of the batch are those of its events in list order (loop invariant over the prefix handled so far) |
| TrayMenu.MenuConstants | src/dbus/menu.rs:155-176 | AboutToShow is false, AboutToShowGroup is ([], []), Version 3, TextDirection "ltr", Status "normal" |
| TrayMenu.DbusMenu.AboutToShow | src/dbus/menu.rs:159-161 | `about_to_show` answers false for every id: the menu never needs an update |
| TrayMenu.DbusMenu.AboutToShowGroup | src/dbus/menu.rs:155-157 | `about_to_show_group` answers two empty lists for every request |
| TrayMenu.DbusMenu.Version | src/dbus/menu.rs:163-166 | the `version` property is 3 |
| TrayMenu.DbusMenu.TextDirection | src/dbus/menu.rs:168-171 | the `text_direction` property is "ltr" |
| TrayMenu.DbusMenu.Status | src/dbus/menu.rs:173-176 | the `status` property is "normal" |
| TrayMenu.IgnoredEvents | src/dbus/menu.rs:137-146 | a non-click, or a click on an unknown id, dispatches nothing and does not notify |
| TrayMenu.ClickOpenOnActive | src/dbus/menu.rs:31-40 | clicking item 1 moves the window to the active workspace and focuses it; a failed move skips the focus |
| TrayMenu.ClickOriginalAndClose | src/dbus/menu.rs:43-56 | clicking item 2 moves to the original workspace and focuses; item 3 closes |
| TrayIcon.ItemProperties | src/dbus/notifier.rs:40-76 | Category "ApplicationStatus", Status "Active", ItemIsMenu false, Menu "/Menu"; Id and IconName are the class; Title and the tooltip's title are the title; ToolTip is ("", [], title, "") |
| TrayIcon.StatusNotifierItem.Activate | src/dbus/notifier.rs:78-88 | queries the active workspace, moves and focuses stopping at the first failure, and notifies exactly once in every case |
| TrayIcon.StatusNotifierItem.SecondaryActivate | src/dbus/notifier.rs:90-95 | dispatches exactly "closewindow address:<a>" and notifies exactly once; the coordinates play no part |
| TrayIcon.ClicksMatchMenu | src/dbus/notifier.rs:78-95 | a left click does what menu item 1 does, a middle click what item 3 does |
| TrayIcon.ActivateOnWorkspaceSeven | src/dbus/notifier.rs:163-184 | with active workspace 7 the dispatches are exactly "movetoworkspace 7,address:<a>" then "focuswindow address:<a>" |
| Minimize.BusName | src/minimize.rs:179-182 | "org.kde.StatusNotifierItem.minimizer.p" followed by the process id as `{}` prints it; `BusNameParses` and `BusNamesDistinct` state it |
| Minimize.Bus.Setup | src/minimize.rs:18-23 | `setup_dbus_connection` of the bus abstraction: answers the reply it was given, the live setup's being `LiveSetupReply` |
| Minimize.BusNameParses | src/minimize.rs:179-182 | the bus name is "org.kde.StatusNotifierItem.minimizer.p" followed by the decimal process id, which can be read back |
| Minimize.BusNamesDistinct | src/minimize.rs:179-182 | different processes use different bus names |
| Minimize.SetupDbusConnection | src/minimize.rs:174-196 | the icon and the menu are built over the same window, exit signal and compositor; a connection that can be built carries the process's bus name |
| Minimize.LiveSetupReply | src/minimize.rs:30-40 | the live setup answers the bus name or an error, never `None` |
| Minimize.LiveDbusRegistersOwnName | src/minimize.rs:29-44 | with the live setup and a working watcher, registration succeeds under the process's own bus name |
| Minimize.Bus.Register | src/minimize.rs:198-209 | every registration call hands the bus name to the watcher |
| Minimize.DbusReply | src/minimize.rs:120-139 | Ok exactly when setup gave a connection and registration passed; setup errors pass through; `None` gives "Mock D-Bus setup failed"; a failed registration is wrapped in "Failed to register tray icon." |
| Minimize.Minimizer.SetupAndRegisterDbus | src/minimize.rs:120-139 | answers `DbusReply`; `register` is called exactly when setup gave a connection |
| Minimize.Minimizer.MinimizeWindow | src/minimize.rs:98-108 | the push comes first; a failed push means no dispatch; otherwise one "movetoworkspacesilent special:minimized,address:<a>" |
| Minimize.Minimizer.RestoreWindow | src/minimize.rs:111-117 | dispatches the move back to the original workspace; only when it succeeds is the address removed from the stack |
| Minimize.Minimizer.AwaitExitSignal | src/minimize.rs:155-169 | Ctrl-C dispatches the move back to the original workspace, ignoring its result; a notification dispatches nothing |
| Minimize.Minimizer.Minimize | src/minimize.rs:66-95 | the whole session, case by case: a failed push does nothing more; a failed hide keeps the entry on the stack. A failed tray registration moves the window back and removes the entry, returning only the outer message, or the rollback's own error. Otherwise it returns Ok after the wait and the removal, whatever the removal says. The watcher is handed the bus name once, and only when the window was hidden and setup made a connection. |
| Minimize.RollbackRestoresEntries | src/minimize.rs:74-79 | a successful rollback leaves the stack with exactly the entries it had before the session, when the file was well terminated, its entries hold no line terminator and no entry already trims to the address, which itself has no surrounding whitespace or line terminator (otherwise every matching entry goes, as `Minimizer.Minimize`'s ensures state) |
| Minimize.SetupFailureRecovery | src/minimize.rs:311-347 | on an empty stack with a setup that gives `None`, the session fails with "Mock D-Bus setup failed" and the stack is empty afterwards |
| Minimize.ShouldExit | src/minimize.rs:236-251 | keep polling exactly when the query succeeded and the first client with the address is on a workspace with id ≤ 0 |
| Minimize.FirstExit | src/minimize.rs:231-253 | the first poll that ends the session, all earlier ones not ending it |
| Minimize.PollWindowState | src/minimize.rs:231-253 | polls until the first poll that ends the session and then notifies exactly once; no notification while every poll says keep waiting |
| Minimize.RestartCount | src/minimize.rs:220-226 | at most one re-registration per signal |
| Minimize.RestartCountAppend | src/minimize.rs:220-226 | restarts in two runs of signals add up |
| Minimize.RestartCountSingle | src/minimize.rs:222 | a signal counts as a restart exactly when the watcher name gained an owner; unreadable signals and lost owners do not |
| Minimize.IsWatcherRestart | src/minimize.rs:222 | a signal is a restart exactly when it is a `NameOwnerChanged` for the watcher name with a new owner |
| Minimize.WatchForTrayRestarts | src/minimize.rs:212-227 | re-registers the same bus name once per watcher restart, in order, and not at all without a subscription |
| Restore.IsMinimized | src/restore.rs:25-27 | minimized exactly when some client has the address and a negative workspace id |
| Restore.RestoreQueries | src/restore.rs:9-48 | no query without a popped entry; otherwise "clients" first |
| Restore.RestoreDispatches | src/restore.rs:9-48 | at most two dispatches |
| Restore.RestoreReply | src/restore.rs:9-48 | a pop error is returned; an empty stack is Ok; a failed client query is wrapped in "Failed to get client list to verify window existence." |
| Restore.RestoreLastMinimized | src/restore.rs:9-48 | pops first and never pushes back; queries, dispatches and answers as the three functions above say |
| Restore.RestorePopped | src/restore.rs:19-47 | once the stack has answered, queries, dispatches and answers exactly as `RestoreQueries`, `RestoreDispatches` and `RestoreReply` say |
| Restore.NothingToRestore | src/restore.rs:14-17 | an empty or missing stack: no query, no dispatch, Ok |
| Restore.NotMinimizedIsClean | src/restore.rs:29-32 | a window that is gone or on a non-negative workspace: only the client query, no dispatch, Ok |
| Restore.MinimizedIsRestored | src/restore.rs:34-45 | target Active: "movetoworkspace <active>,address:<a>" then "focuswindow address:<a>"; target Original: no workspace query, only the focus |
| Restore.DefaultTargetIsActive | src/config.rs:45-47 | with the default restore target a minimized window is moved to the active workspace and then focused |
| Restore.FailedMoveSkipsFocus | src/restore.rs:39-45 | a failed move is reported and the focus is not dispatched |
| Restore.FailedQueryLosesEntry | src/restore.rs:14-23 | a failed client query returns the wrapped error after the entry is already gone from the stack |
| Restore.MinimizedKeepsPolling | src/restore.rs:25-27 | a window the restore check calls minimized keeps the state poller waiting |
| Restore.WorkspaceZeroDisagreement | src/restore.rs:25-27 | on workspace 0 the restore check says "not minimized" while the poller keeps waiting |
| Restore.RestoreOnWorkspaceThree | src/restore.rs:101-128 | with the window on workspace -99 and active workspace 3, restoring succeeds with exactly "movetoworkspace 3,address:<a>" then "focuswindow address:<a>" |
| Restore.RestoreFromSpecialWorkspace | src/restore.rs:101-128 | an entry on workspace -99 with active workspace 3: the move to 3 and the focus are dispatched, the result is Ok, and the stack is empty afterwards |
| Selection.LastIndexOf | src/menu.rs:116-117 | `rfind`: the last occurrence, or none |
| Selection.ParseAddressFromSelection | src/menu.rs:114-119 | the text strictly between the last '(' and the last ')'; nothing when either is missing; a panic exactly when the last ')' comes before the last '(' |
| Selection.ChoiceRoundTrip | src/menu.rs:114-119 | parsing "<title> (<address>)" gives back the address whenever the address has no parentheses, whatever the title |
| Selection.ChoiceLine | src/menu.rs:37 | one launcher line, "<title> (<address>)"; `ChoiceRoundTrip` reads the address back out of it |
| Selection.Choices | src/menu.rs:35-39 | the launcher's input: the windows' lines joined with "\n"; `ChoicesAsJoin` and `ChoicesReadBack` state it |
| Selection.ChoiceLines | src/menu.rs:35-39 | one line "<title> (<address>)" per window, in order |
| Selection.ChoicesAsJoin | src/menu.rs:35-39 | the launcher's input, plus a final "\n", is the lines each followed by "\n" |
| Selection.ChoicesReadBack | src/menu.rs:35-39 | read line by line, the launcher's input is one choice line per window, in order |
| Selection.ParseExamplesFound | src/menu.rs:180-192 | "Title (0x123abc)" gives "0x123abc" and "Empty ()" gives "" |
| Selection.ParseExamplesNotFound | src/menu.rs:184-188 | "No Address" and "Mismatched (Brackets]" give nothing |
| Selection.ParseExamplePanics | src/menu.rs:118 | ") (" slices backwards and panics |
| Selection.Decide | src/menu.rs:28-63 | a window is chosen only from the listed windows and only when the launcher's line parses to its address |
| Selection.NothingToDo | src/menu.rs:29-54 | no windows, an empty selection, or an address no listed window has: nothing happens |
| Selection.PickingALine | src/menu.rs:47-50 | picking a window's line selects the first listed window with that address |
| Selection.Menu.RestoreSelectedWindow | src/menu.rs:102-111 | queries the active workspace, moves, focuses, then removes from the stack, stopping at the first failure |
| Selection.Menu.ShowAndRestore | src/menu.rs:28-63 | no query, dispatch or stack change unless a listed window was chosen; errors and the panic surface as such; a chosen window is restored as above |
| Selection.SelectedWindowLeavesStack | src/menu.rs:110 | after a successful removal no entry of the stack names the restored window |
| Selection.RestoreSelectedOnWorkspaceFive | src/menu.rs:195-225 | with active workspace 5 the dispatches are exactly "movetoworkspace 5,address:<a>" then "focuswindow address:<a>" |

## Left out

- Process plumbing is not modelled, only its outcomes. This covers the
  D-Bus connection, name acquisition, object serving and the watcher proxy
  (zbus). `setup` and `register` are given answers, and a `Bus` records the
  names handed to the watcher.
- Concurrency is not modelled: `tokio::spawn`, `select!`, the poll interval,
  the 100 ms sleep and Ctrl-C delivery. The session takes which branch of
  the wait fires as a parameter. The two monitors are methods over given
  sequences of observations and are not run beside `Minimize`.
- Minimize.PollWindowState: it takes the answers of successive client
  queries as a sequence, because the original makes a fresh compositor
  handle for each poll. Running out of answers means still polling.
- Subprocesses are not modelled. `LiveExecutor` and the launcher pipe
  (`run_launcher`) are left out. Query outputs are given already decoded,
  as a client list, a workspace or undecodable text, and the launcher is a
  function from the picker's input to its trimmed output or an error.
- Errors after a file is opened are left out: a failed `writeln!`, and a
  failed or invalid UTF-8 line in `lines()`. Only failures to open or create
  the stack file are modelled. A spawn failure of `hyprctl` shows up only as
  a query with no reply; a failed dispatch spawn is not modelled.
- `Stack::minimized`, used by the picker, is not defined in src/stack.rs.
  The picker takes its result as a given `Result` of windows.
- Configuration loading, the command line, logging and `main` are not part
  of this model. Only the restore target and its default are kept.
- Causes from outside the program: an error keeps only the messages the program writes itself.
  Where the code adds a message with `.context`/`.with_context` over an io
  error (src/stack.rs:47, 79, 90) or a serde error (src/hyprland.rs:72), or
  passes an executor error up with `?` (src/hyprland.rs:66), that
  underlying error is not kept.
- The `println!`/`eprintln!` messages carry no behaviour and are not
  modelled.
