/** The compositor facade (src/hyprland.rs): JSON queries and dispatch
    commands sent through `hyprctl`, against scripted replies. */
module Compositor {
  import opened Base

  datatype Workspace = Workspace(id: i32)

  datatype WindowInfo = WindowInfo(address: string, workspace: Workspace, title: string, windowClass: string)

  /** The standard output of a JSON query, already decoded: the two shapes the
      core asks for, or text that decodes as neither. */
  datatype Payload = ClientList(clients: seq<WindowInfo>) | WorkspaceObject(ws: Workspace) | Undecodable

  /** What running `hyprctl -j <command>` produced. */
  datatype Output = Output(success: bool, stdout: Payload, stderr: string)

  /** The type a caller of `exec` asks the JSON to be decoded into. */
  datatype Shape = ClientsShape | WorkspaceShape

  predicate Fits(p: Payload, shape: Shape)
  {
    match shape
    case ClientsShape => p.ClientList?
    case WorkspaceShape => p.WorkspaceObject?
  }

  // ---------------------------------------------------------------------------
  // Command strings.

  function MoveSilentCommand(address: string): string
  {
    "movetoworkspacesilent special:minimized,address:" + address
  }

  function MoveCommand(workspaceId: int, address: string): string
  {
    "movetoworkspace " + IntToString(workspaceId) + ",address:" + address
  }

  function FocusCommand(address: string): string
  {
    "focuswindow address:" + address
  }

  function CloseCommand(address: string): string
  {
    "closewindow address:" + address
  }

  // ---------------------------------------------------------------------------
  // Looking a window up.

  /** `clients.into_iter().find(|c| c.address == address)`. */
  function FindWindow(clients: seq<WindowInfo>, address: string): (r: Option<WindowInfo>)
    ensures r.Some? <==> exists i :: 0 <= i < |clients| && clients[i].address == address
    ensures r.Some? ==> exists i :: 0 <= i < |clients| && clients[i] == r.value
                                    && forall j :: 0 <= j < i ==> clients[j].address != address
    ensures r.Some? ==> r.value.address == address
  {
    if clients == [] then None
    else if clients[0].address == address then Some(clients[0])
    else
      var rest := FindWindow(clients[1..], address);
      assert rest.Some? ==> exists i :: 1 <= i < |clients| && clients[i] == rest.value
                                        && forall j :: 1 <= j < i ==> clients[j].address != address;
      rest
  }

  /** The first match wins, whatever comes after it. */
  lemma FindWindowFirst(clients: seq<WindowInfo>, more: seq<WindowInfo>, address: string)
    requires FindWindow(clients, address).Some?
    ensures FindWindow(clients + more, address) == FindWindow(clients, address)
  {
    if clients[0].address != address {
      assert (clients + more)[1..] == clients[1..] + more;
      FindWindowFirst(clients[1..], more, address);
    }
  }

  // ---------------------------------------------------------------------------
  // The compositor as the rest of the program sees it.

  /** A `Hyprland` handle over an executor whose replies are scripted:
      `replies` holds the output of each JSON query it can run (a command not
      in it cannot be run at all), `failing` the dispatch commands that exit
      with a non-success status. `dispatched` and `queried` record every
      command handed to the executor, in order. Clones of a handle share the
      executor, so the objects that use it share one `Hyprland`. */
  class Hyprland {
    const replies: map<string, Output>
    const failing: set<string>
    const dispatchStderr: string
    var dispatched: seq<string>
    var queried: seq<string>

    constructor (replies: map<string, Output>, failing: set<string>, dispatchStderr: string)
      ensures this.replies == replies && this.failing == failing && this.dispatchStderr == dispatchStderr
      ensures dispatched == [] && queried == []
    {
      this.replies := replies;
      this.failing := failing;
      this.dispatchStderr := dispatchStderr;
      dispatched := [];
      queried := [];
    }

    /** What `exec(command)` yields when the caller decodes into `shape`. */
    function ExecReply(command: string, shape: Shape): (r: Result<Payload>)
      ensures r.Ok? <==> command in replies && replies[command].success && Fits(replies[command].stdout, shape)
      ensures command in replies && !replies[command].success ==>
                r == Err(Fresh("hyprctl command '" + command + "' failed: " + replies[command].stderr))
      ensures r.Ok? ==> r.value == replies[command].stdout
    {
      if command !in replies then Err(Fresh("Failed to execute hyprctl json command: " + command))
      else
        var out := replies[command];
        if !out.success then Err(Fresh("hyprctl command '" + command + "' failed: " + out.stderr))
        else if Fits(out.stdout, shape) then Ok(out.stdout)
        else Err(Fresh("Failed to parse JSON from hyprctl command: " + command))
    }

    /** What `dispatch(command)` yields. */
    function DispatchReply(command: string): (r: Outcome)
      ensures r.Fail? <==> command in failing
    {
      if command in failing then Fail(Fresh("hyprctl dispatch command '" + command + "' failed: " + dispatchStderr))
      else Pass
    }

    /** What `exec::<Vec<WindowInfo>>("clients")` yields. */
    function ClientsReply(): (r: Result<seq<WindowInfo>>)
      ensures r.Ok? <==> ExecReply("clients", ClientsShape).Ok?
    {
      match ExecReply("clients", ClientsShape)
      case Ok(p) => Ok(p.clients)
      case Err(e) => Err(e)
    }

    /** What `exec::<Workspace>("activeworkspace")` yields. */
    function ActiveWorkspaceReply(): (r: Result<Workspace>)
      ensures r.Ok? <==> ExecReply("activeworkspace", WorkspaceShape).Ok?
    {
      match ExecReply("activeworkspace", WorkspaceShape)
      case Ok(p) => Ok(p.ws)
      case Err(e) => Err(e)
    }

    /** `exec`: run the query; a non-success status is an error before any
        decoding; otherwise the output must decode into the requested shape. */
    method Exec(command: string, shape: Shape) returns (r: Result<Payload>)
      modifies this
      ensures r == ExecReply(command, shape)
      ensures r.Ok? ==> Fits(r.value, shape)
      ensures queried == old(queried) + [command] && dispatched == old(dispatched)
    {
      queried := queried + [command];
      if command !in replies {
        return Err(Fresh("Failed to execute hyprctl json command: " + command));
      }
      var output := replies[command];
      if !output.success {
        return Err(Fresh("hyprctl command '" + command + "' failed: " + output.stderr));
      }
      if !Fits(output.stdout, shape) {
        return Err(Fresh("Failed to parse JSON from hyprctl command: " + command));
      }
      r := Ok(output.stdout);
    }

    method Clients() returns (r: Result<seq<WindowInfo>>)
      modifies this
      ensures r == ClientsReply()
      ensures queried == old(queried) + ["clients"] && dispatched == old(dispatched)
    {
      var p := Exec("clients", ClientsShape);
      if p.Err? {
        return Err(p.error);
      }
      r := Ok(p.value.clients);
    }

    method ActiveWorkspace() returns (r: Result<Workspace>)
      modifies this
      ensures r == ActiveWorkspaceReply()
      ensures queried == old(queried) + ["activeworkspace"] && dispatched == old(dispatched)
    {
      var p := Exec("activeworkspace", WorkspaceShape);
      if p.Err? {
        return Err(p.error);
      }
      r := Ok(p.value.ws);
    }

    /** `dispatch`: the command reaches the executor unchanged; the result is
        an error exactly when the executor reports a non-success status. */
    method Dispatch(command: string) returns (r: Outcome)
      modifies this
      ensures r.Fail? <==> command in failing
      ensures r == DispatchReply(command)
      ensures dispatched == old(dispatched) + [command] && queried == old(queried)
    {
      dispatched := dispatched + [command];
      if command in failing {
        return Fail(Fresh("hyprctl dispatch command '" + command + "' failed: " + dispatchStderr));
      }
      r := Pass;
    }

    /** What `get_window_by_address` yields. */
    function WindowByAddress(address: string): (r: Result<WindowInfo>)
      ensures ClientsReply().Err? ==> r == Err(Context(ClientsReply().error, "Failed to get client list from Hyprland."))
      ensures ClientsReply().Ok? ==> (r.Ok? <==> exists i :: 0 <= i < |ClientsReply().value| && ClientsReply().value[i].address == address)
      ensures r.Ok? ==> r.value.address == address && r.value in ClientsReply().value
      ensures ClientsReply().Ok? && r.Err? ==> r == Err(Fresh("Could not find a window with address '" + address + "'"))
    {
      match ClientsReply()
      case Err(e) => Err(Context(e, "Failed to get client list from Hyprland."))
      case Ok(clients) =>
        match FindWindow(clients, address)
        case Some(w) => Ok(w)
        case None => Err(Fresh("Could not find a window with address '" + address + "'"))
    }

    /** `get_window_by_address`: the first client with that address. */
    method GetWindowByAddress(address: string) returns (r: Result<WindowInfo>)
      modifies this
      ensures r == WindowByAddress(address)
      ensures queried == old(queried) + ["clients"] && dispatched == old(dispatched)
    {
      var clients := Clients();
      if clients.Err? {
        return Err(Context(clients.error, "Failed to get client list from Hyprland."));
      }
      var found := FindWindow(clients.value, address);
      if found.None? {
        return Err(Fresh("Could not find a window with address '" + address + "'"));
      }
      r := Ok(found.value);
    }
  }

  /** A failed client query reaches the caller of `get_window_by_address`
      with both its own message and the added context. */
  lemma ClientListFailureMessages(h: Hyprland, stderr: string)
    requires "clients" in h.replies && h.replies["clients"] == Output(false, Undecodable, stderr)
    ensures h.WindowByAddress("any").Err?
    ensures Messages(h.WindowByAddress("any").error)
            == ["Failed to get client list from Hyprland.", "hyprctl command 'clients' failed: " + stderr]
  {
    assert h.ExecReply("clients", ClientsShape) == Err(Fresh("hyprctl command 'clients' failed: " + stderr));
    assert h.ClientsReply() == Err(Fresh("hyprctl command 'clients' failed: " + stderr));
  }

  // ---------------------------------------------------------------------------
  // The shared "move to a workspace, then focus" step of the tray actions.

  /** The dispatches of "move `address` to workspace `ws`, then focus it",
      where a failed move stops before the focus. */
  function MoveThenFocus(h: Hyprland, ws: int, address: string): (r: seq<string>)
    ensures 1 <= |r| <= 2 && r[0] == MoveCommand(ws, address)
    ensures |r| == 2 <==> MoveCommand(ws, address) !in h.failing
    ensures |r| == 2 ==> r[1] == FocusCommand(address)
  {
    if MoveCommand(ws, address) in h.failing then [MoveCommand(ws, address)]
    else [MoveCommand(ws, address), FocusCommand(address)]
  }

  /** Its result: the move's error, else the focus's. */
  function MoveThenFocusReply(h: Hyprland, ws: int, address: string): (r: Outcome)
    ensures r.Pass? <==> MoveCommand(ws, address) !in h.failing && FocusCommand(address) !in h.failing
  {
    if MoveCommand(ws, address) in h.failing then h.DispatchReply(MoveCommand(ws, address))
    else h.DispatchReply(FocusCommand(address))
  }

  /** The dispatches of "open on the active workspace": none when the active
      workspace cannot be queried. */
  function OpenOnActiveDispatches(h: Hyprland, address: string): (r: seq<string>)
    ensures h.ActiveWorkspaceReply().Err? ==> r == []
    ensures h.ActiveWorkspaceReply().Ok? ==> r == MoveThenFocus(h, h.ActiveWorkspaceReply().value.id, address)
  {
    match h.ActiveWorkspaceReply()
    case Err(_) => []
    case Ok(ws) => MoveThenFocus(h, ws.id, address)
  }

  function OpenOnActiveReply(h: Hyprland, address: string): Outcome
  {
    match h.ActiveWorkspaceReply()
    case Err(e) => Fail(e)
    case Ok(ws) => MoveThenFocusReply(h, ws.id, address)
  }

  /** Two different digit strings stay different when each is followed by
      text starting with ','. */
  lemma DigitsThenComma(s1: string, r1: string, s2: string, r2: string)
    requires forall i :: 0 <= i < |s1| ==> '0' <= s1[i] <= '9'
    requires forall i :: 0 <= i < |s2| ==> '0' <= s2[i] <= '9'
    requires |r1| > 0 && r1[0] == ',' && |r2| > 0 && r2[0] == ','
    requires s1 != s2
    ensures s1 + r1 != s2 + r2
  {
    var c1, c2 := s1 + r1, s2 + r2;
    if |s1| < |s2| {
      assert c1[|s1|] != c2[|s1|];
    } else if |s2| < |s1| {
      assert c1[|s2|] != c2[|s2|];
    } else {
      var i :| 0 <= i < |s1| && s1[i] != s2[i];
      assert c1[i] != c2[i];
    }
  }

  /** Two different integers, each written in decimal and followed by text
      starting with ',', give different strings: the sign and the digits
      decide before the comma is reached. */
  lemma IntThenComma(m: int, n: int, q: string)
    requires m != n && |q| > 0 && q[0] == ','
    ensures IntToString(m) + q != IntToString(n) + q
  {
    if m >= 0 && n >= 0 {
      NatThenComma(m, n, q);
    } else if m < 0 && n < 0 {
      NegativeThenComma(m, n, q);
    } else if m < 0 {
      MixedSignThenComma(m, n, q);
    } else {
      MixedSignThenComma(n, m, q);
    }
  }

  lemma NatThenComma(m: nat, n: nat, q: string)
    requires m != n && |q| > 0 && q[0] == ','
    ensures NatToString(m) + q != NatToString(n) + q
  {
    NatToStringInjective(m, n);
    DigitsThenComma(NatToString(m), q, NatToString(n), q);
  }

  lemma NegativeThenComma(m: int, n: int, q: string)
    requires m < 0 && n < 0 && m != n && |q| > 0 && q[0] == ','
    ensures IntToString(m) + q != IntToString(n) + q
  {
    NatThenComma(-m, -n, q);
    PrefixKeepsDistinct("-", NatToString(-m) + q, NatToString(-n) + q);
    SignThen(m, q);
    SignThen(n, q);
  }

  lemma SignThen(m: int, q: string)
    requires m < 0
    ensures IntToString(m) + q == "-" + (NatToString(-m) + q)
  {
  }

  lemma PrefixKeepsDistinct(p: string, x: string, y: string)
    requires x != y
    ensures p + x != p + y
  {
    assert (p + x)[|p|..] == x && (p + y)[|p|..] == y;
  }

  lemma MixedSignThenComma(m: int, n: nat, q: string)
    requires m < 0
    ensures IntToString(m) + q != IntToString(n) + q
  {
    var d := NatToString(n);
    assert (IntToString(m) + q)[0] == '-';
    assert (d + q)[0] == d[0];
  }

  /** Move commands for different workspaces differ, special (negative)
      workspaces included, so a dispatch log shows where the window was sent. */
  lemma MoveCommandsDistinct(ws1: int, ws2: int, address: string)
    requires ws1 != ws2
    ensures MoveCommand(ws1, address) != MoveCommand(ws2, address)
  {
    var p, q := "movetoworkspace ", ",address:" + address;
    var t1, t2 := IntToString(ws1), IntToString(ws2);
    IntThenComma(ws1, ws2, q);
    assert MoveCommand(ws1, address) == p + (t1 + q);
    assert MoveCommand(ws2, address) == p + (t2 + q);
    assert (p + (t1 + q))[|p|..] == t1 + q;
    assert (p + (t2 + q))[|p|..] == t2 + q;
  }
}
