/** The interactive window picker (src/menu.rs): list the minimized windows
    as "<title> (<address>)" lines, read back the chosen line and restore
    that window. */
module Selection {
  import opened Base
  import opened Compositor
  import opened WindowStack

  /** `str::rfind(c)`: the index of the last occurrence of `c`. */
  function LastIndexOf(s: string, c: char): (r: Option<nat>)
    ensures r.Some? ==> r.value < |s| && s[r.value] == c && forall k :: r.value < k < |s| ==> s[k] != c
    ensures r.None? ==> forall k :: 0 <= k < |s| ==> s[k] != c
  {
    if s == [] then None
    else if s[|s| - 1] == c then Some(|s| - 1)
    else LastIndexOf(s[..|s| - 1], c)
  }

  /** The last occurrence is the one with no occurrence after it. */
  lemma LastIndexOfIs(s: string, c: char, i: nat)
    requires i < |s| && s[i] == c && forall k :: i < k < |s| ==> s[k] != c
    ensures LastIndexOf(s, c) == Some(i)
  {
  }

  /** What `parse_address_from_selection` does with a selection: the text
      between the last '(' and the last ')'; nothing when either is missing;
      a panic (slicing backwards) when the last ')' comes before the last '('. */
  datatype Parsed = Found(address: string) | NotFound | SlicePanic

  function ParseAddressFromSelection(selection: string): (r: Parsed)
    ensures r.NotFound? <==> '(' !in selection || ')' !in selection
    ensures r.Found? ==> exists i, j :: 0 <= i < j < |selection| && selection[i] == '(' && selection[j] == ')'
                                        && r.address == selection[i + 1..j]
                                        && (forall k :: i < k < |selection| ==> selection[k] != '(')
                                        && (forall k :: j < k < |selection| ==> selection[k] != ')')
    ensures r.SlicePanic? <==> exists i :: 0 <= i < |selection| && selection[i] == '('
                                          && (forall k :: i < k < |selection| ==> selection[k] != '(')
                                          && ')' in selection && ')' !in selection[i..]
  {
    match LastIndexOf(selection, '(')
    case None => NotFound
    case Some(start) =>
      match LastIndexOf(selection, ')')
      case None => NotFound
      case Some(end) =>
        assert selection[end] in selection[start..] <== start <= end;
        if start + 1 > end then
          assert ')' !in selection[start..] by {
            forall k | 0 <= k < |selection[start..]| ensures selection[start..][k] != ')' {
              assert selection[start + k] != ')';
            }
          }
          SlicePanic
        else Found(selection[start + 1..end])
  }

  /** One line of the picker: "<title> (<address>)". */
  function ChoiceLine(w: WindowInfo): string
  {
    w.title + " (" + w.address + ")"
  }

  function ChoiceLines(windows: seq<WindowInfo>): (r: seq<string>)
    ensures |r| == |windows| && forall i :: 0 <= i < |windows| ==> r[i] == ChoiceLine(windows[i])
  {
    if windows == [] then [] else ChoiceLines(windows[..|windows| - 1]) + [ChoiceLine(windows[|windows| - 1])]
  }

  /** The picker's input: the lines joined with "\n", no final terminator. */
  function Choices(windows: seq<WindowInfo>): string
  {
    if windows == [] then ""
    else if |windows| == 1 then ChoiceLine(windows[0])
    else Choices(windows[..|windows| - 1]) + "\n" + ChoiceLine(windows[|windows| - 1])
  }

  /** Choosing the line of a window gives back its address, whatever its
      title, as long as the address has no parentheses. */
  lemma ChoiceRoundTrip(w: WindowInfo)
    requires '(' !in w.address && ')' !in w.address
    ensures ParseAddressFromSelection(ChoiceLine(w)) == Found(w.address)
  {
    var line := ChoiceLine(w);
    var open, close := |w.title| + 1, |line| - 1;
    assert line[open] == '(' && line[close] == ')';
    assert forall k :: open < k < close ==> line[k] == w.address[k - open - 1];
    LastIndexOfIs(line, '(', open);
    LastIndexOfIs(line, ')', close);
    assert line[open + 1..close] == w.address;
  }

  /** The picker's input, read line by line, is one choice line per window,
      in order. */
  lemma {:induction false} ChoicesAsJoin(windows: seq<WindowInfo>)
    requires windows != []
    ensures Choices(windows) + "\n" == Join(ChoiceLines(windows))
    decreases |windows|
  {
    var n := |windows|;
    var init := windows[..n - 1];
    if n == 1 {
      assert ChoiceLines(windows) == [ChoiceLine(windows[0])];
      assert ChoiceLines(windows)[..0] == [];
    } else {
      ChoicesAsJoin(init);
      assert ChoiceLines(windows)[..n - 1] == ChoiceLines(init);
    }
  }

  lemma ChoicesReadBack(windows: seq<WindowInfo>)
    requires windows != []
    requires forall i :: 0 <= i < |windows| ==> CleanLine(ChoiceLine(windows[i]))
    ensures Lines(Choices(windows) + "\n") == ChoiceLines(windows)
  {
    var lines := ChoiceLines(windows);
    assert AllClean(lines);
    ChoicesAsJoin(windows);
    LinesOfJoinClean(lines);
  }

  /** The parser on the examples it is documented with: a title and an
      address, and empty parentheses. */
  lemma ParseExamplesFound()
    ensures ParseAddressFromSelection("Title (0x123abc)") == Found("0x123abc")
    ensures ParseAddressFromSelection("Empty ()") == Found("")
  {
    var s := "Title (0x123abc)";
    LastIndexOfIs(s, '(', 6);
    LastIndexOfIs(s, ')', 15);
    assert s[7..15] == "0x123abc";
    var e := "Empty ()";
    LastIndexOfIs(e, '(', 6);
    LastIndexOfIs(e, ')', 7);
  }

  /** No '(' at all, or a '(' whose partner is the wrong bracket: nothing. */
  lemma ParseExamplesNotFound()
    ensures ParseAddressFromSelection("No Address") == NotFound
    ensures ParseAddressFromSelection("Mismatched (Brackets]") == NotFound
  {
    var n := "No Address";
    assert forall k :: 0 <= k < |n| ==> n[k] != '(';
    var m := "Mismatched (Brackets]";
    assert forall k :: 0 <= k < |m| ==> m[k] != ')';
  }

  /** A ')' only before the last '(': the slice would run backwards. */
  lemma ParseExamplePanics()
    ensures ParseAddressFromSelection(") (") == SlicePanic
  {
    LastIndexOfIs(") (", '(', 2);
    LastIndexOfIs(") (", ')', 0);
  }

  // ---------------------------------------------------------------------------
  // What the picker decides.

  /** How a run of the picker ends before any restore: with an error, with
      nothing to do, with a panic, or with a window to restore. */
  datatype Choice = Abort(error: Error) | Nothing | Panics | Chosen(window: WindowInfo)

  /** The decision of `show_and_restore`, given the minimized windows and a
      launcher that maps the picker's input to the chosen line. */
  function Decide(windows: Result<seq<WindowInfo>>, launcher: string -> Result<string>): (r: Choice)
    ensures r.Chosen? ==> windows.Ok? && r.window in windows.value
    ensures r.Chosen? ==> launcher(Choices(windows.value)).Ok?
                          && ParseAddressFromSelection(launcher(Choices(windows.value)).value) == Found(r.window.address)
  {
    match windows
    case Err(e) => Abort(e)
    case Ok(ws) =>
      if ws == [] then Nothing
      else match launcher(Choices(ws))
        case Err(e) => Abort(e)
        case Ok(selection) =>
          if selection == "" then Nothing
          else match ParseAddressFromSelection(selection)
            case NotFound => Nothing
            case SlicePanic => Panics
            case Found(address) =>
              match FindWindow(ws, address)
              case None => Nothing
              case Some(w) => Chosen(w)
  }

  /** The picker does nothing when there is nothing to pick, when nothing was
      picked, or when the picked line names no listed window. */
  lemma NothingToDo(windows: seq<WindowInfo>, launcher: string -> Result<string>)
    ensures windows == [] ==> Decide(Ok(windows), launcher) == Nothing
    ensures windows != [] && launcher(Choices(windows)) == Ok("") ==> Decide(Ok(windows), launcher) == Nothing
    ensures windows != [] && launcher(Choices(windows)).Ok?
            && ParseAddressFromSelection(launcher(Choices(windows)).value).Found?
            && (forall i :: 0 <= i < |windows| ==>
                  windows[i].address != ParseAddressFromSelection(launcher(Choices(windows)).value).address)
            ==> Decide(Ok(windows), launcher) == Nothing
  {
  }

  /** Picking the line of a listed window selects the first listed window with
      that address. */
  lemma PickingALine(windows: seq<WindowInfo>, i: nat, launcher: string -> Result<string>)
    requires i < |windows| && '(' !in windows[i].address && ')' !in windows[i].address
    requires forall j :: 0 <= j < i ==> windows[j].address != windows[i].address
    requires launcher(Choices(windows)) == Ok(ChoiceLine(windows[i]))
    ensures Decide(Ok(windows), launcher) == Chosen(windows[i])
  {
    var a := windows[i].address;
    var line := ChoiceLine(windows[i]);
    ChoiceRoundTrip(windows[i]);
    assert line != "" && ParseAddressFromSelection(line) == Found(a);
    var found := FindWindow(windows, a);
    var j :| 0 <= j < |windows| && windows[j] == found.value && forall k :: 0 <= k < j ==> windows[k].address != a;
    assert j == i;
  }

  // ---------------------------------------------------------------------------
  // The picker over the shared stack and compositor.

  /** How `show_and_restore` ends: it returns a result, or it panics on a
      backwards slice. */
  datatype Ending = Returned(outcome: Outcome) | Panicked

  class Menu {
    const stack: Stack
    const hyprland: Hyprland

    constructor (stack: Stack, hyprland: Hyprland)
      ensures this.stack == stack && this.hyprland == hyprland
    {
      this.stack := stack;
      this.hyprland := hyprland;
    }

    /** `restore_selected_window`: move the window to the active workspace,
        focus it and drop it from the stack, stopping at the first failure. */
    method RestoreSelectedWindow(w: WindowInfo) returns (r: Outcome)
      requires stack.Valid()
      modifies stack, hyprland
      ensures stack.Valid()
      ensures hyprland.queried == old(hyprland.queried) + ["activeworkspace"]
      ensures hyprland.dispatched == old(hyprland.dispatched) + OpenOnActiveDispatches(hyprland, w.address)
      ensures OpenOnActiveReply(hyprland, w.address).Fail? ==>
                r == OpenOnActiveReply(hyprland, w.address)
                && stack.present == old(stack.present) && stack.content == old(stack.content)
      ensures OpenOnActiveReply(hyprland, w.address).Pass? ==>
                r == old(stack.RemoveReply())
                && stack.present == old(stack.present) && stack.content == old(stack.TextAfterRemove(w.address))
    {
      var ws := hyprland.ActiveWorkspace();
      if ws.Err? {
        return Fail(ws.error);
      }
      r := hyprland.Dispatch(MoveCommand(ws.value.id, w.address));
      if r.Fail? {
        return;
      }
      r := hyprland.Dispatch(FocusCommand(w.address));
      if r.Fail? {
        return;
      }
      r := stack.Remove(w.address);
    }

    /** `show_and_restore`, with the minimized windows and the launcher given. */
    method ShowAndRestore(windows: Result<seq<WindowInfo>>, launcher: string -> Result<string>) returns (r: Ending)
      requires stack.Valid()
      modifies stack, hyprland
      ensures stack.Valid()
      ensures !Decide(windows, launcher).Chosen? ==>
                hyprland.queried == old(hyprland.queried) && hyprland.dispatched == old(hyprland.dispatched)
                && stack.present == old(stack.present) && stack.content == old(stack.content)
      ensures Decide(windows, launcher).Abort? ==> r == Returned(Fail(Decide(windows, launcher).error))
      ensures Decide(windows, launcher).Nothing? ==> r == Returned(Pass)
      ensures Decide(windows, launcher).Panics? ==> r == Panicked
      ensures Decide(windows, launcher).Chosen? ==>
                var w := Decide(windows, launcher).window;
                hyprland.queried == old(hyprland.queried) + ["activeworkspace"]
                && hyprland.dispatched == old(hyprland.dispatched) + OpenOnActiveDispatches(hyprland, w.address)
                && r == Returned(if OpenOnActiveReply(hyprland, w.address).Fail? then OpenOnActiveReply(hyprland, w.address)
                                 else old(stack.RemoveReply()))
                && stack.present == old(stack.present)
                && stack.content == (if OpenOnActiveReply(hyprland, w.address).Fail? then old(stack.content)
                                     else old(stack.TextAfterRemove(w.address)))
    {
      if windows.Err? {
        return Returned(Fail(windows.error));
      }
      var ws := windows.value;
      if ws == [] {
        return Returned(Pass);
      }
      var selection := launcher(Choices(ws));
      if selection.Err? {
        return Returned(Fail(selection.error));
      }
      if selection.value == "" {
        return Returned(Pass);
      }
      var parsed := ParseAddressFromSelection(selection.value);
      if parsed.SlicePanic? {
        return Panicked;
      }
      if parsed.NotFound? {
        return Returned(Pass);
      }
      var found := FindWindow(ws, parsed.address);
      if found.None? {
        return Returned(Pass);
      }
      var restored := RestoreSelectedWindow(found.value);
      if restored.Fail? {
        return Returned(restored);
      }
      r := Returned(Pass);
    }
  }

  /** After a successful restore from the picker, no entry of the stack file
      names the restored window any more. */
  lemma SelectedWindowLeavesStack(st: Stack, address: string)
    requires st.present && !st.readFails && !st.createFails
    ensures st.RemoveReply() == Pass
    ensures forall i :: 0 <= i < |Lines(st.TextAfterRemove(address))| ==> Trim(Lines(st.TextAfterRemove(address))[i]) != address
  {
    RemoveTextLeavesNoMatch(st.content, address);
  }

  /** The picker restoring a window while the active workspace is 5: it is
      moved to workspace 5 and focused, and the restore succeeds. */
  method RestoreSelectedOnWorkspaceFive(address: string) returns (r: Outcome, dispatched: seq<string>)
    ensures r == Pass
    ensures dispatched == ["movetoworkspace 5,address:" + address, "focuswindow address:" + address]
  {
    var stack := new Stack("/tmp/stack", Some(""), false, false, false);
    var hyprland := new Hyprland(map["activeworkspace" := Output(true, WorkspaceObject(Workspace(5)), "")], {}, "");
    var menu := new Menu(stack, hyprland);
    assert hyprland.ExecReply("activeworkspace", WorkspaceShape) == Ok(WorkspaceObject(Workspace(5)));
    assert hyprland.ActiveWorkspaceReply() == Ok(Workspace(5));
    assert MoveCommand(5, address) == "movetoworkspace 5,address:" + address by {
      assert IntToString(5) == "5";
    }
    r := menu.RestoreSelectedWindow(WindowInfo(address, Workspace(1), "Test", "Test"));
    dispatched := hyprland.dispatched;
  }
}
