/** The per-user stack file of minimized window addresses (src/stack.rs).

    The file is modelled as its text. `Lines` is how the stack is read back
    (Rust's `BufRead::lines`), `Join` is how it is written (`writeln!` per
    entry), and `push` appends one line of text to whatever is there. */
module WindowStack {
  import opened Base

  const StackFilePrefix: string := "/tmp/hypr-minimizer-stack-"

  /** The stack file's location for the user named by `$USER` (`user` is
      `None` when the variable is unset). */
  function GetStackFilePath(user: Option<string>): (r: Result<string>)
    ensures r.Ok? <==> user.Some? && user.value != ""
    ensures user.None? ==> r == Err(Fresh("Could not find the USER environment variable."))
    ensures user == Some("") ==> r == Err(Fresh("The USER environment variable was empty."))
    ensures r.Ok? ==> |r.value| > |StackFilePrefix| && r.value[..|StackFilePrefix|] == StackFilePrefix
                      && r.value[|StackFilePrefix|..] == user.value
  {
    match user
    case None => Err(Fresh("Could not find the USER environment variable."))
    case Some(name) =>
      if name == "" then Err(Fresh("The USER environment variable was empty."))
      else Ok(StackFilePrefix + name)
  }

  /** Two different users never share a stack file. */
  lemma StackFilePerUser(u1: string, u2: string)
    requires GetStackFilePath(Some(u1)).Ok? && GetStackFilePath(Some(u2)).Ok?
    requires u1 != u2
    ensures GetStackFilePath(Some(u1)).value != GetStackFilePath(Some(u2)).value
  {
    var p1, p2 := GetStackFilePath(Some(u1)).value, GetStackFilePath(Some(u2)).value;
    assert p1[|StackFilePrefix|..] == u1 && p2[|StackFilePrefix|..] == u2;
  }

  // ---------------------------------------------------------------------------
  // Reading and writing lines of text.

  /** Index of the first '\n' in `c`, or `|c|` when there is none. */
  function NewlineIndex(c: string): (k: nat)
    ensures k <= |c|
    ensures k < |c| ==> c[k] == '\n'
    ensures forall i :: 0 <= i < k ==> c[i] != '\n'
  {
    if c == [] || c[0] == '\n' then 0 else 1 + NewlineIndex(c[1..])
  }

  predicate EndsWithCR(l: string)
  {
    |l| > 0 && l[|l| - 1] == '\r'
  }

  /** `lines()` drops the "\r" of a "\r\n" terminator along with the "\n". */
  function StripCR(l: string): string
  {
    if EndsWithCR(l) then l[..|l| - 1] else l
  }

  /** The entries `BufRead::lines` yields for a file holding `c`: the text is
      split at every '\n'; a final piece without '\n' is a line too, unless it
      is empty; a '\r' directly before a '\n' is dropped. */
  function Lines(c: string): seq<string>
    decreases |c|
  {
    if c == [] then []
    else
      var k := NewlineIndex(c);
      if k == |c| then [c] else [StripCR(c[..k])] + Lines(c[k + 1..])
  }

  /** The text `write_stack` leaves in the file: each entry followed by "\n". */
  function Join(s: seq<string>): string
  {
    if s == [] then "" else Join(s[..|s| - 1]) + s[|s| - 1] + "\n"
  }

  /** An address that reads back as itself: it holds no line terminator. */
  predicate CleanLine(l: string)
  {
    '\n' !in l && !EndsWithCR(l)
  }

  predicate AllClean(s: seq<string>)
  {
    forall i :: 0 <= i < |s| ==> CleanLine(s[i])
  }

  /** Text that is empty or ends with a line terminator. */
  predicate WellTerminated(c: string)
  {
    c == [] || c[|c| - 1] == '\n'
  }

  function StripCRs(s: seq<string>): (r: seq<string>)
    ensures |r| == |s| && forall i :: 0 <= i < |s| ==> r[i] == StripCR(s[i])
  {
    if s == [] then [] else [StripCR(s[0])] + StripCRs(s[1..])
  }

  lemma LinesEmpty(c: string)
    ensures Lines(c) == [] <==> c == []
  {
  }

  /** No entry read from a file contains a '\n'. */
  lemma {:induction false} LinesHaveNoNewline(c: string)
    ensures forall i :: 0 <= i < |Lines(c)| ==> '\n' !in Lines(c)[i]
    decreases |c|
  {
    if c != [] {
      var k := NewlineIndex(c);
      if k < |c| {
        LinesHaveNoNewline(c[k + 1..]);
        assert '\n' !in c[..k];
      }
    }
  }

  lemma LinesOfLineThen(l: string, rest: string)
    requires '\n' !in l
    ensures Lines(l + "\n" + rest) == [StripCR(l)] + Lines(rest)
  {
    var c := l + "\n" + rest;
    assert c[|l|] == '\n';
    assert forall i :: 0 <= i < |l| ==> c[i] == l[i];
    assert NewlineIndex(c) == |l|;
    assert c[..|l|] == l;
    assert c[|l| + 1..] == rest;
  }

  lemma {:induction false} JoinCons(x: string, s: seq<string>)
    ensures Join([x] + s) == x + "\n" + Join(s)
    decreases |s|
  {
    if s != [] {
      var t := [x] + s;
      assert t[..|t| - 1] == [x] + s[..|s| - 1];
      JoinCons(x, s[..|s| - 1]);
    }
  }

  lemma JoinAppend(s: seq<string>, x: string)
    ensures Join(s + [x]) == Join(s) + x + "\n"
  {
    assert (s + [x])[..|s|] == s;
  }

  /** Reading back what `write_stack` wrote gives the entries, minus any '\r'
      that then sat in front of a '\n'. */
  lemma {:induction false} LinesOfJoin(s: seq<string>)
    requires forall i :: 0 <= i < |s| ==> '\n' !in s[i]
    ensures Lines(Join(s)) == StripCRs(s)
    decreases |s|
  {
    if s != [] {
      assert s == [s[0]] + s[1..];
      JoinCons(s[0], s[1..]);
      LinesOfLineThen(s[0], Join(s[1..]));
      LinesOfJoin(s[1..]);
    }
  }

  /** Round trip of the file format: entries without line terminators are
      read back exactly as written. */
  lemma LinesOfJoinClean(s: seq<string>)
    requires AllClean(s)
    ensures Lines(Join(s)) == s
  {
    LinesOfJoin(s);
    assert forall i :: 0 <= i < |s| ==> StripCR(s[i]) == s[i];
  }

  /** Appending to text that ends in a line terminator adds the new lines
      after the old ones. */
  lemma {:induction false} NewlineIndexAppend(c: string, d: string)
    requires NewlineIndex(c) < |c|
    ensures NewlineIndex(c + d) == NewlineIndex(c)
    decreases |c|
  {
    if c[0] != '\n' {
      assert (c + d)[1..] == c[1..] + d;
      NewlineIndexAppend(c[1..], d);
    }
  }

  lemma {:induction false} LinesAppend(c: string, d: string)
    requires WellTerminated(c)
    ensures Lines(c + d) == Lines(c) + Lines(d)
    decreases |c|
  {
    if c != [] {
      var k := NewlineIndex(c);
      var rest := c[k + 1..];
      assert k < |c|;
      var cd := c + d;
      NewlineIndexAppend(c, d);
      assert cd[..k] == c[..k];
      assert cd[k + 1..] == rest + d;
      assert Lines(cd) == [StripCR(c[..k])] + Lines(rest + d);
      assert WellTerminated(rest) by {
        if rest != [] { assert rest[|rest| - 1] == c[|c| - 1]; }
      }
      LinesAppend(rest, d);
      assert Lines(c) == [StripCR(c[..k])] + Lines(rest);
      calc {
        Lines(cd);
        [StripCR(c[..k])] + (Lines(rest) + Lines(d));
        ([StripCR(c[..k])] + Lines(rest)) + Lines(d);
      }
    } else {
      assert c + d == d;
    }
  }

  /** What `push` does to the entries: one more at the end. */
  lemma PushedLines(c: string, address: string)
    requires WellTerminated(c) && CleanLine(address)
    ensures Lines(c + address + "\n") == Lines(c) + [address]
    ensures WellTerminated(c + address + "\n")
  {
    assert c + address + "\n" == c + (address + "\n");
    LinesAppend(c, address + "\n");
    LinesOfLineThen(address, "");
    assert address + "\n" + "" == address + "\n";
    assert Lines("") == [];
  }

  lemma JoinWellTerminated(s: seq<string>)
    ensures WellTerminated(Join(s))
  {
  }

  // ---------------------------------------------------------------------------
  // The filter `remove` applies.

  /** The entries whose trimmed text differs from `address`, in their order. */
  function RemoveAll(s: seq<string>, address: string): seq<string>
  {
    if s == [] then [] else Keep(s[0], address) + RemoveAll(s[1..], address)
  }

  /** The entry itself when it survives `remove(address)`, else nothing. */
  function Keep(x: string, address: string): seq<string>
  {
    if Trim(x) != address then [x] else []
  }

  lemma {:induction false} RemoveAllConcat(s: seq<string>, t: seq<string>, a: string)
    ensures RemoveAll(s + t, a) == RemoveAll(s, a) + RemoveAll(t, a)
    decreases |s|
  {
    if s != [] {
      assert (s + t)[0] == s[0] && (s + t)[1..] == s[1..] + t;
      RemoveAllConcat(s[1..], t, a);
      calc {
        RemoveAll(s + t, a);
        Keep(s[0], a) + RemoveAll(s[1..] + t, a);
        Keep(s[0], a) + (RemoveAll(s[1..], a) + RemoveAll(t, a));
        (Keep(s[0], a) + RemoveAll(s[1..], a)) + RemoveAll(t, a);
      }
    } else {
      assert s + t == t;
    }
  }

  /** What `remove` keeps: exactly the entries that do not trim to the
      address, each as often as before; everything else is gone. */
  lemma {:induction false} RemoveAllCounts(s: seq<string>, a: string, x: string)
    ensures multiset(RemoveAll(s, a))[x] == if Trim(x) == a then 0 else multiset(s)[x]
    decreases |s|
  {
    if s != [] {
      var y, t := s[0], s[1..];
      assert s == [y] + t;
      RemoveAllCounts(t, a, x);
      ConsCounts(y, t, a, x);
      KeepCount(y, a, x);
    }
  }

  /** How the first entry and the rest share the counts. */
  lemma ConsCounts(y: string, t: seq<string>, a: string, x: string)
    ensures multiset(RemoveAll([y] + t, a))[x] == multiset(Keep(y, a))[x] + multiset(RemoveAll(t, a))[x]
    ensures multiset([y] + t)[x] == (if y == x then 1 else 0) + multiset(t)[x]
  {
    assert ([y] + t)[1..] == t;
  }

  /** One entry's share in `RemoveAllCounts`. */
  lemma KeepCount(y: string, a: string, x: string)
    ensures multiset(Keep(y, a))[x] == if Trim(x) == a || y != x then 0 else 1
  {
    if Trim(y) != a {
      assert multiset(Keep(y, a)) == multiset{y};
    } else {
      assert multiset(Keep(y, a)) == multiset{};
    }
  }

  lemma RemoveAllMembers(s: seq<string>, a: string, x: string)
    ensures x in RemoveAll(s, a) <==> x in s && Trim(x) != a
  {
    RemoveAllCounts(s, a, x);
  }

  /** `remove` on a stack holding no matching entry changes nothing. */
  lemma {:induction false} RemoveAllNoMatch(s: seq<string>, a: string)
    requires forall i :: 0 <= i < |s| ==> Trim(s[i]) != a
    ensures RemoveAll(s, a) == s
    decreases |s|
  {
    if s != [] {
      var y, t := s[0], s[1..];
      assert Trim(y) != a;
      forall i | 0 <= i < |t|
        ensures Trim(t[i]) != a
      {
        assert t[i] == s[i + 1];
      }
      RemoveAllNoMatch(t, a);
      assert s == [y] + t;
      KeptHead(y, t, a);
    }
  }

  lemma KeptHead(y: string, t: seq<string>, a: string)
    requires Trim(y) != a
    ensures RemoveAll([y] + t, a) == [y] + RemoveAll(t, a)
  {
    assert ([y] + t)[1..] == t;
  }

  lemma DroppedHead(y: string, t: seq<string>, a: string)
    requires Trim(y) == a
    ensures RemoveAll([y] + t, a) == RemoveAll(t, a)
  {
    assert ([y] + t)[1..] == t;
  }

  lemma {:induction false} RemoveAllIdempotent(s: seq<string>, a: string)
    ensures RemoveAll(RemoveAll(s, a), a) == RemoveAll(s, a)
  {
    var r := RemoveAll(s, a);
    forall i | 0 <= i < |r| ensures Trim(r[i]) != a {
      RemoveAllMembers(s, a, r[i]);
    }
    RemoveAllNoMatch(r, a);
  }

  lemma RemoveAllKeepsClean(s: seq<string>, a: string)
    requires AllClean(s)
    ensures AllClean(RemoveAll(s, a))
  {
    var r := RemoveAll(s, a);
    forall i | 0 <= i < |r| ensures CleanLine(r[i]) {
      RemoveAllMembers(s, a, r[i]);
    }
  }

  /** The text `remove` writes back. */
  function RemoveText(c: string, address: string): string
  {
    Join(RemoveAll(Lines(c), address))
  }

  /** After `remove(a)` the file holds no entry that trims to `a`. */
  lemma RemoveTextLeavesNoMatch(c: string, a: string)
    ensures forall i :: 0 <= i < |Lines(RemoveText(c, a))| ==> Trim(Lines(RemoveText(c, a))[i]) != a
  {
    var r := RemoveAll(Lines(c), a);
    LinesHaveNoNewline(c);
    forall i | 0 <= i < |r| ensures '\n' !in r[i] && Trim(r[i]) != a {
      RemoveAllMembers(Lines(c), a, r[i]);
    }
    LinesOfJoin(r);
    forall i | 0 <= i < |r| ensures Trim(StripCR(r[i])) != a {
      TrimStripCR(r[i]);
    }
  }

  lemma TrimStripCR(l: string)
    ensures Trim(StripCR(l)) == Trim(l)
  {
  }

  /** On a file of clean entries, removing twice is removing once. */
  lemma RemoveTextIdempotent(c: string, a: string)
    requires AllClean(Lines(c))
    ensures RemoveText(RemoveText(c, a), a) == RemoveText(c, a)
  {
    var r := RemoveAll(Lines(c), a);
    RemoveAllKeepsClean(Lines(c), a);
    LinesOfJoinClean(r);
    RemoveAllIdempotent(Lines(c), a);
  }

  // ---------------------------------------------------------------------------
  // The stack file.

  /** One stack file: whether it is present, its text, and which file operations
      the environment makes fail (opening for append, for reading, for
      writing). */
  class Stack {
    const path: string
    const appendFails: bool
    const readFails: bool
    const createFails: bool
    var present: bool
    var content: string

    ghost predicate Valid()
      reads this
    {
      present || content == ""
    }

    /** The entries the stack file holds. */
    function Entries(): seq<string>
      reads this
    {
      if present then Lines(content) else []
    }

    /** `Stack::new(path)` over a file that holds `initial`, or is absent. */
    constructor (path: string, initial: Option<string>, appendFails: bool, readFails: bool, createFails: bool)
      ensures Valid()
      ensures this.path == path && this.appendFails == appendFails
      ensures this.readFails == readFails && this.createFails == createFails
      ensures present == initial.Some? && content == (if initial.Some? then initial.value else "")
    {
      this.path := path;
      this.appendFails := appendFails;
      this.readFails := readFails;
      this.createFails := createFails;
      present := initial.Some?;
      content := if initial.Some? then initial.value else "";
    }

    /** `push`: create the file if needed and append the address as one line. */
    method Push(address: string) returns (r: Outcome)
      requires Valid()
      modifies this
      ensures Valid()
      ensures appendFails ==> r == Fail(Fresh("Failed to open stack file for appending"))
                              && present == old(present) && content == old(content)
      ensures !appendFails ==> r == Pass && present && content == old(content) + address + "\n"
    {
      if appendFails {
        return Fail(Fresh("Failed to open stack file for appending"));
      }
      present := true;
      content := content + address + "\n";
      r := Pass;
    }

    /** `read_stack`: the entries of the file; a missing file reads as empty. */
    method ReadStack() returns (r: Result<seq<string>>)
      ensures !present ==> r == Ok([])
      ensures present && readFails ==> r == Err(Fresh("Failed to open stack file for reading"))
      ensures present && !readFails ==> r == Ok(Lines(content))
    {
      if !present {
        return Ok([]);
      }
      if readFails {
        return Err(Fresh("Failed to open stack file for reading"));
      }
      r := Ok(Lines(content));
    }

    /** `write_stack`: truncate the file, then write the entries one line at a time. */
    method WriteStack(s: seq<string>) returns (r: Outcome)
      modifies this
      ensures createFails ==> r == Fail(Fresh("Failed to open stack file for writing"))
                              && present == old(present) && content == old(content)
      ensures !createFails ==> r == Pass && present && content == Join(s)
    {
      if createFails {
        return Fail(Fresh("Failed to open stack file for writing"));
      }
      present := true;
      content := "";
      for i := 0 to |s|
        invariant present && content == Join(s[..i])
      {
        assert s[..i + 1][..i] == s[..i];
        content := content + s[i] + "\n";
      }
      assert s[..|s|] == s;
      r := Pass;
    }

    /** What `pop` answers in the current state. */
    function PopReply(): Result<Option<string>>
      reads this
    {
      if !present then Ok(None)
      else if readFails then Err(Fresh("Failed to open stack file for reading"))
      else
        var lines := Lines(content);
        if lines == [] then Ok(None)
        else if createFails then Err(Fresh("Failed to open stack file for writing"))
        else Ok(Some(lines[|lines| - 1]))
    }

    /** The text `pop` leaves in the file. */
    function TextAfterPop(): string
      reads this
    {
      var lines := Lines(content);
      if !present || readFails || lines == [] || createFails then content
      else Join(lines[..|lines| - 1])
    }

    /** `pop`: remove and return the last entry, rewriting the file; a missing
        or empty file yields `None` and is left as it is. */
    method Pop() returns (r: Result<Option<string>>)
      requires Valid()
      modifies this
      ensures Valid()
      ensures r == old(PopReply())
      ensures present == old(present) && content == old(TextAfterPop())
    {
      if !present {
        return Ok(None);
      }
      var read := ReadStack();
      if read.Err? {
        return Err(read.error);
      }
      var stack := read.value;
      if stack == [] {
        return Ok(None);
      }
      var last := stack[|stack| - 1];
      var written := WriteStack(stack[..|stack| - 1]);
      if written.Fail? {
        return Err(written.error);
      }
      r := Ok(Some(last));
    }

    /** What `remove` answers in the current state. */
    function RemoveReply(): Outcome
      reads this
    {
      if !present then Pass
      else if readFails then Fail(Fresh("Failed to open stack file for reading"))
      else if createFails then Fail(Fresh("Failed to open stack file for writing"))
      else Pass
    }

    /** The text `remove(address)` leaves in the file. */
    function TextAfterRemove(address: string): string
      reads this
    {
      RemovedFrom(content, address)
    }

    /** The text `remove(address)` leaves when the file holds `c`: `c`
        itself when the file is missing or cannot be read or rewritten. */
    function RemovedFrom(c: string, address: string): string
      reads this
    {
      if !present || readFails || createFails then c else RemoveText(c, address)
    }

    /** `remove`: rewrite the file without the entries that trim to `address`;
        a missing file is left missing. */
    method Remove(address: string) returns (r: Outcome)
      requires Valid()
      modifies this
      ensures Valid()
      ensures r == old(RemoveReply())
      ensures present == old(present) && content == old(TextAfterRemove(address))
    {
      if !present {
        return Pass;
      }
      var read := ReadStack();
      if read.Err? {
        return Fail(read.error);
      }
      var newStack := RemoveAll(read.value, address);
      r := WriteStack(newStack);
    }
  }

  /** `Stack::at_default_path`: a stack at the current user's file. */
  method AtDefaultPath(user: Option<string>, initial: Option<string>, appendFails: bool, readFails: bool, createFails: bool)
    returns (r: Result<Stack>)
    ensures r.Ok? <==> GetStackFilePath(user).Ok?
    ensures r.Ok? ==> fresh(r.value) && r.value.Valid() && r.value.path == GetStackFilePath(user).value
    ensures r.Err? ==> r.error == GetStackFilePath(user).error
  {
    var p := GetStackFilePath(user);
    if p.Err? {
      return Err(p.error);
    }
    var st := new Stack(p.value, initial, appendFails, readFails, createFails);
    r := Ok(st);
  }

  // ---------------------------------------------------------------------------
  // Properties of the stack operations.

  /** `push` then `pop` gives back the pushed address and the earlier entries. */
  lemma PushThenPop(c: string, address: string)
    requires WellTerminated(c) && CleanLine(address)
    ensures var lines := Lines(c + address + "\n");
            |lines| > 0 && lines[|lines| - 1] == address && lines[..|lines| - 1] == Lines(c)
  {
    PushedLines(c, address);
  }

  /** `pop` returns the last entry and keeps exactly the entries before it. */
  lemma PopKeepsPrefix(st: Stack)
    requires st.present && !st.readFails && !st.createFails && st.Entries() != []
    requires AllClean(st.Entries())
    ensures st.PopReply() == Ok(Some(st.Entries()[|st.Entries()| - 1]))
    ensures Lines(st.TextAfterPop()) == st.Entries()[..|st.Entries()| - 1]
  {
    var lines := Lines(st.content);
    assert AllClean(lines[..|lines| - 1]);
    LinesOfJoinClean(lines[..|lines| - 1]);
  }

  /** `pop` on a missing or empty stack answers `None` and leaves the file as it is. */
  lemma PopOnEmpty(st: Stack)
    requires st.Entries() == []
    ensures st.PopReply() == Ok(None) || (st.present && st.readFails && st.PopReply().Err?)
    ensures st.TextAfterPop() == st.content
  {
  }

  /** The removal in the middle of the stack: only the matching entry goes,
      the others keep their order. */
  lemma RemoveInTheMiddle()
    ensures RemoveAll(["addr1", "addr2-restored", "addr3-restored"], "addr2-restored") == ["addr1", "addr3-restored"]
  {
    var a := "addr2-restored";
    TrimOfTrimmed("addr1");
    TrimOfTrimmed(a);
    TrimOfTrimmed("addr3-restored");
    KeptHead("addr3-restored", [], a);
    assert ["addr3-restored"] + [] == ["addr3-restored"];
    DroppedHead(a, ["addr3-restored"], a);
    KeptHead("addr1", [a, "addr3-restored"], a);
    assert ["addr1"] + [a, "addr3-restored"] == ["addr1", a, "addr3-restored"];
  }

  /** `pop` on a file that `write_stack` wrote from clean entries answers the
      last entry and leaves the file as if the others had been written. */
  lemma PopJoined(st: Stack, s: seq<string>)
    requires st.present && !st.readFails && !st.createFails
    requires st.content == Join(s) && AllClean(s) && s != []
    ensures st.PopReply() == Ok(Some(s[|s| - 1]))
    ensures st.TextAfterPop() == Join(s[..|s| - 1])
  {
    LinesOfJoinClean(s);
  }

  /** The order in which LIFO pops hand entries back. */
  function Reverse(s: seq<string>): (r: seq<string>)
    ensures |r| == |s| && forall i :: 0 <= i < |s| ==> r[i] == s[|s| - 1 - i]
  {
    if s == [] then [] else Reverse(s[1..]) + [s[0]]
  }

  /** Push each address in turn onto a stack that holds nothing yet. */
  method PushAll(st: Stack, addresses: seq<string>)
    requires st.Valid() && st.content == "" && !st.appendFails
    modifies st
    ensures st.Valid() && (st.present || addresses == []) && st.content == Join(addresses)
  {
    for i := 0 to |addresses|
      invariant st.Valid() && (st.present || i == 0) && st.content == Join(addresses[..i])
    {
      var pushed := st.Push(addresses[i]);
      assert addresses[..i + 1] == addresses[..i] + [addresses[i]];
      JoinAppend(addresses[..i], addresses[i]);
    }
    assert addresses[..|addresses|] == addresses;
  }

  /** LIFO: pushing a1..an onto an empty stack and popping n times yields
      an..a1, and one more pop yields `None`. */
  method LastInFirstOut(st: Stack, addresses: seq<string>) returns (popped: seq<string>, final: Result<Option<string>>)
    requires st.Valid() && st.Entries() == []
    requires !st.appendFails && !st.readFails && !st.createFails
    requires AllClean(addresses)
    modifies st
    ensures popped == Reverse(addresses)
    ensures final == Ok(None)
  {
    LinesEmpty(st.content);
    PushAll(st, addresses);
    assert addresses[..|addresses|] == addresses;
    popped := [];
    var k := |addresses|;
    while k > 0
      invariant 0 <= k <= |addresses|
      invariant st.Valid() && (st.present || k == 0) && st.content == Join(addresses[..k])
      invariant popped == Reverse(addresses[k..])
    {
      PopJoined(st, addresses[..k]);
      assert addresses[..k][..k - 1] == addresses[..k - 1];
      var r := st.Pop();
      assert r == Ok(Some(addresses[k - 1]));
      assert addresses[k - 1..] == [addresses[k - 1]] + addresses[k..];
      popped := popped + [r.value.value];
      k := k - 1;
    }
    assert addresses[0..] == addresses;
    final := st.Pop();
  }
}
