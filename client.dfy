/**
 * `Main`: the diagnostics gate the menu, then the menu loop dispatches each
 * choice to a command until the exit choice.
 */
module Client {
  import opened Wrappers
  import opened Terminal
  import opened Http
  import opened Diagnostics
  import opened Upload
  import opened Deletion
  import opened Listing

  /** One menu command and what it did. */
  datatype Command =
    | UploadCommand(upload: UploadRun)
    | DeleteCommand(deletion: DeleteRun)
    | ListCommand(reply: ListReply, rows: seq<Row>)
    | InvalidChoice(choice: string)

  /** How a session ends. */
  datatype Ending =
    | SetupFailed     // the diagnostics failed; the menu is never shown
    | ExitChosen      // the choice "4"
    | InputEnded      // no console line left at the menu
    | UploadCrashed   // an upload's POST failed in transport, which nothing catches
    | UploadStalled   // the key events ran out inside an upload prompt
    | DeleteStalled   // the key events ran out at a deletion's confirmation

  /**
   * A session: the diagnostics, the menu choices read, the commands run, every
   * request issued in order, and how it ended.
   */
  datatype Session = Session(diagnosis: Diagnosis, choices: seq<string>, commands: seq<Command>, trace: seq<Request>, ending: Ending)

  /** The ending a command forces on the session, if any. */
  function Halt(c: Command): (e: Option<Ending>)
    ensures e == Some(UploadCrashed) <==> c.UploadCommand? && c.upload.end == Crashed
    ensures e == Some(UploadStalled) <==> c.UploadCommand? && c.upload.end == Upload.Stalled
    ensures e == Some(DeleteStalled) <==> c.DeleteCommand? && c.deletion.end == Deletion.Stalled
    ensures e.None? || e == Some(UploadCrashed) || e == Some(UploadStalled) || e == Some(DeleteStalled)
  {
    match c
    case UploadCommand(u) =>
      if u.end == Crashed then Some(UploadCrashed) else if u.end == Upload.Stalled then Some(UploadStalled) else None
    case DeleteCommand(d) => if d.end == Deletion.Stalled then Some(DeleteStalled) else None
    case _ => None
  }

  /** The requests a command issued. */
  function Issued(c: Command): seq<Request> {
    match c
    case UploadCommand(u) => u.issued
    case DeleteCommand(d) => d.issued
    case ListCommand(_, _) => [GetAll]
    case InvalidChoice(_) => []
  }

  /** The requests of a run of commands, in order. */
  function Requests(cs: seq<Command>): seq<Request>
    decreases |cs|
  {
    if cs == [] then [] else Issued(cs[0]) + Requests(cs[1..])
  }

  /** The menu maps "1", "2" and "3" to their commands and every other choice but "4" to a retry. */
  predicate Dispatched(choice: string, c: Command) {
    match c
    case UploadCommand(_) => choice == "1"
    case DeleteCommand(_) => choice == "2"
    case ListCommand(_, _) => choice == "3"
    case InvalidChoice(x) => x == choice && choice != "1" && choice != "2" && choice != "3" && choice != "4"
  }

  /** Every DELETE comes right after the GET of the same key. */
  predicate DeletesFollowLookups(t: seq<Request>) {
    forall p :: 0 <= p < |t| && t[p].DeleteItem? ==> p > 0 && t[p - 1] == GetItem(t[p].key)
  }

  /** Every POST carries a printable key and a value that fits in an `int`. */
  predicate PostsValid(t: seq<Request>) {
    forall p :: 0 <= p < |t| && t[p].PostItem? ==> IsUploadPost(t[p])
  }

  /** Both trace properties survive appending the requests of a command that has them. */
  lemma AppendKeepsGuards(a: seq<Request>, b: seq<Request>)
    requires DeletesFollowLookups(a) && DeletesFollowLookups(b)
    requires PostsValid(a) && PostsValid(b)
    ensures DeletesFollowLookups(a + b) && PostsValid(a + b)
  {
    var t := a + b;
    forall p | 0 <= p < |t| && t[p].DeleteItem?
      ensures p > 0 && t[p - 1] == GetItem(t[p].key)
    {
      if p >= |a| {
        assert t[p] == b[p - |a|];
        assert t[p - 1] == b[p - |a| - 1];
      }
    }
    forall p | 0 <= p < |t| && t[p].PostItem?
      ensures IsUploadPost(t[p])
    {
      if p >= |a| {
        assert t[p] == b[p - |a|];
      }
    }
  }

  /** The requests of every command keep both trace properties. */
  lemma CommandGuards(c: Command)
    requires c.UploadCommand? ==> Accounted(c.upload)
    requires c.DeleteCommand? ==>
               var d := c.deletion;
               d.issued == [] || d.issued == [GetItem(d.key)] || d.issued == [GetItem(d.key), DeleteItem(d.key)]
    ensures DeletesFollowLookups(Issued(c)) && PostsValid(Issued(c))
  {
  }

  /** `Console.ReadLine()`: the next console line, or null when there is none. */
  function NextLine(lines: seq<string>, li: nat): Option<string> {
    if li < |lines| then Some(lines[li]) else None
  }

  /** A command run by the menu and the first console line and key event it left unread. */
  datatype Step = Step(command: Command, nextLine: nat, nextKey: nat)

  /**
   * The `switch` of the menu on a `choice` other than "4", with the console
   * lines from `li` on and the key events from `ki` on, after `trace` was
   * issued.
   */
  function Switch(choice: string, lines: seq<string>, li: nat, keys: seq<KeyInfo>, ki: nat, trace: seq<Request>, server: Server): (s: Step)
    requires li <= |lines| && ki <= |keys| && choice != "4"
    ensures li <= s.nextLine <= |lines| && ki <= s.nextKey <= |keys|
  {
    if choice == "1" then
      var run := UploadFrom(keys, ki, trace, server);
      Step(UploadCommand(run), li, run.next)
    else if choice == "2" then
      var run := HandleDelete(NextLine(lines, li), keys, ki, trace, server);
      Step(DeleteCommand(run), if li < |lines| then li + 1 else li, run.next)
    else if choice == "3" then
      var reply := ReadReply(server(trace + [GetAll]));
      Step(ListCommand(reply, RowsOf(reply)), li, ki)
    else
      Step(InvalidChoice(choice), li, ki)
  }

  /**
   * The switch runs the command its choice names, a deletion consumes one
   * more console line, and the requests of every command keep both trace
   * properties.
   */
  lemma SwitchRunsNamedCommand(choice: string, lines: seq<string>, li: nat, keys: seq<KeyInfo>, ki: nat, trace: seq<Request>, server: Server)
    requires li <= |lines| && ki <= |keys| && choice != "4"
    ensures var s := Switch(choice, lines, li, keys, ki, trace, server);
            && Dispatched(choice, s.command)
            && s.nextLine == (if s.command.DeleteCommand? && li < |lines| then li + 1 else li)
            && DeletesFollowLookups(Issued(s.command)) && PostsValid(Issued(s.command))
  {
    if choice == "1" {
      UploadPostsOnlyAcceptedPairs(keys, ki, trace, server);
    }
    CommandGuards(Switch(choice, lines, li, keys, ki, trace, server).command);
  }

  /**
   * The `switch` of lines 55-72 on a `choice` other than "4": the command run
   * and the first line and key event it left unread.
   */
  method Dispatch(choice: string, lines: seq<string>, li: nat, keys: seq<KeyInfo>, ki: nat, trace: seq<Request>, server: Server)
    returns (step: Step)
    requires li <= |lines| && ki <= |keys| && choice != "4"
    ensures step == Switch(choice, lines, li, keys, ki, trace, server)
  {
    if choice == "1" {
      var run := HandleUpload(keys, ki, trace, server);
      step := Step(UploadCommand(run), li, run.next);
    } else if choice == "2" {
      var line := NextLine(lines, li);
      var run := HandleDelete(line, keys, ki, trace, server);
      step := Step(DeleteCommand(run), if li < |lines| then li + 1 else li, run.next);
    } else if choice == "3" {
      var request, reply, rows := RetrieveData(trace, server);
      step := Step(ListCommand(reply, rows), li, ki);
    } else {
      step := Step(InvalidChoice(choice), li, ki);
    }
  }

  /**
   * The rounds of the menu: the choices read, the commands run, their
   * requests in order, how the menu ended, and the first console line and
   * key event left unread.
   */
  datatype MenuRun = MenuRun(choices: seq<string>, commands: seq<Command>, issued: seq<Request>, ending: Ending, nextLine: nat, nextKey: nat)

  /** Prefixes the rounds before `rest`. */
  function MenuThen(choices: seq<string>, commands: seq<Command>, issued: seq<Request>, rest: MenuRun): MenuRun {
    MenuRun(choices + rest.choices, commands + rest.commands, issued + rest.issued, rest.ending, rest.nextLine, rest.nextKey)
  }

  lemma MenuThenThen(choices: seq<string>, commands: seq<Command>, issued: seq<Request>, choice: string, command: Command, rest: MenuRun)
    ensures MenuThen(choices, commands, issued, MenuThen([choice], [command], Issued(command), rest))
            == MenuThen(choices + [choice], commands + [command], issued + Issued(command), rest)
  {
    assert choices + ([choice] + rest.choices) == (choices + [choice]) + rest.choices;
    assert commands + ([command] + rest.commands) == (commands + [command]) + rest.commands;
    assert issued + (Issued(command) + rest.issued) == (issued + Issued(command)) + rest.issued;
  }

  /**
   * The menu loop from console line `li` and key event `ki` on, after `trace`
   * was issued: one round per choice line until the choice "4", the end of
   * the lines, or a command that ends the session.
   */
  function MenuFrom(lines: seq<string>, li: nat, keys: seq<KeyInfo>, ki: nat, trace: seq<Request>, server: Server): (r: MenuRun)
    requires li <= |lines| && ki <= |keys|
    ensures li <= r.nextLine <= |lines| && ki <= r.nextKey <= |keys|
    decreases |lines| - li
  {
    if li == |lines| then MenuRun([], [], [], InputEnded, li, ki)
    else if lines[li] == "4" then MenuRun(["4"], [], [], ExitChosen, li + 1, ki)
    else
      var s := Switch(lines[li], lines, li + 1, keys, ki, trace, server);
      match Halt(s.command)
      case Some(e) => MenuRun([lines[li]], [s.command], Issued(s.command), e, s.nextLine, s.nextKey)
      case None => MenuThen([lines[li]], [s.command], Issued(s.command), MenuFrom(lines, s.nextLine, keys, s.nextKey, trace + Issued(s.command), server))
  }

  /** Each command was dispatched on the choice read for it. */
  predicate DispatchedAll(choices: seq<string>, commands: seq<Command>) {
    |commands| <= |choices| && forall c :: 0 <= c < |commands| ==> Dispatched(choices[c], commands[c])
  }

  /** No command forced the session to end. */
  predicate ContinuedAll(commands: seq<Command>) {
    forall c :: 0 <= c < |commands| ==> Halt(commands[c]).None?
  }

  /**
   * A run of the menu read one choice per command, and one more when it
   * ended on "4"; each choice ran the command it names; its requests are its
   * commands' requests in order; and it ended on "4" or for lack of input
   * exactly when no command forced an ending, and otherwise on the ending its
   * last command forced, no earlier command forcing one.
   */
  predicate WellRun(r: MenuRun) {
    && r.ending != SetupFailed
    && |r.choices| == |r.commands| + (if r.ending == ExitChosen then 1 else 0)
    && DispatchedAll(r.choices, r.commands)
    && (r.ending == ExitChosen ==> r.choices[|r.commands|] == "4")
    && r.issued == Requests(r.commands)
    && (r.ending == ExitChosen || r.ending == InputEnded <==> ContinuedAll(r.commands))
    && (r.ending != ExitChosen && r.ending != InputEnded ==>
          |r.commands| > 0 && ContinuedAll(r.commands[..|r.commands| - 1]) && Halt(r.commands[|r.commands| - 1]) == Some(r.ending))
  }

  /** A round whose command forced no ending keeps a well-formed run well formed. */
  lemma ThenWellRun(choice: string, command: Command, rest: MenuRun)
    requires WellRun(rest) && Dispatched(choice, command) && Halt(command).None?
    ensures WellRun(MenuThen([choice], [command], Issued(command), rest))
  {
    var r := MenuThen([choice], [command], Issued(command), rest);
    assert r.commands[1..] == rest.commands;
    assert forall c :: 0 < c < |r.commands| ==> r.commands[c] == rest.commands[c - 1];
    assert forall c :: 0 < c < |r.choices| ==> r.choices[c] == rest.choices[c - 1];
    if r.ending != ExitChosen && r.ending != InputEnded {
      assert r.commands[..|r.commands| - 1] == [command] + rest.commands[..|rest.commands| - 1];
    }
  }

  /** A round whose command forced an ending is a well-formed run on its own. */
  lemma HaltWellRun(choice: string, command: Command, nextLine: nat, nextKey: nat)
    requires Dispatched(choice, command) && Halt(command).Some?
    ensures WellRun(MenuRun([choice], [command], Issued(command), Halt(command).value, nextLine, nextKey))
  {
    assert Requests([command]) == Issued(command) + Requests([]);
    assert [command][..0] == [];
  }

  /** Every run of the menu is well formed. */
  lemma {:induction false} MenuRunsChosenCommands(lines: seq<string>, li: nat, keys: seq<KeyInfo>, ki: nat, trace: seq<Request>, server: Server)
    requires li <= |lines| && ki <= |keys|
    ensures WellRun(MenuFrom(lines, li, keys, ki, trace, server))
    decreases |lines| - li
  {
    if li < |lines| && lines[li] != "4" {
      var choice := lines[li];
      var s := Switch(choice, lines, li + 1, keys, ki, trace, server);
      SwitchRunsNamedCommand(choice, lines, li + 1, keys, ki, trace, server);
      if Halt(s.command).None? {
        var next := trace + Issued(s.command);
        MenuRunsChosenCommands(lines, s.nextLine, keys, s.nextKey, next, server);
        ThenWellRun(choice, s.command, MenuFrom(lines, s.nextLine, keys, s.nextKey, next, server));
      } else {
        HaltWellRun(choice, s.command, s.nextLine, s.nextKey);
      }
    }
  }

  /**
   * Where the menu stops reading: it exits right after reading "4", and it
   * ends for lack of input only once every console line was read.
   */
  lemma {:induction false} MenuEnds(lines: seq<string>, li: nat, keys: seq<KeyInfo>, ki: nat, trace: seq<Request>, server: Server)
    requires li <= |lines| && ki <= |keys|
    ensures var r := MenuFrom(lines, li, keys, ki, trace, server);
            && (r.ending == ExitChosen ==> 0 < r.nextLine && lines[r.nextLine - 1] == "4")
            && (r.ending == InputEnded ==> r.nextLine == |lines|)
    decreases |lines| - li
  {
    if li < |lines| && lines[li] != "4" {
      var choice := lines[li];
      var s := Switch(choice, lines, li + 1, keys, ki, trace, server);
      if Halt(s.command).None? {
        var next := trace + Issued(s.command);
        MenuEnds(lines, s.nextLine, keys, s.nextKey, next, server);
      }
    }
  }

  /** Both trace properties of `a + b + c` are those of `a + (b + c)`. */
  lemma GuardsRegroup(a: seq<Request>, b: seq<Request>, c: seq<Request>)
    requires DeletesFollowLookups(a + b + c) && PostsValid(a + b + c)
    ensures DeletesFollowLookups(a + (b + c)) && PostsValid(a + (b + c))
  {
    assert a + b + c == a + (b + c);
  }

  /** The session's trace keeps both trace properties through every menu round. */
  lemma {:induction false} MenuGuards(lines: seq<string>, li: nat, keys: seq<KeyInfo>, ki: nat, trace: seq<Request>, server: Server)
    requires li <= |lines| && ki <= |keys|
    requires DeletesFollowLookups(trace) && PostsValid(trace)
    ensures var r := MenuFrom(lines, li, keys, ki, trace, server);
            DeletesFollowLookups(trace + r.issued) && PostsValid(trace + r.issued)
    decreases |lines| - li
  {
    if li < |lines| && lines[li] != "4" {
      var s := Switch(lines[li], lines, li + 1, keys, ki, trace, server);
      SwitchRunsNamedCommand(lines[li], lines, li + 1, keys, ki, trace, server);
      AppendKeepsGuards(trace, Issued(s.command));
      if Halt(s.command).None? {
        var next := trace + Issued(s.command);
        MenuGuards(lines, s.nextLine, keys, s.nextKey, next, server);
        GuardsRegroup(trace, Issued(s.command), MenuFrom(lines, s.nextLine, keys, s.nextKey, next, server).issued);
      }
    }
  }

  /**
   * The menu loop of `Main` (lines 45-73) on the console lines `lines` and
   * the key events `keys`, after `before` was issued.
   */
  method Menu(lines: seq<string>, keys: seq<KeyInfo>, before: seq<Request>, server: Server) returns (r: MenuRun)
    ensures r == MenuFrom(lines, 0, keys, 0, before, server)
  {
    var choices: seq<string> := [];
    var commands: seq<Command> := [];
    var issued: seq<Request> := [];
    var trace := before;  // every request the service has received, which its answers may depend on
    var li: nat := 0;
    var ki: nat := 0;
    ghost var whole := MenuFrom(lines, 0, keys, 0, before, server);
    assert MenuThen(choices, commands, issued, whole) == whole;
    while true
      invariant li <= |lines| && ki <= |keys|
      invariant whole == MenuThen(choices, commands, issued, MenuFrom(lines, li, keys, ki, trace, server))
      decreases |lines| - li
    {
      if li == |lines| {
        return MenuThen(choices, commands, issued, MenuRun([], [], [], InputEnded, li, ki));
      }
      var choice := lines[li];
      if choice == "4" {
        // `exit = true` ends the loop; after it `Main` only reads and discards one console line
        return MenuThen(choices, commands, issued, MenuRun([choice], [], [], ExitChosen, li + 1, ki));
      }
      var step := Dispatch(choice, lines, li + 1, keys, ki, trace, server);
      var command := step.command;
      li, ki := step.nextLine, step.nextKey;
      var halt := Halt(command);
      if halt.Some? {
        return MenuThen(choices, commands, issued, MenuRun([choice], [command], Issued(command), halt.value, li, ki));
      }
      MenuThenThen(choices, commands, issued, choice, command, MenuFrom(lines, li, keys, ki, trace + Issued(command), server));
      choices := choices + [choice];
      commands := commands + [command];
      issued := issued + Issued(command);
      trace := trace + Issued(command);
    }
  }

  /**
   * `Main` on the console lines `lines` and the key events `keys`: the
   * diagnostics gate the menu loop.
   */
  method Run(lines: seq<string>, keys: seq<KeyInfo>, server: Server) returns (s: Session)
    ensures s.diagnosis == RunDiagnostics(server)
    ensures s.ending == SetupFailed <==> !s.diagnosis.Passed()
    ensures !s.diagnosis.Passed() ==> s == Session(s.diagnosis, [], [], s.diagnosis.sent, SetupFailed)
    ensures s.diagnosis.Passed() ==>
              var m := MenuFrom(lines, 0, keys, 0, s.diagnosis.sent, server);
              s.choices == m.choices && s.commands == m.commands && s.trace == s.diagnosis.sent + m.issued && s.ending == m.ending
    ensures DeletesFollowLookups(s.trace) && PostsValid(s.trace)
  {
    var d := RunDiagnostics(server);
    if !d.Passed() {
      return Session(d, [], [], d.sent, SetupFailed);
    }
    var m := Menu(lines, keys, d.sent, server);
    MenuRunsChosenCommands(lines, 0, keys, 0, d.sent, server);
    MenuGuards(lines, 0, keys, 0, d.sent, server);
    s := Session(d, m.choices, m.commands, d.sent + m.issued, m.ending);
  }
}
