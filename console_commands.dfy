/**
 * The generic console command helper: one root console command whose first
 * argument names a registered sub-command. The registered commands are an
 * ordered table (the dictionary's enumeration order); running a handler is
 * returned as a dispatch decision, and a log line as its text.
 */
module ConsoleCommands {
  import opened Wrappers
  import opened Text

  /** A registered `ConsoleCommand`: its name, whether it may run on the title screen, and its description. */
  datatype ConsoleCommand = ConsoleCommand(name: string, allowOnTitle: bool, description: string)

  /** The handler's settings (`RootCommand`, `ModName`) and the `Commands` table. */
  datatype Registry = Registry(rootCommand: string, modName: string, commands: seq<ConsoleCommand>)

  /** What `Handle` does: run a handler on the given arguments, or log an error. */
  datatype Dispatch = Run(command: ConsoleCommand, args: seq<string>) | LogError(message: string)

  const NotReadyMessage: string := "This command can only be used when a save is loaded."

  /** `Commands.TryGetValue(name)`: the command registered under exactly that name (names compare ordinally). */
  function Lookup(commands: seq<ConsoleCommand>, name: string): (r: Option<ConsoleCommand>)
    ensures r.Some? ==> r.value in commands && r.value.name == name
    ensures r.None? <==> forall i :: 0 <= i < |commands| ==> commands[i].name != name
    decreases |commands|
  {
    if |commands| == 0 then None
    else if commands[0].name == name then Some(commands[0])
    else
      var r := Lookup(commands[1..], name);
      assert forall i :: 1 <= i < |commands| ==> commands[1..][i - 1] == commands[i];
      r
  }

  /** `args.FirstOrDefault() ?? "help"`. */
  function CommandName(args: seq<string>): string {
    if |args| == 0 then "help" else args[0]
  }

  /** `args.Skip(1)`. */
  function CommandArgs(args: seq<string>): (rest: seq<string>)
    ensures |args| > 0 ==> [args[0]] + rest == args
    ensures |args| == 0 ==> rest == []
  {
    if |args| == 0 then [] else args[1..]
  }

  function InvalidCommandMessage(reg: Registry, command: string): string {
    "The '" + reg.rootCommand + " " + command + "' command is not a valid " + reg.modName + " command."
  }

  /**
   * `CommandHandler.Handle`: the named command (help when there are no arguments)
   * runs on the remaining arguments, unless it is not allowed on the title screen
   * and no save is loaded; an unknown command is an error.
   */
  function Handle(reg: Registry, args: seq<string>, worldReady: bool): (r: Dispatch)
    ensures r.Run? <==>
      Lookup(reg.commands, CommandName(args)).Some? && (Lookup(reg.commands, CommandName(args)).value.allowOnTitle || worldReady)
    ensures r.Run? ==>
      r.command.name == CommandName(args) && r.command in reg.commands
      && (|args| > 0 ==> [args[0]] + r.args == args) && (|args| == 0 ==> r.args == [])
    ensures (forall i :: 0 <= i < |reg.commands| ==> reg.commands[i].name != CommandName(args)) ==>
      r == LogError(InvalidCommandMessage(reg, CommandName(args)))
    ensures Lookup(reg.commands, CommandName(args)).Some? && !Lookup(reg.commands, CommandName(args)).value.allowOnTitle && !worldReady ==>
      r == LogError(NotReadyMessage)
  {
    var command := CommandName(args);
    match Lookup(reg.commands, command)
    case None => LogError(InvalidCommandMessage(reg, command))
    case Some(handler) =>
      if !handler.allowOnTitle && !worldReady then LogError(NotReadyMessage)
      else Run(handler, CommandArgs(args))
  }

  /** Without arguments the registered `help` command runs, with no arguments, whenever it may run now. */
  lemma HandleCases(reg: Registry, args: seq<string>, worldReady: bool)
    ensures |args| == 0 && Lookup(reg.commands, "help").Some? && (Lookup(reg.commands, "help").value.allowOnTitle || worldReady) ==>
      Handle(reg, args, worldReady) == Run(Lookup(reg.commands, "help").value, [])
  {
  }

  // ---------------------------------------------------------------------------
  // GenericHelpCommand
  // ---------------------------------------------------------------------------

  const Newline: string := "\r\n"

  /**
   * `GenericHelpCommand.GetDescription()`: usage of `help` and `help <command>`. It
   * opens with the root command followed by "help", and ends with a full stop, so
   * trimming never shortens it.
   */
  function HelpDescription(reg: Registry): (r: string)
    ensures reg.rootCommand + " help" + Newline <= r
    ensures |r| > 0 && r[|r| - 1] == '.'
  {
    reg.rootCommand + " help" + Newline
    + "   Provides information about " + reg.modName + " commands." + Newline
    + "   Usage: cmf help" + Newline
    + "      Lists all available " + reg.modName + " commands." + Newline
    + "   Usage: cmf help <command>" + Newline
    + "      Displays help for a specific command." + Newline
    + "      <command> - The name of the command to display help for."
  }

  /** The `help` command this helper registers: allowed on the title screen. */
  function GenericHelpCommand(reg: Registry): (c: ConsoleCommand)
    ensures c.name == "help" && c.allowOnTitle
  {
    ConsoleCommand("help", true, HelpDescription(reg))
  }

  function HelpIntro(reg: Registry): string {
    "The '" + reg.rootCommand + "' command is the command prefix for " + reg.modName
    + " commands. To use a " + reg.modName + " command, type '" + reg.rootCommand
    + "' followed by the command name and any applicable arguments." + Newline + Newline
    + "Available commands:"
  }

  /** One command's entry in the listing: a blank line, then its description. */
  function Entry(c: ConsoleCommand): string {
    Newline + Newline + c.description
  }

  /** The listing of the commands: their entries, in table order; each adds a blank line and its description. */
  function Listing(commands: seq<ConsoleCommand>): (r: string)
    ensures r == "" <==> |commands| == 0
    ensures |commands| > 0 ==> Newline + Newline <= r
    decreases |commands|
  {
    if |commands| == 0 then ""
    else Listing(commands[..|commands| - 1]) + Entry(commands[|commands| - 1])
  }

  /** The listing of two tables one after the other is the two listings one after the other. */
  lemma {:induction false} ListingConcat(a: seq<ConsoleCommand>, b: seq<ConsoleCommand>)
    ensures Listing(a + b) == Listing(a) + Listing(b)
    decreases |b|
  {
    if |b| > 0 {
      var b' := b[..|b| - 1];
      ListingConcat(a, b');
      assert (a + b)[..|a + b| - 1] == a + b';
    } else {
      assert a + b == a;
    }
  }

  /** The listing holds every command's entry, between the entries of the earlier and of the later commands. */
  lemma ListingSplit(commands: seq<ConsoleCommand>, i: nat)
    requires i < |commands|
    ensures Listing(commands) == Listing(commands[..i]) + Entry(commands[i]) + Listing(commands[i + 1..])
  {
    var upTo, rest := commands[..i + 1], commands[i + 1..];
    assert commands == upTo + rest;
    calc {
      Listing(commands);
      Listing(upTo + rest);
      { ListingConcat(upTo, rest); }
      Listing(upTo) + Listing(rest);
      { ListingPrefix(commands, i); }
      Listing(commands[..i]) + Entry(commands[i]) + Listing(rest);
    }
  }

  /** The listing up to and including command `i` ends with that command's entry. */
  lemma ListingPrefix(commands: seq<ConsoleCommand>, i: nat)
    requires i < |commands|
    ensures Listing(commands[..i + 1]) == Listing(commands[..i]) + Entry(commands[i])
  {
    assert commands[..i + 1][..i] == commands[..i];
  }

  /**
   * The text `GenericHelpCommand.Handle` logs, before trimming: the intro and the
   * listing without arguments, a command's description when the first argument
   * names one, otherwise the invalid-command message.
   */
  function HelpText(reg: Registry, args: seq<string>): (r: string)
    ensures |args| == 0 ==> HelpIntro(reg) <= r && (r == HelpIntro(reg) <==> |reg.commands| == 0)
    ensures |args| > 0 && Lookup(reg.commands, args[0]).Some? ==> Newline + r == Entry(Lookup(reg.commands, args[0]).value)
    ensures |args| > 0 ==> (Lookup(reg.commands, args[0]).Some? <==> Newline <= r)
  {
    if |args| == 0 then HelpIntro(reg) + Listing(reg.commands)
    else match Lookup(reg.commands, args[0])
      case Some(command) => Newline + command.description
      case None =>
        var message := InvalidCommandMessage(reg, args[0]);
        assert message[0] == 'T';
        message
  }

  /** `GenericHelpCommand.Handle`: the help text is built up and logged with trailing white space trimmed. */
  method Help(reg: Registry, args: seq<string>) returns (logged: string)
    ensures logged == TrimEnd(HelpText(reg, args))
  {
    var text: string;
    if |args| == 0 {
      text := HelpIntro(reg);
      var i := 0;
      while i < |reg.commands|
        invariant 0 <= i <= |reg.commands|
        invariant text == HelpIntro(reg) + Listing(reg.commands[..i])
      {
        assert reg.commands[..i + 1][..i] == reg.commands[..i];
        text := text + Entry(reg.commands[i]);
        i := i + 1;
      }
      assert reg.commands[..i] == reg.commands;
    } else {
      var command := Lookup(reg.commands, args[0]);
      if command.Some? {
        text := Newline + command.value.description;
      } else {
        text := InvalidCommandMessage(reg, args[0]);
      }
    }
    logged := TrimEnd(text);
  }

  /** The logged help is the untrimmed text up to trailing white space: nothing but trailing white space is lost. */
  lemma HelpTrimmed(reg: Registry, args: seq<string>)
    ensures TrimEnd(HelpText(reg, args)) <= HelpText(reg, args)
    ensures forall i :: |TrimEnd(HelpText(reg, args))| <= i < |HelpText(reg, args)| ==> IsWhiteSpace(HelpText(reg, args)[i])
    ensures |args| == 0 ==> HelpIntro(reg) <= TrimEnd(HelpText(reg, args))
  {
    if |args| == 0 {
      var intro := HelpIntro(reg);
      var t := HelpText(reg, args);
      assert intro[|intro| - 1] == ':';
      assert t[|intro| - 1] == ':';
      assert |TrimEnd(t)| >= |intro|;
    }
  }
}
