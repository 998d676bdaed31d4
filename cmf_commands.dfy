/**
 * The `cmf` console command: a fixed table of four sub-commands. The first
 * argument (help when there is none) picks the sub-command, which runs on the
 * remaining arguments; any other name logs an error. The sub-commands themselves
 * (help text, museum resets) are not part of this model.
 */
module CmfCommands {
  import opened Wrappers

  /** The sub-commands of the table. */
  datatype SubCommand = Help | Reset | ResetAll | ResetVanilla

  /** What `Handle` does: run a sub-command on the given arguments, or log an error. */
  datatype Dispatch = Run(command: SubCommand, args: seq<string>) | LogError(message: string)

  /** The static `Commands` table, in its declaration order. */
  const Commands: seq<(string, SubCommand)> :=
    [("help", Help), ("reset", Reset), ("resetall", ResetAll), ("resetvanilla", ResetVanilla)]

  /** The first entry of a table with the given name, compared ordinally. */
  function LookupIn(table: seq<(string, SubCommand)>, name: string): (r: Option<SubCommand>)
    ensures r.Some? <==> exists i :: 0 <= i < |table| && table[i].0 == name
    ensures r.Some? ==> exists i :: 0 <= i < |table| && table[i] == (name, r.value)
    decreases |table|
  {
    if |table| == 0 then None
    else if table[0].0 == name then Some(table[0].1)
    else
      var r := LookupIn(table[1..], name);
      assert forall i :: 1 <= i < |table| ==> table[1..][i - 1] == table[i];
      r
  }

  /** `Commands.TryGetValue(name)`. */
  function Lookup(name: string): Option<SubCommand> {
    LookupIn(Commands, name)
  }

  /** The table names four sub-commands, one per name, and each name finds its own. */
  lemma CommandTable()
    ensures |Commands| == 4
    ensures forall i, j :: 0 <= i < j < |Commands| ==> Commands[i].0 != Commands[j].0
    ensures forall i :: 0 <= i < |Commands| ==> Lookup(Commands[i].0) == Some(Commands[i].1)
    ensures forall name :: Lookup(name).Some? <==> name in {"help", "reset", "resetall", "resetvanilla"}
  {
  }

  function InvalidCommandMessage(command: string): string {
    "The 'cmf " + command + "' command is not a valid Custom Museum Framework command."
  }

  /** `CommandHandler.Handle`: `args.FirstOrDefault() ?? "help"` picks the sub-command, `args.Skip(1)` are its arguments. */
  function Handle(args: seq<string>): (d: Dispatch)
    ensures |args| == 0 ==> d == Run(Help, [])
    ensures |args| > 0 && Lookup(args[0]).Some? ==> d.Run? && d.command == Lookup(args[0]).value && [args[0]] + d.args == args
    ensures |args| > 0 && Lookup(args[0]).None? ==> d == LogError(InvalidCommandMessage(args[0]))
  {
    var command := if |args| == 0 then "help" else args[0];
    var rest := if |args| == 0 then [] else args[1..];
    match Lookup(command)
    case Some(handler) => Run(handler, rest)
    case None => LogError(InvalidCommandMessage(command))
  }
}
