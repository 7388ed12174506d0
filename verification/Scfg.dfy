/** scfg blocks, and the helpers of src/scfg_util.rs that take them apart in place. */
module ScfgBlocks {
  import opened Wrappers
  import Text

  datatype Directive = Directive(params: seq<string>, child: Option<Block>)

  /** The contents of a block: the directives of each name, in file order. */
  datatype Block = Block(entries: map<string, seq<Directive>>) {

    /** The first directive with the given name. */
    function Get(name: string): Option<Directive> {
      if name in entries && entries[name] != [] then Some(entries[name][0]) else None
    }

    function GetAll(name: string): seq<Directive> {
      if name in entries then entries[name] else []
    }

    function Without(name: string): Block {
      Block(entries - {name})
    }

    function Add(name: string, d: Directive): Block {
      Block(entries[name := GetAll(name) + [d]])
    }
  }

  datatype Error =
    | Repeated(name: string)
    | NotFound(name: string)
    | NoParameter
    | TooManyParameters
    | NoParameterOrBlock
    | EmptyCommand
    | NoCmdOrShell
    | CommandNotStarted
    | CommandStatus(code: int)
    | CommandKilled
    | NotUtf8
    | EmptyPassword

  // ---- Specification of the readers -----------------------------------------------------------

  function SingleDirective(b: Block, name: string): Result<Option<Directive>, Error> {
    if name !in b.entries then Ok(None)
    else if |b.entries[name]| != 1 then Err(Repeated(name))
    else Ok(Some(b.entries[name][0]))
  }

  function SingleParam(d: Directive): Result<string, Error> {
    if |d.params| == 0 then Err(NoParameter)
    else if |d.params| > 1 then Err(TooManyParameters)
    else Ok(d.params[0])
  }

  function SingleParamOf(b: Block, name: string): Result<string, Error> {
    var found :- SingleDirective(b, name);
    if found.None? then Err(NotFound(name)) else SingleParam(found.value)
  }

  // ---- External commands ----------------------------------------------------------------------

  datatype Command = Command(program: string, args: seq<string>)

  /** What a command did. `stdout` is None when the output is not UTF-8. */
  datatype Output = NotStarted | Completed(code: int, stdout: Option<string>) | Killed

  /** What the outside world answers to a command, given all commands run before it. */
  type Oracle = (seq<Command>, Command) -> Output

  /** Runs commands, and remembers them. */
  class Shell {
    const oracle: Oracle
    var ran: seq<Command>

    constructor (oracle: Oracle)
      ensures this.oracle == oracle && ran == []
    {
      this.oracle := oracle;
      ran := [];
    }

    method Run(cmd: Command) returns (output: Output)
      modifies this
      ensures output == oracle(old(ran), cmd)
      ensures ran == old(ran) + [cmd]
    {
      output := oracle(ran, cmd);
      ran := ran + [cmd];
    }
  }

  function FromArgs(args: seq<string>): Option<Command> {
    if args == [] then None else Some(Command(args[0], args[1..]))
  }

  /** The command that a `{ cmd … }` or `{ shell … }` block stands for. */
  function BlockCommand(b: Block): Result<Command, Error> {
    var cmd :- SingleDirective(b, "cmd");
    if cmd.Some? then
      match FromArgs(cmd.value.params)
      case None => Err(EmptyCommand)
      case Some(c) => Ok(c)
    else
      var shell :- SingleDirective(b, "shell");
      if shell.None? then Err(NoCmdOrShell)
      else Ok(Command("sh", ["-c", Text.Join(shell.value.params, " ")]))
  }

  /** The value that a command's output gives to directive `name`. */
  function OutputValue(name: string, output: Output): Result<string, Error> {
    match output
    case NotStarted => Err(CommandNotStarted)
    case Killed => Err(CommandKilled)
    case Completed(code, stdout) =>
      if code != 0 then Err(CommandStatus(code))
      else if stdout.None? then Err(NotUtf8)
      else if name == "password" && Text.Trim(stdout.value) == "" then Err(EmptyPassword)
      else Ok(Text.Trim(stdout.value))
  }

  // ---- Specification of in-place resolution ---------------------------------------------------

  /** The outcome of resolving in place: the verdict, the block left behind, all commands run. */
  datatype Resolution = Resolution(result: Result<(), Error>, block: Block, ran: seq<Command>)

  function Plain(value: string): Directive {
    Directive([value], None)
  }

  /** The command that resolving directive `d` has to run, if any. */
  function FieldCommand(d: Directive): Result<Option<Command>, Error> {
    if |d.params| > 1 then Err(TooManyParameters)
    else if |d.params| == 1 then Ok(None)
    else if d.child.None? then Err(NoParameterOrBlock)
    else
      var cmd :- BlockCommand(d.child.value);
      Ok(Some(cmd))
  }

  function ResolveField(b: Block, name: string, ran: seq<Command>, oracle: Oracle): Resolution {
    var rest := b.Without(name);
    match SingleDirective(b, name)
    case Err(e) => Resolution(Err(e), rest, ran)
    case Ok(None) => Resolution(Ok(()), b, ran)
    case Ok(Some(d)) =>
      match FieldCommand(d)
      case Err(e) => Resolution(Err(e), rest, ran)
      case Ok(None) => Resolution(Ok(()), rest.Add(name, Plain(d.params[0])), ran)
      case Ok(Some(cmd)) =>
        match OutputValue(name, oracle(ran, cmd))
        case Err(e) => Resolution(Err(e), rest, ran + [cmd])
        case Ok(value) => Resolution(Ok(()), rest.Add(name, Plain(value)), ran + [cmd])
  }

  // ---- The helpers themselves -----------------------------------------------------------------

  /** A block that is taken apart in place. */
  class Scfg {
    var block: Block

    constructor (block: Block)
      ensures this.block == block
    {
      this.block := block;
    }

    method Remove(name: string) returns (directives: Option<seq<Directive>>)
      modifies this
      ensures block == old(block).Without(name)
      ensures directives ==
              if name in old(block).entries then Some(old(block).entries[name]) else None
    {
      directives := if name in block.entries then Some(block.entries[name]) else None;
      block := Block(block.entries - {name});
    }

    method TakeSingleDirective(name: string) returns (r: Result<Option<Directive>, Error>)
      modifies this
      ensures r == SingleDirective(old(block), name)
      ensures block == old(block).Without(name)
    {
      var directives := Remove(name);
      if directives.None? {
        return Ok(None);
      }
      if |directives.value| != 1 {
        return Err(Repeated(name));
      }
      return Ok(Some(directives.value[0]));
    }

    method TakeSingleParamFromDirective(name: string) returns (r: Result<string, Error>)
      modifies this
      ensures r == SingleParamOf(old(block), name)
      ensures block == old(block).Without(name)
    {
      var directive :- TakeSingleDirective(name);
      if directive.None? {
        return Err(NotFound(name));
      }
      r := TakeSingleParam(directive.value);
    }

    /** Replace a `cmd` or `shell` block by the output of its command. */
    method ResolveCmdInplace(name: string, shell: Shell) returns (r: Result<(), Error>)
      modifies this, shell
      ensures Resolution(r, block, shell.ran) ==
              ResolveField(old(block), name, old(shell.ran), shell.oracle)
    {
      var found :- TakeSingleDirective(name);
      if found.None? {
        assert block == old(block);
        return Ok(());
      }
      var directive := found.value;
      var value;
      if directive.params != [] {
        if |directive.params| > 1 {
          return Err(TooManyParameters);
        }
        value := directive.params[0];
      } else {
        if directive.child.None? {
          return Err(NoParameterOrBlock);
        }
        var inner := new Scfg(directive.child.value);
        var rawCmd :- inner.TakeCommand();
        var output := shell.Run(rawCmd);
        value :- OutputValue(name, output);
      }
      block := block.Add(name, Plain(value));
      return Ok(());
    }

    method TakeCommand() returns (r: Result<Command, Error>)
      modifies this
      ensures r == BlockCommand(old(block))
    {
      var cmdBlock :- TakeSingleDirective("cmd");
      if cmdBlock.Some? {
        var raw := FromArgs(cmdBlock.value.params);
        return if raw.None? then Err(EmptyCommand) else Ok(raw.value);
      }
      var shellBlock :- TakeSingleDirective("shell");
      if shellBlock.None? {
        return Err(NoCmdOrShell);
      }
      return Ok(FromArgs(["sh", "-c", Text.Join(shellBlock.value.params, " ")]).value);
    }
  }

  /** Drain the parameters of a directive, of which there must be one. */
  method TakeSingleParam(directive: Directive) returns (r: Result<string, Error>)
    ensures r == SingleParam(directive)
  {
    var params := directive.params;
    if params == [] {
      return Err(NoParameter);
    }
    var param := params[0];
    params := params[1..];
    if params != [] {
      return Err(TooManyParameters);
    }
    return Ok(param);
  }

  // ---- Properties -----------------------------------------------------------------------------

  /** `name` is absent, or given once by exactly one parameter and no block. */
  ghost predicate Resolved(b: Block, name: string) {
    name in b.entries ==> exists value :: b.entries[name] == [Plain(value)]
  }

  /** The two blocks agree on every directive whose name is not in `names`. */
  ghost predicate SameExcept(b: Block, b': Block, names: seq<string>) {
    forall other :: other !in names ==>
      && (other in b.entries <==> other in b'.entries)
      && (other in b.entries ==> b.entries[other] == b'.entries[other])
  }

  /** Resolving leaves the field resolved and everything else alone, and runs at most the one
      command that the field stands for. */
  lemma {:induction false} FieldResolved(b: Block, name: string, ran: seq<Command>, oracle: Oracle)
    ensures var r := ResolveField(b, name, ran, oracle);
            && SameExcept(b, r.block, [name])
            && (r.result.Ok? ==> Resolved(r.block, name))
            && (r.ran == ran || r.ran == ran + FieldCommands(b, name))
            && (r.result.Ok? ==> r.ran == ran + FieldCommands(b, name))
            && (r.result.Ok? ==> (name in b.entries <==> name in r.block.entries))
  {
    var r := ResolveField(b, name, ran, oracle);
    if r.result.Ok? && name in b.entries {
      assert exists value :: r.block.entries[name] == [Plain(value)] by {
        assert r.block.entries[name] == [Plain(r.block.entries[name][0].params[0])];
      }
    }
  }

  /** The field is a block that gives this command, by `cmd` or, failing that, by `shell`. */
  ghost predicate GivesCommand(d: Directive, cmd: Command) {
    && d.params == [] && d.child.Some?
    && var b := d.child.value;
       if "cmd" in b.entries then
         && |b.entries["cmd"]| == 1
         && b.entries["cmd"][0].params == [cmd.program] + cmd.args
       else
         && "shell" in b.entries && |b.entries["shell"]| == 1
         && cmd.program == "sh"
         && cmd.args == ["-c", Text.Join(b.entries["shell"][0].params, " ")]
  }

  /** The command succeeded with this output, which is good enough for the field. */
  ghost predicate Outputs(name: string, output: Output, text: string) {
    && output == Completed(0, Some(text))
    && (name == "password" ==> !Text.Blank(text))
  }

  /** `b'` has the value of field `name` that `b` stands for, when the commands `ran` have been run: its
      parameter, or the trimmed output of its command; or both have no such field. */
  ghost predicate FieldFrom(b: Block, b': Block, name: string, ran: seq<Command>, oracle: Oracle) {
    if name !in b.entries then name !in b'.entries
    else
      && |b.entries[name]| == 1 && name in b'.entries
      && var d := b.entries[name][0];
         if d.params != [] then |d.params| == 1 && b'.entries[name] == [Plain(d.params[0])]
         else
           exists cmd, text :: GivesCommand(d, cmd) && Outputs(name, oracle(ran, cmd), text)
                               && b'.entries[name] == [Plain(Text.Trim(text))]
  }

  /** A field can be resolved: it is absent, or given once, by one parameter or by a command that
      succeeds with UTF-8 output, not blank for a password. */
  ghost predicate Resolvable(b: Block, name: string, ran: seq<Command>, oracle: Oracle) {
    name in b.entries ==>
      && |b.entries[name]| == 1
      && var d := b.entries[name][0];
         || |d.params| == 1
         || (d.params == [] &&
             exists cmd, text :: GivesCommand(d, cmd) && Outputs(name, oracle(ran, cmd), text))
  }

  /** Resolving succeeds exactly when the field can be resolved, and then gives it its value. */
  lemma {:induction false} ResolvesExactly(b: Block, name: string, ran: seq<Command>,
                                           oracle: Oracle)
    ensures var r := ResolveField(b, name, ran, oracle);
            && (r.result.Ok? <==> Resolvable(b, name, ran, oracle))
            && (r.result.Ok? ==> FieldFrom(b, r.block, name, ran, oracle))
  {
    hide Text.Trim, Text.Blank, Text.Join;
    var r := ResolveField(b, name, ran, oracle);
    if name in b.entries && |b.entries[name]| == 1 && b.entries[name][0].params == [] {
      var d := b.entries[name][0];
      OneCommand(d);
      if FieldCommand(d).Ok? {
        var cmd := FieldCommand(d).value.value;
        assert GivesCommand(d, cmd);
        hide GivesCommand, FieldCommand;
        match oracle(ran, cmd)
        case Completed(0, Some(text)) =>
          Text.TrimEmpty(text);
          assert Outputs(name, oracle(ran, cmd), text) <==> r.result.Ok?;
        case _ =>
      }
    }
  }

  /** A block gives the command that `FieldCommand` makes of it, if any, and no other. */
  lemma {:induction false} OneCommand(d: Directive)
    requires d.params == []
    ensures FieldCommand(d).Ok? ==>
              FieldCommand(d).value.Some? && GivesCommand(d, FieldCommand(d).value.value)
    ensures forall cmd :: GivesCommand(d, cmd) ==> FieldCommand(d) == Ok(Some(cmd))
  {
    hide Text.Join;
    forall cmd | GivesCommand(d, cmd) ensures FieldCommand(d) == Ok(Some(cmd)) {
      var b := d.child.value;
      if "cmd" in b.entries {
        var params := b.entries["cmd"][0].params;
        assert params[0] == cmd.program && params[1..] == cmd.args;
      }
    }
    if FieldCommand(d).Ok? && "cmd" in d.child.value.entries {
      var params := d.child.value.entries["cmd"][0].params;
      assert params == [params[0]] + params[1..];
    }
  }

  /** The commands to run for field `name` of a block: none or one. */
  function FieldCommands(b: Block, name: string): seq<Command> {
    match SingleDirective(b, name)
    case Ok(Some(d)) =>
      (match FieldCommand(d)
       case Ok(Some(cmd)) => [cmd]
       case _ => [])
    case _ => []
  }

  /** Resolving a resolved field changes nothing and runs nothing. */
  lemma {:induction false} ResolveAgain(b: Block, name: string, ran: seq<Command>, oracle: Oracle)
    requires Resolved(b, name)
    ensures ResolveField(b, name, ran, oracle) == Resolution(Ok(()), b, ran)
  {
    if name in b.entries {
      var value :| b.entries[name] == [Plain(value)];
      var added := b.Without(name).Add(name, Plain(value)).entries;
      assert added[name] == [Plain(value)];
      assert added == b.entries;
    }
  }
}
