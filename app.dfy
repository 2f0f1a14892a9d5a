/**
  The application (slash_slack/slash_slack.py, class `SlashSlack`): the start-up
  check for a signing secret, the registry of commands filled by the `command`
  decorator, and the decision the endpoint takes for a request: refuse it,
  answer with help, report an unknown command or unparsable arguments, or
  dispatch the handler with its bound arguments and flags.
 */
module App {
  import opened Common
  import opened PyStr
  import opened ArgTypes
  import opened FuncParams
  import opened CommandText
  import opened SlashCommand
  import opened Signature

  /** A registered command: its name, the handler's parameters and the schema built from them. */
  datatype CommandEntry = CommandEntry(command: string, handler: seq<Param>, schema: Schema)

  /** The flags the framework consumes itself. */
  const GlobalFlags: set<string> := {"visible", "help"}

  /** What the endpoint does with an authenticated request. */
  datatype Outcome =
    | GlobalHelp(visibleInChannel: bool)
    | CommandNotFound
    | CommandHelp(command: string, visibleInChannel: bool)
    | InvalidArgs(command: string)
    | Dispatch(command: string, args: seq<Value>, flags: set<string>, globalFlags: set<string>)

  predicate WantsGlobalHelp(line: CommandLine) {
    Lower(line.command) == "help" || (line.command == "" && "help" in line.flags)
  }

  /** The routing branch of the endpoint, in the order the handler tries its outcomes. */
  function Route(commands: map<string, CommandEntry>, line: CommandLine, rd: RealReader): Outcome
  {
    if WantsGlobalHelp(line) then GlobalHelp("visible" in line.flags)
    else if line.command !in commands then CommandNotFound
    else
      var globalFlags := line.flags * GlobalFlags;
      if "help" in globalFlags then CommandHelp(line.command, "visible" in globalFlags)
      else
        match ParseArgs(commands[line.command].schema.params, line.args, rd)
        case None => InvalidArgs(line.command)
        case Some(parsedArgs) => Dispatch(line.command, parsedArgs, line.flags - GlobalFlags, globalFlags)
  }

  /** Each outcome happens exactly under its condition, and an earlier condition takes precedence. */
  lemma RouteOutcomes(commands: map<string, CommandEntry>, line: CommandLine, rd: RealReader)
    ensures var o := Route(commands, line, rd);
      && (o.GlobalHelp? <==> WantsGlobalHelp(line))
      && (o.GlobalHelp? ==> o.visibleInChannel == ("visible" in line.flags))
      && (o.CommandNotFound? <==> !WantsGlobalHelp(line) && line.command !in commands)
      && (o.CommandHelp? <==> !WantsGlobalHelp(line) && line.command in commands && "help" in line.flags)
      && (o.CommandHelp? ==> o.command == line.command && o.visibleInChannel == ("visible" in line.flags))
      && (o.InvalidArgs? <==> !WantsGlobalHelp(line) && line.command in commands && "help" !in line.flags
                              && ParseArgs(commands[line.command].schema.params, line.args, rd).None?)
      && (o.Dispatch? <==> !WantsGlobalHelp(line) && line.command in commands && "help" !in line.flags
                           && ParseArgs(commands[line.command].schema.params, line.args, rd).Some?)
  {
  }

  /**
    On dispatch the flags are split without loss: the command's own flags and
    the global ones partition the flags of the line, and neither asks for help.
   */
  lemma DispatchFlags(commands: map<string, CommandEntry>, line: CommandLine, rd: RealReader)
    requires Route(commands, line, rd).Dispatch?
    ensures var o := Route(commands, line, rd);
      && o.command == line.command
      && o.flags + o.globalFlags == line.flags
      && o.flags !! o.globalFlags
      && o.globalFlags <= {"visible"}
      && "help" !in o.flags && "visible" !in o.flags
  {
  }

  /** The commands of a registry are filed under their own names, with the schema their handler describes. */
  predicate WellFormed(commands: map<string, CommandEntry>) {
    forall name :: name in commands ==>
      commands[name].command == name && Describes(commands[name].handler, commands[name].schema)
  }

  /**
    A dispatched command binds one value per positional argument, so the
    handler's argument array can be filled without an IndexError.
   */
  lemma DispatchBindsEveryArgument(commands: map<string, CommandEntry>, line: CommandLine, rd: RealReader)
    requires WellFormed(commands)
    requires Route(commands, line, rd).Dispatch?
    ensures var o := Route(commands, line, rd);
      o.command in commands && |o.args| == |commands[o.command].schema.params|
  {
  }

  /** The endpoint's answer: an HTTP error status, or the outcome of routing. */
  datatype Response = Status(code: int) | Routed(outcome: Outcome)

  class SlashSlack {
    const dev: bool
    const verifier: Option<Verifier>
    var commands: map<string, CommandEntry>

    ghost predicate Valid()
      reads this
    {
      WellFormed(commands) && (!dev ==> verifier.Some?)
    }

    constructor Init(dev: bool, verifier: Option<Verifier>)
      requires !dev ==> verifier.Some?
      ensures this.dev == dev && this.verifier == verifier && commands == map[]
      ensures Valid()
    {
      this.dev := dev;
      this.verifier := verifier;
      commands := map[];
    }

    /**
      `SlashSlack(dev, signing_secret)`: outside dev mode a signing secret is
      required; in dev mode signatures are not checked.
     */
    static method Create(dev: bool, signingSecret: Option<string>) returns (r: Result<SlashSlack, Error>)
      ensures r.Failure? <==> !dev && signingSecret.None?
      ensures r.Failure? ==> r.error == NoSigningSecret
      ensures r.Success? ==> fresh(r.value) && r.value.Valid() && r.value.commands == map[] && r.value.dev == dev
      ensures r.Success? && !dev ==> r.value.verifier == Some(Verifier(signingSecret.value))
    {
      if dev {
        var app := new SlashSlack.Init(dev, None);
        return Success(app);
      }
      if signingSecret.None? {
        return Failure(NoSigningSecret);
      }
      var app := new SlashSlack.Init(dev, Some(Verifier(signingSecret.value)));
      r := Success(app);
    }

    /**
      The `command` decorator: a name already registered is refused and the
      registry is left unchanged; otherwise the handler's parameters are turned
      into a schema, and the command is registered only if that succeeds.
     */
    method Command(command: string, handler: seq<Param>) returns (err: Option<Error>)
      requires Valid()
      modifies this
      ensures Valid()
      ensures command in old(commands) ==> err == Some(DuplicateCommand)
      ensures command !in old(commands) ==>
        (err.Some? <==> exists k :: 0 <= k < |handler| && ErrorAt(handler, k).Some?)
      ensures command !in old(commands) && err.Some? ==>
        exists k :: 0 <= k < |handler| && err == ErrorAt(handler, k) && forall j :: 0 <= j < k ==> ErrorAt(handler, j).None?
      ensures err.Some? ==> commands == old(commands)
      ensures err.None? ==> command in commands && commands == old(commands)[command := commands[command]]
                            && commands[command].handler == handler
    {
      if command in commands {
        return Some(DuplicateCommand);
      }
      var r := ParseFuncParams(handler);
      if r.Failure? {
        return Some(r.error);
      }
      commands := commands[command := CommandEntry(command, handler, r.value)];
      err := None;
    }

    /**
      The endpoint: outside dev mode a request whose signature does not verify
      is refused with 403 (and a malformed timestamp ends in a 500); an
      authenticated request is routed on its stripped text.
     */
    function Handle(text: string, headers: Option<Headers>, body: Option<string>, mac: Mac, now: real,
                    rd: RealReader): (r: Response)
      reads this
      ensures r.Routed? <==> dev || (verifier.Some? && IsValidRequest(verifier.value, mac, now, body, headers) == Some(true))
      ensures r.Routed? ==> r.outcome == Route(commands, ParseCommandText(Strip(text)), rd)
      ensures r.Status? ==> r.code == 403 || r.code == 500
      ensures r.Status? ==> (r.code == 500 <==> verifier.None? || IsValidRequest(verifier.value, mac, now, body, headers).None?)
    {
      if dev then Routed(Route(commands, ParseCommandText(Strip(text)), rd))
      else if verifier.None? then Status(500)
      else
        var verdict := IsValidRequest(verifier.value, mac, now, body, headers);
        if verdict.None? then Status(500)
        else if verdict == Some(false) then Status(403)
        else Routed(Route(commands, ParseCommandText(Strip(text)), rd))
    }
  }

  /**
    Registering `echo` succeeds on a fresh app, and registering `echo` again
    fails whatever the handler, leaving the first registration in place.
   */
  method RegistryExample() returns (app: SlashSlack, first: Option<Error>, second: Option<Error>)
    ensures fresh(app) && app.Valid()
    ensures first == None && second == Some(DuplicateCommand)
    ensures app.commands.Keys == {"echo"} && app.commands["echo"].handler == [Param("s", StrAnnotation, NoDefault)]
  {
    var created := SlashSlack.Create(true, None);
    app := created.value;
    var handler := [Param("s", StrAnnotation, NoDefault)];
    assert ErrorAt(handler, 0).None?;
    assert !exists k :: 0 <= k < |handler| && ErrorAt(handler, k).Some?;
    first := app.Command("echo", handler);
    assert first.None? && app.commands.Keys == {"echo"};
    second := app.Command("echo", []);
  }
}
