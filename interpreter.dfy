/**
 * The interpreter proper (CommandLineInterpreter): the command registry,
 * the dispatch of one line, the per-class instance cache, the built-in
 * commands print, help, call and write-script, and the script and
 * interactive loops.
 *
 * The observable state of one interpreter is a World value. Each step of
 * the interpreter is first defined as a function from a World to the next
 * World and an Outcome; the class CommandLineInterpreter then performs the
 * same step imperatively on its fields and on the session objects, and
 * every one of its methods is proved to produce exactly the World and
 * Outcome that the function computes.
 */
module Interpreter {
  import opened Wrappers
  import opened Text
  import opened Grammar
  import opened Exceptions
  import opened Session
  import opened Resolver
  import opened Tokenizer

  // ---------------------------------------------------------------------
  // The registry of annotated commands

  /** A command is registered under its annotation key, or under its method's name when the key is blank. */
  function CommandName(d: Descriptor): string
  {
    if IsBlank(d.key) then d.methodName else d.key
  }

  /** The commands map after putting every descriptor in turn: a later one replaces an earlier one of the same name. */
  function Registry(descs: seq<Descriptor>): map<string, Descriptor>
  {
    if descs == [] then map[]
    else Registry(descs[..|descs| - 1])[CommandName(descs[|descs| - 1]) := descs[|descs| - 1]]
  }

  /** The registered names, each once, in the order of their first registration. */
  function Names(descs: seq<Descriptor>): (names: seq<string>)
    ensures forall n :: n in names <==> n in Registry(descs)
    ensures forall i, j :: 0 <= i < j < |names| ==> names[i] != names[j]
  {
    if descs == [] then []
    else
      var earlier := Names(descs[..|descs| - 1]);
      var name := CommandName(descs[|descs| - 1]);
      if name in earlier then earlier else earlier + [name]
  }

  /** initialiseAnnotationCommands: one put per annotated method. */
  method InitialiseCommands(descs: seq<Descriptor>) returns (commands: map<string, Descriptor>, order: seq<string>)
    ensures commands == Registry(descs) && order == Names(descs)
  {
    commands := map[];
    order := [];
    var i := 0;
    while i < |descs|
      invariant 0 <= i <= |descs|
      invariant commands == Registry(descs[..i]) && order == Names(descs[..i])
    {
      assert descs[..i + 1][..i] == descs[..i];
      var name := CommandName(descs[i]);
      if name !in commands {
        order := order + [name];
      }
      commands := commands[name := descs[i]];
      i := i + 1;
    }
    assert descs[..|descs|] == descs;
  }

  /** Every registered name belongs to some descriptor, and the last descriptor of a name is the one registered. */
  lemma {:induction false} RegistryLastWins(descs: seq<Descriptor>, i: nat)
    requires i < |descs|
    requires forall j :: i < j < |descs| ==> CommandName(descs[j]) != CommandName(descs[i])
    ensures CommandName(descs[i]) in Registry(descs)
    ensures Registry(descs)[CommandName(descs[i])] == descs[i]
  {
    if i < |descs| - 1 {
      RegistryLastWins(descs[..|descs| - 1], i);
    }
  }

  /** A name is registered exactly when some descriptor carries it. */
  lemma {:induction false} RegistryKeys(descs: seq<Descriptor>, name: string)
    ensures name in Registry(descs) <==> exists i :: 0 <= i < |descs| && CommandName(descs[i]) == name
    ensures name in Registry(descs) ==> CommandName(Registry(descs)[name]) == name
  {
    if descs != [] {
      var front := descs[..|descs| - 1];
      RegistryKeys(front, name);
      if name in Registry(front) {
        var i :| 0 <= i < |front| && CommandName(front[i]) == name;
        assert descs[i] == front[i];
      }
      if exists i :: 0 <= i < |descs| && CommandName(descs[i]) == name {
        var i :| 0 <= i < |descs| && CommandName(descs[i]) == name;
        if i < |descs| - 1 {
          assert front[i] == descs[i];
        }
      }
    }
  }

  // ---------------------------------------------------------------------
  // The observable state

  /** The object the interpreter created for a declaring class; serial tells instances apart. */
  datatype Instance = Instance(owner: string, serial: nat)

  /**
   * What does not change while the interpreter runs: the registered
   * commands, an enumeration of their names (the HashMap's key order), the
   * prompt and the description, and the two reflective operations, given
   * as functions: whether creating an instance of a class fails, and what
   * a method returns or throws when called on an instance with some
   * arguments, after a given number of earlier calls.
   */
  datatype Config = Config(commands: map<string, Descriptor>, commandOrder: seq<string>,
                           shellPrefix: string, description: string,
                           construct: string -> Option<Failure>,
                           invoke: (Descriptor, Instance, seq<Option<Value>>, nat) -> Result<Option<Value>, Failure>)

  /** The key enumeration lists every registered name once. */
  ghost predicate ValidConfig(c: Config)
  {
    (forall n :: n in c.commandOrder <==> n in c.commands) &&
    (forall i, j :: 0 <= i < j < |c.commandOrder| ==> c.commandOrder[i] != c.commandOrder[j])
  }

  /**
   * Everything a step can change: the variables, the history, the files,
   * the instance cache (with the number of instances created so far), the
   * number of method calls made, the text written to the output (one
   * element per print), and the two flags.
   */
  datatype World = World(variables: map<string, Option<Value>>, history: seq<string>, files: map<string, string>,
                         instances: map<string, Instance>, created: nat, invocations: nat,
                         out: seq<string>, interactive: bool, fileLoop: bool)

  /**
   * How a step ends: normally, with an exception that the enclosing loop
   * catches, with System.exit, or with a stack overflow (scripts calling
   * scripts deeper than the model's bound), which no catch block stops.
   */
  datatype Outcome = Completed | Raised(error: Failure) | Exited(status: int) | Overflowed

  function Emit(w: World, lines: seq<string>): World
  {
    w.(out := w.out + lines)
  }

  /** The printed text of the exception translator, when it has one. */
  function MessageLines(e: Failure): seq<string>
  {
    match HandleException(e)
    case Some(m) => [Ln(m)]
    case None => []
  }

  // ---------------------------------------------------------------------
  // The steps, as functions

  /**
   * The reserved-name test, with the source's precedence: the "help" test
   * is not guarded by store.
   */
  predicate IsReserved(commands: map<string, Descriptor>, store: bool, varName: string)
  {
    (store && (varName in commands || IsExitKeyword(varName) || varName == PrintKeyword)) || varName == HelpKeyword
  }

  /** The literals an assignment can store without a command: quoted text, a floating-point literal, or a boolean. */
  predicate IsStorable(command: string)
  {
    IsExplicitLiteral(command) || IsFloatLiteral(command) || command == "true" || command == "false"
  }

  /** storeVariable's conversion: quotes stripped, booleans parsed, anything else kept as text. */
  function StoredValue(value: string): (r: Result<Value, Failure>)
    ensures IsExplicitLiteral(value) ==> r == Ok(VString(value[1..|value| - 1]))
    ensures value == "'" ==> r == Err(SubstringOutOfBounds(1, 0, 1))
    ensures (value == "true" || value == "false") ==> r == Ok(VBoolean(value == "true"))
    ensures !(StartsWith(value, "'") && EndsWith(value, "'")) && value != "true" && value != "false" ==>
      r == Ok(VString(value))
  {
    if StartsWith(value, "'") && EndsWith(value, "'") then
      if |value| < 2 then Err(SubstringOutOfBounds(1, |value| - 1, |value|))
      else Ok(VString(value[1..|value| - 1]))
    else if value == "true" || value == "false" then Ok(VBoolean(value == "true"))
    else Ok(VString(value))
  }

  function StoreSpec(w: World, varName: string, value: string): (World, Outcome)
  {
    match StoredValue(value)
    case Err(e) => (w, Raised(e))
    case Ok(v) => (w.(variables := w.variables[varName := Some(v)]), Completed)
  }

  /** What printVariable prints for one name. */
  function PrintLine(variables: map<string, Option<Value>>, name: string): string
  {
    match Lookup(variables, name)
    case Some(v) => Ln(ToString(v))
    case None => Ln("Object does not exist.")
  }

  function PrintLines(variables: map<string, Option<Value>>, names: seq<string>): (lines: seq<string>)
    ensures |lines| == |names|
    ensures forall k :: 0 <= k < |names| ==> lines[k] == PrintLine(variables, names[k])
  {
    if names == [] then []
    else PrintLines(variables, names[..|names| - 1]) + [PrintLine(variables, names[|names| - 1])]
  }

  /** The command names containing the search text, in enumeration order. */
  function HelpMatches(order: seq<string>, piece: string): (found: seq<string>)
    ensures forall n :: n in found <==> n in order && ContainsPiece(n, piece)
    ensures IsSubseq(found, order)
  {
    if order == [] then []
    else
      var front := order[..|order| - 1];
      var last := order[|order| - 1];
      SubseqCut(order, |order| - 1, |order|);
      assert order[..|order| - 1] + order[|order|..] == front;
      var earlier := HelpMatches(front, piece);
      SubseqTrans(earlier, front, order);
      if ContainsPiece(last, piece) then
        ConcatSubseq(earlier, front, last);
        assert front + [last] == order;
        earlier + [last]
      else earlier
  }

  lemma ConcatSubseq(a: seq<string>, b: seq<string>, x: string)
    requires IsSubseq(a, b)
    ensures IsSubseq(a + [x], b + [x])
  {
    if a == [] {
      SubseqTail(b, x);
      assert a + [x] == [x];
    } else if a[0] == b[0] && IsSubseq(a[1..], b[1..]) {
      ConcatSubseq(a[1..], b[1..], x);
      assert (a + [x])[1..] == a[1..] + [x];
      assert (b + [x])[1..] == b[1..] + [x];
    } else {
      ConcatSubseq(a, b[1..], x);
      assert (b + [x])[1..] == b[1..] + [x];
    }
  }

  lemma {:induction false} SubseqTail(b: seq<string>, x: string)
    ensures IsSubseq([x], b + [x])
  {
    if b != [] {
      SubseqTail(b[1..], x);
      assert (b + [x])[1..] == b[1..] + [x];
    } else {
      assert IsSubseq([x][1..], [x][1..]);
    }
  }

  /** One println of generateHelp per found name. */
  function HelpTexts(commands: map<string, Descriptor>, names: seq<string>): seq<string>
  {
    if names == [] then []
    else
      var last := names[|names| - 1];
      HelpTexts(commands, names[..|names| - 1]) + (if last in commands then [Ln(HelpText(commands[last]))] else [])
  }

  /** help with a search text: the heading and the help of every command whose name contains it. */
  function HelpSpec(c: Config, w: World, args: seq<string>): (World, Outcome)
  {
    if args == [] then (w, Raised(IndexOutOfBounds(0, 0)))
    else
      var found := HelpMatches(c.commandOrder, args[0]);
      if found == [] then (w, Completed)
      else (Emit(w, [Ln("Commands found with search:" + LineSeparator)] + HelpTexts(c.commands, found)), Completed)
  }

  /** Whether args lists one of the two spellings of a flag. */
  predicate HasFlag(args: seq<string>, short: string, long: string)
  {
    short in args || long in args
  }

  function WriteScriptSpec(w: World, args: seq<string>): (World, Outcome)
  {
    if !HasFlag(args, "-f", "--file") then (w, Raised(IllegalArgument("No output file given")))
    else if |args| < 2 then (w, Raised(IndexOutOfBounds(1, |args|)))
    else (w.(files := w.files[RemoveChar(args[1], '\'') := HistoryText(w.history)]), Completed)
  }

  /** The instance of a class: the cached one, or a new one that is then cached. */
  function CachedInstance(c: Config, w: World, owner: string): Result<(World, Instance), Failure>
  {
    if owner in w.instances then Ok((w, w.instances[owner]))
    else
      match c.construct(owner)
      case Some(f) => Err(f)
      case None =>
        var obj := Instance(owner, w.created);
        Ok((w.(instances := w.instances[owner := obj], created := w.created + 1), obj))
  }

  /** Binding, the call, and the optional store of the returned value. */
  function InvokeSpec(c: Config, w: World, d: Descriptor, obj: Instance, args: seq<string>, store: bool,
                      varName: string): (World, Outcome)
  {
    var bound := ProcessArgumentsSpec(args, d.params, w.variables);
    var w1 := Emit(w, bound.0);
    match bound.1
    case Err(e) => (w1, Raised(e))
    case Ok(arguments) =>
      var returned := c.invoke(d, obj, arguments, w1.invocations);
      var w2 := w1.(invocations := w1.invocations + 1);
      match returned
      case Err(e) => (w2, Raised(e))
      case Ok(v) => if store then (w2.(variables := w2.variables[varName := v]), Completed) else (w2, Completed)
  }

  /** handleAnnotationCommand: the description and help flags, else the call. */
  function AnnotationSpec(c: Config, w: World, d: Descriptor, args: seq<string>, store: bool, varName: string)
    : (World, Outcome)
  {
    if |args| > 0 && (args[0] == "-d" || args[0] == "--description") then (Emit(w, [Ln(d.description)]), Completed)
    else if |args| > 0 && (args[0] == "-h" || args[0] == "--help") then (Emit(w, [Ln(HelpText(d))]), Completed)
    else
      match CachedInstance(c, w, d.owner)
      case Err(e) => (w, Raised(e))
      case Ok(cached) => InvokeSpec(c, cached.0, d, cached.1, args, store, varName)
  }

  /** call: the script named by the argument after the command; its depth bound decreases. */
  function CallSpec(c: Config, w: World, args: seq<string>, depth: nat): (World, Outcome)
    decreases depth, 1, 0
  {
    if !HasFlag(args, "-f", "--file") then (w, Raised(IllegalArgument("No file given for call")))
    else if |args| < 2 then (w, Raised(IndexOutOfBounds(1, |args|)))
    else if depth == 0 then (w, Overflowed)
    else RunFileSpec(c, w, RemoveChar(args[1], '\''), HasFlag(args, "-d", "--debug"), depth - 1)
  }

  /**
   * handleCommands: the reserved-name test, then registered commands, then
   * the built-ins. Of the built-ins only call can reach a script, so it is
   * tested here; the others, which are tested in the order print, help,
   * write-script, are in BuiltinSpec.
   */
  function HandleCommandsSpec(c: Config, w: World, p: ParsedLine, depth: nat): (World, Outcome)
    decreases depth, 2, 0
  {
    if IsReserved(c.commands, p.store, p.varName) then
      (w, Raised(IllegalArgument(p.varName + " is a reserved keyword")))
    else if p.command in c.commands then AnnotationSpec(c, w, c.commands[p.command], p.args, p.store, p.varName)
    else if p.command == "call" then CallSpec(c, w, p.args, depth)
    else BuiltinSpec(c, w, p)
  }

  /** print, help and write-script, then a literal store, and "not found" for anything else. */
  function BuiltinSpec(c: Config, w: World, p: ParsedLine): (World, Outcome)
  {
    if p.command == PrintKeyword then (Emit(w, PrintLines(w.variables, p.args)), Completed)
    else if p.command == HelpKeyword then HelpSpec(c, w, p.args)
    else if p.command == "write-script" then WriteScriptSpec(w, p.args)
    else if p.store && IsStorable(p.command) then StoreSpec(w, p.varName, p.command)
    else (Emit(w, [Ln("Command '" + p.command + "' not found.")]), Completed)
  }

  /** handleInput: parse, dispatch, and record the line in the history when dispatch completed. */
  function HandleInputSpec(c: Config, w: World, input: string, depth: nat): (World, Outcome)
    decreases depth, 3, 0
  {
    match ParseLine(input)
    case Err(e) => (w, Raised(e))
    case Ok(p) =>
      var r := HandleCommandsSpec(c, w, p, depth);
      if r.1.Completed? then (r.0.(history := r.0.history + [input]), Completed) else r
  }

  /** The catch block of runFile: report, then exit the program or stop the script. */
  function FileErrorSpec(w: World, input: string, line: nat, filename: string, e: Failure): (World, Outcome)
  {
    var w1 := Emit(w, [Ln("Error at command: '" + input + "', at line " + IntToString(line) + ", in file \"" +
                          filename + "\".")] + MessageLines(e));
    if !w1.interactive then (Emit(w1, [Ln("Exit...")]), Exited(-1))
    else (w1.(fileLoop := false), Completed)
  }

  /** runFile's loop from line i (0-based) on. */
  /**
   * One line of a script, numbered lineNo from one: trimmed and stripped of comments (an unclosed
   * quote is reported as an error at this line), skipped when blank or a comment, otherwise echoed
   * in debug mode and handled; a raised failure is reported with the line number and file name.
   * The script goes on exactly when the outcome is Completed and the file-loop flag is still set.
   */
  function FileLineSpec(c: Config, w: World, filename: string, text: string, lineNo: nat, debug: bool, depth: nat)
    : (World, Outcome)
    decreases depth, 4, 0
  {
    var input := Trim(text);
    match StripComments(input)
    case Err(e) => FileErrorSpec(w, input, lineNo, filename, e)
    case Ok(stripped) =>
      if !IsValidLine(stripped) then (w, Completed)
      else
        var w1 := if debug then Emit(w, [Ln(stripped)]) else w;
        var r := HandleInputSpec(c, w1, stripped, depth);
        match r.1
        case Raised(e) => FileErrorSpec(r.0, stripped, lineNo, filename, e)
        case _ => r
  }

  function FileLoopSpec(c: Config, w: World, filename: string, lines: seq<string>, i: nat, debug: bool, depth: nat)
    : (World, Outcome)
    requires i <= |lines|
    decreases depth, 4, |lines| - i
  {
    if i == |lines| || IsExitKeyword(lines[i]) || !w.fileLoop then (w, Completed)
    else
      var s := FileLineSpec(c, w, filename, lines[i], i + 1, debug, depth);
      if s.1.Completed? then FileLoopSpec(c, s.0, filename, lines, i + 1, debug, depth) else s
  }

  /** runFile: open the file (failing when it does not exist), set fileLoop, and run its lines. */
  function RunFileSpec(c: Config, w: World, filename: string, debug: bool, depth: nat): (World, Outcome)
    decreases depth, 5, 0
  {
    if filename !in w.files then (w, Raised(FileNotFound(filename)))
    else FileLoopSpec(c, w.(fileLoop := true), filename, ReadLines(w.files[filename]), 0, debug, depth)
  }

  /** The catch block of run: report and prompt again. */
  function ReplErrorSpec(c: Config, w: World, input: string, e: Failure): World
  {
    Emit(w, [Ln("Error at command: '" + input + "'.")] + MessageLines(e) + [c.shellPrefix])
  }

  /**
   * One line of run's loop: the new state, the outcome, and whether the
   * loop stops there. An error is reported and the prompt printed again.
   */
  function RunLineSpec(c: Config, w: World, line: string, depth: nat): (World, Outcome, bool)
  {
    var input := Trim(line);
    match StripComments(input)
    case Err(e) => (ReplErrorSpec(c, w, input, e), Completed, false)
    case Ok(stripped) =>
      if !IsValidLine(stripped) then (Emit(w, [c.shellPrefix]), Completed, false)
      else
        var r := HandleInputSpec(c, w, stripped, depth);
        match r.1
        case Completed => (Emit(r.0, [c.shellPrefix]), Completed, false)
        case Raised(e) => (ReplErrorSpec(c, r.0, stripped, e), r.1, false)
        case _ => (r.0, r.1, true)
  }

  /** run's loop from line i on. */
  function RunLoopSpec(c: Config, w: World, lines: seq<string>, i: nat, depth: nat): (World, Outcome)
    requires i <= |lines|
    decreases |lines| - i
  {
    if i == |lines| || IsExitKeyword(lines[i]) then (w, Completed)
    else
      var s := RunLineSpec(c, w, lines[i], depth);
      if s.2 then (s.0, s.1) else RunLoopSpec(c, s.0, lines, i + 1, depth)
  }

  /** start: interactive mode, the prompt, then the lines read from standard input. */
  function StartSpec(c: Config, w: World, lines: seq<string>, depth: nat): (World, Outcome)
  {
    RunLoopSpec(c, Emit(w.(interactive := true), [c.shellPrefix]), lines, 0, depth)
  }

  /** startFromFile: a script that cannot be opened is reported and ends the program. */
  function StartFromFileSpec(c: Config, w: World, filename: string, debug: bool, depth: nat): (World, Outcome)
  {
    var r := RunFileSpec(c, w, filename, debug, depth);
    if r.1.Raised? then (Emit(r.0, [Ln(OrNull(HandleException(r.1.error)))]), Exited(-1)) else r
  }

  // ---------------------------------------------------------------------
  // The interpreter object

  class CommandLineInterpreter {
    const commands: map<string, Descriptor>
    const commandOrder: seq<string>
    const shellPrefix: string
    const description: string
    const construct: string -> Option<Failure>
    const invoke: (Descriptor, Instance, seq<Option<Value>>, nat) -> Result<Option<Value>, Failure>
    /** The process-wide variable store, history and file system. */
    const state: CliState
    const history: CommandHistory
    const disk: FileSystem
    var instances: map<string, Instance>
    var created: nat
    var invocations: nat
    var out: seq<string>
    var interactive: bool
    var fileLoop: bool

    constructor (descs: seq<Descriptor>, shellPrefix: string, description: string,
                 construct: string -> Option<Failure>,
                 invoke: (Descriptor, Instance, seq<Option<Value>>, nat) -> Result<Option<Value>, Failure>,
                 state: CliState, history: CommandHistory, disk: FileSystem)
      ensures commands == Registry(descs) && commandOrder == Names(descs)
      ensures this.shellPrefix == shellPrefix && this.description == description
      ensures this.construct == construct && this.invoke == invoke
      ensures this.state == state && this.history == history && this.disk == disk
      ensures instances == map[] && created == 0 && invocations == 0 && out == []
      ensures !interactive && !fileLoop
      ensures ValidConfig(Settings())
    {
      var registered, order := InitialiseCommands(descs);
      commands := registered;
      commandOrder := order;
      this.shellPrefix := shellPrefix;
      this.description := description;
      this.construct := construct;
      this.invoke := invoke;
      this.state := state;
      this.history := history;
      this.disk := disk;
      instances := map[];
      created := 0;
      invocations := 0;
      out := [];
      interactive := false;
      fileLoop := false;
    }

    function Settings(): Config
    {
      Config(commands, commandOrder, shellPrefix, description, construct, invoke)
    }

    function Snapshot(): World
      reads this, state, history, disk
    {
      World(state.variables, history.entries, disk.files, instances, created, invocations, out, interactive, fileLoop)
    }

    method StoreVariable(varName: string, value: string) returns (o: Outcome)
      modifies state
      ensures (Snapshot(), o) == StoreSpec(old(Snapshot()), varName, value)
    {
      var v: Value;
      if StartsWith(value, "'") && EndsWith(value, "'") {
        if |value| < 2 {
          return Raised(SubstringOutOfBounds(1, |value| - 1, |value|));
        }
        v := VString(value[1..|value| - 1]);
      } else if value == "true" || value == "false" {
        v := VBoolean(value == "true");
      } else {
        v := VString(value);
      }
      state.AddVariable(varName, Some(v));
      o := Completed;
    }

    method PrintVariable(args: seq<string>)
      modifies this
      ensures Snapshot() == Emit(old(Snapshot()), PrintLines(state.variables, args))
    {
      var i := 0;
      while i < |args|
        invariant 0 <= i <= |args|
        invariant Snapshot() == Emit(old(Snapshot()), PrintLines(state.variables, args[..i]))
      {
        assert args[..i + 1][..i] == args[..i];
        var v := state.GetVariable(args[i]);
        if v.Some? {
          out := out + [Ln(ToString(v.value))];
        } else {
          out := out + [Ln("Object does not exist.")];
        }
        i := i + 1;
      }
      assert args[..|args|] == args;
    }

    method FindCommands(piece: string) returns (found: seq<string>)
      ensures found == HelpMatches(commandOrder, piece)
    {
      found := [];
      var i := 0;
      while i < |commandOrder|
        invariant 0 <= i <= |commandOrder|
        invariant found == HelpMatches(commandOrder[..i], piece)
      {
        assert commandOrder[..i + 1][..i] == commandOrder[..i];
        if ContainsPiece(commandOrder[i], piece) {
          found := found + [commandOrder[i]];
        }
        i := i + 1;
      }
      assert commandOrder[..|commandOrder|] == commandOrder;
    }

    method HelpSearch(args: seq<string>) returns (o: Outcome)
      modifies this
      ensures (Snapshot(), o) == HelpSpec(Settings(), old(Snapshot()), args)
    {
      if |args| == 0 {
        return Raised(IndexOutOfBounds(0, 0));
      }
      var found := FindCommands(args[0]);
      if |found| > 0 {
        var heading := [Ln("Commands found with search:" + LineSeparator)];
        out := out + heading;
        PrintHelpTexts(found);
        assert out == old(out) + (heading + HelpTexts(commands, found));
      }
      o := Completed;
    }

    /** The printing loop of the help search: the help of every name that is a registered command, in order. */
    method PrintHelpTexts(names: seq<string>)
      modifies this
      ensures Snapshot() == Emit(old(Snapshot()), HelpTexts(commands, names))
    {
      var i := 0;
      while i < |names|
        invariant 0 <= i <= |names|
        invariant Snapshot() == Emit(old(Snapshot()), HelpTexts(commands, names[..i]))
      {
        assert names[..i + 1][..i] == names[..i];
        if names[i] in commands {
          var text := GenerateHelp(commands[names[i]]);
          out := out + [Ln(text)];
        }
        i := i + 1;
      }
      assert names[..|names|] == names;
    }

    method HandleAnnotationCommand(d: Descriptor, args: seq<string>, store: bool, varName: string) returns (o: Outcome)
      modifies this, state
      ensures (Snapshot(), o) == AnnotationSpec(Settings(), old(Snapshot()), d, args, store, varName)
    {
      if |args| > 0 {
        if args[0] == "-d" || args[0] == "--description" {
          out := out + [Ln(d.description)];
          return Completed;
        }
        if args[0] == "-h" || args[0] == "--help" {
          var text := GenerateHelp(d);
          out := out + [Ln(text)];
          return Completed;
        }
      }
      var cached := InstanceFor(d.owner);
      if cached.Err? {
        return Raised(cached.error);
      }
      o := CallCommand(d, cached.value, args, store, varName);
    }

    /** The cached instance of a class, or a new one that is then cached. */
    method InstanceFor(owner: string) returns (r: Result<Instance, Failure>)
      modifies this
      ensures r.Err? ==> CachedInstance(Settings(), old(Snapshot()), owner) == Err(r.error) && Snapshot() == old(Snapshot())
      ensures r.Ok? ==> CachedInstance(Settings(), old(Snapshot()), owner) == Ok((Snapshot(), r.value))
    {
      if owner in instances {
        return Ok(instances[owner]);
      }
      var failure := construct(owner);
      if failure.Some? {
        return Err(failure.value);
      }
      var obj := Instance(owner, created);
      instances := instances[owner := obj];
      created := created + 1;
      r := Ok(obj);
    }

    /** Bind the arguments, call the method on the instance, and store what it returns when asked to. */
    method CallCommand(d: Descriptor, obj: Instance, args: seq<string>, store: bool, varName: string) returns (o: Outcome)
      modifies this, state
      ensures (Snapshot(), o) == InvokeSpec(Settings(), old(Snapshot()), d, obj, args, store, varName)
    {
      var printed, arguments := ProcessArguments(args, d.params, state.variables);
      out := out + printed;
      if arguments.Err? {
        return Raised(arguments.error);
      }
      var returned := invoke(d, obj, arguments.value, invocations);
      invocations := invocations + 1;
      if returned.Err? {
        return Raised(returned.error);
      }
      if store {
        state.AddVariable(varName, returned.value);
      }
      o := Completed;
    }

    method HandleCommands(command: string, args: seq<string>, store: bool, varName: string, depth: nat)
      returns (o: Outcome)
      modifies this, state, history, disk
      ensures (Snapshot(), o) == HandleCommandsSpec(Settings(), old(Snapshot()), ParsedLine(store, varName, command, args), depth)
      decreases depth, 2, 0
    {
      if IsReserved(commands, store, varName) {
        return Raised(IllegalArgument(varName + " is a reserved keyword"));
      }
      if command in commands {
        o := HandleAnnotationCommand(commands[command], args, store, varName);
        return;
      }
      if command == PrintKeyword {
        PrintVariable(args);
        return Completed;
      }
      if command == HelpKeyword {
        o := HelpSearch(args);
        return;
      }
      if command == "call" {
        o := CallScript(args, depth);
        return;
      }
      if command == "write-script" {
        o := WriteScript(args);
        return;
      }
      if store && IsStorable(command) {
        o := StoreVariable(varName, command);
        return;
      }
      out := out + [Ln("Command '" + command + "' not found.")];
      o := Completed;
    }

    method CallScript(args: seq<string>, depth: nat) returns (o: Outcome)
      modifies this, state, history, disk
      ensures (Snapshot(), o) == CallSpec(Settings(), old(Snapshot()), args, depth)
      decreases depth, 1, 0
    {
      if !HasFlag(args, "-f", "--file") {
        return Raised(IllegalArgument("No file given for call"));
      }
      if |args| < 2 {
        return Raised(IndexOutOfBounds(1, |args|));
      }
      var filename := RemoveChar(args[1], '\'');
      var debug := HasFlag(args, "-d", "--debug");
      if depth == 0 {
        return Overflowed;
      }
      o := RunFile(filename, debug, depth - 1);
    }

    method WriteScript(args: seq<string>) returns (o: Outcome)
      modifies disk
      ensures (Snapshot(), o) == WriteScriptSpec(old(Snapshot()), args)
    {
      if !HasFlag(args, "-f", "--file") {
        return Raised(IllegalArgument("No output file given"));
      }
      if |args| < 2 {
        return Raised(IndexOutOfBounds(1, |args|));
      }
      history.WriteHistoryToFile(disk, RemoveChar(args[1], '\''));
      o := Completed;
    }

    method HandleInput(input: string, depth: nat) returns (o: Outcome)
      modifies this, state, history, disk
      ensures (Snapshot(), o) == HandleInputSpec(Settings(), old(Snapshot()), input, depth)
      decreases depth, 3, 0
    {
      var a := SplitAssignment(input);
      var tokens := ScanTokens(a.commandText);
      if |tokens| == 0 {
        return Raised(IndexOutOfBounds(0, 0));
      }
      o := HandleCommands(tokens[0], tokens[1..], a.store, a.varName, depth);
      if o.Completed? {
        history.AddToHistory(input);
      }
    }

    method ReportFileError(input: string, line: nat, filename: string, e: Failure) returns (o: Outcome)
      modifies this
      ensures (Snapshot(), o) == FileErrorSpec(old(Snapshot()), input, line, filename, e)
    {
      out := out + [Ln("Error at command: '" + input + "', at line " + IntToString(line) + ", in file \"" +
                       filename + "\".")];
      var output := HandleException(e);
      if output.Some? {
        out := out + [Ln(output.value)];
      }
      assert out == old(out) + ([Ln("Error at command: '" + input + "', at line " + IntToString(line) + ", in file \"" +
                                    filename + "\".")] + MessageLines(e));
      if !interactive {
        out := out + [Ln("Exit...")];
        return Exited(-1);
      }
      fileLoop := false;
      o := Completed;
    }

    method RunFile(filename: string, debug: bool, depth: nat) returns (o: Outcome)
      modifies this, state, history, disk
      ensures (Snapshot(), o) == RunFileSpec(Settings(), old(Snapshot()), filename, debug, depth)
      decreases depth, 5, 0
    {
      if filename !in disk.files {
        return Raised(FileNotFound(filename));
      }
      var lines := ReadLines(disk.files[filename]);
      var line: nat := 1;
      fileLoop := true;
      var i := 0;
      while i < |lines| && !IsExitKeyword(lines[i]) && fileLoop
        invariant 0 <= i <= |lines|
        invariant fileLoop ==> line == i + 1
        invariant FileLoopSpec(Settings(), Snapshot(), filename, lines, i, debug, depth) ==
                  RunFileSpec(Settings(), old(Snapshot()), filename, debug, depth)
        decreases |lines| - i
      {
        o, line := RunFileLine(filename, lines[i], line, debug, depth);
        if !o.Completed? {
          return;
        }
        i := i + 1;
      }
      o := Completed;
    }

    /**
     * One pass of runFile's loop, on the line text whose counter is line: the new state and outcome
     * are those of FileLineSpec, and after a completed line with the flag still set the counter is
     * one more.
     */
    method RunFileLine(filename: string, text: string, line: nat, debug: bool, depth: nat)
      returns (o: Outcome, next: nat)
      modifies this, state, history, disk
      ensures (Snapshot(), o) == FileLineSpec(Settings(), old(Snapshot()), filename, text, line, debug, depth)
      ensures o.Completed? && fileLoop ==> next == line + 1
      decreases depth, 4, 0
    {
      next := line;
      var input := Trim(text);
      var stripped := RemoveInlineComments(input);
      if stripped.Err? {
        o := ReportFileError(input, line, filename, stripped.error);
        return;
      }
      input := stripped.value;
      if !IsValidLine(input) {
        return Completed, line + 1;
      }
      if debug {
        out := out + [Ln(input)];
      }
      o := HandleInput(input, depth);
      if o.Raised? {
        o := ReportFileError(input, line, filename, o.error);
      } else if o.Completed? {
        next := line + 1;
      }
    }

    method Run(lines: seq<string>, depth: nat) returns (o: Outcome)
      modifies this, state, history, disk
      ensures (Snapshot(), o) == RunLoopSpec(Settings(), Emit(old(Snapshot()), [shellPrefix]), lines, 0, depth)
    {
      out := out + [shellPrefix];
      var i := 0;
      while i < |lines| && !IsExitKeyword(lines[i])
        invariant 0 <= i <= |lines|
        invariant RunLoopSpec(Settings(), Snapshot(), lines, i, depth) ==
                  RunLoopSpec(Settings(), Emit(old(Snapshot()), [shellPrefix]), lines, 0, depth)
        decreases |lines| - i
      {
        var stop;
        o, stop := RunLine(lines[i], depth);
        if stop {
          return;
        }
        i := i + 1;
      }
      o := Completed;
    }

    /** One iteration of run's loop; stop is set when the command ended the program. */
    method RunLine(line: string, depth: nat) returns (o: Outcome, stop: bool)
      modifies this, state, history, disk
      ensures (Snapshot(), o, stop) == RunLineSpec(Settings(), old(Snapshot()), line, depth)
    {
      o, stop := Completed, false;
      var input := Trim(line);
      var stripped := RemoveInlineComments(input);
      if stripped.Err? {
        ReportError(input, stripped.error);
        return;
      }
      input := stripped.value;
      if !IsValidLine(input) {
        out := out + [shellPrefix];
        return;
      }
      o := HandleInput(input, depth);
      if o.Raised? {
        ReportError(input, o.error);
      } else if o.Completed? {
        out := out + [shellPrefix];
      } else {
        stop := true;
      }
    }

    method ReportError(input: string, e: Failure)
      modifies this
      ensures Snapshot() == ReplErrorSpec(Settings(), old(Snapshot()), input, e)
    {
      out := out + [Ln("Error at command: '" + input + "'.")];
      var output := HandleException(e);
      if output.Some? {
        out := out + [Ln(output.value)];
      }
      out := out + [shellPrefix];
    }

    method Start(lines: seq<string>, depth: nat) returns (o: Outcome)
      modifies this, state, history, disk
      ensures (Snapshot(), o) == StartSpec(Settings(), old(Snapshot()), lines, depth)
    {
      interactive := true;
      o := Run(lines, depth);
    }

    method StartFromFile(filename: string, debug: bool, depth: nat) returns (o: Outcome)
      modifies this, state, history, disk
      ensures (Snapshot(), o) == StartFromFileSpec(Settings(), old(Snapshot()), filename, debug, depth)
    {
      o := RunFile(filename, debug, depth);
      if o.Raised? {
        out := out + [Ln(OrNull(HandleException(o.error)))];
        o := Exited(-1);
      }
    }
  }
}
