/**
 * What the interpreter's steps guarantee across a whole session: the
 * history, the output and the instance cache only grow; an interactive
 * session survives every exception and never exits; a failing script
 * line is reported with its line number and stops the script; and the
 * effect of some typical lines.
 */
module InterpreterProperties {
  import opened Wrappers
  import opened Text
  import opened Grammar
  import opened Exceptions
  import opened Session
  import opened Resolver
  import opened Tokenizer
  import opened Interpreter

  // ---------------------------------------------------------------------
  // What every step preserves

  /** Every cached instance belongs to its class and was created before now. */
  ghost predicate Coherent(w: World)
  {
    forall o :: o in w.instances ==> w.instances[o].owner == o && w.instances[o].serial < w.created
  }

  /**
   * v can follow w: history and output are extended, never edited; the
   * counters do not go back; the mode stays; an instance once cached stays
   * the instance of its class; and a coherent cache stays coherent.
   */
  ghost predicate Evolves(w: World, v: World)
  {
    w.history <= v.history && w.out <= v.out && w.created <= v.created && w.invocations <= v.invocations &&
    v.interactive == w.interactive &&
    (forall o :: o in w.instances ==> o in v.instances && v.instances[o] == w.instances[o]) &&
    (Coherent(w) ==> Coherent(v))
  }

  lemma EvolvesTrans(u: World, v: World, w: World)
    requires Evolves(u, v) && Evolves(v, w)
    ensures Evolves(u, w)
  {
  }

  /** A new instance gets a serial number no cached instance has. */
  lemma FreshInstance(c: Config, w: World, owner: string)
    requires Coherent(w) && owner !in w.instances && c.construct(owner).None?
    ensures CachedInstance(c, w, owner).Ok?
    ensures forall o :: o in w.instances ==> w.instances[o] != CachedInstance(c, w, owner).value.1
    ensures CachedInstance(c, w, owner).value.0.instances[owner] == CachedInstance(c, w, owner).value.1
  {
  }

  /** Unchanged cache and mode, longer output and history, counters not lower: the easy way to follow. */
  lemma EvolvesBy(w: World, v: World)
    requires w.history <= v.history && w.out <= v.out && w.created <= v.created && w.invocations <= v.invocations
    requires v.interactive == w.interactive && v.instances == w.instances
    ensures Evolves(w, v)
  {
  }

  lemma InvokeEvolves(c: Config, w: World, d: Descriptor, obj: Instance, args: seq<string>, store: bool, varName: string)
    ensures Evolves(w, InvokeSpec(c, w, d, obj, args, store, varName).0)
    ensures !InvokeSpec(c, w, d, obj, args, store, varName).1.Exited?
  {
    var bound := ProcessArgumentsSpec(args, d.params, w.variables);
    var w1 := Emit(w, bound.0);
    EvolvesBy(w, w1);
    match bound.1
    case Err(e) =>
    case Ok(arguments) =>
      var returned := c.invoke(d, obj, arguments, w1.invocations);
      var w2 := w1.(invocations := w1.invocations + 1);
      EvolvesBy(w1, w2);
      EvolvesTrans(w, w1, w2);
      match returned
      case Err(e) =>
      case Ok(v) =>
        if store {
          EvolvesBy(w2, w2.(variables := w2.variables[varName := v]));
          EvolvesTrans(w, w2, w2.(variables := w2.variables[varName := v]));
        }
  }

  lemma AnnotationEvolves(c: Config, w: World, d: Descriptor, args: seq<string>, store: bool, varName: string)
    ensures Evolves(w, AnnotationSpec(c, w, d, args, store, varName).0)
    ensures !AnnotationSpec(c, w, d, args, store, varName).1.Exited?
  {
    var r := AnnotationSpec(c, w, d, args, store, varName);
    if |args| > 0 && (args[0] == "-d" || args[0] == "--description") {
      EvolvesBy(w, r.0);
    } else if |args| > 0 && (args[0] == "-h" || args[0] == "--help") {
      EvolvesBy(w, r.0);
    } else {
      CachedEvolves(c, w, d.owner);
      match CachedInstance(c, w, d.owner)
      case Err(_) =>
      case Ok(cached) =>
        assert r == InvokeSpec(c, cached.0, d, cached.1, args, store, varName);
        InvokeEvolves(c, cached.0, d, cached.1, args, store, varName);
        EvolvesTrans(w, cached.0, r.0);
    }
  }

  /** Looking up or creating the instance keeps every cached instance and the cache coherent. */
  lemma CachedEvolves(c: Config, w: World, owner: string)
    ensures CachedInstance(c, w, owner).Ok? ==> Evolves(w, CachedInstance(c, w, owner).value.0)
    ensures CachedInstance(c, w, owner).Ok? ==> CachedInstance(c, w, owner).value.0.history == w.history
  {
  }

  lemma FileErrorEvolves(w: World, input: string, line: nat, filename: string, e: Failure)
    ensures Evolves(w, FileErrorSpec(w, input, line, filename, e).0)
    ensures w.interactive <==> FileErrorSpec(w, input, line, filename, e).1.Completed?
    ensures !w.interactive ==> FileErrorSpec(w, input, line, filename, e).1 == Exited(-1)
  {
  }

  lemma {:induction false} InputEvolves(c: Config, w: World, input: string, depth: nat)
    ensures Evolves(w, HandleInputSpec(c, w, input, depth).0)
    ensures w.interactive ==> !HandleInputSpec(c, w, input, depth).1.Exited?
    decreases depth, 3, 0
  {
    match ParseLine(input)
    case Err(_) =>
    case Ok(p) =>
      CommandsEvolves(c, w, p, depth);
  }

  lemma {:induction false} CommandsEvolves(c: Config, w: World, p: ParsedLine, depth: nat)
    ensures Evolves(w, HandleCommandsSpec(c, w, p, depth).0)
    ensures w.interactive ==> !HandleCommandsSpec(c, w, p, depth).1.Exited?
    decreases depth, 2, 0
  {
    var r := HandleCommandsSpec(c, w, p, depth);
    if IsReserved(c.commands, p.store, p.varName) {
      assert r.0 == w;
      EvolvesBy(w, w);
    } else if p.command in c.commands {
      assert r == AnnotationSpec(c, w, c.commands[p.command], p.args, p.store, p.varName);
      AnnotationEvolves(c, w, c.commands[p.command], p.args, p.store, p.varName);
    } else if p.command == "call" {
      assert r == CallSpec(c, w, p.args, depth);
      CallEvolves(c, w, p.args, depth);
    } else {
      BuiltinEvolves(c, w, p);
    }
  }

  /** v differs from w only in its variables, its files, its flag, and in output added at the end. */
  predicate OnlyOutput(w: World, v: World)
  {
    v.history == w.history && w.out <= v.out && v.instances == w.instances && v.created == w.created &&
    v.invocations == w.invocations && v.interactive == w.interactive
  }

  /** v binds every name other than name exactly as w does. */
  ghost predicate VariablesOnlyAt(w: World, v: World, name: string)
  {
    forall n :: n != name ==> Lookup(v.variables, n) == Lookup(w.variables, n)
  }

  /** v holds every file other than name exactly as w does. */
  ghost predicate FilesOnlyAt(w: World, v: World, name: string)
  {
    forall f :: f != name ==> (f in v.files <==> f in w.files) && (f in w.files ==> v.files[f] == w.files[f])
  }

  /** print, help, write-script, a literal store, and "not found" change no cache and no mode and only add output;
      a variable changes only at the store's target, and a file only under write-script. */
  lemma BuiltinEvolves(c: Config, w: World, p: ParsedLine)
    ensures OnlyOutput(w, BuiltinSpec(c, w, p).0)
    ensures Evolves(w, BuiltinSpec(c, w, p).0)
    ensures !BuiltinSpec(c, w, p).1.Exited?
    ensures VariablesOnlyAt(w, BuiltinSpec(c, w, p).0, p.varName)
    ensures p.command != "write-script" ==> BuiltinSpec(c, w, p).0.files == w.files
    ensures BuiltinSpec(c, w, p).0.fileLoop == w.fileLoop
  {
    var r := BuiltinSpec(c, w, p);
    if p.command == PrintKeyword {
      assert r.0 == Emit(w, PrintLines(w.variables, p.args));
    } else if p.command == HelpKeyword {
      assert r == HelpSpec(c, w, p.args);
      HelpOnlyOutput(c, w, p.args);
    } else if p.command == "write-script" {
      assert r == WriteScriptSpec(w, p.args);
      WriteScriptOnlyOutput(w, p.args);
    } else if p.store && IsStorable(p.command) {
      assert r == StoreSpec(w, p.varName, p.command);
      StoreOnlyOutput(w, p.varName, p.command);
    } else {
      NotFoundOnlyOutput(w, p.command);
    }
    EvolvesBy(w, r.0);
  }

  /** help only prints: no variable, file or flag changes. */
  lemma HelpOnlyOutput(c: Config, w: World, args: seq<string>)
    ensures OnlyOutput(w, HelpSpec(c, w, args).0) && !HelpSpec(c, w, args).1.Exited?
    ensures HelpSpec(c, w, args).0.variables == w.variables
    ensures HelpSpec(c, w, args).0.files == w.files
    ensures HelpSpec(c, w, args).0.fileLoop == w.fileLoop
  {
    if args != [] {
      var found := HelpMatches(c.commandOrder, args[0]);
      if found != [] {
        EmitOnlyOutput(w, [Ln("Commands found with search:" + LineSeparator)] + HelpTexts(c.commands, found));
      }
    }
  }

  /** Printing lines changes the output alone, which it extends. */
  lemma EmitOnlyOutput(w: World, lines: seq<string>)
    ensures OnlyOutput(w, Emit(w, lines)) && Emit(w, lines).out == w.out + lines
    ensures Emit(w, lines).variables == w.variables && Emit(w, lines).files == w.files
    ensures Emit(w, lines).fileLoop == w.fileLoop
  {
  }

  /** write-script prints nothing and binds no variable; it changes the one file its argument names,
      which then holds the history, and no other. */
  lemma WriteScriptOnlyOutput(w: World, args: seq<string>)
    ensures OnlyOutput(w, WriteScriptSpec(w, args).0) && !WriteScriptSpec(w, args).1.Exited?
    ensures WriteScriptSpec(w, args).0.out == w.out
    ensures WriteScriptSpec(w, args).0.variables == w.variables
    ensures WriteScriptSpec(w, args).0.fileLoop == w.fileLoop
    ensures |args| < 2 ==> WriteScriptSpec(w, args).0.files == w.files
    ensures |args| >= 2 ==> FilesOnlyAt(w, WriteScriptSpec(w, args).0, RemoveChar(args[1], '\''))
    ensures WriteScriptSpec(w, args).1.Completed? ==>
      |args| >= 2 && WriteScriptSpec(w, args).0.files[RemoveChar(args[1], '\'')] == HistoryText(w.history)
  {
  }

  /** A literal store prints nothing and writes no file; it binds varName to the stored value and no other name. */
  lemma StoreOnlyOutput(w: World, varName: string, value: string)
    ensures OnlyOutput(w, StoreSpec(w, varName, value).0) && !StoreSpec(w, varName, value).1.Exited?
    ensures StoreSpec(w, varName, value).0.out == w.out
    ensures StoreSpec(w, varName, value).0.files == w.files
    ensures StoreSpec(w, varName, value).0.fileLoop == w.fileLoop
    ensures VariablesOnlyAt(w, StoreSpec(w, varName, value).0, varName)
    ensures StoreSpec(w, varName, value).1.Completed? <==> StoredValue(value).Ok?
    ensures StoredValue(value).Ok? ==> Lookup(StoreSpec(w, varName, value).0.variables, varName) == Some(StoredValue(value).value)
    ensures StoredValue(value).Err? ==> StoreSpec(w, varName, value).0.variables == w.variables
  {
  }

  lemma NotFoundOnlyOutput(w: World, command: string)
    ensures OnlyOutput(w, Emit(w, [Ln("Command '" + command + "' not found.")]))
  {
  }

  lemma {:induction false} CallEvolves(c: Config, w: World, args: seq<string>, depth: nat)
    ensures Evolves(w, CallSpec(c, w, args, depth).0)
    ensures w.interactive ==> !CallSpec(c, w, args, depth).1.Exited?
    decreases depth, 1, 0
  {
    if HasFlag(args, "-f", "--file") && |args| >= 2 && depth > 0 {
      RunFileEvolves(c, w, RemoveChar(args[1], '\''), HasFlag(args, "-d", "--debug"), depth - 1);
    }
  }

  lemma {:induction false} RunFileEvolves(c: Config, w: World, filename: string, debug: bool, depth: nat)
    ensures Evolves(w, RunFileSpec(c, w, filename, debug, depth).0)
    ensures w.interactive ==> !RunFileSpec(c, w, filename, debug, depth).1.Exited?
    decreases depth, 5, 0
  {
    if filename in w.files {
      var start := w.(fileLoop := true);
      LoopEvolves(c, start, filename, ReadLines(w.files[filename]), 0, debug, depth);
      EvolvesTrans(w, start, RunFileSpec(c, w, filename, debug, depth).0);
    }
  }

  lemma {:induction false} LoopEvolves(c: Config, w: World, filename: string, lines: seq<string>, i: nat,
                                       debug: bool, depth: nat)
    requires i <= |lines|
    ensures Evolves(w, FileLoopSpec(c, w, filename, lines, i, debug, depth).0)
    ensures w.interactive ==> !FileLoopSpec(c, w, filename, lines, i, debug, depth).1.Exited?
    decreases depth, 4, |lines| - i
  {
    if i < |lines| && !IsExitKeyword(lines[i]) && w.fileLoop {
      var s := FileLineSpec(c, w, filename, lines[i], i + 1, debug, depth);
      LineEvolves(c, w, filename, lines[i], i + 1, debug, depth);
      if s.1.Completed? {
        LoopEvolves(c, s.0, filename, lines, i + 1, debug, depth);
        EvolvesTrans(w, s.0, FileLoopSpec(c, w, filename, lines, i, debug, depth).0);
      }
    }
  }

  /** One line of a script keeps every invariant of a step, and never exits in interactive mode. */
  lemma LineEvolves(c: Config, w: World, filename: string, text: string, lineNo: nat, debug: bool, depth: nat)
    ensures Evolves(w, FileLineSpec(c, w, filename, text, lineNo, debug, depth).0)
    ensures w.interactive ==> !FileLineSpec(c, w, filename, text, lineNo, debug, depth).1.Exited?
    decreases depth, 3, 2
  {
    var input := Trim(text);
    match StripComments(input)
    case Err(e) =>
      FileErrorEvolves(w, input, lineNo, filename, e);
    case Ok(stripped) =>
      if !IsValidLine(stripped) {
        EvolvesBy(w, w);
      } else {
        var w1 := if debug then Emit(w, [Ln(stripped)]) else w;
        EvolvesBy(w, w1);
        HandledLineEvolves(c, w1, filename, stripped, lineNo, depth);
        EvolvesTrans(w, w1, FileLineSpec(c, w, filename, text, lineNo, debug, depth).0);
      }
  }

  /** LineEvolves on a line that is handled, from the state after its debug echo. */
  lemma HandledLineEvolves(c: Config, w: World, filename: string, stripped: string, lineNo: nat, depth: nat)
    ensures var r := HandleInputSpec(c, w, stripped, depth);
      var s := if r.1.Raised? then FileErrorSpec(r.0, stripped, lineNo, filename, r.1.error) else r;
      Evolves(w, s.0) && (w.interactive ==> !s.1.Exited?)
    decreases depth, 3, 1
  {
    var r := HandleInputSpec(c, w, stripped, depth);
    InputEvolves(c, w, stripped, depth);
    if r.1.Raised? {
      FileErrorEvolves(r.0, stripped, lineNo, filename, r.1.error);
      EvolvesTrans(w, r.0, FileErrorSpec(r.0, stripped, lineNo, filename, r.1.error).0);
    }
  }

  // ---------------------------------------------------------------------
  // The interactive loop

  /**
   * The interactive loop reports every exception and reads on: it ends
   * normally at the end of input or at an exit keyword, or with a stack
   * overflow, and, in interactive mode, never by System.exit.
   */
  lemma {:induction false} RunLoopNeverRaises(c: Config, w: World, lines: seq<string>, i: nat, depth: nat)
    requires i <= |lines|
    ensures !RunLoopSpec(c, w, lines, i, depth).1.Raised?
    ensures w.interactive ==> !RunLoopSpec(c, w, lines, i, depth).1.Exited?
    ensures Evolves(w, RunLoopSpec(c, w, lines, i, depth).0)
    decreases |lines| - i
  {
    if i < |lines| && !IsExitKeyword(lines[i]) {
      var next, stopped := RunLoopStep(c, w, lines, i, depth);
      if !stopped {
        RunLoopNeverRaises(c, next, lines, i + 1, depth);
        EvolvesTrans(w, next, RunLoopSpec(c, w, lines, i, depth).0);
      }
    }
  }

  /** One line of the interactive loop: it either ends the loop abnormally, or leads to the next line's state. */
  lemma RunLoopStep(c: Config, w: World, lines: seq<string>, i: nat, depth: nat) returns (next: World, stopped: bool)
    requires i < |lines| && !IsExitKeyword(lines[i])
    ensures Evolves(w, next)
    ensures stopped ==> RunLoopSpec(c, w, lines, i, depth).0 == next &&
                        (RunLoopSpec(c, w, lines, i, depth).1.Exited? || RunLoopSpec(c, w, lines, i, depth).1.Overflowed?) &&
                        (w.interactive ==> !RunLoopSpec(c, w, lines, i, depth).1.Exited?)
    ensures !stopped ==> RunLoopSpec(c, w, lines, i, depth) == RunLoopSpec(c, next, lines, i + 1, depth)
  {
    var input := Trim(lines[i]);
    stopped := false;
    match StripComments(input)
    case Err(e) =>
      next := ReplErrorSpec(c, w, input, e);
      ReplErrorOnlyOutput(c, w, input, e);
      EvolvesBy(w, next);
    case Ok(stripped) =>
      if !IsValidLine(stripped) {
        next := Emit(w, [c.shellPrefix]);
        EvolvesBy(w, next);
      } else {
        var r := HandleInputSpec(c, w, stripped, depth);
        InputEvolves(c, w, stripped, depth);
        match r.1
        case Completed =>
          next := Emit(r.0, [c.shellPrefix]);
          EvolvesBy(r.0, next);
          EvolvesTrans(w, r.0, next);
        case Raised(e) =>
          next := ReplErrorSpec(c, r.0, stripped, e);
          ReplErrorOnlyOutput(c, r.0, stripped, e);
          EvolvesBy(r.0, next);
          EvolvesTrans(w, r.0, next);
        case _ =>
          next := r.0;
          stopped := true;
      }
  }

  lemma ReplErrorOnlyOutput(c: Config, w: World, input: string, e: Failure)
    ensures OnlyOutput(w, ReplErrorSpec(c, w, input, e))
  {
  }

  /** start() ends normally or by a stack overflow; its catch block is never reached and it never exits. */
  lemma InteractiveSessionSurvives(c: Config, w: World, lines: seq<string>, depth: nat)
    ensures StartSpec(c, w, lines, depth).1 == Completed || StartSpec(c, w, lines, depth).1 == Overflowed
    ensures StartSpec(c, w, lines, depth).0.interactive
    ensures w.history <= StartSpec(c, w, lines, depth).0.history
  {
    var first := Emit(w.(interactive := true), [c.shellPrefix]);
    RunLoopNeverRaises(c, first, lines, 0, depth);
  }

  /** startFromFile never leaves an exception uncaught: it completes, exits, or overflows. */
  lemma StartFromFileOutcomes(c: Config, w: World, filename: string, debug: bool, depth: nat)
    ensures !StartFromFileSpec(c, w, filename, debug, depth).1.Raised?
    ensures filename !in w.files ==>
      StartFromFileSpec(c, w, filename, debug, depth) ==
        (Emit(w, [Ln(filename + " (No such file or directory)")]), Exited(-1))
  {
  }

  // ---------------------------------------------------------------------
  // The history

  /**
   * A line is added to the history after its command completed, and only
   * then; a line that fails leaves the history as it was, unless it was a
   * call whose script recorded its own lines before failing.
   */
  lemma HistoryAfterSuccess(c: Config, w: World, input: string, depth: nat)
    ensures var r := HandleInputSpec(c, w, input, depth);
      r.1.Completed? ==> |r.0.history| > 0 && r.0.history[|r.0.history| - 1] == input &&
                         w.history <= r.0.history[..|r.0.history| - 1]
    ensures var r := HandleInputSpec(c, w, input, depth);
      !r.1.Completed? && (ParseLine(input).Err? || ParseLine(input).value.command != "call") ==>
        r.0.history == w.history
  {
    match ParseLine(input)
    case Err(_) =>
    case Ok(p) =>
      var r := HandleCommandsSpec(c, w, p, depth);
      CommandsEvolves(c, w, p, depth);
      if r.1.Completed? {
        var h := r.0.history + [input];
        assert h[..|h| - 1] == r.0.history;
      }
      if p.command != "call" {
        CommandsKeepHistory(c, w, p, depth);
      }
  }

  /** Only a script call records lines of its own; every other command leaves the history to handleInput. */
  lemma CommandsKeepHistory(c: Config, w: World, p: ParsedLine, depth: nat)
    requires p.command != "call"
    ensures HandleCommandsSpec(c, w, p, depth).0.history == w.history
  {
    var r := HandleCommandsSpec(c, w, p, depth);
    if IsReserved(c.commands, p.store, p.varName) {
    } else if p.command in c.commands {
      assert r == AnnotationSpec(c, w, c.commands[p.command], p.args, p.store, p.varName);
      AnnotationKeepsHistory(c, w, c.commands[p.command], p.args, p.store, p.varName);
    } else {
      assert r == BuiltinSpec(c, w, p);
      BuiltinEvolves(c, w, p);
    }
  }

  lemma AnnotationKeepsHistory(c: Config, w: World, d: Descriptor, args: seq<string>, store: bool, varName: string)
    ensures AnnotationSpec(c, w, d, args, store, varName).0.history == w.history
  {
    if !(|args| > 0 && (args[0] == "-d" || args[0] == "--description" || args[0] == "-h" || args[0] == "--help")) {
      CachedEvolves(c, w, d.owner);
      match CachedInstance(c, w, d.owner)
      case Err(_) =>
      case Ok(cached) =>
        InvokeKeepsHistory(c, cached.0, d, cached.1, args, store, varName);
    }
  }

  lemma InvokeKeepsHistory(c: Config, w: World, d: Descriptor, obj: Instance, args: seq<string>, store: bool,
                           varName: string)
    ensures InvokeSpec(c, w, d, obj, args, store, varName).0.history == w.history
  {
    var bound := ProcessArgumentsSpec(args, d.params, w.variables);
    var w1 := Emit(w, bound.0);
    assert w1.history == w.history;
  }

  /** write-script exports the history before the write-script line itself, and the file reads back line by line. */
  lemma ExportedScriptReadsBack(w: World, args: seq<string>)
    requires WriteScriptSpec(w, args).1.Completed?
    requires forall k :: 0 <= k < |w.history| ==> IsLine(w.history[k])
    ensures |args| >= 2 && RemoveChar(args[1], '\'') in WriteScriptSpec(w, args).0.files
    ensures ReadLines(WriteScriptSpec(w, args).0.files[RemoveChar(args[1], '\'')]) == w.history
  {
    HistoryRoundTrip(w.history);
  }

  // ---------------------------------------------------------------------
  // Scripts

  /**
   * A line whose command fails is reported with its line number (counting
   * from one, blank and comment lines included) and the file name; in
   * interactive mode the script stops there, otherwise "Exit..." follows
   * and the program exits with status -1.
   */
  lemma FailingLineStopsScript(c: Config, w: World, filename: string, lines: seq<string>, i: nat, depth: nat)
    requires i < |lines| && !IsExitKeyword(lines[i]) && w.fileLoop
    requires StripComments(Trim(lines[i])).Ok? && IsValidLine(StripComments(Trim(lines[i])).value)
    requires HandleInputSpec(c, w, StripComments(Trim(lines[i])).value, depth).1.Raised?
    ensures var stripped := StripComments(Trim(lines[i])).value;
      var r := HandleInputSpec(c, w, stripped, depth);
      var report := [Ln("Error at command: '" + stripped + "', at line " + IntToString(i + 1) +
                        ", in file \"" + filename + "\".")] + MessageLines(r.1.error);
      FileLoopSpec(c, w, filename, lines, i, false, depth) ==
        if w.interactive then (Emit(r.0, report).(fileLoop := false), Completed)
        else (Emit(Emit(r.0, report), [Ln("Exit...")]), Exited(-1))
  {
    var stripped := StripComments(Trim(lines[i])).value;
    InputEvolves(c, w, stripped, depth);
  }

  /** A line that cannot be cleaned (an unclosed double quote) is reported the same way, with its trimmed text. */
  lemma UnclosedQuoteStopsScript(c: Config, w: World, filename: string, lines: seq<string>, i: nat, debug: bool,
                                 depth: nat)
    requires i < |lines| && !IsExitKeyword(lines[i]) && w.fileLoop && w.interactive
    requires StripComments(Trim(lines[i])).Err?
    ensures FileLoopSpec(c, w, filename, lines, i, debug, depth) ==
      (Emit(w, [Ln("Error at command: '" + Trim(lines[i]) + "', at line " + IntToString(i + 1) +
                   ", in file \"" + filename + "\"."), Ln("Unclosed string.")]).(fileLoop := false), Completed)
  {
    var e := StripComments(Trim(lines[i])).error;
    assert MessageLines(e) == [Ln("Unclosed string.")];
    var q := FileErrorSpec(w, Trim(lines[i]), i + 1, filename, e);
    assert !q.0.fileLoop && q.1.Completed?;
    assert FileLoopSpec(c, q.0, filename, lines, i + 1, debug, depth) == (q.0, Completed);
    assert FileLoopSpec(c, w, filename, lines, i, debug, depth) == q;
    var head := Ln("Error at command: '" + Trim(lines[i]) + "', at line " + IntToString(i + 1) +
                   ", in file \"" + filename + "\".");
    assert q.0 == Emit(w, [head] + [Ln("Unclosed string.")]).(fileLoop := false);
    assert [head] + [Ln("Unclosed string.")] == [head, Ln("Unclosed string.")];
  }

  /**
   * The script loop shares one fileLoop flag with every script it calls:
   * a line that completes but leaves the flag cleared (a called script
   * that failed in interactive mode) ends the calling script as well.
   */
  lemma ClearedFlagEndsCaller(c: Config, w: World, filename: string, lines: seq<string>, i: nat, depth: nat)
    requires i < |lines| && !IsExitKeyword(lines[i]) && w.fileLoop
    requires StripComments(Trim(lines[i])).Ok? && IsValidLine(StripComments(Trim(lines[i])).value)
    requires var r := HandleInputSpec(c, w, StripComments(Trim(lines[i])).value, depth);
      r.1.Completed? && !r.0.fileLoop
    ensures FileLoopSpec(c, w, filename, lines, i, false, depth) ==
      HandleInputSpec(c, w, StripComments(Trim(lines[i])).value, depth)
  {
  }

  /** Blank lines, comment lines and an exit keyword: the first two are skipped, the last ends the script unread. */
  lemma SkippedLines(c: Config, w: World, filename: string, lines: seq<string>, i: nat, debug: bool, depth: nat)
    requires i < |lines| && w.fileLoop
    ensures IsExitKeyword(lines[i]) ==> FileLoopSpec(c, w, filename, lines, i, debug, depth) == (w, Completed)
    ensures !IsExitKeyword(lines[i]) && StripComments(Trim(lines[i])).Ok? &&
            !IsValidLine(StripComments(Trim(lines[i])).value) ==>
      FileLoopSpec(c, w, filename, lines, i, debug, depth) == FileLoopSpec(c, w, filename, lines, i + 1, debug, depth)
  {
  }

  // ---------------------------------------------------------------------
  // Single lines

  /** On a reserved name the line fails before anything else happens; a name is only reserved on an assignment. */
  lemma ReservedNameRejected(c: Config, w: World, input: string, depth: nat)
    requires ParseLine(input).Ok?
    requires IsReserved(c.commands, ParseLine(input).value.store, ParseLine(input).value.varName)
    ensures ParseLine(input).value.store
    ensures HandleInputSpec(c, w, input, depth) ==
      (w, Raised(IllegalArgument(ParseLine(input).value.varName + " is a reserved keyword")))
  {
  }

  /** A quoted, floating-point or boolean literal can always be stored. */
  lemma StorableStores(value: string)
    requires IsStorable(value)
    ensures StoredValue(value).Ok?
  {
    LoneQuoteNotStorable();
  }

  /** The one text the store branch would fail on, a lone quote, never reaches it. */
  lemma LoneQuoteNotStorable()
    ensures !IsStorable("'")
  {
    QuoteIsNotFloat();
  }

  /**
   * "name=literal" with a literal word that is not a command stores the
   * converted literal under the name and records the line.
   */
  lemma AssignLiteral(c: Config, w: World, name: string, lit: string, depth: nat)
    requires '=' !in name && Unpadded(name) && !IsReserved(c.commands, true, name)
    requires lit != [] && Unpadded(lit) && '"' !in lit && '=' !in lit && IsStorable(lit)
    requires lit !in c.commands && lit != PrintKeyword && lit != HelpKeyword && lit != "call" && lit != "write-script"
    ensures StoredValue(lit).Ok?
    ensures HandleInputSpec(c, w, name + "=" + lit, depth) ==
      (w.(variables := w.variables[name := Some(StoredValue(lit).value)], history := w.history + [name + "=" + lit]),
       Completed)
  {
    AssignmentParse(name, lit);
    StorableStores(lit);
    var p := ParsedLine(true, name, lit, []);
    var r := HandleCommandsSpec(c, w, p, depth);
    assert r == StoreSpec(w, name, lit);
  }

  /** "name=word" parses as an assignment of the command word with no arguments. */
  lemma AssignmentParse(name: string, lit: string)
    requires '=' !in name && Unpadded(name)
    requires lit != [] && Unpadded(lit) && '"' !in lit && '=' !in lit
    ensures ParseLine(name + "=" + lit) == Ok(ParsedLine(true, name, lit, []))
  {
    AssignmentSplit(name, lit);
    WordTokens(lit);
    ParseLineOf(name + "=" + lit, Assignment(true, name, lit), [lit]);
    assert [lit][1..] == [];
  }

  /** "name=word" splits into an assignment to name of the command text word. */
  lemma AssignmentSplit(name: string, lit: string)
    requires '=' !in name && Unpadded(name) && Unpadded(lit)
    ensures SplitAssignment(name + "=" + lit) == Assignment(true, name, lit)
  {
    SplitAssignmentOf(name, lit);
    if lit != [] {
      TrimPadded("", lit, "");
      assert "" + lit + "" == lit;
    }
  }

  /** The parsed line once the assignment split and the tokens of the command text are known. */
  lemma ParseLineOf(input: string, a: Assignment, tokens: seq<string>)
    requires SplitAssignment(input) == a && TokenList(a.commandText) == tokens && tokens != []
    ensures ParseLine(input) == Ok(ParsedLine(a.store, a.varName, tokens[0], tokens[1..]))
  {
  }

  /** A word without whitespace or double quotes is one token. */
  lemma WordTokens(lit: string)
    requires lit != [] && Unpadded(lit) && '"' !in lit
    ensures TokenList(lit) == [lit]
  {
    assert Join([lit], " ") == lit;
    assert lit[0..] == lit;
    forall k | 0 <= k < |lit| ensures !IsRegexSpace(lit[k]) {
      assert !IsTrimmed(lit[k]);
    }
    assert PlainWord([lit][0]);
    TokensOfWords(lit, 0, [lit]);
    NoQuotesUnchanged([lit]);
  }

  /** "help" alone fails reading its missing first argument. */
  lemma HelpWithoutArgument(c: Config, w: World, depth: nat)
    requires HelpKeyword !in c.commands
    ensures HandleInputSpec(c, w, "help", depth) == (w, Raised(IndexOutOfBounds(0, 0)))
  {
    ParseWords(["help"]);
    assert Join(["help"], " ") == "help";
  }

  /** The help of every registered name for which a search finds a match, in order. */
  lemma {:induction false} HelpTextsOfRegistered(commands: map<string, Descriptor>, names: seq<string>)
    requires forall k :: 0 <= k < |names| ==> names[k] in commands
    ensures |HelpTexts(commands, names)| == |names|
    ensures forall k :: 0 <= k < |names| ==> HelpTexts(commands, names)[k] == Ln(HelpText(commands[names[k]]))
  {
    if names != [] {
      var front := names[..|names| - 1];
      var last := names[|names| - 1];
      HelpTextsOfRegistered(commands, front);
      var before := HelpTexts(commands, front);
      var texts := HelpTexts(commands, names);
      assert texts == before + [Ln(HelpText(commands[last]))];
      forall k | 0 <= k < |names|
        ensures texts[k] == Ln(HelpText(commands[names[k]]))
      {
        if k < |front| {
          assert texts[k] == before[k];
          assert names[k] == front[k];
        } else {
          assert names[k] == last;
        }
      }
    }
  }

  /**
   * "help text" prints, after a heading, the help of exactly the
   * registered commands whose names contain text, each once, and nothing
   * when there is none.
   */
  lemma HelpSearchPrintsMatches(c: Config, w: World, args: seq<string>)
    requires ValidConfig(c) && args != []
    ensures var found := HelpMatches(c.commandOrder, args[0]);
      (forall n :: n in found <==> n in c.commands && ContainsPiece(n, args[0])) &&
      (forall i, j :: 0 <= i < j < |found| ==> found[i] != found[j]) &&
      HelpSpec(c, w, args) ==
        (if found == [] then (w, Completed)
         else (Emit(w, [Ln("Commands found with search:" + LineSeparator)] + HelpTexts(c.commands, found)), Completed)) &&
      |HelpTexts(c.commands, found)| == |found| &&
      forall k :: 0 <= k < |found| ==> HelpTexts(c.commands, found)[k] == Ln(HelpText(c.commands[found[k]]))
  {
    var found := HelpMatches(c.commandOrder, args[0]);
    DistinctSubseq(found, c.commandOrder);
    HelpTextsOfRegistered(c.commands, found);
  }

  lemma {:induction false} DistinctSubseq(a: seq<string>, b: seq<string>)
    requires IsSubseq(a, b)
    requires forall i, j :: 0 <= i < j < |b| ==> b[i] != b[j]
    ensures forall i, j :: 0 <= i < j < |a| ==> a[i] != a[j]
    ensures forall x :: x in a ==> x in b
    decreases |b|
  {
    if a != [] {
      if a[0] == b[0] && IsSubseq(a[1..], b[1..]) {
        DistinctSubseq(a[1..], b[1..]);
        forall j | 0 < j < |a| ensures a[0] != a[j] {
          assert a[j] == a[1..][j - 1];
          assert a[j] in b[1..];
          var m :| 0 <= m < |b[1..]| && b[1..][m] == a[j];
          assert b[m + 1] == a[j];
        }
        forall x | x in a ensures x in b {
          if x != a[0] {
            assert x in a[1..];
          }
        }
      } else {
        DistinctSubseq(a, b[1..]);
      }
    }
  }

  /** call and write-script take the file name from the slot after the command, wherever the -f flag is. */
  lemma CallReadsSecondSlot(c: Config, w: World, first: string, second: string, rest: seq<string>, depth: nat)
    requires HasFlag([first, second] + rest, "-f", "--file") && depth > 0
    ensures CallSpec(c, w, [first, second] + rest, depth) ==
      RunFileSpec(c, w, RemoveChar(second, '\''), HasFlag([first, second] + rest, "-d", "--debug"), depth - 1)
    ensures WriteScriptSpec(w, [first, second] + rest) ==
      (w.(files := w.files[RemoveChar(second, '\'') := HistoryText(w.history)]), Completed)
  {
  }

  /** With the flags in the order "-d -f name", call runs the file named "-f". */
  lemma DebugFirstRunsFlagAsFile(c: Config, w: World, name: string, depth: nat)
    requires depth > 0
    ensures CallSpec(c, w, ["-d", "-f", name], depth) == RunFileSpec(c, w, "-f", true, depth - 1)
  {
    CallReadsSecondSlot(c, w, "-d", "-f", [name], depth);
    assert ["-d", "-f"] + [name] == ["-d", "-f", name];
    assert RemoveChar("-f", '\'') == "-f" by {
      RemoveAbsentChar("-f", '\'');
    }
  }

  /** -h and -d print and return: no instance is created, nothing is bound or called. */
  lemma HelpFlagsOnlyPrint(c: Config, w: World, d: Descriptor, args: seq<string>, store: bool, varName: string)
    requires args != [] && args[0] in ["-h", "--help", "-d", "--description"]
    ensures var r := AnnotationSpec(c, w, d, args, store, varName);
      r.1 == Completed && r.0 == Emit(w, [Ln(if args[0] in ["-h", "--help"] then HelpText(d) else d.description)])
  {
  }

  /** A class is instantiated on its first command only; later commands reuse the cached instance. */
  lemma CachedInstanceReused(c: Config, w: World, d: Descriptor, args: seq<string>, store: bool, varName: string)
    requires d.owner in w.instances
    requires args == [] || args[0] !in ["-h", "--help", "-d", "--description"]
    ensures AnnotationSpec(c, w, d, args, store, varName) == InvokeSpec(c, w, d, w.instances[d.owner], args, store, varName)
    ensures AnnotationSpec(c, w, d, args, store, varName).0.created == w.created
    ensures AnnotationSpec(c, w, d, args, store, varName).0.instances == w.instances
  {
  }
}
