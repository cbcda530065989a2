/**
 * The parameter binder (ParameterResolver): matches flags against a
 * command's declared parameters, classifies and coerces each value, and
 * reports leftovers and missing required parameters; and the help text of
 * a command.
 */
module Resolver {
  import opened Wrappers
  import opened Text
  import opened Numbers
  import opened Grammar
  import opened Exceptions
  import opened Session

  /** The declared kinds a parameter can have. */
  datatype Kind = StringKind | IntKind | LongKind | DoubleKind | BooleanKind

  /** A declared Java type: its kind, and whether it is the primitive class (int) rather than the boxed one (Integer). */
  datatype ParamType = ParamType(kind: Kind, primitive: bool)

  /** One declared parameter (a @CommandParameter): its flag keys, whether it is required, its type and help text. */
  datatype ParamSpec = ParamSpec(keys: seq<string>, required: bool, paramType: ParamType, help: string)

  /**
   * A registered command (a @Command method): the annotation's key and
   * description, the method's name, the class that declares it, and its
   * parameters in declaration order.
   */
  datatype Descriptor = Descriptor(key: string, methodName: string, description: string, owner: string,
                                   params: seq<ParamSpec>)

  /** getSimpleName() of the declared type. */
  function SimpleName(t: ParamType): string
  {
    match t.kind
    case StringKind => "String"
    case IntKind => if t.primitive then "int" else "Integer"
    case LongKind => if t.primitive then "long" else "Long"
    case DoubleKind => if t.primitive then "double" else "Double"
    case BooleanKind => if t.primitive then "boolean" else "Boolean"
  }

  /** getName() of a declared type that castParameter hands to Class.cast. */
  function CastTargetName(t: ParamType): string
  {
    if t.kind == BooleanKind then (if t.primitive then "boolean" else "java.lang.Boolean") else "java.lang.String"
  }

  // ---------------------------------------------------------------------
  // castParameter

  /** Double.parseDouble: accepted exactly when the text is a floating-point literal; the value stays opaque. */
  function ParseDouble(s: string): Result<Value, Failure>
  {
    if IsFloatLiteral(s) then Ok(VDouble(s))
    else if Trim(s) == "" then Err(Failure(NumberFormatException, Some("empty String")))
    else Err(ForInputString(Trim(s)))
  }

  /** Class.cast: the value itself when it is an instance of the class; a primitive class has no instances. */
  function Cast(t: ParamType, v: Value): Result<Value, Failure>
  {
    var instance := if t.kind == BooleanKind then v.VBoolean? && !t.primitive else v.VString?;
    if instance then Ok(v)
    else Err(Failure(ClassCastException, Some("Cannot cast " + ClassName(v) + " to " + CastTargetName(t))))
  }

  /** castParameter: parse the text of v for Double, Integer and Long, otherwise Class.cast. */
  function CastParameter(t: ParamType, v: Value): Result<Value, Failure>
  {
    match t.kind
    case DoubleKind => ParseDouble(ToString(v))
    case IntKind =>
      (match ParseInt(ToString(v)) case Some(i) => Ok(VInteger(i)) case None => Err(ForInputString(ToString(v))))
    case LongKind =>
      (match ParseLong(ToString(v)) case Some(l) => Ok(VLong(l)) case None => Err(ForInputString(ToString(v))))
    case _ => Cast(t, v)
  }

  /**
   * An int or long is accepted exactly when the text parses as an integer
   * in range, and is then that integer; a double exactly from a
   * floating-point literal, keeping its text, and a failed double parse is
   * "empty String" for a blank text, else "For input string" of the
   * trimmed text; a failed int or long parse is "For input string".
   * Class.cast accepts a String parameter exactly from a String value and a
   * Boolean parameter exactly from a Boolean value, giving it back
   * unchanged, while a primitive boolean has no instances at all; a
   * refused cast names the value's class and the target class.
   */
  lemma CastParameterMeaning(t: ParamType, v: Value)
    ensures CastParameter(t, v).Ok? && t.kind == IntKind ==> CastParameter(t, v).value.VInteger? && IntMin <= CastParameter(t, v).value.i <= IntMax
    ensures CastParameter(t, v).Ok? && t.kind == LongKind ==> CastParameter(t, v).value.VLong? && LongMin <= CastParameter(t, v).value.l <= LongMax
    ensures CastParameter(t, v).Ok? && t.kind == DoubleKind ==> CastParameter(t, v).value.VDouble? && IsFloatLiteral(CastParameter(t, v).value.literal)
    ensures CastParameter(t, v).Ok? && (t.kind == StringKind || t.kind == BooleanKind) ==> CastParameter(t, v).value == v
    ensures CastParameter(t, v).Err? && t.kind in {IntKind, LongKind} ==> CastParameter(t, v).error == ForInputString(ToString(v))
    ensures t.kind == IntKind ==> (CastParameter(t, v).Ok? <==> ParseInt(ToString(v)).Some?)
    ensures t.kind == IntKind && CastParameter(t, v).Ok? ==> CastParameter(t, v).value.i == ParseInt(ToString(v)).value
    ensures t.kind == LongKind ==> (CastParameter(t, v).Ok? <==> ParseLong(ToString(v)).Some?)
    ensures t.kind == LongKind && CastParameter(t, v).Ok? ==> CastParameter(t, v).value.l == ParseLong(ToString(v)).value
    ensures t.kind == DoubleKind ==> (CastParameter(t, v).Ok? <==> IsFloatLiteral(ToString(v)))
    ensures t.kind == DoubleKind && CastParameter(t, v).Ok? ==> CastParameter(t, v).value.literal == ToString(v)
    ensures t.kind == DoubleKind && CastParameter(t, v).Err? ==>
      CastParameter(t, v).error == if Trim(ToString(v)) == "" then Failure(NumberFormatException, Some("empty String"))
                                   else ForInputString(Trim(ToString(v)))
    ensures t.kind == StringKind ==> (CastParameter(t, v).Ok? <==> v.VString?)
    ensures t.kind == BooleanKind ==> (CastParameter(t, v).Ok? <==> v.VBoolean? && !t.primitive)
    ensures CastParameter(t, v).Err? && (t.kind == StringKind || t.kind == BooleanKind) ==>
      CastParameter(t, v).error ==
        Failure(ClassCastException, Some("Cannot cast " + ClassName(v) + " to " + CastTargetName(t)))
  {
  }

  /** Coercing a value that already has the declared kind gives it back unchanged. */
  lemma CastParameterIdempotent(t: ParamType, v: Value)
    requires CastParameter(t, v).Ok?
    ensures CastParameter(t, CastParameter(t, v).value) == CastParameter(t, v)
  {
    var w := CastParameter(t, v).value;
    match t.kind
    case IntKind => ParseIntegerOfToString(w.i, IntMin, IntMax);
    case LongKind => ParseIntegerOfToString(w.l, LongMin, LongMax);
    case _ =>
  }

  /** Integer.parseInt refuses a fraction or an exponent: "1.5" and "1e3" do not bind to an int. */
  lemma IntRejectsFraction(t: ParamType, s: string, k: nat)
    requires t.kind == IntKind && k < |s| && (s[k] == '.' || s[k] == 'e' || s[k] == 'E')
    ensures CastParameter(t, VString(s)) == Err(ForInputString(s))
  {
    ParseIntegerRejects(s, k, IntMin, IntMax);
  }

  // ---------------------------------------------------------------------
  // Classifying one value

  /** A token that processArguments treats as a quoted literal: it starts and ends with a single quote. */
  predicate IsQuoted(token: string)
  {
    StartsWith(token, "'") && EndsWith(token, "'")
  }

  /** The bound value of one flag's value token; the branches are tried in this order. */
  function ResolveValue(t: ParamType, token: string, variables: map<string, Option<Value>>): Result<Value, Failure>
  {
    if IsQuoted(token) then
      if |token| < 2 then Err(SubstringOutOfBounds(1, 0, 1))
      else CastParameter(t, VString(token[1..|token| - 1]))
    else if IsFloatLiteral(token) then CastParameter(t, VString(token))
    else if token == "true" || token == "false" then Ok(VBoolean(token == "true"))
    else match Lookup(variables, token)
      case Some(v) => CastParameter(t, v)
      case None => Err(IllegalArgument("Variable " + token + " not found."))
  }

  /** A bare word that is neither quoted, numeric nor a boolean names a variable. */
  predicate IsVariableReference(token: string)
  {
    !IsQuoted(token) && !IsFloatLiteral(token) && token != "true" && token != "false"
  }

  /** Only a variable reference reads the variable store; a quoted, numeric or boolean value binds the same in every session. */
  lemma LiteralsIgnoreVariables(t: ParamType, token: string, vs: map<string, Option<Value>>, ws: map<string, Option<Value>>)
    requires !IsVariableReference(token)
    ensures ResolveValue(t, token, vs) == ResolveValue(t, token, ws)
  {
  }

  /** A reference resolves to the stored value coerced to the declared type; an unbound or null one always fails. */
  lemma VariableReference(t: ParamType, token: string, variables: map<string, Option<Value>>)
    requires IsVariableReference(token)
    ensures Lookup(variables, token).None? ==>
      ResolveValue(t, token, variables) == Err(IllegalArgument("Variable " + token + " not found."))
    ensures Lookup(variables, token).Some? ==>
      ResolveValue(t, token, variables) == CastParameter(t, Lookup(variables, token).value)
  {
  }

  /**
   * A primitive boolean parameter binds only from a bare true or false:
   * every quoted, numeric or variable value reaches Class.cast, which a
   * primitive class refuses.
   */
  lemma PrimitiveBooleanTakesBareWords(t: ParamType, token: string, variables: map<string, Option<Value>>)
    requires t.kind == BooleanKind && t.primitive
    ensures ResolveValue(t, token, variables).Ok? <==> (token == "true" || token == "false")
  {
    if token == "true" || token == "false" {
      BareBooleans(t, token, variables);
    }
  }

  /** A bare true or false binds a Boolean whatever the declared type. */
  lemma BareBooleans(t: ParamType, token: string, variables: map<string, Option<Value>>)
    requires token == "true" || token == "false"
    ensures ResolveValue(t, token, variables) == Ok(VBoolean(token == "true"))
  {
    assert !IsQuoted(token);
    BooleanIsNotFloat(token);
  }

  // ---------------------------------------------------------------------
  // processArguments

  /** The work list of processArguments after some parameters: values bound, keys missing, tokens left. */
  datatype BindState = BindState(values: seq<Option<Value>>, missing: seq<seq<string>>, rest: seq<string>)

  /** The first of keys that occurs in args, as (its position in keys, its first position in args). */
  function FindFlag(keys: seq<string>, args: seq<string>): (r: Option<(nat, nat)>)
    ensures r.Some? ==> r.value.0 < |keys| && IndexOf(args, keys[r.value.0]) == Some(r.value.1)
    ensures r.Some? ==> forall j :: 0 <= j < r.value.0 ==> keys[j] !in args
    ensures r.None? ==> forall j :: 0 <= j < |keys| ==> keys[j] !in args
  {
    if keys == [] then None
    else match IndexOf(args, keys[0])
      case Some(i) => Some((0, i))
      case None =>
        match FindFlag(keys[1..], args)
        case Some((j, i)) => Some((j + 1, i))
        case None => None
  }

  /** ArrayList.remove(i): the list with element i taken out and the later ones shifted down. */
  function RemoveAt(s: seq<string>, i: nat): (r: seq<string>)
    requires i < |s|
    ensures |r| == |s| - 1
    decreases i
  {
    if i == 0 then s[1..] else [s[0]] + RemoveAt(s[1..], i - 1)
  }

  /** Removing element i keeps the elements before it and after it, in order. */
  lemma {:induction false} RemoveAtSlices(s: seq<string>, i: nat)
    requires i < |s|
    ensures RemoveAt(s, i) == s[..i] + s[i + 1..]
    decreases i
  {
    if i > 0 {
      RemoveAtSlices(s[1..], i - 1);
      assert s[1..][..i - 1] == s[1..i];
      assert s[1..][i..] == s[i + 1..];
      assert [s[0]] + s[1..i] == s[..i];
    }
  }

  /** Removing the value at i + 1 and then the flag at i cuts out exactly those two tokens. */
  lemma RemovePairSlices(s: seq<string>, i: nat)
    requires i + 1 < |s|
    ensures RemoveAt(RemoveAt(s, i + 1), i) == s[..i] + s[i + 2..]
  {
    RemoveAtSlices(s, i + 1);
    var t := RemoveAt(s, i + 1);
    RemoveAtSlices(t, i);
    assert t[..i] == s[..i];
    assert t[i + 1..] == s[i + 2..];
  }

  /** One iteration of the parameter loop: bind the flag's value, or record the parameter as absent or missing. */
  function BindStep(st: BindState, spec: ParamSpec, variables: map<string, Option<Value>>): Result<BindState, Failure>
  {
    match FindFlag(spec.keys, st.rest)
    case Some((_, i)) =>
      if i + 1 >= |st.rest| then Err(IndexOutOfBounds(i + 1, |st.rest|))
      else
        (match ResolveValue(spec.paramType, st.rest[i + 1], variables)
         case Err(e) => Err(e)
         case Ok(v) => Ok(BindState(st.values + [Some(v)], st.missing, RemoveAt(RemoveAt(st.rest, i + 1), i))))
    case None =>
      if spec.required then Ok(BindState(st.values, st.missing + [spec.keys], st.rest))
      else Ok(BindState(st.values + [Option<Value>.None], st.missing, st.rest))
  }

  /** The work list after the first n parameters. */
  function BindPrefix(args: seq<string>, specs: seq<ParamSpec>, variables: map<string, Option<Value>>, n: nat)
    : Result<BindState, Failure>
    requires n <= |specs|
  {
    if n == 0 then Ok(BindState([], [], args))
    else match BindPrefix(args, specs, variables, n - 1)
      case Err(e) => Err(e)
      case Ok(st) => BindStep(st, specs[n - 1], variables)
  }

  lemma BindPrefixNext(args: seq<string>, specs: seq<ParamSpec>, variables: map<string, Option<Value>>, n: nat)
    requires n < |specs| && BindPrefix(args, specs, variables, n).Ok?
    ensures BindPrefix(args, specs, variables, n + 1) == BindStep(BindPrefix(args, specs, variables, n).value, specs[n], variables)
  {
  }

  /** The loop's step: binding parameter n from the state after n parameters gives the state after n + 1. */
  lemma BindAdvance(args: seq<string>, specs: seq<ParamSpec>, variables: map<string, Option<Value>>, n: nat,
                    st: BindState, step: Result<BindState, Failure>)
    requires n < |specs| && BindPrefix(args, specs, variables, n) == Ok(st)
    requires step == BindStep(st, specs[n], variables)
    ensures BindPrefix(args, specs, variables, n + 1) == step
  {
    BindPrefixNext(args, specs, variables, n);
  }

  /** The first exception ends the parameter loop: later parameters are not looked at. */
  lemma {:induction false} BindFailureSticks(args: seq<string>, specs: seq<ParamSpec>,
                                             variables: map<string, Option<Value>>, n: nat, m: nat)
    requires n <= m <= |specs| && BindPrefix(args, specs, variables, n).Err?
    ensures BindPrefix(args, specs, variables, m) == BindPrefix(args, specs, variables, n)
    decreases m - n
  {
    if n < m {
      BindFailureSticks(args, specs, variables, n + 1, m);
    }
  }

  function UnrecognizedLine(a: string, b: string): string
  {
    Ln("Unrecognized parameter: " + a + " " + b)
  }

  /** The warnings printed for leftover tokens, one per pair; an unpaired last token has no line. */
  function WarningLines(rest: seq<string>): seq<string>
  {
    if |rest| < 2 then [] else [UnrecognizedLine(rest[0], rest[1])] + WarningLines(rest[2..])
  }

  /** The lines "\t- [keys]" of the missing-parameter error, each after a line separator. */
  function MissingList(missing: seq<seq<string>>): string
  {
    if missing == [] then "" else MissingList(missing[..|missing| - 1]) + LineSeparator + "\t- " + ArrayToString(missing[|missing| - 1])
  }

  function MissingMessage(missing: seq<seq<string>>): string
  {
    "Please add parameter(s) with key(s): " + MissingList(missing)
  }

  /**
   * processArguments: the lines it prints and the bound values or the
   * exception. Leftover tokens are reported before missing parameters; an odd
   * number of them makes the report read past the end.
   */
  function ProcessArgumentsSpec(args: seq<string>, specs: seq<ParamSpec>, variables: map<string, Option<Value>>)
    : (seq<string>, Result<seq<Option<Value>>, Failure>)
  {
    match BindPrefix(args, specs, variables, |specs|)
    case Err(e) => ([], Err(e))
    case Ok(st) => ProcessFinish(st)
  }

  /** What processArguments does once every parameter is bound: report leftovers, then missing parameters. */
  function ProcessFinish(st: BindState): (seq<string>, Result<seq<Option<Value>>, Failure>)
  {
    var warnings := WarningLines(st.rest);
    if |st.rest| % 2 == 1 then (warnings, Err(IndexOutOfBounds(|st.rest|, |st.rest|)))
    else if st.missing != [] then (warnings, Err(IllegalArgument(MissingMessage(st.missing))))
    else (warnings, Ok(st.values))
  }

  /** The first position of x in args, by the loop of ArrayList.indexOf. */
  method IndexOfArg(args: seq<string>, x: string) returns (r: Option<nat>)
    ensures r == IndexOf(args, x)
  {
    var i := 0;
    while i < |args|
      invariant 0 <= i <= |args|
      invariant x !in args[..i]
    {
      if args[i] == x {
        assert IndexOf(args, x) == Some(i) by { IndexOfFirst(args, x, i); }
        return Some(i);
      }
      assert args[..i + 1] == args[..i] + [args[i]];
      i := i + 1;
    }
    assert args[..i] == args;
    return None;
  }

  lemma IndexOfFirst(args: seq<string>, x: string, i: nat)
    requires i < |args| && args[i] == x && x !in args[..i]
    ensures IndexOf(args, x) == Some(i)
  {
  }

  /** The key loop of processArguments: the first key that occurs, at its first occurrence. */
  method FindFlagIndex(keys: seq<string>, rest: seq<string>) returns (keyIndex: Option<nat>)
    ensures keyIndex.Some? <==> FindFlag(keys, rest).Some?
    ensures keyIndex.Some? ==> keyIndex.value == FindFlag(keys, rest).value.1
  {
    keyIndex := None;
    var j := 0;
    while j < |keys|
      invariant 0 <= j <= |keys|
      invariant FindFlag(keys[..j], rest).None?
    {
      var index := IndexOfArg(rest, keys[j]);
      if index.Some? {
        FindFlagAt(keys, rest, j);
        keyIndex := index;
        return;
      }
      FindFlagExtend(keys, rest, j);
      j := j + 1;
    }
    assert keys[..j] == keys;
  }

  /** The report loop over leftover tokens: one line per pair, and the index error of an unpaired last token. */
  method ReportLeftovers(rest: seq<string>) returns (printed: seq<string>, unpaired: bool)
    ensures printed == WarningLines(rest)
    ensures unpaired <==> |rest| % 2 == 1
  {
    printed := [];
    var i := 0;
    while i < |rest|
      invariant 0 <= i <= |rest| && i % 2 == 0
      invariant printed + WarningLines(rest[i..]) == WarningLines(rest)
    {
      if i + 1 >= |rest| {
        assert WarningLines(rest[i..]) == [];
        return printed, true;
      }
      assert rest[i..][2..] == rest[i + 2..];
      printed := printed + [UnrecognizedLine(rest[i], rest[i + 1])];
      i := i + 2;
    }
    assert rest[i..] == [];
    unpaired := false;
  }

  /** The StringBuilder loop of the missing-parameter message. */
  method BuildMissingList(missing: seq<seq<string>>) returns (text: string)
    ensures text == MissingList(missing)
  {
    text := "";
    var m := 0;
    while m < |missing|
      invariant 0 <= m <= |missing|
      invariant text == MissingList(missing[..m])
    {
      assert missing[..m + 1][..m] == missing[..m];
      text := text + LineSeparator + "\t- " + ArrayToString(missing[m]);
      m := m + 1;
    }
    assert missing[..m] == missing;
  }

  /** One iteration of the parameter loop of processArguments. */
  method BindParameter(values: seq<Option<Value>>, missing: seq<seq<string>>, rest: seq<string>, spec: ParamSpec,
                       variables: map<string, Option<Value>>)
    returns (r: Result<BindState, Failure>)
    ensures r == BindStep(BindState(values, missing, rest), spec, variables)
  {
    var keyIndex := FindFlagIndex(spec.keys, rest);
    if keyIndex.Some? {
      var k := keyIndex.value;
      if k + 1 >= |rest| {
        return Err(IndexOutOfBounds(k + 1, |rest|));
      }
      var bound := ResolveValue(spec.paramType, rest[k + 1], variables);
      if bound.Err? {
        return Err(bound.error);
      }
      var left := RemoveAt(rest, k + 1);
      left := RemoveAt(left, k);
      r := Ok(BindState(values + [Some(bound.value)], missing, left));
    } else if spec.required {
      r := Ok(BindState(values, missing + [spec.keys], rest));
    } else {
      r := Ok(BindState(values + [None], missing, rest));
    }
  }

  /** Parameter n bound from the state after n parameters: the state after n + 1. */
  method BindNext(args: seq<string>, specs: seq<ParamSpec>, variables: map<string, Option<Value>>, n: nat, st: BindState)
    returns (step: Result<BindState, Failure>)
    requires n < |specs| && BindPrefix(args, specs, variables, n) == Ok(st)
    ensures step == BindPrefix(args, specs, variables, n + 1)
  {
    step := BindParameter(st.values, st.missing, st.rest, specs[n], variables);
    BindAdvance(args, specs, variables, n, st, step);
  }

  /** The parameter loop of processArguments, consuming matched tokens from the work list in place. */
  method BindAll(args: seq<string>, specs: seq<ParamSpec>, variables: map<string, Option<Value>>)
    returns (r: Result<BindState, Failure>)
    ensures r == BindPrefix(args, specs, variables, |specs|)
  {
    var st := BindState([], [], args);
    for n := 0 to |specs|
      invariant BindPrefix(args, specs, variables, n) == Ok(st)
    {
      var step := BindNext(args, specs, variables, n, st);
      if step.Err? {
        BindFailureSticks(args, specs, variables, n + 1, |specs|);
        return step;
      }
      st := step.value;
    }
    r := Ok(st);
  }

  /** The end of processArguments: the leftover report, then the missing-parameter error. */
  method FinishBind(st: BindState) returns (printed: seq<string>, r: Result<seq<Option<Value>>, Failure>)
    ensures (printed, r) == ProcessFinish(st)
  {
    var unpaired;
    printed, unpaired := ReportLeftovers(st.rest);
    if unpaired {
      return printed, Err(IndexOutOfBounds(|st.rest|, |st.rest|));
    }
    if |st.missing| > 0 {
      var text := BuildMissingList(st.missing);
      return printed, Err(IllegalArgument("Please add parameter(s) with key(s): " + text));
    }
    r := Ok(st.values);
  }

  /** processArguments. */
  method ProcessArguments(args: seq<string>, specs: seq<ParamSpec>, variables: map<string, Option<Value>>)
    returns (printed: seq<string>, r: Result<seq<Option<Value>>, Failure>)
    ensures (printed, r) == ProcessArgumentsSpec(args, specs, variables)
  {
    var bound := BindAll(args, specs, variables);
    if bound.Err? {
      return [], Err(bound.error);
    }
    printed, r := FinishBind(bound.value);
  }

  lemma FindFlagAt(keys: seq<string>, args: seq<string>, j: nat)
    requires j < |keys| && FindFlag(keys[..j], args).None? && keys[j] in args
    ensures FindFlag(keys, args).Some? && FindFlag(keys, args).value.0 == j
    ensures IndexOf(args, keys[j]).Some? && FindFlag(keys, args).value.1 == IndexOf(args, keys[j]).value
  {
    forall i | 0 <= i < j ensures keys[i] !in args {
      assert keys[..j][i] == keys[i];
    }
    var r := FindFlag(keys, args);
    assert r.Some?;
  }

  lemma FindFlagExtend(keys: seq<string>, args: seq<string>, j: nat)
    requires j < |keys| && FindFlag(keys[..j], args).None? && keys[j] !in args
    ensures FindFlag(keys[..j + 1], args).None?
  {
    forall i | 0 <= i < j ensures keys[i] !in args {
      assert keys[..j][i] == keys[i];
    }
    assert forall i :: 0 <= i < j + 1 ==> keys[..j + 1][i] == keys[i];
  }

  // ---------------------------------------------------------------------
  // Properties of the binder

  /** A bound value has the declared kind, except that a bare true or false binds a Boolean for any kind. */
  predicate Conforms(t: ParamType, v: Value)
  {
    v.VBoolean? ||
    match t.kind
    case StringKind => v.VString?
    case IntKind => v.VInteger? && IntMin <= v.i <= IntMax
    case LongKind => v.VLong? && LongMin <= v.l <= LongMax
    case DoubleKind => v.VDouble?
    case BooleanKind => false
  }

  lemma ResolveValueConforms(t: ParamType, token: string, variables: map<string, Option<Value>>)
    requires ResolveValue(t, token, variables).Ok?
    ensures Conforms(t, ResolveValue(t, token, variables).value)
  {
    var v := ResolveValue(t, token, variables).value;
    if IsQuoted(token) {
      assert v == CastParameter(t, VString(token[1..|token| - 1])).value;
    } else if IsFloatLiteral(token) {
      assert v == CastParameter(t, VString(token)).value;
    } else if token == "true" || token == "false" {
    } else {
      assert v == CastParameter(t, Lookup(variables, token).value).value;
    }
  }

  /** A value that may stand for spec in a successful bind. */
  predicate ValueFits(spec: ParamSpec, v: Option<Value>)
  {
    (v.None? ==> !spec.required) && (v.Some? ==> Conforms(spec.paramType, v.value))
  }

  /**
   * The effect of one parameter on the work list: one fitting value appended,
   * null exactly when no key was found; or, for a required parameter none of
   * whose keys is left, its keys recorded as missing. A parameter whose key is
   * not found leaves the tokens as they were.
   */
  predicate StepEffect(st: BindState, spec: ParamSpec, next: BindState)
  {
    IsSubseq(next.rest, st.rest) &&
    (FindFlag(spec.keys, st.rest).None? ==> next.rest == st.rest) &&
    ((|next.values| == |st.values| + 1 && next.values[..|st.values|] == st.values && next.missing == st.missing &&
      ValueFits(spec, next.values[|st.values|]) &&
      (next.values[|st.values|].None? <==> FindFlag(spec.keys, st.rest).None?)) ||
     (next.values == st.values && next.missing == st.missing + [spec.keys] &&
      spec.required && FindFlag(spec.keys, st.rest).None?))
  }

  lemma BindStepShape(st: BindState, spec: ParamSpec, variables: map<string, Option<Value>>)
    requires BindStep(st, spec, variables).Ok?
    ensures StepEffect(st, spec, BindStep(st, spec, variables).value)
  {
    var next := BindStep(st, spec, variables).value;
    match FindFlag(spec.keys, st.rest)
    case Some((_, i)) =>
      var r := ResolveValue(spec.paramType, st.rest[i + 1], variables);
      ResolveValueConforms(spec.paramType, st.rest[i + 1], variables);
      assert next == BindState(st.values + [Some(r.value)], st.missing, RemoveAt(RemoveAt(st.rest, i + 1), i));
      FoundEffect(st, spec, r.value, i, next);
    case None =>
      AbsentEffect(st, spec, next);
  }

  /** The value branch of StepEffect, for a key found at position i with a conforming value after it. */
  lemma FoundEffect(st: BindState, spec: ParamSpec, v: Value, i: nat, next: BindState)
    requires FindFlag(spec.keys, st.rest).Some? && FindFlag(spec.keys, st.rest).value.1 == i && i + 1 < |st.rest|
    requires Conforms(spec.paramType, v)
    requires next == BindState(st.values + [Some(v)], st.missing, RemoveAt(RemoveAt(st.rest, i + 1), i))
    ensures StepEffect(st, spec, next)
  {
    RemovePairSlices(st.rest, i);
    SubseqCut(st.rest, i, i + 2);
    assert next.values[..|st.values|] == st.values;
  }

  /** When no key is left, the parameter is recorded as missing or bound to null, and the tokens stay. */
  lemma AbsentEffect(st: BindState, spec: ParamSpec, next: BindState)
    requires FindFlag(spec.keys, st.rest).None?
    requires next == if spec.required then BindState(st.values, st.missing + [spec.keys], st.rest)
                     else BindState(st.values + [Option<Value>.None], st.missing, st.rest)
    ensures StepEffect(st, spec, next)
  {
    SubseqRefl(st.rest);
    assert next.values[..|st.values|] == st.values;
  }

  /**
   * After n parameters, one entry per parameter sits in values or missing,
   * and the tokens left are args with the consumed ones dropped.
   */
  lemma {:induction false} BindCount(args: seq<string>, specs: seq<ParamSpec>, variables: map<string, Option<Value>>, n: nat)
    requires n <= |specs| && BindPrefix(args, specs, variables, n).Ok?
    ensures |BindPrefix(args, specs, variables, n).value.values| + |BindPrefix(args, specs, variables, n).value.missing| == n
    ensures IsSubseq(BindPrefix(args, specs, variables, n).value.rest, args)
  {
    if n == 0 {
      SubseqRefl(args);
    } else {
      BindCount(args, specs, variables, n - 1);
      var st := BindPrefix(args, specs, variables, n - 1).value;
      BindPrefixNext(args, specs, variables, n - 1);
      BindStepShape(st, specs[n - 1], variables);
      SubseqTrans(BindPrefix(args, specs, variables, n).value.rest, st.rest, args);
    }
  }

  /** A step after which nothing is missing appended one fitting value to a list with nothing missing. */
  lemma StepWithoutMissing(st: BindState, spec: ParamSpec, variables: map<string, Option<Value>>)
    requires BindStep(st, spec, variables).Ok? && BindStep(st, spec, variables).value.missing == []
    ensures var next := BindStep(st, spec, variables).value;
      st.missing == [] && |next.values| == |st.values| + 1 && next.values[..|st.values|] == st.values &&
      ValueFits(spec, next.values[|st.values|])
  {
    BindStepShape(st, spec, variables);
  }

  /**
   * While nothing is missing, value i belongs to parameter i: it has the
   * declared kind, and is null only for an optional parameter.
   */
  lemma {:induction false} BindAligned(args: seq<string>, specs: seq<ParamSpec>, variables: map<string, Option<Value>>, n: nat)
    requires n <= |specs| && BindPrefix(args, specs, variables, n).Ok?
    requires BindPrefix(args, specs, variables, n).value.missing == []
    ensures var values := BindPrefix(args, specs, variables, n).value.values;
      |values| == n && forall i :: 0 <= i < n ==> ValueFits(specs[i], values[i])
  {
    if n > 0 {
      var st := BindPrefix(args, specs, variables, n - 1).value;
      BindPrefixNext(args, specs, variables, n - 1);
      var next := BindPrefix(args, specs, variables, n).value;
      StepWithoutMissing(st, specs[n - 1], variables);
      BindAligned(args, specs, variables, n - 1);
      forall i | 0 <= i < n ensures ValueFits(specs[i], next.values[i]) {
        if i < n - 1 {
          assert next.values[..n - 1][i] == next.values[i];
        }
      }
    }
  }

  /**
   * A successful bind yields exactly one value per declared parameter, in
   * declaration order, each of its declared kind, null only where an
   * optional parameter was not given.
   */
  lemma OneValuePerParameter(args: seq<string>, specs: seq<ParamSpec>, variables: map<string, Option<Value>>)
    requires ProcessArgumentsSpec(args, specs, variables).1.Ok?
    ensures var values := ProcessArgumentsSpec(args, specs, variables).1.value;
      |values| == |specs| && forall i :: 0 <= i < |specs| ==> ValueFits(specs[i], values[i])
  {
    BindAligned(args, specs, variables, |specs|);
  }

  /** The keys of the required parameters, in declaration order. */
  function RequiredKeys(specs: seq<ParamSpec>): seq<seq<string>>
  {
    if specs == [] then []
    else RequiredKeys(specs[..|specs| - 1]) + (if specs[|specs| - 1].required then [specs[|specs| - 1].keys] else [])
  }

  /** One null per optional parameter. */
  function OptionalNulls(specs: seq<ParamSpec>): seq<Option<Value>>
  {
    if specs == [] then []
    else OptionalNulls(specs[..|specs| - 1]) + (if specs[|specs| - 1].required then [] else [Option<Value>.None])
  }

  predicate NoFlagGiven(args: seq<string>, specs: seq<ParamSpec>)
  {
    forall i, j :: 0 <= i < |specs| && 0 <= j < |specs[i].keys| ==> specs[i].keys[j] !in args
  }

  lemma {:induction false} BindWithoutFlags(args: seq<string>, specs: seq<ParamSpec>, variables: map<string, Option<Value>>, n: nat)
    requires n <= |specs| && NoFlagGiven(args, specs)
    ensures BindPrefix(args, specs, variables, n) == Ok(BindState(OptionalNulls(specs[..n]), RequiredKeys(specs[..n]), args))
  {
    if n > 0 {
      BindWithoutFlags(args, specs, variables, n - 1);
      BindPrefixNext(args, specs, variables, n - 1);
      assert specs[..n][..n - 1] == specs[..n - 1];
      var spec := specs[n - 1];
      assert specs[..n][n - 1] == spec;
      assert FindFlag(spec.keys, args).None?;
      var st := BindState(OptionalNulls(specs[..n - 1]), RequiredKeys(specs[..n - 1]), args);
      if spec.required {
        assert OptionalNulls(specs[..n]) == st.values;
        assert RequiredKeys(specs[..n]) == st.missing + [spec.keys];
      } else {
        assert OptionalNulls(specs[..n]) == st.values + [Option<Value>.None];
        assert RequiredKeys(specs[..n]) == st.missing;
      }
    } else {
      assert specs[..n] == [];
    }
  }

  /**
   * When none of the flags is given, every required parameter is reported
   * in one error, in declaration order, after the leftover tokens; with no
   * required parameter every value is null.
   */
  lemma MissingReportedTogether(args: seq<string>, specs: seq<ParamSpec>, variables: map<string, Option<Value>>)
    requires NoFlagGiven(args, specs) && |args| % 2 == 0
    ensures ProcessArgumentsSpec(args, specs, variables) ==
      (WarningLines(args),
       if RequiredKeys(specs) == [] then Ok(OptionalNulls(specs))
       else Err(IllegalArgument(MissingMessage(RequiredKeys(specs)))))
  {
    BindWithoutFlags(args, specs, variables, |specs|);
    assert specs[..|specs|] == specs;
  }

  /** The keys of the required parameters among the first n whose flag was not found when their turn came. */
  function MissingKeys(args: seq<string>, specs: seq<ParamSpec>, variables: map<string, Option<Value>>, n: nat)
    : seq<seq<string>>
    requires n <= |specs|
  {
    if n == 0 then []
    else
      MissingKeys(args, specs, variables, n - 1) +
      match BindPrefix(args, specs, variables, n - 1)
      case Ok(st) =>
        if specs[n - 1].required && FindFlag(specs[n - 1].keys, st.rest).None? then [specs[n - 1].keys] else []
      case Err(_) => []
  }

  /** The missing list holds, in declaration order, exactly the required parameters whose flag was not found. */
  lemma {:induction false} MissingIsNotFound(args: seq<string>, specs: seq<ParamSpec>,
                                             variables: map<string, Option<Value>>, n: nat)
    requires n <= |specs| && BindPrefix(args, specs, variables, n).Ok?
    ensures BindPrefix(args, specs, variables, n).value.missing == MissingKeys(args, specs, variables, n)
  {
    if n > 0 {
      MissingIsNotFound(args, specs, variables, n - 1);
      var st := BindPrefix(args, specs, variables, n - 1).value;
      BindPrefixNext(args, specs, variables, n - 1);
      BindStepShape(st, specs[n - 1], variables);
    }
  }

  /** Later parameters only add to the missing list. */
  lemma MissingKeysGrow(args: seq<string>, specs: seq<ParamSpec>,
                         variables: map<string, Option<Value>>, n: nat, m: nat)
    requires n <= m <= |specs|
    ensures MissingKeys(args, specs, variables, n) <= MissingKeys(args, specs, variables, m)
  {
    var k := n;
    while k < m
      invariant n <= k <= m
      invariant MissingKeys(args, specs, variables, n) <= MissingKeys(args, specs, variables, k)
    {
      MissingKeysExtend(args, specs, variables, k);
      k := k + 1;
    }
  }

  /** One more parameter only appends to MissingKeys. */
  lemma MissingKeysExtend(args: seq<string>, specs: seq<ParamSpec>, variables: map<string, Option<Value>>, n: nat)
    requires n < |specs|
    ensures MissingKeys(args, specs, variables, n) <= MissingKeys(args, specs, variables, n + 1)
  {
  }

  /** If binding all m parameters goes through, so does binding the first n. */
  lemma BoundBefore(args: seq<string>, specs: seq<ParamSpec>, variables: map<string, Option<Value>>, n: nat, m: nat)
    requires n <= m <= |specs| && BindPrefix(args, specs, variables, m).Ok?
    ensures BindPrefix(args, specs, variables, n).Ok?
  {
    if BindPrefix(args, specs, variables, n).Err? {
      BindFailureSticks(args, specs, variables, n, m);
      assert false;
    }
  }

  /** Keys absent from the arguments are absent from every later work list. */
  lemma AbsentStaysAbsent(args: seq<string>, specs: seq<ParamSpec>, variables: map<string, Option<Value>>, n: nat,
                          keys: seq<string>)
    requires n <= |specs| && BindPrefix(args, specs, variables, n).Ok?
    requires forall j :: 0 <= j < |keys| ==> keys[j] !in args
    ensures FindFlag(keys, BindPrefix(args, specs, variables, n).value.rest).None?
  {
    var rest := BindPrefix(args, specs, variables, n).value.rest;
    BindCount(args, specs, variables, n);
    forall j | 0 <= j < |keys| ensures keys[j] !in rest {
      if keys[j] in rest {
        SubseqMembers(rest, args, keys[j]);
      }
    }
  }

  /** A required parameter whose flag is not found adds its keys to MissingKeys. */
  lemma MissingKeysAdd(args: seq<string>, specs: seq<ParamSpec>, variables: map<string, Option<Value>>, n: nat,
                       st: BindState)
    requires n < |specs| && specs[n].required && BindPrefix(args, specs, variables, n) == Ok(st)
    requires FindFlag(specs[n].keys, st.rest).None?
    ensures MissingKeys(args, specs, variables, n + 1) == MissingKeys(args, specs, variables, n) + [specs[n].keys]
  {
  }

  /** A required parameter none of whose keys is given at all is among the missing ones. */
  lemma AbsentRequiredIsMissing(args: seq<string>, specs: seq<ParamSpec>, variables: map<string, Option<Value>>, i: nat)
    requires i < |specs| && specs[i].required
    requires forall j :: 0 <= j < |specs[i].keys| ==> specs[i].keys[j] !in args
    requires BindPrefix(args, specs, variables, |specs|).Ok?
    ensures specs[i].keys in BindPrefix(args, specs, variables, |specs|).value.missing
  {
    BoundBefore(args, specs, variables, i, |specs|);
    AbsentListed(args, specs, variables, i);
    MissingIsNotFound(args, specs, variables, |specs|);
  }

  /** A required parameter reached with none of its keys in args is listed by MissingKeys. */
  lemma AbsentListed(args: seq<string>, specs: seq<ParamSpec>, variables: map<string, Option<Value>>, i: nat)
    requires i < |specs| && specs[i].required
    requires forall j :: 0 <= j < |specs[i].keys| ==> specs[i].keys[j] !in args
    requires BindPrefix(args, specs, variables, i).Ok?
    ensures specs[i].keys in MissingKeys(args, specs, variables, |specs|)
  {
    var st := BindPrefix(args, specs, variables, i).value;
    AbsentStaysAbsent(args, specs, variables, i, specs[i].keys);
    MissingKeysAdd(args, specs, variables, i, st);
    ListedStaysListed(args, specs, variables, i);
  }

  /** Keys that parameter i adds to MissingKeys are still listed after every parameter. */
  lemma ListedStaysListed(args: seq<string>, specs: seq<ParamSpec>, variables: map<string, Option<Value>>, i: nat)
    requires i < |specs|
    requires MissingKeys(args, specs, variables, i + 1) == MissingKeys(args, specs, variables, i) + [specs[i].keys]
    ensures specs[i].keys in MissingKeys(args, specs, variables, |specs|)
  {
    var before := MissingKeys(args, specs, variables, i);
    var all := MissingKeys(args, specs, variables, |specs|);
    MissingKeysGrow(args, specs, variables, i + 1, |specs|);
    assert all[|before|] == specs[i].keys;
  }

  /**
   * After every parameter is bound, the warnings for the leftover pairs come
   * first; then an odd leftover count reads past the end, and otherwise the
   * error lists exactly the parameters whose flag was not found, in order.
   */
  lemma MissingReportedAfterWarnings(args: seq<string>, specs: seq<ParamSpec>, variables: map<string, Option<Value>>)
    requires BindPrefix(args, specs, variables, |specs|).Ok?
    ensures var st := BindPrefix(args, specs, variables, |specs|).value;
      var missing := MissingKeys(args, specs, variables, |specs|);
      ProcessArgumentsSpec(args, specs, variables) ==
        (WarningLines(st.rest),
         if |st.rest| % 2 == 1 then Err(IndexOutOfBounds(|st.rest|, |st.rest|))
         else if missing != [] then Err(IllegalArgument(MissingMessage(missing)))
         else Ok(st.values))
  {
    MissingIsNotFound(args, specs, variables, |specs|);
  }

  /** The parameter chosen among several keys is the first key that occurs: the converse of FindFlag's contract. */
  lemma {:induction false} FirstGivenKeyWins(keys: seq<string>, args: seq<string>, j: nat)
    requires j < |keys| && keys[j] in args && forall l :: 0 <= l < j ==> keys[l] !in args
    ensures FindFlag(keys, args) == Some((j, IndexOf(args, keys[j]).value))
  {
    if j > 0 {
      FirstGivenKeyWins(keys[1..], args, j - 1);
      assert keys[0] !in args;
    }
  }

  // ---------------------------------------------------------------------
  // generateHelp

  /** One parameter row: keys, type name and the required marker in padded columns, the help text, a line separator. */
  function HelpRow(spec: ParamSpec): string
  {
    PadRight(ArrayToString(spec.keys), KeysWidth) + PadRight(SimpleName(spec.paramType), TypeWidth)
    + PadRight(if spec.required then "required" else "", RequiredWidth) + spec.help + LineSeparator
  }

  function HelpHeader(d: Descriptor): string
  {
    Ln("Usage: " + d.key + " [OPTION]...") + Ln("\t" + d.description)
  }

  function HelpRows(params: seq<ParamSpec>): (rows: seq<string>)
    ensures |rows| == |params|
  {
    if params == [] then [] else HelpRows(params[..|params| - 1]) + [HelpRow(params[|params| - 1])]
  }

  /** Row i of the help text is the row of parameter i. */
  lemma {:induction false} HelpRowsAt(params: seq<ParamSpec>, i: nat)
    requires i < |params|
    ensures HelpRows(params)[i] == HelpRow(params[i])
  {
    if i < |params| - 1 {
      HelpRowsAt(params[..|params| - 1], i);
    }
  }

  /** The help text of a command. */
  function HelpText(d: Descriptor): string
  {
    HelpHeader(d) + Concat(HelpRows(d.params))
  }

  /** generateHelp: the StringBuilder loop over the declared parameters. */
  method GenerateHelp(d: Descriptor) returns (text: string)
    ensures text == HelpText(d)
  {
    text := "Usage: " + d.key + " [OPTION]..." + LineSeparator;
    text := text + "\t" + d.description + LineSeparator;
    assert text == HelpHeader(d);
    var i := 0;
    while i < |d.params|
      invariant 0 <= i <= |d.params|
      invariant text == HelpHeader(d) + Concat(HelpRows(d.params[..i]))
    {
      var row := HelpRow(d.params[i]);
      AppendRow(HelpHeader(d), d.params, i);
      text := text + row;
      i := i + 1;
    }
    assert d.params[..i] == d.params;
  }

  /** One turn of the StringBuilder loop adds the next row at the end. */
  lemma AppendRow(h: string, params: seq<ParamSpec>, i: nat)
    requires i < |params|
    ensures h + Concat(HelpRows(params[..i])) + HelpRow(params[i]) == h + Concat(HelpRows(params[..i + 1]))
  {
    assert params[..i + 1][..i] == params[..i];
    var rows := HelpRows(params[..i]);
    assert HelpRows(params[..i + 1]) == rows + [HelpRow(params[i])];
    ConcatAppend(rows, HelpRow(params[i]));
  }

  /** The total length of the first n strings. */
  function Offset(parts: seq<string>, n: nat): nat
    requires n <= |parts|
  {
    if n == 0 then 0 else Offset(parts, n - 1) + |parts[n - 1]|
  }

  /** piece occurs in c at position lo. */
  predicate SliceIs(c: string, lo: nat, piece: string)
  {
    lo + |piece| <= |c| && c[lo..lo + |piece|] == piece
  }

  lemma {:induction false} ConcatSlice(parts: seq<string>, n: nat)
    requires n < |parts|
    ensures SliceIs(Concat(parts), Offset(parts, n), parts[n])
  {
    assert Concat(parts) == parts[0] + Concat(parts[1..]);
    if n > 0 {
      ConcatSlice(parts[1..], n - 1);
      OffsetTail(parts, n);
      assert parts[1..][n - 1] == parts[n];
    }
  }

  lemma {:induction false} OffsetTail(parts: seq<string>, n: nat)
    requires 0 < n <= |parts|
    ensures Offset(parts, n) == |parts[0]| + Offset(parts[1..], n - 1)
  {
    if n > 1 {
      OffsetTail(parts, n - 1);
    }
  }

  /**
   * The help text starts with the usage line and the tab-indented
   * description, followed by one row per parameter in declaration order:
   * row i sits right after rows 0 to i - 1.
   */
  lemma HelpLayout(d: Descriptor, i: nat)
    requires i < |d.params|
    ensures StartsWith(HelpText(d), "Usage: " + d.key + " [OPTION]..." + LineSeparator + "\t" + d.description + LineSeparator)
    ensures var start := |HelpHeader(d)| + Offset(HelpRows(d.params), i);
      start + |HelpRow(d.params[i])| <= |HelpText(d)| &&
      HelpText(d)[start..start + |HelpRow(d.params[i])|] == HelpRow(d.params[i])
  {
    HeaderFirst(d);
    RowPlaced(d, i);
  }

  /** Row i of the help sits after the header and rows 0 to i - 1. */
  lemma RowPlaced(d: Descriptor, i: nat)
    requires i < |d.params|
    ensures SliceIs(HelpText(d), |HelpHeader(d)| + Offset(HelpRows(d.params), i), HelpRow(d.params[i]))
  {
    HelpRowsAt(d.params, i);
    PlacedAfter(HelpHeader(d), HelpRows(d.params), i);
  }

  lemma HeaderFirst(d: Descriptor)
    ensures StartsWith(HelpText(d), "Usage: " + d.key + " [OPTION]..." + LineSeparator + "\t" + d.description + LineSeparator)
  {
    var h := HelpHeader(d);
    assert h == "Usage: " + d.key + " [OPTION]..." + LineSeparator + "\t" + d.description + LineSeparator;
    assert HelpText(d)[..|h|] == h;
  }

  lemma SliceAfterPrefix(h: string, c: string, lo: nat, hi: nat)
    requires lo <= hi <= |c|
    ensures (h + c)[|h| + lo..|h| + hi] == c[lo..hi]
  {
  }

  lemma PlacedAfter(h: string, rows: seq<string>, i: nat)
    requires i < |rows|
    ensures SliceIs(h + Concat(rows), |h| + Offset(rows, i), rows[i])
  {
    ConcatSlice(rows, i);
    SliceAt(h, Concat(rows), Offset(rows, i), rows[i]);
  }

  lemma SliceAt(h: string, c: string, lo: nat, piece: string)
    requires SliceIs(c, lo, piece)
    ensures SliceIs(h + c, |h| + lo, piece)
  {
    SliceAfterPrefix(h, c, lo, lo + |piece|);
  }

  /** A row shows the keys first, then the type name from column 30, then "required" from column 50 exactly for a required parameter. */
  lemma HelpRowColumns(spec: ParamSpec)
    requires |ArrayToString(spec.keys)| <= KeysWidth && |SimpleName(spec.paramType)| <= TypeWidth
    ensures var row := HelpRow(spec);
      StartsWith(row, ArrayToString(spec.keys)) &&
      row[KeysWidth..KeysWidth + |SimpleName(spec.paramType)|] == SimpleName(spec.paramType) &&
      (spec.required <==> row[KeysWidth + TypeWidth..KeysWidth + TypeWidth + 8] == "required")
  {
    var keys := ArrayToString(spec.keys);
    var name := SimpleName(spec.paramType);
    var keysCol := PadRight(keys, KeysWidth);
    var typeCol := PadRight(name, TypeWidth);
    var reqCol := PadRight(if spec.required then "required" else "", RequiredWidth);
    var row := HelpRow(spec);
    assert row == keysCol + typeCol + reqCol + (spec.help + LineSeparator);
    ThreeColumns(keysCol, typeCol, reqCol, spec.help + LineSeparator);
    PaddedPrefix(keys, KeysWidth, |keys|);
    PaddedPrefix(name, TypeWidth, |name|);
    var req := row[KeysWidth + TypeWidth..KeysWidth + TypeWidth + 8];
    assert req == reqCol[..8] by {
      assert row[KeysWidth + TypeWidth..KeysWidth + TypeWidth + RequiredWidth] == reqCol;
    }
    if !spec.required {
      assert req[0] == reqCol[0] == ' ';
    }
  }

  /** Three columns laid side by side, then whatever follows: each column sits at the sum of the widths before it. */
  lemma ThreeColumns(a: string, b: string, c: string, rest: string)
    ensures (a + b + c + rest)[..|a|] == a
    ensures (a + b + c + rest)[|a|..|a| + |b|] == b
    ensures (a + b + c + rest)[|a| + |b|..|a| + |b| + |c|] == c
  {
    var row := a + b + c + rest;
    SliceAfterPrefix(a, b + c + rest, 0, |b|);
    assert row == a + (b + c + rest);
    SliceAfterPrefix(a + b, c + rest, 0, |c|);
    assert row == (a + b) + (c + rest);
  }

  /** The first n <= |s| characters of a padded text are those of the text. */
  lemma PaddedPrefix(s: string, w: nat, n: nat)
    requires n <= |s|
    ensures |PadRight(s, w)| >= |s| && PadRight(s, w)[..n] == s[..n]
  {
  }
}
