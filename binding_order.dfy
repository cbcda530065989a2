/**
 * The order in which flags are given does not matter to processArguments:
 * for any number of parameters, and whatever order their flag/value pairs
 * come in, each parameter takes the token after its own flag, and the
 * values come out in declaration order.
 */
module BindingOrder {
  import opened Wrappers
  import opened Text
  import opened Exceptions
  import opened Session
  import opened Resolver

  /** One flag given on the command line together with the token after it. */
  datatype Given = Given(flag: string, token: string)

  /** The argument list that a sequence of flag/value pairs spells. */
  function Flatten(ps: seq<Given>): (r: seq<string>)
    ensures |r| == 2 * |ps|
  {
    if ps == [] then [] else [ps[0].flag, ps[0].token] + Flatten(ps[1..])
  }

  predicate HasKey(ps: seq<Given>, k: string)
  {
    ps != [] && (ps[0].flag == k || HasKey(ps[1..], k))
  }

  /** The position of the first pair whose flag is k. */
  function KeyPos(ps: seq<Given>, k: string): nat
  {
    if ps == [] || ps[0].flag == k then 0 else KeyPos(ps[1..], k) + 1
  }

  /** The token given with the first pair whose flag is k. */
  function ValueOf(ps: seq<Given>, k: string): string
  {
    if ps == [] then "" else if ps[0].flag == k then ps[0].token else ValueOf(ps[1..], k)
  }

  /** The pairs with the first one whose flag is k taken out. */
  function WithoutKey(ps: seq<Given>, k: string): seq<Given>
  {
    if ps == [] then [] else if ps[0].flag == k then ps[1..] else [ps[0]] + WithoutKey(ps[1..], k)
  }

  function FirstKey(spec: ParamSpec): string
  {
    if spec.keys == [] then "" else spec.keys[0]
  }

  /** No given token is the first key of a parameter. */
  predicate TokensAreNotKeys(ps: seq<Given>, specs: seq<ParamSpec>)
  {
    forall j, i :: 0 <= j < |ps| && 0 <= i < |specs| ==> ps[j].token != FirstKey(specs[i])
  }

  /**
   * ps gives every parameter once, under its first key, in any order: one
   * pair per parameter, the first keys are distinct, and no value is spelled
   * like a first key.
   */
  predicate Arrangement(ps: seq<Given>, specs: seq<ParamSpec>)
  {
    |ps| == |specs| &&
    (forall i :: 0 <= i < |specs| ==> specs[i].keys != [] && HasKey(ps, FirstKey(specs[i]))) &&
    (forall i, j :: 0 <= i < j < |specs| ==> FirstKey(specs[i]) != FirstKey(specs[j])) &&
    TokensAreNotKeys(ps, specs)
  }

  /** The token each parameter is given, in declaration order. */
  function GivenTokens(ps: seq<Given>, specs: seq<ParamSpec>): (r: seq<string>)
    ensures |r| == |specs|
  {
    seq(|specs|, i requires 0 <= i < |specs| => ValueOf(ps, FirstKey(specs[i])))
  }

  /** How each parameter's own token resolves, in declaration order. */
  function Resolutions(specs: seq<ParamSpec>, tokens: seq<string>, variables: map<string, Option<Value>>)
    : (rs: seq<Result<Value, Failure>>)
    requires |tokens| == |specs|
    ensures |rs| == |specs|
    ensures forall i :: 0 <= i < |specs| ==> rs[i] == ResolveValue(specs[i].paramType, tokens[i], variables)
  {
    seq(|specs|, i requires 0 <= i < |specs| => ResolveValue(specs[i].paramType, tokens[i], variables))
  }

  /** The first n results collected one after the other, stopping at the first failure. */
  function Collect(rs: seq<Result<Value, Failure>>, n: nat): Result<seq<Option<Value>>, Failure>
    requires n <= |rs|
  {
    if n == 0 then Ok([])
    else
      var earlier := Collect(rs, n - 1);
      if earlier.Err? then earlier
      else if rs[n - 1].Err? then Err(rs[n - 1].error)
      else Ok(earlier.value + [Some(rs[n - 1].value)])
  }

  /**
   * Collecting succeeds exactly when every result is a value, and then
   * holds those values in order; otherwise it fails with the error of the
   * first failed result.
   */
  lemma {:induction false} CollectMeaning(rs: seq<Result<Value, Failure>>, n: nat)
    requires n <= |rs|
    ensures Collect(rs, n).Ok? <==> forall i :: 0 <= i < n ==> rs[i].Ok?
    ensures Collect(rs, n).Ok? ==> |Collect(rs, n).value| == n
    ensures Collect(rs, n).Ok? ==> forall i :: 0 <= i < n ==> Collect(rs, n).value[i] == Some(rs[i].value)
    ensures Collect(rs, n).Err? ==>
      exists f :: 0 <= f < n && rs[f] == Err(Collect(rs, n).error) && forall i :: 0 <= i < f ==> rs[i].Ok?
  {
    if n > 0 {
      CollectMeaning(rs, n - 1);
      var earlier := Collect(rs, n - 1);
      if earlier.Ok? && rs[n - 1].Ok? {
        var vs := earlier.value + [Some(rs[n - 1].value)];
        assert forall i :: 0 <= i < n - 1 ==> vs[i] == earlier.value[i];
      } else if earlier.Ok? {
        assert rs[n - 1] == Err(Collect(rs, n).error);
      }
    }
  }

  /** The reference binder: the first n parameters resolved from their own tokens in declaration order. */
  function ResolveInOrder(specs: seq<ParamSpec>, tokens: seq<string>, variables: map<string, Option<Value>>, n: nat)
    : Result<seq<Option<Value>>, Failure>
    requires n <= |specs| && |tokens| == |specs|
  {
    Collect(Resolutions(specs, tokens, variables), n)
  }

  /**
   * The reference binder succeeds exactly when every parameter's token
   * resolves, and then value i is the resolution of token i; otherwise it
   * fails with the error of the first token that does not resolve.
   */
  lemma ResolveInOrderMeaning(specs: seq<ParamSpec>, tokens: seq<string>, variables: map<string, Option<Value>>, n: nat)
    requires n <= |specs| && |tokens| == |specs|
    ensures ResolveInOrder(specs, tokens, variables, n).Ok? <==>
      forall i :: 0 <= i < n ==> ResolveValue(specs[i].paramType, tokens[i], variables).Ok?
    ensures ResolveInOrder(specs, tokens, variables, n).Ok? ==> |ResolveInOrder(specs, tokens, variables, n).value| == n
    ensures ResolveInOrder(specs, tokens, variables, n).Ok? ==> forall i :: 0 <= i < n ==>
      ResolveInOrder(specs, tokens, variables, n).value[i] == Some(ResolveValue(specs[i].paramType, tokens[i], variables).value)
    ensures ResolveInOrder(specs, tokens, variables, n).Err? ==> exists f :: (0 <= f < n &&
      ResolveValue(specs[f].paramType, tokens[f], variables) == Err(ResolveInOrder(specs, tokens, variables, n).error) &&
      forall i :: 0 <= i < f ==> ResolveValue(specs[i].paramType, tokens[i], variables).Ok?)
  {
    CollectMeaning(Resolutions(specs, tokens, variables), n);
  }

  /** The pairs still on the work list after the first n parameters took theirs. */
  function WithoutKeys(ps: seq<Given>, specs: seq<ParamSpec>, n: nat): seq<Given>
    requires n <= |specs|
  {
    if n == 0 then ps else WithoutKey(WithoutKeys(ps, specs, n - 1), FirstKey(specs[n - 1]))
  }

  /**
   * In the spelled argument list, the first occurrence of k is the flag of
   * the first pair with k, the token after it is that pair's value, and
   * cutting out both leaves the list the other pairs spell.
   */
  lemma PairLookup(ps: seq<Given>, k: string)
    requires HasKey(ps, k) && forall j :: 0 <= j < |ps| ==> ps[j].token != k
    ensures KeyPos(ps, k) < |ps|
    ensures IndexOf(Flatten(ps), k) == Some(2 * KeyPos(ps, k))
    ensures Flatten(ps)[2 * KeyPos(ps, k) + 1] == ValueOf(ps, k)
    ensures Flatten(ps)[..2 * KeyPos(ps, k)] + Flatten(ps)[2 * KeyPos(ps, k) + 2..] == Flatten(WithoutKey(ps, k))
  {
    PairIndex(ps, k);
    PairCut(ps, k);
  }

  lemma PairIndex(ps: seq<Given>, k: string)
    requires HasKey(ps, k) && forall j :: 0 <= j < |ps| ==> ps[j].token != k
    ensures KeyPos(ps, k) < |ps|
    ensures IndexOf(Flatten(ps), k) == Some(2 * KeyPos(ps, k))
    ensures Flatten(ps)[2 * KeyPos(ps, k) + 1] == ValueOf(ps, k)
  {
    PairPosition(ps, k);
    PairValue(ps, k);
  }

  lemma {:induction false} PairPosition(ps: seq<Given>, k: string)
    requires HasKey(ps, k) && forall j :: 0 <= j < |ps| ==> ps[j].token != k
    ensures KeyPos(ps, k) < |ps|
    ensures IndexOf(Flatten(ps), k) == Some(2 * KeyPos(ps, k))
  {
    var s := Flatten(ps);
    var tail := Flatten(ps[1..]);
    assert s == [ps[0].flag, ps[0].token] + tail;
    if ps[0].flag != k {
      forall j | 0 <= j < |ps[1..]| ensures ps[1..][j].token != k {
        assert ps[1..][j] == ps[j + 1];
      }
      PairPosition(ps[1..], k);
      assert ps[0].token != k;
      IndexOfAfterTwo(ps[0].flag, ps[0].token, tail, k);
    }
  }

  lemma {:induction false} PairValue(ps: seq<Given>, k: string)
    requires HasKey(ps, k)
    ensures KeyPos(ps, k) < |ps|
    ensures Flatten(ps)[2 * KeyPos(ps, k) + 1] == ValueOf(ps, k)
  {
    var s := Flatten(ps);
    var tail := Flatten(ps[1..]);
    assert s == [ps[0].flag, ps[0].token] + tail;
    if ps[0].flag != k {
      PairValue(ps[1..], k);
      var p := KeyPos(ps[1..], k);
      assert s[2 * p + 3] == tail[2 * p + 1];
    }
  }

  lemma {:induction false} PairCut(ps: seq<Given>, k: string)
    requires HasKey(ps, k)
    ensures KeyPos(ps, k) < |ps|
    ensures Flatten(ps)[..2 * KeyPos(ps, k)] + Flatten(ps)[2 * KeyPos(ps, k) + 2..] == Flatten(WithoutKey(ps, k))
  {
    var s := Flatten(ps);
    var tail := Flatten(ps[1..]);
    assert s == [ps[0].flag, ps[0].token] + tail;
    if ps[0].flag == k {
      assert s[2..] == tail;
    } else {
      PairCut(ps[1..], k);
      var p := KeyPos(ps[1..], k);
      assert s[..2 * p + 2] == [ps[0].flag, ps[0].token] + tail[..2 * p];
      assert s[2 * p + 4..] == tail[2 * p + 2..];
      var w := WithoutKey(ps[1..], k);
      assert WithoutKey(ps, k) == [ps[0]] + w;
      assert ([ps[0]] + w)[1..] == w;
      assert Flatten(WithoutKey(ps, k)) == [ps[0].flag, ps[0].token] + Flatten(w);
    }
  }

  lemma {:induction false} WithoutKeyLength(ps: seq<Given>, k: string)
    requires HasKey(ps, k)
    ensures |WithoutKey(ps, k)| == |ps| - 1
  {
    if ps[0].flag != k {
      WithoutKeyLength(ps[1..], k);
    }
  }

  /** Taking out the pair of one flag keeps the pair of every other flag. */
  lemma {:induction false} WithoutOtherKey(ps: seq<Given>, k: string, other: string)
    requires k != other
    ensures HasKey(WithoutKey(ps, k), other) == HasKey(ps, other)
    ensures ValueOf(WithoutKey(ps, k), other) == ValueOf(ps, other)
  {
    if ps != [] && ps[0].flag != k {
      WithoutOtherKey(ps[1..], k, other);
      var w := WithoutKey(ps[1..], k);
      assert ([ps[0]] + w)[1..] == w;
    }
  }

  /** Every pair left is one of the pairs given. */
  lemma {:induction false} WithoutKeyPairs(ps: seq<Given>, k: string)
    ensures forall j :: 0 <= j < |WithoutKey(ps, k)| ==> WithoutKey(ps, k)[j] in ps
  {
    if ps != [] && ps[0].flag != k {
      WithoutKeyPairs(ps[1..], k);
      var w := WithoutKey(ps[1..], k);
      forall j | 0 <= j < |[ps[0]] + w| ensures ([ps[0]] + w)[j] in ps {
        if j > 0 {
          assert ([ps[0]] + w)[j] == w[j - 1];
          assert w[j - 1] in ps[1..];
        }
      }
    } else if ps != [] {
      forall j | 0 <= j < |ps[1..]| ensures ps[1..][j] in ps {
        assert ps[1..][j] == ps[j + 1];
      }
    }
  }

  lemma TokensStayNotKeys(ps: seq<Given>, k: string, specs: seq<ParamSpec>)
    requires TokensAreNotKeys(ps, specs)
    ensures TokensAreNotKeys(WithoutKey(ps, k), specs)
  {
    WithoutKeyPairs(ps, k);
    var w := WithoutKey(ps, k);
    forall j, i | 0 <= j < |w| && 0 <= i < |specs| ensures w[j].token != FirstKey(specs[i]) {
      assert w[j] in ps;
      var l :| 0 <= l < |ps| && ps[l] == w[j];
    }
  }

  /**
   * After the first n parameters of an arrangement, n pairs are gone, every
   * later parameter still finds its own pair with its own value, and no
   * token left is a first key.
   */
  lemma {:induction false} RemainingPairs(ps: seq<Given>, specs: seq<ParamSpec>, n: nat)
    requires Arrangement(ps, specs) && n <= |specs|
    ensures |WithoutKeys(ps, specs, n)| == |ps| - n
    ensures TokensAreNotKeys(WithoutKeys(ps, specs, n), specs)
    ensures forall i :: n <= i < |specs| ==>
      HasKey(WithoutKeys(ps, specs, n), FirstKey(specs[i])) &&
      ValueOf(WithoutKeys(ps, specs, n), FirstKey(specs[i])) == ValueOf(ps, FirstKey(specs[i]))
  {
    if n > 0 {
      RemainingPairs(ps, specs, n - 1);
      var q := WithoutKeys(ps, specs, n - 1);
      var k := FirstKey(specs[n - 1]);
      WithoutKeyLength(q, k);
      TokensStayNotKeys(q, k, specs);
      forall i | n <= i < |specs|
        ensures HasKey(WithoutKey(q, k), FirstKey(specs[i]))
        ensures ValueOf(WithoutKey(q, k), FirstKey(specs[i])) == ValueOf(ps, FirstKey(specs[i]))
      {
        WithoutOtherKey(q, k, FirstKey(specs[i]));
      }
    }
  }

  // ---------------------------------------------------------------------
  // The binder over a chain of work lists

  /**
   * Parameter spec finds its first key in rest with tok after it, and taking
   * both out leaves next.
   */
  predicate FoundAt(rest: seq<string>, spec: ParamSpec, tok: string, next: seq<string>)
  {
    spec.keys != [] && IndexOf(rest, spec.keys[0]).Some? &&
    var i := IndexOf(rest, spec.keys[0]).value;
    i + 1 < |rest| && rest[i + 1] == tok && rest[..i] + rest[i + 2..] == next
  }

  /**
   * rests[n] is the work list after n parameters: it starts as args, and
   * each parameter finds its first key with its own token after it.
   */
  predicate Chain(args: seq<string>, specs: seq<ParamSpec>, tokens: seq<string>, rests: seq<seq<string>>)
  {
    |rests| == |specs| + 1 && |tokens| == |specs| && rests[0] == args &&
    forall n :: 0 <= n < |specs| ==> FoundAt(rests[n], specs[n], tokens[n], rests[n + 1])
  }

  /** A parameter that finds its first key takes the token after it and removes both. */
  lemma StepFound(st: BindState, spec: ParamSpec, tok: string, next: seq<string>, variables: map<string, Option<Value>>)
    requires FoundAt(st.rest, spec, tok, next)
    ensures BindStep(st, spec, variables) ==
      match ResolveValue(spec.paramType, tok, variables)
      case Err(e) => Err(e)
      case Ok(v) => Ok(BindState(st.values + [Some(v)], st.missing, next))
  {
    var i := IndexOf(st.rest, spec.keys[0]).value;
    assert FindFlag(spec.keys, st.rest) == Some((0, i));
    RemovePairSlices(st.rest, i);
  }

  /** What the binder should hold after n parameters of a chain: the reference binder's failure, or its values and rests[n]. */
  function Expected(specs: seq<ParamSpec>, tokens: seq<string>, rests: seq<seq<string>>,
                    variables: map<string, Option<Value>>, n: nat): Result<BindState, Failure>
    requires n <= |specs| && |tokens| == |specs| && n < |rests|
  {
    var r := ResolveInOrder(specs, tokens, variables, n);
    if r.Err? then Err(r.error) else Ok(BindState(r.value, [], rests[n]))
  }

  /** Once the first n parameters are bound, a parameter that finds its pair binds the resolved token. */
  lemma BindFound(args: seq<string>, specs: seq<ParamSpec>, variables: map<string, Option<Value>>, n: nat,
                  st: BindState, tok: string, next: seq<string>)
    requires n < |specs| && BindPrefix(args, specs, variables, n) == Ok(st)
    requires FoundAt(st.rest, specs[n], tok, next)
    ensures BindPrefix(args, specs, variables, n + 1) ==
      match ResolveValue(specs[n].paramType, tok, variables)
      case Err(e) => Err(e)
      case Ok(v) => Ok(BindState(st.values + [Some(v)], st.missing, next))
  {
    StepFound(st, specs[n], tok, next, variables);
    BindAdvance(args, specs, variables, n, st, BindStep(st, specs[n], variables));
  }

  /** One more parameter of a chain keeps the binder in step with the reference binder. */
  lemma TracksStep(args: seq<string>, specs: seq<ParamSpec>, tokens: seq<string>, rests: seq<seq<string>>,
                   variables: map<string, Option<Value>>, n: nat)
    requires n < |specs| && |tokens| == |specs| && |rests| == |specs| + 1
    requires FoundAt(rests[n], specs[n], tokens[n], rests[n + 1])
    requires BindPrefix(args, specs, variables, n) == Expected(specs, tokens, rests, variables, n)
    ensures BindPrefix(args, specs, variables, n + 1) == Expected(specs, tokens, rests, variables, n + 1)
  {
    var rs := Resolutions(specs, tokens, variables);
    assert rs[n] == ResolveValue(specs[n].paramType, tokens[n], variables);
    match Collect(rs, n) {
      case Err(e) =>
      case Ok(vs) =>
        BindFound(args, specs, variables, n, BindState(vs, [], rests[n]), tokens[n], rests[n + 1]);
    }
  }

  /** Along a whole chain the binder stays in step with the reference binder, parameter by parameter. */
  lemma ChainTracks(args: seq<string>, specs: seq<ParamSpec>, tokens: seq<string>,
                    rests: seq<seq<string>>, variables: map<string, Option<Value>>)
    requires Chain(args, specs, tokens, rests)
    ensures BindPrefix(args, specs, variables, |specs|) == Expected(specs, tokens, rests, variables, |specs|)
  {
    var k := 0;
    assert Expected(specs, tokens, rests, variables, 0) == Ok(BindState([], [], args));
    while k < |specs|
      invariant k <= |specs|
      invariant BindPrefix(args, specs, variables, k) == Expected(specs, tokens, rests, variables, k)
    {
      assert FoundAt(rests[k], specs[k], tokens[k], rests[k + 1]);
      TracksStep(args, specs, tokens, rests, variables, k);
      k := k + 1;
    }
  }

  /**
   * Along a chain that uses up the whole argument list, processArguments
   * prints nothing and yields what the reference binder yields.
   */
  lemma ChainResult(args: seq<string>, specs: seq<ParamSpec>, tokens: seq<string>,
                    rests: seq<seq<string>>, variables: map<string, Option<Value>>)
    requires Chain(args, specs, tokens, rests) && rests[|specs|] == []
    ensures ProcessArgumentsSpec(args, specs, variables) == ([], ResolveInOrder(specs, tokens, variables, |specs|))
  {
    ChainTracks(args, specs, tokens, rests, variables);
    var r := ResolveInOrder(specs, tokens, variables, |specs|);
    if r.Ok? {
      assert ProcessFinish(BindState(r.value, [], [])) == ([], Ok(r.value));
    }
  }

  // ---------------------------------------------------------------------
  // An arrangement is a chain

  /** The work lists of an arrangement: what the pairs not yet taken spell. */
  function Rests(ps: seq<Given>, specs: seq<ParamSpec>): (rests: seq<seq<string>>)
    ensures |rests| == |specs| + 1
    ensures forall n :: 0 <= n <= |specs| ==> rests[n] == Flatten(WithoutKeys(ps, specs, n))
  {
    seq(|specs| + 1, n requires 0 <= n <= |specs| => Flatten(WithoutKeys(ps, specs, n)))
  }

  /** Parameter n of an arrangement finds its own pair, and the pair leaves the work list. */
  lemma FindsOwnPair(ps: seq<Given>, specs: seq<ParamSpec>, n: nat)
    requires Arrangement(ps, specs) && n < |specs|
    ensures FoundAt(Flatten(WithoutKeys(ps, specs, n)), specs[n], GivenTokens(ps, specs)[n],
                    Flatten(WithoutKeys(ps, specs, n + 1)))
  {
    RemainingPairs(ps, specs, n);
    var q := WithoutKeys(ps, specs, n);
    var k := FirstKey(specs[n]);
    assert k == specs[n].keys[0];
    forall j | 0 <= j < |q| ensures q[j].token != k {
    }
    PairLookup(q, k);
  }

  lemma ArrangementChain(ps: seq<Given>, specs: seq<ParamSpec>)
    requires Arrangement(ps, specs)
    ensures Chain(Flatten(ps), specs, GivenTokens(ps, specs), Rests(ps, specs))
  {
    var rests := Rests(ps, specs);
    forall n | 0 <= n < |specs| ensures FoundAt(rests[n], specs[n], GivenTokens(ps, specs)[n], rests[n + 1]) {
      FindsOwnPair(ps, specs, n);
    }
  }

  /**
   * However the flags of an arrangement are ordered, processArguments
   * prints nothing and yields what resolving each parameter from its own
   * token in declaration order yields.
   */
  lemma FlagsInAnyOrder(ps: seq<Given>, specs: seq<ParamSpec>, variables: map<string, Option<Value>>)
    requires Arrangement(ps, specs)
    ensures ProcessArgumentsSpec(Flatten(ps), specs, variables) ==
      ([], ResolveInOrder(specs, GivenTokens(ps, specs), variables, |specs|))
  {
    var rests := Rests(ps, specs);
    ArrangementChain(ps, specs);
    RemainingPairs(ps, specs, |specs|);
    assert rests[|specs|] == [];
    ChainResult(Flatten(ps), specs, GivenTokens(ps, specs), rests, variables);
  }

  /** Two orders of the same flag/value pairs bind the same values, or fail alike. */
  lemma FlagOrderIrrelevant(ps: seq<Given>, qs: seq<Given>, specs: seq<ParamSpec>, variables: map<string, Option<Value>>)
    requires Arrangement(ps, specs) && Arrangement(qs, specs)
    requires forall i :: 0 <= i < |specs| ==> ValueOf(ps, FirstKey(specs[i])) == ValueOf(qs, FirstKey(specs[i]))
    ensures ProcessArgumentsSpec(Flatten(ps), specs, variables) == ProcessArgumentsSpec(Flatten(qs), specs, variables)
  {
    FlagsInAnyOrder(ps, specs, variables);
    FlagsInAnyOrder(qs, specs, variables);
    assert GivenTokens(ps, specs) == GivenTokens(qs, specs);
  }
}
