/**
 Dependency injection, after `python/csilk/depends.py`.

 A resolver walks a graph of dependency functions, fills a cache shared by the whole request and calls
 each function with the keyword arguments it has resolved. The reference is plain recursion without a
 cache.
 */
module Depends {
  import opened Wrappers
  import opened Sequences

  /** A Python callable, by identity. */
  type Func = nat

  /** A Python object, by identity. */
  type Value = int

  /** The class `Context` used as an annotation. */
  const CONTEXT: Func := 0

  /** The default value of a parameter: a `Depends` marker or anything else. */
  datatype Default = Plain | Marker(dependency: Option<Func>)

  datatype Param = Param(name: string, default: Default, annotation: Option<Func>) {
    /** `param.default.dependency or param.annotation`. */
    function Target(): Option<Func> {
      if default.Plain? then None
      else if default.dependency.Some? then default.dependency
      else annotation
    }

    predicate Unresolvable() {
      default.Marker? && Target().None?
    }

    predicate TakesContext() {
      default.Plain? && (annotation == Some(CONTEXT) || name == "ctx")
    }
  }

  datatype Signature = Signature(params: seq<Param>, isAsync: bool)

  datatype Error =
    | MissingDependency(param: string) // ValueError
    | AsyncInSync(f: Func)             // RuntimeError
    | UserError(code: int)             // raised by a dependency itself

  datatype Outcome<+T> = Returned(value: T) | Raised(error: Error)

  datatype Mode = Sync | Async

  /** The functions of an application: their signatures and what calling them does. */
  datatype App = App(sig: Func -> Signature, call: (Func, map<string, Value>) -> Outcome<Value>)

  type Kwargs = map<string, Value>

  /** `rank` witnesses that the dependency graph has no cycle. */
  ghost predicate Acyclic(app: App, rank: Func -> nat) {
    forall f: Func, i: nat {:trigger app.sig(f).params[i]} ::
      i < |app.sig(f).params| && app.sig(f).params[i].Target().Some?
      ==> rank(app.sig(f).params[i].Target().value) < rank(f)
  }

  //////////////////////////////////////////////////////////////////////////////
  // Plain recursion
  //////////////////////////////////////////////////////////////////////////////

  /** The keyword arguments after the first `i` parameters of `f`, starting from `given`. */
  ghost function Arguments(app: App, rank: Func -> nat, mode: Mode, ctx: Value, f: Func, given: Kwargs,
                           i: nat): Outcome<Kwargs>
    requires Acyclic(app, rank) && i <= |app.sig(f).params|
    decreases rank(f), 0, i
  {
    if i == 0 then Returned(given) else
      var p := app.sig(f).params[i - 1];
      match Arguments(app, rank, mode, ctx, f, given, i - 1)
      case Raised(e) => Raised(e)
      case Returned(kwargs) =>
        if p.Unresolvable() then Raised(MissingDependency(p.name))
        else if p.Target().Some? then
          match Eval(app, rank, mode, ctx, p.Target().value)
          case Raised(e) => Raised(e)
          case Returned(v) => Returned(kwargs[p.name := v])
        else if p.TakesContext() then Returned(kwargs[p.name := ctx])
        else Returned(kwargs)
  }

  /** Resolving `f` by recursion that calls a function as often as it is needed. */
  ghost function Eval(app: App, rank: Func -> nat, mode: Mode, ctx: Value, f: Func): Outcome<Value>
    requires Acyclic(app, rank)
    decreases rank(f), 1, 0
  {
    match Arguments(app, rank, mode, ctx, f, map[], |app.sig(f).params|)
    case Raised(e) => Raised(e)
    case Returned(kwargs) =>
      if mode.Sync? && app.sig(f).isAsync then Raised(AsyncInSync(f)) else app.call(f, kwargs)
  }

  /** What the wrapper made by `inject` returns for handler `h`. */
  ghost function Injected(app: App, rank: Func -> nat, ctx: Value, h: Func, given: Kwargs): Outcome<Value>
    requires Acyclic(app, rank)
  {
    var mode := if app.sig(h).isAsync then Async else Sync;
    match Arguments(app, rank, mode, ctx, h, given, |app.sig(h).params|)
    case Raised(e) => Raised(e)
    case Returned(kwargs) => app.call(h, kwargs)
  }

  //////////////////////////////////////////////////////////////////////////////
  // Reachable functions
  //////////////////////////////////////////////////////////////////////////////

  /** Everything reachable through the first `i` parameters of `f`. */
  ghost function Below(app: App, rank: Func -> nat, f: Func, i: nat): set<Func>
    requires Acyclic(app, rank) && i <= |app.sig(f).params|
    decreases rank(f), 0, i
  {
    if i == 0 then {} else
      var p := app.sig(f).params[i - 1];
      Below(app, rank, f, i - 1) + if p.Target().Some? then Reach(app, rank, p.Target().value) else {}
  }

  ghost function Reach(app: App, rank: Func -> nat, f: Func): set<Func>
    requires Acyclic(app, rank)
    decreases rank(f), 1, 0
  {
    {f} + Below(app, rank, f, |app.sig(f).params|)
  }

  /** A function the resolver refuses: a marker without a target or, for the synchronous one, a coroutine. */
  predicate Refuses(app: App, mode: Mode, f: Func) {
    || (mode.Sync? && app.sig(f).isAsync)
    || exists i :: 0 <= i < |app.sig(f).params| && app.sig(f).params[i].Unresolvable()
  }

  predicate Refused(app: App, f: Func) {
    Refuses(app, Sync, f)
  }

  lemma {:induction false} BelowParam(app: App, rank: Func -> nat, f: Func, i: nat, k: nat)
    requires Acyclic(app, rank) && k < i <= |app.sig(f).params| && app.sig(f).params[k].Target().Some?
    ensures Reach(app, rank, app.sig(f).params[k].Target().value) <= Below(app, rank, f, i)
    decreases i
  {
    if k < i - 1 {
      BelowParam(app, rank, f, i - 1, k);
    }
  }

  //////////////////////////////////////////////////////////////////////////////
  // Synchronous and asynchronous resolution
  //////////////////////////////////////////////////////////////////////////////

  lemma {:induction false} ArgumentsAgree(app: App, rank: Func -> nat, ctx: Value, f: Func, given: Kwargs, i: nat)
    requires Acyclic(app, rank) && i <= |app.sig(f).params|
    requires forall h :: h in Below(app, rank, f, i) ==> !Refused(app, h)
    ensures Arguments(app, rank, Sync, ctx, f, given, i) == Arguments(app, rank, Async, ctx, f, given, i)
    decreases rank(f), 0, i
  {
    if i > 0 {
      ArgumentsAgree(app, rank, ctx, f, given, i - 1);
      var p := app.sig(f).params[i - 1];
      if p.Target().Some? {
        SyncAgreesWithAsync(app, rank, ctx, p.Target().value);
      }
    }
  }

  /** Where nothing reachable is refused, both resolvers give the same value or raise the same error. */
  lemma {:induction false} SyncAgreesWithAsync(app: App, rank: Func -> nat, ctx: Value, f: Func)
    requires Acyclic(app, rank)
    requires forall h :: h in Reach(app, rank, f) ==> !Refused(app, h)
    ensures Eval(app, rank, Sync, ctx, f) == Eval(app, rank, Async, ctx, f)
    decreases rank(f), 1, 0
  {
    ArgumentsAgree(app, rank, ctx, f, map[], |app.sig(f).params|);
    assert f in Reach(app, rank, f);
  }

  //////////////////////////////////////////////////////////////////////////////
  // What each parameter gets
  //////////////////////////////////////////////////////////////////////////////

  /** No parameter from `i` up to `n` has the name. */
  predicate NameFree(params: seq<Param>, name: string, i: nat, n: nat)
    requires n <= |params|
  {
    forall k :: i <= k < n ==> params[k].name != name
  }

  lemma {:induction false} LaterKeeps(app: App, rank: Func -> nat, mode: Mode, ctx: Value, f: Func, given: Kwargs,
                                      i: nat, n: nat, name: string)
    requires Acyclic(app, rank) && i <= n <= |app.sig(f).params| && NameFree(app.sig(f).params, name, i, n)
    requires Arguments(app, rank, mode, ctx, f, given, n).Returned?
    ensures Arguments(app, rank, mode, ctx, f, given, i).Returned?
    ensures var before := Arguments(app, rank, mode, ctx, f, given, i);
            var after := Arguments(app, rank, mode, ctx, f, given, n);
            && (name in before.value <==> name in after.value)
            && (name in before.value ==> before.value[name] == after.value[name])
    decreases n
  {
    if i < n {
      LaterKeeps(app, rank, mode, ctx, f, given, i, n - 1, name);
    }
  }

  /** The value a function resolves to, if it does. */
  ghost predicate ResolvesTo(app: App, rank: Func -> nat, mode: Mode, ctx: Value, g: Func, kwargs: Kwargs, name: string)
    requires Acyclic(app, rank)
  {
    name in kwargs && Eval(app, rank, mode, ctx, g) == Returned(kwargs[name])
  }

  /**
   Parameter `i`, if none after it has its name: a marker gives what its own function resolves to, or
   else what the annotation resolves to; a plain parameter gets the context exactly if it is annotated
   with `Context` or named "ctx", and otherwise the argument that was there before, or none.
   */
  lemma KeywordOf(app: App, rank: Func -> nat, mode: Mode, ctx: Value, f: Func, given: Kwargs, i: nat)
    requires Acyclic(app, rank) && i < |app.sig(f).params|
    requires NameFree(app.sig(f).params, app.sig(f).params[i].name, i + 1, |app.sig(f).params|)
    requires Arguments(app, rank, mode, ctx, f, given, |app.sig(f).params|).Returned?
    ensures var p := app.sig(f).params[i];
            var kwargs := Arguments(app, rank, mode, ctx, f, given, |app.sig(f).params|).value;
            match p.default
            case Marker(Some(g)) => ResolvesTo(app, rank, mode, ctx, g, kwargs, p.name)
            case Marker(None) =>
              p.annotation.Some? && ResolvesTo(app, rank, mode, ctx, p.annotation.value, kwargs, p.name)
            case Plain =>
              if p.annotation == Some(CONTEXT) || p.name == "ctx" then p.name in kwargs && kwargs[p.name] == ctx
              else NameFree(app.sig(f).params, p.name, 0, i) ==>
                     && (p.name in kwargs <==> p.name in given)
                     && (p.name in given ==> kwargs[p.name] == given[p.name])
  {
    hide Eval;
    var params, n := app.sig(f).params, |app.sig(f).params|;
    LaterKeeps(app, rank, mode, ctx, f, given, i + 1, n, params[i].name);
    if NameFree(params, params[i].name, 0, i) {
      LaterKeeps(app, rank, mode, ctx, f, given, 0, i, params[i].name);
    }
  }

  /** A marker's own function is reached; so is the annotation of an empty marker. */
  lemma MarkerIsReached(app: App, rank: Func -> nat, f: Func, i: nat)
    requires Acyclic(app, rank) && i < |app.sig(f).params|
    ensures match app.sig(f).params[i].default
            case Marker(Some(g)) => g in Below(app, rank, f, |app.sig(f).params|)
            case Marker(None) =>
              app.sig(f).params[i].annotation.Some? ==>
                app.sig(f).params[i].annotation.value in Below(app, rank, f, |app.sig(f).params|)
            case Plain => true
  {
    var p := app.sig(f).params[i];
    if p.Target().Some? {
      BelowParam(app, rank, f, |app.sig(f).params|, i);
    }
  }

  /** A parameter that does not stop the resolution: a plain one, or a marker whose function resolves. */
  ghost predicate Settles(app: App, rank: Func -> nat, mode: Mode, ctx: Value, p: Param)
    requires Acyclic(app, rank)
  {
    match p.default
    case Plain => true
    case Marker(Some(g)) => Eval(app, rank, mode, ctx, g).Returned?
    case Marker(None) => p.annotation.Some? && Eval(app, rank, mode, ctx, p.annotation.value).Returned?
  }

  ghost predicate AllSettle(app: App, rank: Func -> nat, mode: Mode, ctx: Value, f: Func, n: nat)
    requires Acyclic(app, rank) && n <= |app.sig(f).params|
  {
    forall k :: 0 <= k < n ==> Settles(app, rank, mode, ctx, app.sig(f).params[k])
  }

  lemma {:induction false} SettledArguments(app: App, rank: Func -> nat, mode: Mode, ctx: Value, f: Func,
                                            given: Kwargs, n: nat)
    requires Acyclic(app, rank) && n <= |app.sig(f).params| && AllSettle(app, rank, mode, ctx, f, n)
    ensures Arguments(app, rank, mode, ctx, f, given, n).Returned?
    decreases n
  {
    hide Eval;
    if n > 0 {
      assert Settles(app, rank, mode, ctx, app.sig(f).params[n - 1]);
      SettledArguments(app, rank, mode, ctx, f, given, n - 1);
    }
  }

  /** If all parameters settle, only a coroutine under the synchronous resolver is not called. */
  lemma SettledIsCalled(app: App, rank: Func -> nat, mode: Mode, ctx: Value, f: Func)
    requires Acyclic(app, rank) && AllSettle(app, rank, mode, ctx, f, |app.sig(f).params|)
    ensures var kwargs := Arguments(app, rank, mode, ctx, f, map[], |app.sig(f).params|);
            && kwargs.Returned?
            && Eval(app, rank, mode, ctx, f)
               == if mode == Sync && app.sig(f).isAsync then Raised(AsyncInSync(f)) else app.call(f, kwargs.value)
  {
    hide Arguments, AllSettle;
    SettledArguments(app, rank, mode, ctx, f, map[], |app.sig(f).params|);
  }

  /** Otherwise the first parameter that does not settle decides the error. */
  lemma {:induction false} FirstFault(app: App, rank: Func -> nat, mode: Mode, ctx: Value, f: Func, given: Kwargs,
                                      k: nat, n: nat)
    requires Acyclic(app, rank) && k < n <= |app.sig(f).params| && AllSettle(app, rank, mode, ctx, f, k)
    requires !Settles(app, rank, mode, ctx, app.sig(f).params[k])
    ensures var p, raised := app.sig(f).params[k], Arguments(app, rank, mode, ctx, f, given, n);
            match p.default
            case Plain => false
            case Marker(Some(g)) => raised == Raised(Eval(app, rank, mode, ctx, g).error)
            case Marker(None) =>
              raised == Raised(if p.annotation.None? then MissingDependency(p.name)
                               else Eval(app, rank, mode, ctx, p.annotation.value).error)
    decreases n
  {
    hide Eval;
    if k < n - 1 {
      FirstFault(app, rank, mode, ctx, f, given, k, n - 1);
    } else {
      SettledArguments(app, rank, mode, ctx, f, given, k);
    }
  }

  /** The application with one parameter written differently. */
  function WithParam(app: App, f: Func, i: nat, p: Param): App
    requires i < |app.sig(f).params|
  {
    app.(sig := (g: Func) => if g == f then app.sig(f).(params := app.sig(f).params[i := p]) else app.sig(g))
  }

  predicate AlikeParams(p: Param, q: Param) {
    && p.name == q.name && p.Target() == q.Target()
    && p.Unresolvable() == q.Unresolvable() && p.TakesContext() == q.TakesContext()
  }

  ghost predicate Alike(app: App, app': App) {
    && app.call == app'.call
    && forall f :: AlikeSignatures(app.sig(f), app'.sig(f))
  }

  predicate AlikeSignatures(s: Signature, t: Signature) {
    && |s.params| == |t.params| && s.isAsync == t.isAsync
    && forall i :: 0 <= i < |s.params| ==> AlikeParams(s.params[i], t.params[i])
  }

  lemma AlikeAcyclic(app: App, app': App, rank: Func -> nat)
    requires Alike(app, app') && Acyclic(app, rank)
    ensures Acyclic(app', rank)
  {
    forall f: Func, i: nat | i < |app'.sig(f).params| && app'.sig(f).params[i].Target().Some?
      ensures rank(app'.sig(f).params[i].Target().value) < rank(f)
    {
      assert AlikeParams(app.sig(f).params[i], app'.sig(f).params[i]);
    }
  }

  lemma {:induction false} AlikeArguments(app: App, app': App, rank: Func -> nat, mode: Mode, ctx: Value, f: Func,
                                          given: Kwargs, i: nat)
    requires Alike(app, app') && Acyclic(app, rank) && Acyclic(app', rank) && i <= |app.sig(f).params|
    ensures Arguments(app, rank, mode, ctx, f, given, i) == Arguments(app', rank, mode, ctx, f, given, i)
    ensures Below(app, rank, f, i) == Below(app', rank, f, i)
    decreases rank(f), 0, i
  {
    if i > 0 {
      AlikeArguments(app, app', rank, mode, ctx, f, given, i - 1);
      var p := app.sig(f).params[i - 1];
      assert AlikeParams(p, app'.sig(f).params[i - 1]);
      if p.Target().Some? {
        AlikeEval(app, app', rank, mode, ctx, p.Target().value);
      }
    }
  }

  lemma {:induction false} AlikeEval(app: App, app': App, rank: Func -> nat, mode: Mode, ctx: Value, f: Func)
    requires Alike(app, app') && Acyclic(app, rank) && Acyclic(app', rank)
    ensures Eval(app, rank, mode, ctx, f) == Eval(app', rank, mode, ctx, f)
    ensures Reach(app, rank, f) == Reach(app', rank, f)
    decreases rank(f), 1, 0
  {
    AlikeArguments(app, app', rank, mode, ctx, f, map[], |app.sig(f).params|);
  }

  /** Both applications resolve every function and run every handler alike, and reach the same functions. */
  ghost predicate SameResolution(app: App, app': App, rank: Func -> nat)
    requires Acyclic(app, rank)
  {
    && Acyclic(app', rank)
    && (forall mode, ctx, h :: Eval(app', rank, mode, ctx, h) == Eval(app, rank, mode, ctx, h))
    && (forall h :: Reach(app', rank, h) == Reach(app, rank, h))
    && (forall ctx, h, given :: Injected(app', rank, ctx, h, given) == Injected(app, rank, ctx, h, given))
  }

  lemma AlikeResolution(app: App, app': App, rank: Func -> nat)
    requires Alike(app, app') && Acyclic(app, rank)
    ensures SameResolution(app, app', rank)
  {
    hide Eval, Reach, Arguments, Below, Alike, Acyclic;
    AlikeAcyclic(app, app', rank);
    forall mode, ctx, h ensures Eval(app', rank, mode, ctx, h) == Eval(app, rank, mode, ctx, h) {
      AlikeEval(app, app', rank, mode, ctx, h);
    }
    forall h ensures Reach(app', rank, h) == Reach(app, rank, h) {
      AlikeEval(app, app', rank, Sync, 0, h);
    }
    forall ctx, h, given ensures Injected(app', rank, ctx, h, given) == Injected(app, rank, ctx, h, given) {
      AlikeInjected(app, app', rank, ctx, h, given);
    }
  }

  lemma AlikeInjected(app: App, app': App, rank: Func -> nat, ctx: Value, h: Func, given: Kwargs)
    requires Alike(app, app') && Acyclic(app, rank) && Acyclic(app', rank)
    ensures Injected(app', rank, ctx, h, given) == Injected(app, rank, ctx, h, given)
  {
    hide Arguments, Below;
    var mode := if app.sig(h).isAsync then Async else Sync;
    AlikeArguments(app, app', rank, mode, ctx, h, given, |app.sig(h).params|);
  }

  lemma OneParamAlike(app: App, f: Func, i: nat, p: Param)
    requires i < |app.sig(f).params| && AlikeParams(app.sig(f).params[i], p)
    ensures Alike(app, WithParam(app, f, i, p))
  {
  }

  /** Where a marker names its function, the annotation does not matter. */
  lemma AnnotationIgnored(app: App, rank: Func -> nat, f: Func, i: nat, annotation: Option<Func>)
    requires Acyclic(app, rank) && i < |app.sig(f).params|
    requires app.sig(f).params[i].default.Marker? && app.sig(f).params[i].default.dependency.Some?
    ensures SameResolution(app, WithParam(app, f, i, app.sig(f).params[i].(annotation := annotation)), rank)
  {
    hide SameResolution, Alike, Acyclic;
    var p := app.sig(f).params[i].(annotation := annotation);
    OneParamAlike(app, f, i, p);
    AlikeResolution(app, WithParam(app, f, i, p), rank);
  }

  /** An empty marker stands for one that names the annotation. */
  lemma EmptyMarkerIsAnnotation(app: App, rank: Func -> nat, f: Func, i: nat)
    requires Acyclic(app, rank) && i < |app.sig(f).params|
    requires app.sig(f).params[i].default == Marker(None) && app.sig(f).params[i].annotation.Some?
    ensures var p := app.sig(f).params[i];
            SameResolution(app, WithParam(app, f, i, p.(default := Marker(p.annotation))), rank)
  {
    hide SameResolution, Alike, Acyclic;
    var p := app.sig(f).params[i];
    OneParamAlike(app, f, i, p.(default := Marker(p.annotation)));
    AlikeResolution(app, WithParam(app, f, i, p.(default := Marker(p.annotation))), rank);
  }

  //////////////////////////////////////////////////////////////////////////////
  // When resolution fails
  //////////////////////////////////////////////////////////////////////////////

  /** The arguments of `f` can be resolved, and calling it with them raises. */
  ghost predicate CallRaises(app: App, rank: Func -> nat, mode: Mode, ctx: Value, f: Func, given: Kwargs)
    requires Acyclic(app, rank)
  {
    var kwargs := Arguments(app, rank, mode, ctx, f, given, |app.sig(f).params|);
    kwargs.Returned? && app.call(f, kwargs.value).Raised?
  }

  /** `f` itself is at fault: it is refused, or it raises on the arguments it gets. */
  ghost predicate Fails(app: App, rank: Func -> nat, mode: Mode, ctx: Value, f: Func)
    requires Acyclic(app, rank)
  {
    Refuses(app, mode, f) || CallRaises(app, rank, mode, ctx, f, map[])
  }

  lemma {:induction false} ArgumentsReturn(app: App, rank: Func -> nat, mode: Mode, ctx: Value, f: Func,
                                           given: Kwargs, i: nat)
    requires Acyclic(app, rank) && i <= |app.sig(f).params|
    requires Arguments(app, rank, mode, ctx, f, given, i).Returned?
    ensures forall h :: h in Below(app, rank, f, i) ==> Eval(app, rank, mode, ctx, h).Returned?
    ensures forall k :: 0 <= k < i ==> !app.sig(f).params[k].Unresolvable()
    decreases rank(f), 0, i
  {
    if i > 0 {
      ArgumentsReturn(app, rank, mode, ctx, f, given, i - 1);
      var p := app.sig(f).params[i - 1];
      if p.Target().Some? {
        ReachReturns(app, rank, mode, ctx, p.Target().value);
      }
    }
  }

  /** If a function can be resolved, so can everything it reaches. */
  lemma {:induction false} ReachReturns(app: App, rank: Func -> nat, mode: Mode, ctx: Value, f: Func)
    requires Acyclic(app, rank) && Eval(app, rank, mode, ctx, f).Returned?
    ensures forall h :: h in Reach(app, rank, f) ==> Eval(app, rank, mode, ctx, h).Returned?
    decreases rank(f), 1, 0
  {
    ArgumentsReturn(app, rank, mode, ctx, f, map[], |app.sig(f).params|);
  }

  lemma ReturnedDoesNotFail(app: App, rank: Func -> nat, mode: Mode, ctx: Value, f: Func)
    requires Acyclic(app, rank) && Eval(app, rank, mode, ctx, f).Returned?
    ensures !Fails(app, rank, mode, ctx, f)
  {
    ArgumentsReturn(app, rank, mode, ctx, f, map[], |app.sig(f).params|);
  }

  lemma {:induction false} ArgumentsSucceed(app: App, rank: Func -> nat, mode: Mode, ctx: Value, f: Func,
                                            given: Kwargs, i: nat)
    requires Acyclic(app, rank) && i <= |app.sig(f).params| && !Refuses(app, mode, f)
    requires forall h :: h in Below(app, rank, f, i) ==> !Fails(app, rank, mode, ctx, h)
    ensures Arguments(app, rank, mode, ctx, f, given, i).Returned?
    decreases rank(f), 0, i
  {
    if i > 0 {
      ArgumentsSucceed(app, rank, mode, ctx, f, given, i - 1);
      var p := app.sig(f).params[i - 1];
      if p.Target().Some? {
        Succeeds(app, rank, mode, ctx, p.Target().value);
      }
    }
  }

  lemma {:induction false} Succeeds(app: App, rank: Func -> nat, mode: Mode, ctx: Value, f: Func)
    requires Acyclic(app, rank)
    requires forall h :: h in Reach(app, rank, f) ==> !Fails(app, rank, mode, ctx, h)
    ensures Eval(app, rank, mode, ctx, f).Returned?
    decreases rank(f), 1, 0
  {
    assert f in Reach(app, rank, f);
    ArgumentsSucceed(app, rank, mode, ctx, f, map[], |app.sig(f).params|);
  }

  /** Either resolver fails exactly if something reachable is at fault. */
  lemma FailsIffSomethingFails(app: App, rank: Func -> nat, mode: Mode, ctx: Value, f: Func)
    requires Acyclic(app, rank)
    ensures Eval(app, rank, mode, ctx, f).Raised?
            <==> exists h :: h in Reach(app, rank, f) && Fails(app, rank, mode, ctx, h)
  {
    hide Eval, Fails, Reach;
    if Eval(app, rank, mode, ctx, f).Returned? {
      ReachReturns(app, rank, mode, ctx, f);
      forall h | h in Reach(app, rank, f) ensures !Fails(app, rank, mode, ctx, h) {
        ReturnedDoesNotFail(app, rank, mode, ctx, h);
      }
    } else if forall h :: h in Reach(app, rank, f) ==> !Fails(app, rank, mode, ctx, h) {
      Succeeds(app, rank, mode, ctx, f);
    }
  }

  /** One of the dependencies of `h` is at fault. */
  ghost predicate DependencyFails(app: App, rank: Func -> nat, mode: Mode, ctx: Value, h: Func)
    requires Acyclic(app, rank)
  {
    exists f :: f in Below(app, rank, h, |app.sig(h).params|) && Fails(app, rank, mode, ctx, f)
  }

  /**
   A handler with injected arguments fails exactly if one of its dependencies is at fault, or it has a
   marker without a target, or it raises itself.
   */
  lemma HandlerFailsIff(app: App, rank: Func -> nat, ctx: Value, h: Func, given: Kwargs)
    requires Acyclic(app, rank)
    ensures var mode := if app.sig(h).isAsync then Async else Sync;
            Injected(app, rank, ctx, h, given).Raised?
            <==> || Refuses(app, mode, h)
                 || CallRaises(app, rank, mode, ctx, h, given)
                 || DependencyFails(app, rank, mode, ctx, h)
  {
    hide Arguments, Fails, Eval;
    var mode, n := if app.sig(h).isAsync then Async else Sync, |app.sig(h).params|;
    if Arguments(app, rank, mode, ctx, h, given, n).Returned? {
      ArgumentsReturn(app, rank, mode, ctx, h, given, n);
      forall f | f in Below(app, rank, h, n) ensures !Fails(app, rank, mode, ctx, f) {
        ReturnedDoesNotFail(app, rank, mode, ctx, f);
      }
    } else if !Refuses(app, mode, h) && !DependencyFails(app, rank, mode, ctx, h) {
      ArgumentsSucceed(app, rank, mode, ctx, h, given, n);
    }
  }

  /** The synchronous resolver succeeds only if nothing reachable is a coroutine or lacks a target. */
  lemma SuccessIsClean(app: App, rank: Func -> nat, ctx: Value, f: Func)
    requires Acyclic(app, rank) && Eval(app, rank, Sync, ctx, f).Returned?
    ensures forall h :: h in Reach(app, rank, f) ==> !Refused(app, h)
  {
    FailsIffSomethingFails(app, rank, Sync, ctx, f);
    forall h | h in Reach(app, rank, f) ensures !Refused(app, h) {
      assert !Fails(app, rank, Sync, ctx, h);
    }
  }

  /** If nothing reachable raises on the arguments it gets, only refused functions make resolution fail. */
  lemma SyncFailsIffRefused(app: App, rank: Func -> nat, ctx: Value, f: Func)
    requires Acyclic(app, rank)
    requires forall h :: h in Reach(app, rank, f) ==> !CallRaises(app, rank, Sync, ctx, h, map[])
    ensures Eval(app, rank, Sync, ctx, f).Raised? <==> exists h :: h in Reach(app, rank, f) && Refused(app, h)
  {
    hide Eval, CallRaises, Reach;
    FailsIffSomethingFails(app, rank, Sync, ctx, f);
    if h :| h in Reach(app, rank, f) && Refused(app, h) {
      assert Fails(app, rank, Sync, ctx, h);
    }
  }

  /** The same for a synchronous handler with injected arguments. */
  lemma HandlerFailsIffRefused(app: App, rank: Func -> nat, ctx: Value, h: Func, given: Kwargs)
    requires Acyclic(app, rank) && !app.sig(h).isAsync && !CallRaises(app, rank, Sync, ctx, h, given)
    requires forall f :: f in Below(app, rank, h, |app.sig(h).params|) ==> !CallRaises(app, rank, Sync, ctx, f, map[])
    ensures Injected(app, rank, ctx, h, given).Raised? <==> exists f :: f in Reach(app, rank, h) && Refused(app, f)
  {
    hide CallRaises, Injected;
    HandlerFailsIff(app, rank, ctx, h, given);
    if DependencyFails(app, rank, Sync, ctx, h) {
      var f :| f in Below(app, rank, h, |app.sig(h).params|) && Fails(app, rank, Sync, ctx, f);
      assert f in Reach(app, rank, h) && Refused(app, f);
    }
    if f :| f in Reach(app, rank, h) && Refused(app, f) {
      assert f != h ==> Fails(app, rank, Sync, ctx, f);
    } else {
      assert h in Reach(app, rank, h);
    }
  }

  //////////////////////////////////////////////////////////////////////////////
  // The cache
  //////////////////////////////////////////////////////////////////////////////

  /** Every cached value is the value plain recursion gives. */
  ghost predicate Faithful(app: App, rank: Func -> nat, mode: Mode, ctx: Value, cache: map<Func, Value>)
    requires Acyclic(app, rank)
  {
    forall f :: f in cache ==> Eval(app, rank, mode, ctx, f) == Returned(cache[f])
  }

  /** What a cached function depends on is cached too. */
  ghost predicate Closed(app: App, cache: set<Func>) {
    forall f, i {:trigger app.sig(f).params[i]} ::
      f in cache && 0 <= i < |app.sig(f).params| && app.sig(f).params[i].Target().Some?
      ==> app.sig(f).params[i].Target().value in cache
  }

  /** No function is called twice, and each one only after everything it depends on. */
  ghost predicate Ordered(app: App, calls: seq<Func>) {
    && NoRepeat(calls)
    && (forall j, i {:trigger app.sig(calls[j]).params[i]} ::
          0 <= j < |calls| && 0 <= i < |app.sig(calls[j]).params| && app.sig(calls[j]).params[i].Target().Some?
          ==> app.sig(calls[j]).params[i].Target().value in calls[..j])
  }

  lemma {:induction false} ClosedBelow(app: App, rank: Func -> nat, cache: set<Func>, f: Func, i: nat)
    requires Acyclic(app, rank) && Closed(app, cache) && f in cache && i <= |app.sig(f).params|
    ensures Below(app, rank, f, i) <= cache
    decreases rank(f), 0, i
  {
    if i > 0 {
      ClosedBelow(app, rank, cache, f, i - 1);
      var p := app.sig(f).params[i - 1];
      if p.Target().Some? {
        ClosedReach(app, rank, cache, p.Target().value);
      }
    }
  }

  lemma {:induction false} ClosedReach(app: App, rank: Func -> nat, cache: set<Func>, f: Func)
    requires Acyclic(app, rank) && Closed(app, cache) && f in cache
    ensures Reach(app, rank, f) <= cache
    decreases rank(f), 1, 0
  {
    ClosedBelow(app, rank, cache, f, |app.sig(f).params|);
  }

  lemma {:induction false} BelowRank(app: App, rank: Func -> nat, f: Func, i: nat)
    requires Acyclic(app, rank) && i <= |app.sig(f).params|
    ensures forall h :: h in Below(app, rank, f, i) ==> rank(h) < rank(f)
    decreases rank(f), 0, i
  {
    if i > 0 {
      BelowRank(app, rank, f, i - 1);
      var p := app.sig(f).params[i - 1];
      if p.Target().Some? {
        var g := p.Target().value;
        BelowRank(app, rank, g, |app.sig(g).params|);
      }
    }
  }

  /** A call made after all its dependencies, of a function not called before, keeps the order. */
  lemma OrderedAppend(app: App, rank: Func -> nat, calls: seq<Func>, f: Func)
    requires Acyclic(app, rank) && Ordered(app, calls) && f !in calls
    requires Below(app, rank, f, |app.sig(f).params|) <= Elements(calls)
    ensures Ordered(app, calls + [f]) && Elements(calls + [f]) == Elements(calls) + {f}
  {
    var calls' := calls + [f];
    assert forall j :: 0 <= j < |calls| ==> calls'[..j] == calls[..j];
    forall i | 0 <= i < |app.sig(f).params| && app.sig(f).params[i].Target().Some?
      ensures app.sig(f).params[i].Target().value in calls
    {
      BelowParam(app, rank, f, |app.sig(f).params|, i);
      assert app.sig(f).params[i].Target().value in Below(app, rank, f, |app.sig(f).params|);
    }
    assert calls'[..|calls|] == calls;
  }

  lemma ClosedAppend(app: App, rank: Func -> nat, cache: set<Func>, f: Func)
    requires Acyclic(app, rank) && Closed(app, cache)
    requires Below(app, rank, f, |app.sig(f).params|) <= cache
    ensures Closed(app, cache + {f})
  {
    forall i | 0 <= i < |app.sig(f).params| && app.sig(f).params[i].Target().Some?
      ensures app.sig(f).params[i].Target().value in cache
    {
      BelowParam(app, rank, f, |app.sig(f).params|, i);
      assert app.sig(f).params[i].Target().value in Reach(app, rank, app.sig(f).params[i].Target().value);
    }
  }

  //////////////////////////////////////////////////////////////////////////////
  // The resolvers
  //////////////////////////////////////////////////////////////////////////////

  /**
   One request: the cache that all its resolutions share. `mode` chooses between
   `resolve_sync_dependency` and `resolve_async_dependency`, which differ in one check only.
   */
  class Request {
    const app: App
    const ctx: Value
    const mode: Mode
    var cache: map<Func, Value>

    /** The dependency functions called so far, in order. */
    ghost var calls: seq<Func>

    constructor (app: App, ctx: Value, mode: Mode)
      ensures this.app == app && this.ctx == ctx && this.mode == mode && cache == map[] && calls == []
    {
      this.app, this.ctx, this.mode := app, ctx, mode;
      cache, calls := map[], [];
    }

    ghost predicate Good(rank: Func -> nat)
      requires Acyclic(app, rank)
      reads this
    {
      && Faithful(app, rank, mode, ctx, cache)
      && Closed(app, cache.Keys)
      && Ordered(app, calls)
      && Elements(calls) == cache.Keys
    }

    /** The result is that of plain recursion, and what was not cached before is called exactly once. */
    method Resolve(f: Func, ghost rank: Func -> nat) returns (r: Outcome<Value>)
      requires Acyclic(app, rank) && Good(rank)
      modifies this
      ensures r == Eval(app, rank, mode, ctx, f)
      ensures r.Returned? ==> Good(rank) && cache.Keys == old(cache.Keys) + Reach(app, rank, f)
      ensures Ordered(app, calls) && old(calls) <= calls
      decreases rank(f), 1
    {
      hide Arguments, Below, Closed, Ordered, Faithful;
      if f in cache {
        CachedIsFaithful(app, rank, mode, ctx, cache, f);
        ClosedReach(app, rank, cache.Keys, f);
        return Returned(cache[f]);
      }
      ghost var n := |app.sig(f).params|;
      var kwargs := Collect(f, map[], rank);
      if kwargs.Raised? {
        return Raised(kwargs.error);
      }
      if mode.Sync? && app.sig(f).isAsync {
        return Raised(AsyncInSync(f));
      }
      BelowRank(app, rank, f, n);
      assert f !in cache;
      var result := app.call(f, kwargs.value);
      OrderedAppend(app, rank, calls, f);
      calls := calls + [f];
      if result.Raised? {
        return result;
      }
      ClosedAppend(app, rank, cache.Keys, f);
      FaithfulAppend(app, rank, mode, ctx, cache, f, result.value);
      ghost var keys := cache.Keys;
      cache := cache[f := result.value];
      assert cache.Keys == keys + {f};
      assert cache.Keys == old(cache.Keys) + Reach(app, rank, f);
      return result;
    }

    /** The loop over the parameters, which the resolvers and the `inject` wrappers have in common. */
    method Collect(f: Func, given: Kwargs, ghost rank: Func -> nat) returns (r: Outcome<Kwargs>)
      requires Acyclic(app, rank) && Good(rank)
      modifies this
      ensures r == Arguments(app, rank, mode, ctx, f, given, |app.sig(f).params|)
      ensures r.Returned? ==> Good(rank) && cache.Keys == old(cache.Keys) + Below(app, rank, f, |app.sig(f).params|)
      ensures Ordered(app, calls) && old(calls) <= calls
      decreases rank(f), 0
    {
      hide Eval, Reach, Closed, Ordered, Faithful, Arguments, Below, Acyclic, Elements;
      NoArguments(app, rank, mode, ctx, f, given);
      var params := app.sig(f).params;
      var kwargs := given;
      var i := 0;
      while i < |params|
        invariant 0 <= i <= |params| && Good(rank) && old(calls) <= calls
        invariant Arguments(app, rank, mode, ctx, f, given, i) == Returned(kwargs)
        invariant cache.Keys == old(cache.Keys) + Below(app, rank, f, i)
      {
        var p := params[i];
        ArgumentsStep(app, rank, mode, ctx, f, given, i, kwargs);
        if p.default.Marker? {
          var target := if p.default.dependency.Some? then p.default.dependency else p.annotation;
          if target.None? {
            ArgumentsRaise(app, rank, mode, ctx, f, given, i + 1, |params|);
            return Raised(MissingDependency(p.name));
          }
          var v := Resolve(target.value, rank);
          if v.Raised? {
            ArgumentsRaise(app, rank, mode, ctx, f, given, i + 1, |params|);
            return Raised(v.error);
          }
          kwargs := kwargs[p.name := v.value];
        } else if p.annotation == Some(CONTEXT) || p.name == "ctx" {
          kwargs := kwargs[p.name := ctx];
        }
        i := i + 1;
      }
      return Returned(kwargs);
    }
  }

  lemma NoArguments(app: App, rank: Func -> nat, mode: Mode, ctx: Value, f: Func, given: Kwargs)
    requires Acyclic(app, rank)
    ensures Arguments(app, rank, mode, ctx, f, given, 0) == Returned(given) && Below(app, rank, f, 0) == {}
  {
  }

  /** One more parameter. */
  lemma ArgumentsStep(app: App, rank: Func -> nat, mode: Mode, ctx: Value, f: Func, given: Kwargs, i: nat,
                      kwargs: Kwargs)
    requires Acyclic(app, rank) && i < |app.sig(f).params|
    requires Arguments(app, rank, mode, ctx, f, given, i) == Returned(kwargs)
    ensures var p := app.sig(f).params[i];
            var next := Arguments(app, rank, mode, ctx, f, given, i + 1);
            if p.Unresolvable() then next == Raised(MissingDependency(p.name))
            else if p.Target().Some? then
              var v := Eval(app, rank, mode, ctx, p.Target().value);
              && rank(p.Target().value) < rank(f)
              && next == if v.Raised? then Raised(v.error) else Returned(kwargs[p.name := v.value])
            else next == Returned(if p.TakesContext() then kwargs[p.name := ctx] else kwargs)
    ensures var target := app.sig(f).params[i].Target();
            Below(app, rank, f, i + 1)
            == Below(app, rank, f, i) + if target.Some? then Reach(app, rank, target.value) else {}
  {
    hide Eval, Reach;
  }

  lemma CachedIsFaithful(app: App, rank: Func -> nat, mode: Mode, ctx: Value, cache: map<Func, Value>, f: Func)
    requires Acyclic(app, rank) && Faithful(app, rank, mode, ctx, cache) && f in cache
    ensures Eval(app, rank, mode, ctx, f) == Returned(cache[f])
  {
  }

  lemma FaithfulAppend(app: App, rank: Func -> nat, mode: Mode, ctx: Value, cache: map<Func, Value>, f: Func, v: Value)
    requires Acyclic(app, rank) && Faithful(app, rank, mode, ctx, cache)
    requires Eval(app, rank, mode, ctx, f) == Returned(v)
    ensures Faithful(app, rank, mode, ctx, cache[f := v])
  {
  }

  /** An error in one parameter is the outcome of the whole loop. */
  lemma {:induction false} ArgumentsRaise(app: App, rank: Func -> nat, mode: Mode, ctx: Value, f: Func,
                                          given: Kwargs, i: nat, n: nat)
    requires Acyclic(app, rank) && i <= n <= |app.sig(f).params|
    requires Arguments(app, rank, mode, ctx, f, given, i).Raised?
    ensures Arguments(app, rank, mode, ctx, f, given, n) == Arguments(app, rank, mode, ctx, f, given, i)
    decreases n - i
  {
    if i < n {
      ArgumentsRaise(app, rank, mode, ctx, f, given, i, n - 1);
    }
  }

  /**
   The wrapper made by `inject` for a handler with dependencies: `given` are the keyword arguments of
   its caller. On success every function reachable from the handler was called exactly once, after
   everything it depends on, and nothing else was called.
   */
  method Inject(app: App, ctx: Value, h: Func, given: Kwargs, ghost rank: Func -> nat)
    returns (r: Outcome<Value>, ghost calls: seq<Func>)
    requires Acyclic(app, rank)
    ensures r == Injected(app, rank, ctx, h, given)
    ensures Ordered(app, calls)
    ensures r.Returned? ==> Elements(calls) == Below(app, rank, h, |app.sig(h).params|)
  {
    hide Arguments, Below;
    var request := new Request(app, ctx, if app.sig(h).isAsync then Async else Sync);
    var kwargs := request.Collect(h, given, rank);
    calls := request.calls;
    if kwargs.Raised? {
      return Raised(kwargs.error), calls;
    }
    r := app.call(h, kwargs.value);
  }
}
