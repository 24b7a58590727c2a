/** `AdviceApplier`: builds the handler chain of one advised method or
    constructor and runs it.

    `invoke` wraps the innermost invocation in one `DelegateInvocation` per
    handler, in list order, so the LAST handler of the list is entered first
    and `handlers[0]` sits next to the real call (`InvokeEntersLastFirst`).
 */
module AdviceApplier {
  import opened Wrappers
  import opened Types
  import opened Invocations
  import Strings

  /** `MethodDefinition` / `ConstructorDefinition`: the member callers asked
      for and the member that really runs. */
  datatype Definition = Definition(kind: InvocationKind, original: Behaviour, actual: Behaviour)

  datatype Applier = Applier(definition: Definition, handlers: seq<Handler>)

  predicate IsPublicConstructor(b: Behaviour, params: seq<Type>) {
    b.kind == ConstructorKind && Is(b.mods, PUBLIC) && b.params == params
  }

  predicate IsPublicMethod(b: Behaviour, name: string, params: seq<Type>) {
    b.kind == MethodKind && Is(b.mods, PUBLIC) && b.name == name && b.params == params
  }

  /** `Class.toString()`: "interface " or "class " before the name; a
      primitive is its bare name. */
  function ClassText(t: Type): string {
    (if t.IsInterface() then "interface " else if t.Primitive? then "" else "class ") + t.Name()
  }

  /** `Class.getSimpleName()`: a top-level class's name after its package;
      a nested class's name after the `$` and the digits a local class
      carries there, which leaves nothing for an anonymous class. */
  function SimpleName(t: Type): (r: string)
    ensures t.Declared? && t.nesting == TopLevel ==> '.' !in r
    ensures t.Declared? && t.nesting != TopLevel ==> '$' !in r && '.' !in r
  {
    match t
    case Primitive(k) => PrimName(k)
    case Array(c) => SimpleName(c) + "[]"
    case Declared(n, _, _, nest, _, _, _) =>
      if nest == TopLevel then Strings.AfterLast(n, '.')
      else Strings.DropDigits(Strings.AfterLast(Strings.AfterLast(n, '.'), '$'))
  }

  /** The message of a failed load: the pattern
      "Cannot load <what> {0}#{1}({2})" filled with the class, the member's
      name and `ToParams`, whose own parentheses come out doubled. */
  function LoadFailure(what: string, t: Type, name: string, params: seq<Type>): string {
    "Cannot load " + what + " " + ClassText(t) + "#" + name + "(" + ToParams(params) + ")"
  }

  /** `Class.getConstructor(params)`, failing with EnhanceException. */
  function LoadConstructor(t: ClassInfo, params: seq<Type>): (r: Result<Behaviour>)
    ensures r.Ok? ==> r.value in t.constructors && IsPublicConstructor(r.value, params)
    ensures r.Err? <==> forall b :: b in t.constructors ==> !IsPublicConstructor(b, params)
    ensures r.Err? ==> r.error == Enhance(LoadFailure("constructor", t.self, SimpleName(t.self), params))
  {
    var k := FirstIndex(t.constructors, (b: Behaviour) => IsPublicConstructor(b, params));
    if k < |t.constructors| then Ok(t.constructors[k])
    else Err(Enhance(LoadFailure("constructor", t.self, SimpleName(t.self), params)))
  }

  /** `Class.getMethod(name, params)` over the public methods, inherited ones
      included, failing with EnhanceException. */
  function LoadMethod(t: ClassInfo, name: string, params: seq<Type>): (r: Result<Behaviour>)
    ensures r.Ok? ==> r.value in t.methods && IsPublicMethod(r.value, name, params)
    ensures r.Err? <==> forall b :: b in t.methods ==> !IsPublicMethod(b, name, params)
    ensures r.Err? ==> r.error == Enhance(LoadFailure("method", t.self, name, params))
  {
    var k := FirstIndex(t.methods, (b: Behaviour) => IsPublicMethod(b, name, params));
    if k < |t.methods| then Ok(t.methods[k])
    else Err(Enhance(LoadFailure("method", t.self, name, params)))
  }

  /** The first position whose element satisfies `p`, or `|xs|`. */
  function FirstIndex<T>(xs: seq<T>, p: T -> bool): (k: nat)
    ensures k <= |xs|
    ensures k < |xs| ==> p(xs[k])
    ensures forall i :: 0 <= i < k ==> !p(xs[i])
  {
    if |xs| == 0 then 0 else if p(xs[0]) then 0 else 1 + FirstIndex(xs[1..], p)
  }

  /** `AdviceApplier.constructor(...)`.  A null handler list is reported
      under the name "targetType", as the source does. */
  function ConstructorApplier(handlers: Option<seq<Handler>>, originalType: Option<ClassInfo>,
                              actualType: Option<ClassInfo>, params: Option<seq<Type>>)
    : (r: Result<Applier>)
    ensures handlers.None? ==> r == Err(NullPointer("targetType"))
    ensures handlers.Some? && originalType.None? ==> r == Err(NullPointer("originalType"))
    ensures handlers.Some? && originalType.Some? && actualType.None? ==> r == Err(NullPointer("actualType"))
    ensures handlers.Some? && originalType.Some? && actualType.Some? && params.None?
            ==> r == Err(NullPointer("parameterTypes"))
    ensures r.Ok? <==> handlers.Some? && originalType.Some? && actualType.Some? && params.Some?
                       && LoadConstructor(originalType.value, params.value).Ok?
                       && LoadConstructor(actualType.value, params.value).Ok?
    ensures r.Ok? ==> r.value.handlers == handlers.value
                      && r.value.definition.kind == ConstructorCall
                      && r.value.definition.original in originalType.value.constructors
                      && r.value.definition.actual in actualType.value.constructors
                      && r.value.definition.original.params == params.value
                      && r.value.definition.actual.params == params.value
  {
    if handlers.None? then Err(NullPointer("targetType"))
    else if originalType.None? then Err(NullPointer("originalType"))
    else if actualType.None? then Err(NullPointer("actualType"))
    else if params.None? then Err(NullPointer("parameterTypes"))
    else
      var original :- LoadConstructor(originalType.value, params.value);
      var actual :- LoadConstructor(actualType.value, params.value);
      Ok(Applier(Definition(ConstructorCall, original, actual), handlers.value))
  }

  /** `AdviceApplier.method(...)`. */
  function MethodApplier(handlers: Option<seq<Handler>>, originalType: Option<ClassInfo>,
                         originalName: Option<string>, actualType: Option<ClassInfo>,
                         actualName: Option<string>, params: Option<seq<Type>>)
    : (r: Result<Applier>)
    ensures handlers.None? ==> r == Err(NullPointer("targetType"))
    ensures handlers.Some? && originalType.None? ==> r == Err(NullPointer("originalType"))
    ensures handlers.Some? && originalType.Some? && originalName.None? ==> r == Err(NullPointer("originalName"))
    ensures handlers.Some? && originalType.Some? && originalName.Some? && actualType.None?
            ==> r == Err(NullPointer("actualType"))
    ensures handlers.Some? && originalType.Some? && originalName.Some? && actualType.Some? && actualName.None?
            ==> r == Err(NullPointer("actualName"))
    ensures (handlers.Some? && originalType.Some? && originalName.Some? && actualType.Some? && actualName.Some?
             && params.None?) ==> r == Err(NullPointer("parameterTypes"))
    ensures r.Ok? <==> handlers.Some? && originalType.Some? && originalName.Some? && actualType.Some?
                       && actualName.Some? && params.Some?
                       && LoadMethod(originalType.value, originalName.value, params.value).Ok?
                       && LoadMethod(actualType.value, actualName.value, params.value).Ok?
    ensures r.Ok? ==> r.value.handlers == handlers.value
                      && r.value.definition.kind == MethodCall
                      && IsPublicMethod(r.value.definition.original, originalName.value, params.value)
                      && IsPublicMethod(r.value.definition.actual, actualName.value, params.value)
                      && r.value.definition.original in originalType.value.methods
                      && r.value.definition.actual in actualType.value.methods
  {
    if handlers.None? then Err(NullPointer("targetType"))
    else if originalType.None? then Err(NullPointer("originalType"))
    else if originalName.None? then Err(NullPointer("originalName"))
    else if actualType.None? then Err(NullPointer("actualType"))
    else if actualName.None? then Err(NullPointer("actualName"))
    else if params.None? then Err(NullPointer("parameterTypes"))
    else
      var original :- LoadMethod(originalType.value, originalName.value, params.value);
      var actual :- LoadMethod(actualType.value, actualName.value, params.value);
      Ok(Applier(Definition(MethodCall, original, actual), handlers.value))
  }

  /** `toParams`: the parameter type names, comma-joined without spaces, in
      parentheses. */
  function ToParams(params: seq<Type>): string
  {
    if |params| == 0 then "()"
    else "(" + Strings.Join(Names(params), ',') + ")"
  }

  function Names(params: seq<Type>): (r: seq<string>)
    ensures |r| == |params|
    ensures forall i :: 0 <= i < |params| ==> r[i] == params[i].Name()
  {
    if |params| == 0 then [] else [params[0].Name()] + Names(params[1..])
  }

  /** The rendering is always parenthesised, and the names can be read back
      from between the parentheses when none contains a comma. */
  lemma ToParamsRoundTrip(params: seq<Type>)
    requires forall i :: 0 <= i < |params| ==> ',' !in params[i].Name() && params[i].Name() != ""
    ensures var s := ToParams(params);
            2 <= |s| && s[0] == '(' && s[|s| - 1] == ')'
            && (|params| == 0 <==> s == "()")
            && (|params| > 0 ==> Strings.Split(s[1..|s| - 1], ',') == Names(params))
  {
    var s := ToParams(params);
    if |params| > 0 {
      assert s[1..|s| - 1] == Strings.Join(Names(params), ',');
      Strings.JoinSplitRoundTrip(Names(params), ',');
      Strings.JoinStartsWithFirst(Names(params), ',');
    }
  }

  /** The simple name of `String` drops its package. */
  lemma SimpleNameOfString()
    ensures SimpleName(StringType) == "String"
  {
    assert StringType.name == "java.lang" + ['.'] + "String";
    Strings.AfterLastSeparator("java.lang", '.', "String");
  }

  /** A failed method load on `String` shows the parameter list in doubled
      parentheses. */
  lemma LoadFailureOfString()
    ensures var m := LoadFailure("method", StringType, "valueOf", [Primitive(Int)]);
            Strings.EndsWith(m, "#valueOf((int))")
  {
    assert Names([Primitive(Int)]) == ["int"];
    var head := "Cannot load " + "method" + " " + ClassText(StringType);
    var m := LoadFailure("method", StringType, "valueOf", [Primitive(Int)]);
    assert m == head + ("#" + "valueOf" + "(" + ToParams([Primitive(Int)]) + ")");
    assert "#" + "valueOf" + "(" + ToParams([Primitive(Int)]) + ")" == "#valueOf((int))";
  }

  /** `definition.newInvocation(object, arguments)`. */
  function NewInvocation(d: Definition, invoker: Value, arguments: Option<seq<Value>>): Result<Invocation>
  {
    match d.kind
    case MethodCall => NewMethodInvocation(Some(d.original), Some(d.actual), invoker, arguments)
    case ConstructorCall => NewConstructorInvocation(Some(d.original), Some(d.actual), invoker, arguments)
  }

  function ChainOf(a: Applier, body: Body): (c: Chain)
  {
    Chain(a.handlers, a.definition.actual.params, body)
  }

  function NoCopies(n: nat): (r: seq<Option<seq<Value>>>)
    ensures |r| == n && forall i :: 0 <= i < n ==> r[i].None?
  {
    if n == 0 then [] else NoCopies(n - 1) + [None]
  }

  /** `AdviceApplier.invoke(object, arguments)`: wraps one
      `DelegateInvocation` per handler around the innermost invocation,
      proceeds the outermost one and unwraps one InvocationTargetException.
      `body` is what the actual member does when it runs. */
  function Invoke(a: Applier, body: Body, invoker: Value, arguments: Option<seq<Value>>): Outcome
  {
    match NewInvocation(a.definition, invoker, arguments)
    case Err(e) => Raised(Failure(e))
    case Ok(inv) =>
      var c := ChainOf(a, body);
      Unwrap(ProceedAt(c, Frames(inv.arguments, NoCopies(|a.handlers|)), |a.handlers|).1)
  }

  lemma {:induction false} GetArgsFresh(st: Frames, k: nat)
    requires k <= |st.caches|
    requires forall j :: 0 <= j < |st.caches| ==> st.caches[j].None?
    ensures GetArgs(st, k).1 == st.base
  {
    if k > 0 {
      GetArgsFresh(st, k - 1);
    }
  }

  /** `invoke` runs the fold over the caller's arguments. */
  lemma InvokeByFold(a: Applier, body: Body, invoker: Value, arguments: Option<seq<Value>>)
    requires NewInvocation(a.definition, invoker, arguments).Ok?
    ensures arguments.Some?
    ensures Invoke(a, body, invoker, arguments)
            == Unwrap(Proceed(ChainOf(a, body), |a.handlers|, arguments.value).outcome)
  {
    var inv := NewInvocation(a.definition, invoker, arguments).value;
    var st := Frames(inv.arguments, NoCopies(|a.handlers|));
    GetArgsFresh(st, |a.handlers|);
    ProceedAgrees(ChainOf(a, body), st, |a.handlers|);
  }

  // ---------------------------------------------------------------------
  // Properties of the fold

  /** `[k - 1, k - 2, ..., 0]`. */
  function Descending(k: nat): (r: seq<nat>)
    ensures |r| == k && forall i :: 0 <= i < k ==> r[i] == k - 1 - i
  {
    if k == 0 then [] else [k - 1] + Descending(k - 1)
  }

  /** The heads of the `BeforeInsert` handlers, in list order. */
  function Heads(hs: seq<Handler>): string {
    if |hs| == 0 then "" else Heads(hs[..|hs| - 1]) + HeadOf(hs[|hs| - 1])
  }

  function HeadOf(h: Handler): string { if h.BeforeInsert? then h.head else "" }

  /** The tails of the `AfterAppend` handlers, in list order. */
  function Tails(hs: seq<Handler>): string {
    if |hs| == 0 then "" else Tails(hs[..|hs| - 1]) + TailOf(hs[|hs| - 1])
  }

  function TailOf(h: Handler): string { if h.AfterAppend? then h.tail else "" }

  /** The first `k` handlers all proceed. */
  predicate AllProceed(hs: seq<Handler>, k: nat) {
    k <= |hs| && forall i :: 0 <= i < k ==> Proceeds(hs[i])
  }

  /** The arguments handed on by handler `hs[k - 1]` when it proceeds. */
  function Passed(h: Handler, args: seq<Value>): seq<Value>
    requires |args| >= 1
  {
    if h.BeforeInsert? then Insert(args, h.head) else args
  }

  /** The arguments the actual member receives behind the first `k`
      handlers: every head inserted before the first argument. */
  function TargetArgs(hs: seq<Handler>, k: nat, args: seq<Value>): seq<Value>
    requires k <= |hs| && |args| >= 1 && args[0].Str?
  {
    args[0 := Str(Heads(hs[..k]) + args[0].s)]
  }

  lemma PassedTarget(hs: seq<Handler>, k: nat, args: seq<Value>)
    requires 1 <= k <= |hs| && |args| >= 1 && args[0].Str?
    ensures |Passed(hs[k - 1], args)| >= 1 && Passed(hs[k - 1], args)[0].Str?
    ensures TargetArgs(hs, k - 1, Passed(hs[k - 1], args)) == TargetArgs(hs, k, args)
  {
    var h := hs[k - 1];
    var inner := Passed(h, args);
    assert hs[..k][k - 1] == h;
    assert hs[..k][..k - 1] == hs[..k - 1];
    assert Heads(hs[..k]) == Heads(hs[..k - 1]) + HeadOf(h);
    assert inner[0].s == HeadOf(h) + args[0].s;
    var target := TargetArgs(hs, k, args);
    assert Heads(hs[..k - 1]) + inner[0].s == Heads(hs[..k]) + args[0].s;
    forall i | 0 <= i < |args| ensures TargetArgs(hs, k - 1, inner)[i] == target[i] {
      if i != 0 {
        assert inner[i] == args[i];
      }
    }
  }

  /** Behind proceeding handlers, every handler is entered, outermost first. */
  lemma {:induction false} FoldEntersLastFirst(c: Chain, k: nat, args: seq<Value>)
    requires AllProceed(c.handlers, k) && |args| >= 1 && args[0].Str?
    ensures Proceed(c, k, args).entered == Descending(k)
  {
    if k > 0 {
      PassedTarget(c.handlers, k, args);
      FoldEntersLastFirst(c, k - 1, Passed(c.handlers[k - 1], args));
    }
  }

  /** Behind proceeding handlers, the actual member receives the arguments
      with every head inserted, in list order. */
  lemma {:induction false} FoldReachesTarget(c: Chain, k: nat, args: seq<Value>)
    requires AllProceed(c.handlers, k) && |args| >= 1 && args[0].Str?
    ensures Proceed(c, k, args).reached == Some(TargetArgs(c.handlers, k, args))
  {
    if k == 0 {
      TargetArgsNone(c.handlers, args);
    } else {
      PassedTarget(c.handlers, k, args);
      FoldReachesTarget(c, k - 1, Passed(c.handlers[k - 1], args));
    }
  }

  /** Behind proceeding handlers, what the actual member throws comes out of
      layer `k` inside exactly one InvocationTargetException. */
  lemma {:induction false} FoldRaises(c: Chain, k: nat, args: seq<Value>)
    requires AllProceed(c.handlers, k) && |args| >= 1 && args[0].Str?
    requires Call(c.params, c.body, TargetArgs(c.handlers, k, args)).Raised?
    ensures var base := Call(c.params, c.body, TargetArgs(c.handlers, k, args));
            Proceed(c, k, args).outcome == if k == 0 then base else Raised(InvocationTarget(Unwrap(base).exc))
  {
    if k == 0 {
      TargetArgsNone(c.handlers, args);
    } else {
      PassedTarget(c.handlers, k, args);
      FoldRaises(c, k - 1, Passed(c.handlers[k - 1], args));
    }
  }

  /** Behind proceeding handlers, a string result gains every tail, in list
      order. */
  lemma {:induction false} FoldAppendsTails(c: Chain, k: nat, args: seq<Value>)
    requires AllProceed(c.handlers, k) && |args| >= 1 && args[0].Str?
    requires var base := Call(c.params, c.body, TargetArgs(c.handlers, k, args));
             base.Returned? && base.value.Str?
    ensures var base := Call(c.params, c.body, TargetArgs(c.handlers, k, args));
            Proceed(c, k, args).outcome == Returned(Str(base.value.s + Tails(c.handlers[..k])))
  {
    var hs := c.handlers;
    if k == 0 {
      TargetArgsNone(hs, args);
      assert Tails(hs[..0]) == "";
    } else {
      var h := hs[k - 1];
      var s := Call(c.params, c.body, TargetArgs(hs, k, args)).value.s;
      PassedTarget(hs, k, args);
      FoldAppendsTails(c, k - 1, Passed(h, args));
      ProceedStep(c, k, args);
      TailsStep(hs, k);
      var o := Proceed(c, k - 1, Passed(h, args)).outcome;
      assert o == Returned(Str(s + Tails(hs[..k - 1])));
      assert Unwrap(o) == o;
      if h.AfterAppend? {
        assert Append(o, h.tail) == Returned(Str(s + Tails(hs[..k - 1]) + h.tail));
        assert s + Tails(hs[..k - 1]) + h.tail == s + Tails(hs[..k]);
      } else {
        assert Tails(hs[..k]) == Tails(hs[..k - 1]);
      }
    }
  }

  /** One layer of the fold around a proceeding handler. */
  lemma ProceedStep(c: Chain, k: nat, args: seq<Value>)
    requires 1 <= k <= |c.handlers| && Proceeds(c.handlers[k - 1]) && |args| >= 1
    ensures var h := c.handlers[k - 1];
            var inner := Unwrap(Proceed(c, k - 1, Passed(h, args)).outcome);
            Proceed(c, k, args).outcome == Wrap(if h.AfterAppend? then Append(inner, h.tail) else inner)
  {
  }

  lemma TailsStep(hs: seq<Handler>, k: nat)
    requires 1 <= k <= |hs|
    ensures Tails(hs[..k]) == Tails(hs[..k - 1]) + TailOf(hs[k - 1])
  {
    assert hs[..k][k - 1] == hs[k - 1] && hs[..k][..k - 1] == hs[..k - 1];
  }

  lemma TargetArgsNone(hs: seq<Handler>, args: seq<Value>)
    requires |args| >= 1 && args[0].Str?
    ensures TargetArgs(hs, 0, args) == args
  {
    assert hs[..0] == [];
    assert Heads(hs[..0]) == "";
    assert "" + args[0].s == args[0].s;
  }

  /** A handler that throws at position `j` behind proceeding handlers: the
      handlers from the outermost down to `j` are entered, and the exception
      leaves layer `k` inside one InvocationTargetException. */
  lemma {:induction false} FoldThrows(c: Chain, k: nat, j: nat, e: Exc, args: seq<Value>)
    requires j < k <= |c.handlers| && c.handlers[j] == Throw(e)
    requires forall i :: j < i < k ==> Proceeds(c.handlers[i])
    requires |args| >= 1 && args[0].Str?
    ensures Proceed(c, k, args).outcome == Raised(InvocationTarget(e))
    ensures Proceed(c, k, args).entered == Descending(k)[..k - j]
    ensures Proceed(c, k, args).reached.None?
  {
    if k - 1 > j {
      var h := c.handlers[k - 1];
      var inner := if h.BeforeInsert? then Insert(args, h.head) else args;
      FoldThrows(c, k - 1, j, e, inner);
      assert Descending(k)[..k - j] == [k - 1] + Descending(k - 1)[..k - 1 - j];
    } else {
      assert Descending(k)[..1] == [k - 1];
    }
  }

  // ---------------------------------------------------------------------
  // Properties of invoke

  /** With no handlers, `invoke` runs the actual member directly and unwraps
      what it throws. */
  lemma InvokeWithoutHandlers(a: Applier, body: Body, invoker: Value, args: seq<Value>)
    requires |a.handlers| == 0
    requires NewInvocation(a.definition, invoker, Some(args)).Ok?
    ensures Invoke(a, body, invoker, Some(args)) == Unwrap(Call(a.definition.actual.params, body, args))
  {
  }

  /** A failure of `newInvocation` escapes `invoke` as it is: for a method, a
      static target with a receiver or an instance target without one. */
  lemma InvokeRejectsReceiver(a: Applier, body: Body, invoker: Value, args: seq<Value>)
    requires a.definition.kind == MethodCall
    ensures Is(a.definition.actual.mods, STATIC) && !invoker.Null?
            ==> Invoke(a, body, invoker, Some(args)).Raised?
                && Invoke(a, body, invoker, Some(args)).exc.Failure?
                && Invoke(a, body, invoker, Some(args)).exc.error.IllegalArgument?
    ensures !Is(a.definition.actual.mods, STATIC) && invoker.Null?
            ==> Invoke(a, body, invoker, Some(args)) == Raised(Failure(NullPointer("object")))
  {
  }

  /** Behind proceeding handlers, the caller sees exactly what the actual
      member threw: the wrapping by each layer is undone by the next
      handler and finally by `invoke`. */
  lemma InvokeSurfacesTargetException(a: Applier, body: Body, invoker: Value, args: seq<Value>)
    requires NewInvocation(a.definition, invoker, Some(args)).Ok?
    requires AllProceed(a.handlers, |a.handlers|) && |args| >= 1 && args[0].Str?
    requires Call(a.definition.actual.params, body, TargetArgs(a.handlers, |a.handlers|, args)).Raised?
    ensures Invoke(a, body, invoker, Some(args))
            == Unwrap(Call(a.definition.actual.params, body, TargetArgs(a.handlers, |a.handlers|, args)))
  {
    InvokeByFold(a, body, invoker, Some(args));
    FoldRaises(ChainOf(a, body), |a.handlers|, args);
  }

  /** Behind handlers that proceed without unwrapping, the caller sees the
      actual member's exception inside one InvocationTargetException per
      handler: `invoke` removes only the one reflection added. */
  lemma InvokeNestsTargetException(a: Applier, e: Exc, invoker: Value, args: seq<Value>)
    requires NewInvocation(a.definition, invoker, Some(args)).Ok?
    requires forall i :: 0 <= i < |a.handlers| ==> a.handlers[i] == Plain
    requires ArgumentsFit(a.definition.actual.params, args)
    ensures Invoke(a, Fails(e), invoker, Some(args)) == Raised(Nested(e, |a.handlers|))
  {
    InvokeByFold(a, Fails(e), invoker, Some(args));
    PlainNests(ChainOf(a, Fails(e)), |a.handlers|, args);
    NestedInside(e, |a.handlers|);
  }

  lemma {:induction false} NestedInside(e: Exc, n: nat)
    ensures Nested(InvocationTarget(e), n) == Nested(e, n + 1)
  {
    if n > 0 {
      NestedInside(e, n - 1);
    }
  }

  /** Behind proceeding handlers, a string result reaches the caller with
      every tail appended in list order. */
  lemma InvokeAppendsTails(a: Applier, body: Body, invoker: Value, args: seq<Value>)
    requires NewInvocation(a.definition, invoker, Some(args)).Ok?
    requires AllProceed(a.handlers, |a.handlers|) && |args| >= 1 && args[0].Str?
    requires var base := Call(a.definition.actual.params, body, TargetArgs(a.handlers, |a.handlers|, args));
             base.Returned? && base.value.Str?
    ensures var base := Call(a.definition.actual.params, body, TargetArgs(a.handlers, |a.handlers|, args));
            Invoke(a, body, invoker, Some(args)) == Returned(Str(base.value.s + Tails(a.handlers)))
  {
    InvokeByFold(a, body, invoker, Some(args));
    FoldAppendsTails(ChainOf(a, body), |a.handlers|, args);
    assert a.handlers[..|a.handlers|] == a.handlers;
  }

  /** A handler's own exception reaches the caller unwrapped, whatever its
      position behind proceeding handlers. */
  lemma InvokeSurfacesHandlerException(a: Applier, body: Body, invoker: Value, args: seq<Value>, j: nat, e: Exc)
    requires NewInvocation(a.definition, invoker, Some(args)).Ok?
    requires j < |a.handlers| && a.handlers[j] == Throw(e)
    requires forall i :: j < i < |a.handlers| ==> Proceeds(a.handlers[i])
    requires |args| >= 1 && args[0].Str?
    ensures Invoke(a, body, invoker, Some(args)) == Raised(e)
  {
    InvokeByFold(a, body, invoker, Some(args));
    FoldThrows(ChainOf(a, body), |a.handlers|, j, e, args);
  }

  /** A public instance method `ident(String)` of a public class. */
  const IdentClass: Type := Declared("MethodTestTarget", PUBLIC, ClassKind, TopLevel, None, Some(ObjectType), [])
  const Ident: Behaviour := Behaviour(MethodKind, IdentClass, "ident", [StringType], StringType, PUBLIC, [])

  /** Before-insert handlers A, B, C and D around a constructor given "E"
      build from "ABCDE". */
  lemma ConstructorHandlersExample()
    ensures var ctor := Behaviour(ConstructorKind, IdentClass, "<init>", [StringType], Primitive(VoidKind), PUBLIC, []);
            var a := Applier(Definition(ConstructorCall, ctor, ctor),
                             [BeforeInsert("A"), BeforeInsert("B"), BeforeInsert("C"), BeforeInsert("D")]);
            Invoke(a, ReturnFirst, Obj(ObjectType, "factory"), Some([Str("E")])) == Returned(Str("ABCDE"))
  {
    var ctor := Behaviour(ConstructorKind, IdentClass, "<init>", [StringType], Primitive(VoidKind), PUBLIC, []);
    var hs := [BeforeInsert("A"), BeforeInsert("B"), BeforeInsert("C"), BeforeInsert("D")];
    var a := Applier(Definition(ConstructorCall, ctor, ctor), hs);
    var args := [Str("E")];
    ConstructorHandlersTarget(hs);
    assert Fits(StringType, Str("ABCDE"));
    InvokeAppendsTails(a, ReturnFirst, Obj(ObjectType, "factory"), args);
  }

  lemma ConstructorHandlersTarget(hs: seq<Handler>)
    requires hs == [BeforeInsert("A"), BeforeInsert("B"), BeforeInsert("C"), BeforeInsert("D")]
    ensures TargetArgs(hs, 4, [Str("E")]) == [Str("ABCDE")] && Tails(hs) == ""
  {
    HeadsTailsOfFour(hs);
    assert hs[..4] == hs;
    assert "A" + "B" + "C" + "D" + "E" == "ABCDE";
  }

  /** Heads and tails of a four-handler list, handler by handler. */
  lemma HeadsTailsOfFour(hs: seq<Handler>)
    requires |hs| == 4
    ensures Heads(hs) == HeadOf(hs[0]) + HeadOf(hs[1]) + HeadOf(hs[2]) + HeadOf(hs[3])
    ensures Tails(hs) == TailOf(hs[0]) + TailOf(hs[1]) + TailOf(hs[2]) + TailOf(hs[3])
  {
    var h1, h2, h3 := hs[..1], hs[..2], hs[..3];
    assert h1[..0] == [] && h2[..1] == h1 && h3[..2] == h2 && hs[..3] == h3;
    assert Heads(h1) == HeadOf(hs[0]) && Tails(h1) == TailOf(hs[0]);
    assert Heads(h2) == Heads(h1) + HeadOf(hs[1]) && Tails(h2) == Tails(h1) + TailOf(hs[1]);
    assert Heads(h3) == Heads(h2) + HeadOf(hs[2]) && Tails(h3) == Tails(h2) + TailOf(hs[2]);
  }

  /** before "a", before "b", after "d", after "e" around `ident("c")` give
      "abcde". */
  lemma MethodHandlersExample()
    ensures var a := Applier(Definition(MethodCall, Ident, Ident),
                             [BeforeInsert("a"), BeforeInsert("b"), AfterAppend("d"), AfterAppend("e")]);
            Invoke(a, ReturnFirst, Obj(IdentClass, "target"), Some([Str("c")])) == Returned(Str("abcde"))
  {
    var hs := [BeforeInsert("a"), BeforeInsert("b"), AfterAppend("d"), AfterAppend("e")];
    var a := Applier(Definition(MethodCall, Ident, Ident), hs);
    var args := [Str("c")];
    MethodHandlersTarget(hs);
    assert Fits(StringType, Str("abc"));
    InvokeAppendsTails(a, ReturnFirst, Obj(IdentClass, "target"), args);
    assert "abc" + "de" == "abcde";
  }

  lemma MethodHandlersTarget(hs: seq<Handler>)
    requires hs == [BeforeInsert("a"), BeforeInsert("b"), AfterAppend("d"), AfterAppend("e")]
    ensures TargetArgs(hs, 4, [Str("c")]) == [Str("abc")] && Tails(hs) == "de"
  {
    HeadsTailsOfFour(hs);
    assert hs[..4] == hs;
    assert "a" + "b" + "" + "" + "c" == "abc";
    assert "" + "" + "d" + "e" == "de";
  }
}
