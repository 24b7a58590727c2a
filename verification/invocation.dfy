/** The advice-chain runtime: `MethodInvocation`, `ConstructorInvocation` and
    `DelegateInvocation`, with a small vocabulary of handlers.

    Two descriptions of running a chain are given.  `Frames`, `GetArgs`,
    `ProceedAt` and `HandleAt` follow `DelegateInvocation` step by step: each
    layer lazily copies the arguments of the layer below, a handler rewrites
    that copy, and `proceed` copies it back before entering the next handler.
    `Proceed` and `Handle` are the plain recursive fold in which the argument
    vector simply flows inwards.  `ProceedAgrees` and `HandleAgrees` prove
    the two give the same outcome.
 */
module Invocations {
  import opened Wrappers
  import opened Types

  /** Run-time values: Java `null`, strings, booleans and other objects, each
      object carrying its class and the text its `toString` yields. */
  datatype Value = Null | Str(s: string) | Bool(b: bool) | Obj(cls: Type, text: string)

  /** `getClass()`, absent for `null`. */
  function ClassOf(v: Value): (r: Option<Type>)
    ensures r.None? <==> v.Null?
  {
    match v
    case Null => None
    case Str(_) => Some(StringType)
    case Bool(_) => Box(Boolean)
    case Obj(c, _) => Some(c)
  }

  /** `String.valueOf(v)`, as string concatenation renders an operand. */
  function Render(v: Value): string {
    match v
    case Null => "null"
    case Str(s) => s
    case Bool(b) => if b then "true" else "false"
    case Obj(_, t) => t
  }

  /** Throwables. `Failure` carries the exception kinds of `Wrappers.Error`. */
  datatype Exc =
    | Failure(error: Error)
    | User(name: string)
    | InvocationTarget(cause: Exc)
    | IndexOutOfBounds
    | ClassCast

  datatype Outcome = Returned(value: Value) | Raised(exc: Exc)

  /** What the actual member does when reflection runs it. */
  datatype Body = ReturnFirst | Constant(v: Value) | Fails(e: Exc)

  /** Reflection accepts `arg` for a parameter of type `param`: `null` for a
      reference type, otherwise an instance of it, or for a primitive
      parameter a wrapper whose value widens to it. */
  predicate Fits(param: Type, arg: Value) {
    match ClassOf(arg)
    case None => !param.Primitive?
    case Some(c) => SubtypeOf(c, param) || (param.Primitive? && Unbox(c).Some? && Widens(Unbox(c).value, param.prim))
  }

  /** An `Integer` fits a `long` parameter, a `Long` does not fit an `int`
      one, and a `Boolean` fits only `boolean`. */
  lemma FitsWidening()
    ensures Fits(Primitive(Long), Obj(Box(Int).value, "1"))
    ensures !Fits(Primitive(Int), Obj(Box(Long).value, "1"))
    ensures forall k :: Fits(Primitive(k), Bool(true)) <==> k == Boolean
  {
    IntegerWidensToLong();
    LongDoesNotNarrowToInt();
    BooleanFitsOnlyBoolean();
  }

  lemma IntegerWidensToLong()
    ensures Fits(Primitive(Long), Obj(Box(Int).value, "1"))
  {
    UnboxBox(Int);
  }

  lemma LongDoesNotNarrowToInt()
    ensures !Fits(Primitive(Int), Obj(Box(Long).value, "1"))
  {
    UnboxBox(Long);
  }

  lemma BooleanFitsOnlyBoolean()
    ensures forall k :: Fits(Primitive(k), Bool(true)) <==> k == Boolean
  {
    UnboxBox(Boolean);
  }

  predicate ArgumentsFit(params: seq<Type>, args: seq<Value>) {
    |params| == |args| && forall i :: 0 <= i < |args| ==> Fits(params[i], args[i])
  }

  /** `Method.invoke` / `Constructor.newInstance` on the actual member.
      Unfit arguments raise IllegalArgumentException directly; what the
      member itself throws arrives wrapped in InvocationTargetException. */
  function Call(params: seq<Type>, body: Body, args: seq<Value>): (o: Outcome)
    ensures !ArgumentsFit(params, args) <==> o.Raised? && o.exc.Failure?
    ensures ArgumentsFit(params, args) && body.Fails? ==> o == Raised(InvocationTarget(body.e))
    ensures o.Returned? ==> ArgumentsFit(params, args) && !body.Fails?
  {
    if !ArgumentsFit(params, args) then Raised(Failure(IllegalArgument("argument type mismatch")))
    else match body
      case ReturnFirst => Returned(if |args| > 0 then args[0] else Null)
      case Constant(v) => Returned(v)
      case Fails(e) => Raised(InvocationTarget(e))
  }

  /** A method call or an instance creation as the innermost invocation. */
  datatype InvocationKind = MethodCall | ConstructorCall

  datatype Invocation = Invocation(
    kind: InvocationKind,
    original: Behaviour,   // getTarget()
    actual: Behaviour,     // what proceed() runs
    invoker: Value,        // getInvoker(): receiver or factory
    arguments: seq<Value>) // getArguments(): the live array

  /** The `MethodInvocation` constructor.  Whether a receiver is required is
      decided by the actual method, not the original one. */
  function NewMethodInvocation(original: Option<Behaviour>, actual: Option<Behaviour>,
                               receiver: Value, arguments: Option<seq<Value>>)
    : (r: Result<Invocation>)
    ensures original.None? ==> r == Err(NullPointer("originalTarget"))
    ensures original.Some? && actual.None? ==> r == Err(NullPointer("actualTarget"))
    ensures original.Some? && actual.Some? && arguments.None? ==> r == Err(NullPointer("arguments"))
    ensures r.Ok? <==> original.Some? && actual.Some? && arguments.Some?
                       && (Is(actual.value.mods, STATIC) <==> receiver.Null?)
    ensures r.Ok? ==> r.value == Invocation(MethodCall, original.value, actual.value, receiver, arguments.value)
    ensures original.Some? && actual.Some? && arguments.Some? && Is(actual.value.mods, STATIC) && !receiver.Null?
            ==> r.Err? && r.error.IllegalArgument?
    ensures original.Some? && actual.Some? && arguments.Some? && !Is(actual.value.mods, STATIC) && receiver.Null?
            ==> r == Err(NullPointer("object"))
  {
    if original.None? then Err(NullPointer("originalTarget"))
    else if actual.None? then Err(NullPointer("actualTarget"))
    else if arguments.None? then Err(NullPointer("arguments"))
    else if Is(actual.value.mods, STATIC) && !receiver.Null? then Err(IllegalArgument("object should be null"))
    else if !Is(actual.value.mods, STATIC) && receiver.Null? then Err(NullPointer("object"))
    else Ok(Invocation(MethodCall, original.value, actual.value, receiver, arguments.value))
  }

  /** The `ConstructorInvocation` constructor.  Every argument is required,
      the factory included. */
  function NewConstructorInvocation(original: Option<Behaviour>, actual: Option<Behaviour>,
                                    factory: Value, arguments: Option<seq<Value>>)
    : (r: Result<Invocation>)
    ensures original.None? ==> r == Err(NullPointer("originalTarget"))
    ensures original.Some? && actual.None? ==> r == Err(NullPointer("actualTarget"))
    ensures original.Some? && actual.Some? && factory.Null? ==> r == Err(NullPointer("factory"))
    ensures original.Some? && actual.Some? && !factory.Null? && arguments.None? ==> r == Err(NullPointer("arguments"))
    ensures r.Ok? <==> original.Some? && actual.Some? && !factory.Null? && arguments.Some?
    ensures r.Ok? ==> r.value == Invocation(ConstructorCall, original.value, actual.value, factory, arguments.value)
  {
    if original.None? then Err(NullPointer("originalTarget"))
    else if actual.None? then Err(NullPointer("actualTarget"))
    else if factory.Null? then Err(NullPointer("factory"))
    else if arguments.None? then Err(NullPointer("arguments"))
    else Ok(Invocation(ConstructorCall, original.value, actual.value, factory, arguments.value))
  }

  /** The outcome reflection reports for arguments the member cannot take. */
  predicate Mismatch(o: Outcome) { o.Raised? && o.exc.Failure? }

  /** `proceed()` of the innermost invocation: runs the actual member on the
      current arguments.  The original member plays no part. */
  function BaseProceed(inv: Invocation, body: Body): (o: Outcome)
    ensures Mismatch(o) <==> !ArgumentsFit(inv.actual.params, inv.arguments)
  {
    Call(inv.actual.params, body, inv.arguments)
  }

  /** Swapping the reported member leaves what `proceed()` does unchanged,
      while swapping the actual one can turn fitting arguments into a
      mismatch. */
  lemma ProceedUsesActual(inv: Invocation, body: Body, b: Behaviour)
    ensures BaseProceed(inv.(original := b), body) == BaseProceed(inv, body)
    ensures ArgumentsFit(inv.actual.params, inv.arguments) && !ArgumentsFit(b.params, inv.arguments)
            ==> Mismatch(BaseProceed(inv.(actual := b), body)) && !Mismatch(BaseProceed(inv, body))
  {
  }

  /** Handlers.  `Through`, `BeforeInsert` and `AfterAppend` follow the
      idiom `InvocationHandler` documents: they proceed, and when that
      raises an InvocationTargetException they raise its cause instead.
      `Plain` proceeds without unwrapping, so what `proceed` raises leaves
      it as it is. */
  datatype Handler =
    | Through                   // proceeds, unwrapping
    | BeforeInsert(head: string) // prefixes the first argument with head, then proceeds, unwrapping
    | AfterAppend(tail: string)  // proceeds, unwrapping, and appends tail to the string returned
    | Plain                     // proceeds and gives back its outcome unchanged
    | Replace(v: Value)          // returns v without proceeding
    | Throw(e: Exc)              // raises e without proceeding

  /** The handler proceeds and unwraps what `proceed` throws. */
  predicate Proceeds(h: Handler) { h.Through? || h.BeforeInsert? || h.AfterAppend? }

  /** An InvocationTargetException gives way to its cause; every other
      outcome passes through. */
  function Unwrap(o: Outcome): (r: Outcome)
    ensures o.Raised? && o.exc.InvocationTarget? ==> r == Raised(o.exc.cause)
    ensures !(o.Raised? && o.exc.InvocationTarget?) ==> r == o
  {
    if o.Raised? && o.exc.InvocationTarget? then Raised(o.exc.cause) else o
  }

  /** Whatever is raised is wrapped in an InvocationTargetException; a
      return passes through. */
  function Wrap(o: Outcome): (r: Outcome)
    ensures r.Returned? <==> o.Returned?
    ensures o.Returned? ==> r == o
    ensures o.Raised? ==> r == Raised(InvocationTarget(o.exc))
  {
    if o.Raised? then Raised(InvocationTarget(o.exc)) else o
  }

  /** The cast and concatenation of `AfterAppend`. */
  function Append(o: Outcome, tail: string): Outcome {
    match o
    case Raised(_) => o
    case Returned(Str(s)) => Returned(Str(s + tail))
    case Returned(Null) => Returned(Str("null" + tail))
    case Returned(_) => Raised(ClassCast)
  }

  /** The argument vector after `BeforeInsert(head)` rewrote it. */
  function Insert(args: seq<Value>, head: string): seq<Value>
    requires |args| >= 1
  {
    args[0 := Str(head + Render(args[0]))]
  }

  /** A handler chain over one actual member: `handlers[i]` handles layer `i`. */
  datatype Chain = Chain(handlers: seq<Handler>, params: seq<Type>, body: Body)

  /** The outcome of a run, the indices of the handlers entered in the order
      they were entered, and the argument vector the actual member received
      (absent when no handler let the call through). */
  datatype Run = Run(outcome: Outcome, entered: seq<nat>, reached: Option<seq<Value>>)

  /** The fold: `proceed()` of layer `k` on argument vector `args`.  Layer 0
      is the innermost invocation; layer `k > 0` enters `handlers[k - 1]`. */
  function Proceed(c: Chain, k: nat, args: seq<Value>): Run
    requires k <= |c.handlers|
    decreases k, 0
  {
    if k == 0 then Run(Call(c.params, c.body, args), [], Some(args))
    else
      var r := Handle(c, k - 1, args);
      Run(Wrap(r.outcome), r.entered, r.reached)
  }

  /** `handlers[i].handle(layer i)` with layer `i` holding `args`. */
  function Handle(c: Chain, i: nat, args: seq<Value>): Run
    requires i < |c.handlers|
    decreases i, 1
  {
    match c.handlers[i]
    case Through =>
      var r := Proceed(c, i, args);
      Run(Unwrap(r.outcome), [i] + r.entered, r.reached)
    case BeforeInsert(h) =>
      if |args| == 0 then Run(Raised(IndexOutOfBounds), [i], None)
      else
        var r := Proceed(c, i, Insert(args, h));
        Run(Unwrap(r.outcome), [i] + r.entered, r.reached)
    case AfterAppend(t) =>
      var r := Proceed(c, i, args);
      Run(Append(Unwrap(r.outcome), t), [i] + r.entered, r.reached)
    case Plain =>
      var r := Proceed(c, i, args);
      Run(r.outcome, [i] + r.entered, r.reached)
    case Replace(v) => Run(Returned(v), [i], None)
    case Throw(e) => Run(Raised(e), [i], None)
  }

  // ---------------------------------------------------------------------
  // DelegateInvocation, step by step

  /** The argument arrays of all layers: `base` is the innermost invocation's
      live array; `caches[k - 1]` is the lazily created copy of layer `k`. */
  datatype Frames = Frames(base: seq<Value>, caches: seq<Option<seq<Value>>>)

  /** `getArguments()` of layer `k`: a layer without a copy yet clones the
      layer below, or takes the shared empty array when that one is empty. */
  function GetArgs(st: Frames, k: nat): (r: (Frames, seq<Value>))
    requires k <= |st.caches|
    ensures |r.0.caches| == |st.caches| && r.0.base == st.base
    ensures k >= 1 ==> r.0.caches[k - 1] == Some(r.1)
    ensures forall j :: k <= j < |st.caches| ==> r.0.caches[j] == st.caches[j]
  {
    if k == 0 then (st, st.base)
    else if st.caches[k - 1].Some? then (st, st.caches[k - 1].value)
    else
      var (st1, next) := GetArgs(st, k - 1);
      var mine := if |next| >= 1 then next else [];
      (st1.(caches := st1.caches[k - 1 := Some(mine)]), mine)
  }

  /** Replaces the array of layer `k`, which must exist. */
  function SetArgs(st: Frames, k: nat, a: seq<Value>): (r: Frames)
    requires k <= |st.caches|
    ensures |r.caches| == |st.caches|
    ensures GetArgs(r, k).1 == a
  {
    if k == 0 then st.(base := a) else st.(caches := st.caches[k - 1 := Some(a)])
  }

  /** `System.arraycopy(src, 0, dest, 0, src.length)`. */
  function CopyPrefix(src: seq<Value>, dest: seq<Value>): seq<Value>
    requires |src| <= |dest|
  {
    src + dest[|src|..]
  }

  /** `DelegateInvocation.proceed()` of layer `k` (layer 0: the innermost
      invocation).  Copies a requested, non-empty argument copy into the
      layer below, then enters `handlers[k - 1]`, wrapping what it throws. */
  function ProceedAt(c: Chain, st: Frames, k: nat): (Frames, Outcome)
    requires |st.caches| == |c.handlers| && k <= |c.handlers|
    decreases k, 0
  {
    if k == 0 then (st, Call(c.params, c.body, st.base))
    else
      var mine := st.caches[k - 1];
      if mine.Some? && |mine.value| >= 1 then
        var (st0, dest) := GetArgs(st, k - 1);
        if |dest| < |mine.value| then (st0, Raised(IndexOutOfBounds))
        else
          var (st1, o) := HandleAt(c, SetArgs(st0, k - 1, CopyPrefix(mine.value, dest)), k - 1);
          (st1, Wrap(o))
      else
        var (st1, o) := HandleAt(c, st, k - 1);
        (st1, Wrap(o))
  }

  /** `handlers[i].handle(layer i)` against the layered arrays. */
  function HandleAt(c: Chain, st: Frames, i: nat): (Frames, Outcome)
    requires |st.caches| == |c.handlers| && i < |c.handlers|
    decreases i, 1
  {
    match c.handlers[i]
    case Through =>
      var (st1, o) := ProceedAt(c, st, i);
      (st1, Unwrap(o))
    case BeforeInsert(h) =>
      var (st1, a) := GetArgs(st, i);
      if |a| == 0 then (st1, Raised(IndexOutOfBounds))
      else
        var (st2, o) := ProceedAt(c, SetArgs(st1, i, Insert(a, h)), i);
        (st2, Unwrap(o))
    case AfterAppend(t) =>
      var (st1, o) := ProceedAt(c, st, i);
      (st1, Append(Unwrap(o), t))
    case Plain => ProceedAt(c, st, i)
    case Replace(v) => (st, Returned(v))
    case Throw(e) => (st, Raised(e))
  }

  /** The shape every reachable layered state has: a layer has a copy only
      if every layer below it has one, and every copy is as long as the
      innermost array. */
  predicate Coherent(st: Frames) {
    (forall k :: 1 <= k < |st.caches| && st.caches[k].Some? ==> st.caches[k - 1].Some?)
    && (forall k :: 0 <= k < |st.caches| && st.caches[k].Some? ==> |st.caches[k].value| == |st.base|)
  }

  lemma {:induction false} GetArgsCoherent(st: Frames, k: nat)
    requires k <= |st.caches| && Coherent(st)
    ensures Coherent(GetArgs(st, k).0)
    ensures |GetArgs(st, k).1| == |st.base|
    ensures |GetArgs(st, k).0.caches| == |st.caches|
    ensures GetArgs(st, k).0.base == st.base
    ensures k >= 1 ==> GetArgs(st, k).0.caches[k - 1] == Some(GetArgs(st, k).1)
    ensures k >= 2 ==> GetArgs(st, k).0.caches[k - 2].Some?
  {
    if k >= 1 && st.caches[k - 1].None? {
      GetArgsCoherent(st, k - 1);
      var (st1, next) := GetArgs(st, k - 1);
      var mine := if |next| >= 1 then next else [];
      var st2 := st1.(caches := st1.caches[k - 1 := Some(mine)]);
      assert |mine| == |st.base|;
      forall j | 1 <= j < |st2.caches| && st2.caches[j].Some?
        ensures st2.caches[j - 1].Some?
      {
        if j != k - 1 && j - 1 != k - 1 {
          assert st1.caches[j].Some?;
        }
      }
    } else if k >= 2 {
      assert st.caches[k - 1].Some?;
    }
  }

  lemma {:induction false} SetArgsCoherent(st: Frames, k: nat, a: seq<Value>)
    requires k <= |st.caches| && Coherent(st)
    requires |a| == |st.base|
    requires k >= 2 ==> st.caches[k - 2].Some?
    ensures Coherent(SetArgs(st, k, a))
  {
    var st2 := SetArgs(st, k, a);
    if k >= 1 {
      forall j | 1 <= j < |st2.caches| && st2.caches[j].Some?
        ensures st2.caches[j - 1].Some?
      {
        if j != k - 1 && j - 1 != k - 1 {
          assert st.caches[j].Some?;
        }
      }
    }
  }

  /** The layered `DelegateInvocation` semantics agrees with the fold, for a
      layer entered from a coherent state. */
  lemma {:induction false} ProceedAgrees(c: Chain, st: Frames, k: nat)
    requires |st.caches| == |c.handlers| && k <= |c.handlers| && Coherent(st)
    ensures ProceedAt(c, st, k).1 == Proceed(c, k, GetArgs(st, k).1).outcome
    decreases k, 0
  {
    if k > 0 {
      var mine := st.caches[k - 1];
      if mine.Some? && |mine.value| >= 1 {
        GetArgsCoherent(st, k - 1);
        var (st0, dest) := GetArgs(st, k - 1);
        var st1 := SetArgs(st0, k - 1, CopyPrefix(mine.value, dest));
        assert CopyPrefix(mine.value, dest) == mine.value;
        SetArgsCoherent(st0, k - 1, mine.value);
        HandleAgrees(c, st1, k - 1);
      } else {
        HandleAgrees(c, st, k - 1);
        if mine.Some? {
          GetArgsCoherent(st, k - 1);
        }
      }
    }
  }

  lemma {:induction false} HandleAgrees(c: Chain, st: Frames, i: nat)
    requires |st.caches| == |c.handlers| && i < |c.handlers| && Coherent(st)
    ensures HandleAt(c, st, i).1 == Handle(c, i, GetArgs(st, i).1).outcome
    decreases i, 1
  {
    match c.handlers[i]
    case Through =>
      ProceedAgrees(c, st, i);
    case BeforeInsert(h) =>
      GetArgsCoherent(st, i);
      var (st1, a) := GetArgs(st, i);
      if |a| >= 1 {
        SetArgsCoherent(st1, i, Insert(a, h));
        ProceedAgrees(c, SetArgs(st1, i, Insert(a, h)), i);
      }
    case AfterAppend(t) =>
      ProceedAgrees(c, st, i);
    case Plain =>
      ProceedAgrees(c, st, i);
    case Replace(v) =>
    case Throw(e) =>
  }

  /** `e` inside `n` InvocationTargetExceptions. */
  function Nested(e: Exc, n: nat): (r: Exc)
    ensures n > 0 ==> r.InvocationTarget?
  {
    if n == 0 then e else InvocationTarget(Nested(e, n - 1))
  }

  /** Behind handlers that proceed without unwrapping, each layer adds one
      InvocationTargetException to what the call below it threw, and a
      result comes back unchanged. */
  lemma {:induction false} PlainNests(c: Chain, k: nat, args: seq<Value>)
    requires k <= |c.handlers| && forall i :: 0 <= i < k ==> c.handlers[i] == Plain
    ensures var base := Call(c.params, c.body, args);
            Proceed(c, k, args).outcome == if base.Raised? then Raised(Nested(base.exc, k)) else base
    ensures Proceed(c, k, args).reached == Some(args)
  {
    if k > 0 {
      PlainNests(c, k - 1, args);
    }
  }
}
