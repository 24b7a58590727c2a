/** The enhancement registry: `Enhance`, a (pointcut, handler) pair, and
    `EnhanceManager`, which answers which handlers apply to a behaviour and
    which behaviours may be woven at all.
 */
module EnhanceManager {
  import opened Wrappers
  import opened Types
  import opened Pointcuts
  import opened Invocations

  /** One enhancement: where to weave, and what to weave there. */
  datatype Enhance = Enhance(pointcut: Pointcut, handler: Handler)

  /** The `Enhance` constructor: the pointcut is checked before the handler. */
  function MakeEnhance(pointcut: Option<Pointcut>, handler: Option<Handler>): (r: Result<Enhance>)
    ensures r.Ok? <==> pointcut.Some? && handler.Some?
    ensures pointcut.None? ==> r == Err(NullPointer("pointcut"))
    ensures pointcut.Some? && handler.None? ==> r == Err(NullPointer("handler"))
    ensures r.Ok? ==> r.value.pointcut == pointcut.value && r.value.handler == handler.value
  {
    if pointcut.None? then Err(NullPointer("pointcut"))
    else if handler.None? then Err(NullPointer("handler"))
    else Ok(Enhance.Enhance(pointcut.value, handler.value))
  }

  /** A manager holds its own copy of the registered enhancements. */
  datatype Manager = Manager(enhanceList: seq<Enhance>)

  /** The `EnhanceManager` constructor: an absent list and a list holding an
      absent element are both rejected, with the same message. */
  function MakeManager(list: Option<seq<Option<Enhance>>>): (r: Result<Manager>)
    ensures r.Ok? <==> list.Some? && forall i :: 0 <= i < |list.value| ==> list.value[i].Some?
    ensures r.Err? ==> r.error == NullPointer("enhanceList contains null")
    ensures r.Ok? ==> |r.value.enhanceList| == |list.value|
                      && forall i :: 0 <= i < |list.value| ==> list.value[i] == Some(r.value.enhanceList[i])
  {
    if list.None? then Err(NullPointer("enhanceList contains null"))
    else if FirstNone(list.value) < |list.value| then Err(NullPointer("enhanceList contains null"))
    else Ok(Manager(Values(list.value)))
  }

  /** The positions, in registration order, of the enhancements whose pointcut
      selects `b` seen from `self`. */
  function Positions(es: seq<Enhance>, o: Oracle, self: Type, b: Behaviour): (idx: seq<nat>)
    ensures forall j :: 0 <= j < |idx| ==> idx[j] < |es| && IsTarget(es[idx[j]].pointcut, o, self, b)
    ensures forall j, k :: 0 <= j < k < |idx| ==> idx[j] < idx[k]
    ensures forall i :: 0 <= i < |es| && IsTarget(es[i].pointcut, o, self, b) ==> i in idx
  {
    if |es| == 0 then []
    else
      var front := Positions(es[..|es| - 1], o, self, b);
      if IsTarget(es[|es| - 1].pointcut, o, self, b) then front + [|es| - 1] else front
  }

  /** The handlers registered at positions `idx`, in that order. */
  function HandlersAt(es: seq<Enhance>, idx: seq<nat>): (r: seq<Handler>)
    requires forall j :: 0 <= j < |idx| ==> idx[j] < |es|
    ensures |r| == |idx| && forall j :: 0 <= j < |idx| ==> r[j] == es[idx[j]].handler
  {
    seq(|idx|, j requires 0 <= j < |idx| => es[idx[j]].handler)
  }

  /** One more registered enhancement extends the positions by its own
      index when it matches. */
  lemma PositionsStep(es: seq<Enhance>, i: nat, o: Oracle, self: Type, b: Behaviour)
    requires i < |es|
    ensures Positions(es[..i + 1], o, self, b)
            == Positions(es[..i], o, self, b) + (if IsTarget(es[i].pointcut, o, self, b) then [i] else [])
    ensures HandlersAt(es, Positions(es[..i + 1], o, self, b))
            == HandlersAt(es, Positions(es[..i], o, self, b))
               + (if IsTarget(es[i].pointcut, o, self, b) then [es[i].handler] else [])
  {
    assert es[..i + 1][..i] == es[..i];
  }

  /** `findApplicableHandlers(self, behavior)`: the handlers of exactly the
      enhancements whose pointcut selects the behaviour, in registration
      order, so a subsequence of the registered handlers. */
  method FindApplicableHandlers(m: Manager, o: Oracle, self: Option<Type>, behavior: Option<Behaviour>)
    returns (r: Result<seq<Handler>>)
    ensures self.None? ==> r == Err(NullPointer("self"))
    ensures self.Some? && behavior.None? ==> r == Err(NullPointer("behavior"))
    ensures r.Ok? <==> self.Some? && behavior.Some?
    ensures r.Ok? ==> r.value == HandlersAt(m.enhanceList, Positions(m.enhanceList, o, self.value, behavior.value))
  {
    if self.None? {
      return Err(NullPointer("self"));
    }
    if behavior.None? {
      return Err(NullPointer("behavior"));
    }
    var es := m.enhanceList;
    var results: seq<Handler> := [];
    var i := 0;
    while i < |es|
      invariant 0 <= i <= |es|
      invariant results == HandlersAt(es, Positions(es[..i], o, self.value, behavior.value))
    {
      PositionsStep(es, i, o, self.value, behavior.value);
      if IsTarget(es[i].pointcut, o, self.value, behavior.value) {
        results := results + [es[i].handler];
      }
      i := i + 1;
    }
    assert es[..i] == es;
    return Ok(results);
  }

  /** Nothing is found exactly when no registered pointcut selects the behaviour. */
  lemma NoneApplicable(es: seq<Enhance>, o: Oracle, self: Type, b: Behaviour)
    ensures |Positions(es, o, self, b)| == 0 <==> forall i :: 0 <= i < |es| ==> !IsTarget(es[i].pointcut, o, self, b)
  {
    var idx := Positions(es, o, self, b);
    if |idx| > 0 {
      assert IsTarget(es[idx[0]].pointcut, o, self, b);
    }
  }

  /** For a single-bit mask the source's `is(flags, mask)` and javassist's
      bit test agree. */
  lemma IsSingleBit(flags: bv32, k: nat)
    requires k < 32
    ensures Is(flags, 1 << k) <==> Has(flags, 1 << k)
  {
  }

  /** A member visible from everywhere: it and its declaring class are public. */
  predicate Exposed(b: Behaviour) {
    Has(b.mods, PUBLIC) && Has(b.declaring.Modifiers(), PUBLIC)
  }

  /** A member a generated subclass can override. */
  predicate Overridable(b: Behaviour) {
    !Has(b.mods, STATIC) && !Has(b.mods, FINAL) && !Has(b.declaring.Modifiers(), FINAL)
  }

  /** A member the compiler made up rather than the programmer wrote. */
  predicate CompilerMade(b: Behaviour) {
    Is(b.mods, BRIDGE) || Is(b.mods, SYNTHETIC)
  }

  /** `isLegalJoinpoint(CtMethod)`. */
  function IsLegalMethod(target: Option<Behaviour>): (r: Result<bool>)
    ensures target.None? <==> r == Err(NullPointer("target"))
    ensures r.Ok? ==> (r.value <==> Exposed(target.value) && Overridable(target.value)
                                     && !CompilerMade(target.value))
  {
    if target.None? then Err(NullPointer("target"))
    else
      var mm := target.value.mods;
      var cm := target.value.declaring.Modifiers();
      Ok(Has(mm, PUBLIC) && !Has(mm, STATIC) && !Has(mm, FINAL) && !Is(mm, BRIDGE_METHOD)
         && !Is(mm, SYNTHETIC_METHOD) && Has(cm, PUBLIC) && !Has(cm, FINAL))
  }

  /** The two private masks of `EnhanceManager`. */
  const BRIDGE_METHOD: bv32 := 0x0000_0040
  const SYNTHETIC_METHOD: bv32 := 0x0000_1000

  /** `isLegalJoinpoint(CtConstructor)`. */
  function IsLegalConstructor(target: Option<Behaviour>): (r: Result<bool>)
    ensures target.None? <==> r == Err(NullPointer("target"))
    ensures r.Ok? ==> (r.value <==> Exposed(target.value))
  {
    if target.None? then Err(NullPointer("target"))
    else Ok(Has(target.value.mods, PUBLIC) && Has(target.value.declaring.Modifiers(), PUBLIC))
  }

  /** `canEnhanceProduct(CtConstructor)`. */
  function CanEnhanceProduct(target: Option<Behaviour>): (r: Result<bool>)
    ensures target.None? <==> r == Err(NullPointer("target"))
    ensures r.Ok? ==> (r.value <==> Exposed(target.value) && !Has(target.value.declaring.Modifiers(), FINAL))
  {
    if target.None? then Err(NullPointer("target"))
    else
      var cm := target.value.declaring.Modifiers();
      Ok(Has(target.value.mods, PUBLIC) && Has(cm, PUBLIC) && !Has(cm, FINAL))
  }

  /** A product constructor that may be enhanced is a legal constructor join
      point, and its class can declare legal method join points: both
      conditions need a public, non-final class. */
  lemma EnhanceableProduct(c: Behaviour, m: Behaviour)
    requires m.declaring == c.declaring
    requires IsLegalMethod(Some(m)) == Ok(true)
    ensures CanEnhanceProduct(Some(c)) == Ok(true) <==> IsLegalConstructor(Some(c)) == Ok(true)
  {
  }

  /** `hasApplicableMethod(klass)`: some public method of the class is a
      legal join point that some registered pointcut selects. */
  method HasApplicableMethod(m: Manager, o: Oracle, klass: Option<ClassInfo>) returns (r: Result<bool>)
    ensures klass.None? <==> r == Err(NullPointer("klass"))
    ensures r.Ok? <==> klass.Some?
    ensures r.Ok? ==> (r.value <==> exists i, j :: 0 <= i < |klass.value.methods| && 0 <= j < |m.enhanceList|
                                     && Selects(m.enhanceList[j], o, klass.value, klass.value.methods[i]))
  {
    if klass.None? {
      return Err(NullPointer("klass"));
    }
    var k := klass.value;
    var ms := k.methods;
    var es := m.enhanceList;
    var i := 0;
    while i < |ms|
      invariant 0 <= i <= |ms|
      invariant forall i', j :: 0 <= i' < i && 0 <= j < |es| ==> !Selects(es[j], o, k, ms[i'])
    {
      var j := 0;
      while j < |es|
        invariant 0 <= j <= |es|
        invariant forall j' :: 0 <= j' < j ==> !Selects(es[j'], o, k, ms[i])
      {
        var legal := IsLegalMethod(Some(ms[i]));
        if legal.value && IsTarget(es[j].pointcut, o, k.self, ms[i]) {
          return Ok(true);
        }
        j := j + 1;
      }
      i := i + 1;
    }
    return Ok(false);
  }

  /** The enhancement `e` applies to method `b` of `k`. */
  predicate Selects(e: Enhance, o: Oracle, k: ClassInfo, b: Behaviour) {
    IsLegalMethod(Some(b)) == Ok(true) && IsTarget(e.pointcut, o, k.self, b)
  }
}
