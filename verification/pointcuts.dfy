/** The pointcut algebra: `Pointcuts` (the four constants and the `and`, `or`
    and `not` combinators) together with `AndInvocationPointcut` and
    `NotInvocationPointcut`.

    A pointcut decides whether a behaviour, seen from the class `self` that is
    being enhanced, is a join point.  A user-written pointcut is an opaque
    decision: `CustomPc(id)` asks the oracle passed to `IsTarget`.
 */
module Pointcuts {
  import opened Wrappers
  import opened Types
  import Strings

  /** The decisions of user-written pointcuts, by identity. */
  type Oracle = (nat, Type, Behaviour) -> bool

  datatype Pointcut =
    | TruePc
    | FalsePc
    | MethodsPc
    | ConstructorsPc
    | AndPc(terms: seq<Pointcut>)
    | OrPc(terms: seq<Pointcut>)
    | NotPc(term: Pointcut)
    | CustomPc(id: nat)

  /** `isTarget(self, behavior)`.  `METHODS` is `instanceof CtMethod`;
      `CONSTRUCTORS` is `instanceof CtConstructor`, which in javassist also
      covers static initializers. */
  predicate IsTarget(p: Pointcut, o: Oracle, self: Type, b: Behaviour)
  {
    match p
    case TruePc => true
    case FalsePc => false
    case MethodsPc => b.kind == MethodKind
    case ConstructorsPc => b.kind == ConstructorKind || b.kind == InitializerKind
    case AndPc(ts) => forall i :: 0 <= i < |ts| ==> IsTarget(ts[i], o, self, b)
    case OrPc(ts) => exists i :: 0 <= i < |ts| && IsTarget(ts[i], o, self, b)
    case NotPc(t) => !IsTarget(t, o, self, b)
    case CustomPc(id) => o(id, self, b)
  }

  /** `TRUE` selects every behaviour and `FALSE` none; every behaviour is
      selected by exactly one of `METHODS` and `CONSTRUCTORS`. */
  lemma ConstantPointcuts(o: Oracle, self: Type, b: Behaviour)
    ensures IsTarget(TruePc, o, self, b) && !IsTarget(FalsePc, o, self, b)
    ensures IsTarget(MethodsPc, o, self, b) <==> !IsTarget(ConstructorsPc, o, self, b)
    ensures IsTarget(MethodsPc, o, self, b) <==> b.kind == MethodKind
  {
  }

  /** `AndInvocationPointcut.isTarget`: the terms are consulted in list order
      and the loop stops at the first term that does not match.  `consulted`
      is the number of terms asked. */
  method AndIsTarget(ts: seq<Pointcut>, o: Oracle, self: Type, b: Behaviour)
    returns (r: bool, consulted: nat)
    ensures r <==> IsTarget(AndPc(ts), o, self, b)
    ensures consulted <= |ts|
    ensures r ==> consulted == |ts|
    ensures !r ==> 1 <= consulted && !IsTarget(ts[consulted - 1], o, self, b)
    ensures forall i :: 0 <= i < consulted - 1 ==> IsTarget(ts[i], o, self, b)
  {
    consulted := 0;
    while consulted < |ts|
      invariant consulted <= |ts|
      invariant forall i :: 0 <= i < consulted ==> IsTarget(ts[i], o, self, b)
    {
      var t := IsTarget(ts[consulted], o, self, b);
      consulted := consulted + 1;
      if !t {
        return false, consulted;
      }
    }
    return true, consulted;
  }

  /** The `AndInvocationPointcut` constructor: the term list must be present
      and non-empty; it is copied, which value semantics makes automatic. */
  function MakeAnd(terms: Option<seq<Pointcut>>): (r: Result<Pointcut>)
    ensures terms.None? ==> r == Err(NullPointer("terms"))
    ensures terms.Some? && |terms.value| == 0 ==> r.Err? && r.error.IllegalArgument?
    ensures r.Ok? <==> terms.Some? && |terms.value| > 0
    ensures r.Ok? ==> forall o, self, b :: IsTarget(r.value, o, self, b) <==>
                        (forall i :: 0 <= i < |terms.value| ==> IsTarget(terms.value[i], o, self, b))
  {
    if terms.None? then Err(NullPointer("terms"))
    else if |terms.value| == 0 then Err(IllegalArgument("terms is empty"))
    else Ok(AndPc(terms.value))
  }

  /** `Pointcuts.not` and the `NotInvocationPointcut` constructor. */
  function Not(term: Option<Pointcut>): (r: Result<Pointcut>)
    ensures r.Ok? <==> term.Some?
    ensures term.None? ==> r == Err(NullPointer("term"))
    ensures r.Ok? ==> forall o, self, b :: IsTarget(r.value, o, self, b) <==> !IsTarget(term.value, o, self, b)
  {
    if term.None? then Err(NullPointer("term")) else Ok(NotPc(term.value))
  }

  /** `toList(a, b)`: both operands must be present. */
  function ToList2(a: Option<Pointcut>, b: Option<Pointcut>): (r: Result<seq<Pointcut>>)
    ensures r.Ok? <==> a.Some? && b.Some?
    ensures r.Ok? ==> r.value == [a.value, b.value]
    ensures a.None? ==> r == Err(NullPointer("a"))
    ensures a.Some? && b.None? ==> r == Err(NullPointer("b"))
  {
    if a.None? then Err(NullPointer("a"))
    else if b.None? then Err(NullPointer("b"))
    else Ok([a.value, b.value])
  }

  /** Index of the first absent element, or `|xs|` when every one is present. */
  function FirstNone<T>(xs: seq<Option<T>>): (k: nat)
    ensures k <= |xs|
    ensures forall i :: 0 <= i < k ==> xs[i].Some?
    ensures k < |xs| ==> xs[k].None?
  {
    if |xs| == 0 then 0
    else if xs[0].None? then 0
    else 1 + FirstNone(xs[1..])
  }

  function Values<T>(xs: seq<Option<T>>): (r: seq<T>)
    requires forall i :: 0 <= i < |xs| ==> xs[i].Some?
    ensures |r| == |xs|
    ensures forall i :: 0 <= i < |xs| ==> r[i] == xs[i].value
  {
    if |xs| == 0 then [] else [xs[0].value] + Values(xs[1..])
  }

  /** `toList(a, b, rest)`: checks `a`, `b` and `rest`, then names the first
      absent element of `rest` as `rest[i]`. */
  function ToListN(a: Option<Pointcut>, b: Option<Pointcut>, rest: Option<seq<Option<Pointcut>>>)
    : (r: Result<seq<Pointcut>>)
    ensures r.Ok? <==> a.Some? && b.Some? && rest.Some?
                       && forall i :: 0 <= i < |rest.value| ==> rest.value[i].Some?
    ensures r.Ok? ==> |r.value| == 2 + |rest.value| && r.value[0] == a.value && r.value[1] == b.value
                      && forall i :: 0 <= i < |rest.value| ==> r.value[2 + i] == rest.value[i].value
    ensures a.None? ==> r == Err(NullPointer("a"))
    ensures a.Some? && b.None? ==> r == Err(NullPointer("b"))
    ensures a.Some? && b.Some? && rest.None? ==> r == Err(NullPointer("rest"))
    ensures a.Some? && b.Some? && rest.Some? && r.Err? ==>
      exists k :: 0 <= k < |rest.value| && rest.value[k].None?
                  && (forall i :: 0 <= i < k ==> rest.value[i].Some?)
                  && r.error == NullPointer("rest[" + Strings.Decimal(k) + "]")
  {
    if a.None? then Err(NullPointer("a"))
    else if b.None? then Err(NullPointer("b"))
    else if rest.None? then Err(NullPointer("rest"))
    else
      var k := FirstNone(rest.value);
      if k < |rest.value| then Err(NullPointer("rest[" + Strings.Decimal(k) + "]"))
      else Ok([a.value, b.value] + Values(rest.value))
  }

  /** `Pointcuts.and(a, b)`. */
  function And2(a: Option<Pointcut>, b: Option<Pointcut>): (r: Result<Pointcut>)
    ensures r.Ok? <==> a.Some? && b.Some?
    ensures r.Ok? ==> forall o, self, bh :: IsTarget(r.value, o, self, bh) <==>
                        IsTarget(a.value, o, self, bh) && IsTarget(b.value, o, self, bh)
  {
    var ts :- ToList2(a, b);
    assert forall o, self, bh :: IsTarget(AndPc(ts), o, self, bh) <==>
      IsTarget(a.value, o, self, bh) && IsTarget(b.value, o, self, bh) by {
      forall o, self, bh ensures IsTarget(AndPc(ts), o, self, bh) <==>
        IsTarget(a.value, o, self, bh) && IsTarget(b.value, o, self, bh)
      {
        AndOfList(ts, a.value, b.value, [], o, self, bh);
      }
    }
    MakeAnd(Some(ts))
  }

  /** The terms of a list built by `toList`: `a`, `b`, then the elements of `rest`. */
  predicate ListedAs(ts: seq<Pointcut>, a: Pointcut, b: Pointcut, rest: seq<Option<Pointcut>>)
  {
    |ts| == 2 + |rest| && ts[0] == a && ts[1] == b
    && forall i :: 0 <= i < |rest| ==> rest[i].Some? && ts[2 + i] == rest[i].value
  }

  /** A conjunction over a `toList` result matches iff all of its parts match. */
  lemma AndOfList(ts: seq<Pointcut>, a: Pointcut, b: Pointcut, rest: seq<Option<Pointcut>>,
                  o: Oracle, self: Type, bh: Behaviour)
    requires ListedAs(ts, a, b, rest)
    ensures IsTarget(AndPc(ts), o, self, bh) <==>
      (IsTarget(a, o, self, bh) && IsTarget(b, o, self, bh)
       && forall i :: 0 <= i < |rest| ==> IsTarget(rest[i].value, o, self, bh))
  {
    if IsTarget(AndPc(ts), o, self, bh) {
      forall i | 0 <= i < |rest| ensures IsTarget(rest[i].value, o, self, bh) {
        assert IsTarget(ts[2 + i], o, self, bh);
      }
    }
    if IsTarget(a, o, self, bh) && IsTarget(b, o, self, bh)
       && forall i :: 0 <= i < |rest| ==> IsTarget(rest[i].value, o, self, bh)
    {
      forall i | 0 <= i < |ts| ensures IsTarget(ts[i], o, self, bh) {
        if i >= 2 {
          assert ts[2 + (i - 2)] == rest[i - 2].value;
        }
      }
    }
  }

  /** A disjunction over a `toList` result matches iff one of its parts matches. */
  lemma OrOfList(ts: seq<Pointcut>, a: Pointcut, b: Pointcut, rest: seq<Option<Pointcut>>,
                 o: Oracle, self: Type, bh: Behaviour)
    requires ListedAs(ts, a, b, rest)
    ensures IsTarget(OrPc(ts), o, self, bh) <==>
      (IsTarget(a, o, self, bh) || IsTarget(b, o, self, bh)
       || exists i :: 0 <= i < |rest| && IsTarget(rest[i].value, o, self, bh))
  {
    if IsTarget(OrPc(ts), o, self, bh) {
      var i :| 0 <= i < |ts| && IsTarget(ts[i], o, self, bh);
      if i >= 2 {
        assert ts[2 + (i - 2)] == rest[i - 2].value;
      }
    }
    if exists i :: 0 <= i < |rest| && IsTarget(rest[i].value, o, self, bh) {
      var i :| 0 <= i < |rest| && IsTarget(rest[i].value, o, self, bh);
      assert IsTarget(ts[2 + i], o, self, bh);
    }
    if IsTarget(a, o, self, bh) {
      assert IsTarget(ts[0], o, self, bh);
    }
    if IsTarget(b, o, self, bh) {
      assert IsTarget(ts[1], o, self, bh);
    }
  }

  /** `Pointcuts.and(a, b, rest...)`: matches iff every term matches. */
  function AndN(a: Option<Pointcut>, b: Option<Pointcut>, rest: Option<seq<Option<Pointcut>>>)
    : (r: Result<Pointcut>)
    ensures r.Ok? <==> ToListN(a, b, rest).Ok?
    ensures r.Err? ==> r.error == ToListN(a, b, rest).error
    ensures r.Ok? ==> forall o, self, bh :: IsTarget(r.value, o, self, bh) <==>
                        (IsTarget(a.value, o, self, bh) && IsTarget(b.value, o, self, bh)
                         && forall i :: 0 <= i < |rest.value| ==> IsTarget(rest.value[i].value, o, self, bh))
  {
    var ts :- ToListN(a, b, rest);
    assert forall o, self, bh :: IsTarget(AndPc(ts), o, self, bh) <==>
      (IsTarget(a.value, o, self, bh) && IsTarget(b.value, o, self, bh)
       && forall i :: 0 <= i < |rest.value| ==> IsTarget(rest.value[i].value, o, self, bh)) by {
      forall o, self, bh ensures IsTarget(AndPc(ts), o, self, bh) <==>
        (IsTarget(a.value, o, self, bh) && IsTarget(b.value, o, self, bh)
         && forall i :: 0 <= i < |rest.value| ==> IsTarget(rest.value[i].value, o, self, bh))
      {
        AndOfList(ts, a.value, b.value, rest.value, o, self, bh);
      }
    }
    MakeAnd(Some(ts))
  }

  /** `Pointcuts.or(a, b)`: matches iff some operand matches. */
  function Or2(a: Option<Pointcut>, b: Option<Pointcut>): (r: Result<Pointcut>)
    ensures r.Ok? <==> a.Some? && b.Some?
    ensures r.Ok? ==> forall o, self, bh :: IsTarget(r.value, o, self, bh) <==>
                        IsTarget(a.value, o, self, bh) || IsTarget(b.value, o, self, bh)
  {
    var ts :- ToList2(a, b);
    assert forall o, self, bh :: IsTarget(OrPc(ts), o, self, bh) <==>
      IsTarget(a.value, o, self, bh) || IsTarget(b.value, o, self, bh) by {
      forall o, self, bh ensures IsTarget(OrPc(ts), o, self, bh) <==>
        IsTarget(a.value, o, self, bh) || IsTarget(b.value, o, self, bh)
      {
        OrOfList(ts, a.value, b.value, [], o, self, bh);
      }
    }
    Ok(OrPc(ts))
  }

  /** `Pointcuts.or(a, b, rest...)`: matches iff some term matches. */
  function OrN(a: Option<Pointcut>, b: Option<Pointcut>, rest: Option<seq<Option<Pointcut>>>)
    : (r: Result<Pointcut>)
    ensures r.Ok? <==> ToListN(a, b, rest).Ok?
    ensures r.Err? ==> r.error == ToListN(a, b, rest).error
    ensures r.Ok? ==> forall o, self, bh :: IsTarget(r.value, o, self, bh) <==>
                        (IsTarget(a.value, o, self, bh) || IsTarget(b.value, o, self, bh)
                         || exists i :: 0 <= i < |rest.value| && IsTarget(rest.value[i].value, o, self, bh))
  {
    var ts :- ToListN(a, b, rest);
    assert forall o, self, bh :: IsTarget(OrPc(ts), o, self, bh) <==>
      (IsTarget(a.value, o, self, bh) || IsTarget(b.value, o, self, bh)
       || exists i :: 0 <= i < |rest.value| && IsTarget(rest.value[i].value, o, self, bh)) by {
      forall o, self, bh ensures IsTarget(OrPc(ts), o, self, bh) <==>
        (IsTarget(a.value, o, self, bh) || IsTarget(b.value, o, self, bh)
         || exists i :: 0 <= i < |rest.value| && IsTarget(rest.value[i].value, o, self, bh))
      {
        OrOfList(ts, a.value, b.value, rest.value, o, self, bh);
      }
    }
    Ok(OrPc(ts))
  }

  /** Double negation agrees with the original pointcut on every input. */
  lemma DoubleNegation(p: Pointcut, o: Oracle, self: Type, b: Behaviour)
    ensures Not(Some(p)).Ok? && Not(Some(Not(Some(p)).value)).Ok?
    ensures IsTarget(Not(Some(Not(Some(p)).value)).value, o, self, b) == IsTarget(p, o, self, b)
  {
  }

  /** A one-term conjunction is accepted and agrees with its only term. */
  lemma SingleTermAnd(p: Pointcut, o: Oracle, self: Type, b: Behaviour)
    ensures MakeAnd(Some([p])).Ok?
    ensures IsTarget(MakeAnd(Some([p])).value, o, self, b) == IsTarget(p, o, self, b)
  {
    assert [p][0] == p;
  }
}
