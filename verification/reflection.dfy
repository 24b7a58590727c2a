/** `ReflectionUtil` and `ReflectionFactory`: the overload resolver that
    picks a constructor or method for a list of runtime argument types, and
    the reflective factory built on it.

    Resolution has three stages, as in section 15.12.2 of the Java Language
    Specification but simplified: the potentially applicable members (name
    and arity), the applicable ones (every argument converts to its
    parameter, with a null type and one-sided boxing), and the maximally
    specific ones among those.
 */
module Reflection {
  import opened Wrappers
  import opened Types
  import opened Invocations

  /** `isNormalClass`: not a primitive, array, interface, annotation or enum. */
  function IsNormalClass(c: Option<Type>): (r: Result<bool>)
    ensures c.None? <==> r == Err(IllegalArgument("aClass is null"))
    ensures r.Ok? ==> (r.value <==> c.value.Declared? && c.value.kind == ClassKind)
  {
    if c.None? then Err(IllegalArgument("aClass is null"))
    else
      var t := c.value;
      Ok(!t.IsPrimitive() && !t.IsArray() && !t.IsInterface() && !t.IsEnum())
  }

  /** `isPackageMember`: not a primitive, array, member, local or anonymous class. */
  function IsPackageMember(c: Option<Type>): (r: Result<bool>)
    ensures c.None? <==> r == Err(IllegalArgument("aClass is null"))
    ensures r.Ok? ==> (r.value <==> c.value.Declared? && c.value.nesting == TopLevel)
  {
    if c.None? then Err(IllegalArgument("aClass is null"))
    else
      var t := c.value;
      Ok(!t.IsPrimitive() && !t.IsArray() && !t.IsMember() && !t.IsLocal() && !t.IsAnonymous())
  }

  /** `toParameterTypes`: the runtime class of each argument, `None` (the
      null type) for a null argument. */
  function ToParameterTypes(arguments: Option<seq<Value>>): (r: Result<seq<Option<Type>>>)
    ensures arguments.None? <==> r == Err(IllegalArgument("arguments is null"))
    ensures r.Ok? ==> |r.value| == |arguments.value|
    ensures r.Ok? ==> forall i :: 0 <= i < |r.value| ==>
                        (r.value[i].None? <==> arguments.value[i].Null?) && r.value[i] == ClassOf(arguments.value[i])
  {
    if arguments.None? then Err(IllegalArgument("arguments is null"))
    else Ok(seq(|arguments.value|, i requires 0 <= i < |arguments.value| => ClassOf(arguments.value[i])))
  }

  /** The primitive `a` boxes to a subtype of the reference type `p`. */
  predicate BoxesInto(a: Type, p: Type) {
    a.Primitive? && !p.Primitive? && Box(a.prim).Some? && SubtypeOf(Box(a.prim).value, p)
  }

  /** The reference type `a` is a subtype of the box of the primitive `p`. */
  predicate UnboxesInto(a: Type, p: Type) {
    p.Primitive? && !a.Primitive? && Box(p.prim).Some? && SubtypeOf(a, Box(p.prim).value)
  }

  function PrimitiveCount(arg: Option<Type>, param: Type): nat {
    (if arg.Some? && arg.value.Primitive? then 1 else 0) + (if param.Primitive? then 1 else 0)
  }

  /** `isApplicable(Class, Class)`: the argument type converts to the
      parameter type.  A primitive argument for a reference parameter is
      boxed; a reference argument for a primitive parameter is checked
      against the parameter's box.  The null type converts to anything,
      primitives included. */
  function IsApplicable(arg: Option<Type>, param: Type): (r: bool)
    decreases PrimitiveCount(arg, param)
    ensures arg.None? ==> r
    ensures arg.Some? ==> (r <==> SubtypeOf(arg.value, param) || BoxesInto(arg.value, param)
                                  || UnboxesInto(arg.value, param))
    ensures arg.Some? && arg.value.Primitive? && param.Primitive? ==> (r <==> arg.value == param)
  {
    if arg.None? then true
    else if SubtypeOf(arg.value, param) then true
    else if arg.value.Primitive? && !param.Primitive? then
      match Box(arg.value.prim)
      case None => false
      case Some(boxed) => IsApplicable(Some(boxed), param)
    else if param.Primitive? && !arg.value.Primitive? then
      match Box(param.prim)
      case None => false
      case Some(boxed) => IsApplicable(arg, boxed)
    else false
  }

  /** `isApplicable(Class[], Class[])`: same arity, and every argument
      applies to its parameter. */
  predicate Applicable(args: seq<Option<Type>>, params: seq<Type>) {
    |args| == |params| && forall i :: 0 <= i < |args| ==> IsApplicable(args[i], params[i])
  }

  /** The source's loop over the positions of the argument list. */
  method IsApplicableList(args: seq<Option<Type>>, params: seq<Type>) returns (r: bool)
    ensures r <==> Applicable(args, params)
    ensures r ==> |args| == |params|
  {
    if |args| != |params| {
      return false;
    }
    var i := 0;
    while i < |args|
      invariant 0 <= i <= |args|
      invariant forall k :: 0 <= k < i ==> IsApplicable(args[k], params[k])
    {
      if !IsApplicable(args[i], params[i]) {
        return false;
      }
      i := i + 1;
    }
    return true;
  }

  /** `isMoreSpecific(Class, Class)`: `b` is assignable from `a`, or from the
      box of a primitive `a`.  So a primitive wins over its own wrapper. */
  function MoreSpecificType(a: Type, b: Type): (r: bool)
    ensures r <==> SubtypeOf(a, b) || BoxesInto(a, b)
    ensures r ==> IsApplicable(Some(a), b)
  {
    if SubtypeOf(a, b) then true
    else if a.Primitive? then
      match Box(a.prim)
      case None => false
      case Some(boxed) => SubtypeOf(boxed, b)
    else false
  }

  /** `int` is more specific than `Integer`, and not the other way round. */
  lemma IntBeatsInteger()
    ensures MoreSpecificType(Primitive(Int), Box(Int).value)
    ensures !MoreSpecificType(Box(Int).value, Primitive(Int))
  {
    assert SubtypeOf(Box(Int).value, Box(Int).value);
  }

  /** Parameter list `a` is more specific than `b`: position by position
      equal or more specific, and strictly more specific somewhere. */
  predicate Dominates(a: seq<Type>, b: seq<Type>) {
    |a| == |b|
    && (forall i :: 0 <= i < |a| ==> a[i] == b[i] || MoreSpecificType(a[i], b[i]))
    && (exists i :: 0 <= i < |a| && a[i] != b[i] && MoreSpecificType(a[i], b[i]))
  }

  /** Type specificity is transitive. */
  lemma MoreSpecificTransitive(a: Type, b: Type, c: Type)
    requires MoreSpecificType(a, b) && MoreSpecificType(b, c)
    ensures MoreSpecificType(a, c)
  {
    if SubtypeOf(a, b) && SubtypeOf(b, c) {
      SubtypeTransitive(a, b, c);
    } else if BoxesInto(a, b) && SubtypeOf(b, c) {
      SubtypeTransitive(Box(a.prim).value, b, c);
    }
  }

  /** Two types each at least as specific as the other are the same type. */
  lemma MoreSpecificAntisymmetric(a: Type, b: Type)
    requires MoreSpecificType(a, b) && MoreSpecificType(b, a)
    ensures a == b
  {
    if SubtypeOf(a, b) && SubtypeOf(b, a) {
      SubtypeAntisymmetric(a, b);
    }
  }

  /** Domination of parameter lists is transitive. */
  lemma DominatesTransitive(a: seq<Type>, b: seq<Type>, c: seq<Type>)
    requires Dominates(a, b) && Dominates(b, c)
    ensures Dominates(a, c)
  {
    forall i | 0 <= i < |a|
      ensures a[i] == c[i] || MoreSpecificType(a[i], c[i])
    {
      if a[i] != b[i] && b[i] != c[i] {
        MoreSpecificTransitive(a[i], b[i], c[i]);
      }
    }
    var p :| 0 <= p < |b| && b[p] != c[p] && MoreSpecificType(b[p], c[p]);
    if a[p] != b[p] {
      MoreSpecificTransitive(a[p], b[p], c[p]);
      if a[p] == c[p] {
        MoreSpecificAntisymmetric(b[p], c[p]);
      }
    }
    assert a[p] != c[p] && MoreSpecificType(a[p], c[p]);
  }

  /** `isMoreSpecific(Class[], Class[])`: a scan that gives up at the first
      position where neither type is equal nor more specific. */
  method IsMoreSpecific(a: seq<Type>, b: seq<Type>) returns (r: bool)
    requires |a| == |b|
    ensures r <==> Dominates(a, b)
    ensures a == b ==> !r
  {
    r := false;
    var i := 0;
    while i < |a|
      invariant 0 <= i <= |a|
      invariant forall k :: 0 <= k < i ==> a[k] == b[k] || MoreSpecificType(a[k], b[k])
      invariant r <==> exists k :: 0 <= k < i && a[k] != b[k] && MoreSpecificType(a[k], b[k])
    {
      if a[i] == b[i] {
      } else if MoreSpecificType(a[i], b[i]) {
        r := true;
      } else {
        return false;
      }
      i := i + 1;
    }
  }

  /** The number of set flags in `keep`. */
  function Count(keep: seq<bool>): (r: nat)
    ensures r <= |keep|
  {
    if |keep| == 0 then 0
    else Count(keep[..|keep| - 1]) + (if keep[|keep| - 1] then 1 else 0)
  }

  /** The elements of `xs` whose flag in `keep` is set, in order. */
  function Select<T>(xs: seq<T>, keep: seq<bool>): (r: seq<T>)
    requires |keep| == |xs|
    ensures |r| <= |xs|
    ensures forall x :: x in r ==> exists i :: 0 <= i < |xs| && keep[i] && xs[i] == x
    ensures forall i :: 0 <= i < |xs| && keep[i] ==> xs[i] in r
  {
    if |xs| == 0 then []
    else
      var front := Select(xs[..|xs| - 1], keep[..|xs| - 1]);
      if keep[|xs| - 1] then front + [xs[|xs| - 1]] else front
  }

  /** A selection has one element per set flag. */
  lemma {:induction false} SelectCount<T>(xs: seq<T>, keep: seq<bool>)
    requires |keep| == |xs|
    ensures |Select(xs, keep)| == Count(keep)
    decreases |xs|
  {
    if |xs| > 0 {
      SelectCount(xs[..|xs| - 1], keep[..|xs| - 1]);
    }
  }

  /** `r` is `xs` with some elements removed: what is left keeps its
      order and its multiplicity. */
  ghost predicate SubsequenceOf<T>(r: seq<T>, xs: seq<T>) {
    exists keep: seq<bool> :: |keep| == |xs| && r == Select(xs, keep)
  }

  /** The flags over `xs` that pick, in one selection, what `inner` picks
      out of what `outer` picked. */
  function Compose(outer: seq<bool>, inner: seq<bool>): (c: seq<bool>)
    requires |inner| == Count(outer)
    ensures |c| == |outer|
  {
    if |outer| == 0 then []
    else
      var n := |outer| - 1;
      if outer[n] then Compose(outer[..n], inner[..|inner| - 1]) + [inner[|inner| - 1]]
      else Compose(outer[..n], inner) + [false]
  }

  /** Two selections in a row are one selection. */
  lemma {:induction false} SelectSelect<T>(xs: seq<T>, outer: seq<bool>, inner: seq<bool>)
    requires |outer| == |xs| && |inner| == Count(outer)
    ensures |inner| == |Select(xs, outer)|
    ensures Select(Select(xs, outer), inner) == Select(xs, Compose(outer, inner))
    decreases |xs|
  {
    SelectCount(xs, outer);
    if |xs| > 0 {
      var n := |xs| - 1;
      var front := Select(xs[..n], outer[..n]);
      var c := Compose(outer, inner);
      if outer[n] {
        var m := |inner| - 1;
        SelectSelect(xs[..n], outer[..n], inner[..m]);
        assert c[..n] == Compose(outer[..n], inner[..m]);
        assert (front + [xs[n]])[..m] == front;
      } else {
        SelectSelect(xs[..n], outer[..n], inner);
        assert c[..n] == Compose(outer[..n], inner);
      }
    }
  }

  /** A subsequence of a selection from `xs` is a subsequence of `xs`. */
  lemma SubsequenceOfSelect<T>(r: seq<T>, xs: seq<T>, outer: seq<bool>)
    requires |outer| == |xs| && SubsequenceOf(r, Select(xs, outer))
    ensures SubsequenceOf(r, xs)
  {
    var inner :| |inner| == |Select(xs, outer)| && r == Select(Select(xs, outer), inner);
    SelectCount(xs, outer);
    SelectSelect(xs, outer, inner);
    assert r == Select(xs, Compose(outer, inner));
  }

  /** Selecting never repeats an element: every element occurs in the
      selection at most as often as in `xs`. */
  lemma {:induction false} SelectMultiset<T>(xs: seq<T>, keep: seq<bool>)
    requires |keep| == |xs|
    ensures multiset(Select(xs, keep)) <= multiset(xs)
    decreases |xs|
  {
    if |xs| > 0 {
      var n := |xs| - 1;
      SelectMultiset(xs[..n], keep[..n]);
      assert xs == xs[..n] + [xs[n]];
      MultisetAppend(Select(xs[..n], keep[..n]), xs[..n], xs[n]);
    }
  }

  lemma MultisetAppend<T>(a: seq<T>, b: seq<T>, x: T)
    requires multiset(a) <= multiset(b)
    ensures multiset(a) <= multiset(b + [x]) && multiset(a + [x]) <= multiset(b + [x])
  {
    assert multiset(b + [x]) == multiset(b) + multiset{x};
    assert multiset(a + [x]) == multiset(a) + multiset{x};
  }

  /** A subsequence holds each element at most as often as the sequence. */
  lemma SubsequenceMultiset<T>(r: seq<T>, xs: seq<T>)
    requires SubsequenceOf(r, xs)
    ensures multiset(r) <= multiset(xs)
  {
    var keep :| |keep| == |xs| && r == Select(xs, keep);
    SelectMultiset(xs, keep);
  }

  /** No two of `bs` take the same parameter types. */
  ghost predicate DistinctParams(bs: seq<Behaviour>) {
    forall i, j :: 0 <= i < j < |bs| ==> bs[i].params != bs[j].params
  }

  /** A selection from behaviours whose parameter lists are pairwise
      different keeps them pairwise different. */
  lemma {:induction false} SelectDistinctParams(xs: seq<Behaviour>, keep: seq<bool>)
    requires |keep| == |xs| && DistinctParams(xs)
    ensures DistinctParams(Select(xs, keep))
    decreases |xs|
  {
    if |xs| > 0 {
      var n := |xs| - 1;
      assert DistinctParams(xs[..n]) by {
        forall i, j | 0 <= i < j < n
          ensures xs[..n][i].params != xs[..n][j].params
        {
          assert xs[..n][i] == xs[i] && xs[..n][j] == xs[j];
        }
      }
      SelectDistinctParams(xs[..n], keep[..n]);
      var front := Select(xs[..n], keep[..n]);
      if keep[n] {
        var r := front + [xs[n]];
        forall i, j | 0 <= i < j < |r|
          ensures r[i].params != r[j].params
        {
          if j == |front| {
            assert r[i] == front[i] && front[i] in front && r[j] == xs[n];
            var k :| 0 <= k < n && keep[..n][k] && xs[..n][k] == front[i];
            assert xs[k] == front[i];
          } else {
            assert r[i] == front[i] && r[j] == front[j];
          }
        }
        assert Select(xs, keep) == r;
      }
    }
  }

  /** Selection read from the front: the first element, if kept, then the
      selection from the rest. */
  lemma {:induction false} SelectFront<T>(xs: seq<T>, keep: seq<bool>)
    requires |keep| == |xs| && |xs| > 0
    ensures Select(xs, keep) == (if keep[0] then [xs[0]] else []) + Select(xs[1..], keep[1..])
    decreases |xs|
  {
    var n := |xs| - 1;
    if n > 0 {
      SelectFront(xs[..n], keep[..n]);
      assert xs[..n][1..] == xs[1..][..n - 1];
      assert keep[..n][1..] == keep[1..][..n - 1];
    }
  }

  /** One outer round of `filterMaximallySpecifics`: a candidate still
      present removes every other present candidate it dominates. */
  function KillRound(cs: seq<Behaviour>, alive: seq<bool>, i: nat): (r: seq<bool>)
    requires |alive| == |cs| && i < |cs|
    ensures |r| == |cs|
  {
    if !alive[i] then alive
    else seq(|cs|, j requires 0 <= j < |cs| => alive[j] && (j == i || !Dominates(cs[i].params, cs[j].params)))
  }

  /** The presence flags after the first `n` rounds. */
  function AliveAfter(cs: seq<Behaviour>, n: nat): (r: seq<bool>)
    requires n <= |cs|
    ensures |r| == |cs|
  {
    if n == 0 then seq(|cs|, _ => true) else KillRound(cs, AliveAfter(cs, n - 1), n - 1)
  }

  /** The candidates `filterMaximallySpecifics` keeps. */
  function Survivors(cs: seq<Behaviour>): (r: seq<bool>)
    ensures |r| == |cs|
  {
    AliveAfter(cs, |cs|)
  }

  /** A removed candidate stays removed. */
  lemma {:induction false} AliveShrinks(cs: seq<Behaviour>, m: nat, n: nat, j: nat)
    requires m <= n <= |cs| && j < |cs|
    requires AliveAfter(cs, n)[j]
    ensures AliveAfter(cs, m)[j]
    decreases n
  {
    if m < n {
      AliveShrinks(cs, m, n - 1, j);
    }
  }

  /** No two kept candidates dominate one another. */
  lemma SurvivorsMaximal(cs: seq<Behaviour>, i: nat, j: nat)
    requires i < |cs| && j < |cs| && i != j
    requires Survivors(cs)[i] && Survivors(cs)[j]
    ensures !Dominates(cs[i].params, cs[j].params)
  {
    AliveShrinks(cs, i + 1, |cs|, j);
    AliveShrinks(cs, i, |cs|, i);
    AliveShrinks(cs, i, |cs|, j);
  }

  /** A candidate is removed only by another candidate that dominates it. */
  lemma {:induction false} RemovedIsDominated(cs: seq<Behaviour>, n: nat, j: nat)
    requires n <= |cs| && j < |cs|
    requires !AliveAfter(cs, n)[j]
    ensures exists i :: 0 <= i < |cs| && i != j && Dominates(cs[i].params, cs[j].params)
  {
    if n > 0 {
      if !AliveAfter(cs, n - 1)[j] {
        RemovedIsDominated(cs, n - 1, j);
      } else {
        assert Dominates(cs[n - 1].params, cs[j].params);
      }
    }
  }

  /** Some candidate is always kept: a round never removes its own candidate. */
  lemma {:induction false} SomeSurvivorAfter(cs: seq<Behaviour>, n: nat) returns (k: nat)
    requires 0 < |cs| && n <= |cs|
    ensures k < |cs| && AliveAfter(cs, n)[k]
  {
    if n == 0 {
      k := 0;
    } else {
      var k' := SomeSurvivorAfter(cs, n - 1);
      var prev := AliveAfter(cs, n - 1);
      if prev[n - 1] {
        k := n - 1;
      } else {
        k := k';
      }
    }
  }

  /** A candidate present after round `m` and gone after round `n` was
      struck in a round in between, by another candidate present at its
      own round that dominates it. */
  lemma {:induction false} StruckAt(cs: seq<Behaviour>, m: nat, n: nat, j: nat) returns (k: nat)
    requires m <= n <= |cs| && j < |cs|
    requires AliveAfter(cs, m)[j] && !AliveAfter(cs, n)[j]
    ensures m <= k < n && AliveAfter(cs, k)[k] && k != j && Dominates(cs[k].params, cs[j].params)
    decreases n
  {
    if AliveAfter(cs, n - 1)[j] {
      k := n - 1;
    } else {
      k := StruckAt(cs, m, n - 1, j);
    }
  }

  /** A candidate dominated by one present at its own round is dominated
      by a kept candidate: follow the candidates that struck each other,
      each at a later round, to one that is kept. */
  lemma {:induction false} DominatedBySurvivor(cs: seq<Behaviour>, i: nat, j: nat) returns (k: nat)
    requires i < |cs| && j < |cs|
    requires AliveAfter(cs, i)[i] && Dominates(cs[i].params, cs[j].params)
    ensures k < |cs| && Survivors(cs)[k] && Dominates(cs[k].params, cs[j].params)
    decreases |cs| - i
  {
    if Survivors(cs)[i] {
      k := i;
    } else {
      assert AliveAfter(cs, i + 1)[i];
      var n := StruckAt(cs, i + 1, |cs|, i);
      DominatesTransitive(cs[n].params, cs[i].params, cs[j].params);
      k := DominatedBySurvivor(cs, n, j);
    }
  }

  /** Every candidate the filter drops is dominated by one it keeps. */
  lemma DroppedIsDominatedBySurvivor(cs: seq<Behaviour>, j: nat) returns (k: nat)
    requires j < |cs| && !Survivors(cs)[j]
    ensures k < |cs| && Survivors(cs)[k] && Dominates(cs[k].params, cs[j].params)
  {
    var n := StruckAt(cs, 0, |cs|, j);
    k := DominatedBySurvivor(cs, n, j);
  }

  /** What the kept candidates satisfy: none dominates another, every
      dropped candidate is dominated by a kept one, and some candidate is
      kept whenever there is one. */
  lemma KeptFacts(cs: seq<Behaviour>)
    ensures forall x, y :: x in Select(cs, Survivors(cs)) && y in Select(cs, Survivors(cs))
                           ==> !Dominates(x.params, y.params)
    ensures forall y :: y in cs && y !in Select(cs, Survivors(cs))
                        ==> exists x :: x in Select(cs, Survivors(cs)) && Dominates(x.params, y.params)
    ensures |cs| > 0 ==> |Select(cs, Survivors(cs))| > 0
  {
    DroppedFacts(cs);
    var kept := Survivors(cs);
    forall x, y | x in Select(cs, kept) && y in Select(cs, kept)
      ensures !Dominates(x.params, y.params)
    {
      var p :| 0 <= p < |cs| && kept[p] && cs[p] == x;
      var q :| 0 <= q < |cs| && kept[q] && cs[q] == y;
      if p != q {
        SurvivorsMaximal(cs, p, q);
      }
    }
    if |cs| > 0 {
      var s := SomeSurvivorAfter(cs, |cs|);
      assert cs[s] in Select(cs, kept);
    }
  }

  lemma DroppedFacts(cs: seq<Behaviour>)
    ensures forall y :: y in cs && y !in Select(cs, Survivors(cs))
                        ==> exists x :: x in Select(cs, Survivors(cs)) && Dominates(x.params, y.params)
  {
    var kept := Survivors(cs);
    forall y | y in cs && y !in Select(cs, kept)
      ensures exists x :: x in Select(cs, kept) && Dominates(x.params, y.params)
    {
      var j :| 0 <= j < |cs| && cs[j] == y;
      var k := DroppedIsDominatedBySurvivor(cs, j);
      assert cs[k] in Select(cs, kept);
    }
  }

  /** One outer round of `filterMaximallySpecifics` for a candidate still
      present: the inner loop strikes every other present candidate it is
      more specific than. */
  method Thin(cs: seq<Behaviour>, alive: seq<bool>, i: nat) returns (next: seq<bool>)
    requires forall i, j :: 0 <= i < |cs| && 0 <= j < |cs| ==> |cs[i].params| == |cs[j].params|
    requires |alive| == |cs| && i < |cs| && alive[i]
    ensures next == KillRound(cs, alive, i)
  {
    next := alive;
    var j := 0;
    while j < |cs|
      invariant 0 <= j <= |cs| && |next| == |cs|
      invariant forall k :: 0 <= k < j ==> next[k] == KillRound(cs, alive, i)[k]
      invariant forall k :: j <= k < |cs| ==> next[k] == alive[k]
    {
      if i != j && next[j] {
        var more := IsMoreSpecific(cs[i].params, cs[j].params);
        if more {
          next := next[j := false];
        }
      }
      j := j + 1;
    }
  }

  /** The candidates whose flag is still set, in their original order. */
  method Compact<T>(xs: seq<T>, keep: seq<bool>) returns (r: seq<T>)
    requires |keep| == |xs|
    ensures r == Select(xs, keep)
  {
    r := [];
    var k := 0;
    while k < |xs|
      invariant 0 <= k <= |xs|
      invariant r == Select(xs[..k], keep[..k])
    {
      assert xs[..k + 1][..k] == xs[..k] && keep[..k + 1][..k] == keep[..k];
      if keep[k] {
        r := r + [xs[k]];
      }
      k := k + 1;
    }
    assert xs[..k] == xs && keep[..k] == keep;
  }

  /** `filterMaximallySpecifics`: the table of parameter lists is thinned in
      place, candidate by candidate, and the candidates still present are
      kept in their original order. */
  method FilterMaximallySpecifics(cs: seq<Behaviour>) returns (r: seq<Behaviour>)
    requires forall i, j :: 0 <= i < |cs| && 0 <= j < |cs| ==> |cs[i].params| == |cs[j].params|
    ensures r == Select(cs, Survivors(cs))
    ensures |cs| > 0 ==> |r| > 0
    ensures forall x, y :: x in r && y in r ==> !Dominates(x.params, y.params)
    ensures forall y :: y in cs && y !in r ==> exists x :: x in r && Dominates(x.params, y.params)
  {
    var alive := seq(|cs|, _ => true);
    var i := 0;
    while i < |cs|
      invariant 0 <= i <= |cs|
      invariant alive == AliveAfter(cs, i)
    {
      if alive[i] {
        alive := Thin(cs, alive, i);
      }
      i := i + 1;
    }
    r := Compact(cs, alive);
    KeptFacts(cs);
  }

  /** The candidates kept by the resolver: the applicable ones among
      `potential`, then the maximally specific ones among those. */
  function Resolve(potential: seq<Behaviour>, args: seq<Option<Type>>): (r: seq<Behaviour>)
    ensures forall m :: m in r ==> m in potential && Applicable(args, m.params)
    ensures |r| == 0 <==> forall m :: m in potential ==> !Applicable(args, m.params)
    ensures forall x, y :: x in r && y in r ==> !Dominates(x.params, y.params)
    ensures forall m :: m in potential && Applicable(args, m.params) && m !in r
                        ==> exists d :: d in r && Dominates(d.params, m.params)
    ensures SubsequenceOf(r, potential)
  {
    var mask := seq(|potential|, i requires 0 <= i < |potential| => Applicable(args, potential[i].params));
    var applicable := Select(potential, mask);
    assert forall m :: m in applicable ==> m in potential && Applicable(args, m.params) by {
      forall m | m in applicable
        ensures m in potential && Applicable(args, m.params)
      {
        var i :| 0 <= i < |potential| && mask[i] && potential[i] == m;
      }
    }
    assert (forall m :: m in potential ==> !Applicable(args, m.params)) ==> |applicable| == 0 by {
      if |applicable| > 0 {
        assert applicable[0] in applicable;
      }
    }
    assert |applicable| == 0 ==> forall m :: m in potential ==> !Applicable(args, m.params) by {
      if |applicable| == 0 {
        forall m | m in potential
          ensures !Applicable(args, m.params)
        {
          var i :| 0 <= i < |potential| && potential[i] == m;
          assert !mask[i];
        }
      }
    }
    assert forall m :: m in potential && Applicable(args, m.params) ==> m in applicable by {
      forall m | m in potential && Applicable(args, m.params)
        ensures m in applicable
      {
        var i :| 0 <= i < |potential| && potential[i] == m;
        assert mask[i];
      }
    }
    KeptFacts(applicable);
    SelectCount(potential, mask);
    SelectSelect(potential, mask, Survivors(applicable));
    Select(applicable, Survivors(applicable))
  }

  /** `findConstructor(constructors, argumentTypes)`: the potentially
      applicable constructors are those of the right arity. */
  function FindConstructor(constructors: Option<seq<Behaviour>>, argumentTypes: Option<seq<Option<Type>>>)
    : (r: Result<seq<Behaviour>>)
    ensures constructors.None? ==> r == Err(IllegalArgument("constructors is null"))
    ensures constructors.Some? && argumentTypes.None? ==> r == Err(IllegalArgument("argumentTypes is null"))
    ensures r.Ok? <==> constructors.Some? && argumentTypes.Some?
    ensures r.Ok? ==> forall c :: c in r.value ==>
                        c in constructors.value && |c.params| == |argumentTypes.value|
                        && Applicable(argumentTypes.value, c.params)
    ensures r.Ok? ==> (|r.value| == 0 <==> forall c :: c in constructors.value ==> !Applicable(argumentTypes.value, c.params))
    ensures r.Ok? ==> forall x, y :: x in r.value && y in r.value ==> !Dominates(x.params, y.params)
    ensures r.Ok? ==> forall c :: c in constructors.value && Applicable(argumentTypes.value, c.params) && c !in r.value
                                  ==> exists d :: d in r.value && Dominates(d.params, c.params)
    ensures r.Ok? ==> SubsequenceOf(r.value, constructors.value)
  {
    if constructors.None? then Err(IllegalArgument("constructors is null"))
    else if argumentTypes.None? then Err(IllegalArgument("argumentTypes is null"))
    else
      var cs := constructors.value;
      var potential := Select(cs, ArityMask(cs, |argumentTypes.value|));
      ConstructorsSelected(cs, argumentTypes.value);
      Ok(Resolve(potential, argumentTypes.value))
  }

  /** The flags marking the behaviours of `cs` that take `n` parameters. */
  function ArityMask(cs: seq<Behaviour>, n: nat): (r: seq<bool>)
    ensures |r| == |cs| && forall i :: 0 <= i < |cs| ==> (r[i] <==> |cs[i].params| == n)
  {
    seq(|cs|, i requires 0 <= i < |cs| => |cs[i].params| == n)
  }

  /** The potentially applicable constructors hold every applicable one
      and nothing of another arity; what is resolved among them is a
      subsequence of all the constructors. */
  lemma ConstructorsSelected(cs: seq<Behaviour>, args: seq<Option<Type>>)
    ensures var potential := Select(cs, ArityMask(cs, |args|));
            (forall c :: c in potential ==> c in cs && |c.params| == |args|)
            && (forall c :: c in cs && Applicable(args, c.params) ==> c in potential)
            && SubsequenceOf(Resolve(potential, args), cs)
  {
    var mask := ArityMask(cs, |args|);
    var potential := Select(cs, mask);
    forall c | c in potential
      ensures c in cs && |c.params| == |args|
    {
      var i :| 0 <= i < |cs| && mask[i] && cs[i] == c;
    }
    forall c | c in cs && Applicable(args, c.params)
      ensures c in potential
    {
      var i :| 0 <= i < |cs| && cs[i] == c;
      assert mask[i];
    }
    SubsequenceOfSelect(Resolve(potential, args), cs, mask);
  }

  /** `findMethod(methods, name, argumentTypes)`: the potentially applicable
      methods are those of the requested name and the right arity. */
  function FindMethod(methods: Option<seq<Behaviour>>, name: Option<string>, argumentTypes: Option<seq<Option<Type>>>)
    : (r: Result<seq<Behaviour>>)
    ensures methods.None? ==> r == Err(IllegalArgument("methods is null"))
    ensures methods.Some? && name.None? ==> r == Err(IllegalArgument("name is null"))
    ensures methods.Some? && name.Some? && argumentTypes.None? ==> r == Err(IllegalArgument("argumentTypes is null"))
    ensures r.Ok? <==> methods.Some? && name.Some? && argumentTypes.Some?
    ensures r.Ok? ==> forall m :: m in r.value ==>
                        m in methods.value && m.name == name.value && |m.params| == |argumentTypes.value|
                        && Applicable(argumentTypes.value, m.params)
    ensures r.Ok? ==> (|r.value| == 0 <==> forall m :: m in methods.value && m.name == name.value
                                                  ==> !Applicable(argumentTypes.value, m.params))
    ensures r.Ok? ==> forall x, y :: x in r.value && y in r.value ==> !Dominates(x.params, y.params)
    ensures r.Ok? ==> forall m :: m in methods.value && m.name == name.value
                                  && Applicable(argumentTypes.value, m.params) && m !in r.value
                                  ==> exists d :: d in r.value && Dominates(d.params, m.params)
    ensures r.Ok? ==> SubsequenceOf(r.value, methods.value)
  {
    if methods.None? then Err(IllegalArgument("methods is null"))
    else if name.None? then Err(IllegalArgument("name is null"))
    else if argumentTypes.None? then Err(IllegalArgument("argumentTypes is null"))
    else
      var ms := methods.value;
      var potential := Select(ms, NameArityMask(ms, name.value, |argumentTypes.value|));
      MethodsSelected(ms, name.value, argumentTypes.value);
      Ok(Resolve(potential, argumentTypes.value))
  }

  /** The flags marking the methods of `ms` named `name` that take `n`
      parameters. */
  function NameArityMask(ms: seq<Behaviour>, name: string, n: nat): (r: seq<bool>)
    ensures |r| == |ms| && forall i :: 0 <= i < |ms| ==> (r[i] <==> ms[i].name == name && |ms[i].params| == n)
  {
    seq(|ms|, i requires 0 <= i < |ms| => ms[i].name == name && |ms[i].params| == n)
  }

  /** The potentially applicable methods hold every applicable method of
      that name and nothing of another name or arity; what is resolved
      among them is a subsequence of all the methods. */
  lemma MethodsSelected(ms: seq<Behaviour>, name: string, args: seq<Option<Type>>)
    ensures var potential := Select(ms, NameArityMask(ms, name, |args|));
            (forall m :: m in potential ==> m in ms && m.name == name && |m.params| == |args|)
            && (forall m :: m in ms && m.name == name && Applicable(args, m.params) ==> m in potential)
            && SubsequenceOf(Resolve(potential, args), ms)
  {
    var mask := NameArityMask(ms, name, |args|);
    var potential := Select(ms, mask);
    forall m | m in potential
      ensures m in ms && m.name == name && |m.params| == |args|
    {
      var i :| 0 <= i < |ms| && mask[i] && ms[i] == m;
    }
    forall m | m in ms && m.name == name && Applicable(args, m.params)
      ensures m in potential
    {
      var i :| 0 <= i < |ms| && ms[i] == m;
      assert mask[i];
    }
    SubsequenceOfSelect(Resolve(potential, args), ms, mask);
  }

  /** A `ReflectionFactory` for a validated class. */
  datatype Factory = Factory(targetClass: ClassInfo)

  /** The `ReflectionFactory` constructor: a normal, concrete, top-level,
      public class, checked in that order. */
  function MakeFactory(targetClass: Option<ClassInfo>): (r: Result<Factory>)
    ensures targetClass.None? ==> r == Err(IllegalArgument("targetClass is null"))
    ensures r.Ok? <==> targetClass.Some? && Instantiable(targetClass.value.self)
    ensures r.Ok? ==> r.value.targetClass == targetClass.value
    ensures targetClass.Some? && !Instantiable(targetClass.value.self) ==> r.Err? && r.error.IllegalArgument?
    ensures targetClass.Some? && targetClass.value.self.Declared? && targetClass.value.self.kind == ClassKind
            && Has(targetClass.value.self.mods, ABSTRACT)
            ==> r == Err(IllegalArgument("is not a concrete class"))
  {
    if targetClass.None? then Err(IllegalArgument("targetClass is null"))
    else
      var t := targetClass.value.self;
      if !IsNormalClass(Some(t)).value then Err(IllegalArgument("is not a normal class"))
      else if Has(t.Modifiers(), ABSTRACT) then Err(IllegalArgument("is not a concrete class"))
      else if !IsPackageMember(Some(t)).value then Err(IllegalArgument("is not a package member"))
      else if !Has(t.Modifiers(), PUBLIC) then Err(IllegalArgument("is not public"))
      else Ok(Factory(targetClass.value))
  }

  /** A class a `ReflectionFactory` accepts. */
  predicate Instantiable(t: Type) {
    t.Declared? && t.kind == ClassKind && t.nesting == TopLevel
    && !Has(t.mods, ABSTRACT) && Has(t.mods, PUBLIC)
  }

  /** `getConstructors()`: the public constructors. */
  function PublicConstructors(c: ClassInfo): (r: seq<Behaviour>)
    ensures forall b :: b in r <==> b in c.constructors && b.kind == ConstructorKind && Has(b.mods, PUBLIC)
  {
    Select(c.constructors, seq(|c.constructors|, i requires 0 <= i < |c.constructors| =>
                                 c.constructors[i].kind == ConstructorKind && Has(c.constructors[i].mods, PUBLIC)))
  }

  /** The resolution half of `newInstance(arguments)`: the one public
      constructor the resolver keeps for the runtime types of the
      arguments; none or several are errors.  `Instantiate` goes on to
      call it. */
  function NewInstance(f: Factory, arguments: Option<seq<Value>>): (r: Result<Behaviour>)
    ensures arguments.None? ==> r == Err(IllegalArgument("arguments is null"))
    ensures r.Ok? ==> r.value in PublicConstructors(f.targetClass)
                      && Applicable(ToParameterTypes(arguments).value, r.value.params)
    ensures arguments.Some? && (forall c :: c in PublicConstructors(f.targetClass)
                                  ==> !Applicable(ToParameterTypes(arguments).value, c.params))
            ==> r == Err(IllegalArgument("No applicable constructors"))
    ensures r.Ok? ==> FindConstructor(Some(PublicConstructors(f.targetClass)), Some(ToParameterTypes(arguments).value)).value
                      == [r.value]
    ensures arguments.Some? ==>
              (r.Ok? <==> |FindConstructor(Some(PublicConstructors(f.targetClass)), Some(ToParameterTypes(arguments).value)).value| == 1)
    ensures arguments.Some? && |FindConstructor(Some(PublicConstructors(f.targetClass)), Some(ToParameterTypes(arguments).value)).value| >= 2
            ==> r == Err(IllegalArgument("Ambiguous target constructors"))
  {
    var types :- ToParameterTypes(arguments);
    var cs := PublicConstructors(f.targetClass);
    SoleTarget(cs, types, FindConstructor(Some(cs), Some(types)).value)
  }

  /** `newInstance(arguments)` in full: resolve the constructor, then call
      it on the arguments.  `bodies` says what each constructor does when
      it runs.  A resolution error is an IllegalArgumentException, and so
      is an argument reflection will not pass to the chosen constructor;
      what the constructor's body throws arrives wrapped in an
      InvocationTargetException. */
  function Instantiate(f: Factory, arguments: Option<seq<Value>>, bodies: Behaviour -> Body): (o: Outcome)
    ensures arguments.None? ==> o == Raised(Failure(IllegalArgument("arguments is null")))
    ensures NewInstance(f, arguments).Err? ==> o == Raised(Failure(NewInstance(f, arguments).error))
    ensures o.Returned? ==> NewInstance(f, arguments).Ok?
                            && ArgumentsFit(NewInstance(f, arguments).value.params, arguments.value)
                            && !bodies(NewInstance(f, arguments).value).Fails?
    ensures NewInstance(f, arguments).Ok? && !ArgumentsFit(NewInstance(f, arguments).value.params, arguments.value)
            ==> o == Raised(Failure(IllegalArgument("argument type mismatch")))
    ensures NewInstance(f, arguments).Ok? && ArgumentsFit(NewInstance(f, arguments).value.params, arguments.value)
            && bodies(NewInstance(f, arguments).value).Fails?
            ==> o == Raised(InvocationTarget(bodies(NewInstance(f, arguments).value).e))
  {
    match NewInstance(f, arguments)
    case Err(e) => Raised(Failure(e))
    case Ok(target) => Call(target.params, bodies(target), arguments.value)
  }

  /** The single target of `newInstance`, or the error for none or several. */
  function SoleTarget(cs: seq<Behaviour>, types: seq<Option<Type>>, targets: seq<Behaviour>): (r: Result<Behaviour>)
    requires forall c :: c in targets ==> c in cs && Applicable(types, c.params)
    requires |targets| == 0 <==> forall c :: c in cs ==> !Applicable(types, c.params)
    ensures r.Ok? <==> |targets| == 1
    ensures r.Ok? ==> targets == [r.value] && r.value in cs && Applicable(types, r.value.params)
    ensures (forall c :: c in cs ==> !Applicable(types, c.params)) ==> r == Err(IllegalArgument("No applicable constructors"))
    ensures |targets| >= 2 ==> r == Err(IllegalArgument("Ambiguous target constructors"))
  {
    if |targets| == 0 then Err(IllegalArgument("No applicable constructors"))
    else if |targets| >= 2 then Err(IllegalArgument("Ambiguous target constructors"))
    else
      assert targets == [targets[0]] && targets[0] in targets;
      Ok(targets[0])
  }

  /** The constructor `newInstance` picks is more specific than every other
      applicable public constructor. */
  lemma NewInstanceMostSpecific(f: Factory, arguments: Option<seq<Value>>, c: Behaviour)
    requires NewInstance(f, arguments).Ok?
    requires c in PublicConstructors(f.targetClass) && c != NewInstance(f, arguments).value
    requires Applicable(ToParameterTypes(arguments).value, c.params)
    ensures Dominates(NewInstance(f, arguments).value.params, c.params)
  {
    var cs := PublicConstructors(f.targetClass);
    var types := ToParameterTypes(arguments).value;
    var x := NewInstance(f, arguments).value;
    SoleSurvivorDominates(cs, types, FindConstructor(Some(cs), Some(types)).value, x, c);
  }

  /** When one candidate survives, it dominates every other applicable one. */
  lemma SoleSurvivorDominates(cs: seq<Behaviour>, types: seq<Option<Type>>, kept: seq<Behaviour>, x: Behaviour, c: Behaviour)
    requires kept == [x] && c in cs && c != x && Applicable(types, c.params)
    requires forall m :: m in cs && Applicable(types, m.params) && m !in kept
                         ==> exists d :: d in kept && Dominates(d.params, m.params)
    ensures Dominates(x.params, c.params)
  {
    var d :| d in kept && Dominates(d.params, c.params);
  }
}
