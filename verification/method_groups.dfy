/** The interface-method bookkeeping of `EnhanceManipulator`:
    `NameAndParameter` keys, `MethodGroup` (methods sharing a name and
    parameter list, indexed by return type), and `collectInterfaceMethods`,
    which walks an interface and its super-interfaces and groups their
    methods.
 */
module MethodGroups {
  import opened Wrappers
  import opened Types

  // ---------------------------------------------------------------------
  // Keys
  // ---------------------------------------------------------------------

  /** `Descriptor.getParamDescriptor(signature)`, kept as the list of the
      parameter type names it is built from. */
  function ParamDescriptor(params: seq<Type>): (r: seq<string>)
    ensures |r| == |params| && forall i :: 0 <= i < |params| ==> r[i] == params[i].Name()
  {
    seq(|params|, i requires 0 <= i < |params| => params[i].Name())
  }

  /** `NameAndParameter`: overloading is decided by name and parameter
      descriptor; the return type plays no part. */
  datatype NameAndParameter = NameAndParameter(name: string, parameter: seq<string>)

  function KeyOf(m: Behaviour): (k: NameAndParameter)
    ensures k.name == m.name && k.parameter == ParamDescriptor(m.params)
  {
    NameAndParameter(m.name, ParamDescriptor(m.params))
  }

  /** Two methods share a key exactly when their names and the names of
      their parameter types agree, whatever they return. */
  lemma SameKey(a: Behaviour, b: Behaviour)
    ensures KeyOf(a) == KeyOf(b) <==>
            a.name == b.name && |a.params| == |b.params|
            && forall i :: 0 <= i < |a.params| ==> a.params[i].Name() == b.params[i].Name()
  {
    if a.name == b.name && |a.params| == |b.params|
       && forall i :: 0 <= i < |a.params| ==> a.params[i].Name() == b.params[i].Name() {
      assert ParamDescriptor(a.params) == ParamDescriptor(b.params);
    }
  }

  // ---------------------------------------------------------------------
  // MethodGroup
  // ---------------------------------------------------------------------

  /** `MethodGroup`: the methods of one key, by return type, and the return
      types currently taken as maximally specific. */
  datatype MethodGroup = MethodGroup(name: string, parameters: seq<string>,
                                     byReturn: map<Type, Behaviour>, maximal: seq<Type>)

  function Key(g: MethodGroup): NameAndParameter {
    NameAndParameter(g.name, g.parameters)
  }

  /** The members of a group. */
  function Members(g: MethodGroup): set<Behaviour> {
    set t | t in g.byReturn :: g.byReturn[t]
  }

  /** What every group built by `NewGroup` and `Add` satisfies: one
      maximally specific type, which is a recorded return type, and each
      member filed under its own return type and the group's key. */
  predicate Valid(g: MethodGroup) {
    |g.maximal| == 1 && g.maximal[0] in g.byReturn
    && forall t :: t in g.byReturn ==> g.byReturn[t].returnType == t && KeyOf(g.byReturn[t]) == Key(g)
  }

  /** The `MethodGroup(method)` constructor. */
  function NewGroup(m: Behaviour): (g: MethodGroup)
    ensures Valid(g) && Key(g) == KeyOf(m)
    ensures Members(g) == {m} && g.maximal == [m.returnType]
  {
    MethodGroup(m.name, ParamDescriptor(m.params), map[m.returnType := m], [m.returnType])
  }

  /** The types of `max` that `t` is not a subtype of, in order. */
  function NotAbove(max: seq<Type>, t: Type): (r: seq<Type>)
    ensures |r| <= |max|
    ensures forall c :: c in r <==> c in max && !SubtypeOf(t, c)
    ensures (forall c :: c in max ==> !SubtypeOf(t, c)) ==> r == max
    ensures (exists c :: c in max && SubtypeOf(t, c)) ==> |r| < |max|
  {
    if |max| == 0 then []
    else (if SubtypeOf(t, max[0]) then [] else [max[0]]) + NotAbove(max[1..], t)
  }

  /** `updateMaximallySpecific(type)`: every current maximal type that `t`
      is a subtype of is dropped, and `t` joins only if it dropped one.  A
      type unrelated to all of them is therefore never added. */
  function UpdateMaximallySpecific(max: seq<Type>, t: Type): (r: seq<Type>)
    ensures t in max ==> r == max
    ensures t !in max && (exists c :: c in max && SubtypeOf(t, c))
            ==> t in r && forall c :: c in r ==> c == t || (c in max && !SubtypeOf(t, c))
    ensures (forall c :: c in max ==> !SubtypeOf(t, c)) ==> r == max
  {
    if t in max then max
    else
      var kept := NotAbove(max, t);
      if |kept| < |max| then kept + [t] else max
  }

  /** From a single maximal type, the update leaves a single one: `t` if it
      is a proper subtype of it, the old one otherwise. */
  lemma UpdateSingleton(c: Type, t: Type)
    ensures UpdateMaximallySpecific([c], t) == if t != c && SubtypeOf(t, c) then [t] else [c]
  {
    if t != c && SubtypeOf(t, c) {
      assert NotAbove([c], t) == [] by {
        assert NotAbove([c][1..], t) == [];
      }
    }
  }

  /** `add(method)`: a method whose return type is already recorded changes
      nothing and answers `false`; otherwise it is recorded and the maximal
      types are updated.  The source asserts the key matches. */
  function Add(g: MethodGroup, m: Behaviour): (r: (MethodGroup, bool))
    requires KeyOf(m) == Key(g)
    ensures r.1 <==> m.returnType !in g.byReturn
    ensures !r.1 ==> r.0 == g
    ensures r.1 ==> r.0.byReturn == g.byReturn[m.returnType := m] && Key(r.0) == Key(g)
    ensures r.1 ==> r.0.maximal == UpdateMaximallySpecific(g.maximal, m.returnType)
  {
    var t := m.returnType;
    if t in g.byReturn then (g, false)
    else (g.(byReturn := g.byReturn[t := m], maximal := UpdateMaximallySpecific(g.maximal, t)), true)
  }

  /** Adding keeps a group valid; in particular its maximal set stays a
      singleton, so `hasMostSpecificMethod` holds for every group. */
  lemma AddKeepsValid(g: MethodGroup, m: Behaviour)
    requires Valid(g) && KeyOf(m) == Key(g)
    ensures Valid(Add(g, m).0)
    ensures Add(g, m).1 ==> Members(Add(g, m).0) == Members(g) + {m}
  {
    var (h, added) := Add(g, m);
    if added {
      UpdateSingleton(g.maximal[0], m.returnType);
      assert g.maximal == [g.maximal[0]];
      var sets := Members(g) + {m};
      forall b | b in Members(h) ensures b in sets {
        var t :| t in h.byReturn && h.byReturn[t] == b;
        if t != m.returnType {
          assert b == g.byReturn[t];
        }
      }
      forall b | b in sets ensures b in Members(h) {
        if b != m {
          var t :| t in g.byReturn && g.byReturn[t] == b;
          assert t != m.returnType;
          assert h.byReturn[t] == b;
        } else {
          assert h.byReturn[m.returnType] == m;
        }
      }
    }
  }

  /** `hasMostSpecificMethod()`. */
  predicate HasMostSpecific(g: MethodGroup) {
    |g.maximal| == 1
  }

  /** Every maximal type of the group is a recorded return type, as the
      source asserts before looking one up. */
  predicate MaximalRecorded(g: MethodGroup) {
    forall i :: 0 <= i < |g.maximal| ==> g.maximal[i] in g.byReturn
  }

  /** `getMostSpecificMethod()`. */
  function GetMostSpecific(g: MethodGroup): (r: Result<Behaviour>)
    requires MaximalRecorded(g)
    ensures r.Err? <==> !HasMostSpecific(g)
    ensures r.Err? ==> r.error == IllegalState
    ensures r.Ok? ==> r.value in Members(g) && r.value == g.byReturn[g.maximal[0]]
  {
    if !HasMostSpecific(g) then Err(IllegalState) else Ok(g.byReturn[g.maximal[0]])
  }

  /** `getLessSpecificMethods()`. */
  function GetLessSpecific(g: MethodGroup): (r: Result<set<Behaviour>>)
    ensures r.Err? <==> !HasMostSpecific(g)
    ensures r.Err? ==> r.error == IllegalState
    ensures r.Ok? && |g.byReturn| == 1 ==> r.value == {}
  {
    if !HasMostSpecific(g) then Err(IllegalState)
    else if |g.byReturn| == 1 then Ok({})
    else Ok(set t | t in g.byReturn && t !in g.maximal :: g.byReturn[t])
  }

  /** In a valid group the most specific member and the less specific ones
      split the members: every member is exactly one of the two. */
  lemma MostAndLessSplit(g: MethodGroup)
    requires Valid(g)
    ensures GetMostSpecific(g).Ok? && GetLessSpecific(g).Ok?
    ensures GetMostSpecific(g).value !in GetLessSpecific(g).value
    ensures Members(g) == GetLessSpecific(g).value + {GetMostSpecific(g).value}
  {
    var most := GetMostSpecific(g).value;
    var less := GetLessSpecific(g).value;
    var top := g.maximal[0];
    assert g.maximal == [top];
    if |g.byReturn| == 1 {
      forall b | b in Members(g) ensures b == most {
        var t :| t in g.byReturn && g.byReturn[t] == b;
        assert t == top by {
          if t != top {
            assert {t, top} <= g.byReturn.Keys;
            assert |{t, top}| == 2;
            SubsetCard({t, top}, g.byReturn.Keys);
          }
        }
      }
    } else {
      forall b | b in less ensures b.returnType != top {
        var t :| t in g.byReturn && t !in g.maximal && g.byReturn[t] == b;
      }
      forall b | b in Members(g) ensures b in less || b == most {
        var t :| t in g.byReturn && g.byReturn[t] == b;
        if t != top {
          assert t !in g.maximal;
        }
      }
    }
  }

  lemma SubsetCard<T>(a: set<T>, b: set<T>)
    requires a <= b
    ensures |a| <= |b|
  {
    assert b == a + (b - a);
  }

  /** `group.toString()` is not modelled; the failure names only its cause. */
  const AMBIGUOUS: string := "has ambigous return type"

  /** The check `createProductImplementation` makes on every collected group
      before creating its bridge methods. */
  function AmbiguityCheck(groups: set<MethodGroup>): (r: Result<()>)
    ensures r.Ok? <==> forall g :: g in groups ==> HasMostSpecific(g)
    ensures r.Err? ==> r.error == Enhance(AMBIGUOUS)
  {
    if forall g :: g in groups ==> HasMostSpecific(g) then Ok(()) else Err(Enhance(AMBIGUOUS))
  }

  /** Since every group stays valid, the check can never fail: the
      "ambiguous return type" error is unreachable. */
  lemma AmbiguityUnreachable(groups: set<MethodGroup>)
    requires forall g :: g in groups ==> Valid(g)
    ensures AmbiguityCheck(groups) == Ok(())
  {
  }

  const IntegerType: Type := Box(Int).value

  /** Two overloads returning unrelated types, `String` then `Integer`, leave
      `String` as the single maximal type although `Integer` is no subtype of
      it. */
  lemma UnrelatedReturnTypes(owner: Type)
    ensures var s := Behaviour(MethodKind, owner, "get", [], StringType, PUBLIC | ABSTRACT, []);
            var i := Behaviour(MethodKind, owner, "get", [], IntegerType, PUBLIC | ABSTRACT, []);
            var (g, added) := Add(NewGroup(s), i);
            added && HasMostSpecific(g) && g.maximal == [StringType] && !SubtypeOf(IntegerType, StringType)
            && GetMostSpecific(g) == Ok(s)
  {
    var s := Behaviour(MethodKind, owner, "get", [], StringType, PUBLIC | ABSTRACT, []);
    var i := Behaviour(MethodKind, owner, "get", [], IntegerType, PUBLIC | ABSTRACT, []);
    assert !SubtypeOf(NumberType, StringType);
    assert !SubtypeOf(IntegerType, StringType);
    assert IntegerType != StringType;
    UpdateSingleton(StringType, IntegerType);
  }

  // ---------------------------------------------------------------------
  // collectInterfaceMethods
  // ---------------------------------------------------------------------

  /** `getInterfaces()`: the direct super-interfaces of a type. */
  function Supers(t: Type): seq<Type> {
    if t.Declared? then t.interfaces else []
  }

  /** A type and everything above it through `getInterfaces()`. */
  function Size(t: Type): nat
    decreases t, 1
  {
    1 + if t.Declared? then SumSizes(t.interfaces) else 0
  }

  function SumSizes(ts: seq<Type>): nat
    decreases ts, 0
  {
    if |ts| == 0 then 0 else Size(ts[0]) + SumSizes(ts[1..])
  }

  /** The work list after `work.addFirst(s)` for each `s` of `supers` in
      turn: the super-interfaces end up in reverse order at the front. */
  function Pushed(supers: seq<Type>, work: seq<Type>): (r: seq<Type>)
    ensures forall x :: x in r <==> x in supers || x in work
    ensures SumSizes(r) == SumSizes(supers) + SumSizes(work)
  {
    if |supers| == 0 then work
    else
      assert ([supers[0]] + work)[1..] == work;
      Pushed(supers[1..], [supers[0]] + work)
  }

  /** `to` is `from` or one of its super-interfaces, however indirect. */
  predicate Reaches(from: Type, to: Type)
    decreases from
  {
    from == to || (from.Declared? && exists i :: 0 <= i < |from.interfaces| && Reaches(from.interfaces[i], to))
  }

  lemma {:induction false} ReachesTrans(a: Type, b: Type, c: Type)
    requires Reaches(a, b) && Reaches(b, c)
    ensures Reaches(a, c)
    decreases a
  {
    if a != b {
      var i :| 0 <= i < |a.interfaces| && Reaches(a.interfaces[i], b);
      ReachesTrans(a.interfaces[i], b, c);
    }
  }

  lemma ReachesSupers(root: Type, v: Type)
    requires Reaches(root, v)
    ensures forall k :: 0 <= k < |Supers(v)| ==> Reaches(root, Supers(v)[k])
  {
    forall k | 0 <= k < |Supers(v)| ensures Reaches(root, Supers(v)[k]) {
      assert Reaches(Supers(v)[k], Supers(v)[k]);
      ReachesTrans(root, v, Supers(v)[k]);
    }
  }

  /** No two interfaces above `root` share a binary name, as in one class
      pool. */
  ghost predicate UniqueNames(root: Type) {
    forall a, b :: Reaches(root, a) && Reaches(root, b) && a.Name() == b.Name() ==> a == b
  }

  /** The groups, by key. */
  type Table = map<NameAndParameter, MethodGroup>

  predicate TableValid(table: Table) {
    forall k :: k in table ==> Valid(table[k]) && Key(table[k]) == k
  }

  /** A method is represented when its group holds a member with its return
      type. */
  predicate Represented(table: Table, m: Behaviour) {
    KeyOf(m) in table && m.returnType in table[KeyOf(m)].byReturn
  }

  /** `r` keeps every member `table` had, under the same key and return
      type. */
  predicate Extends(r: Table, table: Table) {
    forall k, t :: k in table && t in table[k].byReturn ==>
      k in r && t in r[k].byReturn && r[k].byReturn[t] == table[k].byReturn[t]
  }

  /** Every member of `r` is one of `table`'s or one of `ms`. */
  predicate DrawnFrom(r: Table, table: Table, ms: seq<Behaviour>) {
    forall k, t :: k in r && t in r[k].byReturn ==>
      r[k].byReturn[t] in ms || (k in table && t in table[k].byReturn && r[k].byReturn[t] == table[k].byReturn[t])
  }

  /** The body of the inner loop: a new group for a new key, `add` to the
      existing group otherwise. */
  function Group(table: Table, m: Behaviour): (r: Table)
    requires TableValid(table)
    ensures TableValid(r) && Represented(r, m)
    ensures r.Keys == table.Keys + {KeyOf(m)}
    ensures Extends(r, table) && DrawnFrom(r, table, [m])
  {
    var k := KeyOf(m);
    if k !in table then
      var r := table[k := NewGroup(m)];
      NewKeyGroups(table, m, r);
      r
    else
      var r := table[k := Add(table[k], m).0];
      AddKeepsValid(table[k], m);
      SameKeyGroups(table, m, r);
      r
  }

  lemma NewKeyGroups(table: Table, m: Behaviour, r: Table)
    requires TableValid(table) && KeyOf(m) !in table && r == table[KeyOf(m) := NewGroup(m)]
    ensures TableValid(r) && Extends(r, table) && DrawnFrom(r, table, [m])
  {
    assert Extends(r, table);
    NewKeyDrawn(table, m, r);
  }

  lemma NewKeyDrawn(table: Table, m: Behaviour, r: Table)
    requires KeyOf(m) !in table && r == table[KeyOf(m) := NewGroup(m)]
    ensures DrawnFrom(r, table, [m])
  {
    forall k, t | k in r && t in r[k].byReturn
      ensures r[k].byReturn[t] in [m] || (k in table && t in table[k].byReturn && r[k].byReturn[t] == table[k].byReturn[t])
    {
      if k == KeyOf(m) {
        assert r[k].byReturn == map[m.returnType := m];
      }
    }
  }

  lemma SameKeyGroups(table: Table, m: Behaviour, r: Table)
    requires TableValid(table) && KeyOf(m) in table
    requires r == table[KeyOf(m) := Add(table[KeyOf(m)], m).0]
    requires Valid(Add(table[KeyOf(m)], m).0)
    ensures TableValid(r) && Extends(r, table) && DrawnFrom(r, table, [m])
  {
    SameKeyExtends(table, m, r);
    SameKeyDrawn(table, m, r);
  }

  lemma SameKeyExtends(table: Table, m: Behaviour, r: Table)
    requires TableValid(table) && KeyOf(m) in table
    requires r == table[KeyOf(m) := Add(table[KeyOf(m)], m).0]
    ensures Extends(r, table)
  {
    var k0 := KeyOf(m);
    var (h, added) := Add(table[k0], m);
    forall k, t | k in table && t in table[k].byReturn
      ensures k in r && t in r[k].byReturn && r[k].byReturn[t] == table[k].byReturn[t]
    {
      if k == k0 && added {
        assert t != m.returnType;
      }
    }
  }

  lemma SameKeyDrawn(table: Table, m: Behaviour, r: Table)
    requires TableValid(table) && KeyOf(m) in table
    requires r == table[KeyOf(m) := Add(table[KeyOf(m)], m).0]
    requires Valid(Add(table[KeyOf(m)], m).0)
    ensures TableValid(r) && DrawnFrom(r, table, [m])
  {
    var k0 := KeyOf(m);
    var (h, added) := Add(table[k0], m);
    assert Key(h) == k0;
    forall k, t | k in r && t in r[k].byReturn
      ensures r[k].byReturn[t] in [m] || (k in table && t in table[k].byReturn && r[k].byReturn[t] == table[k].byReturn[t])
    {
      if k == k0 && added && t == m.returnType {
        assert r[k].byReturn[t] == m;
      }
    }
  }

  /** The inner loop over the declared methods of one interface. */
  function GroupAll(table: Table, ms: seq<Behaviour>): (r: Table)
    requires TableValid(table)
    ensures TableValid(r)
    ensures forall m :: m in ms ==> Represented(r, m)
    ensures Extends(r, table) && DrawnFrom(r, table, ms)
    decreases |ms|
  {
    if |ms| == 0 then table
    else
      var mid := Group(table, ms[0]);
      var r := GroupAll(mid, ms[1..]);
      GroupAllStep(table, mid, r, ms);
      r
  }

  lemma GroupAllStep(table: Table, mid: Table, r: Table, ms: seq<Behaviour>)
    requires |ms| > 0
    requires Extends(mid, table) && DrawnFrom(mid, table, [ms[0]]) && Represented(mid, ms[0])
    requires Extends(r, mid) && DrawnFrom(r, mid, ms[1..])
    ensures Extends(r, table) && DrawnFrom(r, table, ms) && Represented(r, ms[0])
  {
    forall k, t | k in r && t in r[k].byReturn
      ensures r[k].byReturn[t] in ms || (k in table && t in table[k].byReturn && r[k].byReturn[t] == table[k].byReturn[t])
    {
      if r[k].byReturn[t] !in ms[1..] {
        assert k in mid && t in mid[k].byReturn;
      }
    }
  }

  /** The methods the visited interfaces declare. */
  function DeclaredBy(declared: Type -> seq<Behaviour>, vs: seq<Type>): set<Behaviour> {
    set i, b | 0 <= i < |vs| && b in declared(vs[i]) :: b
  }

  lemma DeclaredByExtend(declared: Type -> seq<Behaviour>, vs: seq<Type>, t: Type)
    ensures DeclaredBy(declared, vs) <= DeclaredBy(declared, vs + [t])
    ensures forall b :: b in declared(t) ==> b in DeclaredBy(declared, vs + [t])
  {
    var ws := vs + [t];
    forall b | b in DeclaredBy(declared, vs) ensures b in DeclaredBy(declared, ws) {
      var i :| 0 <= i < |vs| && b in declared(vs[i]);
      assert ws[i] == vs[i];
    }
    forall b | b in declared(t) ensures b in DeclaredBy(declared, ws) {
      assert ws[|vs|] == t;
    }
  }

  /** Once nothing is left to visit, every super-interface of a visited
      interface is itself visited, and so is everything it reaches. */
  lemma {:induction false} ClosedReach(visited: seq<Type>, x: Type, r: Type)
    requires forall i, k :: 0 <= i < |visited| && 0 <= k < |Supers(visited[i])| ==> Supers(visited[i])[k] in visited
    requires x in visited && Reaches(x, r)
    ensures r in visited
    decreases x
  {
    if x != r {
      var k :| 0 <= k < |x.interfaces| && Reaches(x.interfaces[k], r);
      var i :| 0 <= i < |visited| && visited[i] == x;
      assert Supers(visited[i])[k] == x.interfaces[k];
      ClosedReach(visited, x.interfaces[k], r);
    }
  }

  /** Every super-interface of a visited interface is still to be visited
      or has a visited name. */
  ghost predicate Frontier(work: seq<Type>, saw: set<string>, visited: seq<Type>) {
    forall i, k :: 0 <= i < |visited| && 0 <= k < |Supers(visited[i])| ==>
      Supers(visited[i])[k] in work || Supers(visited[i])[k].Name() in saw
  }

  /** The state of the walk between two iterations. */
  ghost predicate Walk(root: Type, work: seq<Type>, saw: set<string>, visited: seq<Type>) {
    (forall w :: w in work ==> Reaches(root, w))
    && (forall i :: 0 <= i < |visited| ==> Reaches(root, visited[i]))
    && (forall i :: 0 <= i < |visited| ==> visited[i].Name() in saw)
    && (forall n :: n in saw ==> exists i :: 0 <= i < |visited| && visited[i].Name() == n)
    && (forall i, j :: 0 <= i < j < |visited| ==> visited[i].Name() != visited[j].Name())
    && Frontier(work, saw, visited)
    && (|visited| == 0 ==> work == [root])
    && (|visited| > 0 ==> visited[0] == root)
  }

  /** A name already seen is dropped from the work list. */
  lemma SkipStep(root: Type, work: seq<Type>, saw: set<string>, visited: seq<Type>)
    requires |work| > 0 && Walk(root, work, saw, visited) && work[0].Name() in saw
    ensures Walk(root, work[1..], saw, visited)
  {
    assert forall w :: w in work ==> w == work[0] || w in work[1..];
  }

  /** A new name is visited and its super-interfaces pushed. */
  lemma VisitStep(root: Type, work: seq<Type>, saw: set<string>, visited: seq<Type>)
    requires |work| > 0 && Walk(root, work, saw, visited) && work[0].Name() !in saw
    ensures Walk(root, Pushed(Supers(work[0]), work[1..]), saw + {work[0].Name()}, visited + [work[0]])
  {
    var t := work[0];
    assert forall w :: w in work ==> w == t || w in work[1..];
    ReachesSupers(root, t);
    VisitRecords(work, saw, visited);
    VisitFrontier(work, saw, visited);
  }

  /** Every recorded name belongs to a visited interface. */
  lemma VisitRecords(work: seq<Type>, saw: set<string>, visited: seq<Type>)
    requires |work| > 0
    requires forall n :: n in saw ==> exists i :: 0 <= i < |visited| && visited[i].Name() == n
    ensures forall n :: n in saw + {work[0].Name()} ==>
              exists i :: 0 <= i < |visited + [work[0]]| && (visited + [work[0]])[i].Name() == n
  {
    var visited' := visited + [work[0]];
    forall n | n in saw + {work[0].Name()} ensures exists i :: 0 <= i < |visited'| && visited'[i].Name() == n {
      if n == work[0].Name() {
        assert visited'[|visited|] == work[0];
      } else {
        var i :| 0 <= i < |visited| && visited[i].Name() == n;
        assert visited'[i] == visited[i];
      }
    }
  }

  /** Visiting `work[0]` pushes its super-interfaces, so the frontier
      stays closed. */
  lemma VisitFrontier(work: seq<Type>, saw: set<string>, visited: seq<Type>)
    requires |work| > 0 && Frontier(work, saw, visited)
    ensures Frontier(Pushed(Supers(work[0]), work[1..]), saw + {work[0].Name()}, visited + [work[0]])
  {
    var t := work[0];
    var work' := Pushed(Supers(t), work[1..]);
    var saw' := saw + {t.Name()};
    var visited' := visited + [t];
    assert forall w :: w in work ==> w == t || w in work[1..];
    forall i, k | 0 <= i < |visited'| && 0 <= k < |Supers(visited'[i])|
      ensures Supers(visited'[i])[k] in work' || Supers(visited'[i])[k].Name() in saw'
    {
      if i < |visited| {
        assert visited'[i] == visited[i];
      }
    }
  }

  /** The groups built so far, against the interfaces visited so far. */
  ghost predicate Grouped(declared: Type -> seq<Behaviour>, visited: seq<Type>, table: Table) {
    TableValid(table)
    && (forall i, m :: 0 <= i < |visited| && m in declared(visited[i]) ==> Represented(table, m))
    && (forall k, t :: k in table && t in table[k].byReturn ==> table[k].byReturn[t] in DeclaredBy(declared, visited))
  }

  lemma GroupStep(declared: Type -> seq<Behaviour>, visited: seq<Type>, table: Table, t: Type)
    requires Grouped(declared, visited, table)
    ensures Grouped(declared, visited + [t], GroupAll(table, declared(t)))
  {
    var visited' := visited + [t];
    var table' := GroupAll(table, declared(t));
    DeclaredByExtend(declared, visited, t);
    forall i, m | 0 <= i < |visited'| && m in declared(visited'[i]) ensures Represented(table', m) {
      if i < |visited| {
        assert visited'[i] == visited[i];
        assert Represented(table, m);
      }
    }
  }

  /** `collectInterfaceMethods(anInterface)`: a depth-first walk of the
      interface and its super-interfaces, each name visited once, grouping
      every declared method by name and parameters.  `declared` stands for
      `getDeclaredMethods()`; `visited` is the order the walk took.  With one
      type per name the walk misses nothing above the interface, and every
      declared method has a group member with its return type. */
  method CollectInterfaceMethods(anInterface: Type, declared: Type -> seq<Behaviour>)
    returns (groups: set<MethodGroup>, visited: seq<Type>)
    requires anInterface.IsInterface()
    ensures |visited| > 0 && visited[0] == anInterface
    ensures forall i, j :: 0 <= i < j < |visited| ==> visited[i].Name() != visited[j].Name()
    ensures forall i :: 0 <= i < |visited| ==> Reaches(anInterface, visited[i])
    ensures UniqueNames(anInterface) ==> forall r :: Reaches(anInterface, r) ==> r in visited
    ensures forall g :: g in groups ==> Valid(g)
    ensures forall g, h :: g in groups && h in groups && Key(g) == Key(h) ==> g == h
    ensures forall i, m :: 0 <= i < |visited| && m in declared(visited[i]) ==>
              Covered(groups, m)
    ensures forall g, t :: g in groups && t in g.byReturn ==> g.byReturn[t] in DeclaredBy(declared, visited)
  {
    var root := anInterface;
    var table: Table := map[];
    var work := [root];
    var saw: set<string> := {};
    visited := [];
    while |work| > 0
      invariant Walk(root, work, saw, visited)
      invariant Grouped(declared, visited, table)
      decreases SumSizes(work)
    {
      var t := work[0];
      assert SumSizes(work) == Size(t) + SumSizes(work[1..]);
      assert Size(t) == 1 + SumSizes(Supers(t));
      if t.Name() in saw {
        SkipStep(root, work, saw, visited);
        work := work[1..];
        continue;
      }
      VisitStep(root, work, saw, visited);
      GroupStep(declared, visited, table, t);
      saw := saw + {t.Name()};
      visited := visited + [t];
      table := GroupAll(table, declared(t));
      work := Pushed(Supers(t), work[1..]);
    }
    if UniqueNames(root) {
      AllVisited(root, saw, visited);
    }
    groups := table.Values;
    GroupsOfTable(declared, visited, table);
  }

  /** Some group has the key of `m` and a member with its return type. */
  predicate Covered(groups: set<MethodGroup>, m: Behaviour) {
    exists g :: g in groups && Key(g) == KeyOf(m) && m.returnType in g.byReturn
  }

  /** The groups of a finished table, as the set `collectInterfaceMethods`
      returns. */
  lemma GroupsOfTable(declared: Type -> seq<Behaviour>, visited: seq<Type>, table: Table)
    requires Grouped(declared, visited, table)
    ensures forall g :: g in table.Values ==> Valid(g)
    ensures forall g, h :: g in table.Values && h in table.Values && Key(g) == Key(h) ==> g == h
    ensures forall i, m :: 0 <= i < |visited| && m in declared(visited[i]) ==> Covered(table.Values, m)
    ensures forall g, t :: g in table.Values && t in g.byReturn ==> g.byReturn[t] in DeclaredBy(declared, visited)
  {
    forall i, m | 0 <= i < |visited| && m in declared(visited[i]) ensures Covered(table.Values, m) {
      assert Represented(table, m);
      assert table[KeyOf(m)] in table.Values;
    }
  }

  /** When the work list runs out and names are unique, the walk has
      visited everything the root reaches. */
  lemma AllVisited(root: Type, saw: set<string>, visited: seq<Type>)
    requires Walk(root, [], saw, visited) && UniqueNames(root)
    ensures forall r :: Reaches(root, r) ==> r in visited
  {
    forall i, k | 0 <= i < |visited| && 0 <= k < |Supers(visited[i])| ensures Supers(visited[i])[k] in visited {
      var c := Supers(visited[i])[k];
      ReachesSupers(root, visited[i]);
      var j :| 0 <= j < |visited| && visited[j].Name() == c.Name();
      assert c == visited[j];
    }
    forall r | Reaches(root, r) ensures r in visited {
      ClosedReach(visited, root, r);
    }
  }
}
