/** `AccessibilityValidator`: before a generated class is loaded, every type,
    field, constructor and method it refers to must be visible from it.

    The references come from the class's constant pool and from the
    signatures of its own fields, constructors and methods.  A validator
    remembers the types it has already accepted, so each is checked once.
    `ClassOk` states what a successful validation means without that memo;
    `Validate` is proved to agree with it.
 */
module Accessibility {
  import opened Wrappers
  import opened Types

  /** `isSame(a, b)`: the same object, or the same name. */
  function IsSame(a: Type, b: Type): (r: bool)
    ensures r <==> a.Name() == b.Name()
  {
    a == b || b.Name() == a.Name()
  }

  /** A class followed by its declaring class, that one's declaring class,
      and so on outwards. */
  function Enclosing(t: Type): (r: seq<Type>)
    ensures |r| >= 1 && r[0] == t
  {
    if t.Declared? && t.declaring.Some? then [t] + Enclosing(t.declaring.value) else [t]
  }

  /** One class of an enclosing chain lets `from` see it. */
  predicate Permits(k: Type, from: Type) {
    IsSame(k, from)
    || (Has(k.Modifiers(), PROTECTED) && SubclassOf(from, k))
    || Has(k.Modifiers(), PUBLIC)
  }

  /** The walk along `getDeclaringClass()` in `isAccessible(CtClass, CtClass)`. */
  function ChainAccessible(k: Type, from: Type): bool {
    if !Permits(k, from) then false
    else if k.Declared? && k.declaring.Some? then ChainAccessible(k.declaring.value, from)
    else true
  }

  /** Every class of an enclosing chain lets `from` see it. */
  predicate AllPermit(chain: seq<Type>, from: Type) {
    forall i :: 0 <= i < |chain| ==> Permits(chain[i], from)
  }

  lemma ChainStep(k: Type, from: Type)
    requires k.Declared? && k.declaring.Some?
    ensures AllPermit(Enclosing(k), from) <==> Permits(k, from) && AllPermit(Enclosing(k.declaring.value), from)
  {
    var outer := Enclosing(k.declaring.value);
    var chain := Enclosing(k);
    assert chain == [k] + outer;
    assert |chain| == |outer| + 1 && chain[0] == k;
    assert forall i :: 0 <= i < |outer| ==> chain[i + 1] == outer[i];
    if Permits(k, from) && AllPermit(outer, from) {
      forall i | 0 <= i < |chain| ensures Permits(chain[i], from) {
        if i > 0 { assert chain[i] == outer[i - 1]; }
      }
    }
    if AllPermit(chain, from) {
      assert Permits(chain[0], from);
      forall i | 0 <= i < |outer| ensures Permits(outer[i], from) {
        assert chain[i + 1] == outer[i];
      }
    }
  }

  /** `isAccessible(CtClass target, CtClass from)`: primitives (`void`
      included) are visible; an array is as visible as its innermost
      component; a declared type is visible when it and every class
      enclosing it is the same as `from`, protected with `from` a subclass,
      or public. */
  function TypeAccessible(target: Type, from: Type): (r: bool)
    decreases if target.Array? then 1 else 0
    ensures target.Primitive? ==> r
    ensures target.Array? ==> (r <==> TypeAccessible(target.Innermost(), from))
    ensures target.Declared? ==> (r <==> AllPermit(Enclosing(target), from))
  {
    if target.Primitive? then true
    else if target.Array? then TypeAccessible(target.Innermost(), from)
    else
      ChainMeaning(target, from);
      ChainAccessible(target, from)
  }

  /** The walk succeeds exactly when every class of the chain permits access. */
  lemma {:induction false} ChainMeaning(k: Type, from: Type)
    ensures ChainAccessible(k, from) <==> AllPermit(Enclosing(k), from)
  {
    if !Permits(k, from) {
      assert Enclosing(k)[0] == k;
    } else if k.Declared? && k.declaring.Some? {
      ChainMeaning(k.declaring.value, from);
      ChainStep(k, from);
    }
  }

  /** A package-private type is hidden from every other class, even one in
      the same package. */
  lemma PackagePrivateHidden(t: Type, from: Type)
    requires t.Declared? && !Has(t.mods, PUBLIC) && !Has(t.mods, PROTECTED) && t.Name() != from.Name()
    ensures !TypeAccessible(t, from)
  {
    assert !Permits(Enclosing(t)[0], from);
  }

  /** A nested type is visible only if its declaring class is. */
  lemma {:induction false} NestedNeedsOuter(t: Type, from: Type)
    requires t.Declared? && t.declaring.Some? && t.declaring.value.Declared? && TypeAccessible(t, from)
    ensures TypeAccessible(t.declaring.value, from)
  {
    var outer := t.declaring.value;
    var chain := Enclosing(t);
    assert chain == [t] + Enclosing(outer);
    forall i | 0 <= i < |Enclosing(outer)|
      ensures Permits(Enclosing(outer)[i], from)
    {
      assert Enclosing(outer)[i] == chain[i + 1];
    }
  }

  /** `isAccessible(CtMember target, CtClass from)`: public, or declared by
      `from`, or protected with `from` a subclass of the declarer.  The
      declarer's own visibility is not consulted. */
  function MemberAccessible(mods: bv32, declaring: Type, from: Type): (r: bool)
    ensures r <==> Has(mods, PUBLIC) || declaring.Name() == from.Name()
                   || (Has(mods, PROTECTED) && SubclassOf(from, declaring))
  {
    if Has(mods, PUBLIC) then true
    else if IsSame(from, declaring) then true
    else Has(mods, PROTECTED) && SubclassOf(from, declaring)
  }

  /** A public member of a package-private class passes the member check
      although its class does not pass the type check. */
  lemma PublicMemberOfHiddenClass()
    ensures var hidden := Declared("p.Hidden", 0, ClassKind, TopLevel, None, Some(ObjectType), []);
            var from := Declared("q.Generated", PUBLIC, ClassKind, TopLevel, None, Some(ObjectType), []);
            MemberAccessible(PUBLIC, hidden, from) && !TypeAccessible(hidden, from)
  {
    var hidden := Declared("p.Hidden", 0, ClassKind, TopLevel, None, Some(ObjectType), []);
    var from := Declared("q.Generated", PUBLIC, ClassKind, TopLevel, None, Some(ObjectType), []);
    PackagePrivateHidden(hidden, from);
  }

  /** A method or constructor reference: parameter types and return type. */
  datatype Descriptor = Descriptor(params: seq<Type>, ret: Type)

  /** The constant-pool entries the validator distinguishes. */
  datatype Entry =
    | ClassRef(name: string)
    | FieldRef(owner: string, member: string)
    | MethodRef(owner: string, member: string, desc: Descriptor)
    | InterfaceMethodRef(owner: string, member: string, desc: Descriptor)
    | LongConst
    | DoubleConst
    | OtherConst

  /** Long and double constants take two slots of the pool. */
  predicate Wide(e: Entry) { e.LongConst? || e.DoubleConst? }

  const CLINIT := "<clinit>"
  const INIT := "<init>"

  /** The slots the scan reads, starting at slot `i`: every slot up to the
      end of the pool, except the one after a wide constant. */
  function Slots(pool: seq<Entry>, i: nat): (r: seq<nat>)
    decreases |pool| - i
    ensures forall k :: 0 <= k < |r| ==> i <= r[k] < |pool|
    ensures forall k, l :: 0 <= k < l < |r| ==> r[k] < r[l]
    ensures i < |pool| ==> |r| > 0 && r[0] == i
  {
    if i >= |pool| then []
    else [i] + Slots(pool, if Wide(pool[i]) then i + 2 else i + 1)
  }

  /** The scan never reads the second slot of a wide constant, and reads
      the slot after every other constant it reads. */
  lemma {:induction false} SlotsSkipWide(pool: seq<Entry>, i: nat)
    decreases |pool| - i
    ensures forall s :: s in Slots(pool, i) && Wide(pool[s]) ==> s + 1 !in Slots(pool, i)
    ensures forall s :: s in Slots(pool, i) && !Wide(pool[s]) && s + 1 < |pool| ==> s + 1 in Slots(pool, i)
  {
    if i < |pool| {
      var next := if Wide(pool[i]) then i + 2 else i + 1;
      SlotsSkipWide(pool, next);
    }
  }

  /** A validator for one class: the class, its constant pool (slot 0 is
      unused), and the class pool names resolve in. */
  datatype Validator = Validator(thisClass: ClassInfo, constPool: seq<Entry>, classPool: map<string, ClassInfo>)
  {
    function From(): Type { thisClass.self }
  }

  /** The first element of `xs` satisfying `p`. */
  function Find<T>(xs: seq<T>, p: T -> bool): (r: Option<T>)
    ensures r.Some? ==> r.value in xs && p(r.value)
    ensures r.None? <==> forall x :: x in xs ==> !p(x)
  {
    if |xs| == 0 then None
    else if p(xs[0]) then Some(xs[0])
    else Find(xs[1..], p)
  }

  /** `getDeclaredField(name)`: a field the class itself declares, of any access. */
  function FieldNamed(c: ClassInfo, name: string): (r: Option<Field>)
    ensures r.Some? ==> r.value in c.declaredFields && r.value.name == name
    ensures r.None? <==> forall f :: f in c.declaredFields ==> f.name != name
  {
    Find(c.declaredFields, (f: Field) => f.name == name)
  }

  /** `getConstructor(desc)`: a declared constructor of any access, never
      the static initializer. */
  function ConstructorFor(c: ClassInfo, d: Descriptor): (r: Option<Behaviour>)
    ensures r.Some? ==> r.value in c.constructors && r.value.kind == ConstructorKind && r.value.params == d.params
    ensures r.None? <==> forall b :: b in c.constructors ==> !(b.kind == ConstructorKind && b.params == d.params)
  {
    Find(c.constructors, (b: Behaviour) => b.kind == ConstructorKind && b.params == d.params)
  }

  /** `getConstructors()`: the non-private constructors, in declaration
      order, without the static initializer. */
  function VisibleConstructors(cs: seq<Behaviour>): (r: seq<Behaviour>)
    ensures forall b :: b in r <==> b in cs && b.kind == ConstructorKind && !Has(b.mods, PRIVATE)
  {
    if |cs| == 0 then []
    else
      var rest := VisibleConstructors(cs[1..]);
      assert forall b :: b in cs <==> b == cs[0] || b in cs[1..];
      if cs[0].kind == ConstructorKind && !Has(cs[0].mods, PRIVATE) then [cs[0]] + rest else rest
  }

  /** A method named `name` with descriptor `d`. */
  predicate Matches(b: Behaviour, name: string, d: Descriptor) {
    b.name == name && b.params == d.params && b.returnType == d.ret
  }

  /** The matching method a class declares itself, of any access. */
  function DeclaredMethod(c: ClassInfo, name: string, d: Descriptor): (r: Option<Behaviour>)
    ensures r.Some? ==> r.value in c.declaredMethods && Matches(r.value, name, d)
    ensures r.None? <==> forall b :: b in c.declaredMethods ==> !Matches(b, name, d)
  {
    Find(c.declaredMethods, (b: Behaviour) => Matches(b, name, d))
  }

  /** A method some class of the pool declares. */
  predicate DeclaredInPool(pool: map<string, ClassInfo>, b: Behaviour) {
    exists n :: n in pool && b in pool[n].declaredMethods
  }

  /** `getMethod(name, desc)` on the class `c`: the methods `c` declares,
      private ones included, and then its supertypes.  The result may be
      declared by a superclass or an interface. */
  function MethodFor(pool: map<string, ClassInfo>, c: ClassInfo, name: string, d: Descriptor): (r: Option<Behaviour>)
    ensures r.Some? ==> Matches(r.value, name, d) && (r.value in c.declaredMethods || DeclaredInPool(pool, r.value))
    ensures DeclaredMethod(c, name, d).Some? ==> r == DeclaredMethod(c, name, d)
    ensures DeclaredMethod(c, name, d).None? ==> r == SuperMethod(pool, c.self, name, d)
  {
    var own := DeclaredMethod(c, name, d);
    if own.Some? then own else SuperMethod(pool, c.self, name, d)
  }

  /** The search of `getMethod` from the type `t`: the class the pool holds
      under its name first, then its supertypes. */
  function MethodOf(pool: map<string, ClassInfo>, t: Type, name: string, d: Descriptor): (r: Option<Behaviour>)
    decreases t, 2
    ensures r.Some? ==> Matches(r.value, name, d) && DeclaredInPool(pool, r.value)
    ensures t.Name() in pool && DeclaredMethod(pool[t.Name()], name, d).Some? ==> r == DeclaredMethod(pool[t.Name()], name, d)
  {
    if t.Name() in pool && DeclaredMethod(pool[t.Name()], name, d).Some? then DeclaredMethod(pool[t.Name()], name, d)
    else SuperMethod(pool, t, name, d)
  }

  /** The superclass first, then each interface in declaration order; the
      first that yields a method wins. */
  function SuperMethod(pool: map<string, ClassInfo>, t: Type, name: string, d: Descriptor): (r: Option<Behaviour>)
    decreases t, 1
    ensures r.Some? ==> Matches(r.value, name, d) && DeclaredInPool(pool, r.value)
    ensures t.Declared? && t.superclass.Some? && MethodOf(pool, t.superclass.value, name, d).Some?
            ==> r == MethodOf(pool, t.superclass.value, name, d)
  {
    if !t.Declared? then None
    else
      var s := if t.superclass.Some? then MethodOf(pool, t.superclass.value, name, d) else None;
      if s.Some? then s else InterfaceMethod(pool, t, 0, name, d)
  }

  function InterfaceMethod(pool: map<string, ClassInfo>, t: Type, k: nat, name: string, d: Descriptor)
    : (r: Option<Behaviour>)
    requires t.Declared?
    decreases t, 0, |t.interfaces| - k
    ensures r.Some? ==> Matches(r.value, name, d) && DeclaredInPool(pool, r.value)
  {
    if k >= |t.interfaces| then None
    else
      var m := MethodOf(pool, t.interfaces[k], name, d);
      if m.Some? then m else InterfaceMethod(pool, t, k + 1, name, d)
  }

  // ---- What a successful validation means ------------------------------

  predicate TypeOk(v: Validator, t: Type) { TypeAccessible(t, v.From()) }

  predicate TypesOk(v: Validator, ts: seq<Type>) { forall i :: 0 <= i < |ts| ==> TypeOk(v, ts[i]) }

  predicate FieldOk(v: Validator, f: Field) {
    TypeOk(v, f.declaring) && TypeOk(v, f.fieldType) && MemberAccessible(f.mods, f.declaring, v.From())
  }

  predicate ConstructorOk(v: Validator, c: Behaviour) {
    TypeOk(v, c.declaring) && TypesOk(v, c.params) && TypesOk(v, c.exceptions)
    && MemberAccessible(c.mods, c.declaring, v.From())
  }

  predicate MethodOk(v: Validator, m: Behaviour) {
    TypeOk(v, m.declaring) && TypeOk(v, m.returnType) && TypesOk(v, m.params) && TypesOk(v, m.exceptions)
    && MemberAccessible(m.mods, m.declaring, v.From())
  }

  /** The class a name resolves to exists and is visible. */
  predicate OwnerOk(v: Validator, name: string) {
    name in v.classPool && TypeOk(v, v.classPool[name].self)
  }

  predicate MemberRefOk(v: Validator, owner: string, member: string, d: Descriptor) {
    member == CLINIT
    || (OwnerOk(v, owner)
        && if member == INIT then
             ConstructorFor(v.classPool[owner], d).Some? && ConstructorOk(v, ConstructorFor(v.classPool[owner], d).value)
           else
             MethodFor(v.classPool, v.classPool[owner], member, d).Some?
             && MethodOk(v, MethodFor(v.classPool, v.classPool[owner], member, d).value))
  }

  predicate EntryOk(v: Validator, e: Entry) {
    match e
    case ClassRef(n) => OwnerOk(v, n)
    case FieldRef(o, n) =>
      OwnerOk(v, o) && FieldNamed(v.classPool[o], n).Some? && FieldOk(v, FieldNamed(v.classPool[o], n).value)
    case MethodRef(o, n, d) => MemberRefOk(v, o, n, d)
    case InterfaceMethodRef(o, n, d) => MemberRefOk(v, o, n, d)
    case _ => true
  }

  /** The entries at the given slots are all fine. */
  predicate EntriesOk(v: Validator, slots: seq<nat>) {
    forall k :: 0 <= k < |slots| ==> slots[k] < |v.constPool| && EntryOk(v, v.constPool[slots[k]])
  }

  /** Every slot the scan from slot 1 reads holds a fine entry. */
  predicate PoolOk(v: Validator) {
    EntriesOk(v, Slots(v.constPool, 1))
  }

  /** Every reference of the class is visible from it. */
  predicate ClassOk(v: Validator) {
    PoolOk(v)
    && (forall i :: 0 <= i < |v.thisClass.fields| ==> FieldOk(v, v.thisClass.fields[i]))
    && (var cs := VisibleConstructors(v.thisClass.constructors);
        forall i :: 0 <= i < |cs| ==> ConstructorOk(v, cs[i]))
    && (forall i :: 0 <= i < |v.thisClass.methods| ==> MethodOk(v, v.thisClass.methods[i]))
  }

  // ---- The validator, with its memo of accepted types --------------------

  /** A memo holds only types that are visible. */
  predicate Sound(v: Validator, seen: set<Type>) { forall t :: t in seen ==> TypeOk(v, t) }

  /** `verifyType(CtClass)`: a type already accepted is skipped; otherwise
      it is checked, and remembered only once it passes. */
  function VerifyType(v: Validator, seen: set<Type>, t: Type): (r: Result<set<Type>>)
    ensures r.Ok? <==> t in seen || TypeOk(v, t)
    ensures r.Ok? ==> r.value == seen + {t}
    ensures r.Err? ==> r.error == Enhance("Not visible type")
  {
    if t in seen then Ok(seen)
    else if !TypeAccessible(t, v.From()) then Err(Enhance("Not visible type"))
    else Ok(seen + {t})
  }

  /** `verifyTypes(CtClass[])`. */
  function VerifyTypes(v: Validator, seen: set<Type>, ts: seq<Type>): (r: Result<set<Type>>)
    requires Sound(v, seen)
    ensures r.Ok? <==> TypesOk(v, ts)
    ensures r.Ok? ==> Sound(v, r.value) && seen <= r.value
    decreases |ts|
  {
    if |ts| == 0 then Ok(seen)
    else
      var s1 :- VerifyType(v, seen, ts[0]);
      var r := VerifyTypes(v, s1, ts[1..]);
      assert TypesOk(v, ts) <==> TypeOk(v, ts[0]) && TypesOk(v, ts[1..]) by {
        if TypeOk(v, ts[0]) && TypesOk(v, ts[1..]) {
          forall i | 0 <= i < |ts| ensures TypeOk(v, ts[i]) {
            if i > 0 { assert ts[i] == ts[1..][i - 1]; }
          }
        }
      }
      r
  }

  /** `loadType(name)` followed by `verifyType`. */
  function VerifyOwner(v: Validator, seen: set<Type>, name: string): (r: Result<set<Type>>)
    requires Sound(v, seen)
    ensures r.Ok? <==> OwnerOk(v, name)
    ensures r.Ok? ==> Sound(v, r.value) && seen <= r.value
    ensures name !in v.classPool ==> r == Err(Enhance("Type not found"))
  {
    if name !in v.classPool then Err(Enhance("Type not found"))
    else VerifyType(v, seen, v.classPool[name].self)
  }

  /** `verifyField(field)`: its declaring class, its type, then the field. */
  function VerifyField(v: Validator, seen: set<Type>, f: Field): (r: Result<set<Type>>)
    requires Sound(v, seen)
    ensures r.Ok? <==> FieldOk(v, f)
    ensures r.Ok? ==> Sound(v, r.value) && seen <= r.value
  {
    var s1 :- VerifyType(v, seen, f.declaring);
    var s2 :- VerifyType(v, s1, f.fieldType);
    if !MemberAccessible(f.mods, f.declaring, v.From()) then Err(Enhance("Not visible field"))
    else Ok(s2)
  }

  /** `verifyConstructor(constructor)`. */
  function VerifyConstructor(v: Validator, seen: set<Type>, c: Behaviour): (r: Result<set<Type>>)
    requires Sound(v, seen)
    ensures r.Ok? <==> ConstructorOk(v, c)
    ensures r.Ok? ==> Sound(v, r.value) && seen <= r.value
  {
    var s1 :- VerifyType(v, seen, c.declaring);
    var s2 :- VerifyTypes(v, s1, c.params);
    var s3 :- VerifyTypes(v, s2, c.exceptions);
    if !MemberAccessible(c.mods, c.declaring, v.From()) then Err(Enhance("Not visible constructor"))
    else Ok(s3)
  }

  /** `verifyMethod(method)`. */
  function VerifyMethod(v: Validator, seen: set<Type>, m: Behaviour): (r: Result<set<Type>>)
    requires Sound(v, seen)
    ensures r.Ok? <==> MethodOk(v, m)
    ensures r.Ok? ==> Sound(v, r.value) && seen <= r.value
  {
    var s1 :- VerifyType(v, seen, m.declaring);
    var s2 :- VerifyType(v, s1, m.returnType);
    var s3 :- VerifyTypes(v, s2, m.params);
    var s4 :- VerifyTypes(v, s3, m.exceptions);
    if !MemberAccessible(m.mods, m.declaring, v.From()) then Err(Enhance("Not visible method"))
    else Ok(s4)
  }

  /** `verifyMethodref`: a class initializer is always resolvable; `<init>`
      names a constructor; anything else a method, possibly inherited. */
  function VerifyMemberRef(v: Validator, seen: set<Type>, owner: string, member: string, d: Descriptor)
    : (r: Result<set<Type>>)
    requires Sound(v, seen)
    ensures r.Ok? <==> MemberRefOk(v, owner, member, d)
    ensures r.Ok? ==> Sound(v, r.value) && seen <= r.value
    ensures member == CLINIT ==> r == Ok(seen)
  {
    if member == CLINIT then Ok(seen)
    else
      var s1 :- VerifyOwner(v, seen, owner);
      var c := v.classPool[owner];
      if member == INIT then
        match ConstructorFor(c, d)
        case None => Err(Enhance("Method not found"))
        case Some(ctor) => VerifyConstructor(v, s1, ctor)
      else
        match MethodFor(v.classPool, c, member, d)
        case None => Err(Enhance("Method not found"))
        case Some(m) => VerifyMethod(v, s1, m)
  }

  /** One slot of `verifyConstantPool`. */
  function VerifyEntry(v: Validator, seen: set<Type>, e: Entry): (r: Result<set<Type>>)
    requires Sound(v, seen)
    ensures r.Ok? <==> EntryOk(v, e)
    ensures r.Ok? ==> Sound(v, r.value) && seen <= r.value
  {
    match e
    case ClassRef(n) => VerifyOwner(v, seen, n)
    case FieldRef(o, n) =>
      var s1 :- VerifyOwner(v, seen, o);
      (match FieldNamed(v.classPool[o], n)
       case None => Err(Enhance("Field not found"))
       case Some(f) => VerifyField(v, s1, f))
    case MethodRef(o, n, d) => VerifyMemberRef(v, seen, o, n, d)
    case InterfaceMethodRef(o, n, d) => VerifyMemberRef(v, seen, o, n, d)
    case _ => Ok(seen)
  }

  /** The entries at slot `i` and after, in scan order, are all fine. */
  predicate SlotsOk(v: Validator, i: nat)
    decreases |v.constPool| - i
  {
    i >= |v.constPool|
    || (EntryOk(v, v.constPool[i]) && SlotsOk(v, if Wide(v.constPool[i]) then i + 2 else i + 1))
  }

  /** The scan from slot `i` succeeds exactly when every slot it reads holds
      a fine entry. */
  lemma {:induction false} SlotsOkMeaning(v: Validator, i: nat)
    decreases |v.constPool| - i
    ensures SlotsOk(v, i) <==> EntriesOk(v, Slots(v.constPool, i))
  {
    var cp := v.constPool;
    if i < |cp| {
      var next := if Wide(cp[i]) then i + 2 else i + 1;
      SlotsOkMeaning(v, next);
      var all := Slots(cp, i);
      var rest := Slots(cp, next);
      assert all == [i] + rest;
      if SlotsOk(v, i) {
        assert EntryOk(v, cp[i]) && SlotsOk(v, next);
        forall k | 0 <= k < |all| ensures all[k] < |cp| && EntryOk(v, cp[all[k]]) {
          if k > 0 { assert all[k] == rest[k - 1]; }
        }
      }
      if EntriesOk(v, all) {
        assert all[0] == i;
        forall k | 0 <= k < |rest| ensures EntryOk(v, cp[rest[k]]) {
          assert all[k + 1] == rest[k];
        }
      }
    }
  }

  /** `verifyConstantPool`: slots 1 to size-1, where a long or double
      constant makes the scan skip the slot after it. */
  method VerifyConstantPool(v: Validator, seen: set<Type>) returns (r: Result<set<Type>>)
    requires Sound(v, seen)
    ensures r.Ok? <==> PoolOk(v)
    ensures r.Ok? ==> Sound(v, r.value) && seen <= r.value
  {
    SlotsOkMeaning(v, 1);
    var cp := v.constPool;
    var memo := seen;
    var index := 1;
    while index < |cp|
      invariant SlotsOk(v, 1) <==> SlotsOk(v, index)
      invariant Sound(v, memo) && seen <= memo
      decreases |cp| - index
    {
      var step := VerifyEntry(v, memo, cp[index]);
      if step.Err? {
        assert !SlotsOk(v, index);
        return Err(step.error);
      }
      memo := step.value;
      if Wide(cp[index]) {
        index := index + 1;
      }
      index := index + 1;
    }
    assert SlotsOk(v, index);
    return Ok(memo);
  }

  /** `verifyFields`, `verifyConstructors` and `verifyMethods` of `verify()`. */
  function VerifyFields(v: Validator, seen: set<Type>, fs: seq<Field>): (r: Result<set<Type>>)
    requires Sound(v, seen)
    ensures r.Ok? <==> forall i :: 0 <= i < |fs| ==> FieldOk(v, fs[i])
    ensures r.Ok? ==> Sound(v, r.value)
    decreases |fs|
  {
    if |fs| == 0 then Ok(seen)
    else
      var s1 :- VerifyField(v, seen, fs[0]);
      var r := VerifyFields(v, s1, fs[1..]);
      assert (forall i :: 0 <= i < |fs| ==> FieldOk(v, fs[i])) <==>
             FieldOk(v, fs[0]) && (forall i :: 0 <= i < |fs[1..]| ==> FieldOk(v, fs[1..][i])) by {
        if FieldOk(v, fs[0]) && (forall i :: 0 <= i < |fs[1..]| ==> FieldOk(v, fs[1..][i])) {
          forall i | 0 <= i < |fs| ensures FieldOk(v, fs[i]) {
            if i > 0 { assert fs[i] == fs[1..][i - 1]; }
          }
        }
      }
      r
  }

  function VerifyConstructors(v: Validator, seen: set<Type>, cs: seq<Behaviour>): (r: Result<set<Type>>)
    requires Sound(v, seen)
    ensures r.Ok? <==> forall i :: 0 <= i < |cs| ==> ConstructorOk(v, cs[i])
    ensures r.Ok? ==> Sound(v, r.value)
    decreases |cs|
  {
    if |cs| == 0 then Ok(seen)
    else
      var s1 :- VerifyConstructor(v, seen, cs[0]);
      var r := VerifyConstructors(v, s1, cs[1..]);
      assert (forall i :: 0 <= i < |cs| ==> ConstructorOk(v, cs[i])) <==>
             ConstructorOk(v, cs[0]) && (forall i :: 0 <= i < |cs[1..]| ==> ConstructorOk(v, cs[1..][i])) by {
        if ConstructorOk(v, cs[0]) && (forall i :: 0 <= i < |cs[1..]| ==> ConstructorOk(v, cs[1..][i])) {
          forall i | 0 <= i < |cs| ensures ConstructorOk(v, cs[i]) {
            if i > 0 { assert cs[i] == cs[1..][i - 1]; }
          }
        }
      }
      r
  }

  function VerifyMethods(v: Validator, seen: set<Type>, ms: seq<Behaviour>): (r: Result<set<Type>>)
    requires Sound(v, seen)
    ensures r.Ok? <==> forall i :: 0 <= i < |ms| ==> MethodOk(v, ms[i])
    ensures r.Ok? ==> Sound(v, r.value)
    decreases |ms|
  {
    if |ms| == 0 then Ok(seen)
    else
      var s1 :- VerifyMethod(v, seen, ms[0]);
      var r := VerifyMethods(v, s1, ms[1..]);
      assert (forall i :: 0 <= i < |ms| ==> MethodOk(v, ms[i])) <==>
             MethodOk(v, ms[0]) && (forall i :: 0 <= i < |ms[1..]| ==> MethodOk(v, ms[1..][i])) by {
        if MethodOk(v, ms[0]) && (forall i :: 0 <= i < |ms[1..]| ==> MethodOk(v, ms[1..][i])) {
          forall i | 0 <= i < |ms| ensures MethodOk(v, ms[i]) {
            if i > 0 { assert ms[i] == ms[1..][i - 1]; }
          }
        }
      }
      r
  }

  /** `validate(klass)`: an absent class and a frozen class are rejected;
      otherwise the constant pool, the fields, the constructors and the
      methods are verified in that order, starting from an empty memo. */
  method Validate(klass: Option<Validator>, frozen: bool) returns (r: Result<()>)
    ensures klass.None? ==> r == Err(NullPointer("klass"))
    ensures klass.Some? && frozen ==> r.Err? && r.error.IllegalArgument?
    ensures r.Ok? <==> klass.Some? && !frozen && ClassOk(klass.value)
  {
    if klass.None? {
      return Err(NullPointer("klass"));
    }
    if frozen {
      return Err(IllegalArgument("is frozen"));
    }
    var v := klass.value;
    var s0 := VerifyConstantPool(v, {});
    if s0.Err? {
      return Err(s0.error);
    }
    var s1 := VerifyFields(v, s0.value, v.thisClass.fields);
    if s1.Err? {
      return Err(s1.error);
    }
    var s2 := VerifyConstructors(v, s1.value, VisibleConstructors(v.thisClass.constructors));
    if s2.Err? {
      return Err(s2.error);
    }
    var s3 := VerifyMethods(v, s2.value, v.thisClass.methods);
    if s3.Err? {
      return Err(s3.error);
    }
    return Ok(());
  }

  // ---- Examples ----------------------------------------------------------

  const HelperOwner: Type := Declared("p.F", PUBLIC, ClassKind, TopLevel, None, Some(ObjectType), [])
  const Helper: Behaviour := Behaviour(MethodKind, HelperOwner, "helper", [], Primitive(VoidKind), PRIVATE, [])

  /** A class that calls its own private method `helper()`: the method is
      among the declared methods, not among the non-private ones. */
  const HelperCaller: Validator :=
    var c := ClassInfo(HelperOwner, [], [Helper], [], [], []);
    Validator(c, [OtherConst, ClassRef("p.F"), MethodRef("p.F", "helper", Descriptor([], Primitive(VoidKind)))],
              map["p.F" := c])

  /** A call to the class's own private method resolves and passes, and so
      does the whole class. */
  lemma PrivateHelperResolves()
    ensures MethodFor(HelperCaller.classPool, HelperCaller.thisClass, "helper", Descriptor([], Primitive(VoidKind))) == Some(Helper)
    ensures EntryOk(HelperCaller, HelperCaller.constPool[2])
    ensures ClassOk(HelperCaller)
  {
    var v := HelperCaller;
    assert Enclosing(HelperOwner) == [HelperOwner];
    assert OwnerOk(v, "p.F");
    assert Slots(v.constPool, 3) == [];
    assert Slots(v.constPool, 1) == [1, 2];
  }

  /** A private constructor is resolvable by a reference, but the loop over
      `getConstructors()` never visits it, nor the static initializer. */
  lemma PrivateConstructorNotListed(c: ClassInfo)
    requires forall b :: b in c.constructors ==> b.kind == InitializerKind || Has(b.mods, PRIVATE)
    ensures VisibleConstructors(c.constructors) == []
  {
    if VisibleConstructors(c.constructors) != [] {
      assert VisibleConstructors(c.constructors)[0] in VisibleConstructors(c.constructors);
    }
  }

  /** A method the class does not declare is looked up in its superclass,
      before any of its interfaces. */
  lemma InheritedFromSuperclass(pool: map<string, ClassInfo>, c: ClassInfo, name: string, d: Descriptor)
    requires DeclaredMethod(c, name, d).None?
    requires c.self.Declared? && c.self.superclass.Some?
    requires var sup := c.self.superclass.value;
             sup.Name() in pool && DeclaredMethod(pool[sup.Name()], name, d).Some?
    ensures MethodFor(pool, c, name, d) == DeclaredMethod(pool[c.self.superclass.value.Name()], name, d)
  {
  }
}
