/** `EnhanceManipulator`: the structural decisions behind the generated
    classes.  It covers generated names, the inherited and copied classes, the
    bypass and pointcut methods, weaving of product methods, and the order in
    which `install` loads and initialises everything.  Generated method bodies
    are tags (`Code`), not source text.
 */
module Manipulator {
  import opened Wrappers
  import opened Types
  import opened Strings
  import opened Pointcuts
  import opened Invocations
  import opened EnhanceManager
  import opened Aspects
  import opened AdviceApplier
  import Reflection

  const ENHANCE_CLASS: string := "__ENHANCED__"
  const BYPASS_METHOD: string := "__BYPASS__"
  const ADVICE_TABLE_FIELD: string := "__ADVICE_TABLE__"

  // ---------------------------------------------------------------------
  // Generated names
  // ---------------------------------------------------------------------

  /** The characters `.` of a Java regular expression does not match. */
  predicate LineTerminator(c: char) {
    c == '\n' || c == '\r' || c == '\U{0085}' || c == '\U{2028}' || c == '\U{2029}'
  }

  /** Names `AVOID_NAME_PATTERN`, `(java\.|javax\.|sun\.).*`, matches as a
      whole: a reserved package prefix followed by a line-terminator-free
      remainder. */
  predicate Avoided(name: string) {
    (StartsWith(name, "java.") || StartsWith(name, "javax.") || StartsWith(name, "sun."))
    && forall i :: 0 <= i < |name| ==> !LineTerminator(name[i])
  }

  /** `getEnhanceClassName`: classes in reserved packages get the marker as a
      prefix (a class may not be defined there), all others as a suffix. */
  function EnhanceClassName(name: string): (r: string)
    ensures |r| == |name| + |ENHANCE_CLASS|
    ensures Avoided(name) ==> StartsWith(r, ENHANCE_CLASS) && r[|ENHANCE_CLASS|..] == name
    ensures !Avoided(name) ==> EndsWith(r, ENHANCE_CLASS) && r[..|name|] == name
    ensures r != name
  {
    if Avoided(name) then ENHANCE_CLASS + name else name + ENHANCE_CLASS
  }

  /** The inverse of `EnhanceClassName`: the name a generated class name was
      made from, if any. */
  function OriginalClassName(enhanced: string): (r: Option<string>)
  {
    var k := |ENHANCE_CLASS|;
    if StartsWith(enhanced, ENHANCE_CLASS) && Avoided(enhanced[k..]) then Some(enhanced[k..])
    else if EndsWith(enhanced, ENHANCE_CLASS) && !Avoided(enhanced[..|enhanced| - k]) then
      Some(enhanced[..|enhanced| - k])
    else None
  }

  /** A generated class name gives back its original, unless the original
      lies outside the reserved packages yet itself starts with the marker. */
  lemma EnhanceClassNameRoundTrip(name: string)
    requires Avoided(name) || !StartsWith(name, ENHANCE_CLASS)
    ensures OriginalClassName(EnhanceClassName(name)) == Some(name)
  {
    var e := EnhanceClassName(name);
    var k := |ENHANCE_CLASS|;
    if Avoided(name) {
      assert e[k..] == name;
    } else {
      assert e[..|e| - k] == name;
      SuffixedNotPrefixed(name);
    }
  }

  /** A suffixed name is read back as suffixed: its text after the marker
      length is not a reserved-package name. */
  lemma SuffixedNotPrefixed(name: string)
    requires !StartsWith(name, ENHANCE_CLASS)
    ensures !(StartsWith(name + ENHANCE_CLASS, ENHANCE_CLASS) && Avoided((name + ENHANCE_CLASS)[|ENHANCE_CLASS|..]))
  {
    var e := name + ENHANCE_CLASS;
    var k := |ENHANCE_CLASS|;
    if |name| >= k {
      assert e[..k] == name[..k];
    } else {
      var rest := e[k..];
      assert rest == ENHANCE_CLASS[k - |name|..];
      MarkerSuffixNotAvoided(rest);
    }
  }

  /** No tail of the marker names a reserved package. */
  lemma MarkerSuffixNotAvoided(rest: string)
    requires |rest| <= |ENHANCE_CLASS| && rest == ENHANCE_CLASS[|ENHANCE_CLASS| - |rest|..]
    ensures !Avoided(rest)
  {
    if |rest| > 0 {
      assert rest[0] == ENHANCE_CLASS[|ENHANCE_CLASS| - |rest|];
      assert rest[0] != 'j' && rest[0] != 's';
      assert rest[..1][0] == rest[0];
    }
  }

  /** Under the round trip's condition distinct classes get distinct
      generated names. */
  lemma EnhanceClassNameInjective(a: string, b: string)
    requires Avoided(a) || !StartsWith(a, ENHANCE_CLASS)
    requires Avoided(b) || !StartsWith(b, ENHANCE_CLASS)
    ensures EnhanceClassName(a) == EnhanceClassName(b) ==> a == b
  {
    EnhanceClassNameRoundTrip(a);
    EnhanceClassNameRoundTrip(b);
  }

  /** Without that condition two classes can share a generated name: a
      reserved-package class whose name ends with the marker, and a class of
      the default package whose name is the marker followed by it. */
  lemma EnhanceClassNameCollision()
    ensures EnhanceClassName("java.X__ENHANCED__") == EnhanceClassName("__ENHANCED__java.X")
    ensures "java.X__ENHANCED__" != "__ENHANCED__java.X"
  {
    ReservedWithMarker();
    MarkerFirstNotReserved();
    assert ENHANCE_CLASS + "java.X__ENHANCED__" == "__ENHANCED__java.X" + ENHANCE_CLASS;
  }

  lemma ReservedWithMarker()
    ensures Avoided("java.X__ENHANCED__")
  {
    var n := "java.X__ENHANCED__";
    assert n[..5] == "java.";
  }

  lemma MarkerFirstNotReserved()
    ensures !Avoided("__ENHANCED__java.X")
  {
    var n := "__ENHANCED__java.X";
    assert n[..5][0] == '_' && n[..6][0] == '_' && n[..4][0] == '_';
  }

  /** `getBypassMethodName`: `String.format("%08d%s", index, BYPASS_METHOD)`. */
  function BypassName(index: nat): (r: string)
    ensures EndsWith(r, BYPASS_METHOD)
    ensures |r| >= 8 + |BYPASS_METHOD|
    ensures IsDigit(r[0])
  {
    PadZeros(Decimal(index), 8) + BYPASS_METHOD
  }

  /** The inverse of `BypassName`: the index encoded in a bypass name. */
  function BypassIndex(name: string): (r: Option<nat>)
  {
    var k := |BYPASS_METHOD|;
    if EndsWith(name, BYPASS_METHOD) && |name| - k >= 8 && AllDigits(name[..|name| - k]) then
      Some(ParseDecimal(name[..|name| - k]))
    else None
  }

  /** A bypass name gives back its index, so distinct indices give distinct
      bypass names. */
  lemma BypassNameRoundTrip(index: nat)
    ensures BypassIndex(BypassName(index)) == Some(index)
  {
    var d := Decimal(index);
    var p := PadZeros(d, 8);
    var r := BypassName(index);
    assert r[..|r| - |BYPASS_METHOD|] == p;
    if |d| < 8 {
      LeadingZerosIgnored(8 - |d|, d);
    }
    DecimalRoundTrip(index);
  }

  lemma BypassNameInjective(i: nat, j: nat)
    ensures BypassName(i) == BypassName(j) ==> i == j
  {
    BypassNameRoundTrip(i);
    BypassNameRoundTrip(j);
  }

  /** `createAdviceTableField`: a public static `AdviceApplier[]` field of the
      target named `getAdviceTableFieldName`. */
  const AdviceApplierType: Type :=
    Declared("org.jiemamy.utils.enhancer.helper.AdviceApplier", PUBLIC, ClassKind, TopLevel, None, Some(ObjectType), [])

  function AdviceTableField(target: Type): (f: Field)
    ensures f.declaring == target && f.name == ADVICE_TABLE_FIELD
    ensures f.fieldType == Array(AdviceApplierType)
    ensures Has(f.mods, PUBLIC) && Has(f.mods, STATIC) && !Has(f.mods, FINAL)
  {
    Field(target, ADVICE_TABLE_FIELD, Array(AdviceApplierType), PUBLIC | STATIC)
  }

  // ---------------------------------------------------------------------
  // Generated classes and members
  // ---------------------------------------------------------------------

  /** What a generated body does.  Bodies are javassist source text in the
      original; here each one is a tag naming its effect.  A call with
      `returnsValue` set returns what the call returns. */
  datatype Code =
    | ThrowAbstractMethodError(message: string)          // raises AbstractMethodError with the message
    | InvokeSuper(target: string, returnsValue: bool)     // calls the superclass's target with the same arguments
    | InvokeAdvice(holder: string, index: nat, returnsValue: bool)  // calls slot index of the table in holder on the receiver and arguments
    | DelegateToSuper                                     // passes the arguments to the superclass constructor

  /** A member added to a generated class, with its body. */
  datatype Member = Member(behaviour: Behaviour, code: Code)

  /** `isClassInitializer`: javassist names only the static initializer with
      a leading `<`; the model tells it apart by its kind. */
  predicate ClassInitializer(c: Behaviour) {
    c.kind == InitializerKind
  }

  /** The constructors `createDelegateConstructors` copies. */
  predicate Delegable(c: Behaviour) {
    Has(c.mods, PUBLIC) && !ClassInitializer(c)
  }

  /** The delegate of `c` declared on `enhanced`: same parameters and
      exceptions, public, passing its arguments on to `super`. */
  function DelegateOf(enhanced: Type, c: Behaviour): Member {
    Member(Behaviour(ConstructorKind, enhanced, "<init>", c.params, Primitive(VoidKind), PUBLIC, c.exceptions),
           DelegateToSuper)
  }

  /** The flags marking the constructors of `cs` that get a delegate. */
  function DelegableMask(cs: seq<Behaviour>): (r: seq<bool>)
    ensures |r| == |cs| && forall i :: 0 <= i < |cs| ==> (r[i] <==> Delegable(cs[i]))
  {
    seq(|cs|, i requires 0 <= i < |cs| => Delegable(cs[i]))
  }

  /** `createDelegateConstructors`: one delegate per public constructor of
      the superclass, in declaration order; private, protected and
      package-private constructors and the class initializer get none. */
  function DelegateConstructors(enhanced: Type, cs: seq<Behaviour>): (r: seq<Member>)
    ensures |r| <= |cs|
    ensures forall c :: c in cs && Delegable(c) ==> DelegateOf(enhanced, c) in r
    ensures forall d :: d in r ==> exists c :: c in cs && Delegable(c) && d == DelegateOf(enhanced, c)
    ensures var kept := Reflection.Select(cs, DelegableMask(cs));
            |r| == |kept| && forall i :: 0 <= i < |r| ==> r[i] == DelegateOf(enhanced, kept[i])
    decreases |cs|
  {
    if |cs| == 0 then []
    else
      var rest := DelegateConstructors(enhanced, cs[1..]);
      var r := (if Delegable(cs[0]) then [DelegateOf(enhanced, cs[0])] else []) + rest;
      DelegatesInOrder(enhanced, cs, rest);
      DelegatesFromKept(enhanced, cs, r);
      r
  }

  /** `r` delegates, in order, to the delegable constructors of `cs`. */
  ghost predicate DelegatesKept(enhanced: Type, cs: seq<Behaviour>, r: seq<Member>) {
    var kept := Reflection.Select(cs, DelegableMask(cs));
    |r| == |kept| && forall i :: 0 <= i < |r| ==> r[i] == DelegateOf(enhanced, kept[i])
  }

  /** One more constructor in front: a delegate for it, if it is delegable,
      in front of the delegates of the rest. */
  lemma DelegatesInOrder(enhanced: Type, cs: seq<Behaviour>, rest: seq<Member>)
    requires |cs| > 0 && DelegatesKept(enhanced, cs[1..], rest)
    ensures DelegatesKept(enhanced, cs, (if Delegable(cs[0]) then [DelegateOf(enhanced, cs[0])] else []) + rest)
  {
    var mask := DelegableMask(cs);
    assert mask[1..] == DelegableMask(cs[1..]);
    DelegatesPrepend(enhanced, cs, mask, rest);
  }

  /** `DelegatesInOrder` for any flags in place of `Delegable`. */
  lemma DelegatesPrepend(enhanced: Type, cs: seq<Behaviour>, mask: seq<bool>, rest: seq<Member>)
    requires |mask| == |cs| > 0
    requires var tail := Reflection.Select(cs[1..], mask[1..]);
             |rest| == |tail| && forall i :: 0 <= i < |rest| ==> rest[i] == DelegateOf(enhanced, tail[i])
    ensures var kept := Reflection.Select(cs, mask);
            var r := (if mask[0] then [DelegateOf(enhanced, cs[0])] else []) + rest;
            |r| == |kept| && forall i :: 0 <= i < |r| ==> r[i] == DelegateOf(enhanced, kept[i])
  {
    Reflection.SelectFront(cs, mask);
    var kept := Reflection.Select(cs, mask);
    var tail := Reflection.Select(cs[1..], mask[1..]);
    var r := (if mask[0] then [DelegateOf(enhanced, cs[0])] else []) + rest;
    if mask[0] {
      assert kept == [cs[0]] + tail;
      forall i | 0 < i < |r|
        ensures r[i] == DelegateOf(enhanced, kept[i])
      {
        assert r[i] == rest[i - 1] && kept[i] == tail[i - 1];
      }
    } else {
      assert kept == tail && r == rest;
    }
  }

  /** Delegates in order are delegates of delegable constructors, one for
      each of them. */
  lemma DelegatesFromKept(enhanced: Type, cs: seq<Behaviour>, r: seq<Member>)
    requires DelegatesKept(enhanced, cs, r)
    ensures |r| <= |cs|
    ensures forall c :: c in cs && Delegable(c) ==> DelegateOf(enhanced, c) in r
    ensures forall d :: d in r ==> exists c :: c in cs && Delegable(c) && d == DelegateOf(enhanced, c)
  {
    var mask := DelegableMask(cs);
    var kept := Reflection.Select(cs, mask);
    forall c | c in cs && Delegable(c)
      ensures DelegateOf(enhanced, c) in r
    {
      var i :| 0 <= i < |cs| && cs[i] == c;
      assert mask[i];
      var j :| 0 <= j < |kept| && kept[j] == c;
      assert r[j] == DelegateOf(enhanced, c);
    }
    forall d | d in r
      ensures exists c :: c in cs && Delegable(c) && d == DelegateOf(enhanced, c)
    {
      var j :| 0 <= j < |r| && r[j] == d;
      assert kept[j] in kept;
      var i :| 0 <= i < |cs| && mask[i] && cs[i] == kept[j];
    }
  }

  /** The constructors of one class differ in their parameters, so their
      delegates do too: no delegate is added twice. */
  lemma DelegatesDistinct(enhanced: Type, cs: seq<Behaviour>)
    requires Reflection.DistinctParams(cs)
    ensures Reflection.DistinctParams(Behaviours(DelegateConstructors(enhanced, cs)))
  {
    var r := DelegateConstructors(enhanced, cs);
    var kept := Reflection.Select(cs, DelegableMask(cs));
    Reflection.SelectDistinctParams(cs, DelegableMask(cs));
    var bs := Behaviours(r);
    forall i, j | 0 <= i < j < |bs|
      ensures bs[i].params != bs[j].params
    {
      assert bs[i].params == kept[i].params && bs[j].params == kept[j].params;
    }
  }

  /** The class `makeClass` creates for `createInheritedClass(klass)`: public
      and final, named by `EnhanceClassName`, extending `klass`. */
  function InheritedType(klass: Type): Type {
    Declared(EnhanceClassName(klass.Name()), PUBLIC | FINAL, ClassKind, TopLevel, None, Some(klass), [])
  }

  /** `createInheritedClass`.  The new class reports the methods it inherits
      and declares only the delegate constructors. */
  function CreateInheritedClass(klass: Option<ClassInfo>): (r: Result<(ClassInfo, seq<Member>)>)
    ensures klass.None? ==> r == Err(NullPointer("klass is null"))
    ensures klass.Some? && (klass.value.self.IsInterface() || klass.value.self.IsEnum())
            ==> r == Err(IllegalArgument(""))
    ensures r.Ok? <==> klass.Some? && !klass.value.self.IsInterface() && !klass.value.self.IsEnum()
    ensures r.Ok? ==> var (c, ctors) := r.value;
                      c.self.Name() == EnhanceClassName(klass.value.self.Name())
                      && SubclassOf(c.self, klass.value.self)
                      && c.self.Modifiers() == PUBLIC | FINAL
                      && ctors == DelegateConstructors(c.self, klass.value.constructors)
                      && |c.constructors| == |ctors|
                      && forall i :: 0 <= i < |ctors| ==> c.constructors[i] == ctors[i].behaviour
  {
    if klass.None? then Err(NullPointer("klass is null"))
    else if klass.value.self.IsInterface() || klass.value.self.IsEnum() then Err(IllegalArgument(""))
    else
      var t := InheritedType(klass.value.self);
      var ctors := DelegateConstructors(t, klass.value.constructors);
      Ok((ClassInfo(t, klass.value.methods, [], Behaviours(ctors), klass.value.fields, []), ctors))
  }

  function Behaviours(ms: seq<Member>): (r: seq<Behaviour>)
    ensures |r| == |ms| && forall i :: 0 <= i < |ms| ==> r[i] == ms[i].behaviour
  {
    seq(|ms|, i requires 0 <= i < |ms| => ms[i].behaviour)
  }

  /** Every product constructor the collector accepts has a delegate on the
      inherited class that takes the same parameters and is itself a legal
      constructor join point, so looking the delegate up by descriptor
      succeeds. */
  lemma InheritedKeepsEnhanceableConstructors(klass: ClassInfo, c: Behaviour)
    requires !klass.self.IsInterface() && !klass.self.IsEnum()
    requires c in klass.constructors && c.kind == ConstructorKind
    requires CanEnhanceProduct(Some(c)) == Ok(true)
    ensures exists d :: d in CreateInheritedClass(Some(klass)).value.0.constructors
                        && d.params == c.params && IsLegalConstructor(Some(d)) == Ok(true)
  {
    var (k, ctors) := CreateInheritedClass(Some(klass)).value;
    var d := DelegateOf(k.self, c);
    assert d in ctors;
    var i :| 0 <= i < |ctors| && ctors[i] == d;
    assert k.constructors[i] == d.behaviour;
  }

  /** `createCopyClass`: the same class under its generated name, made
      final; its members are kept as they are. */
  function CreateCopyClass(klass: Option<ClassInfo>): (r: Result<ClassInfo>)
    requires klass.Some? ==> klass.value.self.Declared?
    ensures klass.None? ==> r == Err(NullPointer("klass is null"))
    ensures klass.Some? && (klass.value.self.IsInterface() || klass.value.self.IsEnum())
            ==> r == Err(IllegalArgument(""))
    ensures r.Ok? <==> klass.Some? && !klass.value.self.IsInterface() && !klass.value.self.IsEnum()
    ensures r.Ok? ==> r.value.self.Declared?
                      && r.value.self.Name() == EnhanceClassName(klass.value.self.Name())
                      && r.value.self.Modifiers() == klass.value.self.Modifiers() | FINAL
                      && r.value.self.superclass == klass.value.self.superclass
                      && r.value.methods == klass.value.methods
                      && r.value.constructors == klass.value.constructors
  {
    if klass.None? then Err(NullPointer("klass is null"))
    else if klass.value.self.IsInterface() || klass.value.self.IsEnum() then Err(IllegalArgument(""))
    else
      var k := klass.value;
      Ok(k.(self := k.self.(name := EnhanceClassName(k.self.name), mods := k.self.mods | FINAL)))
  }

  /** `isDeclaredInClass(method, aClass)`: `aClass` has a method with the
      same name, parameters and return type.  The model looks among the
      non-private methods the class declares or inherits, where javassist's
      `getMethod` would also see a private method declared by the class
      itself; on the weaving path the two differ only when the superclass
      declares a private method with the descriptor of the woven one. */
  predicate DeclaresMethod(aClass: Option<ClassInfo>, m: Behaviour) {
    aClass.Some? && exists b :: b in aClass.value.methods && b.name == m.name && b.params == m.params
                                && b.returnType == m.returnType
  }

  /** `isVoid`. */
  predicate IsVoid(m: Behaviour) {
    m.returnType == Primitive(VoidKind)
  }

  /** `createBypassMethod(enhance, method, index)`: a public method of the
      enhanced class, named after the index, with the signature of `method`.
      When the superclass has no such method (an interface method nobody
      implements) it throws AbstractMethodError naming the method; otherwise
      it calls the superclass's method and returns its value unless void. */
  function BypassMethod(enhance: Type, parent: Option<ClassInfo>, m: Behaviour, index: nat): (r: Member)
    ensures r.behaviour.declaring == enhance && r.behaviour.kind == MethodKind
    ensures r.behaviour.name == BypassName(index) && r.behaviour.mods == PUBLIC
    ensures r.behaviour.params == m.params && r.behaviour.returnType == m.returnType
    ensures r.code.ThrowAbstractMethodError? <==> !DeclaresMethod(parent, m)
    ensures r.code.ThrowAbstractMethodError? ==> r.code.message == m.name
    ensures !r.code.ThrowAbstractMethodError? ==> r.code == InvokeSuper(m.name, !IsVoid(m))
  {
    var b := Behaviour(MethodKind, enhance, BypassName(index), m.params, m.returnType, PUBLIC, []);
    if !DeclaresMethod(parent, m) then Member(b, ThrowAbstractMethodError(m.name))
    else Member(b, InvokeSuper(m.name, !IsVoid(m)))
  }

  /** `createPointcutMethod(enhance, method, holder, index)`: overrides
      `method` on the enhanced class with a call through slot `index` of the
      advice table held in `holder`. */
  function PointcutMethod(enhance: Type, m: Behaviour, holder: Field, index: nat): (r: Member)
    ensures r.behaviour.declaring == enhance && r.behaviour.kind == MethodKind && r.behaviour.mods == PUBLIC
    ensures r.behaviour.name == m.name && r.behaviour.params == m.params && r.behaviour.returnType == m.returnType
    ensures r.code == InvokeAdvice(holder.name, index, !IsVoid(m))
  {
    Member(Behaviour(MethodKind, enhance, m.name, m.params, m.returnType, PUBLIC, []),
           InvokeAdvice(holder.name, index, !IsVoid(m)))
  }

  /** A bypass never collides with a method written in Java source: its name
      begins with a digit, which no Java identifier does.  Nor does it call
      into the advice table, so an overridden method and its bypass cannot
      call each other in a loop. */
  lemma BypassIsolated(enhance: Type, parent: Option<ClassInfo>, m: Behaviour, index: nat)
    ensures IsDigit(BypassMethod(enhance, parent, m, index).behaviour.name[0])
    ensures !BypassMethod(enhance, parent, m, index).code.InvokeAdvice?
  {
  }

  // ---------------------------------------------------------------------
  // Weaving the methods of products
  // ---------------------------------------------------------------------

  /** A product class to be enhanced: the original class, the generated one,
      and the generated class's superclass as javassist resolves it. */
  datatype Product = Product(base: ClassInfo, enhanced: ClassInfo, parent: ClassInfo)

  /** `findApplicableHandlers(self, b)` as a value. */
  function HandlersFor(m: Manager, o: Oracle, self: Type, b: Behaviour): seq<Handler> {
    HandlersAt(m.enhanceList, Positions(m.enhanceList, o, self, b))
  }

  /** A method `weavePointcutIntoSingleProduct` advises: a legal join point
      with at least one applicable handler. */
  predicate Advised(m: Manager, o: Oracle, self: Type, b: Behaviour) {
    IsLegalMethod(Some(b)) == Ok(true) && |HandlersFor(m, o, self, b)| > 0
  }

  /** The advised methods among `ms`, in order. */
  function AdvisedIn(m: Manager, o: Oracle, self: Type, ms: seq<Behaviour>): (r: seq<Behaviour>)
    ensures |r| <= |ms|
    ensures forall b :: b in r ==> b in ms && Advised(m, o, self, b)
    ensures forall b :: b in ms && Advised(m, o, self, b) ==> b in r
  {
    if |ms| == 0 then []
    else
      var front := AdvisedIn(m, o, self, ms[..|ms| - 1]);
      var last := ms[|ms| - 1];
      assert forall b :: b in ms ==> b in ms[..|ms| - 1] || b == last;
      if Advised(m, o, self, last) then front + [last] else front
  }

  /** The aspects weaving `adv` into product `p` yields: the `j`-th advised
      method is reached through the bypass numbered `j` and carries its
      applicable handlers. */
  function PlanFor(m: Manager, o: Oracle, p: Product, adv: seq<Behaviour>): (r: seq<Aspect>)
    ensures |r| == |adv|
  {
    seq(|adv|, j requires 0 <= j < |adv| =>
      Aspect(adv[j], BypassMethod(p.enhanced.self, Some(p.parent), adv[j], j).behaviour,
             HandlersFor(m, o, p.base.self, adv[j])))
  }

  /** The advised methods of a product. */
  function Advice(m: Manager, o: Oracle, p: Product): seq<Behaviour> {
    AdvisedIn(m, o, p.base.self, p.base.methods)
  }

  /** The members weaving `adv` adds: for the `j`-th advised method its
      bypass and then its overriding pointcut method, both numbered `j`. */
  function MembersFor(p: Product, holder: Field, adv: seq<Behaviour>): (r: seq<Member>)
    ensures |r| == 2 * |adv|
  {
    seq(2 * |adv|, i requires 0 <= i < 2 * |adv| => MemberAt(p, holder, adv, i))
  }

  /** The member at position `i` of `MembersFor`: even positions hold bypasses,
      odd positions pointcut methods, both numbered by the advised method. */
  function MemberAt(p: Product, holder: Field, adv: seq<Behaviour>, i: nat): Member
    requires i < 2 * |adv|
  {
    var j := i / 2;
    if i % 2 == 0 then BypassMethod(p.enhanced.self, Some(p.parent), adv[j], j)
    else PointcutMethod(p.enhanced.self, adv[j], holder, j)
  }

  /** Position `2j` holds the bypass and `2j + 1` the pointcut method of the
      `j`-th advised method. */
  lemma MembersForAt(p: Product, holder: Field, adv: seq<Behaviour>, j: nat)
    requires j < |adv|
    ensures MembersFor(p, holder, adv)[2 * j] == BypassMethod(p.enhanced.self, Some(p.parent), adv[j], j)
    ensures MembersFor(p, holder, adv)[2 * j + 1] == PointcutMethod(p.enhanced.self, adv[j], holder, j)
  {
    assert (2 * j) / 2 == j && (2 * j) % 2 == 0;
    assert (2 * j + 1) / 2 == j && (2 * j + 1) % 2 == 1;
  }

  lemma AdvisedInStep(m: Manager, o: Oracle, self: Type, ms: seq<Behaviour>, i: nat)
    requires i < |ms|
    ensures AdvisedIn(m, o, self, ms[..i + 1])
            == AdvisedIn(m, o, self, ms[..i]) + (if Advised(m, o, self, ms[i]) then [ms[i]] else [])
  {
    assert ms[..i + 1][..i] == ms[..i];
  }

  lemma PlanForStep(m: Manager, o: Oracle, p: Product, adv: seq<Behaviour>, b: Behaviour)
    ensures PlanFor(m, o, p, adv + [b])
            == PlanFor(m, o, p, adv) + [Aspect(b, BypassMethod(p.enhanced.self, Some(p.parent), b, |adv|).behaviour,
                                               HandlersFor(m, o, p.base.self, b))]
  {
    var l := PlanFor(m, o, p, adv + [b]);
    var r := PlanFor(m, o, p, adv) + [Aspect(b, BypassMethod(p.enhanced.self, Some(p.parent), b, |adv|).behaviour,
                                             HandlersFor(m, o, p.base.self, b))];
    assert |l| == |r|;
    forall j | 0 <= j < |l| ensures l[j] == r[j] {
      if j < |adv| {
        assert (adv + [b])[j] == adv[j];
      }
    }
  }

  lemma MembersForStep(p: Product, holder: Field, adv: seq<Behaviour>, b: Behaviour)
    ensures MembersFor(p, holder, adv + [b])
            == MembersFor(p, holder, adv)
               + [BypassMethod(p.enhanced.self, Some(p.parent), b, |adv|), PointcutMethod(p.enhanced.self, b, holder, |adv|)]
  {
    var l := MembersFor(p, holder, adv + [b]);
    var r := MembersFor(p, holder, adv)
             + [BypassMethod(p.enhanced.self, Some(p.parent), b, |adv|), PointcutMethod(p.enhanced.self, b, holder, |adv|)];
    forall i | 0 <= i < |l| ensures l[i] == r[i] {
      if i < 2 * |adv| {
        assert (adv + [b])[i / 2] == adv[i / 2];
      } else {
        assert i / 2 == |adv|;
      }
    }
  }

  /** `weavePointcutIntoSingleProduct(manager, base, enhance)`.  The advised
      methods of the base class, in `getMethods()` order, receive the indices
      0, 1, ... in turn; the advice-table field is created once, at the first
      of them; nothing is returned when no method is advised. */
  method WeaveSingleProduct(m: Manager, o: Oracle, p: Product)
    returns (r: Option<AspectList>, fields: seq<Field>, members: seq<Member>)
    ensures r.None? <==> |Advice(m, o, p)| == 0
    ensures r.Some? ==> r.value == AspectList(AdviceTableField(p.enhanced.self), PlanFor(m, o, p, Advice(m, o, p)))
    ensures fields == if r.Some? then [AdviceTableField(p.enhanced.self)] else []
    ensures members == MembersFor(p, AdviceTableField(p.enhanced.self), Advice(m, o, p))
  {
    var ms := p.base.methods;
    var holderField := AdviceTableField(p.enhanced.self);
    var results: seq<Aspect> := [];
    var holder: Option<Field> := None;
    fields := [];
    members := [];
    ghost var adv: seq<Behaviour> := [];
    var i := 0;
    while i < |ms|
      invariant 0 <= i <= |ms|
      invariant adv == AdvisedIn(m, o, p.base.self, ms[..i])
      invariant Woven(m, o, p, adv, results, members)
      invariant holder.Some? <==> |results| > 0
      invariant holder.Some? ==> holder.value == holderField
      invariant fields == if |results| > 0 then [holderField] else []
    {
      AdvisedInStep(m, o, p.base.self, ms, i);
      var woven := WeaveMethod(m, o, p, ms[i], |results|);
      if woven.Some? {
        if |results| == 0 {
          // the first advised method also creates the advice-table field
          holder := Some(holderField);
          fields := [holderField];
        }
        WovenStep(m, o, p, adv, results, members, ms[i], woven.value);
        members := members + [woven.value.0, woven.value.1];
        results := results + [woven.value.2];
        adv := adv + [ms[i]];
      }
      i := i + 1;
    }
    assert ms[..i] == ms;
    if |results| == 0 {
      return None, fields, members;
    }
    return Some(AspectList(holder.value, results)), fields, members;
  }

  /** `results` and `members` are what weaving the advised methods `adv`
      has produced so far. */
  predicate Woven(m: Manager, o: Oracle, p: Product, adv: seq<Behaviour>, results: seq<Aspect>, members: seq<Member>) {
    results == PlanFor(m, o, p, adv) && members == MembersFor(p, AdviceTableField(p.enhanced.self), adv)
  }

  lemma WovenStep(m: Manager, o: Oracle, p: Product, adv: seq<Behaviour>, results: seq<Aspect>, members: seq<Member>,
                  b: Behaviour, w: (Member, Member, Aspect))
    requires Woven(m, o, p, adv, results, members)
    requires w.0 == BypassMethod(p.enhanced.self, Some(p.parent), b, |adv|)
    requires w.1 == PointcutMethod(p.enhanced.self, b, AdviceTableField(p.enhanced.self), |adv|)
    requires w.2 == Aspect(b, w.0.behaviour, HandlersFor(m, o, p.base.self, b))
    ensures Woven(m, o, p, adv + [b], results + [w.2], members + [w.0, w.1])
  {
    PlanForStep(m, o, p, adv, b);
    MembersForStep(p, AdviceTableField(p.enhanced.self), adv, b);
  }

  /** One round of the weaving loop: a method that is not advised is
      skipped; an advised one gets a bypass and a pointcut method numbered
      `index`, and an aspect. */
  method WeaveMethod(m: Manager, o: Oracle, p: Product, b: Behaviour, index: nat)
    returns (r: Option<(Member, Member, Aspect)>)
    ensures r.Some? <==> Advised(m, o, p.base.self, b)
    ensures r.Some? ==> r.value.0 == BypassMethod(p.enhanced.self, Some(p.parent), b, index)
                        && r.value.1 == PointcutMethod(p.enhanced.self, b, AdviceTableField(p.enhanced.self), index)
                        && r.value.2 == Aspect(b, r.value.0.behaviour, HandlersFor(m, o, p.base.self, b))
  {
    var legal := IsLegalMethod(Some(b));
    if !legal.value {
      return None;
    }
    var handlers := FindApplicableHandlers(m, o, Some(p.base.self), Some(b));
    if |handlers.value| == 0 {
      return None;
    }
    var bypass := BypassMethod(p.enhanced.self, Some(p.parent), b, index);
    var pointcut := PointcutMethod(p.enhanced.self, b, AdviceTableField(p.enhanced.self), index);
    return Some((bypass, pointcut, Aspect(b, bypass.behaviour, handlers.value)));
  }

  /** The woven pieces fit together: the pointcut method numbered `j` calls
      slot `j` of the field the table is registered under, and slot `j` of
      that table runs the handlers of the `j`-th advised method around its
      bypass, whose name gives back `j`. */
  lemma WovenSlotsAgree(m: Manager, o: Oracle, p: Product, j: nat)
    requires j < |Advice(m, o, p)|
    ensures var holder := AdviceTableField(p.enhanced.self);
            var l := AspectList(holder, PlanFor(m, o, p, Advice(m, o, p)));
            var reg := Register(TableFor(l, MethodCall));
            var adv := Advice(m, o, p)[j];
            MembersFor(p, holder, Advice(m, o, p))[2 * j + 1].code == InvokeAdvice(reg.fieldName, j, !IsVoid(adv))
            && j < |reg.table|
            && reg.table[j].handlers == HandlersFor(m, o, p.base.self, adv)
            && |reg.table[j].handlers| > 0
            && reg.table[j].definition == Definition(MethodCall, adv, MembersFor(p, holder, Advice(m, o, p))[2 * j].behaviour)
            && BypassIndex(reg.table[j].definition.actual.name) == Some(j)
  {
    var adv := Advice(m, o, p)[j];
    assert adv in Advice(m, o, p);
    MembersForAt(p, AdviceTableField(p.enhanced.self), Advice(m, o, p), j);
    BypassNameRoundTrip(j);
  }

  /** `weavePointcutIntoAllProducts`: each product is woven on its own, and
      exactly the products with at least one advised method appear in the
      result. */
  method WeaveAllProducts(m: Option<Manager>, o: Oracle, products: Option<map<Type, Product>>)
    returns (r: Result<map<Type, AspectList>>)
    ensures m.None? ==> r == Err(NullPointer("enhanceManager is null"))
    ensures m.Some? && products.None? ==> r == Err(NullPointer("productsToBeEnhanced is null"))
    ensures r.Ok? <==> m.Some? && products.Some?
    ensures r.Ok? ==> forall b :: b in r.value <==> b in products.value && |Advice(m.value, o, products.value[b])| > 0
    ensures r.Ok? ==> forall b :: b in r.value ==>
              r.value[b] == AspectList(AdviceTableField(products.value[b].enhanced.self),
                                       PlanFor(m.value, o, products.value[b], Advice(m.value, o, products.value[b])))
  {
    if m.None? {
      return Err(NullPointer("enhanceManager is null"));
    }
    if products.None? {
      return Err(NullPointer("productsToBeEnhanced is null"));
    }
    var ps := products.value;
    var todo := ps.Keys;
    var acc: map<Type, AspectList> := map[];
    while todo != {}
      invariant todo <= ps.Keys
      invariant forall b :: b in acc <==> b in ps && b !in todo && |Advice(m.value, o, ps[b])| > 0
      invariant forall b :: b in acc ==>
                  acc[b] == AspectList(AdviceTableField(ps[b].enhanced.self),
                                       PlanFor(m.value, o, ps[b], Advice(m.value, o, ps[b])))
      decreases |todo|
    {
      var b :| b in todo;
      var aspects, _, _ := WeaveSingleProduct(m.value, o, ps[b]);
      if aspects.Some? {
        acc := acc[b := aspects.value];
      }
      todo := todo - {b};
    }
    return Ok(acc);
  }

  // ---------------------------------------------------------------------
  // Rewriting instance creation
  // ---------------------------------------------------------------------

  /** A `new` expression: the behaviour it occurs in and the constructor it
      calls. */
  datatype Site = Site(context: Behaviour, callee: Behaviour)

  /** What the advice receives as its `this`: the declaring class object in
      a static context, the current object otherwise. */
  datatype Receiver = ThisObject | ClassObject(className: string)

  /** The expression that replaces a `new`: the result of
      `holder[index].invoke(receiver, $args)`, cast to `resultType`. */
  datatype Replacement = Replacement(resultType: string, holder: string, index: nat, receiver: Receiver)

  /** `replaceToPointcut(target, resultType, holder, index)`: the arguments are
      checked in order; the replacement calls slot `index` of the holder
      field, and only a static context passes a class object. */
  function ReplaceToPointcut(target: Option<Site>, resultType: Option<Type>, holder: Option<Field>, index: nat)
    : (r: Result<Replacement>)
    ensures target.None? ==> r == Err(NullPointer("target is null"))
    ensures target.Some? && resultType.None? ==> r == Err(NullPointer("resultType is null"))
    ensures target.Some? && resultType.Some? && holder.None? ==> r == Err(NullPointer("holder is null"))
    ensures r.Ok? <==> target.Some? && resultType.Some? && holder.Some?
    ensures r.Ok? ==> r.value.holder == holder.value.name && r.value.index == index
                      && r.value.resultType == resultType.value.Name()
                      && r.value.receiver == ReceiverIn(target.value.context)
  {
    if target.None? then Err(NullPointer("target is null"))
    else if resultType.None? then Err(NullPointer("resultType is null"))
    else if holder.None? then Err(NullPointer("holder is null"))
    else Ok(Replacement(resultType.value.Name(), holder.value.name, index, ReceiverIn(target.value.context)))
  }

  /** The receiver a `new` inside `context` passes to its advice. */
  function ReceiverIn(context: Behaviour): (r: Receiver)
    ensures r.ClassObject? <==> Has(context.mods, STATIC)
    ensures r.ClassObject? ==> r.className == context.declaring.Name()
  {
    if Has(context.mods, STATIC) then ClassObject(context.declaring.Name()) else ThisObject
  }

  // ---------------------------------------------------------------------
  // Installing
  // ---------------------------------------------------------------------

  /** Stands for the `JavassistConverter` that turns generated classes into
      loaded ones; only its presence matters here. */
  datatype Converter = Converter

  /** What installing does, in order: load a generated class into the VM
      (`toClass`), or store an advice table into a loaded class's holder
      field (`registerAdviceTable`). */
  datatype Step = Load(klass: Type) | Initialize(klass: Type, registration: Registration)

  /** The two steps for a product that carries aspects, at positions `i`
      and `i + 1`: load it, then fill its advice table. */
  predicate PairAt(s: seq<Step>, i: nat, p: Product, l: AspectList) {
    i + 1 < |s| && s[i] == Load(p.enhanced.self) && s[i + 1] == Initialize(p.enhanced.self, Register(TableFor(l, MethodCall)))
  }

  /** `loadAndInitializeProducts`: every product with aspects is loaded and
      initialised, in the map's iteration order; the others are returned
      untouched.  Every aspect key names a product, as the source's
      documented precondition demands. */
  method LoadAndInitializeProducts(products: map<Type, Product>, aspects: map<Type, AspectList>)
    returns (rest: map<Type, Product>, order: seq<Type>, steps: seq<Step>)
    requires aspects.Keys <= products.Keys
    ensures forall b :: b in rest <==> b in products && b !in aspects
    ensures forall b :: b in rest ==> rest[b] == products[b]
    ensures forall b :: b in order <==> b in aspects
    ensures forall i, j :: 0 <= i < j < |order| ==> order[i] != order[j]
    ensures |steps| == 2 * |order|
    ensures forall j :: 0 <= j < |order| ==> PairAt(steps, 2 * j, products[order[j]], aspects[order[j]])
  {
    rest := products;
    order := [];
    steps := [];
    var todo := aspects.Keys;
    while todo != {}
      invariant Installing(products, aspects, todo, rest, order)
      invariant |steps| == 2 * |order|
      invariant forall j :: 0 <= j < |order| ==> PairAt(steps, 2 * j, products[order[j]], aspects[order[j]])
      decreases |todo|
    {
      var b :| b in todo;
      InstallStep(products, aspects, todo, rest, order, b);
      var enhanced := rest[b];
      rest := rest - {b};
      var pair := [Load(enhanced.enhanced.self),
                   Initialize(enhanced.enhanced.self, Register(TableFor(aspects[b], MethodCall)))];
      PairsExtend(steps, pair, products, aspects, order, b);
      steps := steps + pair;
      order := order + [b];
      todo := todo - {b};
    }
  }

  /** The bookkeeping of `loadAndInitializeProducts` while the classes in
      `todo` are still to be installed. */
  ghost predicate Installing(products: map<Type, Product>, aspects: map<Type, AspectList>, todo: set<Type>,
                             rest: map<Type, Product>, order: seq<Type>) {
    aspects.Keys <= products.Keys && todo <= aspects.Keys
    && (forall b :: b in rest <==> b in products && (b in todo || b !in aspects))
    && (forall b :: b in rest ==> rest[b] == products[b])
    && (forall b :: b in order <==> b in aspects && b !in todo)
    && (forall i, j :: 0 <= i < j < |order| ==> order[i] != order[j])
  }

  /** Installing `b` moves it from `todo` to the end of `order` and out of
      `rest`. */
  lemma InstallStep(products: map<Type, Product>, aspects: map<Type, AspectList>, todo: set<Type>,
                    rest: map<Type, Product>, order: seq<Type>, b: Type)
    requires Installing(products, aspects, todo, rest, order) && b in todo
    ensures b in rest && rest[b] == products[b]
    ensures forall k :: k in order ==> k in products && k in aspects
    ensures Installing(products, aspects, todo - {b}, rest - {b}, order + [b])
  {
    var order' := order + [b];
    assert b !in order;
    forall i, j | 0 <= i < j < |order'| ensures order'[i] != order'[j] {
      if j < |order| {
        assert order'[i] == order[i] && order'[j] == order[j];
      } else {
        assert order'[i] == order[i] && order'[i] in order;
      }
    }
  }

  lemma PairsExtend(steps: seq<Step>, pair: seq<Step>, products: map<Type, Product>, aspects: map<Type, AspectList>,
                    order: seq<Type>, b: Type)
    requires forall k :: k in order ==> k in products && k in aspects
    requires b in products && b in aspects
    requires |steps| == 2 * |order|
    requires forall j :: 0 <= j < |order| ==> PairAt(steps, 2 * j, products[order[j]], aspects[order[j]])
    requires pair == [Load(products[b].enhanced.self), Initialize(products[b].enhanced.self, Register(TableFor(aspects[b], MethodCall)))]
    ensures forall j :: 0 <= j < |order + [b]| ==>
              PairAt(steps + pair, 2 * j, products[(order + [b])[j]], aspects[(order + [b])[j]])
  {
    forall j | 0 <= j < |order + [b]|
      ensures PairAt(steps + pair, 2 * j, products[(order + [b])[j]], aspects[(order + [b])[j]])
    {
      if j < |order| {
        assert (order + [b])[j] == order[j];
        assert PairAt(steps, 2 * j, products[order[j]], aspects[order[j]]);
      }
    }
  }

  /** The first `n` steps of `s` install the products: each product is
      loaded there, each product with aspects has its pair of steps there,
      and nothing else happens there. */
  predicate ProductsInstalled(ps: map<Type, Product>, pa: map<Type, AspectList>, s: seq<Step>, n: nat) {
    pa.Keys <= ps.Keys && n <= |s|
    && (forall b :: b in ps ==> exists i :: 0 <= i < n && s[i] == Load(ps[b].enhanced.self))
    && (forall b :: b in pa ==> exists i :: 0 <= i < n && PairAt(s, i, ps[b], pa[b]))
    && (forall i :: 0 <= i < n ==> ProductStep(ps, pa, s[i]))
  }

  /** `install`: the products with aspects are loaded and initialised, then
      the remaining products are loaded, then the factory is loaded and, if
      it carries aspects, its own table is filled.  So every product class
      exists in the VM before the factory that instantiates it. */
  method Install(converter: Option<Converter>, factory: Option<Type>, products: Option<map<Type, Product>>,
                 factoryAspects: Option<AspectList>, productAspects: Option<map<Type, AspectList>>)
    returns (r: Result<seq<Step>>)
    requires products.Some? && productAspects.Some? ==> productAspects.value.Keys <= products.value.Keys
    ensures converter.None? ==> r == Err(NullPointer("converter is null"))
    ensures converter.Some? && factory.None? ==> r == Err(NullPointer("targetFactory is null"))
    ensures converter.Some? && factory.Some? && products.None? ==> r == Err(NullPointer("targetProducts is null"))
    ensures converter.Some? && factory.Some? && products.Some? && productAspects.None?
            ==> r == Err(NullPointer("allProductAspects is null"))
    ensures r.Ok? <==> converter.Some? && factory.Some? && products.Some? && productAspects.Some?
    ensures r.Ok? ==> var s := r.value;
                      var t := if factoryAspects.Some? then 2 else 1;
                      |s| >= t && s[|s| - t] == Load(factory.value)
                      && (factoryAspects.Some? ==> s[|s| - 1] == Initialize(factory.value,
                                                     Register(TableFor(factoryAspects.value, ConstructorCall))))
                      && ProductsInstalled(products.value, productAspects.value, s, |s| - t)
  {
    if converter.None? {
      return Err(NullPointer("converter is null"));
    }
    if factory.None? {
      return Err(NullPointer("targetFactory is null"));
    }
    if products.None? {
      return Err(NullPointer("targetProducts is null"));
    }
    if productAspects.None? {
      return Err(NullPointer("allProductAspects is null"));
    }
    var ps := products.value;
    var pa := productAspects.value;
    var rest, order, steps := LoadAndInitializeProducts(ps, pa);
    InitializedSteps(ps, pa, order, steps);
    var loaded := LoadRest(ps, pa, rest, steps);
    InstalledBeforeFactory(ps, pa, rest, order, steps, loaded);
    var tail := [Load(factory.value)]
                + (if factoryAspects.Some? then [Initialize(factory.value, Register(TableFor(factoryAspects.value, ConstructorCall)))] else []);
    InstalledPrefix(ps, pa, loaded, tail);
    return Ok(loaded + tail);
  }

  /** The loop of `install` over the products without aspects: each is
      loaded, after the steps already taken. */
  method LoadRest(ps: map<Type, Product>, pa: map<Type, AspectList>, rest: map<Type, Product>, steps: seq<Step>)
    returns (loaded: seq<Step>)
    requires forall b :: b in rest ==> b in ps && rest[b] == ps[b]
    requires forall i :: 0 <= i < |steps| ==> ProductStep(ps, pa, steps[i])
    ensures |loaded| >= |steps| && loaded[..|steps|] == steps
    ensures forall b :: b in rest ==> exists i :: |steps| <= i < |loaded| && loaded[i] == Load(ps[b].enhanced.self)
    ensures forall i :: 0 <= i < |loaded| ==> ProductStep(ps, pa, loaded[i])
  {
    loaded := steps;
    var todo := rest.Keys;
    while todo != {}
      invariant todo <= rest.Keys
      invariant |loaded| >= |steps| && loaded[..|steps|] == steps
      invariant forall b :: b in rest && b !in todo ==>
                  exists i :: |steps| <= i < |loaded| && loaded[i] == Load(ps[b].enhanced.self)
      invariant forall i :: 0 <= i < |loaded| ==> ProductStep(ps, pa, loaded[i])
      decreases |todo|
    {
      var b :| b in todo;
      assert ProductStep(ps, pa, Load(rest[b].enhanced.self));
      ghost var prev := loaded;
      loaded := loaded + [Load(rest[b].enhanced.self)];
      assert forall i :: 0 <= i < |prev| ==> loaded[i] == prev[i];
      assert loaded[|prev|] == Load(ps[b].enhanced.self);
      todo := todo - {b};
    }
  }

  lemma InstalledBeforeFactory(ps: map<Type, Product>, pa: map<Type, AspectList>, rest: map<Type, Product>,
                               order: seq<Type>, steps: seq<Step>, loaded: seq<Step>)
    requires pa.Keys <= ps.Keys
    requires forall b :: b in rest <==> b in ps && b !in pa
    requires forall b :: b in order <==> b in pa
    requires |steps| == 2 * |order|
    requires forall j :: 0 <= j < |order| ==> PairAt(steps, 2 * j, ps[order[j]], pa[order[j]])
    requires |loaded| >= |steps| && loaded[..|steps|] == steps
    requires forall b :: b in rest ==> exists i :: |steps| <= i < |loaded| && loaded[i] == Load(ps[b].enhanced.self)
    requires forall i :: 0 <= i < |loaded| ==> ProductStep(ps, pa, loaded[i])
    ensures ProductsInstalled(ps, pa, loaded, |loaded|)
  {
    forall b | b in pa
      ensures exists i :: 0 <= i < |loaded| && PairAt(loaded, i, ps[b], pa[b])
    {
      var j :| 0 <= j < |order| && order[j] == b;
      assert PairAt(steps, 2 * j, ps[b], pa[b]);
      assert loaded[2 * j] == steps[2 * j] && loaded[2 * j + 1] == steps[2 * j + 1];
      assert PairAt(loaded, 2 * j, ps[b], pa[b]);
    }
    forall b | b in ps
      ensures exists i :: 0 <= i < |loaded| && loaded[i] == Load(ps[b].enhanced.self)
    {
      if b in pa {
        var i :| 0 <= i < |loaded| && PairAt(loaded, i, ps[b], pa[b]);
        assert loaded[i] == Load(ps[b].enhanced.self);
      }
    }
  }

  lemma InstalledPrefix(ps: map<Type, Product>, pa: map<Type, AspectList>, loaded: seq<Step>, tail: seq<Step>)
    requires ProductsInstalled(ps, pa, loaded, |loaded|)
    ensures ProductsInstalled(ps, pa, loaded + tail, |loaded|)
  {
    var s := loaded + tail;
    forall b | b in pa
      ensures exists i :: 0 <= i < |loaded| && PairAt(s, i, ps[b], pa[b])
    {
      var i :| 0 <= i < |loaded| && PairAt(loaded, i, ps[b], pa[b]);
      assert s[i] == loaded[i] && s[i + 1] == loaded[i + 1];
      assert PairAt(s, i, ps[b], pa[b]);
    }
    forall b | b in ps
      ensures exists i :: 0 <= i < |loaded| && s[i] == Load(ps[b].enhanced.self)
    {
      var i :| 0 <= i < |loaded| && loaded[i] == Load(ps[b].enhanced.self);
      assert s[i] == loaded[i];
    }
    forall i | 0 <= i < |loaded|
      ensures ProductStep(ps, pa, s[i])
    {
      assert s[i] == loaded[i];
    }
  }

  /** Every step of loading the products with aspects concerns one of the
      products, and each of them has its pair of steps. */
  lemma InitializedSteps(ps: map<Type, Product>, pa: map<Type, AspectList>, order: seq<Type>, steps: seq<Step>)
    requires pa.Keys <= ps.Keys
    requires forall b :: b in order <==> b in pa
    requires |steps| == 2 * |order|
    requires forall j :: 0 <= j < |order| ==> PairAt(steps, 2 * j, ps[order[j]], pa[order[j]])
    ensures forall i :: 0 <= i < |steps| ==> ProductStep(ps, pa, steps[i])
  {
    forall i | 0 <= i < |steps|
      ensures ProductStep(ps, pa, steps[i])
    {
      var j := i / 2;
      assert PairAt(steps, 2 * j, ps[order[j]], pa[order[j]]);
      assert order[j] in ps;
      if i == 2 * j {
        assert steps[i].klass == ps[order[j]].enhanced.self;
      } else {
        assert i == 2 * j + 1;
        assert steps[i].klass == ps[order[j]].enhanced.self;
      }
    }
  }

  /** A step that belongs to installing the products. */
  predicate ProductStep(products: map<Type, Product>, aspects: map<Type, AspectList>, s: Step) {
    exists b :: b in products && s.klass == products[b].enhanced.self
                && (s.Initialize? ==> b in aspects && s.registration == Register(TableFor(aspects[b], MethodCall)))
  }
}
