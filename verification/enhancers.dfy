/** The two public front ends.  `FactoryEnhancer` enhances an existing
    factory class and the products it instantiates; `InterfaceEnhancer`
    implements a factory interface over a common product superclass.  Both
    validate their configuration when constructed and compute the enhanced
    factory at most once.
 */
module Enhancers {
  import opened Wrappers
  import opened Types
  import opened Pointcuts
  import Reflection
  import opened EnhanceManager
  import opened Aspects
  import opened Accessibility
  import opened Manipulator
  import opened Collector
  import opened NewInstance

  // ---------------------------------------------------------------------
  // Compute once
  // ---------------------------------------------------------------------

  /** What an enhancer holds between calls: the weaving tools, dropped once
      the enhanced factory exists, and that factory. */
  datatype WeaveState = WeaveState(manager: Option<Manager>, converter: Option<Converter>, result: Option<Type>)

  /** `getEnhanced()` / `getImplemtation()`: with no cached result, take the
      outcome of preparing the factory; on success cache it and drop the
      weaving tools; on failure keep everything as it was.  A success is
      therefore final: the state it leaves answers every later call with the
      same class, whatever preparing would then produce. */
  function ComputeOnce(s: WeaveState, outcome: Result<Type>): (r: (WeaveState, Result<Type>))
    ensures s.result.Some? ==> r == (s, Ok(s.result.value))
    ensures s.result.None? ==> r.1 == outcome
    ensures s.result.None? && outcome.Ok? ==> r.0.manager.None? && r.0.converter.None?
    ensures r.1.Ok? ==> r.0.result == Some(r.1.value)
    ensures outcome.Err? ==> r.0 == s
  {
    if s.result.Some? then (s, Ok(s.result.value))
    else if outcome.Err? then (s, outcome)
    else (WeaveState(None, None, Some(outcome.value)), outcome)
  }

  // ---------------------------------------------------------------------
  // FactoryEnhancer
  // ---------------------------------------------------------------------

  /** `Class.getSuperclass()`: arrays extend Object, primitives nothing. */
  function SuperclassOf(t: Type): Option<Type> {
    match t
    case Primitive(_) => None
    case Array(_) => Some(ObjectType)
    case Declared(_, _, _, _, _, sc, _) => sc
  }

  datatype FactoryEnhancer = FactoryEnhancer(factoryInterface: Type, factoryImplementation: Type, state: WeaveState)

  /** The constraints the constructor puts on the factory pair. */
  predicate FactoryPairOk(i: Type, c: Type) {
    i.IsInterface() && !i.IsAnnotation()
    && !c.IsInterface() && !c.IsEnum()
    && SubtypeOf(c, i)
    && SuperclassOf(c) == Some(ObjectType)
    && Has(c.Modifiers(), PUBLIC) && !Has(c.Modifiers(), ABSTRACT)
  }

  /** The first constraint the pair breaks, as the constructor reports it. */
  function FactoryPairError(i: Type, c: Type): (r: Option<Error>)
    ensures r.None? <==> FactoryPairOk(i, c)
    ensures r.Some? ==> r.value.IllegalArgument?
  {
    if !i.IsInterface() || i.IsAnnotation() then Some(IllegalArgument(i.Name() + " must be a interface"))
    else if c.IsInterface() || c.IsEnum() then Some(IllegalArgument(c.Name() + " must be a class"))
    else if !SubtypeOf(c, i) then Some(IllegalArgument(c.Name() + " does not implement " + i.Name()))
    else if SuperclassOf(c) != Some(ObjectType) then
      Some(IllegalArgument(c.Name() + " is not a direct subclass of " + ObjectType.Name()))
    else if !Has(c.Modifiers(), PUBLIC) then Some(IllegalArgument(c.Name() + " is not a public class"))
    else if Has(c.Modifiers(), ABSTRACT) then Some(IllegalArgument(c.Name() + " is an abstract class"))
    else None
  }

  /** The `FactoryEnhancer(factoryInterface, factoryImplementation,
      enhanceList)` constructor: null arguments first, then the pair, then
      the enhancement list itself. */
  function NewFactoryEnhancer(i: Option<Type>, c: Option<Type>, list: Option<seq<Option<Enhance>>>)
    : (r: Result<FactoryEnhancer>)
    ensures i.None? ==> r == Err(NullPointer("factoryInterface"))
    ensures i.Some? && c.None? ==> r == Err(NullPointer("factoryImplementation"))
    ensures i.Some? && c.Some? && list.None? ==> r == Err(NullPointer("enhanceList"))
    ensures i.Some? && c.Some? && list.Some? && !FactoryPairOk(i.value, c.value) ==> r.Err? && r.error.IllegalArgument?
    ensures r.Ok? <==> i.Some? && c.Some? && list.Some? && FactoryPairOk(i.value, c.value)
                       && forall k :: 0 <= k < |list.value| ==> list.value[k].Some?
    ensures r.Ok? ==> r.value.factoryInterface == i.value && r.value.factoryImplementation == c.value
                      && r.value.state == WeaveState(Some(MakeManager(list).value), Some(Converter), None)
  {
    if i.None? then Err(NullPointer("factoryInterface"))
    else if c.None? then Err(NullPointer("factoryImplementation"))
    else if list.None? then Err(NullPointer("enhanceList"))
    else if FactoryPairError(i.value, c.value).Some? then Err(FactoryPairError(i.value, c.value).value)
    else
      var m :- MakeManager(list);
      Ok(FactoryEnhancer(i.value, c.value, WeaveState(Some(m), Some(Converter), None)))
  }

  /** An accepted implementation is a normal class: none of the checks
      names primitives and arrays, but no primitive implements an interface,
      and an array type, which implements Cloneable, is abstract. */
  lemma AcceptedImplementationIsNormal(i: Type, c: Type)
    requires FactoryPairOk(i, c)
    ensures Reflection.IsNormalClass(Some(c)) == Ok(true)
  {
    assert i != ObjectType;
  }

  /** The classes of a consistent class pool describe themselves. */
  ghost predicate PoolConsistent(classes: Type -> ClassInfo) {
    forall t :: classes(t).self == t
  }

  /** A product class may be subclassed. */
  predicate Inheritable(t: Type) {
    !t.IsInterface() && !t.IsEnum()
  }

  /** The subclass `createInheritedClass` makes for a product. */
  function InheritedClassOf(k: ClassInfo): ClassInfo
    requires Inheritable(k.self)
  {
    CreateInheritedClass(Some(k)).value.0
  }

  /** `createProductMap(enhance)`: every product the collector finds in the
      factory, mapped to a new subclass of itself; the product is its own
      enhanced class's parent. */
  method CreateProductMap(m: Manager, o: Oracle, enhance: Type, classes: Type -> ClassInfo, sites: seq<Site>)
    returns (r: Result<map<Type, Product>>, ghost collected: seq<Type>, ghost at: seq<nat>)
    requires PoolConsistent(classes)
    ensures Collected(m, o, classes, sites, |sites|, collected, at)
    ensures r.Ok? <==> forall k :: 0 <= k < |collected| ==> Inheritable(collected[k])
    ensures r.Err? ==> r.error == IllegalArgument("")
    ensures r.Ok? ==> (forall b :: b in r.value <==> b in collected)
                      && forall b :: b in r.value ==>
                           Inheritable(b) && r.value[b] == Product(classes(b), InheritedClassOf(classes(b)), classes(b))
  {
    var targets;
    targets, at := Collect(Some(enhance), Some(m), o, classes, sites);
    var ts := targets.value;
    collected := ts;
    r := MapProducts(classes, ts);
  }

  /** The loop of `createProductMap` over the collected products. */
  method MapProducts(classes: Type -> ClassInfo, ts: seq<Type>) returns (r: Result<map<Type, Product>>)
    requires PoolConsistent(classes)
    ensures r.Ok? <==> forall k :: 0 <= k < |ts| ==> Inheritable(ts[k])
    ensures r.Err? ==> r.error == IllegalArgument("")
    ensures r.Ok? ==> (forall b :: b in r.value <==> b in ts)
                      && forall b :: b in r.value ==>
                           Inheritable(b) && r.value[b] == Product(classes(b), InheritedClassOf(classes(b)), classes(b))
  {
    var result: map<Type, Product> := map[];
    var i := 0;
    while i < |ts|
      invariant i <= |ts|
      invariant Mapped(classes, ts[..i], result)
    {
      var p := InheritOne(classes, ts[i]);
      if p.Err? {
        return Err(p.error);
      }
      MapStep(classes, ts[..i], result, ts[i], p.value);
      assert ts[..i + 1] == ts[..i] + [ts[i]];
      result := result[ts[i] := p.value];
      i := i + 1;
    }
    assert ts[..i] == ts;
    return Ok(result);
  }

  /** The products in `done` are all mapped, each to its new subclass, and
      nothing else is. */
  ghost predicate Mapped(classes: Type -> ClassInfo, done: seq<Type>, result: map<Type, Product>) {
    PoolConsistent(classes)
    && (forall k :: 0 <= k < |done| ==> Inheritable(done[k]))
    && (forall b :: b in result <==> b in done)
    && forall b :: b in result ==>
         Inheritable(b) && result[b] == Product(classes(b), InheritedClassOf(classes(b)), classes(b))
  }

  /** Mapping one more product. */
  lemma MapStep(classes: Type -> ClassInfo, done: seq<Type>, result: map<Type, Product>, t: Type, p: Product)
    requires Mapped(classes, done, result) && Inheritable(t)
    requires p == Product(classes(t), InheritedClassOf(classes(t)), classes(t))
    ensures Mapped(classes, done + [t], result[t := p])
  {
  }

  /** One step of `createProductMap`: the product and a new subclass of it. */
  method InheritOne(classes: Type -> ClassInfo, t: Type) returns (r: Result<Product>)
    requires PoolConsistent(classes)
    ensures r.Ok? <==> Inheritable(t)
    ensures r.Err? ==> r.error == IllegalArgument("")
    ensures r.Ok? ==> r.value == Product(classes(t), InheritedClassOf(classes(t)), classes(t))
  {
    var product := classes(t);
    assert product.self == t;
    var enhanced := CreateInheritedClass(Some(product));
    if enhanced.Err? {
      return Err(enhanced.error);
    }
    return Ok(Product(product, enhanced.value.0, product));
  }

  /** Distinct products get distinct subclasses. */
  lemma InheritedDistinct(a: Type, b: Type)
    requires InheritedType(a) == InheritedType(b)
    ensures a == b
  {
    assert InheritedType(a).superclass == Some(a);
  }

  /** The `base -> enhanced class` map the factory rewriting works from. */
  function EnhancedClasses(products: map<Type, Product>): (r: map<Type, ClassInfo>)
    ensures r.Keys == products.Keys
  {
    map b | b in products :: products[b].enhanced
  }

  /** `testAllWeaveTargetWillBeEnhanced`: every product with aspects is to be
      enhanced. */
  function AllWeaveTargetsEnhanced(products: map<Type, Product>, aspects: map<Type, AspectList>): (r: bool)
    ensures r <==> aspects.Keys <= products.Keys
  {
    forall b :: b in aspects ==> b in products
  }

  /** What `prepareEnhanced` builds, kept for the contract: the copied
      factory, the product map, the aspects, the rewrites of the factory's
      `new` expressions, and the install steps. */
  datatype Prepared = Prepared(factory: ClassInfo, products: map<Type, Product>, productAspects: map<Type, AspectList>,
                               factoryAspects: Option<AspectList>, rewrites: seq<Rewrite>, steps: seq<Step>)

  /** `prepareEnhanced()`: copy the factory, validate the copy's
      accessibility, collect and subclass the products, weave them, rewrite
      the factory's `new` expressions, and install everything.  `original`
      is the factory implementation, `sites` its `new` expressions, and
      `constPool` / `classPool` what the validator reads.  On success the
      factory is the validated copy, every product with aspects is an
      enhanced product, and every product class is loaded before the
      factory. */
  method PrepareEnhanced(m: Manager, o: Oracle, original: ClassInfo, classes: Type -> ClassInfo, sites: seq<Site>,
                         constPool: seq<Entry>, classPool: map<string, ClassInfo>)
    returns (r: Result<Prepared>)
    requires original.self.Declared?
    requires PoolConsistent(classes)
    ensures (CreateCopyClass(Some(original)).Ok?
             && !ClassOk(Validator(CreateCopyClass(Some(original)).value, constPool, classPool))) ==> r.Err?
    ensures r.Ok? ==> var p := r.value;
              CreateCopyClass(Some(original)) == Ok(p.factory)
              && ClassOk(Validator(p.factory, constPool, classPool))
              && (forall b :: b in p.products ==>
                    Inheritable(b) && p.products[b] == Product(classes(b), InheritedClassOf(classes(b)), classes(b)))
              && AllWeaveTargetsEnhanced(p.products, p.productAspects)
              && exists n :: 0 <= n < |p.steps| && p.steps[n] == Load(p.factory.self)
                             && ProductsInstalled(p.products, p.productAspects, p.steps, n)
    ensures r.Ok? ==> var p := r.value;
              (forall b :: b in p.productAspects <==> b in p.products && |Advice(m, o, p.products[b])| > 0)
              && forall b :: b in p.productAspects ==>
                   p.productAspects[b] == AspectList(AdviceTableField(p.products[b].enhanced.self),
                                                     PlanFor(m, o, p.products[b], Advice(m, o, p.products[b])))
    ensures r.Ok? ==> var p := r.value;
              var chosen := Chosen(m, o, EnhancedClasses(p.products), p.productAspects, sites);
              (forall s :: s in chosen ==> Resolvable(EnhancedClasses(p.products), s))
              && (p.factoryAspects.None? <==> |chosen| == 0)
              && |p.rewrites| == |chosen|
              && (p.factoryAspects.Some? ==>
                    p.factoryAspects.value.holder == AdviceTableField(p.factory.self)
                    && Planned(m, o, EnhancedClasses(p.products), chosen, p.factoryAspects.value.aspects, p.rewrites))
  {
    var enhance :- CreateCopyClass(Some(original));
    var valid := Validate(Some(Validator(enhance, constPool, classPool)), false);
    if valid.Err? {
      return Err(valid.error);
    }
    var products, _, _ := CreateProductMap(m, o, enhance.self, classes, sites);
    if products.Err? {
      return Err(products.error);
    }
    var ps := products.value;
    var woven := WeaveAllProducts(Some(m), o, Some(ps));
    var aspects := woven.value;
    assert AllWeaveTargetsEnhanced(ps, aspects);
    var enhancedMap := EnhancedClasses(ps);
    forall a, b | a in enhancedMap && b in enhancedMap && enhancedMap[a].self == enhancedMap[b].self
      ensures a == b
    {
      InheritedDistinct(a, b);
    }
    var factory :- EnhanceFactory(Some(enhance.self), Some(m), o, Some(enhancedMap), Some(aspects), sites);
    var installed := Install(Some(Converter), Some(enhance.self), Some(ps), factory.0, Some(aspects));
    var steps := installed.value;
    ghost var n := |steps| - if factory.0.Some? then 2 else 1;
    assert steps[n] == Load(enhance.self);
    return Ok(Prepared(enhance, ps, aspects, factory.0, factory.1, steps));
  }

  /** `getEnhanced()`: the first successful call prepares the enhanced
      factory (the validated copy of `original`, with every product installed
      before it) and drops the enhancement list; later calls return it
      unchanged.  A failed preparation leaves the enhancer as it was. */
  method GetEnhanced(e: FactoryEnhancer, o: Oracle, original: ClassInfo, classes: Type -> ClassInfo, sites: seq<Site>,
                     constPool: seq<Entry>, classPool: map<string, ClassInfo>)
    returns (next: FactoryEnhancer, r: Result<Type>)
    requires e.state.result.None? ==> e.state.manager.Some?
    requires original.self.Declared?
    requires PoolConsistent(classes)
    ensures e.state.result.Some? ==> next == e && r == Ok(e.state.result.value)
    ensures r.Err? ==> next == e
    ensures r.Ok? ==> next.state.result == Some(r.value) && next.factoryInterface == e.factoryInterface
                      && next.factoryImplementation == e.factoryImplementation
    ensures e.state.result.None? && r.Ok? ==>
              next.state.manager.None? && next.state.converter.None?
              && CreateCopyClass(Some(original)).Ok? && r.value == CreateCopyClass(Some(original)).value.self
              && ClassOk(Validator(CreateCopyClass(Some(original)).value, constPool, classPool))
  {
    var outcome: Result<Type> := Err(IllegalState);
    if e.state.result.None? {
      var prepared := PrepareEnhanced(e.state.manager.value, o, original, classes, sites, constPool, classPool);
      outcome := if prepared.Ok? then Ok(prepared.value.factory.self) else Err(prepared.error);
    }
    var (state, answer) := ComputeOnce(e.state, outcome);
    return e.(state := state), answer;
  }

  // ---------------------------------------------------------------------
  // InterfaceEnhancer
  // ---------------------------------------------------------------------

  datatype InterfaceEnhancer = InterfaceEnhancer(factoryInterface: Type, productInterfaces: set<Type>,
                                                 productSuperClass: ClassInfo, state: WeaveState)

  /** `checkFactoryInterfaceConstraint`: a public interface. */
  function CheckFactoryInterface(i: Type): (r: Result<()>)
    ensures r.Ok? <==> i.IsInterface() && Has(i.Modifiers(), PUBLIC)
    ensures r.Err? ==> r.error.IllegalArgument?
  {
    if !i.IsInterface() then Err(IllegalArgument("The factory (" + i.Name() + ") must be an interface"))
    else if !Has(i.Modifiers(), PUBLIC) then Err(IllegalArgument("The factory (" + i.Name() + ") must be public"))
    else Ok(())
  }

  /** `aClass.getConstructor()` succeeds: a public constructor without
      parameters. */
  predicate HasPublicDefaultConstructor(c: ClassInfo) {
    exists k :: 0 <= k < |c.constructors| && c.constructors[k].kind == ConstructorKind
                && Has(c.constructors[k].mods, PUBLIC) && c.constructors[k].params == []
  }

  /** `checkProductSuperClassConstraint`: a normal, public, concrete,
      non-final class with a public no-argument constructor. */
  function CheckProductSuperClass(c: ClassInfo): (r: Result<()>)
    ensures r.Ok? <==> Reflection.IsNormalClass(Some(c.self)) == Ok(true)
                       && Has(c.self.Modifiers(), PUBLIC) && !Has(c.self.Modifiers(), ABSTRACT)
                       && !Has(c.self.Modifiers(), FINAL) && HasPublicDefaultConstructor(c)
    ensures r.Err? ==> r.error.IllegalArgument?
  {
    var n := c.self.Name();
    var mods := c.self.Modifiers();
    if Reflection.IsNormalClass(Some(c.self)) != Ok(true) then
      Err(IllegalArgument("The product super class (" + n + ") must be a normal class"))
    else if !Has(mods, PUBLIC) then Err(IllegalArgument("The product super class (" + n + ") must be public"))
    else if Has(mods, ABSTRACT) then
      Err(IllegalArgument("The product super class (" + n + ") must not be abstract class"))
    else if Has(mods, FINAL) then Err(IllegalArgument("The product super class (" + n + ") must not be final class"))
    else if !HasPublicDefaultConstructor(c) then
      Err(IllegalArgument("Product super class (" + n + ") must have a public non-parameters constructor"))
    else Ok(())
  }

  /** A factory method; the methods `java.lang.Object` declares are not. */
  predicate FactoryMethod(b: Behaviour) {
    b.declaring != ObjectType
  }

  /** The return type of a factory method is a usable product interface. */
  predicate ProductInterface(t: Type) {
    t.IsInterface() && Has(t.Modifiers(), PUBLIC)
  }

  /** Every factory method returns a usable product interface. */
  predicate ProductsDeclarable(methods: seq<Behaviour>) {
    forall k :: 0 <= k < |methods| && FactoryMethod(methods[k]) ==> ProductInterface(methods[k].returnType)
  }

  /** The return types of the factory methods. */
  function ProductInterfacesOf(methods: seq<Behaviour>): set<Type> {
    set k | 0 <= k < |methods| && FactoryMethod(methods[k]) :: methods[k].returnType
  }

  /** `computeProductInterfaces(factoryInterface)` over its `getMethods()`:
      the return types of the factory methods, each required to be a
      public interface, the first offending method reported. */
  method ComputeProductInterfaces(methods: seq<Behaviour>) returns (r: Result<set<Type>>)
    ensures r.Ok? <==> ProductsDeclarable(methods)
    ensures r.Err? ==> r.error.IllegalArgument?
    ensures r.Ok? ==> forall t :: t in r.value <==>
                        exists k :: 0 <= k < |methods| && FactoryMethod(methods[k]) && methods[k].returnType == t
    ensures r.Ok? ==> r.value == ProductInterfacesOf(methods)
  {
    var results: set<Type> := {};
    var i := 0;
    while i < |methods|
      invariant i <= |methods|
      invariant forall k :: 0 <= k < i && FactoryMethod(methods[k]) ==> ProductInterface(methods[k].returnType)
      invariant forall t :: t in results <==> exists k :: 0 <= k < i && FactoryMethod(methods[k]) && methods[k].returnType == t
    {
      var b := methods[i];
      if FactoryMethod(b) {
        var product := b.returnType;
        if !product.IsInterface() {
          return Err(IllegalArgument("All product must be declared as an interface"));
        }
        if !Has(product.Modifiers(), PUBLIC) {
          return Err(IllegalArgument("All product interface must be public"));
        }
        results := results + {product};
      }
      i := i + 1;
    }
    return Ok(results);
  }

  /** The `InterfaceEnhancer(factoryInterface, productSuperClass, enhanceList)`
      constructor; `methods` stands for the interface's `getMethods()`.
      Null arguments first, then the factory interface, then the product
      superclass, then the product interfaces, then the list's elements. */
  method NewInterfaceEnhancer(i: Option<Type>, superClass: Option<ClassInfo>, list: Option<seq<Option<Enhance>>>,
                              methods: seq<Behaviour>)
    returns (r: Result<InterfaceEnhancer>)
    ensures i.None? ==> r == Err(NullPointer("factoryInterface is null"))
    ensures i.Some? && superClass.None? ==> r == Err(NullPointer("productSuperClass is null"))
    ensures i.Some? && superClass.Some? && list.None? ==> r == Err(NullPointer("enhanceList is null"))
    ensures i.Some? && superClass.Some? && list.Some? && CheckFactoryInterface(i.value).Err?
            ==> r == Err(CheckFactoryInterface(i.value).error)
    ensures i.Some? && superClass.Some? && list.Some? && CheckFactoryInterface(i.value).Ok?
            && CheckProductSuperClass(superClass.value).Err?
            ==> r == Err(CheckProductSuperClass(superClass.value).error)
    ensures i.Some? && superClass.Some? && list.Some? && CheckFactoryInterface(i.value).Ok?
            && CheckProductSuperClass(superClass.value).Ok? && !ProductsDeclarable(methods)
            ==> r.Err? && r.error.IllegalArgument?
    ensures r.Ok? <==> i.Some? && superClass.Some? && list.Some?
                       && CheckFactoryInterface(i.value).Ok? && CheckProductSuperClass(superClass.value).Ok?
                       && ProductsDeclarable(methods) && MakeManager(list).Ok?
    ensures r.Ok? ==> r.value.factoryInterface == i.value && r.value.productSuperClass == superClass.value
                      && r.value.productInterfaces == ProductInterfacesOf(methods)
                      && r.value.state == WeaveState(Some(MakeManager(list).value), Some(Converter), None)
                      && (forall t :: t in r.value.productInterfaces ==> ProductInterface(t))
  {
    if i.None? { return Err(NullPointer("factoryInterface is null")); }
    if superClass.None? { return Err(NullPointer("productSuperClass is null")); }
    if list.None? { return Err(NullPointer("enhanceList is null")); }
    var checked := CheckFactoryInterface(i.value);
    if checked.Err? { return Err(checked.error); }
    checked := CheckProductSuperClass(superClass.value);
    if checked.Err? { return Err(checked.error); }
    var products :- ComputeProductInterfaces(methods);
    var m :- MakeManager(list);
    return Ok(InterfaceEnhancer(i.value, products, superClass.value, WeaveState(Some(m), Some(Converter), None)));
  }
}
