# factory-enhancer, modelled in Dafny

factory-enhancer weaves interceptors ("handlers") into the products a factory
creates. An `Enhance` pairs an `InvocationPointcut`, which chooses join
points, with an `InvocationHandler`, which runs around them. Two front ends
exist:

- `FactoryEnhancer` copies an existing factory class. It subclasses every
  product class that factory instantiates and weaves advice into those
  subclasses. It then rewrites the factory's `new` expressions so they build
  the subclasses through advice.
- `InterfaceEnhancer` implements a factory interface over a common product
  superclass.

This project models the decision logic of that engine over an abstract type
universe. Types are primitives, arrays, or declared classes with modifier
bits, nesting, a superclass and interfaces. Members are descriptors, and a
class is the list of members the engine enumerates. The project covers:

- the pointcut algebra and the enhancement registry (`Pointcuts`, `EnhanceManager`);
- the overload resolver behind `ReflectionFactory` (`Reflection`);
- the accessibility validator with its constant-pool scan (`Accessibility`);
- the advice-chain runtime, a fold over handlers with layered argument arrays
  (`Invocations`, `AdviceApplier`, `Aspects`);
- weave planning: names, subclasses, bypass and pointcut methods, advice
  indices, installation order (`Manipulator`);
- interface method groups (`MethodGroups`);
- the rewriting of `new` expressions (`NewInstance`);
- product discovery (`Collector`);
- the name ordering (`Comparator`);
- the two front ends (`Enhancers`).

Every error path of the source is a `Result` error. `NullPointer`,
`IllegalArgument`, `IllegalState` and `Enhance` stand for the Java
exceptions of the same names; `Enhance` is the `EnhanceException`. Most
messages are modelled by their fixed text; the two load failures of
`AdviceApplier` are rendered in full (see "Modelling choices").

## Model

| member | source | states |
|---|---|---|
| Pointcuts.ConstantPointcuts | src/main/java/org/jiemamy/utils/enhancer/Pointcuts.java:38-76 | TRUE selects everything and FALSE nothing; each behaviour is selected by exactly one of METHODS and CONSTRUCTORS, and METHODS by its kind |
| Pointcuts.AndIsTarget | src/main/java/org/jiemamy/utils/enhancer/helper/AndInvocationPointcut.java:62-70 | the loop answers the conjunction; on false it stopped at the first failing term, all earlier terms having matched and none later consulted |
| Pointcuts.MakeAnd | src/main/java/org/jiemamy/utils/enhancer/helper/AndInvocationPointcut.java:43-52 | null list gives NPE, empty list gives IAE, otherwise the conjunction matches iff every listed term matches |
| Pointcuts.Not | src/main/java/org/jiemamy/utils/enhancer/Pointcuts.java:151-156 | `not(null)` is an NPE naming `term`; otherwise the result matches exactly where the term does not |
| Pointcuts.ToList2 | src/main/java/org/jiemamy/utils/enhancer/Pointcuts.java:216-227 | NPE for `a`, then `b`; otherwise the list is exactly `[a, b]` |
| Pointcuts.ToListN | src/main/java/org/jiemamy/utils/enhancer/Pointcuts.java:229-250 | NPE for `a`, `b`, `rest`, then for the first absent `rest[k]` named with its decimal index; otherwise `a`, `b` and then `rest` in order |
| Pointcuts.And2 | src/main/java/org/jiemamy/utils/enhancer/Pointcuts.java:102-104 | defined iff both operands are present; matches iff both match |
| Pointcuts.AndN | src/main/java/org/jiemamy/utils/enhancer/Pointcuts.java:132-134 | fails exactly as the term list does; otherwise matches iff `a`, `b` and every element of `rest` match |
| Pointcuts.Or2 | src/main/java/org/jiemamy/utils/enhancer/Pointcuts.java:182-184 | defined iff both operands are present; matches iff at least one matches |
| Pointcuts.OrN | src/main/java/org/jiemamy/utils/enhancer/Pointcuts.java:212-214 | fails exactly as the term list does; otherwise matches iff some term matches |
| Pointcuts.AndOfList | src/main/java/org/jiemamy/utils/enhancer/helper/AndInvocationPointcut.java:62-70 | a conjunction over a `toList` result agrees with the conjunction of `a`, `b` and the elements of `rest` |
| Pointcuts.OrOfList | src/main/java/org/jiemamy/utils/enhancer/Pointcuts.java:212-250 | a disjunction over a `toList` result agrees with the disjunction of `a`, `b` and the elements of `rest` |
| Pointcuts.DoubleNegation | src/main/java/org/jiemamy/utils/enhancer/helper/NotInvocationPointcut.java:56-58 | `not(not(p))` is defined and agrees with `p` on every input |
| Pointcuts.SingleTermAnd | src/main/java/org/jiemamy/utils/enhancer/helper/AndInvocationPointcut.java:43-70 | a one-term conjunction is accepted and agrees with its term |
| EnhanceManager.MakeEnhance | src/main/java/org/jiemamy/utils/enhancer/Enhance.java:37-47 | NPE for the pointcut, then the handler; the getters give back exactly the arguments |
| EnhanceManager.MakeManager | src/main/java/org/jiemamy/utils/enhancer/helper/EnhanceManager.java:62-71 | rejects an absent list or one holding null; the copy has the same elements in the same order |
| EnhanceManager.Positions | src/main/java/org/jiemamy/utils/enhancer/helper/EnhanceManager.java:89-106 | the registration positions of exactly the enhancements whose pointcut matches, strictly increasing |
| EnhanceManager.HandlersAt | src/main/java/org/jiemamy/utils/enhancer/helper/EnhanceManager.java:98-104 | the handlers at the given positions, one per position, in that order |
| EnhanceManager.FindApplicableHandlers | src/main/java/org/jiemamy/utils/enhancer/helper/EnhanceManager.java:89-106 | NPEs for `self` then `behavior`; the result is the registration-order subsequence of handlers whose pointcut matches |
| EnhanceManager.NoneApplicable | src/main/java/org/jiemamy/utils/enhancer/helper/EnhanceManager.java:89-106 | the lookup is empty iff no registered pointcut selects the behaviour |
| EnhanceManager.IsSingleBit | src/main/java/org/jiemamy/utils/enhancer/helper/EnhanceManager.java:200-202 | for a one-bit mask `(flags & mask) == mask` agrees with the bit being set |
| EnhanceManager.IsLegalMethod | src/main/java/org/jiemamy/utils/enhancer/helper/EnhanceManager.java:182-192 | true iff the method is public, not static, not final, neither bridge nor synthetic, and its class is public and not final |
| EnhanceManager.IsLegalConstructor | src/main/java/org/jiemamy/utils/enhancer/helper/EnhanceManager.java:163-170 | true iff the constructor and its class are public |
| EnhanceManager.CanEnhanceProduct | src/main/java/org/jiemamy/utils/enhancer/helper/EnhanceManager.java:142-150 | true iff the constructor and its class are public and the class is not final |
| EnhanceManager.EnhanceableProduct | src/main/java/org/jiemamy/utils/enhancer/helper/EnhanceManager.java:142-192 | in a class that has a legal method join point, `canEnhanceProduct` and constructor legality agree |
| EnhanceManager.HasApplicableMethod | src/main/java/org/jiemamy/utils/enhancer/helper/EnhanceManager.java:121-133 | NPE for an absent class; true iff some method is a legal join point selected by some registered pointcut |
| Reflection.IsNormalClass | src/main/java/org/jiemamy/utils/enhancer/reflection/ReflectionUtil.java:69-77 | IAE for null; true iff the type is a declared class, so not a primitive, array, interface, annotation or enum |
| Reflection.IsPackageMember | src/main/java/org/jiemamy/utils/enhancer/reflection/ReflectionUtil.java:85-94 | IAE for null; true iff the type is declared at top level, so not a primitive, array, member, local or anonymous class |
| Reflection.ToParameterTypes | src/main/java/org/jiemamy/utils/enhancer/reflection/ReflectionUtil.java:107-120 | IAE for null; same length, a null argument gives the null type and any other its class |
| Types.SubtypeLowers | src/main/java/org/jiemamy/utils/enhancer/reflection/ReflectionUtil.java:335 | a proper supertype other than Object has a smaller height, so the subtype walk of `isAssignableFrom` has no cycles |
| Types.SubtypeAntisymmetric | src/main/java/org/jiemamy/utils/enhancer/reflection/ReflectionUtil.java:335 | two types each assignable to the other are the same type |
| Types.SubtypeTransitive | src/main/java/org/jiemamy/utils/enhancer/reflection/ReflectionUtil.java:335 | assignability composes: a subtype of a subtype is a subtype, arrays into Cloneable and Serializable included |
| Types.WidensOrder | src/main/java/org/jiemamy/utils/enhancer/helper/MethodInvocation.java:131-138 | the widening primitive conversion that reflective calls apply is a partial order, and `boolean` widens only to itself |
| Reflection.IsApplicable | src/main/java/org/jiemamy/utils/enhancer/reflection/ReflectionUtil.java:325-353 | the null type fits every parameter; otherwise subtyping (an array also fits Cloneable and Serializable), boxing the argument, or boxing the parameter; two primitives fit only when equal, since `isAssignableFrom` does not widen |
| Reflection.IsApplicableList | src/main/java/org/jiemamy/utils/enhancer/reflection/ReflectionUtil.java:297-313 | the loop answers same arity and every position applicable |
| Reflection.MoreSpecificType | src/main/java/org/jiemamy/utils/enhancer/reflection/ReflectionUtil.java:462-475 | `a` is more specific iff `b` is assignable from `a` or from the box of primitive `a`; that implies `a` is applicable to `b` |
| Reflection.MoreSpecificTransitive | src/main/java/org/jiemamy/utils/enhancer/reflection/ReflectionUtil.java:462-475 | type specificity composes |
| Reflection.MoreSpecificAntisymmetric | src/main/java/org/jiemamy/utils/enhancer/reflection/ReflectionUtil.java:462-475 | two types each more specific than the other are equal |
| Reflection.IntBeatsInteger | src/main/java/org/jiemamy/utils/enhancer/reflection/ReflectionUtil.java:462-475 | `int` is more specific than `Integer` and not the reverse |
| Reflection.IsMoreSpecific | src/main/java/org/jiemamy/utils/enhancer/reflection/ReflectionUtil.java:429-446 | the scan answers: every position equal or more specific and one position strictly so; a list never beats itself |
| Reflection.DominatesTransitive | src/main/java/org/jiemamy/utils/enhancer/reflection/ReflectionUtil.java:429-446 | signature specificity composes, parameter by parameter |
| Reflection.SurvivorsMaximal | src/main/java/org/jiemamy/utils/enhancer/reflection/ReflectionUtil.java:369-408 | no two kept candidates dominate one another |
| Reflection.RemovedIsDominated | src/main/java/org/jiemamy/utils/enhancer/reflection/ReflectionUtil.java:369-408 | a candidate is dropped only because another candidate dominates it |
| Reflection.SomeSurvivorAfter | src/main/java/org/jiemamy/utils/enhancer/reflection/ReflectionUtil.java:369-408 | a non-empty candidate list never loses all its candidates |
| Reflection.StruckAt | src/main/java/org/jiemamy/utils/enhancer/reflection/ReflectionUtil.java:379-405 | a candidate alive before some outer passes and struck during them was struck by a live candidate that dominates it |
| Reflection.DominatedBySurvivor | src/main/java/org/jiemamy/utils/enhancer/reflection/ReflectionUtil.java:379-405 | whatever a live candidate dominates is dominated by a candidate that survives the whole filter |
| Reflection.DroppedIsDominatedBySurvivor | src/main/java/org/jiemamy/utils/enhancer/reflection/ReflectionUtil.java:379-405 | a dropped candidate is dominated by a survivor |
| Reflection.KeptFacts | src/main/java/org/jiemamy/utils/enhancer/reflection/ReflectionUtil.java:369-408 | the kept list has no candidate dominating another, is non-empty whenever there were candidates, and every dropped candidate is dominated by a kept one |
| Reflection.FilterMaximallySpecifics | src/main/java/org/jiemamy/utils/enhancer/reflection/ReflectionUtil.java:369-408 | the in-place loop keeps exactly the surviving candidates in order; none of them dominates another, some survives when there was a candidate, and each removed candidate is dominated by a kept one |
| Reflection.Resolve | src/main/java/org/jiemamy/utils/enhancer/reflection/ReflectionUtil.java:272-408 | the kept candidates are applicable members of the input and pairwise undominated; an applicable member is dropped only when a kept one dominates it; none is kept iff none is applicable; the result is a subsequence of the input, keeping its order and adding no repeats |
| Reflection.SubsequenceMultiset | src/main/java/org/jiemamy/utils/enhancer/reflection/ReflectionUtil.java:369-408 | a list the resolver keeps holds each candidate at most as often as the list it was given |
| Reflection.FindConstructor | src/main/java/org/jiemamy/utils/enhancer/reflection/ReflectionUtil.java:135-154 | IAEs for null inputs; results are given constructors of the right arity that are applicable and pairwise undominated; an applicable constructor left out is dominated by a result; empty iff none applies; the results are a subsequence of the given constructors, in their order |
| Reflection.FindMethod | src/main/java/org/jiemamy/utils/enhancer/reflection/ReflectionUtil.java:169-192 | IAEs for null inputs; results carry the requested name and arity, are applicable and pairwise undominated; an applicable method of that name left out is dominated by a result; empty iff none applies; the results are a subsequence of the given methods, in their order |
| Reflection.MethodsSelected | src/main/java/org/jiemamy/utils/enhancer/reflection/ReflectionUtil.java:213-235 | the potentially applicable methods carry the requested name and arity and include every applicable method of that name; what is resolved among them is a subsequence of all the methods |
| Reflection.ConstructorsSelected | src/main/java/org/jiemamy/utils/enhancer/reflection/ReflectionUtil.java:247-264 | the potentially applicable constructors have the requested arity and include every applicable constructor; what is resolved among them is a subsequence of all the constructors |
| Reflection.MakeFactory | src/main/java/org/jiemamy/utils/enhancer/reflection/ReflectionFactory.java:59-84 | accepts exactly normal, concrete, top-level, public classes; an abstract class gets the "not a concrete class" IAE |
| Reflection.PublicConstructors | src/main/java/org/jiemamy/utils/enhancer/reflection/ReflectionFactory.java:94-96 | the candidates are exactly the class's public constructors |
| Reflection.NewInstance | src/main/java/org/jiemamy/utils/enhancer/reflection/ReflectionFactory.java:90-114 | IAE for null arguments, "No applicable constructors" when none applies and "Ambiguous target constructors" when two or more maximally specific ones remain; resolution succeeds iff exactly one remains, and yields that one |
| Reflection.Instantiate | src/main/java/org/jiemamy/utils/enhancer/reflection/ReflectionFactory.java:90-125 | a resolution error is thrown as its IAE; otherwise the chosen constructor is called, raising an IAE when reflection will not pass the arguments to it and wrapping what its body throws in InvocationTargetException; it returns only when resolution succeeded, the arguments fit and the body does not fail |
| Reflection.NewInstanceMostSpecific | src/main/java/org/jiemamy/utils/enhancer/reflection/ReflectionFactory.java:90-125 | the constructor chosen is more specific than every other applicable public constructor |
| ReflectionExamples.LongForInteger | src/test/java/org/jiemamy/utils/enhancer/reflection/ReflectionFactoryTest.java:131-136 | a `Long` argument fits no constructor of `Integer` |
| ReflectionExamples.NullForIntConstructor | src/main/java/org/jiemamy/utils/enhancer/reflection/ReflectionFactory.java:109-117 | a null argument resolves to a sole `int` constructor, and calling it then raises "argument type mismatch" whatever the constructor does |
| ReflectionExamples.NullForString | src/test/java/org/jiemamy/utils/enhancer/reflection/ReflectionFactoryTest.java:141-147 | a null argument for `String` is ambiguous between `String(String)` and `String(char[])` |
| ReflectionExamples.ValueOfInteger | src/test/java/org/jiemamy/utils/enhancer/reflection/ReflectionUtilTest.java:174-181 | `String.valueOf` with an `Integer` resolves to `valueOf(int)` rather than `valueOf(Object)` |
| ReflectionExamples.ArrayForCloneable | src/main/java/org/jiemamy/utils/enhancer/reflection/ReflectionUtil.java:325-353 | an `int[]` argument applies to a Cloneable or Serializable parameter but not to `Object[]` |
| Accessibility.IsSame | src/main/java/org/jiemamy/utils/enhancer/helper/AccessibilityValidator.java:596-603 | two types are the same iff their names are equal |
| Accessibility.TypeAccessible | src/main/java/org/jiemamy/utils/enhancer/helper/AccessibilityValidator.java:519-550 | primitives are visible; an array iff its innermost component is; a declared type iff every class of its enclosing chain is the same as `from`, public, or protected with `from` a subclass |
| Accessibility.ChainMeaning | src/main/java/org/jiemamy/utils/enhancer/helper/AccessibilityValidator.java:532-549 | the walk along declaring classes succeeds iff every class of the chain permits access |
| Accessibility.PackagePrivateHidden | src/main/java/org/jiemamy/utils/enhancer/helper/AccessibilityValidator.java:535-543 | a package-private type is hidden from every other class, even one in its own package |
| Accessibility.NestedNeedsOuter | src/main/java/org/jiemamy/utils/enhancer/helper/AccessibilityValidator.java:532-549 | a visible nested type has a visible declaring class |
| Accessibility.MemberAccessible | src/main/java/org/jiemamy/utils/enhancer/helper/AccessibilityValidator.java:574-588 | public, declared by `from`, or protected with `from` a subclass of the declarer |
| Accessibility.PublicMemberOfHiddenClass | src/main/java/org/jiemamy/utils/enhancer/helper/AccessibilityValidator.java:574-588 | the member check ignores the declarer's own visibility: a public member of a hidden class passes it |
| Accessibility.Slots | src/main/java/org/jiemamy/utils/enhancer/helper/AccessibilityValidator.java:159-189 | the slots the scan reads are in range, strictly increasing, and start at the first slot |
| Accessibility.SlotsSkipWide | src/main/java/org/jiemamy/utils/enhancer/helper/AccessibilityValidator.java:159-189 | the slot after a long or double is never read, and the slot after any other entry is |
| Accessibility.FieldNamed | src/main/java/org/jiemamy/utils/enhancer/helper/AccessibilityValidator.java:420-434 | `getDeclaredField`: a field of that name the class itself declares, of any access; absent iff it declares none |
| Accessibility.ConstructorFor | src/main/java/org/jiemamy/utils/enhancer/helper/AccessibilityValidator.java:444-459 | `getConstructor`: a declared constructor of any access with those parameters, never the initializer; absent iff there is none |
| Accessibility.VisibleConstructors | src/main/java/org/jiemamy/utils/enhancer/helper/AccessibilityValidator.java:106-108 | `getConstructors()`: exactly the non-private constructors, without the initializer |
| Accessibility.MethodFor | src/main/java/org/jiemamy/utils/enhancer/helper/AccessibilityValidator.java:470-487 | `getMethod`: a matching method the class declares, of any access, wins; otherwise the search moves to its supertypes |
| Accessibility.MethodOf | src/main/java/org/jiemamy/utils/enhancer/helper/AccessibilityValidator.java:470-487 | from a supertype, the method its class declares wins, and any result is declared by a class of the pool |
| Accessibility.SuperMethod | src/main/java/org/jiemamy/utils/enhancer/helper/AccessibilityValidator.java:470-487 | the superclass is searched before any interface, and any result is declared by a class of the pool |
| Accessibility.PrivateHelperResolves | src/main/java/org/jiemamy/utils/enhancer/helper/AccessibilityValidator.java:470-487 | a reference to the class's own private method resolves to it, and the class validates |
| Accessibility.PrivateConstructorNotListed | src/main/java/org/jiemamy/utils/enhancer/helper/AccessibilityValidator.java:106-108 | a class with only private constructors and an initializer has no constructor to visit |
| Accessibility.InheritedFromSuperclass | src/main/java/org/jiemamy/utils/enhancer/helper/AccessibilityValidator.java:470-487 | a method the class does not declare resolves to the one its superclass declares |
| Accessibility.VerifyType | src/main/java/org/jiemamy/utils/enhancer/helper/AccessibilityValidator.java:268-279 | a recorded type is skipped; otherwise success iff visible, and the type is recorded only after passing |
| Accessibility.VerifyTypes | src/main/java/org/jiemamy/utils/enhancer/helper/AccessibilityValidator.java:291-296 | success iff every type is visible; the memo only grows and stays sound |
| Accessibility.VerifyOwner | src/main/java/org/jiemamy/utils/enhancer/helper/AccessibilityValidator.java:198-203 | success iff the name resolves to a visible class; an unknown name is "Type not found" |
| Accessibility.VerifyField | src/main/java/org/jiemamy/utils/enhancer/helper/AccessibilityValidator.java:313-325 | success iff the declaring class, the field type and the field itself are visible |
| Accessibility.VerifyConstructor | src/main/java/org/jiemamy/utils/enhancer/helper/AccessibilityValidator.java:343-359 | success iff the declaring class, parameter and exception types, and the constructor are visible |
| Accessibility.VerifyMethod | src/main/java/org/jiemamy/utils/enhancer/helper/AccessibilityValidator.java:378-393 | success iff the declaring class, return, parameter and exception types, and the method are visible |
| Accessibility.VerifyMemberRef | src/main/java/org/jiemamy/utils/enhancer/helper/AccessibilityValidator.java:239-253 | `<clinit>` always passes unchanged; `<init>` resolves a declared constructor of any access, other names a method as `getMethod` finds it, which must then be visible |
| Accessibility.VerifyEntry | src/main/java/org/jiemamy/utils/enhancer/helper/AccessibilityValidator.java:159-189 | a class, field, method or interface-method entry passes iff what it names is visible, a field being looked up among the fields its class declares; other entries pass |
| Accessibility.SlotsOkMeaning | src/main/java/org/jiemamy/utils/enhancer/helper/AccessibilityValidator.java:159-189 | the scan from a slot succeeds iff every slot it reads holds an acceptable entry |
| Accessibility.VerifyConstantPool | src/main/java/org/jiemamy/utils/enhancer/helper/AccessibilityValidator.java:159-189 | the loop from slot 1 with wide constants taking two slots succeeds iff every entry it reads resolves, by the declared-member lookups, to something visible |
| Accessibility.VerifyFields | src/main/java/org/jiemamy/utils/enhancer/helper/AccessibilityValidator.java:99-112 | success iff every field `getFields()` lists, inherited ones included, is visible |
| Accessibility.VerifyConstructors | src/main/java/org/jiemamy/utils/enhancer/helper/AccessibilityValidator.java:99-112 | success iff every constructor `getConstructors()` lists is visible; private constructors and the static initializer are not visited |
| Accessibility.VerifyMethods | src/main/java/org/jiemamy/utils/enhancer/helper/AccessibilityValidator.java:99-112 | success iff every declared method is visible |
| Accessibility.Validate | src/main/java/org/jiemamy/utils/enhancer/helper/AccessibilityValidator.java:75-84 | NPE for null, IAE for a frozen class; otherwise success iff the pool, the listed fields, the non-private constructors and the listed methods all pass |
| Invocations.ClassOf | src/main/java/org/jiemamy/utils/enhancer/reflection/ReflectionUtil.java:107-120 | a value has no class exactly when it is null |
| Invocations.Call | src/main/java/org/jiemamy/utils/enhancer/helper/MethodInvocation.java:131-138 | arguments that do not fit (an instance of the parameter type, or a wrapper whose value widens to the primitive parameter) raise IAE directly; a member that throws arrives wrapped in InvocationTargetException; a return means the arguments fitted |
| Invocations.FitsWidening | src/main/java/org/jiemamy/utils/enhancer/helper/MethodInvocation.java:131-138 | an `Integer` fits a `long` parameter, a `Long` does not fit an `int` one, and a `Boolean` fits only `boolean` |
| Invocations.NewMethodInvocation | src/main/java/org/jiemamy/utils/enhancer/helper/MethodInvocation.java:60-82 | NPEs for original, actual, arguments; the actual method's staticness decides the receiver rule: IAE for a receiver on a static method, NPE for none on an instance method |
| Invocations.NewConstructorInvocation | src/main/java/org/jiemamy/utils/enhancer/helper/ConstructorInvocation.java:47-66 | all four arguments are required, the factory included, with NPEs in order |
| Invocations.BaseProceed | src/main/java/org/jiemamy/utils/enhancer/helper/ConstructorInvocation.java:119-129 | the innermost `proceed` reports a mismatch iff the current arguments, widening included, do not fit the actual member |
| Invocations.ProceedUsesActual | src/main/java/org/jiemamy/utils/enhancer/helper/MethodInvocation.java:123-138 | swapping the reported member does not change `proceed`; swapping the actual one can |
| Invocations.Unwrap | src/main/java/org/jiemamy/utils/enhancer/helper/AdviceApplier.java:340-342 | an InvocationTargetException is replaced by its cause; anything else passes through |
| Invocations.Wrap | src/main/java/org/jiemamy/utils/enhancer/helper/DelegateInvocation.java:105-114 | a handler's throwable is wrapped in InvocationTargetException; a return passes through |
| Invocations.GetArgs | src/main/java/org/jiemamy/utils/enhancer/helper/DelegateInvocation.java:66-76 | a layer's copy is created on first request and is what later requests return; layers above are untouched |
| Invocations.SetArgs | src/main/java/org/jiemamy/utils/enhancer/helper/DelegateInvocation.java:66-76 | after a rewrite the layer's arguments read back as written |
| Invocations.GetArgsCoherent | src/main/java/org/jiemamy/utils/enhancer/helper/DelegateInvocation.java:66-76 | requesting arguments keeps the layered arrays coherent and gives an array as long as the innermost one |
| Invocations.SetArgsCoherent | src/main/java/org/jiemamy/utils/enhancer/helper/DelegateInvocation.java:105-108 | copying an array of the right length into a layer keeps the arrays coherent |
| Invocations.ProceedAgrees | src/main/java/org/jiemamy/utils/enhancer/helper/DelegateInvocation.java:105-114 | the layered copy-back semantics of `proceed` gives the same outcome as the fold over handlers |
| Invocations.HandleAgrees | src/main/java/org/jiemamy/utils/enhancer/helper/DelegateInvocation.java:105-114 | the same agreement for entering one handler |
| Invocations.PlainNests | src/main/java/org/jiemamy/utils/enhancer/InvocationHandler.java:38-49 | behind handlers that return `proceed()` without the documented `catch`, each layer adds one InvocationTargetException and results pass unchanged |
| AdviceApplier.LoadConstructor | src/main/java/org/jiemamy/utils/enhancer/helper/AdviceApplier.java:210-217 | finds a public constructor with exactly these parameters; EnhanceException iff there is none, its text the source pattern filled with the class, its simple name and the parameter list |
| AdviceApplier.LoadMethod | src/main/java/org/jiemamy/utils/enhancer/helper/AdviceApplier.java:219-226 | finds a public method with this name and parameters; EnhanceException iff there is none, its text the source pattern filled with the class, the name and the parameter list |
| AdviceApplier.SimpleName | src/main/java/org/jiemamy/utils/enhancer/helper/AdviceApplier.java:210-217 | a simple name holds no package dot, and a nested class's none of its enclosing class's `$` |
| AdviceApplier.LoadFailureOfString | src/main/java/org/jiemamy/utils/enhancer/helper/AdviceApplier.java:219-226 | for `String` the simple name is "String", and a failed method load ends in the parameter list inside doubled parentheses |
| AdviceApplier.ConstructorApplier | src/main/java/org/jiemamy/utils/enhancer/helper/AdviceApplier.java:189-208 | NPEs in argument order; success iff both constructors load; the applier keeps the handlers and both constructors take the given parameters |
| AdviceApplier.MethodApplier | src/main/java/org/jiemamy/utils/enhancer/helper/AdviceApplier.java:263-289 | NPEs in argument order; success iff both methods load; the applier keeps the handlers and both public methods carry the requested names |
| AdviceApplier.Names | src/main/java/org/jiemamy/utils/enhancer/helper/AdviceApplier.java:296-310 | one name per parameter type, in order |
| AdviceApplier.ToParamsRoundTrip | src/main/java/org/jiemamy/utils/enhancer/helper/AdviceApplier.java:296-310 | the rendering is parenthesised, is `()` iff there are no parameters, and splitting its inside at commas gives the type names back |
| AdviceApplier.InvokeByFold | src/main/java/org/jiemamy/utils/enhancer/helper/AdviceApplier.java:333-343 | `invoke` is the outermost layer of the handler fold over the caller's arguments, unwrapped once |
| AdviceApplier.FoldEntersLastFirst | src/main/java/org/jiemamy/utils/enhancer/helper/AdviceApplier.java:159-175 | behind proceeding handlers the last-listed handler is entered first and the first-listed last |
| AdviceApplier.FoldReachesTarget | src/main/java/org/jiemamy/utils/enhancer/helper/AdviceApplier.java:159-175 | behind proceeding handlers the actual member receives the arguments every handler's rewrite produced |
| AdviceApplier.FoldRaises | src/main/java/org/jiemamy/utils/enhancer/helper/DelegateInvocation.java:105-114 | behind handlers that unwrap as `InvocationHandler` documents, what the actual member throws comes out of each layer wrapped once |
| AdviceApplier.FoldAppendsTails | src/main/java/org/jiemamy/utils/enhancer/helper/AdviceApplier.java:159-175 | behind proceeding handlers a string result gains every handler's tail, first-listed handler's first |
| AdviceApplier.FoldThrows | src/main/java/org/jiemamy/utils/enhancer/helper/DelegateInvocation.java:105-114 | a throwing handler stops the chain: handlers inside it are not entered and the member is not reached |
| AdviceApplier.InvokeWithoutHandlers | src/main/java/org/jiemamy/utils/enhancer/helper/AdviceApplier.java:333-343 | with no handlers `invoke` runs the actual member directly |
| AdviceApplier.InvokeRejectsReceiver | src/main/java/org/jiemamy/utils/enhancer/helper/MethodInvocation.java:60-82 | the invocation's receiver rules surface from `invoke`: IAE for a receiver on a static method, NPE for none on an instance method |
| AdviceApplier.InvokeSurfacesTargetException | src/main/java/org/jiemamy/utils/enhancer/helper/AdviceApplier.java:333-343 | behind handlers that unwrap, the caller sees the actual member's own exception, unwrapped |
| AdviceApplier.InvokeNestsTargetException | src/main/java/org/jiemamy/utils/enhancer/helper/AdviceApplier.java:333-343 | behind handlers that return `proceed()` without unwrapping, the caller sees the member's exception inside one InvocationTargetException per handler |
| AdviceApplier.InvokeAppendsTails | src/main/java/org/jiemamy/utils/enhancer/helper/AdviceApplier.java:333-343 | the caller sees the member's string result followed by every tail in list order |
| AdviceApplier.InvokeSurfacesHandlerException | src/main/java/org/jiemamy/utils/enhancer/helper/AdviceApplier.java:333-343 | a handler's own exception reaches the caller unwrapped, whatever unwrapping handlers sit outside it |
| AdviceApplier.ConstructorHandlersExample | src/test/java/org/jiemamy/utils/enhancer/helper/AdviceApplierTest.java:242-255 | before-insert handlers A, B, C, D around a constructor given "E" build "ABCDE" |
| AdviceApplier.MethodHandlersExample | src/test/java/org/jiemamy/utils/enhancer/helper/AdviceApplierTest.java:113-127 | before a, before b, after d, after e around identity on "c" give "abcde" |
| Aspects.MakeAspect | src/main/java/org/jiemamy/utils/enhancer/helper/Aspect.java:51-65 | NPEs for original, actual, handlers; the getters return the arguments and the handlers in the given order |
| Aspects.MakeAspectList | src/main/java/org/jiemamy/utils/enhancer/helper/AspectList.java:45-55 | NPEs for the holder then the list; holder and aspects are kept as given |
| Aspects.MakeAdviceTable | src/main/java/org/jiemamy/utils/enhancer/helper/AdviceTable.java:39-49 | NPEs for the aspects then the appliers; both are kept as given |
| Aspects.TableFor | src/main/java/org/jiemamy/utils/enhancer/helper/JavassistConverter.java:283-305 | one applier per aspect, in order, each running the aspect's handlers around its actual member and reporting its original |
| Aspects.Register | src/main/java/org/jiemamy/utils/enhancer/helper/EnhanceManipulator.java:1146-1170 | the appliers are stored under the name of the table's holder field |
| Aspects.RegisteredSlots | src/main/java/org/jiemamy/utils/enhancer/helper/AdviceTable.java:63-65 | the registered table is as long as the aspect list and slot `i` runs the handlers and members of aspect `i` |
| Manipulator.EnhanceClassName | src/main/java/org/jiemamy/utils/enhancer/helper/EnhanceManipulator.java:855-861 | names in `java.`, `javax.` or `sun.` get the marker in front, all others behind; the result always differs from the name |
| Manipulator.EnhanceClassNameRoundTrip | src/main/java/org/jiemamy/utils/enhancer/helper/EnhanceManipulator.java:855-861 | the original name can be read back from the generated one unless a non-reserved name already starts with the marker |
| Manipulator.EnhanceClassNameInjective | src/main/java/org/jiemamy/utils/enhancer/helper/EnhanceManipulator.java:855-861 | under that condition distinct classes get distinct generated names |
| Manipulator.EnhanceClassNameCollision | src/main/java/org/jiemamy/utils/enhancer/helper/EnhanceManipulator.java:855-861 | without it, `java.X__ENHANCED__` and `__ENHANCED__java.X` share a generated name |
| Manipulator.BypassName | src/main/java/org/jiemamy/utils/enhancer/helper/EnhanceManipulator.java:869-873 | at least eight digits then `__BYPASS__`, so it starts with a digit |
| Manipulator.BypassNameRoundTrip | src/main/java/org/jiemamy/utils/enhancer/helper/EnhanceManipulator.java:869-873 | the index can be read back from the bypass name |
| Manipulator.BypassNameInjective | src/main/java/org/jiemamy/utils/enhancer/helper/EnhanceManipulator.java:869-873 | distinct indices give distinct bypass names |
| Manipulator.AdviceTableField | src/main/java/org/jiemamy/utils/enhancer/helper/EnhanceManipulator.java:831-848 | a public static non-final `AdviceApplier[]` field named `__ADVICE_TABLE__` on the target |
| Manipulator.DelegateConstructors | src/main/java/org/jiemamy/utils/enhancer/helper/EnhanceManipulator.java:573-607 | exactly one delegate per public superclass constructor that is not the class initializer, in declaration order, and nothing else |
| Manipulator.DelegatesDistinct | src/main/java/org/jiemamy/utils/enhancer/helper/EnhanceManipulator.java:573-607 | superclass constructors with distinct parameter lists get delegates with distinct parameter lists, so no delegate is added twice |
| Manipulator.CreateInheritedClass | src/main/java/org/jiemamy/utils/enhancer/helper/EnhanceManipulator.java:125-143 | NPE for null, IAE for an interface or enum; otherwise a public final subclass under the generated name with the delegate constructors |
| Manipulator.InheritedKeepsEnhanceableConstructors | src/main/java/org/jiemamy/utils/enhancer/helper/EnhanceManipulator.java:573-617 | every product constructor the collector accepts has a delegate with the same parameters on the subclass |
| Manipulator.CreateCopyClass | src/main/java/org/jiemamy/utils/enhancer/helper/EnhanceManipulator.java:92-109 | NPE for null, IAE for an interface or enum; otherwise the same class under its generated name |
| Manipulator.BypassMethod | src/main/java/org/jiemamy/utils/enhancer/helper/EnhanceManipulator.java:670-723 | a public method named by the index with the target's signature; it throws AbstractMethodError iff the superclass lacks the method, otherwise calls super and returns unless void |
| Manipulator.PointcutMethod | src/main/java/org/jiemamy/utils/enhancer/helper/EnhanceManipulator.java:771-810 | overrides the method with a call through slot `index` of the holder, returning unless void |
| Manipulator.BypassIsolated | src/main/java/org/jiemamy/utils/enhancer/helper/EnhanceManipulator.java:670-723 | a bypass name cannot be a Java identifier written in source, and a bypass never calls advice |
| Manipulator.AdvisedIn | src/main/java/org/jiemamy/utils/enhancer/helper/EnhanceManipulator.java:1006-1016 | exactly the legal methods with at least one handler, in order |
| Manipulator.WeaveSingleProduct | src/main/java/org/jiemamy/utils/enhancer/helper/EnhanceManipulator.java:994-1035 | null iff nothing is advised; advised methods get indices 0, 1, ... with a bypass and a pointcut method each; the table field is created once |
| Manipulator.WeaveMethod | src/main/java/org/jiemamy/utils/enhancer/helper/EnhanceManipulator.java:1006-1030 | one loop round: a result iff the method is advised, namely its bypass, pointcut method and aspect at this index |
| Manipulator.MembersForAt | src/main/java/org/jiemamy/utils/enhancer/helper/EnhanceManipulator.java:1006-1030 | the woven members come in pairs: the bypass numbered `j` followed by the pointcut method numbered `j` |
| Manipulator.WovenSlotsAgree | src/main/java/org/jiemamy/utils/enhancer/helper/EnhanceManipulator.java:994-1035 | the pointcut method numbered `j` calls slot `j` of the registered table, which runs that method's handlers around its bypass |
| Manipulator.WeaveAllProducts | src/main/java/org/jiemamy/utils/enhancer/helper/EnhanceManipulator.java:961-980 | NPEs for the manager then the products; keys are exactly the products with advice, each woven on its own |
| Manipulator.ReplaceToPointcut | src/main/java/org/jiemamy/utils/enhancer/helper/EnhanceManipulator.java:915-942 | NPEs for target, result type, holder in order; the replacement calls the holder's slot `index` and casts to the result type |
| Manipulator.ReceiverIn | src/main/java/org/jiemamy/utils/enhancer/helper/EnhanceManipulator.java:1054-1057 | a `new` in a static context passes the class object, any other passes `this` |
| Manipulator.LoadAndInitializeProducts | src/main/java/org/jiemamy/utils/enhancer/helper/EnhanceManipulator.java:1120-1138 | each product with aspects is loaded and its table registered, once each; the rest are exactly the products without aspects |
| Manipulator.Install | src/main/java/org/jiemamy/utils/enhancer/helper/EnhanceManipulator.java:1070-1102 | NPEs in argument order; every product is loaded, and every product with aspects initialised, before the factory |
| Manipulator.LoadRest | src/main/java/org/jiemamy/utils/enhancer/helper/EnhanceManipulator.java:1090-1094 | every remaining product is loaded after the earlier steps, which stay in place |
| Manipulator.InstalledBeforeFactory | src/main/java/org/jiemamy/utils/enhancer/helper/EnhanceManipulator.java:1070-1102 | once the pairs and the remaining loads are done, every product class is loaded and every product with aspects initialised |
| MethodGroups.KeyOf | src/main/java/org/jiemamy/utils/enhancer/helper/EnhanceManipulator.java:1336-1341 | the key is the method name and the names of its parameter types |
| MethodGroups.SameKey | src/main/java/org/jiemamy/utils/enhancer/helper/EnhanceManipulator.java:1353-1371 | two methods share a key iff they share a name and parameter type names position by position |
| MethodGroups.NewGroup | src/main/java/org/jiemamy/utils/enhancer/helper/EnhanceManipulator.java:1194-1203 | a valid group of one member whose return type is the single maximal type |
| MethodGroups.NotAbove | src/main/java/org/jiemamy/utils/enhancer/helper/EnhanceManipulator.java:1292-1310 | keeps exactly the maximal types the new type is not a subtype of; shrinks iff it is a subtype of one |
| MethodGroups.UpdateMaximallySpecific | src/main/java/org/jiemamy/utils/enhancer/helper/EnhanceManipulator.java:1292-1310 | a new type replaces the maximal types it is a subtype of; an unrelated type is never added |
| MethodGroups.UpdateSingleton | src/main/java/org/jiemamy/utils/enhancer/helper/EnhanceManipulator.java:1292-1310 | from a single maximal type the update leaves a single one, the new type iff it is a proper subtype |
| MethodGroups.Add | src/main/java/org/jiemamy/utils/enhancer/helper/EnhanceManipulator.java:1214-1227 | false and no change iff the return type is recorded; otherwise records the method and updates the maximal types |
| MethodGroups.AddKeepsValid | src/main/java/org/jiemamy/utils/enhancer/helper/EnhanceManipulator.java:1214-1310 | adding keeps a group valid, so it keeps exactly one maximal type |
| MethodGroups.GetMostSpecific | src/main/java/org/jiemamy/utils/enhancer/helper/EnhanceManipulator.java:1246-1255 | IllegalState iff there is no single maximal type; otherwise the member returning it |
| MethodGroups.GetLessSpecific | src/main/java/org/jiemamy/utils/enhancer/helper/EnhanceManipulator.java:1263-1280 | IllegalState iff there is no single maximal type; empty for a one-member group |
| MethodGroups.MostAndLessSplit | src/main/java/org/jiemamy/utils/enhancer/helper/EnhanceManipulator.java:1246-1280 | in a valid group the most specific member and the less specific ones partition the members |
| MethodGroups.AmbiguityCheck | src/main/java/org/jiemamy/utils/enhancer/helper/EnhanceManipulator.java:490-497 | succeeds iff every group has a most specific method, else "has ambigous return type" |
| MethodGroups.AmbiguityUnreachable | src/main/java/org/jiemamy/utils/enhancer/helper/EnhanceManipulator.java:490-497 | over valid groups the check never fails |
| MethodGroups.UnrelatedReturnTypes | src/main/java/org/jiemamy/utils/enhancer/helper/EnhanceManipulator.java:1292-1310 | overloads returning `String` then `Integer` keep `String` as most specific though `Integer` is not its subtype |
| MethodGroups.Pushed | src/main/java/org/jiemamy/utils/enhancer/helper/EnhanceManipulator.java:548-552 | pushing the super-interfaces keeps every old entry and adds exactly the super-interfaces |
| MethodGroups.ReachesTrans | src/main/java/org/jiemamy/utils/enhancer/helper/EnhanceManipulator.java:516-557 | reachability through super-interfaces is transitive |
| MethodGroups.Group | src/main/java/org/jiemamy/utils/enhancer/helper/EnhanceManipulator.java:532-542 | one method joins the table: its key is present afterwards, every earlier member is kept, and the only new member is the method |
| MethodGroups.GroupAll | src/main/java/org/jiemamy/utils/enhancer/helper/EnhanceManipulator.java:535-546 | every method of the list is represented by a valid group of its key, and groups hold only methods seen so far |
| MethodGroups.CollectInterfaceMethods | src/main/java/org/jiemamy/utils/enhancer/helper/EnhanceManipulator.java:516-557 | each reachable interface is visited once by name, all of them when names are unique; every declared method lies in a valid group of its key, one group per key |
| MethodGroups.GroupsOfTable | src/main/java/org/jiemamy/utils/enhancer/helper/EnhanceManipulator.java:556 | the set of the table's groups holds valid groups, one per key, covering every visited method and nothing else |
| NewInstance.Reverse | src/main/java/org/jiemamy/utils/enhancer/helper/NewInstanceEnhancer.java:149-156 | every enhanced class maps back to a base with that enhanced class; with distinct enhanced classes, to its own base |
| NewInstance.ComputeProviderAgrees | src/main/java/org/jiemamy/utils/enhancer/helper/NewInstanceEnhancer.java:223-234 | the provider is the declaring class if it is a base, else its base if it is an enhanced class, else itself |
| NewInstance.FindConstructor | src/main/java/org/jiemamy/utils/enhancer/helper/NewInstanceEnhancer.java:194-205 | a constructor with exactly these parameters, absent iff there is none |
| NewInstance.ActualFor | src/main/java/org/jiemamy/utils/enhancer/helper/NewInstanceEnhancer.java:194-205 | the original constructor for a provider that is no product, else the enhanced class's constructor with the same parameters |
| NewInstance.Edit | src/main/java/org/jiemamy/utils/enhancer/helper/NewInstanceEnhancer.java:162-213 | a site is rewritten iff its constructor is legal and it has handlers or its provider is a product or has aspects; the aspect and call use the next index and the table field |
| NewInstance.PlanStep | src/main/java/org/jiemamy/utils/enhancer/helper/NewInstanceEnhancer.java:178-207 | one site: failure only for a chosen site whose constructor cannot be resolved; otherwise the plan covers one more site and the table holder exists iff some aspect was planned |
| NewInstance.EnhanceFactory | src/main/java/org/jiemamy/utils/enhancer/helper/NewInstanceEnhancer.java:71-104 | NPEs in argument order; null iff no site is rewritten; rewritten sites get indices 0, 1, ... and a missing enhanced constructor is "Cannot compile" |
| NewInstance.ResolvableAll | src/main/java/org/jiemamy/utils/enhancer/helper/NewInstanceEnhancer.java:194-205 | a completed plan found the actual constructor for every rewritten site |
| NewInstance.RewriteRunsItsSlot | src/main/java/org/jiemamy/utils/enhancer/helper/NewInstanceEnhancer.java:178-207 | every rewritten `new` calls, through the registered field, a slot that runs its constructor's handlers around the right actual constructor |
| Collector.Collect | src/main/java/org/jiemamy/utils/enhancer/helper/EnhanceTargetProductCollector.java:54-72 | NPEs for target then manager; a class is collected iff its first enhanceable `new` has advice, in first-encounter order, without repeats |
| Collector.DistinctNames | src/main/java/org/jiemamy/utils/enhancer/helper/EnhanceTargetProductCollector.java:113-121 | each name is examined once, so collected products have distinct names |
| Comparator.Units | src/main/java/org/jiemamy/utils/enhancer/helper/CtClassComparator.java:44-46 | a character below U+10000 is one non-surrogate unit; any other is a high surrogate then a low one |
| Comparator.Utf16RoundTrip | src/main/java/org/jiemamy/utils/enhancer/helper/CtClassComparator.java:44-46 | decoding the UTF-16 units of a name gives the name back |
| Comparator.Utf16Injective | src/main/java/org/jiemamy/utils/enhancer/helper/CtClassComparator.java:44-46 | two names have the same code units exactly when they are equal |
| Comparator.CompareNames | src/main/java/org/jiemamy/utils/enhancer/helper/CtClassComparator.java:44-46 | `String.compareTo` over code units is zero exactly for equal names |
| Comparator.NamesAntisymmetric | src/main/java/org/jiemamy/utils/enhancer/helper/CtClassComparator.java:44-46 | swapping two names negates `compareTo` |
| Comparator.SurrogatesSortBelowHighBmp | src/main/java/org/jiemamy/utils/enhancer/helper/CtClassComparator.java:44-46 | U+FF21 sorts after U+1D400, whose high surrogate is smaller, though its code point is larger |
| Comparator.Compare | src/main/java/org/jiemamy/utils/enhancer/helper/CtClassComparator.java:44-46 | zero iff the names are equal, and swapping the arguments negates the result |
| Comparator.CompareZero | src/main/java/org/jiemamy/utils/enhancer/helper/CtClassComparator.java:44-46 | the code unit comparison is zero exactly for equal unit sequences |
| Comparator.CompareAntisymmetric | src/main/java/org/jiemamy/utils/enhancer/helper/CtClassComparator.java:44-46 | swapping the unit sequences negates the comparison |
| Comparator.CompareNegativeIsLexLess | src/main/java/org/jiemamy/utils/enhancer/helper/CtClassComparator.java:44-46 | a negative result means exactly that the first unit sequence precedes the second lexicographically |
| Comparator.ClassesOrderedByName | src/main/java/org/jiemamy/utils/enhancer/FactoryEnhancer.java:456-458 | the order of the product map is the lexicographic order of the UTF-16 code units of class names |
| Enhancers.ComputeOnce | src/main/java/org/jiemamy/utils/enhancer/FactoryEnhancer.java:314-321 | a cached result is returned unchanged; a first success is cached and the weaving tools dropped; a failure leaves the state as it was |
| Enhancers.FactoryPairError | src/main/java/org/jiemamy/utils/enhancer/FactoryEnhancer.java:238-265 | no error iff the interface is a non-annotation interface and the implementation a public, concrete, direct Object subclass implementing it |
| Enhancers.NewFactoryEnhancer | src/main/java/org/jiemamy/utils/enhancer/FactoryEnhancer.java:224-270 | NPEs for interface, implementation, list; then the pair's IAE; success iff all hold and the list has no null |
| Enhancers.CreateProductMap | src/main/java/org/jiemamy/utils/enhancer/FactoryEnhancer.java:386-395 | keys are exactly the collected products, each mapped to its new subclass with itself as parent |
| Enhancers.MapProducts | src/main/java/org/jiemamy/utils/enhancer/FactoryEnhancer.java:386-395 | the loop over the collected products succeeds iff every one can be subclassed; then it maps exactly them, each to its new subclass |
| Enhancers.InheritOne | src/main/java/org/jiemamy/utils/enhancer/FactoryEnhancer.java:386-395 | one product is mapped to its new subclass iff it can be subclassed |
| Enhancers.InheritedDistinct | src/main/java/org/jiemamy/utils/enhancer/helper/EnhanceManipulator.java:125-143 | distinct products get distinct subclasses |
| Enhancers.AllWeaveTargetsEnhanced | src/main/java/org/jiemamy/utils/enhancer/FactoryEnhancer.java:441-449 | true iff every product with aspects is a key of the product map |
| Enhancers.PrepareEnhanced | src/main/java/org/jiemamy/utils/enhancer/FactoryEnhancer.java:354-372 | a copy failing validation fails; success yields the validated copy and a product map whose aspect keys it covers, with every product installed before the factory; the product aspects are exactly those of the products with advice, one planned aspect per advised method under the product's table field; every `new` the factory rewrites resolves, the factory has aspects iff some `new` is rewritten, and its aspects and rewrites are the plan for those sites in order |
| Enhancers.GetEnhanced | src/main/java/org/jiemamy/utils/enhancer/FactoryEnhancer.java:314-321 | a first success returns the validated copy and drops the tools; later calls return it unchanged; failure changes nothing |
| Enhancers.CheckFactoryInterface | src/main/java/org/jiemamy/utils/enhancer/InterfaceEnhancer.java:251-264 | passes iff the factory is a public interface |
| Enhancers.CheckProductSuperClass | src/main/java/org/jiemamy/utils/enhancer/InterfaceEnhancer.java:272-303 | passes iff the class is normal, public, not abstract, not final, with a public no-argument constructor |
| Enhancers.ComputeProductInterfaces | src/main/java/org/jiemamy/utils/enhancer/InterfaceEnhancer.java:339-363 | IAE iff some factory method not declared by Object returns a non-interface or non-public type; otherwise exactly the return types of the factory methods |
| Enhancers.NewInterfaceEnhancer | src/main/java/org/jiemamy/utils/enhancer/InterfaceEnhancer.java:191-211 | NPEs, then the factory-interface check before the superclass check; success iff every input is present, both checks pass, every factory method returns a public interface and the enhance list is valid; the products are then exactly the factory methods' return types |

## Where the model follows the code rather than its documentation

- Handler order. `invoke` wraps the handlers one by one, so `handlers[n - 1]`
  is entered first (`AdviceApplier.FoldEntersLastFirst`). The constructor
  documentation of `FactoryEnhancer` (FactoryEnhancer.java:188-197) and
  `InterfaceEnhancer` (InterfaceEnhancer.java:175-184) describes the
  opposite priority. The model follows the code, and the worked examples
  `ConstructorHandlersExample` and `MethodHandlersExample` agree with the
  repository's tests.
- `hasApplicableMethod` is documented to return `null` for some inputs. The
  code returns `false`, and so does the model.
- `ConstructorInvocation` rejects a `null` factory with an NPE, like the other
  three arguments.
- `Pointcuts.or` matches when at least one term matches. That is what the
  two-argument form's documentation and the tests of `Pointcuts` say. The
  many-argument form's documentation says a term returning false makes it
  match. `OrInvocationPointcut.java` is not part of this model.
- `filterMaximallySpecifics` is only ever called with candidates of equal
  arity. Its comparison loop would index out of range otherwise, so the model
  requires equal arity.
- The ambiguity check of `createProductImplementation`
  (EnhanceManipulator.java:490-497) cannot fail. `MethodGroup.update` never
  adds a return type that is unrelated to the current maximal one, so the
  maximal list always has exactly one element (`MethodGroups.AddKeepsValid`,
  `MethodGroups.AmbiguityUnreachable`). As a result, two overloads returning
  `String` and `Integer` are accepted with the first one winning
  (`MethodGroups.UnrelatedReturnTypes`).
- `getEnhanceClassName` is not injective on every input. The name
  `java.X__ENHANCED__` (a reserved package, so the marker goes in front) and
  the name `__ENHANCED__java.X` (not reserved, so the marker goes behind)
  give the same generated name (`Manipulator.EnhanceClassNameCollision`).
  The round trip and injectivity are proved for every name outside that
  corner.

## Modelling choices

- The Javassist class pool, the bytecode of the factory and the JVM are
  parameters:
  - classes are `ClassInfo` values;
  - `new` expressions are `Site`s;
  - the constant pool is a sequence of `Entry` values;
  - a class lookup is a function `Type -> ClassInfo`;
  - pointcut decisions are an `Oracle`.
- The product map is keyed by `Type`. The source uses a `TreeMap` keyed
  through `CtClassComparator`, which compares names. `Comparator.CompareZero`
  shows that two keys collide there exactly when their names are equal, and
  `Collector.DistinctNames` shows that collected products have distinct
  names. The accessibility memo is keyed by `Type` as well.
- Most error messages keep only their fixed text, or their fixed text and
  a class name; the other parts `MessageFormat` fills in are dropped.
  `AdviceApplier.LoadConstructor` and `LoadMethod` render their patterns in
  full: `{0}` is the class's `toString()` ("class " or "interface " and
  the name), `{1}` the simple name or the method name, and `({2})` the
  parameter list of `toParams`, which brings its own parentheses, so the
  message shows them doubled. `createInheritedClass` and `createCopyClass`
  reject interfaces and enums with an empty message.
- A handler is one of a few behaviours:
  - pass through;
  - insert a string in front of the first argument;
  - append a string to a string result;
  - pass through without unwrapping (`Plain`);
  - return a value without proceeding;
  - throw.

  The first three follow the idiom `InvocationHandler` documents: they
  catch the InvocationTargetException `proceed` throws and rethrow its
  cause. `Plain` is the bare `return invocation.proceed()` of the tests,
  which lets that exception through, so each such layer adds one wrapping
  (`Invocations.PlainNests`, `AdviceApplier.InvokeNestsTargetException`).
  This is enough to state the ordering, argument-passing and exception
  properties of the chain.
- `Reflection` resolves overloads over `Type`, with `null` as an absent
  type; like `isAssignableFrom`, it does not widen primitives.
  `Invocations.Call` stands for `Method.invoke` and
  `Constructor.newInstance`: an argument fits a reference parameter when it
  is null or an instance, and a primitive parameter when it is a wrapper
  whose value widens to it (section 5.1.2 of the Java Language
  Specification). Arguments that do not fit raise IAE, and an exception
  from the member's body arrives wrapped. `Reflection.Instantiate`
  composes `ReflectionFactory`'s resolution with that call, so a `null`
  that resolution accepts for an `int` parameter is rejected by the call
  (`ReflectionExamples.NullForIntConstructor`).
- Names are compared as Java strings are: by their UTF-16 code units, a
  character beyond U+FFFF counting as its two surrogates
  (`Comparator.Utf16`).
- A `ClassInfo` holds both views Javassist offers of a class's members:
  the visible ones (`getMethods()`, `getFields()`, and the non-private
  constructors of `getConstructors()`), which the validator's loops visit,
  and the declared ones of any access, which its reference lookups
  (`getMethod`, `getDeclaredField`, `getConstructor`) search.

## Left out

- `createProductImplementation`, `createFactoryImplementation`,
  `createImplementation`, the `InterfaceEnhancer` `createFactory` and
  `createProductMap`, and their helpers (`implementFactoryMethod`,
  `createProductConstructor`, `createBridgeMethods`, `isConstructorExist`):
  these generate whole classes from interfaces as bytecode. Only their
  ambiguity check and `collectInterfaceMethods` are modelled.
- `isBodyDeclared`, and the emission of method bodies as Java source text
  for the Javassist compiler: the woven code is modelled as the `Code`
  datatype instead.
- `JavassistConverter` (only the aspect-to-table mapping `Aspects.TableFor`
  is modelled), class loading, `EmptyClassLoader`, and the reflective field
  write in `registerAdviceTable`: the JVM is not modelled, and loading and
  initialising are steps in a sequence.
- `AbstractEnhancer.getFactory`, the drivers that instantiate the enhanced
  factory, `synchronized` and `volatile`: concurrency and reflection on the
  running JVM.
- The `toString` renderings of `Enhance`, `MethodGroup`, `NameAndParameter`
  and the invocation classes: debugging output only.
- `CtClass.freeze`: `Accessibility.Validate` takes frozenness as a
  parameter. `collect` freezes the declaring class of every `new` it
  inspects in another class, and every product it collects; that is not
  modelled, since it only forbids later edits of those classes, and the
  model never edits them.
- The `EnhanceException`s wrapping a Javassist `CannotCompileException` or
  `NotFoundException` while members are generated. These are "Cannot
  inherit", "Cannot resolve superclass", "Cannot inspect constructor",
  "Cannot delegate constructor", "Cannot create bypass method", "Cannot
  create pointcut method" and "Cannot create advice table field". Generated
  members are values in the model, and they cannot fail to compile.
- The `CannotCompileException` that `collect` can report ("Cannot collect
  target products"): `instrument` is modelled as a pure scan of the `new`
  expressions, which cannot fail.
- Logging, and the `cause` carried by `EnhanceException`: they do not
  change behaviour.
- The `getDeclaringClass()` lookups that can throw `NotFoundException`: the
  class pool of the model resolves every name it holds, and a name it does
  not hold is "Type not found".
- Manipulator.CreateCopyClass: requires the copied class to be a declared
  type rather than a primitive or array, which the source never passes.
  It keeps the members as they are rather than modelling a bytecode copy.
- AdviceApplier.SimpleName: derives `getSimpleName()` from the binary name
  (the part after the package, then after the last `$` and a local class's
  digits) instead of reading the `InnerClasses` attribute; the two agree for
  classes javac compiles.
- Enhancers.ComputeProductInterfaces: the IAE messages omit the "({0})"
  rendering of the offending method.
- NewInstance.Reverse: the map back to the base is only specified to be the
  inverse when enhanced classes are distinct, which `createInheritedClass`
  gives for distinct products (`Enhancers.InheritedDistinct`).
- NewInstance.EnhanceFactory: a `CannotCompileException` from the rewrite is
  reported as "Cannot compile" with the factory's name. The source reports
  the same exception with its own cause.
- Manipulator.DeclaresMethod: reads the non-private methods a class has or
  inherits, where `getMethod` would also find a private method the class
  itself declares. The two differ only when the superclass declares a
  private method with the name and descriptor of a method being woven.
- Reflection.FilterMaximallySpecifics: requires candidates of equal arity,
  as every caller passes.
