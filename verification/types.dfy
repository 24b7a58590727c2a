/** The type and member universe the enhancer reasons about.

    Javassist's `CtClass`/`CtBehavior` and reflection's `Class`/`Method` are
    both descriptors of classes and members.  They become one structural
    datatype: a declared class carries its enclosing class and its supertypes
    as values, so every walk up a chain terminates by structure.
 */
module Types {
  import opened Wrappers

  /** Modifier bits of `java.lang.reflect.Modifier` (and the JVM's access flags). */
  const PUBLIC: bv32 := 0x0001
  const PRIVATE: bv32 := 0x0002
  const PROTECTED: bv32 := 0x0004
  const STATIC: bv32 := 0x0008
  const FINAL: bv32 := 0x0010
  const BRIDGE: bv32 := 0x0040
  const ABSTRACT: bv32 := 0x0400
  const SYNTHETIC: bv32 := 0x1000

  /** The flag test of the source: every bit of `mask` is set in `flags`. */
  predicate Is(flags: bv32, mask: bv32) {
    flags & mask == mask
  }

  /** javassist's and reflection's `Modifier.isPublic`, `isStatic`, ...: the bit is set. */
  predicate Has(flags: bv32, bit: bv32) {
    flags & bit != 0
  }

  datatype PrimKind = Boolean | Byte | Char | Short | Int | Long | Float | Double | VoidKind

  /** What a declared type is; annotation types are interfaces, as in Java. */
  datatype TypeKind = ClassKind | InterfaceKind | EnumKind | AnnotationKind

  /** Where a declared type is declared. */
  datatype Nesting = TopLevel | MemberClass | LocalClass | AnonymousClass

  datatype Type =
    | Primitive(prim: PrimKind)       // includes `void`, as javassist's voidType
    | Array(component: Type)
    | Declared(name: string, mods: bv32, kind: TypeKind, nesting: Nesting,
               declaring: Option<Type>, superclass: Option<Type>, interfaces: seq<Type>)
  {
    predicate IsPrimitive() { Primitive? }
    predicate IsArray() { Array? }
    predicate IsReference() { !Primitive? }
    predicate IsInterface() { Declared? && (kind == InterfaceKind || kind == AnnotationKind) }
    predicate IsAnnotation() { Declared? && kind == AnnotationKind }
    predicate IsEnum() { Declared? && kind == EnumKind }
    predicate IsMember() { Declared? && nesting == MemberClass }
    predicate IsLocal() { Declared? && nesting == LocalClass }
    predicate IsAnonymous() { Declared? && nesting == AnonymousClass }

    /** Modifiers as `getModifiers()` reports them: primitives are public,
        abstract and final; an array takes its access bits from its
        component type and is abstract and final. */
    function Modifiers(): bv32 {
      match this
      case Declared(_, m, _, _, _, _, _) => m
      case Array(c) => (c.Modifiers() & (PUBLIC | PROTECTED | PRIVATE)) | ABSTRACT | FINAL
      case Primitive(_) => PUBLIC | ABSTRACT | FINAL
    }

    /** The binary name, as `getName()` reports it. */
    function Name(): string {
      match this
      case Primitive(k) => PrimName(k)
      case Array(c) => c.Name() + "[]"
      case Declared(n, _, _, _, _, _, _) => n
    }

    /** The innermost component of an array type; the type itself otherwise. */
    function Innermost(): (t: Type)
      ensures !t.Array?
    {
      if Array? then component.Innermost() else this
    }
  }

  function PrimName(k: PrimKind): string {
    match k
    case Boolean => "boolean"
    case Byte => "byte"
    case Char => "char"
    case Short => "short"
    case Int => "int"
    case Long => "long"
    case Float => "float"
    case Double => "double"
    case VoidKind => "void"
  }

  const ObjectType: Type :=
    Declared("java.lang.Object", PUBLIC, ClassKind, TopLevel, None, None, [])
  const NumberType: Type :=
    Declared("java.lang.Number", PUBLIC | ABSTRACT, ClassKind, TopLevel, None, Some(ObjectType), [])
  const StringType: Type :=
    Declared("java.lang.String", PUBLIC | FINAL, ClassKind, TopLevel, None, Some(ObjectType), [])

  /** The two interfaces every array type implements (section 4.10.3 of the
      Java Language Specification). */
  const CloneableType: Type :=
    Declared("java.lang.Cloneable", PUBLIC | ABSTRACT, InterfaceKind, TopLevel, None, None, [])
  const SerializableType: Type :=
    Declared("java.io.Serializable", PUBLIC | ABSTRACT, InterfaceKind, TopLevel, None, None, [])

  /** The wrapper class of a primitive type; `void` has none. */
  function Box(k: PrimKind): (r: Option<Type>)
    ensures r.Some? <==> k != VoidKind
    ensures r.Some? ==> r.value.Declared? && r.value.kind == ClassKind
  {
    match k
    case Int => Some(Wrapper("java.lang.Integer", NumberType))
    case Long => Some(Wrapper("java.lang.Long", NumberType))
    case Float => Some(Wrapper("java.lang.Float", NumberType))
    case Double => Some(Wrapper("java.lang.Double", NumberType))
    case Short => Some(Wrapper("java.lang.Short", NumberType))
    case Byte => Some(Wrapper("java.lang.Byte", NumberType))
    case Char => Some(Wrapper("java.lang.Character", ObjectType))
    case Boolean => Some(Wrapper("java.lang.Boolean", ObjectType))
    case VoidKind => None
  }

  /** The primitive whose wrapper class `c` is, if any. */
  function Unbox(c: Type): (r: Option<PrimKind>)
    ensures r.Some? ==> Box(r.value) == Some(c)
    ensures r.None? ==> forall k :: Box(k) != Some(c)
  {
    if Box(Int) == Some(c) then Some(Int)
    else if Box(Long) == Some(c) then Some(Long)
    else if Box(Float) == Some(c) then Some(Float)
    else if Box(Double) == Some(c) then Some(Double)
    else if Box(Short) == Some(c) then Some(Short)
    else if Box(Byte) == Some(c) then Some(Byte)
    else if Box(Char) == Some(c) then Some(Char)
    else if Box(Boolean) == Some(c) then Some(Boolean)
    else None
  }
  /** Unboxing a wrapper class gives back the primitive it boxes. */
  lemma UnboxBox(k: PrimKind)
    requires k != VoidKind
    ensures Unbox(Box(k).value) == Some(k)
  {
  }


  /** Identity or widening primitive conversion (section 5.1.2 of the Java
      Language Specification). */
  predicate Widens(from: PrimKind, to: PrimKind) {
    from == to
    || match from
       case Byte => to == Short || to == Int || to == Long || to == Float || to == Double
       case Short => to == Int || to == Long || to == Float || to == Double
       case Char => to == Int || to == Long || to == Float || to == Double
       case Int => to == Long || to == Float || to == Double
       case Long => to == Float || to == Double
       case Float => to == Double
       case _ => false
  }

  /** Widening is a partial order, and `boolean` and `void` widen to
      nothing but themselves. */
  lemma WidensOrder(a: PrimKind, b: PrimKind, c: PrimKind)
    ensures Widens(a, b) && Widens(b, c) ==> Widens(a, c)
    ensures Widens(a, b) && Widens(b, a) ==> a == b
    ensures (a == Boolean || a == VoidKind) ==> (Widens(a, b) <==> a == b)
  {
  }

  function Wrapper(name: string, sup: Type): Type {
    Declared(name, PUBLIC | FINAL, ClassKind, TopLevel, None, Some(sup), [])
  }

  /** `sub.subclassOf(sup)` of javassist: walks the superclass chain of `sub`,
      itself included, comparing names. */
  predicate SubclassOf(sub: Type, sup: Type) {
    sub.Name() == sup.Name()
    || (sub.Declared? && sub.superclass.Some? && SubclassOf(sub.superclass.value, sup))
  }

  /** `sup.isAssignableFrom(sub)` of `java.lang.Class`: identity, every
      reference type to Object, the superclass and the interfaces of a
      declared type, every array type to Cloneable and Serializable, and
      arrays covariantly on reference components. */
  predicate SubtypeOf(sub: Type, sup: Type) {
    if sub == sup then true
    else if sub.Primitive? || sup.Primitive? then false
    else if sup == ObjectType then true
    else match sub
      case Array(c) =>
        sup == CloneableType || sup == SerializableType
        || (sup.Array? && c.IsReference() && SubtypeOf(c, sup.component))
      case Declared(_, _, _, _, _, sc, ifs) =>
        (sc.Some? && SubtypeOf(sc.value, sup))
        || (exists i :: 0 <= i < |ifs| && SubtypeOf(ifs[i], sup))
  }

  /** A measure every proper supertype other than Object lowers: Object
      lies below Cloneable and Serializable, which lie below every array
      type, and a declared type lies above all its direct supertypes. */
  function Height(t: Type): nat {
    if t == ObjectType then 0
    else if t == CloneableType || t == SerializableType then 1
    else match t
      case Primitive(_) => 0
      case Array(c) => 2 + Height(c)
      case Declared(_, _, _, _, _, sc, ifs) => 1 + (if sc.Some? then Height(sc.value) else 0) + Heights(ifs)
  }

  function Heights(ts: seq<Type>): nat {
    if |ts| == 0 then 0 else Height(ts[0]) + Heights(ts[1..])
  }

  lemma {:induction false} HeightsBound(ts: seq<Type>, i: nat)
    requires i < |ts|
    ensures Height(ts[i]) <= Heights(ts)
  {
    if i > 0 {
      HeightsBound(ts[1..], i - 1);
    }
  }

  /** Object is a subtype of nothing but itself. */
  lemma ObjectIsTop(t: Type)
    requires SubtypeOf(ObjectType, t)
    ensures t == ObjectType
  {
  }

  /** A proper supertype is Object or lies lower. */
  lemma {:induction false} SubtypeLowers(a: Type, b: Type)
    requires SubtypeOf(a, b) && a != b
    ensures b == ObjectType || Height(b) < Height(a)
    decreases a
  {
    if b != ObjectType {
      match a
      case Array(c) =>
        if b.Array? && b != CloneableType && b != SerializableType {
          if c != b.component {
            SubtypeLowers(c, b.component);
          }
        }
      case Declared(_, _, _, _, _, sc, ifs) =>
        if sc.Some? && SubtypeOf(sc.value, b) {
          if sc.value != b {
            SubtypeLowers(sc.value, b);
          }
        } else {
          var i :| 0 <= i < |ifs| && SubtypeOf(ifs[i], b);
          HeightsBound(ifs, i);
          if ifs[i] != b {
            SubtypeLowers(ifs[i], b);
          }
        }
    }
  }

  /** `isAssignableFrom` both ways only between a type and itself. */
  lemma SubtypeAntisymmetric(a: Type, b: Type)
    requires SubtypeOf(a, b) && SubtypeOf(b, a)
    ensures a == b
  {
    if a != b {
      SubtypeLowers(a, b);
      SubtypeLowers(b, a);
      if b == ObjectType {
        ObjectIsTop(a);
      } else if a == ObjectType {
        ObjectIsTop(b);
      }
    }
  }

  /** `isAssignableFrom` is transitive. */
  lemma {:induction false} SubtypeTransitive(a: Type, b: Type, c: Type)
    requires SubtypeOf(a, b) && SubtypeOf(b, c)
    ensures SubtypeOf(a, c)
    decreases a
  {
    if a != b && b != c && a != c && c != ObjectType {
      if b == ObjectType {
        ObjectIsTop(c);
      } else {
        match a
        case Array(ac) =>
          if b.Array? && c.Array? {
            SubtypeTransitive(ac, b.component, c.component);
          }
        case Declared(_, _, _, _, _, sc, ifs) =>
          if sc.Some? && SubtypeOf(sc.value, b) {
            SubtypeTransitive(sc.value, b, c);
          } else {
            var i :| 0 <= i < |ifs| && SubtypeOf(ifs[i], b);
            SubtypeTransitive(ifs[i], b, c);
          }
      }
    }
  }

  /** A method, a constructor or a static initializer, as a descriptor. */
  datatype BehaviourKind = MethodKind | ConstructorKind | InitializerKind

  datatype Behaviour = Behaviour(
    kind: BehaviourKind,
    declaring: Type,
    name: string,
    params: seq<Type>,
    returnType: Type,
    mods: bv32,
    exceptions: seq<Type>)
  {
    predicate IsMethod() { kind == MethodKind }
    /** javassist models constructors and static initializers as `CtConstructor`. */
    predicate IsConstructorLike() { kind == ConstructorKind || kind == InitializerKind }
  }

  /** A field descriptor. */
  datatype Field = Field(declaring: Type, name: string, fieldType: Type, mods: bv32)

  /** A class together with the members the enhancer enumerates. */
  datatype ClassInfo = ClassInfo(
    self: Type,
    methods: seq<Behaviour>,          // getMethods(): non-private methods, inherited ones included
    declaredMethods: seq<Behaviour>,  // the methods the class itself declares, of any access
    constructors: seq<Behaviour>,     // every declared constructor and the static initializer, of any access
    fields: seq<Field>,               // getFields(): non-private fields, inherited ones included
    declaredFields: seq<Field>)       // the fields the class itself declares, of any access

}
