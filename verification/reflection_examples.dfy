/** Worked cases of the overload resolver over a few classes of
    `java.lang`, each restricted to the members the case needs. */
module ReflectionExamples {
  import opened Wrappers
  import opened Types
  import opened Invocations
  import opened Reflection

  const IntegerType: Type := Box(Int).value
  const LongType: Type := Box(Long).value
  const CharArray: Type := Array(Primitive(Char))

  function Ctor(owner: Type, params: seq<Type>): Behaviour {
    Behaviour(ConstructorKind, owner, "<init>", params, Primitive(VoidKind), PUBLIC, [])
  }

  function ValueOf(param: Type): Behaviour {
    Behaviour(MethodKind, StringType, "valueOf", [param], StringType, PUBLIC | STATIC, [])
  }

  /** A mask that keeps everything selects the whole sequence. */
  lemma {:induction false} SelectAll<T>(xs: seq<T>, keep: seq<bool>)
    requires |keep| == |xs| && forall i :: 0 <= i < |keep| ==> keep[i]
    ensures Select(xs, keep) == xs
    decreases |xs|
  {
    if |xs| > 0 {
      var n := |xs| - 1;
      SelectAll(xs[..n], keep[..n]);
      assert xs[..n] + [xs[n]] == xs;
    }
  }

  /** `Integer(int)` and `Integer(String)`. */
  const IntegerClass: ClassInfo :=
    ClassInfo(IntegerType, [], [], [Ctor(IntegerType, [Primitive(Int)]), Ctor(IntegerType, [StringType])], [], [])

  /** `String(String)` and `String(char[])`. */
  const StringClass: ClassInfo :=
    ClassInfo(StringType, [], [], [Ctor(StringType, [StringType]), Ctor(StringType, [CharArray])], [], [])

  /** A `Long` argument fits neither constructor of `Integer`: a reference
      argument only unboxes into the primitive its own wrapper boxes. */
  lemma LongForInteger()
    ensures MakeFactory(Some(IntegerClass)) == Ok(Factory(IntegerClass))
    ensures NewInstance(Factory(IntegerClass), Some([Obj(LongType, "100")]))
            == Err(IllegalArgument("No applicable constructors"))
  {
    IntegerFactory();
    var args := ToParameterTypes(Some([Obj(LongType, "100")])).value;
    assert args == [Some(LongType)];
    LongFitsNoIntegerConstructor();
  }

  /** `Integer` is a public, concrete, top-level class. */
  lemma IntegerFactory()
    ensures MakeFactory(Some(IntegerClass)) == Ok(Factory(IntegerClass))
  {
  }

  lemma LongFitsNoIntegerConstructor()
    ensures forall c :: c in PublicConstructors(IntegerClass) ==> !Applicable([Some(LongType)], c.params)
  {
    LongNotApplicable();
    IntegerConstructorsPublic();
    var cs := IntegerClass.constructors;
    assert cs[0].params == [Primitive(Int)] && cs[1].params == [StringType];
    forall c | c in cs
      ensures !Applicable([Some(LongType)], c.params)
    {
      assert c == cs[0] || c == cs[1];
      assert !IsApplicable([Some(LongType)][0], c.params[0]);
    }
  }

  /** A `Long` fits neither an `int` nor a `String` parameter. */
  lemma LongNotApplicable()
    ensures !IsApplicable(Some(LongType), Primitive(Int))
    ensures !IsApplicable(Some(LongType), StringType)
  {
    assert !SubtypeOf(ObjectType, IntegerType);
    assert !SubtypeOf(NumberType, IntegerType);
    assert !SubtypeOf(LongType, IntegerType);
    assert !SubtypeOf(ObjectType, StringType);
    assert !SubtypeOf(NumberType, StringType);
    assert !SubtypeOf(LongType, StringType);
  }

  /** A class whose only constructor is `Integer(int)`. */
  const IntOnlyClass: ClassInfo :=
    ClassInfo(IntegerType, [], [], [Ctor(IntegerType, [Primitive(Int)])], [], [])

  /** A `null` argument resolves to an `int` constructor, because the null
      type fits every parameter, but the call itself then rejects it: the
      constructor is never run, whatever its body. */
  lemma NullForIntConstructor(bodies: Behaviour -> Body)
    ensures NewInstance(Factory(IntOnlyClass), Some([Null])) == Ok(Ctor(IntegerType, [Primitive(Int)]))
    ensures Instantiate(Factory(IntOnlyClass), Some([Null]), bodies)
            == Raised(Failure(IllegalArgument("argument type mismatch")))
  {
    IntOnlyPublic();
    assert ToParameterTypes(Some([Null])).value == [None];
    NullKeepsIntConstructor();
    NullDoesNotFitInt();
  }

  lemma IntOnlyPublic()
    ensures PublicConstructors(IntOnlyClass) == [Ctor(IntegerType, [Primitive(Int)])]
  {
    var cs := IntOnlyClass.constructors;
    var keep := seq(|cs|, i requires 0 <= i < |cs| => cs[i].kind == ConstructorKind && Has(cs[i].mods, PUBLIC));
    assert keep[0];
    SelectAll(cs, keep);
  }

  lemma NullKeepsIntConstructor()
    ensures FindConstructor(Some([Ctor(IntegerType, [Primitive(Int)])]), Some([None])).value
            == [Ctor(IntegerType, [Primitive(Int)])]
  {
    var c := Ctor(IntegerType, [Primitive(Int)]);
    assert Applicable([None], c.params);
    var r := FindConstructor(Some([c]), Some([None])).value;
    assert |r| > 0;
    var k :| |k| == 1 && r == Select([c], k);
    assert |r| <= 1 && r[0] in r;
  }

  lemma NullDoesNotFitInt()
    ensures !ArgumentsFit([Primitive(Int)], [Null])
  {
    assert ClassOf(Null) == None;
    assert !Fits([Primitive(Int)][0], [Null][0]);
  }

  /** A `null` argument fits both constructors of `String`, and neither
      parameter type is more specific than the other. */
  lemma NullForString()
    ensures NewInstance(Factory(StringClass), Some([Null])) == Err(IllegalArgument("Ambiguous target constructors"))
  {
    StringConstructorsPublic();
    assert ToParameterTypes(Some([Null])).value == [None];
    NullKeepsBothStringConstructors();
  }

  lemma NullKeepsBothStringConstructors()
    ensures |FindConstructor(Some(StringClass.constructors), Some([None])).value| == 2
  {
    var cs := StringClass.constructors;
    StringConstructorsIncomparable();
    var n := 1;
    var arity := ArityMask(cs, n);
    assert arity[0] && arity[1];
    SelectAll(cs, arity);
    KeepsBoth(cs, [None]);
  }

  lemma IntegerConstructorsPublic()
    ensures PublicConstructors(IntegerClass) == IntegerClass.constructors
  {
    var cs := IntegerClass.constructors;
    var keep := seq(|cs|, i requires 0 <= i < |cs| => cs[i].kind == ConstructorKind && Has(cs[i].mods, PUBLIC));
    assert keep[0] && keep[1];
    SelectAll(cs, keep);
  }

  lemma StringConstructorsPublic()
    ensures PublicConstructors(StringClass) == StringClass.constructors
  {
    var cs := StringClass.constructors;
    var keep := seq(|cs|, i requires 0 <= i < |cs| => cs[i].kind == ConstructorKind && Has(cs[i].mods, PUBLIC));
    assert keep[0] && keep[1];
    SelectAll(cs, keep);
  }

  lemma StringConstructorsIncomparable()
    ensures !Dominates([StringType], [CharArray]) && !Dominates([CharArray], [StringType])
  {
    assert !SubtypeOf(ObjectType, CharArray);
    assert !MoreSpecificType(StringType, CharArray);
    assert !MoreSpecificType(CharArray, StringType);
  }

  /** Two applicable candidates neither of which dominates the other are both kept. */
  lemma KeepsBoth(cs: seq<Behaviour>, args: seq<Option<Type>>)
    requires |cs| == 2 && Applicable(args, cs[0].params) && Applicable(args, cs[1].params)
    requires !Dominates(cs[0].params, cs[1].params) && !Dominates(cs[1].params, cs[0].params)
    ensures |Resolve(cs, args)| == 2
  {
    var mask := seq(|cs|, i requires 0 <= i < |cs| => Applicable(args, cs[i].params));
    assert mask[0] && mask[1];
    SelectAll(cs, mask);
    assert AliveAfter(cs, 1) == [true, true];
    assert Survivors(cs) == [true, true];
    SelectAll(cs, Survivors(cs));
  }

  /** `String.valueOf(Integer)` resolves to `valueOf(int)` rather than
      `valueOf(Object)`: a primitive parameter wins over the reference one
      its box is assignable to. */
  lemma ValueOfInteger()
    ensures FindMethod(Some([ValueOf(ObjectType), ValueOf(Primitive(Int))]), Some("valueOf"), Some([Some(IntegerType)]))
            == Ok([ValueOf(Primitive(Int))])
  {
    var ms := [ValueOf(ObjectType), ValueOf(Primitive(Int))];
    var pmask := NameArityMask(ms, "valueOf", 1);
    assert pmask[0] && pmask[1];
    SelectAll(ms, pmask);
    PrimitiveValueOfWins();
  }

  /** Both `valueOf` overloads apply to an `Integer`, and only the `int` one
      survives. */
  lemma PrimitiveValueOfWins()
    ensures Resolve([ValueOf(ObjectType), ValueOf(Primitive(Int))], [Some(IntegerType)]) == [ValueOf(Primitive(Int))]
  {
    IntDominatesObject();
    KeepsSecond([ValueOf(ObjectType), ValueOf(Primitive(Int))], [Some(IntegerType)]);
  }

  lemma IntDominatesObject()
    ensures Applicable([Some(IntegerType)], ValueOf(ObjectType).params)
    ensures Applicable([Some(IntegerType)], ValueOf(Primitive(Int)).params)
    ensures Dominates(ValueOf(Primitive(Int)).params, ValueOf(ObjectType).params)
    ensures !Dominates(ValueOf(ObjectType).params, ValueOf(Primitive(Int)).params)
  {
    assert !MoreSpecificType(ObjectType, Primitive(Int));
    assert MoreSpecificType(Primitive(Int), ObjectType);
    assert ValueOf(Primitive(Int)).params[0] != ValueOf(ObjectType).params[0];
  }

  /** Of two applicable candidates, the one dominated by the other is
      struck. */
  lemma KeepsSecond(cs: seq<Behaviour>, args: seq<Option<Type>>)
    requires |cs| == 2 && Applicable(args, cs[0].params) && Applicable(args, cs[1].params)
    requires Dominates(cs[1].params, cs[0].params) && !Dominates(cs[0].params, cs[1].params)
    ensures Resolve(cs, args) == [cs[1]]
  {
    var mask := seq(|cs|, i requires 0 <= i < |cs| => Applicable(args, cs[i].params));
    assert mask[0] && mask[1];
    SelectAll(cs, mask);
    SecondSurvives(cs);
  }

  lemma SecondSurvives(cs: seq<Behaviour>)
    requires |cs| == 2 && Dominates(cs[1].params, cs[0].params) && !Dominates(cs[0].params, cs[1].params)
    ensures Select(cs, Survivors(cs)) == [cs[1]]
  {
    assert AliveAfter(cs, 1) == [true, true];
    assert Survivors(cs) == [false, true];
    assert cs[..1][..0] == [] && [false, true][..1] == [false];
  }

  /** An `int[]` argument applies to a `Cloneable` or `Serializable`
      parameter, as `isAssignableFrom` accepts, but not to `Object[]`. */
  lemma ArrayForCloneable()
    ensures IsApplicable(Some(Array(Primitive(Int))), CloneableType)
    ensures IsApplicable(Some(Array(Primitive(Int))), SerializableType)
    ensures !IsApplicable(Some(Array(Primitive(Int))), Array(ObjectType))
  {
  }
}
