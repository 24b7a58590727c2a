/** The records the weaver hands to the runtime: `Aspect` (one advised
    member), `AspectList` (the aspects of one class together with the static
    field that will hold their appliers) and `AdviceTable` (an aspect list
    paired with the appliers built from it).

    Generated code calls `table[i].invoke(...)` for the member woven with
    index `i`; `RegisteredSlots` states that slot `i` of the registered
    table runs exactly the handlers of aspect `i`.
 */
module Aspects {
  import opened Wrappers
  import opened Types
  import opened Invocations
  import opened AdviceApplier

  /** `Aspect<T>`: the member callers asked for, the member that really runs,
      and the handlers in priority order. */
  datatype Aspect = Aspect(original: Behaviour, actual: Behaviour, handlers: seq<Handler>)

  /** The `Aspect` constructor: original, actual, then handlers are checked;
      the handler list is copied, so the aspect keeps the list as given. */
  function MakeAspect(original: Option<Behaviour>, actual: Option<Behaviour>, handlers: Option<seq<Handler>>)
    : (r: Result<Aspect>)
    ensures original.None? ==> r == Err(NullPointer("original"))
    ensures original.Some? && actual.None? ==> r == Err(NullPointer("actual"))
    ensures original.Some? && actual.Some? && handlers.None? ==> r == Err(NullPointer("handlers"))
    ensures r.Ok? <==> original.Some? && actual.Some? && handlers.Some?
    ensures r.Ok? ==> r.value.original == original.value && r.value.actual == actual.value
                      && r.value.handlers == handlers.value
  {
    if original.None? then Err(NullPointer("original"))
    else if actual.None? then Err(NullPointer("actual"))
    else if handlers.None? then Err(NullPointer("handlers"))
    else Ok(Aspect(original.value, actual.value, handlers.value))
  }

  /** `AspectList<T>`: the advice-table field and the aspects, in the order
      their indices were assigned. */
  datatype AspectList = AspectList(holder: Field, aspects: seq<Aspect>)

  /** The `AspectList` constructor: the holder is checked before the list. */
  function MakeAspectList(holder: Option<Field>, aspects: Option<seq<Aspect>>): (r: Result<AspectList>)
    ensures holder.None? ==> r == Err(NullPointer("adviceTableHolder"))
    ensures holder.Some? && aspects.None? ==> r == Err(NullPointer("aspectList"))
    ensures r.Ok? <==> holder.Some? && aspects.Some?
    ensures r.Ok? ==> r.value.holder == holder.value && r.value.aspects == aspects.value
  {
    if holder.None? then Err(NullPointer("adviceTableHolder"))
    else if aspects.None? then Err(NullPointer("aspectList"))
    else Ok(AspectList(holder.value, aspects.value))
  }

  /** `getAdviceTableSize()`: how many appliers the table field must hold. */
  function TableSize(l: AspectList): nat {
    |l.aspects|
  }

  /** `AdviceTable`: the aspects and the appliers that execute them.  The
      applier list is kept as given, not copied. */
  datatype AdviceTable = AdviceTable(aspects: AspectList, appliers: seq<Applier>)

  /** The `AdviceTable` constructor: aspects are checked before appliers. */
  function MakeAdviceTable(aspects: Option<AspectList>, appliers: Option<seq<Applier>>): (r: Result<AdviceTable>)
    ensures aspects.None? ==> r == Err(NullPointer("aspects"))
    ensures aspects.Some? && appliers.None? ==> r == Err(NullPointer("appliers"))
    ensures r.Ok? <==> aspects.Some? && appliers.Some?
    ensures r.Ok? ==> r.value.aspects == aspects.value && r.value.appliers == appliers.value
  {
    if aspects.None? then Err(NullPointer("aspects"))
    else if appliers.None? then Err(NullPointer("appliers"))
    else Ok(AdviceTable(aspects.value, appliers.value))
  }

  /** The conversion of an aspect list into its table (`toMethodAspects`,
      `toConstructorAspects`): one applier per aspect, in the same order,
      running the aspect's handlers around its actual member. */
  function TableFor(l: AspectList, kind: InvocationKind): (t: AdviceTable)
    ensures t.aspects == l
    ensures |t.appliers| == TableSize(l)
    ensures forall i :: 0 <= i < |t.appliers| ==>
              t.appliers[i].handlers == l.aspects[i].handlers
              && t.appliers[i].definition == Definition(kind, l.aspects[i].original, l.aspects[i].actual)
  {
    AdviceTable(l, seq(|l.aspects|, i requires 0 <= i < |l.aspects| =>
      Applier(Definition(kind, l.aspects[i].original, l.aspects[i].actual), l.aspects[i].handlers)))
  }

  /** What `registerAdviceTable` stores: the applier array `toAppliers()`
      returns, under the name of the table's holder field. */
  datatype Registration = Registration(fieldName: string, table: seq<Applier>)

  function Register(t: AdviceTable): (r: Registration)
    ensures r.fieldName == t.aspects.holder.name
  {
    Registration(t.aspects.holder.name, t.appliers)
  }

  /** The table a generated class indexes is as large as its aspect list,
      and slot `i` runs the handlers of aspect `i` around its actual member
      while reporting its original member. */
  lemma RegisteredSlots(l: AspectList, kind: InvocationKind)
    ensures |Register(TableFor(l, kind)).table| == TableSize(l)
    ensures forall i :: 0 <= i < TableSize(l) ==>
              Register(TableFor(l, kind)).table[i].handlers == l.aspects[i].handlers
              && Register(TableFor(l, kind)).table[i].definition.original == l.aspects[i].original
              && Register(TableFor(l, kind)).table[i].definition.actual == l.aspects[i].actual
  {
  }
}
