/** `NewInstanceEnhancer`: rewrites the `new` expressions of a factory class
    so that each one worth rewriting runs its advice through the factory's
    advice table, and creates the enhanced product instead of the base one.
 */
module NewInstance {
  import opened Wrappers
  import opened Types
  import opened Pointcuts
  import opened Invocations
  import opened EnhanceManager
  import opened AdviceApplier
  import opened Aspects
  import opened Manipulator

  /** The products to be enhanced, `base -> enhanced class`. */
  type Products = map<Type, ClassInfo>

  /** No two bases share an enhanced class; the reversed map is only
      specified under this condition. */
  predicate Injective(ps: Products) {
    forall a, b :: a in ps && b in ps && ps[a].self == ps[b].self ==> a == b
  }

  /** `rev` maps every enhanced class, and only those, back to a base
      enhanced into it. */
  predicate IsReverse(ps: Products, rev: map<Type, Type>) {
    (forall e :: e in rev ==> rev[e] in ps && ps[rev[e]].self == e)
    && (forall b :: b in ps ==> ps[b].self in rev)
  }

  /** `reverse(productsToBeEnhanced)`. */
  method Reverse(ps: Products) returns (rev: map<Type, Type>)
    ensures IsReverse(ps, rev)
    ensures Injective(ps) ==> forall b :: b in ps ==> rev[ps[b].self] == b
  {
    rev := map[];
    var todo := ps.Keys;
    while todo != {}
      invariant todo <= ps.Keys
      invariant forall e :: e in rev ==> rev[e] in ps && ps[rev[e]].self == e
      invariant forall b :: b in ps && b !in todo ==> ps[b].self in rev
      decreases |todo|
    {
      var b :| b in todo;
      rev := rev[ps[b].self := b];
      todo := todo - {b};
    }
  }

  /** `computeProvider(constructor)`: the declaring class when it is a base
      product; else the base the declaring class enhances; else the
      declaring class itself. */
  function ComputeProvider(ps: Products, rev: map<Type, Type>, c: Behaviour): Type {
    var d := c.declaring;
    if d in ps then d else if d in rev then rev[d] else d
  }

  /** The provider by its meaning: the base product a constructor belongs
      to, directly or through its enhanced class. */
  ghost function ProviderOf(ps: Products, c: Behaviour): Type {
    var d := c.declaring;
    if d in ps then d
    else if exists b :: b in ps && ps[b].self == d then var b :| b in ps && ps[b].self == d; b
    else d
  }

  /** With distinct enhanced classes the computed provider is the intended
      one, and it is a base product or the declaring class. */
  lemma ComputeProviderAgrees(ps: Products, rev: map<Type, Type>, c: Behaviour)
    requires IsReverse(ps, rev) && Injective(ps)
    ensures ComputeProvider(ps, rev, c) == ProviderOf(ps, c)
    ensures ProviderOf(ps, c) in ps || ProviderOf(ps, c) == c.declaring
  {
    var d := c.declaring;
    if d !in ps && d in rev {
      assert ps[rev[d]].self == d;
    }
  }

  /** javassist `getConstructor(descriptor)`: the first constructor with the
      given parameters. */
  function FindConstructor(cs: seq<Behaviour>, params: seq<Type>): (r: Option<Behaviour>)
    ensures r.Some? ==> r.value in cs && r.value.kind == ConstructorKind && r.value.params == params
    ensures r.None? <==> forall c :: c in cs ==> !(c.kind == ConstructorKind && c.params == params)
  {
    if |cs| == 0 then None
    else if cs[0].kind == ConstructorKind && cs[0].params == params then Some(cs[0])
    else FindConstructor(cs[1..], params)
  }

  /** The constructor an aspect actually runs: the enhanced class's own
      constructor with the same parameters when the provider is a product;
      the constructor itself otherwise. */
  function ActualFor(ps: Products, provider: Type, c: Behaviour): (r: Option<Behaviour>)
    ensures provider !in ps ==> r == Some(c)
    ensures provider in ps && r.Some? ==> r.value in ps[provider].constructors && r.value.params == c.params
  {
    if provider in ps then FindConstructor(ps[provider].constructors, c.params) else Some(c)
  }

  /** The handlers applicable to a constructor seen from its provider. */
  ghost function SiteHandlers(m: Manager, o: Oracle, ps: Products, c: Behaviour): seq<Handler> {
    HandlersAt(m.enhanceList, Positions(m.enhanceList, o, ProviderOf(ps, c), c))
  }

  /** A `new` expression is rewritten exactly when its constructor is a
      legal join point and rewriting changes something: some handler
      applies, or the provider is a product or has aspects. */
  ghost predicate Rewritten(m: Manager, o: Oracle, ps: Products, pa: map<Type, AspectList>, s: Site) {
    var p := ProviderOf(ps, s.callee);
    IsLegalConstructor(Some(s.callee)) == Ok(true)
    && (|SiteHandlers(m, o, ps, s.callee)| > 0 || p in ps || p in pa)
  }

  /** The sites rewritten, in order. */
  ghost function Chosen(m: Manager, o: Oracle, ps: Products, pa: map<Type, AspectList>, sites: seq<Site>)
    : (r: seq<Site>)
    ensures |r| <= |sites|
    ensures forall s :: s in r <==> s in sites && Rewritten(m, o, ps, pa, s)
  {
    if |sites| == 0 then []
    else
      var front := Chosen(m, o, ps, pa, sites[..|sites| - 1]);
      var s := sites[|sites| - 1];
      assert forall x :: x in sites <==> x in sites[..|sites| - 1] || x == s;
      if Rewritten(m, o, ps, pa, s) then front + [s] else front
  }

  lemma ChosenStep(m: Manager, o: Oracle, ps: Products, pa: map<Type, AspectList>, sites: seq<Site>, i: nat)
    requires i < |sites|
    ensures Chosen(m, o, ps, pa, sites[..i + 1])
            == Chosen(m, o, ps, pa, sites[..i]) + (if Rewritten(m, o, ps, pa, sites[i]) then [sites[i]] else [])
  {
    assert sites[..i + 1][..i] == sites[..i];
  }

  /** A rewritten site can run: its actual constructor exists. */
  ghost predicate Resolvable(ps: Products, s: Site) {
    ActualFor(ps, ProviderOf(ps, s.callee), s.callee).Some?
  }

  /** One rewrite: the `new` of site `s` becomes a call of slot `j`. */
  datatype Rewrite = Rewrite(site: Site, replacement: Replacement)

  /** The aspects and rewrites for the chosen sites, slot `j` for the `j`-th. */
  ghost predicate Planned(m: Manager, o: Oracle, ps: Products, chosen: seq<Site>,
                          aspects: seq<Aspect>, rewrites: seq<Rewrite>) {
    |aspects| == |chosen| && |rewrites| == |chosen|
    && forall j :: 0 <= j < |chosen| ==>
         Resolvable(ps, chosen[j])
         && aspects[j] == Aspect(chosen[j].callee,
                                 ActualFor(ps, ProviderOf(ps, chosen[j].callee), chosen[j].callee).value,
                                 SiteHandlers(m, o, ps, chosen[j].callee))
         && rewrites[j] == Rewrite(chosen[j], Replacement(ProviderOf(ps, chosen[j].callee).Name(),
                                                          ADVICE_TABLE_FIELD, j, ReceiverIn(chosen[j].context)))
  }

  lemma PlannedStep(m: Manager, o: Oracle, ps: Products, chosen: seq<Site>, aspects: seq<Aspect>,
                    rewrites: seq<Rewrite>, s: Site, a: Aspect, w: Rewrite)
    requires Planned(m, o, ps, chosen, aspects, rewrites)
    requires Resolvable(ps, s)
    requires a == Aspect(s.callee, ActualFor(ps, ProviderOf(ps, s.callee), s.callee).value,
                         SiteHandlers(m, o, ps, s.callee))
    requires w == Rewrite(s, Replacement(ProviderOf(ps, s.callee).Name(), ADVICE_TABLE_FIELD,
                                         |chosen|, ReceiverIn(s.context)))
    ensures Planned(m, o, ps, chosen + [s], aspects + [a], rewrites + [w])
  {
  }

  /** `enhance(target, enhanceManager, productsToBeEnhanced, allProductAspects)`
      over the `new` expressions `sites` of the factory, in the order the
      class is instrumented.  The arguments are checked in order; the
      result holds no aspect list when nothing was rewritten.  A rewritten
      site whose enhanced class lacks the matching constructor fails the
      whole enhancement. */
  method EnhanceFactory(target: Option<Type>, m: Option<Manager>, o: Oracle, products: Option<Products>,
                 allAspects: Option<map<Type, AspectList>>, sites: seq<Site>)
    returns (r: Result<(Option<AspectList>, seq<Rewrite>)>)
    requires products.Some? && allAspects.Some? ==> allAspects.value.Keys <= products.value.Keys
    requires products.Some? ==> Injective(products.value)
    ensures target.None? ==> r == Err(NullPointer("target"))
    ensures target.Some? && m.None? ==> r == Err(NullPointer("enhanceManager"))
    ensures target.Some? && m.Some? && products.None? ==> r == Err(NullPointer("productsToBeEnhanced"))
    ensures target.Some? && m.Some? && products.Some? && allAspects.None? ==> r == Err(NullPointer("allProductAspects"))
    ensures target.Some? && m.Some? && products.Some? && allAspects.Some? ==>
              var chosen := Chosen(m.value, o, products.value, allAspects.value, sites);
              (r.Ok? <==> forall s :: s in chosen ==> Resolvable(products.value, s))
              && (r.Err? ==> r.error == Error.Enhance("Cannot compile " + target.value.Name()))
              && (r.Ok? ==> (r.value.0.None? <==> |chosen| == 0)
                            && |r.value.1| == |chosen|
                            && (r.value.0.Some? ==>
                                  r.value.0.value.holder == AdviceTableField(target.value)
                                  && Planned(m.value, o, products.value, chosen, r.value.0.value.aspects, r.value.1)))
  {
    if target.None? { return Err(NullPointer("target")); }
    if m.None? { return Err(NullPointer("enhanceManager")); }
    if products.None? { return Err(NullPointer("productsToBeEnhanced")); }
    if allAspects.None? { return Err(NullPointer("allProductAspects")); }
    var t := target.value;
    var plan := PlanSites(t, m.value, o, products.value, allAspects.value, sites);
    if plan.Err? {
      return Err(Error.Enhance("Cannot compile " + t.Name()));
    }
    var (aspects, rewrites) := plan.value;
    if |aspects| == 0 {
      return Ok((None, rewrites));
    }
    return Ok((Some(AspectList(AdviceTableField(t), aspects)), rewrites));
  }

  /** The instrumentation pass of `enhance`: every site is offered to
      `edit` in order, the holder field being created with the first
      rewrite.  It stops at the first rewritten site it cannot resolve. */
  method PlanSites(t: Type, mm: Manager, o: Oracle, ps: Products, pa: map<Type, AspectList>, sites: seq<Site>)
    returns (r: Result<(seq<Aspect>, seq<Rewrite>)>)
    requires pa.Keys <= ps.Keys && Injective(ps)
    ensures r.Ok? <==> forall s :: s in Chosen(mm, o, ps, pa, sites) ==> Resolvable(ps, s)
    ensures r.Ok? ==> Planned(mm, o, ps, Chosen(mm, o, ps, pa, sites), r.value.0, r.value.1)
  {
    var rev := Reverse(ps);
    var holder: Option<Field> := None;
    var aspects: seq<Aspect> := [];
    var rewrites: seq<Rewrite> := [];
    var i := 0;
    while i < |sites|
      invariant i <= |sites|
      invariant Planned(mm, o, ps, Chosen(mm, o, ps, pa, sites[..i]), aspects, rewrites)
      invariant holder == if |aspects| == 0 then None else Some(AdviceTableField(t))
    {
      var ok;
      ok, holder, aspects, rewrites := PlanStep(t, mm, o, ps, pa, rev, sites, i, holder, aspects, rewrites);
      if !ok {
        return Err(Error.Enhance("Cannot compile"));
      }
      i := i + 1;
    }
    assert sites[..i] == sites;
    ResolvableAll(mm, o, ps, pa, sites, aspects, rewrites);
    return Ok((aspects, rewrites));
  }

  /** One iteration of the instrumentation pass: `edit` on site `i`, which
      either fails on a chosen site it cannot resolve or extends the plan
      to the first `i + 1` sites. */
  method PlanStep(t: Type, mm: Manager, o: Oracle, ps: Products, pa: map<Type, AspectList>, rev: map<Type, Type>,
                  sites: seq<Site>, i: nat, holder: Option<Field>, aspects: seq<Aspect>, rewrites: seq<Rewrite>)
    returns (ok: bool, holder': Option<Field>, aspects': seq<Aspect>, rewrites': seq<Rewrite>)
    requires IsReverse(ps, rev) && Injective(ps) && pa.Keys <= ps.Keys && i < |sites|
    requires Planned(mm, o, ps, Chosen(mm, o, ps, pa, sites[..i]), aspects, rewrites)
    requires holder == if |aspects| == 0 then None else Some(AdviceTableField(t))
    ensures !ok ==> sites[i] in Chosen(mm, o, ps, pa, sites) && !Resolvable(ps, sites[i])
    ensures ok ==> Planned(mm, o, ps, Chosen(mm, o, ps, pa, sites[..i + 1]), aspects', rewrites')
    ensures holder' == if |aspects'| == 0 then None else Some(AdviceTableField(t))
  {
    var edit := Edit(t, mm, o, ps, pa, rev, sites[i], holder, |aspects|);
    if edit.Err? {
      assert sites[i] in sites;
      return false, holder, aspects, rewrites;
    }
    if edit.value.Some? {
      var (h, a, w) := edit.value.value;
      SiteAdvised(mm, o, ps, pa, sites, i, aspects, rewrites, a, w);
      return true, Some(h), aspects + [a], rewrites + [w];
    }
    SiteSkipped(mm, o, ps, pa, sites, i, aspects, rewrites);
    return true, holder, aspects, rewrites;
  }

  /** A site `edit` leaves alone extends the plan by nothing. */
  lemma SiteSkipped(mm: Manager, o: Oracle, ps: Products, pa: map<Type, AspectList>, sites: seq<Site>, i: nat,
                    aspects: seq<Aspect>, rewrites: seq<Rewrite>)
    requires i < |sites| && !Rewritten(mm, o, ps, pa, sites[i])
    requires Planned(mm, o, ps, Chosen(mm, o, ps, pa, sites[..i]), aspects, rewrites)
    ensures Planned(mm, o, ps, Chosen(mm, o, ps, pa, sites[..i + 1]), aspects, rewrites)
  {
    ChosenStep(mm, o, ps, pa, sites, i);
  }

  /** A rewritten site that resolves extends the plan by its aspect and its
      rewrite, numbered by the sites chosen before it. */
  lemma SiteAdvised(mm: Manager, o: Oracle, ps: Products, pa: map<Type, AspectList>, sites: seq<Site>, i: nat,
                    aspects: seq<Aspect>, rewrites: seq<Rewrite>, a: Aspect, w: Rewrite)
    requires i < |sites| && Rewritten(mm, o, ps, pa, sites[i]) && Resolvable(ps, sites[i])
    requires Planned(mm, o, ps, Chosen(mm, o, ps, pa, sites[..i]), aspects, rewrites)
    requires a == Aspect(sites[i].callee, ActualFor(ps, ProviderOf(ps, sites[i].callee), sites[i].callee).value,
                         SiteHandlers(mm, o, ps, sites[i].callee))
    requires w == Rewrite(sites[i], Replacement(ProviderOf(ps, sites[i].callee).Name(), ADVICE_TABLE_FIELD,
                                                |aspects|, ReceiverIn(sites[i].context)))
    ensures Planned(mm, o, ps, Chosen(mm, o, ps, pa, sites[..i + 1]), aspects + [a], rewrites + [w])
  {
    ChosenStep(mm, o, ps, pa, sites, i);
    PlannedStep(mm, o, ps, Chosen(mm, o, ps, pa, sites[..i]), aspects, rewrites, sites[i], a, w);
  }


  lemma ResolvableAll(m: Manager, o: Oracle, ps: Products, pa: map<Type, AspectList>, sites: seq<Site>,
                      aspects: seq<Aspect>, rewrites: seq<Rewrite>)
    requires Planned(m, o, ps, Chosen(m, o, ps, pa, sites), aspects, rewrites)
    ensures forall s :: s in Chosen(m, o, ps, pa, sites) ==> Resolvable(ps, s)
  {
    var chosen := Chosen(m, o, ps, pa, sites);
    forall s | s in chosen ensures Resolvable(ps, s) {
      var j :| 0 <= j < |chosen| && chosen[j] == s;
    }
  }

  /** `edit(expr)` for one site, with `index` the next slot: `None` when
      the site is left alone; otherwise the holder field (created for the
      first slot), the aspect and the rewrite.  Fails when the enhanced
      class lacks the matching constructor. */
  function Edit(target: Type, m: Manager, o: Oracle, ps: Products, pa: map<Type, AspectList>,
                rev: map<Type, Type>, site: Site, holder: Option<Field>, index: nat)
    : (r: Result<Option<(Field, Aspect, Rewrite)>>)
    requires IsReverse(ps, rev) && Injective(ps) && pa.Keys <= ps.Keys
    requires index == 0 || holder == Some(AdviceTableField(target))
    ensures r.Err? <==> Rewritten(m, o, ps, pa, site) && !Resolvable(ps, site)
    ensures r.Ok? ==> (r.value.Some? <==> Rewritten(m, o, ps, pa, site))
    ensures r.Ok? && r.value.Some? ==>
              var c := site.callee;
              r.value.value.0 == AdviceTableField(target)
              && r.value.value.1 == Aspect(c, ActualFor(ps, ProviderOf(ps, c), c).value, SiteHandlers(m, o, ps, c))
              && r.value.value.2 == Rewrite(site, Replacement(ProviderOf(ps, c).Name(), ADVICE_TABLE_FIELD, index,
                                                              ReceiverIn(site.context)))
  {
    var c := site.callee;
    ComputeProviderAgrees(ps, rev, c);
    if IsLegalConstructor(Some(c)) != Ok(true) then Ok(None)
    else
      var provider := ComputeProvider(ps, rev, c);
      var handlers := HandlersAt(m.enhanceList, Positions(m.enhanceList, o, provider, c));
      if |handlers| == 0 && provider !in ps && provider !in pa then Ok(None)
      else
        var h := if index == 0 then AdviceTableField(target) else holder.value;
        var w := ReplaceToPointcut(Some(site), Some(provider), Some(h), index);
        var actual := ActualFor(ps, provider, c);
        if actual.None? then Err(Error.Enhance("Cannot compile"))
        else Ok(Some((h, Aspect(c, actual.value, handlers), Rewrite(site, w.value))))
  }

  /** Every rewritten `new` calls, through the field the factory registers,
      the slot whose applier runs that site's handlers around its actual
      constructor while reporting the constructor the factory asked for. */
  lemma RewriteRunsItsSlot(m: Manager, o: Oracle, ps: Products, target: Type, chosen: seq<Site>,
                           aspects: seq<Aspect>, rewrites: seq<Rewrite>, j: nat)
    requires Planned(m, o, ps, chosen, aspects, rewrites) && j < |chosen|
    ensures var reg := Register(TableFor(AspectList(AdviceTableField(target), aspects), ConstructorCall));
            var slot := rewrites[j].replacement.index;
            reg.fieldName == rewrites[j].replacement.holder
            && slot < |reg.table|
            && reg.table[slot].definition.original == rewrites[j].site.callee
            && reg.table[slot].definition.actual
               == ActualFor(ps, ProviderOf(ps, chosen[j].callee), chosen[j].callee).value
            && reg.table[slot].handlers == SiteHandlers(m, o, ps, rewrites[j].site.callee)
  {
    RegisteredSlots(AspectList(AdviceTableField(target), aspects), ConstructorCall);
  }
}
