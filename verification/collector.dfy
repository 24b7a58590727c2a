/** `EnhanceTargetProductCollector`: scans the `new` expressions of a factory
    and collects the classes worth enhancing as products, each once, in the
    order they are first met.
 */
module Collector {
  import opened Wrappers
  import opened Types
  import opened Pointcuts
  import opened EnhanceManager
  import opened Manipulator

  /** The class a `new` expression instantiates. */
  function Declaring(s: Site): Type {
    s.callee.declaring
  }

  /** The site's constructor belongs to a class the enhancer may subclass. */
  predicate Enhanceable(s: Site) {
    CanEnhanceProduct(Some(s.callee)) == Ok(true)
  }

  /** Some registered enhancement applies to a method of the class. */
  ghost predicate HasAdvice(m: Manager, o: Oracle, k: ClassInfo) {
    exists i, j :: 0 <= i < |k.methods| && 0 <= j < |m.enhanceList| && Selects(m.enhanceList[j], o, k, k.methods[i])
  }

  /** Site `i` is the first enhanceable site instantiating a class of its
      name. */
  ghost predicate FirstOfName(sites: seq<Site>, i: nat) {
    i < |sites| && Enhanceable(sites[i])
    && forall j :: 0 <= j < i && Enhanceable(sites[j]) ==> Declaring(sites[j]).Name() != Declaring(sites[i]).Name()
  }

  /** The names the scan has recorded after `i` sites. */
  ghost predicate SawExactly(sites: seq<Site>, i: nat, saw: set<string>) {
    i <= |sites|
    && forall n :: n in saw <==> exists j :: 0 <= j < i && Enhanceable(sites[j]) && Declaring(sites[j]).Name() == n
  }

  /** The products collected after `i` sites, with the sites they were
      found at. */
  ghost predicate Collected(m: Manager, o: Oracle, classes: Type -> ClassInfo, sites: seq<Site>, i: nat,
                            r: seq<Type>, at: seq<nat>) {
    |at| == |r|
    && (forall k :: 0 <= k < |r| ==>
          at[k] < i && FirstOfName(sites, at[k]) && Declaring(sites[at[k]]) == r[k] && HasAdvice(m, o, classes(r[k])))
    && (forall k, l :: 0 <= k < l < |r| ==> at[k] < at[l])
    && (forall j :: 0 <= j < i && FirstOfName(sites, j) && HasAdvice(m, o, classes(Declaring(sites[j]))) ==> j in at)
  }

  /** `collect(target, enhanceManager)` over the `new` expressions `sites`
      of the factory; `classes` stands for the class pool.  The products
      are the classes of the first enhanceable site of each name whose
      class has advice, in site order, so no name appears twice. */
  method Collect(target: Option<Type>, m: Option<Manager>, o: Oracle, classes: Type -> ClassInfo, sites: seq<Site>)
    returns (r: Result<seq<Type>>, ghost at: seq<nat>)
    ensures target.None? ==> r == Err(NullPointer("target"))
    ensures target.Some? && m.None? ==> r == Err(NullPointer("enhanceManager"))
    ensures r.Ok? <==> target.Some? && m.Some?
    ensures r.Ok? ==> Collected(m.value, o, classes, sites, |sites|, r.value, at)
    ensures r.Ok? ==> forall k, l :: 0 <= k < l < |r.value| ==> r.value[k].Name() != r.value[l].Name()
  {
    at := [];
    if target.None? { return Err(NullPointer("target")), at; }
    if m.None? { return Err(NullPointer("enhanceManager")), at; }
    var mm := m.value;
    var results: seq<Type> := [];
    var saw: set<string> := {};
    var i: nat := 0;
    while i < |sites|
      invariant SawExactly(sites, i, saw)
      invariant Collected(mm, o, classes, sites, i, results, at)
    {
      var d := Declaring(sites[i]);
      var add := false;
      if Enhanceable(sites[i]) && d.Name() !in saw {
        var applicable := HasApplicableMethod(mm, o, Some(classes(d)));
        add := applicable.value;
      }
      SawStep(sites, i, saw);
      ScanStep(mm, o, classes, sites, i, saw, results, at, add);
      if add {
        results := results + [d];
        at := at + [i];
      }
      if Enhanceable(sites[i]) {
        saw := saw + {d.Name()};
      }
      i := i + 1;
    }
    DistinctNames(mm, o, classes, sites, results, at);
    return Ok(results), at;
  }

  /** One site of the scan records the site's name when it is enhanceable. */
  lemma SawStep(sites: seq<Site>, i: nat, saw: set<string>)
    requires i < |sites| && SawExactly(sites, i, saw)
    ensures SawExactly(sites, i + 1, if Enhanceable(sites[i]) then saw + {Declaring(sites[i]).Name()} else saw)
  {
    var saw' := if Enhanceable(sites[i]) then saw + {Declaring(sites[i]).Name()} else saw;
    forall n ensures n in saw' <==> exists j :: 0 <= j < i + 1 && Enhanceable(sites[j]) && Declaring(sites[j]).Name() == n {
      if n in saw {
        var j :| 0 <= j < i && Enhanceable(sites[j]) && Declaring(sites[j]).Name() == n;
        assert 0 <= j < i + 1;
      }
    }
  }

  /** One site of the scan adds it exactly when it is the first enhanceable
      site of its name and its class has advice. */
  lemma ScanStep(m: Manager, o: Oracle, classes: Type -> ClassInfo, sites: seq<Site>, i: nat, saw: set<string>,
                 r: seq<Type>, at: seq<nat>, add: bool)
    requires i < |sites| && SawExactly(sites, i, saw) && Collected(m, o, classes, sites, i, r, at)
    requires add <==> Enhanceable(sites[i]) && Declaring(sites[i]).Name() !in saw
                      && HasAdvice(m, o, classes(Declaring(sites[i])))
    ensures Collected(m, o, classes, sites, i + 1, r + (if add then [Declaring(sites[i])] else []),
                      at + (if add then [i] else []))
  {
    var d := Declaring(sites[i]);
    var r' := r + (if add then [d] else []);
    var at' := at + (if add then [i] else []);
    var first := FirstOfName(sites, i);
    assert first <==> Enhanceable(sites[i]) && d.Name() !in saw by {
      if Enhanceable(sites[i]) && d.Name() in saw {
        var j :| 0 <= j < i && Enhanceable(sites[j]) && Declaring(sites[j]).Name() == d.Name();
      }
    }
    forall k | 0 <= k < |r'|
      ensures at'[k] < i + 1 && FirstOfName(sites, at'[k]) && Declaring(sites[at'[k]]) == r'[k]
              && HasAdvice(m, o, classes(r'[k]))
    {
      if k < |r| {
        assert at'[k] == at[k] && r'[k] == r[k];
      }
    }
    forall k, l | 0 <= k < l < |r'| ensures at'[k] < at'[l] {
      if l < |r| {
        assert at'[k] == at[k] && at'[l] == at[l];
      } else {
        assert at'[k] == at[k] && at'[l] == i;
      }
    }
    forall j | 0 <= j < i + 1 && FirstOfName(sites, j) && HasAdvice(m, o, classes(Declaring(sites[j])))
      ensures j in at'
    {
      if j < i {
        assert j in at;
      } else {
        assert at'[|at'| - 1] == i;
      }
    }
  }

  /** First sites of a name are distinct in name, so the products are too. */
  lemma DistinctNames(m: Manager, o: Oracle, classes: Type -> ClassInfo, sites: seq<Site>, r: seq<Type>, at: seq<nat>)
    requires Collected(m, o, classes, sites, |sites|, r, at)
    ensures forall k, l :: 0 <= k < l < |r| ==> r[k].Name() != r[l].Name()
  {
    forall k, l | 0 <= k < l < |r| ensures r[k].Name() != r[l].Name() {
      assert FirstOfName(sites, at[l]);
    }
  }
}
