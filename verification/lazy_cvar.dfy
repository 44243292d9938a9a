/**
 `LazyCVar<T>`: a name that is looked up in the registry on first use. A
 failed lookup is not remembered, so it is retried on the next access; a
 successful one is cached for good. The cache holds the variable found.
 */
module LazyCVars {
  import opened Common
  import opened ConsoleVariables
  import opened ConfigurationManager

  /** `resolved` is the `Resolved` property, `cache` the private `_resolved` field. */
  datatype LazyCVar<V> = LazyCVar(name: string, valueType: string, resolved: bool, cache: Option<CVar<V>>)

  /** `Resolved` holds exactly when something is cached. */
  predicate Consistent<V>(l: LazyCVar<V>) {
    l.resolved <==> l.cache.Some?
  }

  /** The constructor stores the name and looks nothing up. */
  function New<V>(name: string, valueType: string): (l: LazyCVar<V>)
    ensures l.name == name && l.valueType == valueType
    ensures !l.resolved && l.cache.None?
    ensures Consistent(l)
  {
    LazyCVar(name, valueType, false, None)
  }

  /** The wrapper after an access and the value the access returned. */
  datatype Access<V> = Access(lazy: LazyCVar<V>, value: Option<CVar<V>>)

  /** The `LazyValue` getter against the registry as it is at the time of the access. */
  function LazyValue<V>(l: LazyCVar<V>, reg: Registry<V>, fold: CaseFold): (r: Access<V>)
    ensures r.lazy.name == l.name && r.lazy.valueType == l.valueType
    ensures r.value == r.lazy.cache
    ensures l.cache.Some? ==> r == Access(l, l.cache)
    ensures l.cache.None? ==> r.value == FindCVar(reg, fold, l.name, l.valueType) && Consistent(r.lazy)
    ensures Consistent(l) ==> Consistent(r.lazy)
  {
    if l.cache.None? then
      var found := FindCVar(reg, fold, l.name, l.valueType);
      Access(l.(cache := found, resolved := found.Some?), found)
    else Access(l, l.cache)
  }

  /** The implicit conversion to `CVar<T>?`. */
  function Convert<V>(l: LazyCVar<V>, reg: Registry<V>, fold: CaseFold): (r: Access<V>)
    ensures r.value == if l.cache.Some? then l.cache else FindCVar(reg, fold, l.name, l.valueType)
    ensures r.lazy.cache == r.value
  {
    LazyValue(l, reg, fold)
  }

  /** Once resolved, every access returns the cached variable whatever the registry holds. */
  lemma ResolvedIsMemoised<V>(l: LazyCVar<V>, reg1: Registry<V>, reg2: Registry<V>, fold: CaseFold)
    requires Consistent(l) && l.resolved
    ensures LazyValue(l, reg1, fold) == LazyValue(l, reg2, fold) == Access(l, l.cache)
  {
  }

  // ---------------------------------------------------------------------------
  // A sequence of accesses

  datatype Accesses<V> = Accesses(lazy: LazyCVar<V>, values: seq<Option<CVar<V>>>)

  /** Accesses the wrapper once against each registry in turn. */
  function AccessAll<V>(l: LazyCVar<V>, regs: seq<Registry<V>>, fold: CaseFold): (r: Accesses<V>)
    ensures |r.values| == |regs|
    ensures r.lazy.name == l.name && r.lazy.valueType == l.valueType
    decreases |regs|
  {
    if |regs| == 0 then Accesses(l, [])
    else
      var prefix := AccessAll(l, regs[..|regs| - 1], fold);
      var a := LazyValue(prefix.lazy, regs[|regs| - 1], fold);
      Accesses(a.lazy, prefix.values + [a.value])
  }

  /** Index of the first access that found something, or `|values|`. */
  function FirstFound<V>(values: seq<Option<CVar<V>>>): (j: nat)
    ensures j <= |values|
    ensures forall i :: 0 <= i < j ==> values[i].None?
    ensures j < |values| ==> values[j].Some?
    decreases |values|
  {
    if |values| == 0 || values[0].Some? then 0 else 1 + FirstFound(values[1..])
  }

  /**
   Starting from a fresh wrapper, each access queries the registry of its time
   until one finds the variable; that access and every later one return the
   same variable, and `Resolved` then stays true.
   */
  lemma {:induction false} FirstFindWins<V>(name: string, valueType: string, regs: seq<Registry<V>>, fold: CaseFold)
    ensures var r := AccessAll(New<V>(name, valueType), regs, fold);
      var j := FirstFound(r.values);
      && (forall i :: 0 <= i < j ==> FindCVar(regs[i], fold, name, valueType).None?)
      && (j < |regs| ==> r.values[j] == FindCVar(regs[j], fold, name, valueType))
      && (forall i :: j <= i < |regs| ==> r.values[i] == r.values[j])
      && (r.lazy.resolved <==> j < |regs|)
      && Consistent(r.lazy) && r.lazy.cache == (if j < |regs| then r.values[j] else None)
    decreases |regs|
  {
    if |regs| > 0 {
      var front := regs[..|regs| - 1];
      FirstFindWins(name, valueType, front, fold);
      var p := AccessAll(New<V>(name, valueType), front, fold);
      var r := AccessAll(New<V>(name, valueType), regs, fold);
      assert r.values == p.values + [LazyValue(p.lazy, regs[|regs| - 1], fold).value];
      var last := LazyValue(p.lazy, regs[|regs| - 1], fold).value;
      FirstFoundExtends(p.values, last);
      assert forall i :: 0 <= i < |front| ==> front[i] == regs[i];
      assert forall i :: 0 <= i < |front| ==> r.values[i] == p.values[i];
      if FirstFound(p.values) == |front| {
        assert p.lazy.cache.None?;
        assert last == FindCVar(regs[|front|], fold, name, valueType);
      }
    }
  }

  lemma {:induction false} FirstFoundExtends<V>(values: seq<Option<CVar<V>>>, last: Option<CVar<V>>)
    ensures FirstFound(values) < |values| ==> FirstFound(values + [last]) == FirstFound(values)
    ensures FirstFound(values) == |values| ==> FirstFound(values + [last]) == if last.Some? then |values| else |values| + 1
    decreases |values|
  {
    if |values| > 0 && values[0].None? {
      FirstFoundExtends(values[1..], last);
      assert (values + [last])[1..] == values[1..] + [last];
    }
  }
}
