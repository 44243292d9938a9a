/**
 `ConfigurationManager`: the process-wide CVar registry, a dictionary from
 name to CVar compared with `StringComparer.InvariantCultureIgnoreCase`.
 Registered variables of different value types share one carrier type `V`;
 `valueType` names the C# type `T`. The comparer is a parameter `fold`: two
 names are the same key exactly when they fold alike.
 */
module ConfigurationManager {
  import opened Common
  import opened Faults
  import opened CVarFlags
  import opened ConsoleVariables

  /** An `ICVar` entry: the variable and the name of its value type. */
  datatype AnyCVar<V> = AnyCVar(valueType: string, cvar: CVar<V>)

  /** `_cvars`, keyed by the folded name. */
  type Registry<V> = map<string, AnyCVar<V>>

  // ---------------------------------------------------------------------------
  // Case-insensitive names

  /**
   The dictionary's comparer as a key function: names `a` and `b` compare
   equal exactly when `fold(a) == fold(b)`. The invariant culture's rules
   (Unicode case mapping, ignorable characters) are not spelled out; `Fold`
   below is the instance for ASCII names.
   */
  type CaseFold = string -> string

  function FoldChar(c: char): (d: char)
    ensures 'a' <= c <= 'z' ==> d as int == c as int - 32
    ensures !('a' <= c <= 'z') ==> d == c
  {
    if 'a' <= c <= 'z' then (c as int - 32) as char else c
  }

  /** The comparer restricted to ASCII: letters are upper-cased, nothing else changes. */
  function Fold(s: string): (r: string)
    ensures |r| == |s|
    ensures forall i :: 0 <= i < |s| ==> r[i] == FoldChar(s[i])
  {
    seq(|s|, i requires 0 <= i < |s| => FoldChar(s[i]))
  }

  /** The two names are equal up to the case of ASCII letters. */
  predicate EqualIgnoringCase(a: string, b: string) {
    |a| == |b| && forall i :: 0 <= i < |a| ==> FoldChar(a[i]) == FoldChar(b[i])
  }

  lemma FoldIdentifiesExactlyCaseVariants(a: string, b: string)
    ensures Fold(a) == Fold(b) <==> EqualIgnoringCase(a, b)
  {
    if EqualIgnoringCase(a, b) {
      assert forall i :: 0 <= i < |a| ==> Fold(a)[i] == Fold(b)[i];
    }
  }

  // ---------------------------------------------------------------------------
  // Operations

  /** The registry after a creation, and the created variable. */
  datatype Creation<V> = Creation(registry: Registry<V>, cvar: CVar<V>)

  /**
   `CreateCVar` as written: a name the comparer equates with a registered one throws
   `DuplicateCVarException`; otherwise a new variable is returned, but it is
   never added to the registry.
   */
  function CreateCVar<V>(reg: Registry<V>, fold: CaseFold, name: string, valueType: string, defaultValue: V, helpText: Option<string>, flags: Flags): (r: Outcome<Creation<V>>)
    ensures r.Throws? <==> fold(name) in reg
    ensures r.Throws? ==> r.fault == DuplicateCVarException(name)
    ensures r.Returns? ==> r.value.registry == reg && r.value.cvar == New(name, defaultValue, helpText, flags)
  {
    if fold(name) in reg then Throws(DuplicateCVarException(name))
    else Returns(Creation(reg, New(name, defaultValue, helpText, flags)))
  }

  /** `CreateCVar` as evidently intended: the new variable is also registered under its name. */
  function CreateAndRegisterCVar<V>(reg: Registry<V>, fold: CaseFold, name: string, valueType: string, defaultValue: V, helpText: Option<string>, flags: Flags): (r: Outcome<Creation<V>>)
    ensures r.Throws? <==> fold(name) in reg
    ensures r.Throws? ==> r.fault == DuplicateCVarException(name)
    ensures r.Returns? ==>
      && r.value.cvar == New(name, defaultValue, helpText, flags)
      && r.value.registry == reg[fold(name) := AnyCVar(valueType, r.value.cvar)]
  {
    if fold(name) in reg then Throws(DuplicateCVarException(name))
    else
      var c := New(name, defaultValue, helpText, flags);
      Returns(Creation(reg[fold(name) := AnyCVar(valueType, c)], c))
  }

  /**
   `FindCVar<T>`: the registered variable with that name, provided its value
   type is `T`; a name registered with another type is reported as absent.
   */
  function FindCVar<V>(reg: Registry<V>, fold: CaseFold, name: string, valueType: string): (r: Option<CVar<V>>)
    ensures r.Some? <==> fold(name) in reg && reg[fold(name)].valueType == valueType
    ensures r.Some? ==> reg[fold(name)] == AnyCVar(valueType, r.value)
  {
    var key := fold(name);
    if key in reg && reg[key].valueType == valueType then Some(reg[key].cvar) else None
  }

  /** `TryFindCVar<T>`: `true` exactly when `FindCVar` found something, which is also passed out. */
  function TryFindCVar<V>(reg: Registry<V>, fold: CaseFold, name: string, valueType: string): (r: (bool, Option<CVar<V>>))
    ensures r.0 <==> r.1.Some?
    ensures r.1 == FindCVar(reg, fold, name, valueType)
  {
    var found := FindCVar(reg, fold, name, valueType);
    (found.Some?, found)
  }

  /** `CVars`: the registered variables. */
  function CVars<V(==,!new)>(reg: Registry<V>): (r: set<AnyCVar<V>>)
    ensures forall x :: x in r <==> exists k :: k in reg && reg[k] == x
  {
    reg.Values
  }

  // ---------------------------------------------------------------------------
  // Properties

  /** Lookup depends on the name only through its folded key. */
  lemma FindIsCaseInsensitive<V>(reg: Registry<V>, fold: CaseFold, a: string, b: string, valueType: string)
    requires fold(a) == fold(b)
    ensures FindCVar(reg, fold, a, valueType) == FindCVar(reg, fold, b, valueType)
    ensures TryFindCVar(reg, fold, a, valueType) == TryFindCVar(reg, fold, b, valueType)
  {
  }

  /** With ASCII names, lookup does not depend on the case of letters. */
  lemma AsciiCaseVariantsFindAlike<V>(reg: Registry<V>, a: string, b: string, valueType: string)
    requires EqualIgnoringCase(a, b)
    ensures FindCVar(reg, Fold, a, valueType) == FindCVar(reg, Fold, b, valueType)
  {
    FoldIdentifiesExactlyCaseVariants(a, b);
  }

  /** At most one value type finds a given name. */
  lemma FindIsTypeFiltered<V>(reg: Registry<V>, fold: CaseFold, name: string, t1: string, t2: string)
    requires t1 != t2
    ensures FindCVar(reg, fold, name, t1).None? || FindCVar(reg, fold, name, t2).None?
  {
  }

  /** As written, a freshly created variable cannot be found, and creating it again does not throw. */
  lemma CreatedCVarIsNeverFound<V>(reg: Registry<V>, fold: CaseFold, name: string, valueType: string, d: V, helpText: Option<string>, flags: Flags)
    requires fold(name) !in reg
    ensures var r := CreateCVar(reg, fold, name, valueType, d, helpText, flags);
      && r.Returns?
      && FindCVar(r.value.registry, fold, name, valueType).None?
      && CreateCVar(r.value.registry, fold, name, valueType, d, helpText, flags).Returns?
  {
  }

  /**
   With registration, a created variable is found under any name the comparer
   equates with its own and with its own type, a second creation under any
   such name throws, and every other entry is untouched.
   */
  lemma CreateThenFind<V(!new)>(reg: Registry<V>, fold: CaseFold, name: string, other: string, valueType: string, d: V, helpText: Option<string>, flags: Flags)
    requires fold(name) !in reg && fold(name) == fold(other)
    ensures var r := CreateAndRegisterCVar(reg, fold, name, valueType, d, helpText, flags);
      && r.Returns?
      && FindCVar(r.value.registry, fold, other, valueType) == Some(r.value.cvar)
      && CreateAndRegisterCVar(r.value.registry, fold, other, valueType, d, helpText, flags) == Throws(DuplicateCVarException(other))
      && CVars(r.value.registry) == CVars(reg) + {AnyCVar(valueType, r.value.cvar)}
  {
    var r := CreateAndRegisterCVar(reg, fold, name, valueType, d, helpText, flags);
    var e := AnyCVar(valueType, r.value.cvar);
    forall x ensures x in CVars(r.value.registry) <==> x in CVars(reg) + {e} {
      if x in CVars(reg) {
        var k :| k in reg && reg[k] == x;
        assert k != fold(name);
        assert r.value.registry[k] == x;
      }
      assert r.value.registry[fold(name)] == e;
    }
  }

  /** Registering a name changes no lookup of a name the comparer tells apart from it. */
  lemma FindLeavesOthersUnchanged<V>(reg: Registry<V>, fold: CaseFold, name: string, other: string, valueType: string, otherType: string, d: V, helpText: Option<string>, flags: Flags)
    requires fold(name) !in reg && fold(name) != fold(other)
    ensures var r := CreateAndRegisterCVar(reg, fold, name, valueType, d, helpText, flags);
      FindCVar(r.value.registry, fold, other, otherType) == FindCVar(reg, fold, other, otherType)
  {
  }
}
