/**
 * `Reflector`: the cached property descriptor of one class, built once by `Create` and then
 * read through its queries.
 */
module Reflection {
  import opened Wrappers
  import opened JavaModel
  import opened Collection
  import opened Resolution
  import opened Descriptor

  // ---------------------------------------------------------------- what construction computes

  /** Every getter group of the walk resolves. */
  ghost predicate GettersResolve(env: Env, methods: seq<JMethod>) {
    AllGettersResolve(env.isAssignableFrom, GroupsOf(env, Getter, methods))
  }

  /** Some getter group of the walk fails with `e`. */
  ghost predicate GetterFails(env: Env, methods: seq<JMethod>, e: ReflectionError) {
    SomeGetterFails(env.isAssignableFrom, GroupsOf(env, Getter, methods), e)
  }

  ghost function GetterWinners(env: Env, methods: seq<JMethod>): map<string, JMethod> {
    ResolvedGetters(env.isAssignableFrom, GroupsOf(env, Getter, methods))
  }

  /** Every setter group of the walk resolves against the getter types. */
  ghost predicate SettersResolve(env: Env, getTypes: map<string, Ty>, methods: seq<JMethod>) {
    AllSettersResolve(env.isAssignableFrom, GroupsOf(env, Setter, methods), getTypes)
  }

  /** Some setter group of the walk fails with `e`. */
  ghost predicate SetterFails(env: Env, getTypes: map<string, Ty>, methods: seq<JMethod>, e: ReflectionError) {
    SomeSetterFails(env.isAssignableFrom, GroupsOf(env, Setter, methods), getTypes, e)
  }

  ghost function SetterWinners(env: Env, getTypes: map<string, Ty>, methods: seq<JMethod>): map<string, JMethod> {
    ResolvedSetters(env.isAssignableFrom, GroupsOf(env, Setter, methods), getTypes)
  }

  /** The tables after the getter phase. */
  ghost function GetterTables(env: Env, getterMethods: seq<JMethod>): Tables {
    WithGetters(env, EmptyTables, GetterWinners(env, getterMethods))
  }

  /** The tables after the setter phase, which reads the getter types. */
  ghost function MethodTables(env: Env, getterMethods: seq<JMethod>, setterMethods: seq<JMethod>): Tables {
    var t := GetterTables(env, getterMethods);
    WithSetters(env, t, SetterWinners(env, t.getTypes, setterMethods))
  }

  /**
   * The four tables of a constructed reflector, given the orders in which the two calls of
   * `getClassMethods` returned the collected methods.
   */
  ghost function ReflectorTables(env: Env, clazz: JClass, getterMethods: seq<JMethod>, setterMethods: seq<JMethod>): Tables {
    FieldFallback(env, MethodTables(env, getterMethods, setterMethods), FieldChain(clazz))
  }

  // ---------------------------------------------------------------- properties of construction

  lemma GetterWinnersAreCandidates(env: Env, methods: seq<JMethod>)
    ensures forall n :: n in GetterWinners(env, methods) ==>
      IsCandidate(Getter, GetterWinners(env, methods)[n]) && env.methodToProperty(GetterWinners(env, methods)[n].name) == n
  {
  }

  lemma SetterWinnersAreCandidates(env: Env, getTypes: map<string, Ty>, methods: seq<JMethod>)
    ensures forall n :: n in SetterWinners(env, getTypes, methods) ==>
      IsCandidate(Setter, SetterWinners(env, getTypes, methods)[n])
      && env.methodToProperty(SetterWinners(env, getTypes, methods)[n].name) == n
  {
  }

  /**
   * The constructed tables are well formed: accessor and type maps share their keys, every key
   * is a valid property name, every accessor belongs to its property, and every type is the
   * type of its accessor.
   */
  lemma ReflectorTablesWellFormed(env: Env, clazz: JClass, getterMethods: seq<JMethod>, setterMethods: seq<JMethod>)
    ensures WellFormed(env, ReflectorTables(env, clazz, getterMethods, setterMethods))
  {
    GetterWinnersAreCandidates(env, getterMethods);
    WithGettersWellFormed(env, EmptyTables, GetterWinners(env, getterMethods));
    var t := GetterTables(env, getterMethods);
    SetterWinnersAreCandidates(env, t.getTypes, setterMethods);
    WithSettersWellFormed(env, t, SetterWinners(env, t.getTypes, setterMethods));
    FieldFallbackWellFormed(env, MethodTables(env, getterMethods, setterMethods), FieldChain(clazz));
  }

  /**
   * A property with a resolved getter method is read through that method, never through a
   * field, and when assignability is a partial order its type is assignable to the return type
   * of every getter candidate collected for the property.
   */
  lemma GetterMethodWins(env: Env, clazz: JClass, getterMethods: seq<JMethod>, setterMethods: seq<JMethod>, n: string)
    requires n in GetterWinners(env, getterMethods) && IsValidPropertyName(n)
    ensures var t, w := ReflectorTables(env, clazz, getterMethods, setterMethods), GetterWinners(env, getterMethods)[n];
      && n in t.getMethods && t.getMethods[n] == MethodInvoker(w)
      && (PartialOrder(env.isAssignableFrom) ==>
            forall m :: m in getterMethods && IsCandidate(Getter, m) && env.methodToProperty(m.name) == n ==>
              env.isAssignableFrom(m.returnType, w.returnType))
  {
    GetterWinnersAreCandidates(env, getterMethods);
    WithGettersWellFormed(env, EmptyTables, GetterWinners(env, getterMethods));
    var t := GetterTables(env, getterMethods);
    SetterWinnersAreCandidates(env, t.getTypes, setterMethods);
    WithSettersWellFormed(env, t, SetterWinners(env, t.getTypes, setterMethods));
    FieldFallbackGetters(env, MethodTables(env, getterMethods, setterMethods), FieldChain(clazz));
    if PartialOrder(env.isAssignableFrom) {
      GroupsOfIsGrouping(env, Getter, getterMethods);
      GetterFoldNarrowest(env.isAssignableFrom, n, GroupsOf(env, Getter, getterMethods)[n]);
    }
  }

  /** The setter phase keeps the getter side and is well formed, so a resolved setter is the one registered. */
  lemma SetterMethodRegistered(env: Env, clazz: JClass, getterMethods: seq<JMethod>, setterMethods: seq<JMethod>, n: string)
    requires n in SetterWinners(env, GetterTables(env, getterMethods).getTypes, setterMethods) && IsValidPropertyName(n)
    ensures var t := ReflectorTables(env, clazz, getterMethods, setterMethods);
      && n in t.setMethods
      && t.setMethods[n] == MethodInvoker(SetterWinners(env, GetterTables(env, getterMethods).getTypes, setterMethods)[n])
  {
    var gt := GetterTables(env, getterMethods).getTypes;
    SetterWinnersAreCandidates(env, gt, setterMethods);
    FieldFallbackSetters(env, MethodTables(env, getterMethods, setterMethods), FieldChain(clazz));
  }

  /**
   * A property whose setter group holds a setter taking exactly the property's getter type is
   * written through the first such setter, whatever comes before it in the group.
   */
  lemma SetterExactMatchWins(env: Env, clazz: JClass, getterMethods: seq<JMethod>, setterMethods: seq<JMethod>, n: string, j: nat)
    requires n in GroupsOf(env, Setter, setterMethods) && IsValidPropertyName(n)
    requires var g, gt := GroupsOf(env, Setter, setterMethods)[n], GetterTables(env, getterMethods).getTypes;
      && j < |g| && ExactMatch(GetterTypeOf(gt, n), g[j])
      && forall i :: 0 <= i < j ==> !ExactMatch(GetterTypeOf(gt, n), g[i])
    ensures var t := ReflectorTables(env, clazz, getterMethods, setterMethods);
      n in t.setMethods && t.setMethods[n] == MethodInvoker(GroupsOf(env, Setter, setterMethods)[n][j])
  {
    var g, gt := GroupsOf(env, Setter, setterMethods)[n], GetterTables(env, getterMethods).getTypes;
    ExactMatchWins(env.isAssignableFrom, n, GetterTypeOf(gt, n), g, j);
    assert n in SetterWinners(env, gt, setterMethods);
    SetterMethodRegistered(env, clazz, getterMethods, setterMethods, n);
  }

  /**
   * Without an exact match, and when assignability is a partial order, the setter a property is
   * written through takes a parameter type assignable to that of every setter candidate.
   */
  lemma SetterNarrowestWins(env: Env, clazz: JClass, getterMethods: seq<JMethod>, setterMethods: seq<JMethod>, n: string)
    requires PartialOrder(env.isAssignableFrom)
    requires n in SetterWinners(env, GetterTables(env, getterMethods).getTypes, setterMethods) && IsValidPropertyName(n)
    requires var g, gt := GroupsOf(env, Setter, setterMethods)[n], GetterTables(env, getterMethods).getTypes;
      forall i :: 0 <= i < |g| ==> !ExactMatch(GetterTypeOf(gt, n), g[i])
    ensures var t, w := ReflectorTables(env, clazz, getterMethods, setterMethods),
                        SetterWinners(env, GetterTables(env, getterMethods).getTypes, setterMethods)[n];
      && n in t.setMethods && t.setMethods[n] == MethodInvoker(w) && SetterShaped(w)
      && forall m :: m in setterMethods && IsCandidate(Setter, m) && env.methodToProperty(m.name) == n ==>
           env.isAssignableFrom(ParamType(m), ParamType(w))
  {
    var g, gt := GroupsOf(env, Setter, setterMethods)[n], GetterTables(env, getterMethods).getTypes;
    GroupsOfIsGrouping(env, Setter, setterMethods);
    SetterFoldNarrowest(env.isAssignableFrom, n, GetterTypeOf(gt, n), g);
    SetterMethodRegistered(env, clazz, getterMethods, setterMethods, n);
  }

  /**
   * A property without a resolved getter method is readable exactly when its name is valid and
   * some accessible field of the class chain has that name, and then through the first such
   * field (a subclass field hides a superclass field).
   */
  lemma FieldGetterFallback(env: Env, clazz: JClass, getterMethods: seq<JMethod>, setterMethods: seq<JMethod>, n: string)
    requires n !in GetterWinners(env, getterMethods)
    ensures var t, fs := ReflectorTables(env, clazz, getterMethods, setterMethods), FieldChain(clazz);
      && (n in t.getMethods <==> IsValidPropertyName(n) && FirstField(Getter, fs, n).Some?)
      && (n in t.getMethods ==> t.getMethods[n] == GetFieldInvoker(fs[FirstField(Getter, fs, n).value]))
  {
    var t := MethodTables(env, getterMethods, setterMethods);
    assert n !in t.getMethods;
    FieldFallbackGetters(env, t, FieldChain(clazz));
  }

  /**
   * A property without a resolved setter method is writable exactly when its name is valid and
   * some accessible field of the class chain that is not `final static` has that name, and then
   * through the first such field.
   */
  lemma FieldSetterFallback(env: Env, clazz: JClass, getterMethods: seq<JMethod>, setterMethods: seq<JMethod>, n: string)
    requires n !in SetterWinners(env, GetterTables(env, getterMethods).getTypes, setterMethods)
    ensures var t, fs := ReflectorTables(env, clazz, getterMethods, setterMethods), FieldChain(clazz);
      && (n in t.setMethods <==> IsValidPropertyName(n) && FirstField(Setter, fs, n).Some?)
      && (n in t.setMethods ==> t.setMethods[n] == SetFieldInvoker(fs[FirstField(Setter, fs, n).value]))
  {
    var t := MethodTables(env, getterMethods, setterMethods);
    assert n !in t.setMethods;
    FieldFallbackSetters(env, t, FieldChain(clazz));
  }

  /**
   * A field declared by the class itself hides every superclass field of the same name: when
   * one of the class's own fields can be read as `n` and no getter method resolved, the reader
   * is one of the class's own fields, so it is declared by the class.
   */
  lemma DeclaredFieldHidesGetter(env: Env, clazz: JClass, getterMethods: seq<JMethod>, setterMethods: seq<JMethod>, n: string, i: nat)
    requires n !in GetterWinners(env, getterMethods) && IsValidPropertyName(n)
    requires i < |clazz.declaredFields| && FieldServes(Getter, clazz.declaredFields[i], n)
    ensures var t := ReflectorTables(env, clazz, getterMethods, setterMethods);
      && n in t.getMethods && t.getMethods[n].GetFieldInvoker? && t.getMethods[n].field in clazz.declaredFields
      && ((forall f :: f in clazz.declaredFields ==> f.declaringClass == clazz.name) ==>
            t.getMethods[n].field.declaringClass == clazz.name)
  {
    var fs := FieldChain(clazz);
    assert fs[i] == clazz.declaredFields[i];
    FieldGetterFallback(env, clazz, getterMethods, setterMethods, n);
    var j := FirstField(Getter, fs, n).value;
    assert j <= i;
    assert fs[j] == clazz.declaredFields[j];
  }

  /** The write side of `DeclaredFieldHidesGetter`. */
  lemma DeclaredFieldHidesSetter(env: Env, clazz: JClass, getterMethods: seq<JMethod>, setterMethods: seq<JMethod>, n: string, i: nat)
    requires n !in SetterWinners(env, GetterTables(env, getterMethods).getTypes, setterMethods) && IsValidPropertyName(n)
    requires i < |clazz.declaredFields| && FieldServes(Setter, clazz.declaredFields[i], n)
    ensures var t := ReflectorTables(env, clazz, getterMethods, setterMethods);
      && n in t.setMethods && t.setMethods[n].SetFieldInvoker? && t.setMethods[n].field in clazz.declaredFields
      && ((forall f :: f in clazz.declaredFields ==> f.declaringClass == clazz.name) ==>
            t.setMethods[n].field.declaringClass == clazz.name)
  {
    var fs := FieldChain(clazz);
    assert fs[i] == clazz.declaredFields[i];
    FieldSetterFallback(env, clazz, getterMethods, setterMethods, n);
    var j := FirstField(Setter, fs, n).value;
    assert j <= i;
    assert fs[j] == clazz.declaredFields[j];
  }

  // ---------------------------------------------------------------- key snapshots

  /** `keySet().toArray(...)`: the keys in some order, each once. */
  method KeysSnapshot(keys: set<string>) returns (names: seq<string>)
    ensures Distinct(names)
    ensures forall n :: n in names <==> n in keys
  {
    var rest := keys;
    names := [];
    while rest != {}
      invariant rest <= keys
      invariant Distinct(names)
      invariant forall n :: n in names <==> n in keys && n !in rest
      decreases |rest|
    {
      var n :| n in rest;
      names := names + [n];
      rest := rest - {n};
    }
  }

  // ---------------------------------------------------------------- the reflector

  class Reflector {
    /** The reflected class (`type`). */
    const cls: JClass
    const env: Env
    var readablePropertyNames: seq<string>
    var writeablePropertyNames: seq<string>
    var setMethods: map<string, Invoker>
    var getMethods: map<string, Invoker>
    var setTypes: map<string, Ty>
    var getTypes: map<string, Ty>
    var defaultConstructor: Option<JConstructor>
    var caseInsensitivePropertyMap: map<string, string>

    /** The four tables as one value. */
    function Snapshot(): Tables
      reads this
    {
      Tables(getMethods, getTypes, setMethods, setTypes)
    }

    /** The invariant of a constructed reflector. */
    ghost predicate Valid()
      reads this
    {
      && WellFormed(env, Snapshot())
      && Distinct(readablePropertyNames)
      && (forall n :: n in readablePropertyNames <==> n in getMethods)
      && Distinct(writeablePropertyNames)
      && (forall n :: n in writeablePropertyNames <==> n in setMethods)
      && caseInsensitivePropertyMap == CaseIndex(CaseIndex(map[], readablePropertyNames), writeablePropertyNames)
      && defaultConstructor == DefaultConstructorOf(cls.declaredConstructors)
    }

    /** The field initialisers and `type = clazz`. */
    constructor Init(clazz: JClass, env: Env)
      ensures cls == clazz && this.env == env
      ensures Snapshot() == EmptyTables
      ensures defaultConstructor == None && caseInsensitivePropertyMap == map[]
      ensures readablePropertyNames == [] && writeablePropertyNames == []
    {
      cls := clazz;
      this.env := env;
      readablePropertyNames := [];
      writeablePropertyNames := [];
      setMethods := map[];
      getMethods := map[];
      setTypes := map[];
      getTypes := map[];
      defaultConstructor := None;
      caseInsensitivePropertyMap := map[];
    }

    /**
     * The Java constructor `Reflector(Class)`. It fails with the first ambiguity met while
     * resolving getters, then setters. `getterMethods` and `setterMethods` are the orders in which
     * the two walks returned the collected methods.
     */
    static method Create(clazz: JClass, env: Env)
      returns (r: Result<Reflector, ReflectionError>, ghost getterMethods: seq<JMethod>, ghost setterMethods: seq<JMethod>)
      ensures Distinct(getterMethods) && forall m :: m in getterMethods <==> Collected(WalkedMethods(clazz), m)
      ensures GettersResolve(env, getterMethods) ==>
        Distinct(setterMethods) && forall m :: m in setterMethods <==> Collected(WalkedMethods(clazz), m)
      ensures r.Success? <==>
        GettersResolve(env, getterMethods) && SettersResolve(env, GetterTables(env, getterMethods).getTypes, setterMethods)
      ensures r.Failure? ==>
        || GetterFails(env, getterMethods, r.error)
        || (GettersResolve(env, getterMethods) && SetterFails(env, GetterTables(env, getterMethods).getTypes, setterMethods, r.error))
      ensures r.Success? ==> fresh(r.value) && r.value.cls == clazz && r.value.env == env && r.value.Valid()
      ensures r.Success? ==> r.value.Snapshot() == ReflectorTables(env, clazz, getterMethods, setterMethods)
    {
      var x := new Reflector.Init(clazz, env);
      x.AddDefaultConstructor(clazz);
      var o;
      o, getterMethods := x.AddGetMethods(clazz);
      setterMethods := [];
      if o.Fail? {
        return Failure(o.error), getterMethods, setterMethods;
      }
      assert x.Snapshot() == GetterTables(env, getterMethods);
      o, setterMethods := x.AddSetMethods(clazz);
      if o.Fail? {
        return Failure(o.error), getterMethods, setterMethods;
      }
      assert x.Snapshot() == MethodTables(env, getterMethods, setterMethods);
      x.AddFields(clazz);
      ReflectorTablesWellFormed(env, clazz, getterMethods, setterMethods);
      x.IndexProperties();
      r := Success(x);
    }

    /**
     * The end of the constructor: snapshot the keys of the accessor tables as the readable and
     * writable names, then index both by their upper case, readable names first.
     */
    method IndexProperties()
      requires WellFormed(env, Snapshot()) && defaultConstructor == DefaultConstructorOf(cls.declaredConstructors)
      requires caseInsensitivePropertyMap == map[]
      modifies this`readablePropertyNames, this`writeablePropertyNames, this`caseInsensitivePropertyMap
      ensures Valid()
    {
      readablePropertyNames := KeysSnapshot(getMethods.Keys);
      writeablePropertyNames := KeysSnapshot(setMethods.Keys);
      IndexNames(readablePropertyNames);
      IndexNames(writeablePropertyNames);
    }

    /** The two indexing loops of the constructor: `put(upper(n), n)` for each name in order. */
    method IndexNames(names: seq<string>)
      modifies this`caseInsensitivePropertyMap
      ensures caseInsensitivePropertyMap == CaseIndex(old(caseInsensitivePropertyMap), names)
    {
      for i := 0 to |names|
        invariant caseInsensitivePropertyMap == CaseIndex(old(caseInsensitivePropertyMap), names[..i])
      {
        assert names[..i + 1][..i] == names[..i];
        caseInsensitivePropertyMap := caseInsensitivePropertyMap[Upper(names[i]) := names[i]];
      }
      assert names[..|names|] == names;
    }

    /** `addDefaultConstructor`: the last accessible zero-argument constructor, if any, is recorded. */
    method AddDefaultConstructor(clazz: JClass)
      modifies this`defaultConstructor
      ensures defaultConstructor ==
        if DefaultConstructorOf(clazz.declaredConstructors).Some? then DefaultConstructorOf(clazz.declaredConstructors)
        else old(defaultConstructor)
    {
      var consts := clazz.declaredConstructors;
      for i := 0 to |consts|
        invariant defaultConstructor ==
          if DefaultConstructorOf(consts[..i]).Some? then DefaultConstructorOf(consts[..i]) else old(defaultConstructor)
      {
        assert consts[..i + 1][..i] == consts[..i];
        if consts[i].parameterTypes == [] {
          if consts[i].accessible {
            defaultConstructor := Some(consts[i]);
          }
        }
      }
      assert consts[..|consts|] == consts;
    }

    /** `addGetMethods`: group the getter candidates of the walk by property and resolve each group. */
    method AddGetMethods(clazz: JClass) returns (o: Outcome<ReflectionError>, ghost methods: seq<JMethod>)
      modifies this`getMethods, this`getTypes
      ensures Distinct(methods) && forall m :: m in methods <==> Collected(WalkedMethods(clazz), m)
      ensures o.Pass? <==> GettersResolve(env, methods)
      ensures o.Pass? ==> Snapshot() == WithGetters(env, old(Snapshot()), GetterWinners(env, methods))
      ensures o.Fail? ==> GetterFails(env, methods, o.error)
    {
      var ms := GetClassMethods(clazz);
      methods := ms;
      var conflictingGetters := GroupCandidates(env, Getter, ms);
      o := ResolveGetterConflicts(conflictingGetters);
    }

    /**
     * `resolveGetterConflicts`: resolve every group in some order, registering each winner; the
     * first group that does not resolve aborts construction.
     */
    method ResolveGetterConflicts(conflictingGetters: map<string, seq<JMethod>>) returns (o: Outcome<ReflectionError>)
      requires forall n :: n in conflictingGetters ==> conflictingGetters[n] != []
      modifies this`getMethods, this`getTypes
      ensures o.Pass? <==> AllGettersResolve(env.isAssignableFrom, conflictingGetters)
      ensures o.Pass? ==> Snapshot() == WithGetters(env, old(Snapshot()), ResolvedGetters(env.isAssignableFrom, conflictingGetters))
      ensures o.Fail? ==> SomeGetterFails(env.isAssignableFrom, conflictingGetters, o.error)
    {
      var keys := conflictingGetters.Keys;
      ghost var start := Snapshot();
      ghost var done: map<string, JMethod> := map[];
      GetterLoopStart(env, conflictingGetters, start);
      while keys != {}
        invariant GetterLoop(env, conflictingGetters, start, keys, done, Snapshot())
        decreases |keys|
      {
        var propName :| propName in keys;
        var winner := ResolveGetter(env.isAssignableFrom, propName, conflictingGetters[propName]);
        if winner.Failure? {
          return Fail(winner.error);
        }
        GetterLoopStep(env, conflictingGetters, start, keys, done, Snapshot(), propName, winner.value);
        AddGetMethod(propName, winner.value);
        done := done[propName := winner.value];
        keys := keys - {propName};
      }
      o := Pass;
      GetterLoopEnd(env, conflictingGetters, start, done, Snapshot());
    }

    /** `addGetMethod`: register a getter method under a valid property name. */
    method AddGetMethod(name: string, m: JMethod)
      modifies this`getMethods, this`getTypes
      ensures Snapshot() == PutGetMethod(env, old(Snapshot()), name, m)
    {
      if IsValidPropertyName(name) {
        getMethods := getMethods[name := MethodInvoker(m)];
        getTypes := getTypes[name := env.returnTypeIn(m)];
      }
    }

    /** `addSetMethods`: group the setter candidates of the walk by property and resolve each group. */
    method AddSetMethods(clazz: JClass) returns (o: Outcome<ReflectionError>, ghost methods: seq<JMethod>)
      modifies this`setMethods, this`setTypes
      ensures Distinct(methods) && forall m :: m in methods <==> Collected(WalkedMethods(clazz), m)
      ensures o.Pass? <==> SettersResolve(env, getTypes, methods)
      ensures o.Pass? ==> Snapshot() == WithSetters(env, old(Snapshot()), SetterWinners(env, getTypes, methods))
      ensures o.Fail? ==> SetterFails(env, getTypes, methods, o.error)
    {
      var ms := GetClassMethods(clazz);
      methods := ms;
      var conflictingSetters := GroupCandidates(env, Setter, ms);
      o := ResolveSetterConflicts(conflictingSetters);
    }

    /**
     * `resolveSetterConflicts`: resolve every group in some order against the registered getter
     * type, registering each winner; the first group that does not resolve aborts construction.
     */
    method ResolveSetterConflicts(conflictingSetters: map<string, seq<JMethod>>) returns (o: Outcome<ReflectionError>)
      requires SetterGroups(conflictingSetters)
      modifies this`setMethods, this`setTypes
      ensures o.Pass? <==> AllSettersResolve(env.isAssignableFrom, conflictingSetters, getTypes)
      ensures o.Pass? ==>
        Snapshot() == WithSetters(env, old(Snapshot()), ResolvedSetters(env.isAssignableFrom, conflictingSetters, getTypes))
      ensures o.Fail? ==> SomeSetterFails(env.isAssignableFrom, conflictingSetters, getTypes, o.error)
    {
      var types := getTypes;
      var keys := conflictingSetters.Keys;
      ghost var start := Snapshot();
      ghost var done: map<string, JMethod> := map[];
      SetterLoopStart(env, conflictingSetters, types, start);
      while keys != {}
        invariant getTypes == types
        invariant SetterLoop(env, conflictingSetters, types, start, keys, done, Snapshot())
        decreases |keys|
      {
        var propName :| propName in keys;
        var getterType := GetterTypeOf(types, propName);
        var match_ := ResolveSetter(env.isAssignableFrom, propName, getterType, conflictingSetters[propName]);
        if match_.Failure? {
          return Fail(match_.error);
        }
        SetterLoopStep(env, conflictingSetters, types, start, keys, done, Snapshot(), propName, match_.value);
        AddSetMethod(propName, match_.value);
        done := done[propName := match_.value];
        keys := keys - {propName};
      }
      o := Pass;
      SetterLoopEnd(env, conflictingSetters, types, start, done, Snapshot());
    }

    /** `addSetMethod`: register a setter method under a valid property name. */
    method AddSetMethod(name: string, m: JMethod)
      modifies this`setMethods, this`setTypes
      ensures Snapshot() == PutSetMethod(env, old(Snapshot()), name, m)
    {
      if IsValidPropertyName(name) {
        setMethods := setMethods[name := MethodInvoker(m)];
        setTypes := setTypes[name := env.paramTypeIn(m)];
      }
    }

    /** `addFields`: the field fallback over the declared fields of `clazz`, then of its superclasses. */
    method AddFields(clazz: JClass)
      modifies this`getMethods, this`getTypes, this`setMethods, this`setTypes
      ensures Snapshot() == FieldFallback(env, old(Snapshot()), FieldChain(clazz))
      decreases clazz
    {
      var fields := clazz.declaredFields;
      for i := 0 to |fields|
        invariant Snapshot() == FieldFallback(env, old(Snapshot()), fields[..i])
      {
        assert fields[..i + 1][..i] == fields[..i];
        var field := fields[i];
        if field.accessible {
          if field.name !in setMethods {
            if !(field.isFinal && field.isStatic) {
              AddSetField(field);
            }
          }
          if field.name !in getMethods {
            AddGetField(field);
          }
        }
      }
      assert fields[..|fields|] == fields;
      match clazz.superclass {
        case Some(s) =>
          AddFields(s);
          FieldFallbackAppend(env, old(Snapshot()), fields, FieldChain(s));
        case None =>
          assert FieldChain(clazz) == fields;
      }
    }

    /** `addSetField` */
    method AddSetField(field: JField)
      modifies this`setMethods, this`setTypes
      ensures Snapshot() == PutSetField(env, old(Snapshot()), field)
    {
      if IsValidPropertyName(field.name) {
        setMethods := setMethods[field.name := SetFieldInvoker(field)];
        setTypes := setTypes[field.name := env.fieldTypeIn(field)];
      }
    }

    /** `addGetField` */
    method AddGetField(field: JField)
      modifies this`getMethods, this`getTypes
      ensures Snapshot() == PutGetField(env, old(Snapshot()), field)
    {
      if IsValidPropertyName(field.name) {
        getMethods := getMethods[field.name := GetFieldInvoker(field)];
        getTypes := getTypes[field.name := env.fieldTypeIn(field)];
      }
    }

    // -------------------------------------------------------------- queries

    /** `getDefaultConstructor` */
    function GetDefaultConstructor(): (r: Result<JConstructor, ReflectionError>)
      reads this
      requires Valid()
      ensures r.Success? <==> exists c :: c in cls.declaredConstructors && DefaultShaped(c)
      ensures r.Success? ==> r.value in cls.declaredConstructors && DefaultShaped(r.value)
      ensures r.Failure? ==> r.error == NoDefaultConstructor
    {
      if defaultConstructor.Some? then Success(defaultConstructor.value) else Failure(NoDefaultConstructor)
    }

    /** `hasDefaultConstructor` */
    function HasDefaultConstructor(): (r: bool)
      reads this
      requires Valid()
      ensures r <==> exists c :: c in cls.declaredConstructors && DefaultShaped(c)
      ensures r <==> GetDefaultConstructor().Success?
    {
      defaultConstructor.Some?
    }

    /** `getSetInvoker` */
    function GetSetInvoker(propertyName: string): (r: Result<Invoker, ReflectionError>)
      reads this
      requires Valid()
      ensures r.Success? <==> propertyName in writeablePropertyNames
      ensures r.Success? ==> IsValidPropertyName(propertyName) && WriteAccessor(env, propertyName, r.value)
      ensures r.Failure? ==> r.error == NoSetter(propertyName)
    {
      if propertyName in setMethods then Success(setMethods[propertyName]) else Failure(NoSetter(propertyName))
    }

    /** `getGetInvoker` */
    function GetGetInvoker(propertyName: string): (r: Result<Invoker, ReflectionError>)
      reads this
      requires Valid()
      ensures r.Success? <==> propertyName in readablePropertyNames
      ensures r.Success? ==> IsValidPropertyName(propertyName) && ReadAccessor(env, propertyName, r.value)
      ensures r.Failure? ==> r.error == NoGetter(propertyName)
    {
      if propertyName in getMethods then Success(getMethods[propertyName]) else Failure(NoGetter(propertyName))
    }

    /** `getSetterType`: the type written by the property's setter. */
    function GetSetterType(propertyName: string): (r: Result<Ty, ReflectionError>)
      reads this
      requires Valid()
      ensures r.Success? <==> GetSetInvoker(propertyName).Success?
      ensures r.Success? ==> r.value == ValueType(env, Setter, GetSetInvoker(propertyName).value)
      ensures r.Failure? ==> r.error == NoSetter(propertyName)
    {
      if propertyName in setTypes then Success(setTypes[propertyName]) else Failure(NoSetter(propertyName))
    }

    /** `getGetterType`: the type read by the property's getter. */
    function GetGetterType(propertyName: string): (r: Result<Ty, ReflectionError>)
      reads this
      requires Valid()
      ensures r.Success? <==> GetGetInvoker(propertyName).Success?
      ensures r.Success? ==> r.value == ValueType(env, Getter, GetGetInvoker(propertyName).value)
      ensures r.Failure? ==> r.error == NoGetter(propertyName)
    {
      if propertyName in getTypes then Success(getTypes[propertyName]) else Failure(NoGetter(propertyName))
    }

    /** `hasSetter` */
    function HasSetter(propertyName: string): (r: bool)
      reads this
      requires Valid()
      ensures r <==> propertyName in writeablePropertyNames
      ensures r <==> GetSetInvoker(propertyName).Success?
      ensures r ==> IsValidPropertyName(propertyName)
    {
      propertyName in setMethods
    }

    /** `hasGetter` */
    function HasGetter(propertyName: string): (r: bool)
      reads this
      requires Valid()
      ensures r <==> propertyName in readablePropertyNames
      ensures r <==> GetGetInvoker(propertyName).Success?
      ensures r ==> IsValidPropertyName(propertyName)
    {
      propertyName in getMethods
    }

    /** `getGetablePropertyNames`: every readable property, each once. */
    function GetGetablePropertyNames(): (r: seq<string>)
      reads this
      requires Valid()
      ensures Distinct(r)
      ensures forall n :: n in r <==> HasGetter(n)
    {
      readablePropertyNames
    }

    /** `getSetablePropertyNames`: every writable property, each once. */
    function GetSetablePropertyNames(): (r: seq<string>)
      reads this
      requires Valid()
      ensures Distinct(r)
      ensures forall n :: n in r <==> HasSetter(n)
    {
      writeablePropertyNames
    }

    /**
     * `findPropertyName`: the readable or writable property whose upper case is that of `name`,
     * preferring writable names (they are indexed last).
     */
    function FindPropertyName(name: string): (r: Option<string>)
      reads this
      requires Valid()
      ensures r.Some? <==> exists n :: (n in readablePropertyNames || n in writeablePropertyNames) && Upper(n) == Upper(name)
      ensures r.Some? ==> Upper(r.value) == Upper(name)
      ensures r.Some? ==> HasGetter(r.value) || HasSetter(r.value)
      ensures (exists n :: n in writeablePropertyNames && Upper(n) == Upper(name)) ==> r.Some? && HasSetter(r.value)
    {
      CaseIndexLookup(readablePropertyNames, writeablePropertyNames, Upper(name));
      var key := Upper(name);
      if key in caseInsensitivePropertyMap then Some(caseInsensitivePropertyMap[key]) else None
    }

    /** Every readable or writable name is found again from its own upper case. */
    lemma FindPropertyNameOfProperty(n: string)
      requires Valid()
      requires n in readablePropertyNames || n in writeablePropertyNames
      ensures FindPropertyName(Upper(n)).Some? && Upper(FindPropertyName(Upper(n)).value) == Upper(n)
    {
      UpperIdempotent(n);
    }
  }
}
