/**
 * The tables a reflector fills (`getMethods`, `getTypes`, `setMethods`, `setTypes`) as a value,
 * the specification of each phase that fills them, the field fallback, the case-insensitive
 * name index and the default-constructor lookup.
 */
module Descriptor {
  import opened Wrappers
  import opened JavaModel
  import opened Resolution

  /** `MethodInvoker`, `GetFieldInvoker` and `SetFieldInvoker`, recording what they would invoke. */
  datatype Invoker =
    | MethodInvoker(target: JMethod)
    | GetFieldInvoker(field: JField)
    | SetFieldInvoker(field: JField)

  datatype Tables = Tables(
    getMethods: map<string, Invoker>,
    getTypes: map<string, Ty>,
    setMethods: map<string, Invoker>,
    setTypes: map<string, Ty>)

  const EmptyTables := Tables(map[], map[], map[], map[])

  /** `isValidPropertyName`: not starting with `$`, and neither `serialVersionUID` nor `class`. */
  function IsValidPropertyName(name: string): (r: bool)
    ensures r <==> (name == [] || name[0] != '$') && name != "serialVersionUID" && name != "class"
  {
    !(StartsWith(name, "$") || name == "serialVersionUID" || name == "class")
  }

  /** The value type an invoker reads (`kind == Getter`) or writes (`kind == Setter`). */
  function ValueType(env: Env, kind: Kind, inv: Invoker): Ty {
    match inv
    case MethodInvoker(m) => if kind == Getter then env.returnTypeIn(m) else env.paramTypeIn(m)
    case GetFieldInvoker(f) => env.fieldTypeIn(f)
    case SetFieldInvoker(f) => env.fieldTypeIn(f)
  }

  /** A read accessor for `name`: a getter candidate of that property, or an accessible field of that name. */
  predicate ReadAccessor(env: Env, name: string, inv: Invoker) {
    match inv
    case MethodInvoker(m) => IsCandidate(Getter, m) && env.methodToProperty(m.name) == name
    case GetFieldInvoker(f) => f.accessible && f.name == name
    case SetFieldInvoker(_) => false
  }

  /** A write accessor for `name`: a setter candidate of that property, or an accessible field that is not `final static`. */
  predicate WriteAccessor(env: Env, name: string, inv: Invoker) {
    match inv
    case MethodInvoker(m) => IsCandidate(Setter, m) && env.methodToProperty(m.name) == name
    case SetFieldInvoker(f) => f.accessible && !(f.isFinal && f.isStatic) && f.name == name
    case GetFieldInvoker(_) => false
  }

  /**
   * The table invariant: accessor and type maps have the same keys, every key is a valid
   * property name, each accessor fits its key and side, and each type is its accessor's.
   */
  ghost predicate WellFormed(env: Env, t: Tables) {
    ReadSide(env, t.getMethods, t.getTypes) && WriteSide(env, t.setMethods, t.setTypes)
  }

  ghost predicate ReadSide(env: Env, getMethods: map<string, Invoker>, getTypes: map<string, Ty>) {
    && getMethods.Keys == getTypes.Keys
    && forall k :: k in getMethods ==>
         IsValidPropertyName(k) && ReadAccessor(env, k, getMethods[k]) && getTypes[k] == ValueType(env, Getter, getMethods[k])
  }

  ghost predicate WriteSide(env: Env, setMethods: map<string, Invoker>, setTypes: map<string, Ty>) {
    && setMethods.Keys == setTypes.Keys
    && forall k :: k in setMethods ==>
         IsValidPropertyName(k) && WriteAccessor(env, k, setMethods[k]) && setTypes[k] == ValueType(env, Setter, setMethods[k])
  }

  lemma ReadSidePut(env: Env, getMethods: map<string, Invoker>, getTypes: map<string, Ty>, k: string, inv: Invoker)
    requires ReadSide(env, getMethods, getTypes)
    requires IsValidPropertyName(k) && ReadAccessor(env, k, inv)
    ensures ReadSide(env, getMethods[k := inv], getTypes[k := ValueType(env, Getter, inv)])
  {
  }

  lemma WriteSidePut(env: Env, setMethods: map<string, Invoker>, setTypes: map<string, Ty>, k: string, inv: Invoker)
    requires WriteSide(env, setMethods, setTypes)
    requires IsValidPropertyName(k) && WriteAccessor(env, k, inv)
    ensures WriteSide(env, setMethods[k := inv], setTypes[k := ValueType(env, Setter, inv)])
  {
  }

  // ---------------------------------------------------------------- single registrations

  /** `addGetMethod` */
  function PutGetMethod(env: Env, t: Tables, name: string, m: JMethod): Tables {
    if IsValidPropertyName(name) then
      t.(getMethods := t.getMethods[name := MethodInvoker(m)], getTypes := t.getTypes[name := env.returnTypeIn(m)])
    else t
  }

  /** `addSetMethod` */
  function PutSetMethod(env: Env, t: Tables, name: string, m: JMethod): Tables {
    if IsValidPropertyName(name) then
      t.(setMethods := t.setMethods[name := MethodInvoker(m)], setTypes := t.setTypes[name := env.paramTypeIn(m)])
    else t
  }

  /** `addGetField` */
  function PutGetField(env: Env, t: Tables, f: JField): Tables {
    if IsValidPropertyName(f.name) then
      t.(getMethods := t.getMethods[f.name := GetFieldInvoker(f)], getTypes := t.getTypes[f.name := env.fieldTypeIn(f)])
    else t
  }

  /** `addSetField` */
  function PutSetField(env: Env, t: Tables, f: JField): Tables {
    if IsValidPropertyName(f.name) then
      t.(setMethods := t.setMethods[f.name := SetFieldInvoker(f)], setTypes := t.setTypes[f.name := env.fieldTypeIn(f)])
    else t
  }

  // ---------------------------------------------------------------- method phases

  /** The winner of every getter group that resolves. */
  function ResolvedGetters(isAssignableFrom: (Ty, Ty) -> bool, groups: map<string, seq<JMethod>>): map<string, JMethod>
    requires forall n :: n in groups ==> groups[n] != []
  {
    map n | n in groups && GetterFold(isAssignableFrom, n, groups[n]).Success? :: GetterFold(isAssignableFrom, n, groups[n]).value
  }

  function GetterTypeOf(getTypes: map<string, Ty>, name: string): Option<Ty> {
    if name in getTypes then Some(getTypes[name]) else None
  }

  ghost predicate SetterGroups(groups: map<string, seq<JMethod>>) {
    forall n :: n in groups ==> groups[n] != [] && forall s :: s in groups[n] ==> SetterShaped(s)
  }

  /** The winner of every setter group that resolves, given the getter types already registered. */
  function ResolvedSetters(isAssignableFrom: (Ty, Ty) -> bool, groups: map<string, seq<JMethod>>, getTypes: map<string, Ty>)
    : map<string, JMethod>
    requires SetterGroups(groups)
  {
    map n | n in groups && SetterFold(isAssignableFrom, n, GetterTypeOf(getTypes, n), groups[n]).Success?
      :: SetterFold(isAssignableFrom, n, GetterTypeOf(getTypes, n), groups[n]).value
  }

  /** The accessors that `addGetMethod` or `addSetMethod` registers for a batch of winners. */
  function MethodInvokers(winners: map<string, JMethod>): map<string, Invoker> {
    map n | n in winners && IsValidPropertyName(n) :: MethodInvoker(winners[n])
  }

  function GetterTypes(env: Env, winners: map<string, JMethod>): map<string, Ty> {
    map n | n in winners && IsValidPropertyName(n) :: env.returnTypeIn(winners[n])
  }

  function SetterTypes(env: Env, winners: map<string, JMethod>): map<string, Ty> {
    map n | n in winners && IsValidPropertyName(n) :: env.paramTypeIn(winners[n])
  }

  /** Every getter group resolves. */
  ghost predicate AllGettersResolve(isAssignableFrom: (Ty, Ty) -> bool, groups: map<string, seq<JMethod>>)
    requires forall n :: n in groups ==> groups[n] != []
  {
    forall n :: n in groups ==> GetterFold(isAssignableFrom, n, groups[n]).Success?
  }

  /** Some getter group fails with `e`. */
  ghost predicate SomeGetterFails(isAssignableFrom: (Ty, Ty) -> bool, groups: map<string, seq<JMethod>>, e: ReflectionError)
    requires forall n :: n in groups ==> groups[n] != []
  {
    exists n :: n in groups && GetterFold(isAssignableFrom, n, groups[n]) == Failure(e)
  }

  /** `done` holds the winners of the getter groups resolved so far. */
  ghost predicate GettersResolvedSoFar(isAssignableFrom: (Ty, Ty) -> bool, groups: map<string, seq<JMethod>>, done: map<string, JMethod>)
    requires forall n :: n in groups ==> groups[n] != []
  {
    && done.Keys <= groups.Keys
    && forall n :: n in done ==> GetterFold(isAssignableFrom, n, groups[n]) == Success(done[n])
  }

  /** Every setter group resolves against the registered getter types. */
  ghost predicate AllSettersResolve(isAssignableFrom: (Ty, Ty) -> bool, groups: map<string, seq<JMethod>>, getTypes: map<string, Ty>)
    requires SetterGroups(groups)
  {
    forall n :: n in groups ==> SetterFold(isAssignableFrom, n, GetterTypeOf(getTypes, n), groups[n]).Success?
  }

  /** Some setter group fails with `e`. */
  ghost predicate SomeSetterFails(isAssignableFrom: (Ty, Ty) -> bool, groups: map<string, seq<JMethod>>, getTypes: map<string, Ty>,
                                  e: ReflectionError)
    requires SetterGroups(groups)
  {
    exists n :: n in groups && SetterFold(isAssignableFrom, n, GetterTypeOf(getTypes, n), groups[n]) == Failure(e)
  }

  /** `done` holds the winners of the setter groups resolved so far. */
  ghost predicate SettersResolvedSoFar(isAssignableFrom: (Ty, Ty) -> bool, groups: map<string, seq<JMethod>>, getTypes: map<string, Ty>,
                                       done: map<string, JMethod>)
    requires SetterGroups(groups)
  {
    && done.Keys <= groups.Keys
    && forall n :: n in done ==> SetterFold(isAssignableFrom, n, GetterTypeOf(getTypes, n), groups[n]) == Success(done[n])
  }

  /** A map holding the successful result of every getter group is the map of resolved getters. */
  lemma ResolvedGettersOf(isAssignableFrom: (Ty, Ty) -> bool, groups: map<string, seq<JMethod>>, done: map<string, JMethod>)
    requires forall n :: n in groups ==> groups[n] != []
    requires done.Keys == groups.Keys && GettersResolvedSoFar(isAssignableFrom, groups, done)
    ensures done == ResolvedGetters(isAssignableFrom, groups)
    ensures AllGettersResolve(isAssignableFrom, groups)
  {
  }

  /** A map holding the successful result of every setter group is the map of resolved setters. */
  lemma ResolvedSettersOf(isAssignableFrom: (Ty, Ty) -> bool, groups: map<string, seq<JMethod>>, getTypes: map<string, Ty>,
                          done: map<string, JMethod>)
    requires SetterGroups(groups)
    requires done.Keys == groups.Keys && SettersResolvedSoFar(isAssignableFrom, groups, getTypes, done)
    ensures done == ResolvedSetters(isAssignableFrom, groups, getTypes)
    ensures AllSettersResolve(isAssignableFrom, groups, getTypes)
  {
  }

  /**
   * The state of the `resolveGetterConflicts` loop: the groups of `groups.Keys - keys` are
   * resolved, their winners are in `done`, and `now` is `start` with those winners registered.
   */
  ghost predicate GetterLoop(env: Env, groups: map<string, seq<JMethod>>, start: Tables, keys: set<string>,
                             done: map<string, JMethod>, now: Tables)
    requires forall n :: n in groups ==> groups[n] != []
  {
    && keys <= groups.Keys
    && done.Keys == groups.Keys - keys
    && GettersResolvedSoFar(env.isAssignableFrom, groups, done)
    && now == WithGetters(env, start, done)
  }

  lemma GetterLoopStart(env: Env, groups: map<string, seq<JMethod>>, start: Tables)
    requires forall n :: n in groups ==> groups[n] != []
    ensures GetterLoop(env, groups, start, groups.Keys, map[], start)
  {
    WithNoWinners(env, start);
  }

  lemma GetterLoopStep(env: Env, groups: map<string, seq<JMethod>>, start: Tables, keys: set<string>,
                       done: map<string, JMethod>, now: Tables, name: string, m: JMethod)
    requires forall n :: n in groups ==> groups[n] != []
    requires GetterLoop(env, groups, start, keys, done, now)
    requires name in keys && GetterFold(env.isAssignableFrom, name, groups[name]) == Success(m)
    ensures GetterLoop(env, groups, start, keys - {name}, done[name := m], PutGetMethod(env, now, name, m))
  {
    GettersResolvedSoFarAdd(env.isAssignableFrom, groups, done, name, m);
    WithGettersAdd(env, start, done, name, m);
    assert done[name := m].Keys == groups.Keys - (keys - {name});
  }

  lemma GettersResolvedSoFarAdd(isAssignableFrom: (Ty, Ty) -> bool, groups: map<string, seq<JMethod>>,
                                done: map<string, JMethod>, name: string, m: JMethod)
    requires forall n :: n in groups ==> groups[n] != []
    requires GettersResolvedSoFar(isAssignableFrom, groups, done)
    requires name in groups && GetterFold(isAssignableFrom, name, groups[name]) == Success(m)
    ensures GettersResolvedSoFar(isAssignableFrom, groups, done[name := m])
  {
  }

  lemma GetterLoopEnd(env: Env, groups: map<string, seq<JMethod>>, start: Tables, done: map<string, JMethod>, now: Tables)
    requires forall n :: n in groups ==> groups[n] != []
    requires GetterLoop(env, groups, start, {}, done, now)
    ensures AllGettersResolve(env.isAssignableFrom, groups)
    ensures now == WithGetters(env, start, ResolvedGetters(env.isAssignableFrom, groups))
  {
    ResolvedGettersOf(env.isAssignableFrom, groups, done);
  }

  /** The state of the `resolveSetterConflicts` loop, against the getter types `getTypes`. */
  ghost predicate SetterLoop(env: Env, groups: map<string, seq<JMethod>>, getTypes: map<string, Ty>, start: Tables,
                             keys: set<string>, done: map<string, JMethod>, now: Tables)
    requires SetterGroups(groups)
  {
    && keys <= groups.Keys
    && done.Keys == groups.Keys - keys
    && SettersResolvedSoFar(env.isAssignableFrom, groups, getTypes, done)
    && now == WithSetters(env, start, done)
  }

  lemma SetterLoopStart(env: Env, groups: map<string, seq<JMethod>>, getTypes: map<string, Ty>, start: Tables)
    requires SetterGroups(groups)
    ensures SetterLoop(env, groups, getTypes, start, groups.Keys, map[], start)
  {
    WithNoWinners(env, start);
  }

  lemma SetterLoopStep(env: Env, groups: map<string, seq<JMethod>>, getTypes: map<string, Ty>, start: Tables,
                       keys: set<string>, done: map<string, JMethod>, now: Tables, name: string, m: JMethod)
    requires SetterGroups(groups)
    requires SetterLoop(env, groups, getTypes, start, keys, done, now)
    requires name in keys && SetterFold(env.isAssignableFrom, name, GetterTypeOf(getTypes, name), groups[name]) == Success(m)
    ensures SetterLoop(env, groups, getTypes, start, keys - {name}, done[name := m], PutSetMethod(env, now, name, m))
  {
    SettersResolvedSoFarAdd(env.isAssignableFrom, groups, getTypes, done, name, m);
    WithSettersAdd(env, start, done, name, m);
    assert done[name := m].Keys == groups.Keys - (keys - {name});
  }

  lemma SettersResolvedSoFarAdd(isAssignableFrom: (Ty, Ty) -> bool, groups: map<string, seq<JMethod>>, getTypes: map<string, Ty>,
                                done: map<string, JMethod>, name: string, m: JMethod)
    requires SetterGroups(groups) && SettersResolvedSoFar(isAssignableFrom, groups, getTypes, done)
    requires name in groups && SetterFold(isAssignableFrom, name, GetterTypeOf(getTypes, name), groups[name]) == Success(m)
    ensures SettersResolvedSoFar(isAssignableFrom, groups, getTypes, done[name := m])
  {
  }

  lemma SetterLoopEnd(env: Env, groups: map<string, seq<JMethod>>, getTypes: map<string, Ty>, start: Tables,
                      done: map<string, JMethod>, now: Tables)
    requires SetterGroups(groups)
    requires SetterLoop(env, groups, getTypes, start, {}, done, now)
    ensures AllSettersResolve(env.isAssignableFrom, groups, getTypes)
    ensures now == WithSetters(env, start, ResolvedSetters(env.isAssignableFrom, groups, getTypes))
  {
    ResolvedSettersOf(env.isAssignableFrom, groups, getTypes, done);
  }

  /** The tables after `addGetMethod` for every winner, in any order. */
  function WithGetters(env: Env, t: Tables, winners: map<string, JMethod>): Tables {
    t.(getMethods := t.getMethods + MethodInvokers(winners), getTypes := t.getTypes + GetterTypes(env, winners))
  }

  /** The tables after `addSetMethod` for every winner, in any order. */
  function WithSetters(env: Env, t: Tables, winners: map<string, JMethod>): Tables {
    t.(setMethods := t.setMethods + MethodInvokers(winners), setTypes := t.setTypes + SetterTypes(env, winners))
  }

  lemma UpdateUnion<K, V>(a: map<K, V>, b: map<K, V>, k: K, v: V)
    ensures (a + b)[k := v] == a + b[k := v]
  {
  }

  /** An empty batch registers nothing. */
  lemma WithNoWinners(env: Env, t: Tables)
    ensures WithGetters(env, t, map[]) == t
    ensures WithSetters(env, t, map[]) == t
  {
    assert MethodInvokers(map[]) == map[];
    assert GetterTypes(env, map[]) == map[] && SetterTypes(env, map[]) == map[];
  }

  lemma InvokersBatchAdd(winners: map<string, JMethod>, name: string, m: JMethod)
    ensures MethodInvokers(winners[name := m]) ==
      if IsValidPropertyName(name) then MethodInvokers(winners)[name := MethodInvoker(m)] else MethodInvokers(winners)
  {
  }

  lemma GetterTypesBatchAdd(env: Env, winners: map<string, JMethod>, name: string, m: JMethod)
    ensures GetterTypes(env, winners[name := m]) ==
      if IsValidPropertyName(name) then GetterTypes(env, winners)[name := env.returnTypeIn(m)] else GetterTypes(env, winners)
  {
  }

  lemma SetterTypesBatchAdd(env: Env, winners: map<string, JMethod>, name: string, m: JMethod)
    ensures SetterTypes(env, winners[name := m]) ==
      if IsValidPropertyName(name) then SetterTypes(env, winners)[name := env.paramTypeIn(m)] else SetterTypes(env, winners)
  {
  }

  /** Registering one more winner is the same as including it in the batch. */
  lemma WithGettersAdd(env: Env, t: Tables, winners: map<string, JMethod>, name: string, m: JMethod)
    ensures PutGetMethod(env, WithGetters(env, t, winners), name, m) == WithGetters(env, t, winners[name := m])
  {
    InvokersBatchAdd(winners, name, m);
    GetterTypesBatchAdd(env, winners, name, m);
    UpdateUnion(t.getMethods, MethodInvokers(winners), name, MethodInvoker(m));
    UpdateUnion(t.getTypes, GetterTypes(env, winners), name, env.returnTypeIn(m));
  }

  lemma WithSettersAdd(env: Env, t: Tables, winners: map<string, JMethod>, name: string, m: JMethod)
    ensures PutSetMethod(env, WithSetters(env, t, winners), name, m) == WithSetters(env, t, winners[name := m])
  {
    InvokersBatchAdd(winners, name, m);
    SetterTypesBatchAdd(env, winners, name, m);
    UpdateUnion(t.setMethods, MethodInvokers(winners), name, MethodInvoker(m));
    UpdateUnion(t.setTypes, SetterTypes(env, winners), name, env.paramTypeIn(m));
  }

  lemma ReadSideUnion(env: Env, getMethods: map<string, Invoker>, getTypes: map<string, Ty>, winners: map<string, JMethod>)
    requires ReadSide(env, getMethods, getTypes)
    requires forall n :: n in winners ==> IsCandidate(Getter, winners[n]) && env.methodToProperty(winners[n].name) == n
    ensures ReadSide(env, getMethods + MethodInvokers(winners), getTypes + GetterTypes(env, winners))
  {
    var gi, gt := MethodInvokers(winners), GetterTypes(env, winners);
    assert gi.Keys == gt.Keys;
    assert (getMethods + gi).Keys == (getTypes + gt).Keys;
  }

  lemma WriteSideUnion(env: Env, setMethods: map<string, Invoker>, setTypes: map<string, Ty>, winners: map<string, JMethod>)
    requires WriteSide(env, setMethods, setTypes)
    requires forall n :: n in winners ==> IsCandidate(Setter, winners[n]) && env.methodToProperty(winners[n].name) == n
    ensures WriteSide(env, setMethods + MethodInvokers(winners), setTypes + SetterTypes(env, winners))
  {
    var si, st := MethodInvokers(winners), SetterTypes(env, winners);
    assert si.Keys == st.Keys;
    assert (setMethods + si).Keys == (setTypes + st).Keys;
  }

  /**
   * Registering resolved getters keeps the tables well formed, and every valid property name
   * of a winner ends up with that winner as its read accessor.
   */
  lemma WithGettersWellFormed(env: Env, t: Tables, winners: map<string, JMethod>)
    requires WellFormed(env, t)
    requires forall n :: n in winners ==> IsCandidate(Getter, winners[n]) && env.methodToProperty(winners[n].name) == n
    ensures WellFormed(env, WithGetters(env, t, winners))
    ensures forall n :: n in winners && IsValidPropertyName(n) ==>
      WithGetters(env, t, winners).getMethods[n] == MethodInvoker(winners[n])
    ensures WithGetters(env, t, winners).setMethods == t.setMethods
  {
    ReadSideUnion(env, t.getMethods, t.getTypes, winners);
  }

  lemma WithSettersWellFormed(env: Env, t: Tables, winners: map<string, JMethod>)
    requires WellFormed(env, t)
    requires forall n :: n in winners ==> IsCandidate(Setter, winners[n]) && env.methodToProperty(winners[n].name) == n
    ensures WellFormed(env, WithSetters(env, t, winners))
    ensures forall n :: n in winners && IsValidPropertyName(n) ==>
      WithSetters(env, t, winners).setMethods[n] == MethodInvoker(winners[n])
    ensures WithSetters(env, t, winners).getMethods == t.getMethods
  {
    WriteSideUnion(env, t.setMethods, t.setTypes, winners);
  }

  // ---------------------------------------------------------------- field fallback

  /** The fields `addFields` visits: the class's declared fields, then its superclass's, up to the root. */
  function FieldChain(c: JClass): seq<JField>
    decreases c
  {
    c.declaredFields + match c.superclass case None => [] case Some(s) => FieldChain(s)
  }

  /** One iteration of the `addFields` loop. */
  function FieldStep(env: Env, t: Tables, f: JField): Tables {
    if !f.accessible then t
    else
      var t1 := if f.name !in t.setMethods && !(f.isFinal && f.isStatic) then PutSetField(env, t, f) else t;
      if f.name !in t1.getMethods then PutGetField(env, t1, f) else t1
  }

  /** The tables after the field fallback has visited `fields` in order. */
  function FieldFallback(env: Env, t: Tables, fields: seq<JField>): Tables {
    if fields == [] then t else FieldStep(env, FieldFallback(env, t, fields[..|fields| - 1]), fields[|fields| - 1])
  }

  lemma {:induction false} FieldFallbackAppend(env: Env, t: Tables, a: seq<JField>, b: seq<JField>)
    ensures FieldFallback(env, t, a + b) == FieldFallback(env, FieldFallback(env, t, a), b)
    decreases |b|
  {
    if b == [] {
      assert a + b == a;
    } else {
      var b' := b[..|b| - 1];
      assert (a + b)[..|a + b| - 1] == a + b';
      assert (a + b)[|a + b| - 1] == b[|b| - 1];
      FieldFallbackAppend(env, t, a, b');
    }
  }

  /** A field may serve as a read accessor (`Getter`) or a write accessor (`Setter`) for `name`. */
  predicate FieldServes(kind: Kind, f: JField, name: string) {
    f.accessible && f.name == name && (kind == Setter ==> !(f.isFinal && f.isStatic))
  }

  /** The first field in `fields` that serves `name` on the given side. */
  function FirstField(kind: Kind, fields: seq<JField>, name: string): (r: Option<nat>)
    ensures r.Some? ==> r.value < |fields| && FieldServes(kind, fields[r.value], name)
    ensures r.Some? ==> forall i :: 0 <= i < r.value ==> !FieldServes(kind, fields[i], name)
    ensures r.None? ==> forall i :: 0 <= i < |fields| ==> !FieldServes(kind, fields[i], name)
  {
    if fields == [] then None
    else
      match FirstField(kind, fields[..|fields| - 1], name)
      case Some(j) => Some(j)
      case None => if FieldServes(kind, fields[|fields| - 1], name) then Some(|fields| - 1) else None
  }

  /** What one fallback step does to the read accessors. */
  lemma FieldStepGetMethods(env: Env, t: Tables, f: JField)
    ensures FieldStep(env, t, f).getMethods ==
      if FieldServes(Getter, f, f.name) && f.name !in t.getMethods && IsValidPropertyName(f.name)
      then t.getMethods[f.name := GetFieldInvoker(f)] else t.getMethods
  {
  }

  /** What one fallback step does to the write accessors. */
  lemma FieldStepSetMethods(env: Env, t: Tables, f: JField)
    ensures FieldStep(env, t, f).setMethods ==
      if FieldServes(Setter, f, f.name) && f.name !in t.setMethods && IsValidPropertyName(f.name)
      then t.setMethods[f.name := SetFieldInvoker(f)] else t.setMethods
  {
  }

  /** One fallback step keeps the tables well formed. */
  lemma FieldStepWellFormed(env: Env, t: Tables, f: JField)
    requires WellFormed(env, t)
    ensures WellFormed(env, FieldStep(env, t, f))
  {
    if f.accessible {
      var t1 := if f.name !in t.setMethods && !(f.isFinal && f.isStatic) then PutSetField(env, t, f) else t;
      if f.name !in t.setMethods && !(f.isFinal && f.isStatic) && IsValidPropertyName(f.name) {
        WriteSidePut(env, t.setMethods, t.setTypes, f.name, SetFieldInvoker(f));
      }
      assert WellFormed(env, t1);
      if f.name !in t1.getMethods && IsValidPropertyName(f.name) {
        ReadSidePut(env, t1.getMethods, t1.getTypes, f.name, GetFieldInvoker(f));
      }
    }
  }

  /** The field fallback keeps the tables well formed. */
  lemma {:induction false} FieldFallbackWellFormed(env: Env, t: Tables, fields: seq<JField>)
    requires WellFormed(env, t)
    ensures WellFormed(env, FieldFallback(env, t, fields))
  {
    if fields != [] {
      FieldFallbackWellFormed(env, t, fields[..|fields| - 1]);
      FieldStepWellFormed(env, FieldFallback(env, t, fields[..|fields| - 1]), fields[|fields| - 1]);
    }
  }

  /**
   * The read side of the field fallback: entries already present are never replaced, and a
   * property it adds is valid and backed by the first field of that name (subclass fields come
   * first in the chain).
   */
  lemma {:induction false} FieldFallbackGetters(env: Env, t: Tables, fields: seq<JField>)
    ensures var r := FieldFallback(env, t, fields);
      && (forall k :: k in t.getMethods ==> k in r.getMethods && r.getMethods[k] == t.getMethods[k])
      && (forall k :: k !in t.getMethods ==>
            (k in r.getMethods <==> IsValidPropertyName(k) && FirstField(Getter, fields, k).Some?))
      && (forall k :: k !in t.getMethods && k in r.getMethods ==>
            r.getMethods[k] == GetFieldInvoker(fields[FirstField(Getter, fields, k).value]))
  {
    if fields != [] {
      var prefix, f := fields[..|fields| - 1], fields[|fields| - 1];
      FieldFallbackGetters(env, t, prefix);
      FieldStepGetMethods(env, FieldFallback(env, t, prefix), f);
    }
  }

  /**
   * The write side of the field fallback: entries already present are never replaced, a
   * `final static` field never becomes a write accessor, and a property it adds is valid and
   * backed by the first field that can serve it.
   */
  lemma {:induction false} FieldFallbackSetters(env: Env, t: Tables, fields: seq<JField>)
    ensures var r := FieldFallback(env, t, fields);
      && (forall k :: k in t.setMethods ==> k in r.setMethods && r.setMethods[k] == t.setMethods[k])
      && (forall k :: k !in t.setMethods ==>
            (k in r.setMethods <==> IsValidPropertyName(k) && FirstField(Setter, fields, k).Some?))
      && (forall k :: k !in t.setMethods && k in r.setMethods ==>
            r.setMethods[k] == SetFieldInvoker(fields[FirstField(Setter, fields, k).value]))
  {
    if fields != [] {
      var prefix, f := fields[..|fields| - 1], fields[|fields| - 1];
      FieldFallbackSetters(env, t, prefix);
      FieldStepSetMethods(env, FieldFallback(env, t, prefix), f);
    }
  }

  // ---------------------------------------------------------------- case-insensitive index

  /** `put(upper(n), n)` for each name in order: the last name with a given upper case wins. */
  function CaseIndex(index: map<string, string>, names: seq<string>): map<string, string> {
    if names == [] then index
    else
      var n := names[|names| - 1];
      CaseIndex(index, names[..|names| - 1])[Upper(n) := n]
  }

  /** The position of the last name in `names` whose upper case is `key`. */
  function LastWithUpper(names: seq<string>, key: string): (r: Option<nat>)
    ensures r.Some? ==> r.value < |names| && Upper(names[r.value]) == key
    ensures r.Some? ==> forall i :: r.value < i < |names| ==> Upper(names[i]) != key
    ensures r.None? ==> forall i :: 0 <= i < |names| ==> Upper(names[i]) != key
  {
    if names == [] then None
    else if Upper(names[|names| - 1]) == key then Some(|names| - 1)
    else LastWithUpper(names[..|names| - 1], key)
  }

  /**
   * The index holds a key for exactly the upper cases of the inserted names, mapped to the last
   * name inserted with that upper case; keys it already held are otherwise kept.
   */
  lemma {:induction false} CaseIndexSpec(index: map<string, string>, names: seq<string>)
    ensures var r := CaseIndex(index, names);
      && (forall k :: k in r <==> k in index || LastWithUpper(names, k).Some?)
      && (forall k :: k in r && LastWithUpper(names, k).Some? ==> r[k] == names[LastWithUpper(names, k).value])
      && (forall k :: k in r && LastWithUpper(names, k).None? ==> r[k] == index[k])
  {
    if names != [] {
      CaseIndexSpec(index, names[..|names| - 1]);
    }
  }

  /**
   * The index built from the readable names and then the writable names holds `key` exactly
   * when some name has that upper case; the name it holds has that upper case, and is writable
   * whenever a writable name has it.
   */
  lemma CaseIndexLookup(readable: seq<string>, writeable: seq<string>, key: string)
    ensures var r := CaseIndex(CaseIndex(map[], readable), writeable);
      && (key in r <==> exists n :: (n in readable || n in writeable) && Upper(n) == key)
      && (key in r ==> Upper(r[key]) == key && (r[key] in readable || r[key] in writeable))
      && ((exists n :: n in writeable && Upper(n) == key) ==> key in r && r[key] in writeable)
  {
    CaseIndexSpec(map[], readable);
    CaseIndexSpec(CaseIndex(map[], readable), writeable);
    if n :| n in writeable && Upper(n) == key {
      var i :| 0 <= i < |writeable| && writeable[i] == n;
      assert LastWithUpper(writeable, key).Some?;
    }
    if n :| n in readable && Upper(n) == key {
      var i :| 0 <= i < |readable| && readable[i] == n;
      assert LastWithUpper(readable, key).Some?;
    }
  }

  // ---------------------------------------------------------------- default constructor

  /** A constructor `addDefaultConstructor` records: no parameters, and accessible. */
  predicate DefaultShaped(c: JConstructor) {
    c.parameterTypes == [] && c.accessible
  }

  /** `addDefaultConstructor`: the last declared zero-argument constructor that is accessible. */
  function DefaultConstructorOf(constructors: seq<JConstructor>): (r: Option<JConstructor>)
    ensures r.Some? <==> exists c :: c in constructors && DefaultShaped(c)
    ensures r.Some? ==> r.value in constructors && DefaultShaped(r.value)
  {
    if constructors == [] then None
    else
      var c := constructors[|constructors| - 1];
      if DefaultShaped(c) then Some(c)
      else
        var r := DefaultConstructorOf(constructors[..|constructors| - 1]);
        assert forall d :: d in constructors ==> d in constructors[..|constructors| - 1] || d == c;
        r
  }

  /** Later constructors overwrite earlier ones: the one recorded is the last that qualifies. */
  lemma {:induction false} DefaultConstructorIsLast(constructors: seq<JConstructor>, i: nat)
    requires i < |constructors| && DefaultShaped(constructors[i])
    requires forall j :: i < j < |constructors| ==> !DefaultShaped(constructors[j])
    ensures DefaultConstructorOf(constructors) == Some(constructors[i])
    decreases |constructors|
  {
    var n := |constructors| - 1;
    if i < n {
      var prefix := constructors[..n];
      assert prefix[i] == constructors[i];
      assert forall j :: i < j < n ==> prefix[j] == constructors[j];
      DefaultConstructorIsLast(prefix, i);
    }
  }
}
