/**
 * Classification of collected methods into getter and setter candidates grouped by property
 * name, and the two conflict-resolution folds that reduce a group to one accessor.
 */
module Resolution {
  import opened Wrappers
  import opened JavaModel

  // ---------------------------------------------------------------- classification

  datatype Kind = Getter | Setter

  /** Names of the JavaBeans getter forms `getX` and `isX`. */
  predicate IsGetterName(name: string) {
    (StartsWith(name, "get") && |name| > 3) || (StartsWith(name, "is") && |name| > 2)
  }

  /** Getters take no parameter; setters are named `setX` and take exactly one. */
  predicate IsCandidate(kind: Kind, m: JMethod) {
    match kind
    case Getter => |m.parameterTypes| == 0 && IsGetterName(m.name)
    case Setter => StartsWith(m.name, "set") && |m.name| > 3 && |m.parameterTypes| == 1
  }

  /** The candidates of `kind` in `methods` whose property name is `property`, in order. */
  function Group(env: Env, kind: Kind, methods: seq<JMethod>, property: string): (g: seq<JMethod>)
    ensures forall m :: m in g <==> m in methods && IsCandidate(kind, m) && env.methodToProperty(m.name) == property
  {
    if methods == [] then []
    else
      var m := methods[|methods| - 1];
      Group(env, kind, methods[..|methods| - 1], property)
        + (if IsCandidate(kind, m) && env.methodToProperty(m.name) == property then [m] else [])
  }

  /** The property names of all candidates of `kind` in `methods`. */
  ghost function CandidateNames(env: Env, kind: Kind, methods: seq<JMethod>): set<string> {
    set m | m in methods && IsCandidate(kind, m) :: env.methodToProperty(m.name)
  }

  /** `addMethodConflict`: append `m` to the list kept for `name`, creating the list if absent. */
  function AddMethodConflict(conflicting: map<string, seq<JMethod>>, name: string, m: JMethod): (r: map<string, seq<JMethod>>)
    ensures r.Keys == conflicting.Keys + {name}
    ensures r[name] == (if name in conflicting then conflicting[name] else []) + [m]
    ensures forall k :: k in conflicting && k != name ==> r[k] == conflicting[k]
  {
    conflicting[name := (if name in conflicting then conflicting[name] else []) + [m]]
  }

  /** The map `addMethodConflict` builds over `methods`: each candidate appended to the list of its property. */
  ghost function GroupsOf(env: Env, kind: Kind, methods: seq<JMethod>): (g: map<string, seq<JMethod>>)
    ensures forall n :: n in g ==>
      g[n] != [] && forall m :: m in g[n] ==> IsCandidate(kind, m) && env.methodToProperty(m.name) == n
    decreases |methods|
  {
    if methods == [] then map[]
    else
      var g := GroupsOf(env, kind, methods[..|methods| - 1]);
      var m := methods[|methods| - 1];
      if IsCandidate(kind, m) then AddMethodConflict(g, env.methodToProperty(m.name), m) else g
  }

  /** A name that is no candidate's property has an empty group. */
  lemma EmptyGroup(env: Env, kind: Kind, methods: seq<JMethod>, n: string)
    requires n !in CandidateNames(env, kind, methods)
    ensures Group(env, kind, methods, n) == []
  {
  }

  lemma CandidateNamesStep(env: Env, kind: Kind, methods: seq<JMethod>)
    requires methods != []
    ensures var m := methods[|methods| - 1];
      CandidateNames(env, kind, methods)
        == CandidateNames(env, kind, methods[..|methods| - 1]) + (if IsCandidate(kind, m) then {env.methodToProperty(m.name)} else {})
  {
    assert methods == methods[..|methods| - 1] + [methods[|methods| - 1]];
  }

  /**
   * The grouping map has exactly the candidates' property names as keys, and each list holds
   * exactly that property's candidates in the order they were met.
   */
  lemma {:induction false} GroupsOfIsGrouping(env: Env, kind: Kind, methods: seq<JMethod>)
    ensures GroupsOf(env, kind, methods).Keys == CandidateNames(env, kind, methods)
    ensures forall n :: n in GroupsOf(env, kind, methods) ==> GroupsOf(env, kind, methods)[n] == Group(env, kind, methods, n)
    decreases |methods|
  {
    if methods != [] {
      var k := |methods| - 1;
      var prefix, m := methods[..k], methods[k];
      GroupsOfIsGrouping(env, kind, prefix);
      CandidateNamesStep(env, kind, methods);
      var before, after := GroupsOf(env, kind, prefix), GroupsOf(env, kind, methods);
      forall n | n in after ensures after[n] == Group(env, kind, methods, n) {
        if IsCandidate(kind, m) && env.methodToProperty(m.name) == n && n !in before {
          EmptyGroup(env, kind, prefix, n);
        }
      }
    }
  }

  /**
   * The grouping loops of `addGetMethods` and `addSetMethods`: every candidate is appended to
   * the list of its property name, so each list holds exactly that property's candidates, in
   * the order the methods were met.
   */
  method GroupCandidates(env: Env, kind: Kind, methods: seq<JMethod>) returns (conflicting: map<string, seq<JMethod>>)
    ensures conflicting == GroupsOf(env, kind, methods)
  {
    conflicting := map[];
    for i := 0 to |methods|
      invariant conflicting == GroupsOf(env, kind, methods[..i])
    {
      assert methods[..i + 1][..i] == methods[..i];
      var m := methods[i];
      if IsCandidate(kind, m) {
        var name := env.methodToProperty(m.name);
        conflicting := AddMethodConflict(conflicting, name, m);
      }
    }
    assert methods[..|methods|] == methods;
  }

  // ---------------------------------------------------------------- getters

  /**
   * Two getters of one property that cannot be reconciled: the same return type that is not
   * `boolean`, or return types neither of which is assignable from the other.
   */
  predicate GettersConflict(isAssignableFrom: (Ty, Ty) -> bool, a: JMethod, b: JMethod) {
    if a.returnType == b.returnType then a.returnType != BooleanType
    else !isAssignableFrom(a.returnType, b.returnType) && !isAssignableFrom(b.returnType, a.returnType)
  }

  /** One round of `resolveGetterConflicts`: the current winner against the next candidate. */
  function GetterStep(isAssignableFrom: (Ty, Ty) -> bool, property: string, winner: JMethod, candidate: JMethod)
    : (r: Result<JMethod, ReflectionError>)
    ensures r.Failure? <==> GettersConflict(isAssignableFrom, winner, candidate)
    ensures r.Failure? ==> r.error == AmbiguousGetter(property)
    ensures r.Success? ==> r.value == winner || r.value == candidate
  {
    var winnerType, candidateType := winner.returnType, candidate.returnType;
    if candidateType == winnerType then
      if candidateType != BooleanType then Failure(AmbiguousGetter(property))
      else if StartsWith(candidate.name, "is") then Success(candidate)
      else Success(winner)
    else if isAssignableFrom(candidateType, winnerType) then Success(winner)
    else if isAssignableFrom(winnerType, candidateType) then Success(candidate)
    else Failure(AmbiguousGetter(property))
  }

  /** The getter fold over a group: the first candidate, then `GetterStep` with each later one. */
  function GetterFold(isAssignableFrom: (Ty, Ty) -> bool, property: string, candidates: seq<JMethod>)
    : (r: Result<JMethod, ReflectionError>)
    requires candidates != []
    ensures r.Success? ==> r.value in candidates
    ensures r.Failure? ==> r.error == AmbiguousGetter(property)
  {
    if |candidates| == 1 then Success(candidates[0])
    else
      match GetterFold(isAssignableFrom, property, candidates[..|candidates| - 1])
      case Failure(e) => Failure(e)
      case Success(winner) => GetterStep(isAssignableFrom, property, winner, candidates[|candidates| - 1])
  }

  /** The loop of `resolveGetterConflicts` for one property. */
  method ResolveGetter(isAssignableFrom: (Ty, Ty) -> bool, propName: string, candidates: seq<JMethod>)
    returns (r: Result<JMethod, ReflectionError>)
    requires candidates != []
    ensures r == GetterFold(isAssignableFrom, propName, candidates)
  {
    var winner: Option<JMethod> := None;
    for i := 0 to |candidates|
      invariant i == 0 <==> winner.None?
      invariant i > 0 ==> GetterFold(isAssignableFrom, propName, candidates[..i]) == Success(winner.value)
    {
      var candidate := candidates[i];
      assert candidates[..i + 1][..i] == candidates[..i];
      if winner.None? {
        winner := Some(candidate);
        continue;
      }
      var winnerType := winner.value.returnType;
      var candidateType := candidate.returnType;
      if candidateType == winnerType {
        if candidateType != BooleanType {
          GetterFailurePersists(isAssignableFrom, propName, candidates, i + 1);
          return Failure(AmbiguousGetter(propName));
        } else if StartsWith(candidate.name, "is") {
          winner := Some(candidate);
        }
      } else if isAssignableFrom(candidateType, winnerType) {
        // the winner's type is the narrower one
      } else if isAssignableFrom(winnerType, candidateType) {
        winner := Some(candidate);
      } else {
        GetterFailurePersists(isAssignableFrom, propName, candidates, i + 1);
        return Failure(AmbiguousGetter(propName));
      }
    }
    assert candidates[..|candidates|] == candidates;
    r := Success(winner.value);
  }

  lemma {:induction false} GetterFailurePersists(isAssignableFrom: (Ty, Ty) -> bool, property: string,
                                                 candidates: seq<JMethod>, k: nat)
    requires 0 < k <= |candidates|
    requires GetterFold(isAssignableFrom, property, candidates[..k]).Failure?
    ensures GetterFold(isAssignableFrom, property, candidates).Failure?
    decreases |candidates| - k
  {
    if k < |candidates| {
      var n := |candidates|;
      assert candidates[..n - 1][..k] == candidates[..k];
      GetterFailurePersists(isAssignableFrom, property, candidates[..n - 1], k);
    } else {
      assert candidates[..k] == candidates;
    }
  }

  /** A resolved getter's return type is assignable to the return type of every candidate. */
  lemma {:induction false} GetterFoldNarrowest(isAssignableFrom: (Ty, Ty) -> bool, property: string, candidates: seq<JMethod>)
    requires PartialOrder(isAssignableFrom)
    requires candidates != []
    ensures GetterFold(isAssignableFrom, property, candidates).Success? ==>
      forall c :: c in candidates ==>
        isAssignableFrom(c.returnType, GetterFold(isAssignableFrom, property, candidates).value.returnType)
  {
    if |candidates| > 1 {
      var prefix := candidates[..|candidates| - 1];
      GetterFoldNarrowest(isAssignableFrom, property, prefix);
      assert candidates == prefix + [candidates[|candidates| - 1]];
    }
  }

  /** Resolution fails only when two of the candidates genuinely conflict. */
  lemma {:induction false} GetterFoldFailureHasConflict(isAssignableFrom: (Ty, Ty) -> bool, property: string, candidates: seq<JMethod>)
    requires candidates != []
    ensures GetterFold(isAssignableFrom, property, candidates).Failure? ==>
      exists i, j :: 0 <= i < j < |candidates| && GettersConflict(isAssignableFrom, candidates[i], candidates[j])
  {
    if |candidates| > 1 && GetterFold(isAssignableFrom, property, candidates).Failure? {
      var n := |candidates| - 1;
      var prefix := candidates[..n];
      GetterFoldFailureHasConflict(isAssignableFrom, property, prefix);
      match GetterFold(isAssignableFrom, property, prefix)
      case Failure(_) =>
        var i, j :| 0 <= i < j < |prefix| && GettersConflict(isAssignableFrom, prefix[i], prefix[j]);
        assert prefix[i] == candidates[i] && prefix[j] == candidates[j];
      case Success(w) =>
        var i :| 0 <= i < |prefix| && prefix[i] == w;
        assert GettersConflict(isAssignableFrom, candidates[i], candidates[n]);
    }
  }

  /** A `boolean` getter spelled `isX` wins over one spelled `getX`, in either order. */
  lemma BooleanQueryWins(isAssignableFrom: (Ty, Ty) -> bool, property: string, getForm: JMethod, isForm: JMethod)
    requires getForm.returnType == BooleanType && isForm.returnType == BooleanType
    requires StartsWith(isForm.name, "is") && !StartsWith(getForm.name, "is")
    ensures GetterFold(isAssignableFrom, property, [getForm, isForm]) == Success(isForm)
    ensures GetterFold(isAssignableFrom, property, [isForm, getForm]) == Success(isForm)
  {
    assert [getForm, isForm][..1] == [getForm];
    assert [isForm, getForm][..1] == [isForm];
  }

  /** Covariant override: the getter with the strictly narrower return type wins, in either order. */
  lemma CovariantOverrideWins(isAssignableFrom: (Ty, Ty) -> bool, property: string, overridden: JMethod, overriding: JMethod)
    requires PartialOrder(isAssignableFrom)
    requires overriding.returnType != overridden.returnType
    requires isAssignableFrom(overridden.returnType, overriding.returnType)
    ensures GetterFold(isAssignableFrom, property, [overridden, overriding]) == Success(overriding)
    ensures GetterFold(isAssignableFrom, property, [overriding, overridden]) == Success(overriding)
  {
    assert [overridden, overriding][..1] == [overridden];
    assert [overriding, overridden][..1] == [overriding];
    assert !isAssignableFrom(overriding.returnType, overridden.returnType);
  }

  /** Two getters with unrelated return types, or with the same non-boolean one, are rejected. */
  lemma ConflictingGetterPairFails(isAssignableFrom: (Ty, Ty) -> bool, property: string, a: JMethod, b: JMethod)
    requires GettersConflict(isAssignableFrom, a, b)
    ensures GetterFold(isAssignableFrom, property, [a, b]) == Failure(AmbiguousGetter(property))
  {
    assert [a, b][..1] == [a];
  }

  /**
   * The fold compares each candidate with the current winner only: two getters with the same
   * non-boolean return type `T` are accepted when a candidate with a narrower type `S` comes
   * between them.
   */
  lemma EqualGetterTypesMayResolve()
    ensures var isAssignableFrom := (a: Ty, b: Ty) => a == b || (a == "T" && b == "S");
      var first := JMethod("C", "getX", "T", [], false);
      var narrower := JMethod("C", "getx", "S", [], false);
      var second := JMethod("B", "isx", "T", [], false);
      && PartialOrder(isAssignableFrom)
      && GettersConflict(isAssignableFrom, first, second)
      && GetterFold(isAssignableFrom, "x", [first, narrower, second]) == Success(narrower)
  {
    var isAssignableFrom := (a: Ty, b: Ty) => a == b || (a == "T" && b == "S");
    var first := JMethod("C", "getX", "T", [], false);
    var narrower := JMethod("C", "getx", "S", [], false);
    var second := JMethod("B", "isx", "T", [], false);
    var cs := [first, narrower, second];
    assert cs[..2] == [first, narrower];
    assert cs[..2][..1] == [first];
    assert GetterFold(isAssignableFrom, "x", [first]) == Success(first);
    assert isAssignableFrom(first.returnType, narrower.returnType);
    assert GetterFold(isAssignableFrom, "x", [first, narrower]) == Success(narrower);
    assert isAssignableFrom(second.returnType, narrower.returnType);
  }

  /**
   * Unrelated return types `A` and `B` are accepted too when a candidate of a type `C`
   * assignable to both comes between them: `B` is only compared with the winner `C`.
   */
  lemma UnrelatedGetterTypesMayResolve()
    ensures var isAssignableFrom := (a: Ty, b: Ty) => a == b || (b == "C" && (a == "A" || a == "B"));
      var first := JMethod("X", "getX", "A", [], false);
      var narrower := JMethod("X", "getx", "C", [], false);
      var third := JMethod("Y", "isX", "B", [], false);
      && PartialOrder(isAssignableFrom)
      && GettersConflict(isAssignableFrom, first, third)
      && GetterFold(isAssignableFrom, "x", [first, narrower, third]) == Success(narrower)
  {
    var isAssignableFrom := (a: Ty, b: Ty) => a == b || (b == "C" && (a == "A" || a == "B"));
    var first := JMethod("X", "getX", "A", [], false);
    var narrower := JMethod("X", "getx", "C", [], false);
    var third := JMethod("Y", "isX", "B", [], false);
    var cs := [first, narrower, third];
    assert cs[..2] == [first, narrower];
    assert cs[..2][..1] == [first];
    assert GetterFold(isAssignableFrom, "x", [first]) == Success(first);
    assert !isAssignableFrom(narrower.returnType, first.returnType);
    assert GetterFold(isAssignableFrom, "x", [first, narrower]) == Success(narrower);
    assert isAssignableFrom(third.returnType, narrower.returnType);
  }

  // ---------------------------------------------------------------- setters

  predicate SetterShaped(m: JMethod) {
    |m.parameterTypes| == 1
  }

  function ParamType(m: JMethod): Ty
    requires SetterShaped(m)
  {
    m.parameterTypes[0]
  }

  /**
   * `pickBetterSetter`: with no previous choice the new setter; otherwise the one whose
   * parameter type is assignable to the other's (the second when the types are equal);
   * an ambiguity when neither is.
   */
  function PickBetterSetter(isAssignableFrom: (Ty, Ty) -> bool, setter1: Option<JMethod>, setter2: JMethod, property: string)
    : (r: Result<JMethod, ReflectionError>)
    requires setter1.Some? ==> SetterShaped(setter1.value)
    requires SetterShaped(setter2)
    ensures setter1.None? ==> r == Success(setter2)
    ensures r.Failure? <==>
      setter1.Some? && !isAssignableFrom(ParamType(setter1.value), ParamType(setter2))
                    && !isAssignableFrom(ParamType(setter2), ParamType(setter1.value))
    ensures r.Failure? ==> r.error == AmbiguousSetter(property)
    ensures r.Success? ==> r.value == setter2 || Some(r.value) == setter1
    ensures (setter1.Some? && ParamType(setter1.value) == ParamType(setter2)
             && isAssignableFrom(ParamType(setter2), ParamType(setter2))) ==> r == Success(setter2)
  {
    if setter1.None? then Success(setter2)
    else
      var paramType1, paramType2 := ParamType(setter1.value), ParamType(setter2);
      if isAssignableFrom(paramType1, paramType2) then Success(setter2)
      else if isAssignableFrom(paramType2, paramType1) then Success(setter1.value)
      else Failure(AmbiguousSetter(property))
  }

  /** When assignability is reflexive, the setter picked takes a type assignable to both setters' types. */
  lemma PickBetterSetterNarrowest(isAssignableFrom: (Ty, Ty) -> bool, setter1: Option<JMethod>, setter2: JMethod, property: string)
    requires setter1.Some? ==> SetterShaped(setter1.value)
    requires SetterShaped(setter2)
    requires forall t :: isAssignableFrom(t, t)
    ensures var r := PickBetterSetter(isAssignableFrom, setter1, setter2, property);
      r.Success? ==>
        && isAssignableFrom(ParamType(setter2), ParamType(r.value))
        && (setter1.Some? ==> isAssignableFrom(ParamType(setter1.value), ParamType(r.value)))
  {
  }

  /** The local state of the `resolveSetterConflicts` loop, or its early exit on an exact match. */
  datatype SetterScan =
    | Scanning(best: Option<JMethod>, exception: Option<ReflectionError>)
    | Exact(setter: JMethod)

  /** A setter whose one parameter has exactly the property's getter type. */
  predicate ExactMatch(getterType: Option<Ty>, m: JMethod) {
    SetterShaped(m) && getterType == Some(ParamType(m))
  }

  /** One iteration of the setter loop. */
  function ScanNext(isAssignableFrom: (Ty, Ty) -> bool, property: string, getterType: Option<Ty>, scan: SetterScan, setter: JMethod)
    : SetterScan
    requires SetterShaped(setter)
    requires scan.Scanning? && scan.best.Some? ==> SetterShaped(scan.best.value)
  {
    match scan
    case Exact(s) => Exact(s)
    case Scanning(best, exception) =>
      if ExactMatch(getterType, setter) then Exact(setter)
      else if exception.None? then
        match PickBetterSetter(isAssignableFrom, best, setter, property)
        case Success(s) => Scanning(Some(s), None)
        case Failure(e) => Scanning(None, Some(e))
      else Scanning(best, exception)
  }

  /** The state of the setter loop after the given setters. */
  function SetterScanOf(isAssignableFrom: (Ty, Ty) -> bool, property: string, getterType: Option<Ty>, setters: seq<JMethod>)
    : (r: SetterScan)
    requires forall s :: s in setters ==> SetterShaped(s)
    ensures r.Scanning? ==> r.best.None? || r.exception.None?
    ensures r.Scanning? && setters != [] ==> r.best.Some? || r.exception.Some?
    ensures r.Scanning? && r.best.Some? ==> r.best.value in setters
    ensures r.Scanning? && r.exception.Some? ==> r.exception.value == AmbiguousSetter(property)
    ensures r.Exact? ==> r.setter in setters && ExactMatch(getterType, r.setter)
  {
    if setters == [] then Scanning(None, None)
    else
      var before := SetterScanOf(isAssignableFrom, property, getterType, setters[..|setters| - 1]);
      ScanNext(isAssignableFrom, property, getterType, before, setters[|setters| - 1])
  }

  /** The scan state is never changed again once an exact match is found. */
  lemma ExactStays(isAssignableFrom: (Ty, Ty) -> bool, property: string, getterType: Option<Ty>, setters: seq<JMethod>)
    requires setters != [] && forall s :: s in setters ==> SetterShaped(s)
    requires SetterScanOf(isAssignableFrom, property, getterType, setters[..|setters| - 1]).Exact?
    ensures SetterScanOf(isAssignableFrom, property, getterType, setters)
         == SetterScanOf(isAssignableFrom, property, getterType, setters[..|setters| - 1])
  {
  }

  /** After an ambiguity, a setter that is not an exact match changes nothing. */
  lemma AmbiguityStays(isAssignableFrom: (Ty, Ty) -> bool, property: string, getterType: Option<Ty>, setters: seq<JMethod>,
                       e: ReflectionError)
    requires setters != [] && forall s :: s in setters ==> SetterShaped(s)
    requires SetterScanOf(isAssignableFrom, property, getterType, setters[..|setters| - 1]) == Scanning(None, Some(e))
    requires !ExactMatch(getterType, setters[|setters| - 1])
    ensures SetterScanOf(isAssignableFrom, property, getterType, setters) == Scanning(None, Some(e))
  {
  }

  /** The outcome of `resolveSetterConflicts` for one property. */
  function SetterFold(isAssignableFrom: (Ty, Ty) -> bool, property: string, getterType: Option<Ty>, setters: seq<JMethod>)
    : (r: Result<JMethod, ReflectionError>)
    requires setters != []
    requires forall s :: s in setters ==> SetterShaped(s)
    ensures r.Success? ==> r.value in setters
    ensures r.Failure? ==> r.error == AmbiguousSetter(property)
  {
    match SetterScanOf(isAssignableFrom, property, getterType, setters)
    case Exact(s) => Success(s)
    case Scanning(best, exception) =>
      if best.Some? then Success(best.value) else Failure(exception.value)
  }

  lemma {:induction false} ExactPersists(isAssignableFrom: (Ty, Ty) -> bool, property: string, getterType: Option<Ty>,
                                         setters: seq<JMethod>, k: nat)
    requires forall s :: s in setters ==> SetterShaped(s)
    requires k <= |setters|
    requires SetterScanOf(isAssignableFrom, property, getterType, setters[..k]).Exact?
    ensures SetterScanOf(isAssignableFrom, property, getterType, setters)
         == SetterScanOf(isAssignableFrom, property, getterType, setters[..k])
    decreases |setters| - k
  {
    if k < |setters| {
      var n := |setters|;
      var prefix := setters[..n - 1];
      assert prefix[..k] == setters[..k];
      assert forall s :: s in prefix ==> s in setters;
      ExactPersists(isAssignableFrom, property, getterType, prefix, k);
      ExactStays(isAssignableFrom, property, getterType, setters);
    } else {
      assert setters[..k] == setters;
    }
  }

  /** The setter loop, `break`ing at the first setter whose parameter type is the getter's type. */
  method ResolveSetter(isAssignableFrom: (Ty, Ty) -> bool, propName: string, getterType: Option<Ty>, setters: seq<JMethod>)
    returns (r: Result<JMethod, ReflectionError>)
    requires setters != []
    requires forall s :: s in setters ==> SetterShaped(s)
    ensures r == SetterFold(isAssignableFrom, propName, getterType, setters)
  {
    var best: Option<JMethod> := None;
    var exception: Option<ReflectionError> := None;
    for i := 0 to |setters|
      invariant SetterScanOf(isAssignableFrom, propName, getterType, setters[..i]) == Scanning(best, exception)
    {
      assert setters[..i + 1][..i] == setters[..i];
      var setter := setters[i];
      assert setter in setters;
      var paramType := setter.parameterTypes[0];
      if getterType == Some(paramType) {
        // an exact match with the getter type ends the scan
        ExactPersists(isAssignableFrom, propName, getterType, setters, i + 1);
        return Success(setter);
      }
      if exception.None? {
        var picked := PickBetterSetter(isAssignableFrom, best, setter, propName);
        match picked
        case Success(s) =>
          best := Some(s);
        case Failure(e) =>
          // remember the ambiguity; a later exact match can still win
          best, exception := None, Some(e);
      }
    }
    assert setters[..|setters|] == setters;
    if best.None? {
      r := Failure(exception.value);
    } else {
      r := Success(best.value);
    }
  }

  /** The setter loop runs to its end exactly when no setter matches the getter type exactly. */
  lemma {:induction false} ScanningIffNoExact(isAssignableFrom: (Ty, Ty) -> bool, property: string, getterType: Option<Ty>,
                                              setters: seq<JMethod>)
    requires forall s :: s in setters ==> SetterShaped(s)
    ensures SetterScanOf(isAssignableFrom, property, getterType, setters).Scanning?
        <==> forall j :: 0 <= j < |setters| ==> !ExactMatch(getterType, setters[j])
  {
    if setters != [] {
      var n := |setters| - 1;
      ScanningIffNoExact(isAssignableFrom, property, getterType, setters[..n]);
      assert forall j :: 0 <= j < n ==> setters[..n][j] == setters[j];
    }
  }

  /**
   * The first setter whose parameter type equals the resolved getter type is chosen, whatever
   * came before it (including an ambiguity).
   */
  lemma ExactMatchWins(isAssignableFrom: (Ty, Ty) -> bool, property: string, getterType: Option<Ty>,
                       setters: seq<JMethod>, i: nat)
    requires forall s :: s in setters ==> SetterShaped(s)
    requires i < |setters| && ExactMatch(getterType, setters[i])
    requires forall j :: 0 <= j < i ==> !ExactMatch(getterType, setters[j])
    ensures SetterFold(isAssignableFrom, property, getterType, setters) == Success(setters[i])
  {
    ScanningIffNoExact(isAssignableFrom, property, getterType, setters[..i]);
    assert setters[..i + 1][..i] == setters[..i];
    ExactPersists(isAssignableFrom, property, getterType, setters, i + 1);
  }

  /** After an ambiguity no more folding happens: the result is that error unless an exact match follows. */
  lemma {:induction false} AmbiguityIsDeferred(isAssignableFrom: (Ty, Ty) -> bool, property: string, getterType: Option<Ty>,
                                               setters: seq<JMethod>, k: nat, e: ReflectionError)
    requires forall s :: s in setters ==> SetterShaped(s)
    requires k <= |setters|
    requires SetterScanOf(isAssignableFrom, property, getterType, setters[..k]) == Scanning(None, Some(e))
    requires forall j :: k <= j < |setters| ==> !ExactMatch(getterType, setters[j])
    ensures SetterScanOf(isAssignableFrom, property, getterType, setters) == Scanning(None, Some(e))
    decreases |setters| - k
  {
    if k < |setters| {
      var n := |setters|;
      var prefix := setters[..n - 1];
      assert prefix[..k] == setters[..k];
      assert forall s :: s in prefix ==> s in setters;
      AmbiguityIsDeferred(isAssignableFrom, property, getterType, prefix, k, e);
      AmbiguityStays(isAssignableFrom, property, getterType, setters, e);
    } else {
      assert setters[..k] == setters;
    }
  }

  /** Without an exact match, a resolved setter's parameter type is assignable to every candidate's. */
  lemma {:induction false} SetterScanNarrowest(isAssignableFrom: (Ty, Ty) -> bool, property: string, getterType: Option<Ty>,
                                               setters: seq<JMethod>)
    requires PartialOrder(isAssignableFrom)
    requires forall s :: s in setters ==> SetterShaped(s)
    requires forall j :: 0 <= j < |setters| ==> !ExactMatch(getterType, setters[j])
    ensures var r := SetterScanOf(isAssignableFrom, property, getterType, setters);
      r.Scanning? && r.best.Some? ==>
        forall c :: c in setters ==> isAssignableFrom(ParamType(c), ParamType(r.best.value))
  {
    if setters != [] {
      var prefix, last := setters[..|setters| - 1], setters[|setters| - 1];
      assert setters == prefix + [last];
      SetterScanNarrowest(isAssignableFrom, property, getterType, prefix);
      var before := SetterScanOf(isAssignableFrom, property, getterType, prefix);
      if before.Scanning? && before.exception.None? {
        PickBetterSetterNarrowest(isAssignableFrom, before.best, last, property);
      }
    }
  }

  /** Setter resolution without an exact match picks a setter narrower than every candidate. */
  lemma SetterFoldNarrowest(isAssignableFrom: (Ty, Ty) -> bool, property: string, getterType: Option<Ty>,
                            setters: seq<JMethod>)
    requires PartialOrder(isAssignableFrom)
    requires setters != []
    requires forall s :: s in setters ==> SetterShaped(s)
    requires forall j :: 0 <= j < |setters| ==> !ExactMatch(getterType, setters[j])
    ensures SetterFold(isAssignableFrom, property, getterType, setters).Success? ==>
      forall c :: c in setters ==>
        isAssignableFrom(ParamType(c), ParamType(SetterFold(isAssignableFrom, property, getterType, setters).value))
  {
    ScanningIffNoExact(isAssignableFrom, property, getterType, setters);
    SetterScanNarrowest(isAssignableFrom, property, getterType, setters);
  }

  /** Setter resolution fails only when no setter matches exactly and two have unrelated parameter types. */
  lemma SetterFailureHasUnrelatedPair(isAssignableFrom: (Ty, Ty) -> bool, property: string,
                                      getterType: Option<Ty>, setters: seq<JMethod>)
    requires setters != []
    requires forall s :: s in setters ==> SetterShaped(s)
    ensures SetterFold(isAssignableFrom, property, getterType, setters).Failure? ==>
      && (forall j :: 0 <= j < |setters| ==> !ExactMatch(getterType, setters[j]))
      && exists i, j :: 0 <= i < j < |setters| && SettersUnrelated(isAssignableFrom, setters[i], setters[j])
  {
    ScanningIffNoExact(isAssignableFrom, property, getterType, setters);
    ExceptionHasUnrelatedPair(isAssignableFrom, property, getterType, setters);
  }

  predicate SettersUnrelated(isAssignableFrom: (Ty, Ty) -> bool, a: JMethod, b: JMethod)
    requires SetterShaped(a) && SetterShaped(b)
  {
    !isAssignableFrom(ParamType(a), ParamType(b)) && !isAssignableFrom(ParamType(b), ParamType(a))
  }

  lemma {:induction false} ExceptionHasUnrelatedPair(isAssignableFrom: (Ty, Ty) -> bool, property: string,
                                                     getterType: Option<Ty>, setters: seq<JMethod>)
    requires forall s :: s in setters ==> SetterShaped(s)
    ensures var r := SetterScanOf(isAssignableFrom, property, getterType, setters);
      r.Scanning? && r.exception.Some? ==>
        exists i, j :: 0 <= i < j < |setters| && SettersUnrelated(isAssignableFrom, setters[i], setters[j])
  {
    var r := SetterScanOf(isAssignableFrom, property, getterType, setters);
    if setters != [] && r.Scanning? && r.exception.Some? {
      var n := |setters| - 1;
      var prefix := setters[..n];
      var before := SetterScanOf(isAssignableFrom, property, getterType, prefix);
      if before.Scanning? && before.exception.Some? {
        ExceptionHasUnrelatedPair(isAssignableFrom, property, getterType, prefix);
        var i, j :| 0 <= i < j < |prefix| && SettersUnrelated(isAssignableFrom, prefix[i], prefix[j]);
        assert prefix[i] == setters[i] && prefix[j] == setters[j];
      } else {
        var i :| 0 <= i < |prefix| && prefix[i] == before.best.value;
        assert SettersUnrelated(isAssignableFrom, setters[i], setters[n]);
      }
    }
  }
}
