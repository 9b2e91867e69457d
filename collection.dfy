/**
 * The method collector: the walk up the superclass chain (stopping before `java.lang.Object`)
 * that gathers the declared methods of every class on it and the methods of its direct
 * interfaces, keeping the first non-bridge method seen for each signature.
 */
module Collection {
  import opened Wrappers
  import opened JavaModel
  import opened Signatures

  /** A method that `addUniqueMethods` would record under signature `k`. */
  predicate Records(m: JMethod, k: string) {
    !m.isBridge && Signature(m) == k
  }

  /** The key under which `addUniqueMethods` considers `m`: none for a bridge method, else its signature. */
  function KeyOf(m: JMethod): (r: Option<string>)
    ensures forall k :: r == Some(k) <==> Records(m, k)
  {
    if m.isBridge then None else Some(Signature(m))
  }

  /** The keys of a sequence of methods, position by position. */
  function Keys(ms: seq<JMethod>): (ks: seq<Option<string>>)
    ensures |ks| == |ms|
  {
    seq(|ms|, i requires 0 <= i < |ms| => KeyOf(ms[i]))
  }

  lemma KeysAt(ms: seq<JMethod>, i: nat)
    requires i < |ms|
    ensures Keys(ms)[i] == KeyOf(ms[i])
  {
  }

  lemma KeysAppend(a: seq<JMethod>, b: seq<JMethod>)
    ensures Keys(a + b) == Keys(a) + Keys(b)
  {
    assert forall i :: 0 <= i < |a| ==> (a + b)[i] == a[i];
    assert forall i :: |a| <= i < |a + b| ==> (a + b)[i] == b[i - |a|];
  }

  /** The position of the first key in `ks` equal to `Some(k)`, if any. */
  function FirstIndex(ks: seq<Option<string>>, k: string): (r: Option<nat>)
    ensures r.Some? ==> r.value < |ks| && ks[r.value] == Some(k)
    ensures r.Some? ==> forall i :: 0 <= i < r.value ==> ks[i] != Some(k)
    ensures r.None? ==> forall i :: 0 <= i < |ks| ==> ks[i] != Some(k)
  {
    if ks == [] then None
    else
      match FirstIndex(ks[..|ks| - 1], k)
      case Some(j) => Some(j)
      case None => if ks[|ks| - 1] == Some(k) then Some(|ks| - 1) else None
  }

  lemma {:induction false} FirstIndexAppend(a: seq<Option<string>>, b: seq<Option<string>>, k: string)
    ensures FirstIndex(a + b, k) ==
      match FirstIndex(a, k)
      case Some(j) => Some(j)
      case None => match FirstIndex(b, k) case Some(j) => Some(|a| + j) case None => None
    decreases |b|
  {
    if b == [] {
      assert a + b == a;
    } else {
      var b' := b[..|b| - 1];
      assert (a + b)[..|a + b| - 1] == a + b';
      assert (a + b)[|a + b| - 1] == b[|b| - 1];
      FirstIndexAppend(a, b', k);
    }
  }

  /** `u` is exactly what collecting `walked` in order yields: the first recorded method per signature. */
  ghost predicate UniqueOf(u: map<string, JMethod>, walked: seq<JMethod>) {
    var ks := Keys(walked);
    && (forall k :: k in u <==> FirstIndex(ks, k).Some?)
    && (forall k :: k in u ==> u[k] == walked[FirstIndex(ks, k).value])
  }

  /** One step of `addUniqueMethods`: a non-bridge method is recorded unless its signature is known. */
  function Record(u: map<string, JMethod>, m: JMethod): map<string, JMethod> {
    match KeyOf(m)
    case None => u
    case Some(k) => if k in u then u else u[k := m]
  }

  /** The signature map after recording `ms` in order, starting from `u`. */
  function Absorb(u: map<string, JMethod>, ms: seq<JMethod>): map<string, JMethod>
    decreases |ms|
  {
    if ms == [] then u else Record(Absorb(u, ms[..|ms| - 1]), ms[|ms| - 1])
  }

  lemma {:induction false} AbsorbAppend(u: map<string, JMethod>, a: seq<JMethod>, b: seq<JMethod>)
    ensures Absorb(u, a + b) == Absorb(Absorb(u, a), b)
    decreases |b|
  {
    if b == [] {
      assert a + b == a;
    } else {
      assert (a + b)[..|a + b| - 1] == a + b[..|b| - 1];
      assert (a + b)[|a + b| - 1] == b[|b| - 1];
      AbsorbAppend(u, a, b[..|b| - 1]);
    }
  }

  /** Recording a walk from the empty map keeps exactly the first method seen per signature. */
  lemma {:induction false} AbsorbIsFirstSeen(walked: seq<JMethod>)
    ensures UniqueOf(Absorb(map[], walked), walked)
    decreases |walked|
  {
    if walked != [] {
      var w, m := walked[..|walked| - 1], walked[|walked| - 1];
      assert walked == w + [m];
      AbsorbIsFirstSeen(w);
      KeysAppend(w, [m]);
      var a, b := Keys(w), Keys([m]);
      assert b == [KeyOf(m)];
      var u, u' := Absorb(map[], w), Absorb(map[], walked);
      assert u' == Record(u, m);
      forall k
        ensures k in u' <==> FirstIndex(a + b, k).Some?
        ensures k in u' ==> u'[k] == walked[FirstIndex(a + b, k).value]
      {
        FirstIndexAppend(a, b, k);
        if k in u {
          assert walked[FirstIndex(a, k).value] == w[FirstIndex(a, k).value];
        }
      }
    }
  }

  /** `addUniqueMethods`: record each non-bridge method whose signature is not yet known. */
  method AddUniqueMethods(u: map<string, JMethod>, methods: seq<JMethod>) returns (u': map<string, JMethod>)
    ensures u' == Absorb(u, methods)
  {
    u' := u;
    for i := 0 to |methods|
      invariant u' == Absorb(u, methods[..i])
    {
      assert methods[..i + 1][..i] == methods[..i];
      var current := methods[i];
      if !current.isBridge {
        var signature := GetSignature(current);
        if signature !in u' {
          u' := u'[signature := current];
        }
      }
    }
    assert methods[..|methods|] == methods;
  }

  /** The classes `getClassMethods` visits: the superclass chain up to, not including, `Object`. */
  function Chain(c: JClass): (r: seq<JClass>)
    ensures forall i :: 0 <= i < |r| ==> r[i].name != ObjectType
    ensures c.name != ObjectType ==> r != [] && r[0] == c
    decreases c
  {
    if c.name == ObjectType then []
    else match c.superclass
      case None => [c]
      case Some(s) => [c] + Chain(s)
  }

  /** The methods of the direct interfaces, interface by interface. */
  function InterfaceMethods(ifaces: seq<JInterface>): seq<JMethod> {
    if ifaces == [] then [] else InterfaceMethods(ifaces[..|ifaces| - 1]) + ifaces[|ifaces| - 1].methods
  }

  /** What one class contributes, in visiting order: its declared methods, then its interfaces'. */
  function OwnMethods(c: JClass): seq<JMethod> {
    c.declaredMethods + InterfaceMethods(c.interfaces)
  }

  function Flatten(cs: seq<JClass>): seq<JMethod> {
    if cs == [] then [] else OwnMethods(cs[0]) + Flatten(cs[1..])
  }

  /** All methods met by the walk, most-derived class first. */
  function WalkedMethods(c: JClass): seq<JMethod> {
    Flatten(Chain(c))
  }

  /** `m` is one of the methods `getClassMethods` returns for a walk over `walked`. */
  ghost predicate Collected(walked: seq<JMethod>, m: JMethod) {
    var f := FirstIndex(Keys(walked), Signature(m));
    f.Some? && walked[f.value] == m
  }

  /** No method before position `j` of `walked` is recorded under `k`. */
  ghost predicate UnrecordedBefore(walked: seq<JMethod>, j: int, k: string)
    requires j <= |walked|
  {
    forall i :: 0 <= i < j ==> !Records(walked[i], k)
  }

  lemma CollectedSeenFirst(walked: seq<JMethod>, m: JMethod)
    requires Collected(walked, m)
    ensures exists j :: 0 <= j < |walked| && walked[j] == m && !m.isBridge && UnrecordedBefore(walked, j, Signature(m))
  {
    var ks := Keys(walked);
    var k := Signature(m);
    var j := FirstIndex(ks, k).value;
    assert walked[j] == m && ks[j] == KeyOf(m);
    forall i | 0 <= i < j ensures !Records(walked[i], k) {
      assert ks[i] == KeyOf(walked[i]) != Some(k);
    }
  }

  lemma SeenFirstCollected(walked: seq<JMethod>, m: JMethod, j: nat)
    requires j < |walked| && walked[j] == m && !m.isBridge && UnrecordedBefore(walked, j, Signature(m))
    ensures Collected(walked, m)
  {
    var ks := Keys(walked);
    var k := Signature(m);
    assert ks[j] == Some(k);
    forall i | 0 <= i < j ensures ks[i] != Some(k) {
      assert ks[i] == KeyOf(walked[i]);
    }
  }

  lemma SignatureCovered(walked: seq<JMethod>, j: nat)
    requires j < |walked| && !walked[j].isBridge
    ensures exists c :: Collected(walked, c) && Signature(c) == Signature(walked[j])
  {
    var ks := Keys(walked);
    var kj := Signature(walked[j]);
    assert ks[j] == Some(kj);
    var f := FirstIndex(ks, kj).value;
    assert ks[f] == KeyOf(walked[f]);
    assert Collected(walked, walked[f]);
  }

  /**
   * A collected method was met by the walk, is not a bridge method, and no earlier non-bridge
   * method had its signature; every non-bridge method met has a collected method of its signature.
   */
  lemma CollectedIsFirstSeen(walked: seq<JMethod>, m: JMethod)
    ensures Collected(walked, m) <==>
      exists j :: 0 <= j < |walked| && walked[j] == m && !m.isBridge && UnrecordedBefore(walked, j, Signature(m))
    ensures forall j :: 0 <= j < |walked| && !walked[j].isBridge ==>
      exists c :: Collected(walked, c) && Signature(c) == Signature(walked[j])
  {
    if Collected(walked, m) {
      CollectedSeenFirst(walked, m);
    }
    if j :| 0 <= j < |walked| && walked[j] == m && !m.isBridge && UnrecordedBefore(walked, j, Signature(m)) {
      SeenFirstCollected(walked, m, j);
    }
    forall j | 0 <= j < |walked| && !walked[j].isBridge
      ensures exists c :: Collected(walked, c) && Signature(c) == Signature(walked[j])
    {
      SignatureCovered(walked, j);
    }
  }

  /** The methods still to walk when the walk is at `current`. */
  function Remaining(current: Option<JClass>): seq<JMethod> {
    match current
    case None => []
    case Some(c) => Flatten(Chain(c))
  }

  lemma ChainStep(c: JClass)
    requires c.name != ObjectType
    ensures Remaining(Some(c)) == OwnMethods(c) + Remaining(c.superclass)
  {
    var r := Chain(c);
    assert Flatten(r) == OwnMethods(c) + Flatten(r[1..]);
    match c.superclass
    case None => assert r[1..] == [];
    case Some(s) => assert r[1..] == Chain(s);
  }

  lemma AbsorbInterface(u: map<string, JMethod>, declared: seq<JMethod>, interfaces: seq<JInterface>, j: nat)
    requires j < |interfaces|
    ensures Absorb(u, declared + InterfaceMethods(interfaces[..j + 1]))
      == Absorb(Absorb(u, declared + InterfaceMethods(interfaces[..j])), interfaces[j].methods)
  {
    assert interfaces[..j + 1][..j] == interfaces[..j];
    assert declared + InterfaceMethods(interfaces[..j + 1])
      == declared + InterfaceMethods(interfaces[..j]) + interfaces[j].methods;
    AbsorbAppend(u, declared + InterfaceMethods(interfaces[..j]), interfaces[j].methods);
  }

  /**
   * The body of the `getClassMethods` loop for one class: its declared methods, then the
   * methods of each direct interface (the class may be abstract).
   */
  method AddClassMethods(uniqueMethods: map<string, JMethod>, c: JClass) returns (u: map<string, JMethod>)
    ensures u == Absorb(uniqueMethods, OwnMethods(c))
  {
    u := AddUniqueMethods(uniqueMethods, c.declaredMethods);
    var interfaces := c.interfaces;
    assert c.declaredMethods + InterfaceMethods(interfaces[..0]) == c.declaredMethods;
    for j := 0 to |interfaces|
      invariant u == Absorb(uniqueMethods, c.declaredMethods + InterfaceMethods(interfaces[..j]))
    {
      AbsorbInterface(uniqueMethods, c.declaredMethods, interfaces, j);
      u := AddUniqueMethods(u, interfaces[j].methods);
    }
    assert interfaces[..|interfaces|] == interfaces;
  }

  lemma WalkStep(cls: JClass, walked: seq<JMethod>, c: JClass)
    requires c.name != ObjectType
    requires walked + Remaining(Some(c)) == WalkedMethods(cls)
    ensures walked + OwnMethods(c) + Remaining(c.superclass) == WalkedMethods(cls)
  {
    ChainStep(c);
  }

  /** The `getClassMethods` loop: walk the chain below `Object`, filling the signature map. */
  method WalkClassChain(cls: JClass) returns (uniqueMethods: map<string, JMethod>)
    ensures uniqueMethods == Absorb(map[], WalkedMethods(cls))
  {
    uniqueMethods := map[];
    var currentClass: Option<JClass> := Some(cls);
    ghost var walked: seq<JMethod> := [];
    while currentClass.Some? && currentClass.value.name != ObjectType
      invariant walked + Remaining(currentClass) == WalkedMethods(cls)
      invariant uniqueMethods == Absorb(map[], walked)
      decreases currentClass
    {
      var c := currentClass.value;
      WalkStep(cls, walked, c);
      AbsorbAppend(map[], walked, OwnMethods(c));
      uniqueMethods := AddClassMethods(uniqueMethods, c);
      walked := walked + OwnMethods(c);
      currentClass := c.superclass;
    }
    assert walked == WalkedMethods(cls);
  }

  /**
   * `getClassMethods`: walk the chain filling the signature map, then return its values in
   * an unspecified order (a `HashMap`'s), each collected method exactly once.
   */
  method GetClassMethods(cls: JClass) returns (methods: seq<JMethod>)
    ensures Distinct(methods)
    ensures forall m :: m in methods <==> Collected(WalkedMethods(cls), m)
  {
    var uniqueMethods := WalkClassChain(cls);
    AbsorbedValues(WalkedMethods(cls));
    methods := ValuesSnapshot(uniqueMethods);
  }

  /** Under `UniqueOf`, every value is stored under its own signature, so no value appears twice. */
  lemma UniqueOfKeyed(u: map<string, JMethod>, walked: seq<JMethod>)
    requires UniqueOf(u, walked)
    ensures forall k :: k in u ==> Signature(u[k]) == k
    ensures forall k1, k2 :: k1 in u && k2 in u && u[k1] == u[k2] ==> k1 == k2
  {
    forall k | k in u ensures Signature(u[k]) == k {
      var f := FirstIndex(Keys(walked), k).value;
      KeysAt(walked, f);
    }
  }

  /** Under `UniqueOf`, the values of the map are exactly the collected methods. */
  lemma UniqueValuesCollected(u: map<string, JMethod>, walked: seq<JMethod>)
    requires UniqueOf(u, walked)
    ensures forall m :: m in u.Values <==> Collected(walked, m)
  {
    UniqueOfKeyed(u, walked);
    forall m | Collected(walked, m) ensures m in u.Values {
      assert u[Signature(m)] == m;
    }
  }

  /** The map recorded over a walk holds each collected method once, under its own signature. */
  lemma AbsorbedValues(walked: seq<JMethod>)
    ensures var u := Absorb(map[], walked);
      && (forall k1, k2 :: k1 in u && k2 in u && u[k1] == u[k2] ==> k1 == k2)
      && (forall m :: m in u.Values <==> Collected(walked, m))
  {
    AbsorbIsFirstSeen(walked);
    UniqueOfKeyed(Absorb(map[], walked), walked);
    UniqueValuesCollected(Absorb(map[], walked), walked);
  }

  /** `values().toArray()` of a map whose values are pairwise distinct: every value once, in an unspecified order. */
  method ValuesSnapshot<K, V(==)>(u: map<K, V>) returns (values: seq<V>)
    requires forall k1, k2 :: k1 in u && k2 in u && u[k1] == u[k2] ==> k1 == k2
    ensures Distinct(values)
    ensures forall v :: v in values <==> v in u.Values
  {
    var keys := u.Keys;
    ghost var taken: seq<K> := [];
    values := [];
    while keys != {}
      invariant keys <= u.Keys
      invariant |taken| == |values|
      invariant forall i :: 0 <= i < |taken| ==> taken[i] in u && taken[i] !in keys && values[i] == u[taken[i]]
      invariant forall k :: k in u && k !in keys ==> u[k] in values
      invariant Distinct(values)
      decreases keys
    {
      var k :| k in keys;
      values := values + [u[k]];
      taken := taken + [k];
      keys := keys - {k};
    }
  }
}
