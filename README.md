# Reflector: a verified model of MyBatis's per-class property descriptor

MyBatis's `Reflector` inspects one Java class once and records how to read and
write each of its JavaBeans properties. The steps are:

1. **Record the default constructor.** This is the last accessible zero-argument constructor.
2. **Collect methods.** Walk the superclass chain, stopping before `java.lang.Object`, together with each class's direct interfaces. For each signature `ret#name:p1,p2`, keep the first non-bridge method seen.
3. **Group candidates.** Put the getter candidates (`getX`/`isX` with no parameter) and the setter candidates (`setX` with one parameter) into one list per property name.
4. **Resolve getters.** Fold each getter list into one method, comparing each candidate with the current winner only. A candidate with a narrower return type replaces the winner, and of two `boolean` getters the `isX` form wins. A candidate whose return type equals a non-`boolean` winner's, or is unrelated to the winner's, aborts construction. Because only the current winner is compared, a group can still resolve when it holds two equal non-`boolean` types or two unrelated types. When assignability is a partial order, the winner's type is assignable to every candidate's.
5. **Resolve setters.** Reduce each setter list to one method. A setter whose parameter type equals the registered getter type wins at once. Otherwise `pickBetterSetter` compares each setter with the current pick and keeps the narrower one. A setter whose type is unrelated to the current pick's is an ambiguity, which is remembered and is an error only if no exact match follows. When assignability is a partial order and no setter matches exactly, the chosen setter's type is assignable to every candidate's.
6. **Field fallback.** Give fields the properties that still have no accessor, walking from the class up to the root, so a field declared by the class hides a superclass field of the same name. A `final static` field never becomes a writer.
7. **Index names.** Snapshot the readable and writable names. Build an upper-case index over them in which the last write wins.

The queries (`hasGetter`, `getGetterType`, `getGetInvoker`, `findPropertyName`, …) read these tables, and fail exactly when the name is absent.

The model keeps the source's form:
- **Mutable parts.** The reflector is a Dafny `class` with the same fields, and the `add*`/`resolve*` methods update them in place, loop by loop.
- **Specifications.** Each phase is specified by a function of its inputs: a fold over a group, the signature map built over the walk, the field fallback over the field chain. Each method's postcondition ties its new state to that function.
- **Lemmas.** The properties the source promises are proved as lemmas about these functions.

The modules are:
- `Wrappers` (`wrappers.dfy`): `Option`, `Result`, `Outcome`.
- `JavaModel` (`java_model.dfy`):
  - methods, fields, constructors and classes as records;
  - the collaborators bundled in `Env`: `Class.isAssignableFrom`, `PropertyNamer.methodToProperty`, and generic type resolution followed by `typeToClass`;
  - the partial-order assumption on assignability;
  - ASCII upper-casing.
- `Signatures` (`signatures.dfy`): `getSignature`, and the fact that a signature identifies return type, name and parameter types.
- `Collection` (`collection.dfy`): `getClassMethods` and `addUniqueMethods`.
- `Resolution` (`resolution.dfy`): classification, `addMethodConflict`, and the getter and setter folds, including `pickBetterSetter`.
- `Descriptor` (`descriptor.dfy`):
  - the four tables as a value and their well-formedness invariant;
  - the phase specifications;
  - the field fallback;
  - the case-insensitive index;
  - the default-constructor choice.
- `Reflection` (`reflector.dfy`): the `Reflector` class, its construction, its queries, and the end-to-end properties of construction.

Java `HashMap` iteration order is not fixed: it decides the order of `values()`, `entrySet()` and `keySet()`. The model therefore picks that order nondeterministically (`:|`). The orders chosen by the two method walks are returned as ghost outputs of `Create`, so the final tables are stated as a function of them.

## Model

All sources are in `src/main/java/org/apache/ibatis/reflection/Reflector.java`.

| member | source | states |
|---|---|---|
| Signatures.GetSignature | src/main/java/org/apache/ibatis/reflection/Reflector.java:501-520 | the `StringBuilder` loop yields `ret#name`, then `:` before the first parameter name and `,` before each later one (the `Signature` function) |
| Signatures.SignatureInjective | src/main/java/org/apache/ibatis/reflection/Reflector.java:501-520 | for separator-free Java names, two methods share a signature iff they agree on return type, name and parameter types, so two collected methods merge iff they agree on all three, whatever their declaring classes: a covariant override keeps both methods, and a `private` or `static` superclass method with a subclass method's signature is merged with it |
| JavaModel.Upper | src/main/java/org/apache/ibatis/reflection/Reflector.java:87-92 | the model's ASCII stand-in for `toUpperCase(Locale.ENGLISH)`: it keeps the length, maps each of `a`–`z` to its capital and leaves every other character unchanged |
| Collection.AddUniqueMethods | src/main/java/org/apache/ibatis/reflection/Reflector.java:469-493 | the loop leaves the map equal to recording each method in order, where a signature already present is never overwritten |
| Collection.AbsorbIsFirstSeen | src/main/java/org/apache/ibatis/reflection/Reflector.java:469-493 | recording a walk from the empty map holds exactly the signatures of the walk's non-bridge methods, each mapped to the first such method |
| Collection.Chain | src/main/java/org/apache/ibatis/reflection/Reflector.java:442-457 | the classes walked start at the class itself and never include `java.lang.Object` |
| Collection.AddClassMethods | src/main/java/org/apache/ibatis/reflection/Reflector.java:446-454 | one class contributes its declared methods, then the methods of each direct interface in order |
| Collection.WalkClassChain | src/main/java/org/apache/ibatis/reflection/Reflector.java:441-457 | the `while` loop over the superclass chain yields the map recorded over all walked methods, most-derived class first |
| Collection.CollectedIsFirstSeen | src/main/java/org/apache/ibatis/reflection/Reflector.java:439-493 | a method is collected iff the walk meets it, it is not a bridge method, and no earlier non-bridge method has its signature; every non-bridge method met has a collected method of its signature |
| Collection.AbsorbedValues | src/main/java/org/apache/ibatis/reflection/Reflector.java:459-461 | the recorded map holds each collected method exactly once, under its own signature |
| Collection.ValuesSnapshot | src/main/java/org/apache/ibatis/reflection/Reflector.java:459-461 | `values().toArray()` returns every value of the map exactly once, in some order |
| Collection.GetClassMethods | src/main/java/org/apache/ibatis/reflection/Reflector.java:439-462 | the returned array has no duplicates and holds exactly the collected methods of the walk |
| Resolution.Group | src/main/java/org/apache/ibatis/reflection/Reflector.java:134-148 | a property's group holds exactly the candidates of that kind whose property name it is |
| Resolution.AddMethodConflict | src/main/java/org/apache/ibatis/reflection/Reflector.java:246-251 | `computeIfAbsent(...).add(m)` appends `m` to the list of `name`, creating it if absent, and changes no other list |
| Resolution.GroupsOf | src/main/java/org/apache/ibatis/reflection/Reflector.java:129-149 | every list in the grouping map is non-empty and holds only candidates of that kind whose property name is the key |
| Resolution.GroupsOfIsGrouping | src/main/java/org/apache/ibatis/reflection/Reflector.java:134-148 | the grouping map's keys are exactly the candidates' property names, and each list is that property's candidates in walk order |
| Resolution.GroupCandidates | src/main/java/org/apache/ibatis/reflection/Reflector.java:232-242 | the classification loops of `addGetMethods`/`addSetMethods` build exactly the grouping map (getters: no parameter and `get…` longer than 3 or `is…` longer than 2; setters: `set…` longer than 3 with one parameter) |
| Resolution.GetterStep | src/main/java/org/apache/ibatis/reflection/Reflector.java:168-196 | one comparison fails iff the two return types are equal and not `boolean`, or unrelated; otherwise it keeps one of the two |
| Resolution.GetterFold | src/main/java/org/apache/ibatis/reflection/Reflector.java:164-197 | a resolved getter is one of the group's candidates; a failure is the property's ambiguous-getter error |
| Resolution.ResolveGetter | src/main/java/org/apache/ibatis/reflection/Reflector.java:164-197 | the inner loop of `resolveGetterConflicts`, with its `continue` and early `throw`, computes the getter fold |
| Resolution.GetterFailurePersists | src/main/java/org/apache/ibatis/reflection/Reflector.java:180-195 | once a prefix of the group fails, the whole group fails (the `throw` aborts the loop) |
| Resolution.GetterFoldNarrowest | src/main/java/org/apache/ibatis/reflection/Reflector.java:187-190 | when assignability is a partial order, the winner's return type is assignable to every candidate's return type |
| Resolution.GetterFoldFailureHasConflict | src/main/java/org/apache/ibatis/reflection/Reflector.java:177-196 | getter resolution fails only when two candidates have equal non-`boolean` return types or unrelated ones |
| Resolution.ConflictingGetterPairFails | src/main/java/org/apache/ibatis/reflection/Reflector.java:177-196 | two getters with equal non-`boolean` return types, or unrelated ones, always fail |
| Resolution.BooleanQueryWins | src/main/java/org/apache/ibatis/reflection/Reflector.java:184-186 | between a `boolean` `getX` and `isX`, `isX` wins in either order |
| Resolution.CovariantOverrideWins | src/main/java/org/apache/ibatis/reflection/Reflector.java:187-190 | a strictly narrower (covariant) return type wins in either order |
| Resolution.EqualGetterTypesMayResolve | src/main/java/org/apache/ibatis/reflection/Reflector.java:167-197 | the loop compares each candidate only with the current winner, so two equal non-`boolean` types are accepted when a narrower one comes between them |
| Resolution.UnrelatedGetterTypesMayResolve | src/main/java/org/apache/ibatis/reflection/Reflector.java:187-190 | likewise two unrelated return types `A` and `B` are accepted when a candidate of a type assignable to both comes between them |
| Resolution.PickBetterSetter | src/main/java/org/apache/ibatis/reflection/Reflector.java:293-310 | with no earlier pick, the new setter; failure iff neither parameter type is assignable from the other; on equal types the second setter |
| Resolution.PickBetterSetterNarrowest | src/main/java/org/apache/ibatis/reflection/Reflector.java:302-306 | with reflexive assignability, the pick's parameter type is assignable to both setters' |
| Resolution.SetterScanOf | src/main/java/org/apache/ibatis/reflection/Reflector.java:259-277 | the loop state never holds both a match and an exception; an exact match stopped on really matches the getter type |
| Resolution.SetterFold | src/main/java/org/apache/ibatis/reflection/Reflector.java:278-282 | the chosen setter is one of the group; a failure is the property's ambiguous-setter error |
| Resolution.ExactPersists | src/main/java/org/apache/ibatis/reflection/Reflector.java:263-267 | after the `break` on an exact match, later setters change nothing |
| Resolution.ResolveSetter | src/main/java/org/apache/ibatis/reflection/Reflector.java:257-282 | the inner loop of `resolveSetterConflicts`, with its `break` and its caught exception, computes the setter fold |
| Resolution.ScanningIffNoExact | src/main/java/org/apache/ibatis/reflection/Reflector.java:261-267 | the loop runs to its end iff no setter's parameter type equals the getter type |
| Resolution.ExactMatchWins | src/main/java/org/apache/ibatis/reflection/Reflector.java:263-267 | the first setter whose parameter type equals the getter type is chosen, whatever came before it, an ambiguity included |
| Resolution.AmbiguityIsDeferred | src/main/java/org/apache/ibatis/reflection/Reflector.java:268-276 | after the first ambiguity no more picking happens, and the result stays that error unless an exact match follows |
| Resolution.SetterScanNarrowest | src/main/java/org/apache/ibatis/reflection/Reflector.java:268-276 | without an exact match, the current pick's parameter type is assignable to every setter seen |
| Resolution.SetterFoldNarrowest | src/main/java/org/apache/ibatis/reflection/Reflector.java:261-282 | without an exact match, and with assignability a partial order, the chosen setter's parameter type is assignable to every candidate's |
| Resolution.ExceptionHasUnrelatedPair | src/main/java/org/apache/ibatis/reflection/Reflector.java:268-275 | a remembered ambiguity comes from two setters with unrelated parameter types |
| Resolution.SetterFailureHasUnrelatedPair | src/main/java/org/apache/ibatis/reflection/Reflector.java:278-280 | setter resolution fails only when no setter matches exactly and two have unrelated parameter types |
| Descriptor.IsValidPropertyName | src/main/java/org/apache/ibatis/reflection/Reflector.java:419-421 | a name is valid iff it does not start with `$` and is neither `serialVersionUID` nor `class` |
| Descriptor.ResolvedGettersOf | src/main/java/org/apache/ibatis/reflection/Reflector.java:163-199 | having resolved every group, in any order, gives exactly the map of per-group winners |
| Descriptor.ResolvedSettersOf | src/main/java/org/apache/ibatis/reflection/Reflector.java:256-283 | likewise for the setter groups against the getter types |
| Descriptor.GetterLoopStep | src/main/java/org/apache/ibatis/reflection/Reflector.java:163-199 | registering one more resolved group keeps the loop state: its winner joins the resolved map and the tables |
| Descriptor.GetterLoopEnd | src/main/java/org/apache/ibatis/reflection/Reflector.java:163-199 | when every group has been visited, all groups resolve and the tables hold exactly their winners |
| Descriptor.SetterLoopStep | src/main/java/org/apache/ibatis/reflection/Reflector.java:256-283 | the setter analogue of `GetterLoopStep` |
| Descriptor.SetterLoopEnd | src/main/java/org/apache/ibatis/reflection/Reflector.java:256-283 | the setter analogue of `GetterLoopEnd` |
| Descriptor.WithGettersAdd | src/main/java/org/apache/ibatis/reflection/Reflector.java:208-218 | `addGetMethod` for one more winner equals registering the enlarged batch of winners |
| Descriptor.WithSettersAdd | src/main/java/org/apache/ibatis/reflection/Reflector.java:312-318 | `addSetMethod` for one more winner equals registering the enlarged batch of winners |
| Descriptor.WithGettersWellFormed | src/main/java/org/apache/ibatis/reflection/Reflector.java:208-218 | registering getter winners keeps the tables well formed (equal key sets, valid names only, types are the accessors'); each validly named winner is its property's read accessor; the write side is untouched |
| Descriptor.WithSettersWellFormed | src/main/java/org/apache/ibatis/reflection/Reflector.java:312-318 | the setter analogue, leaving the read side untouched |
| Descriptor.FirstField | src/main/java/org/apache/ibatis/reflection/Reflector.java:352-388 | the first field of the chain that can serve a property on a side (accessible, of that name, and for writing not `final static`) |
| Descriptor.FieldFallbackAppend | src/main/java/org/apache/ibatis/reflection/Reflector.java:385-387 | the fallback over a class's fields followed by its superclass's is the fallback over the first, then over the second |
| Descriptor.FieldStepGetMethods | src/main/java/org/apache/ibatis/reflection/Reflector.java:377-381 | one field adds a read accessor only if it is accessible, validly named, and its name has none yet |
| Descriptor.FieldStepSetMethods | src/main/java/org/apache/ibatis/reflection/Reflector.java:364-376 | one field adds a write accessor only if it is accessible, not `final static`, validly named, and its name has none yet |
| Descriptor.FieldStepWellFormed | src/main/java/org/apache/ibatis/reflection/Reflector.java:394-412 | `addSetField`/`addGetField` keep the tables well formed |
| Descriptor.FieldFallbackWellFormed | src/main/java/org/apache/ibatis/reflection/Reflector.java:352-388 | the field fallback keeps the tables well formed |
| Descriptor.FieldFallbackGetters | src/main/java/org/apache/ibatis/reflection/Reflector.java:352-388 | existing read accessors are never replaced; a name without one gains one iff it is valid and some field serves it, and then the first such field (subclass fields first) |
| Descriptor.FieldFallbackSetters | src/main/java/org/apache/ibatis/reflection/Reflector.java:352-388 | the same for writers, where `final static` fields never serve |
| Descriptor.CaseIndexSpec | src/main/java/org/apache/ibatis/reflection/Reflector.java:87-92 | the index holds the upper case of every inserted name, mapped to the last name inserted with it; other keys are kept |
| Descriptor.CaseIndexLookup | src/main/java/org/apache/ibatis/reflection/Reflector.java:85-92 | after indexing readable then writable names, a key is present iff some name has that upper case; the name found has it, and is writable whenever a writable name has it (last write wins) |
| Descriptor.DefaultConstructorOf | src/main/java/org/apache/ibatis/reflection/Reflector.java:100-120 | a constructor is recorded iff some declared constructor takes no parameter and is accessible, and the one recorded is such a constructor |
| Descriptor.DefaultConstructorIsLast | src/main/java/org/apache/ibatis/reflection/Reflector.java:103-118 | the constructor recorded is the last qualifying one (later ones overwrite earlier ones) |
| Reflection.GetterWinnersAreCandidates | src/main/java/org/apache/ibatis/reflection/Reflector.java:134-148 | every resolved getter is a getter candidate of its own property |
| Reflection.SetterWinnersAreCandidates | src/main/java/org/apache/ibatis/reflection/Reflector.java:232-241 | every resolved setter is a setter candidate of its own property |
| Reflection.ReflectorTablesWellFormed | src/main/java/org/apache/ibatis/reflection/Reflector.java:74-93 | the constructed tables are well formed: `getMethods`/`getTypes` and `setMethods`/`setTypes` share keys, every key is a valid name, and every accessor belongs to its property |
| Reflection.GetterMethodWins | src/main/java/org/apache/ibatis/reflection/Reflector.java:160-218 | a property whose getter resolves is read through that method, never through a field; under a partial order its type is assignable to every getter candidate's |
| Reflection.SetterMethodRegistered | src/main/java/org/apache/ibatis/reflection/Reflector.java:255-284 | a property whose setter resolves is written through that method, never through a field |
| Reflection.SetterExactMatchWins | src/main/java/org/apache/ibatis/reflection/Reflector.java:255-284 | a property with a setter taking exactly its registered getter type is written through the first such setter |
| Reflection.SetterNarrowestWins | src/main/java/org/apache/ibatis/reflection/Reflector.java:255-310 | without an exact match, and under a partial order, the registered setter's parameter type is assignable to every setter candidate's |
| Reflection.FieldGetterFallback | src/main/java/org/apache/ibatis/reflection/Reflector.java:378-381 | a property without a resolved getter method is readable iff its name is valid and some accessible field has it, and then through the first such field |
| Reflection.FieldSetterFallback | src/main/java/org/apache/ibatis/reflection/Reflector.java:365-376 | a property without a resolved setter method is writable iff its name is valid and some accessible, non-`final static` field has it, and then through the first such field |
| Reflection.DeclaredFieldHidesGetter | src/main/java/org/apache/ibatis/reflection/Reflector.java:352-388 | when one of the class's own fields can be read as a property that has no getter method, the reader is one of the class's own fields, declared by the class itself, never a superclass field it hides |
| Reflection.DeclaredFieldHidesSetter | src/main/java/org/apache/ibatis/reflection/Reflector.java:352-388 | the same for writers: a property with no setter method is written through one of the class's own fields when one can serve |
| Reflection.KeysSnapshot | src/main/java/org/apache/ibatis/reflection/Reflector.java:85-86 | `keySet().toArray()` lists every key exactly once, in some order |
| Reflection.Reflector.Init | src/main/java/org/apache/ibatis/reflection/Reflector.java:50-76 | the field initialisers: empty tables, no default constructor, empty index |
| Reflection.Reflector.Create | src/main/java/org/apache/ibatis/reflection/Reflector.java:74-93 | each walk returns the collected methods once each; construction succeeds iff every getter group resolves and then every setter group does; a failure is the error of a failing group; on success the reflector is valid and its tables are the field fallback applied over the registered winners |
| Reflection.Reflector.IndexProperties | src/main/java/org/apache/ibatis/reflection/Reflector.java:85-92 | the name arrays hold exactly the keys of `getMethods`/`setMethods`, each once, and the index is built from readable then writable names |
| Reflection.Reflector.IndexNames | src/main/java/org/apache/ibatis/reflection/Reflector.java:87-92 | each indexing loop puts `upper(n) -> n` for each name in order |
| Reflection.Reflector.AddDefaultConstructor | src/main/java/org/apache/ibatis/reflection/Reflector.java:100-120 | the loop records the last accessible zero-argument constructor, keeping the field when there is none |
| Reflection.Reflector.AddGetMethods | src/main/java/org/apache/ibatis/reflection/Reflector.java:126-153 | passes iff every getter group of the collected methods resolves, and then registers all winners; otherwise fails with a failing group's error |
| Reflection.Reflector.ResolveGetterConflicts | src/main/java/org/apache/ibatis/reflection/Reflector.java:160-200 | visiting the groups in any order passes iff every group resolves, and then registers every winner; the first failure aborts with that group's error |
| Reflection.Reflector.AddGetMethod | src/main/java/org/apache/ibatis/reflection/Reflector.java:208-218 | a validly named getter is registered with its resolved return type; other names change nothing |
| Reflection.Reflector.AddSetMethods | src/main/java/org/apache/ibatis/reflection/Reflector.java:225-244 | passes iff every setter group resolves against the getter types, and then registers all winners |
| Reflection.Reflector.ResolveSetterConflicts | src/main/java/org/apache/ibatis/reflection/Reflector.java:255-284 | visiting the groups in any order, each against its registered getter type, passes iff every group resolves, and then registers every winner |
| Reflection.Reflector.AddSetMethod | src/main/java/org/apache/ibatis/reflection/Reflector.java:312-318 | a validly named setter is registered with its resolved parameter type; other names change nothing |
| Reflection.Reflector.AddFields | src/main/java/org/apache/ibatis/reflection/Reflector.java:352-388 | the loop over the declared fields, then the recursion into the superclass, compute the field fallback over the field chain |
| Reflection.Reflector.AddSetField | src/main/java/org/apache/ibatis/reflection/Reflector.java:394-400 | a validly named field becomes the write accessor with its resolved type |
| Reflection.Reflector.AddGetField | src/main/java/org/apache/ibatis/reflection/Reflector.java:406-412 | a validly named field becomes the read accessor with its resolved type |
| Reflection.Reflector.GetDefaultConstructor | src/main/java/org/apache/ibatis/reflection/Reflector.java:553-559 | succeeds iff some declared constructor takes no parameter and is accessible, returning one such; otherwise the no-default-constructor error |
| Reflection.Reflector.HasDefaultConstructor | src/main/java/org/apache/ibatis/reflection/Reflector.java:564-566 | true iff an accessible zero-argument constructor exists, iff `getDefaultConstructor` succeeds |
| Reflection.Reflector.GetSetInvoker | src/main/java/org/apache/ibatis/reflection/Reflector.java:573-579 | succeeds iff the name is writable, with a write accessor of that property; otherwise the no-setter error |
| Reflection.Reflector.GetGetInvoker | src/main/java/org/apache/ibatis/reflection/Reflector.java:586-592 | succeeds iff the name is readable, with a read accessor of that property; otherwise the no-getter error |
| Reflection.Reflector.GetSetterType | src/main/java/org/apache/ibatis/reflection/Reflector.java:600-606 | succeeds exactly when `getSetInvoker` does, with the type that invoker writes |
| Reflection.Reflector.GetGetterType | src/main/java/org/apache/ibatis/reflection/Reflector.java:614-620 | succeeds exactly when `getGetInvoker` does, with the type that invoker reads |
| Reflection.Reflector.GetGetablePropertyNames | src/main/java/org/apache/ibatis/reflection/Reflector.java:628-630 | every readable property exactly once |
| Reflection.Reflector.GetSetablePropertyNames | src/main/java/org/apache/ibatis/reflection/Reflector.java:638-640 | every writable property exactly once |
| Reflection.Reflector.HasSetter | src/main/java/org/apache/ibatis/reflection/Reflector.java:648-650 | true iff the name is writable, iff `getSetInvoker` succeeds; only valid names |
| Reflection.Reflector.HasGetter | src/main/java/org/apache/ibatis/reflection/Reflector.java:658-660 | true iff the name is readable, iff `getGetInvoker` succeeds; only valid names |
| Reflection.Reflector.FindPropertyName | src/main/java/org/apache/ibatis/reflection/Reflector.java:667-669 | finds a name iff some readable or writable name has the same upper case; the name found has it and is a property; a writable one is preferred |
| Reflection.Reflector.FindPropertyNameOfProperty | src/main/java/org/apache/ibatis/reflection/Reflector.java:667-669 | every readable or writable name is found again from its own upper case |

## Left out

- `canControlMemberAccessible` and `setAccessible`. These are runtime security checks. Each field and constructor carries the value `isAccessible()` has after them, as a boolean. Methods are collected whatever their accessibility, as in the source.
- `TypeParameterResolver`, `typeToClass` and `PropertyNamer.methodToProperty`. Their code is not part of this model, so they are the functions `returnTypeIn`, `paramTypeIn`, `fieldTypeIn` and `methodToProperty` of `Env`. `Class.isAssignableFrom` is the relation `isAssignableFrom`, assumed to be a partial order only where a lemma says so.
- `getType` (lines 545-547). It returns the constructor argument, which the model keeps as the `cls` field.
- Class identity. A Java class is identified by its binary name (`Ty` is a string). Java compares `Class` objects, and two classes of one name loaded by different class loaders are different.
- Returning the name arrays by reference. `getGetablePropertyNames`/`getSetablePropertyNames` (lines 628-640) hand out the internal arrays, so a caller can write into them. The model returns values, so that aliasing is not modelled.
- The `Invoker` classes and invocation. An invoker only records the method or field it would call.
- `HashMap` iteration order. Walks, groups and name arrays are visited in a nondeterministic order, and the contracts hold for every order. Which failing group `Create` reports depends on that order, so its contract says only that the error is the error of some failing group.
- Concurrency and the lack of caching. Neither is relevant to one construction.
- Exception message text. Only the kind of error and the property are kept.
- JavaModel.Upper: subtracts 32 from `a`–`z` and leaves every other character unchanged. `toUpperCase(Locale.ENGLISH)` also maps non-ASCII letters and can change the length (`ß` becomes `SS`), so case collisions among non-ASCII names are not modelled.
- Reflection.Reflector.Create: a Java constructor that may throw is modelled as a static method that returns a `Result`. `Init` performs only the field initialisers.
- `getSignature`'s `returnType != null` test. The branch is dead because a method's return type is never null (`void` has a class), so the return type is always written.
- Helper steps that the source writes inline:
  - `AddClassMethods` and `WalkClassChain` are the two levels of the `getClassMethods` loop.
  - `IndexProperties` and `IndexNames` are the tail of the constructor.
  - `KeysSnapshot` and `ValuesSnapshot` are `toArray`.
  - The `GetterLoop*`/`SetterLoop*` lemmas are the invariants of the two resolution loops.
