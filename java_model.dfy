/**
 * The reflective view of a Java class that the reflector consumes: its declared methods, fields
 * and constructors, its direct interfaces and its superclass, as plain records. The services
 * that the reflector only calls (assignability between classes, the JavaBeans property namer,
 * generic type resolution) are function values bundled in `Env`.
 */
module JavaModel {
  import opened Wrappers

  /** A Java class, identified by its binary name (`Class.getName()`). */
  type Ty = string

  const BooleanType: Ty := "boolean"
  const ObjectType: Ty := "java.lang.Object"

  /** A `java.lang.reflect.Method`, with the raw (erased) return and parameter types. */
  datatype JMethod = JMethod(
    declaringClass: Ty,
    name: string,
    returnType: Ty,
    parameterTypes: seq<Ty>,
    isBridge: bool)

  /**
   * A `java.lang.reflect.Field`; `declaringClass` is `getDeclaringClass()`, so a field and a
   * superclass field it hides are different values. `accessible` is the value of
   * `isAccessible()` after the best-effort `setAccessible(true)`.
   */
  datatype JField = JField(
    declaringClass: Ty,
    name: string,
    fieldType: Ty,
    isFinal: bool,
    isStatic: bool,
    accessible: bool)

  /** A declared constructor; `accessible` as for fields. */
  datatype JConstructor = JConstructor(parameterTypes: seq<Ty>, accessible: bool)

  /** A directly implemented interface with the result of its `getMethods()`. */
  datatype JInterface = JInterface(name: Ty, methods: seq<JMethod>)

  /** A class as seen through reflection; the superclass chain ends in `None` (`getSuperclass() == null`). */
  datatype JClass = JClass(
    name: Ty,
    declaredMethods: seq<JMethod>,
    interfaces: seq<JInterface>,
    declaredFields: seq<JField>,
    declaredConstructors: seq<JConstructor>,
    superclass: Option<JClass>)

  /**
   * The collaborators of the reflector for one reflected class:
   * `isAssignableFrom(a, b)` is `a.isAssignableFrom(b)`, i.e. `b` is `a` or a subtype of it;
   * `methodToProperty` is the JavaBeans property namer; the three `*In` functions are the
   * generic type resolver followed by `typeToClass`, evaluated in the reflected class.
   */
  datatype Env = Env(
    isAssignableFrom: (Ty, Ty) -> bool,
    methodToProperty: string -> string,
    returnTypeIn: JMethod -> Ty,
    paramTypeIn: JMethod -> Ty,
    fieldTypeIn: JField -> Ty)

  /** The kinds of `ReflectionException` the reflector raises (message text is not modelled). */
  datatype ReflectionError =
    | AmbiguousGetter(property: string)
    | AmbiguousSetter(property: string)
    | NoGetter(property: string)
    | NoSetter(property: string)
    | NoDefaultConstructor

  /** Assignability behaves as a partial order on classes. */
  ghost predicate PartialOrder(r: (Ty, Ty) -> bool) {
    && (forall a :: r(a, a))
    && (forall a, b, c :: r(a, b) && r(b, c) ==> r(a, c))
    && (forall a, b :: r(a, b) && r(b, a) ==> a == b)
  }

  predicate StartsWith(s: string, prefix: string) {
    |prefix| <= |s| && s[..|prefix|] == prefix
  }

  /** Upper-casing of one character, for the ASCII letters. */
  function UpperChar(c: char): (u: char)
    ensures 'a' <= c <= 'z' ==> 'A' <= u <= 'Z' && u as int == c as int - 32
    ensures !('a' <= c <= 'z') ==> u == c
  {
    if 'a' <= c <= 'z' then (c as int - 32) as char else c
  }

  /** `String.toUpperCase(Locale.ENGLISH)`, restricted to ASCII letters. */
  function Upper(s: string): (u: string)
    ensures |u| == |s|
    ensures forall i :: 0 <= i < |s| ==> u[i] == UpperChar(s[i])
  {
    seq(|s|, i requires 0 <= i < |s| => UpperChar(s[i]))
  }

  lemma UpperIdempotent(s: string)
    ensures Upper(Upper(s)) == Upper(s)
  {
  }

  predicate Distinct<T(==)>(s: seq<T>) {
    forall i, j :: 0 <= i < j < |s| ==> s[i] != s[j]
  }
}
