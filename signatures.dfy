/**
 * The method signature `returnType#name:param1,param2,...` under which the method collector
 * deduplicates methods, and the fact that it identifies a method's return type, name and
 * parameter types as long as none of them contains a separator (true of Java class names
 * and identifiers).
 */
module Signatures {
  import opened JavaModel

  /** The parameter part: empty for no parameters, otherwise `:` and the names joined by `,`. */
  function ParameterList(ps: seq<Ty>): string {
    if ps == [] then "" else ":" + Joined(ps)
  }

  function Joined(ps: seq<Ty>): string
    requires ps != []
    decreases |ps|
  {
    if |ps| == 1 then ps[0] else ps[0] + "," + Joined(ps[1..])
  }

  /** `getSignature`: the return type's name, `#`, the method name and the parameter list. */
  function Signature(m: JMethod): string {
    m.returnType + "#" + m.name + ParameterList(m.parameterTypes)
  }

  /** `getSignature`: the `StringBuilder` loop appending `:` before the first parameter and `,` before the others. */
  method GetSignature(m: JMethod) returns (s: string)
    ensures s == Signature(m)
  {
    var head := m.returnType + "#" + m.name;
    var parameters := m.parameterTypes;
    s := head;
    for i := 0 to |parameters|
      invariant s == head + ParameterList(parameters[..i])
    {
      var separator := if i == 0 then ":" else ",";
      SignatureStep(head, parameters, i);
      s := s + separator + parameters[i];
    }
    assert parameters[..|parameters|] == parameters;
  }

  /** Appending the separator and the next parameter name extends the parameter list by that parameter. */
  lemma SignatureStep(head: string, ps: seq<Ty>, i: nat)
    requires i < |ps|
    ensures head + ParameterList(ps[..i]) + (if i == 0 then ":" else ",") + ps[i] == head + ParameterList(ps[..i + 1])
  {
    assert ps[..i + 1] == ps[..i] + [ps[i]];
    ParameterListAppend(ps[..i], ps[i]);
  }

  lemma ParameterListAppend(ps: seq<Ty>, p: Ty)
    ensures ParameterList(ps + [p]) == ParameterList(ps) + (if ps == [] then ":" else ",") + p
  {
    if ps != [] {
      JoinedAppend(ps, p);
    }
  }

  lemma {:induction false} JoinedAppend(ps: seq<Ty>, p: Ty)
    requires ps != []
    ensures Joined(ps + [p]) == Joined(ps) + "," + p
    decreases |ps|
  {
    assert (ps + [p])[0] == ps[0];
    if |ps| > 1 {
      assert (ps + [p])[1..] == ps[1..] + [p];
      JoinedAppend(ps[1..], p);
    } else {
      assert (ps + [p])[1..] == [p];
    }
  }

  /** No name used in a signature contains one of its separators. */
  predicate SeparatorFree(s: string) {
    '#' !in s && ':' !in s && ',' !in s
  }

  predicate JavaNamed(m: JMethod) {
    SeparatorFree(m.returnType) && SeparatorFree(m.name)
    && forall i :: 0 <= i < |m.parameterTypes| ==> SeparatorFree(m.parameterTypes[i])
  }

  /** Two methods share a signature exactly when they agree on return type, name and parameter types. */
  lemma SignatureInjective(m1: JMethod, m2: JMethod)
    requires JavaNamed(m1) && JavaNamed(m2)
    ensures Signature(m1) == Signature(m2)
        <==> m1.returnType == m2.returnType && m1.name == m2.name && m1.parameterTypes == m2.parameterTypes
  {
    if Signature(m1) == Signature(m2) {
      assert Signature(m1) == m1.returnType + ("#" + (m1.name + ParameterList(m1.parameterTypes)));
      assert Signature(m2) == m2.returnType + ("#" + (m2.name + ParameterList(m2.parameterTypes)));
      SplitAtSeparator(m1.returnType, "#" + (m1.name + ParameterList(m1.parameterTypes)),
                       m2.returnType, "#" + (m2.name + ParameterList(m2.parameterTypes)), '#');
      var r1, r2 := m1.name + ParameterList(m1.parameterTypes), m2.name + ParameterList(m2.parameterTypes);
      assert "#" + r1 == "#" + r2;
      assert r1 == ("#" + r1)[1..] == ("#" + r2)[1..] == r2;
      SplitAtSeparator(m1.name, ParameterList(m1.parameterTypes), m2.name, ParameterList(m2.parameterTypes), ':');
      ParameterListInjective(m1.parameterTypes, m2.parameterTypes);
    }
  }

  lemma {:induction false} ParameterListInjective(ps: seq<Ty>, qs: seq<Ty>)
    requires forall i :: 0 <= i < |ps| ==> SeparatorFree(ps[i])
    requires forall i :: 0 <= i < |qs| ==> SeparatorFree(qs[i])
    requires ParameterList(ps) == ParameterList(qs)
    ensures ps == qs
  {
    if ps != [] && qs != [] {
      assert Joined(ps) == ParameterList(ps)[1..] == ParameterList(qs)[1..] == Joined(qs);
      JoinedInjective(ps, qs);
    }
  }

  lemma {:induction false} JoinedInjective(ps: seq<Ty>, qs: seq<Ty>)
    requires ps != [] && qs != []
    requires forall i :: 0 <= i < |ps| ==> SeparatorFree(ps[i])
    requires forall i :: 0 <= i < |qs| ==> SeparatorFree(qs[i])
    requires Joined(ps) == Joined(qs)
    ensures ps == qs
    decreases |ps|
  {
    var x: string := if |ps| == 1 then "" else "," + Joined(ps[1..]);
    var y: string := if |qs| == 1 then "" else "," + Joined(qs[1..]);
    assert SeparatorFree(ps[0]) && SeparatorFree(qs[0]);
    assert Joined(ps) == ps[0] + x && Joined(qs) == qs[0] + y;
    SplitAtSeparator(ps[0], x, qs[0], y, ',');
    if |ps| > 1 && |qs| > 1 {
      assert Joined(ps[1..]) == x[1..] == y[1..] == Joined(qs[1..]);
      JoinedInjective(ps[1..], qs[1..]);
      assert ps == [ps[0]] + ps[1..];
      assert qs == [qs[0]] + qs[1..];
    }
  }

  /** A separator-free prefix followed by nothing or by the separator is determined by the concatenation. */
  lemma SplitAtSeparator(a: string, x: string, c: string, y: string, sep: char)
    requires sep !in a && sep !in c
    requires x == [] || x[0] == sep
    requires y == [] || y[0] == sep
    requires a + x == c + y
    ensures a == c && x == y
  {
    assert a == (a + x)[..|a|];
    assert c == (c + y)[..|c|];
    assert x == (a + x)[|a|..];
    assert y == (c + y)[|c|..];
  }
}
