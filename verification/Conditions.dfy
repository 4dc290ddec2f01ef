/** The condition language of the posting DSL: every condition has a negation normal form over equality and presence. */
module Conditions {
  import opened Sums
  import opened PostingDsl

  function EachEquals(p: Field, vs: seq<Value>): seq<Condition> {
    if vs == [] then [] else [Equals(p, vs[0])] + EachEquals(p, vs[1..])
  }

  function EachDiffers(p: Field, vs: seq<Value>): seq<Condition> {
    if vs == [] then [] else [NotEquals(p, vs[0])] + EachDiffers(p, vs[1..])
  }

  /** The condition, or its negation, without the derived operators: membership becomes a choice of equalities, the
      tests for null become equality with null and presence, and negations move inwards. */
  function Normal(c: Condition, negated: bool): Condition {
    match c
    case And(cs) => if negated then Or(Normals(cs, true)) else And(Normals(cs, false))
    case Or(cs) => if negated then And(Normals(cs, true)) else Or(Normals(cs, false))
    case Not(d) => Normal(d, !negated)
    case Equals(p, v) => if negated then NotEquals(p, v) else c
    case NotEquals(p, v) => if negated then Equals(p, v) else c
    case In(p, vs) => if negated then And(EachDiffers(p, vs)) else Or(EachEquals(p, vs))
    case NotIn(p, vs) => if negated then Or(EachEquals(p, vs)) else And(EachDiffers(p, vs))
    case Exists(p) => if negated then Not(c) else c
    case IsNull(p) => if negated then NotEquals(p, Null) else Equals(p, Null)
    case IsNotNull(p) =>
      if negated then Or([Not(Exists(p)), Equals(p, Null)]) else And([Exists(p), NotEquals(p, Null)])
  }

  function Normals(cs: seq<Condition>, negated: bool): seq<Condition> {
    if cs == [] then [] else [Normal(cs[0], negated)] + Normals(cs[1..], negated)
  }

  /** Built from equalities, inequalities, and the presence or absence of entries. */
  predicate IsNormal(c: Condition) {
    match c
    case And(cs) => forall i | 0 <= i < |cs| :: IsNormal(cs[i])
    case Or(cs) => forall i | 0 <= i < |cs| :: IsNormal(cs[i])
    case Not(d) => d.Exists?
    case Equals(_, _) => true
    case NotEquals(_, _) => true
    case Exists(_) => true
    case _ => false
  }

  lemma {:induction false} EachAtom(p: Field, vs: seq<Value>, env: Envelope)
    ensures |EachEquals(p, vs)| == |EachDiffers(p, vs)| == |vs|
    ensures forall i | 0 <= i < |vs| :: EachEquals(p, vs)[i] == Equals(p, vs[i])
    ensures forall i | 0 <= i < |vs| :: EachDiffers(p, vs)[i] == NotEquals(p, vs[i])
  {
    if vs != [] { EachAtom(p, vs[1..], env); }
  }

  lemma {:induction false} MembershipIsAChoice(p: Field, vs: seq<Value>, env: Envelope)
    ensures Holds(Or(EachEquals(p, vs)), env) <==> Holds(In(p, vs), env)
    ensures Holds(And(EachDiffers(p, vs)), env) <==> Holds(NotIn(p, vs), env)
    ensures Holds(In(p, vs), env) <==> !Holds(NotIn(p, vs), env)
    ensures IsNormal(Or(EachEquals(p, vs))) && IsNormal(And(EachDiffers(p, vs)))
  {
    var yes, no := EachEquals(p, vs), EachDiffers(p, vs);
    EachAtom(p, vs, env);
    if Holds(In(p, vs), env) {
      var i :| 0 <= i < |vs| && vs[i] == env[p];
      assert Holds(yes[i], env) && !Holds(no[i], env);
    } else {
      forall i | 0 <= i < |vs| ensures !Holds(yes[i], env) && Holds(no[i], env) {
        assert vs[i] in vs;
      }
    }
  }

  lemma {:induction false} NormalsKeepTheMeaning(cs: seq<Condition>, negated: bool, env: Envelope)
    ensures |Normals(cs, negated)| == |cs|
    ensures forall i | 0 <= i < |cs| ::
              IsNormal(Normals(cs, negated)[i]) && Holds(Normals(cs, negated)[i], env) == (Holds(cs[i], env) != negated)
  {
    if cs != [] {
      NormalKeepsTheMeaning(cs[0], negated, env);
      NormalsKeepTheMeaning(cs[1..], negated, env);
      assert forall i | 1 <= i < |cs| :: cs[i] == cs[1..][i - 1];
    }
  }

  /** The normal form holds in every payload exactly when the condition does, and that of the negation exactly when it
      does not. */
  lemma {:induction false} NormalKeepsTheMeaning(c: Condition, negated: bool, env: Envelope)
    ensures IsNormal(Normal(c, negated))
    ensures Holds(Normal(c, negated), env) <==> Holds(c, env) != negated
  {
    match c
    case And(cs) => NormalsKeepTheMeaning(cs, negated, env);
    case Or(cs) => NormalsKeepTheMeaning(cs, negated, env);
    case Not(d) => NormalKeepsTheMeaning(d, !negated, env);
    case In(p, vs) => MembershipIsAChoice(p, vs, env);
    case NotIn(p, vs) => MembershipIsAChoice(p, vs, env);
    case IsNotNull(p) => NullTests(p, env);
    case _ =>
  }

  lemma {:induction false} NullTests(p: Field, env: Envelope)
    ensures Holds(Or([Not(Exists(p)), Equals(p, Null)]), env) <==> !Holds(IsNotNull(p), env)
    ensures Holds(And([Exists(p), NotEquals(p, Null)]), env) <==> Holds(IsNotNull(p), env)
  {
    var absent, present := [Not(Exists(p)), Equals(p, Null)], [Exists(p), NotEquals(p, Null)];
    assert Holds(absent[0], env) <==> p !in env;
    assert Holds(absent[1], env) <==> p in env && env[p] == Null;
    assert Holds(present[0], env) <==> p in env;
    assert Holds(present[1], env) <==> !(p in env && env[p] == Null);
  }
}
