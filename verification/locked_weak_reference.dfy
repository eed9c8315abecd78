/**
 * The three expansions of `@LockedWeakReference`: the extension that declares the
 * wrapper class, the backing fields `_<name>` (one per eligible member), and the
 * `@RegisterWeakReference` attribute put on each eligible member.
 */
module LockedWeakReferenceMacro {
  import opened Wrappers
  import opened Syntax
  import opened Diagnostics
  import opened Extensions

  // ---------------------------------------------------------------- messages

  const MacroPrefix: string := "'@LockedWeakReference' cannot be applied to "

  /** The word the rejection message uses for each refused kind. */
  function KindWord(kind: DeclKind): Option<string>
  {
    match kind
    case EnumKind => Some("enumeration")
    case StructKind => Some("struct")
    case ActorKind => Some("actor")
    case _ => None
  }

  /** `'@LockedWeakReference' cannot be applied to <word> type '<name>'`. */
  function RejectionMessage(word: string, typeName: string): string
  {
    MacroPrefix + word + " type '" + typeName + "'"
  }

  /** The message for any other declaration that is not a class, stray `.'` included. */
  const NonClassMessage: string := "'@LockedWeakReference' cannot be applied to non-class types.'"

  /** The rejection message names the refused kind and the type: both can be read back from it. */
  lemma RejectionMessageNamesKindAndType(k1: DeclKind, n1: string, k2: DeclKind, n2: string)
    requires KindWord(k1).Some? && KindWord(k2).Some?
    requires RejectionMessage(KindWord(k1).value, n1) == RejectionMessage(KindWord(k2).value, n2)
    ensures k1 == k2 && n1 == n2
  {
    var w1, w2 := KindWord(k1).value, KindWord(k2).value;
    var m := RejectionMessage(w1, n1);
    assert m[|MacroPrefix|] == w1[0];
    assert RejectionMessage(w2, n2)[|MacroPrefix|] == w2[0];
    assert k1 == k2;
    var start := |MacroPrefix| + |w1| + |" type '"|;
    assert m[start..|m| - 1] == n1;
    assert RejectionMessage(w2, n2)[start..|m| - 1] == n2;
  }

  /** The three kind checks, in the order the source runs them: enum, then struct, then actor. */
  function KindCheck(node: Attribute, declaration: DeclGroup, typeName: string): Option<DiagnosticsError>
  {
    if IsEnum(declaration) then
      Some(DiagnosticsErrorAt(node, RejectionMessage("enumeration", typeName)))
    else if IsStruct(declaration) then
      Some(DiagnosticsErrorAt(node, RejectionMessage("struct", typeName)))
    else if IsActor(declaration) then
      Some(DiagnosticsErrorAt(node, RejectionMessage("actor", typeName)))
    else
      None
  }

  // ---------------------------------------------------------------- extension expansion

  /**
   * The extension expansion: nothing for an unnamed declaration, the kind rejection for
   * an enum, struct or actor, and otherwise exactly one extension of the type holding the
   * wrapper class. It does not test for a class and does not look at the members.
   */
  function ExtensionExpansion(node: Attribute, declaration: DeclGroup): (r: Result<seq<ExtensionDecl>, DiagnosticsError>)
    ensures declaration.name.None? ==> r == Ok([])
    ensures r.Err? <==> declaration.name.Some? && KindWord(declaration.kind).Some?
    ensures r.Err? ==> |r.error.diagnostics| == 1 && r.error.diagnostics[0].node == node
                       && r.error.diagnostics[0].message.message
                          == RejectionMessage(KindWord(declaration.kind).value, declaration.name.value)
                       && WellFormedError(r.error)
    ensures r.Ok? && declaration.name.Some? ==>
              r.value == [PrivateExtension(declaration.name.value, LockedWeakReferenceClass)]
  {
    match declaration.name
    case None => Ok([])
    case Some(typeName) =>
      match KindCheck(node, declaration, typeName)
      case Some(e) => Err(e)
      case None => Ok([PrivateExtension(typeName, LockedWeakReferenceClass)])
  }

  // ---------------------------------------------------------------- member expansion

  /** One member's share of the eligible list: itself when it is an eligible variable, else nothing. */
  function EligibleShare(m: MemberDecl): seq<VariableDecl>
  {
    match m
    case VariableMember(v) => if CanLockWeakReference(v) then [v] else []
    case OtherMember(_) => []
  }

  /** `members.compactMap { $0 as variable }.filter { $0.canLockWeakReference }`. */
  function EligibleVariables(members: seq<MemberDecl>): (r: seq<VariableDecl>)
    ensures forall k :: 0 <= k < |r| ==> r[k].bindings != []
    ensures |r| <= |members|
  {
    if members == [] then []
    else EligibleShare(members[0]) + EligibleVariables(members[1..])
  }

  /** A variable is kept exactly when it is one of the members and passes the eligibility predicate. */
  lemma {:induction false} EligibleVariablesMembers(members: seq<MemberDecl>, v: VariableDecl)
    ensures v in EligibleVariables(members) <==> VariableMember(v) in members && CanLockWeakReference(v)
  {
    if members != [] {
      EligibleVariablesMembers(members[1..], v);
      assert VariableMember(v) in members <==> VariableMember(v) == members[0] || VariableMember(v) in members[1..];
    }
  }

  /** Eligible variables are collected member by member, so they keep the members' order. */
  lemma {:induction false} EligibleVariablesConcat(xs: seq<MemberDecl>, ys: seq<MemberDecl>)
    ensures EligibleVariables(xs + ys) == EligibleVariables(xs) + EligibleVariables(ys)
  {
    if xs == [] {
      assert xs + ys == ys;
    } else {
      assert (xs + ys)[1..] == xs[1..] + ys;
      EligibleVariablesConcat(xs[1..], ys);
    }
  }

  /** A member that is not an eligible variable changes nothing, wherever it stands. */
  lemma IneligibleMemberContributesNothing(xs: seq<MemberDecl>, m: MemberDecl, ys: seq<MemberDecl>)
    requires !(m.VariableMember? && CanLockWeakReference(m.variable))
    ensures EligibleVariables(xs + [m] + ys) == EligibleVariables(xs + ys)
  {
    EligibleVariablesSingleton(m);
    EligibleVariablesConcat(xs, [m]);
    var front := EligibleVariables(xs + [m]);
    assert front == EligibleVariables(xs);
    EligibleVariablesConcat(xs + [m], ys);
    EligibleVariablesConcat(xs, ys);
  }

  lemma EligibleVariablesSingleton(m: MemberDecl)
    ensures EligibleVariables([m]) == EligibleShare(m)
  {
    assert [m][1..] == [];
  }

  /** `.compactMap { $0.bindings.first?.pattern }.map { "private let _\($0) = LockedWeakReference()" }`. */
  function BackingFields(vars: seq<VariableDecl>): (r: seq<BackingField>)
    ensures (forall k :: 0 <= k < |vars| ==> vars[k].bindings != []) ==>
              |r| == |vars|
              && forall k :: 0 <= k < |vars| ==>
                   r[k] == PrivateLet("_" + vars[k].bindings[0].pattern, LockedWeakReferenceClass.name)
  {
    if vars == [] then []
    else
      var rest := BackingFields(vars[1..]);
      match PatternOf(vars[0])
      case None => rest
      case Some(p) => [PrivateLet("_" + p, LockedWeakReferenceClass.name)] + rest
  }

  /**
   * The member expansion: the same guards as the extension expansion, then the non-class
   * rejection, then one private backing field `_<pattern>` per eligible variable member, in
   * member order, each an instance of the wrapper class. No eligible member gives no field.
   */
  function MemberExpansion(node: Attribute, declaration: DeclGroup): (r: Result<seq<BackingField>, DiagnosticsError>)
    ensures declaration.name.None? ==> r == Ok([])
    ensures r.Err? <==> declaration.name.Some? && declaration.kind != ClassKind
    ensures r.Err? ==> |r.error.diagnostics| == 1 && r.error.diagnostics[0].node == node
                       && WellFormedError(r.error)
                       && r.error.diagnostics[0].message.message
                          == (if KindWord(declaration.kind).Some?
                              then RejectionMessage(KindWord(declaration.kind).value, declaration.name.value)
                              else NonClassMessage)
    ensures r.Ok? && declaration.name.Some? ==>
              var eligible := EligibleVariables(declaration.members);
              |r.value| == |eligible|
              && forall k :: 0 <= k < |eligible| ==>
                   r.value[k] == PrivateLet("_" + eligible[k].bindings[0].pattern, LockedWeakReferenceClass.name)
  {
    match declaration.name
    case None => Ok([])
    case Some(typeName) =>
      match KindCheck(node, declaration, typeName)
      case Some(e) => Err(e)
      case None =>
        if !IsClass(declaration) then
          Err(DiagnosticsErrorAt(node, NonClassMessage))
        else
          var weakVariables := EligibleVariables(declaration.members);
          if weakVariables == [] then Ok([])
          else Ok(BackingFields(weakVariables))
  }

  // ---------------------------------------------------------------- member-attribute expansion

  const RegisterWeakReferenceName: string := "RegisterWeakReference"

  /** `@RegisterWeakReference`. */
  const RegisterWeakReferenceAttribute: Attribute := Attribute([Identifier(RegisterWeakReferenceName)])

  /**
   * The member-attribute expansion, run once per member: `[@RegisterWeakReference]` exactly
   * when the declaration is a class and the member is an eligible variable not yet carrying
   * that attribute; otherwise nothing. It never throws.
   */
  function MemberAttributeExpansion(node: Attribute, declaration: DeclGroup, member: MemberDecl): (r: Result<seq<Attribute>, DiagnosticsError>)
    ensures r.Ok?
    ensures r.value == [] || r.value == [RegisterWeakReferenceAttribute]
    ensures r.value != [] <==>
              declaration.kind == ClassKind && member.VariableMember?
              && PlainAttribute(RegisterWeakReferenceAttribute) !in member.variable.attributes
              && CanLockWeakReference(member.variable)
  {
    if IsClass(declaration) && member.VariableMember?
       && !HasMacroApplication(member.variable, RegisterWeakReferenceName)
       && CanLockWeakReference(member.variable)
    then Ok([RegisterWeakReferenceAttribute])
    else Ok([])
  }

  /** The member with `attribute` inserted at position `at` of its attribute list. */
  function AddAttribute(member: MemberDecl, attribute: Attribute, at: nat): MemberDecl
    requires member.VariableMember? && at <= |member.variable.attributes|
  {
    var v := member.variable;
    VariableMember(v.(attributes := v.attributes[..at] + [PlainAttribute(attribute)] + v.attributes[at..]))
  }

  /** Putting the returned attribute on the member, anywhere in its list, makes a second run return nothing. */
  lemma PropagationIsIdempotent(node: Attribute, declaration: DeclGroup, member: MemberDecl, at: nat)
    requires member.VariableMember? && at <= |member.variable.attributes|
    requires MemberAttributeExpansion(node, declaration, member).value != []
    ensures var marked := AddAttribute(member, MemberAttributeExpansion(node, declaration, member).value[0], at);
            MemberAttributeExpansion(node, declaration, marked) == Ok([])
  {
  }

  /** Eligibility does not look at attributes. */
  lemma AttributesDoNotAffectEligibility(v: VariableDecl, w: VariableDecl)
    requires w == v.(attributes := w.attributes)
    ensures CanLockWeakReference(w) == CanLockWeakReference(v)
  {
  }

  /** An `@RegisterWeakReference` inside an `#if` clause does not count as already applied. */
  lemma IfConfigClauseIsIgnored(node: Attribute, declaration: DeclGroup, v: VariableDecl, clause: seq<Attribute>)
    ensures MemberAttributeExpansion(node, declaration, VariableMember(v.(attributes := v.attributes + [IfConfigClause(clause)])))
            == MemberAttributeExpansion(node, declaration, VariableMember(v))
  {
  }
}
