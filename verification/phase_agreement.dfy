/**
 * The phases must agree: the members marked by the member-attribute expansion are the
 * members given backing fields by the member expansion, and the accessors generated for
 * each of them use exactly the field and the wrapper class the other two expansions emit.
 */
module PhaseAgreement {
  import opened Wrappers
  import opened Syntax
  import opened Extensions
  import opened LockedWeakReferenceMacro
  import opened RegisterWeakReferenceMacro

  /** A named class: the only declaration all three type-level expansions accept. */
  predicate NamedClass(declaration: DeclGroup)
  {
    declaration.name.Some? && declaration.kind == ClassKind
  }

  /**
   * Every accessor pair generated for an eligible member of a named class reads and writes
   * a backing field the member expansion emits, through the scoped access of the wrapper
   * class the extension expansion declares, and that field is an instance of that class.
   */
  lemma AccessorsUseEmittedBackingField(node: Attribute, declaration: DeclGroup, i: nat)
    requires NamedClass(declaration)
    requires i < |declaration.members| && declaration.members[i].VariableMember?
    requires CanLockWeakReference(declaration.members[i].variable)
    ensures var fields := MemberExpansion(node, declaration);
            var extensions := ExtensionExpansion(node, declaration);
            var accessors := AccessorExpansion(node, declaration.members[i]);
            fields.Ok? && extensions.Ok? && accessors.Ok? && |extensions.value| == 1 && |accessors.value| == 2
            && accessors.value[0].body.receiver == accessors.value[1].body.receiver
            && accessors.value[0].body.scopedAccess == extensions.value[0].nested.scopedAccess
            && accessors.value[1].body.scopedAccess == extensions.value[0].nested.scopedAccess
            && exists k :: 0 <= k < |fields.value|
                           && fields.value[k].name == accessors.value[0].body.receiver
                           && fields.value[k].initializerType == extensions.value[0].nested.name
  {
    var v := declaration.members[i].variable;
    var eligible := EligibleVariables(declaration.members);
    assert VariableMember(v) in declaration.members;
    EligibleVariablesMembers(declaration.members, v);
    var k :| 0 <= k < |eligible| && eligible[k] == v;
    var fields := MemberExpansion(node, declaration).value;
    assert fields[k].name == "_" + v.bindings[0].pattern;
  }

  /**
   * Conversely, every backing field belongs to an eligible variable member whose
   * generated accessors use it, so no field is left without its accessor pair.
   */
  lemma EveryBackingFieldIsUsed(node: Attribute, declaration: DeclGroup, k: nat)
    requires NamedClass(declaration)
    requires k < |MemberExpansion(node, declaration).value|
    ensures exists i :: 0 <= i < |declaration.members| && declaration.members[i].VariableMember?
                        && CanLockWeakReference(declaration.members[i].variable)
                        && |AccessorExpansion(node, declaration.members[i]).value| == 2
                        && AccessorExpansion(node, declaration.members[i]).value[0].body.receiver
                           == MemberExpansion(node, declaration).value[k].name
  {
    var eligible := EligibleVariables(declaration.members);
    var v := eligible[k];
    EligibleVariablesMembers(declaration.members, v);
    var i :| 0 <= i < |declaration.members| && declaration.members[i] == VariableMember(v);
    assert AccessorExpansion(node, declaration.members[i]).value[0].body.receiver == "_" + v.bindings[0].pattern;
  }

  /**
   * In a named class, an unmarked member gets `@RegisterWeakReference` exactly when the
   * member expansion gives it a backing field and exactly when the accessor expansion would
   * give it accessors: the three phases use the one predicate.
   */
  lemma MarkedExactlyWhenBacked(node: Attribute, declaration: DeclGroup, i: nat)
    requires NamedClass(declaration)
    requires i < |declaration.members| && declaration.members[i].VariableMember?
    requires PlainAttribute(RegisterWeakReferenceAttribute) !in declaration.members[i].variable.attributes
    ensures var member := declaration.members[i];
            (MemberAttributeExpansion(node, declaration, member).value != []
             <==> member.variable in EligibleVariables(declaration.members))
            && (MemberAttributeExpansion(node, declaration, member).value != []
                <==> AccessorExpansion(node, member).value != [])
  {
    assert declaration.members[i] in declaration.members;
    EligibleVariablesMembers(declaration.members, declaration.members[i].variable);
  }

  // ---------------------------------------------------------------- the AnyFoo example

  const FooDelegate: TypeSyntax := IdentifierType("FooDelegate")

  /** `weak var delegate: FooDelegate?` */
  const Delegate: VariableDecl :=
    VariableDecl([], [[KeywordToken(Weak)]], KeywordToken(Var),
                 [PatternBinding("delegate", Some(OptionalType(FooDelegate)), None)])

  /** `var name = ""` */
  const Name: VariableDecl :=
    VariableDecl([], [], KeywordToken(Var), [PatternBinding("name", None, None)])

  /** `let value = 1` */
  const Value: VariableDecl :=
    VariableDecl([], [], KeywordToken(Let), [PatternBinding("value", None, None)])

  /** `final class AnyFoo: FooDelegate, Sendable { ... }` */
  const AnyFoo: DeclGroup :=
    DeclGroup(ClassKind, Some("AnyFoo"),
              [VariableMember(Delegate), VariableMember(Name), VariableMember(Value)])

  /** `delegate` is eligible; `name` (no annotation) and `value` (a `let`) are not. */
  lemma AnyFooEligibility()
    ensures CanLockWeakReference(Delegate)
    ensures !CanLockWeakReference(Name) && !CanLockWeakReference(Value)
  {
  }

  /** Only `delegate` is marked with `@RegisterWeakReference`. */
  lemma AnyFooMarking(node: Attribute)
    ensures MemberAttributeExpansion(node, AnyFoo, VariableMember(Delegate)) == Ok([RegisterWeakReferenceAttribute])
    ensures MemberAttributeExpansion(node, AnyFoo, VariableMember(Name)) == Ok([])
    ensures MemberAttributeExpansion(node, AnyFoo, VariableMember(Value)) == Ok([])
  {
  }

  /** Of the three members, the eligible list is `[delegate]`. */
  lemma AnyFooEligibleVariables()
    ensures EligibleVariables(AnyFoo.members) == [Delegate]
  {
    AnyFooEligibility();
    var d, n, v := VariableMember(Delegate), VariableMember(Name), VariableMember(Value);
    EligibleVariablesSingleton(d);
    EligibleVariablesSingleton(n);
    EligibleVariablesSingleton(v);
    EligibleVariablesConcat([d], [n]);
    EligibleVariablesConcat([d, n], [v]);
    assert [d] + [n] == [d, n] && [d, n] + [v] == AnyFoo.members;
  }

  /** The only backing field is `_delegate`. */
  lemma AnyFooBackingFields(node: Attribute)
    ensures MemberExpansion(node, AnyFoo) == Ok([PrivateLet("_delegate", "LockedWeakReference")])
  {
    AnyFooEligibleVariables();
    DelegateBackingField();
  }

  lemma DelegateBackingField()
    ensures BackingFields([Delegate]) == [PrivateLet("_delegate", "LockedWeakReference")]
  {
    assert [Delegate][1..] == [];
    assert "_" + "delegate" == "_delegate";
  }

  /** One extension of `AnyFoo` declares the wrapper class. */
  lemma AnyFooExtension(node: Attribute)
    ensures ExtensionExpansion(node, AnyFoo) == Ok([PrivateExtension("AnyFoo", LockedWeakReferenceClass)])
  {
  }

  /** The accessors of `delegate` go through `_delegate` and cast to `FooDelegate`; `name` and `value` get none. */
  lemma AnyFooAccessors(node: Attribute)
    ensures AccessorExpansion(node, VariableMember(Delegate))
            == Ok([AccessorDecl(KeywordToken(Get), LockedRead("_delegate", "withLock", FooDelegate)),
                   AccessorDecl(KeywordToken(Set), LockedWrite("_delegate", "withLock"))])
    ensures AccessorExpansion(node, VariableMember(Name)) == Ok([])
    ensures AccessorExpansion(node, VariableMember(Value)) == Ok([])
  {
    AnyFooEligibility();
    assert "_" + "delegate" == "_delegate";
  }
}
