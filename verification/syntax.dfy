/**
 * The small abstract syntax the macros read and write. It keeps exactly the parts of
 * a Swift syntax tree that the expansions look at: declaration kinds and names,
 * variable members with their modifiers, attributes and bindings, and the shapes of
 * the declarations and accessors the expansions emit.
 */
module Syntax {
  import opened Wrappers

  /** The keywords that matter to the macros, plus the usual declaration modifiers. */
  datatype Keyword =
    | Weak | Unowned | Static | Class | Private | Fileprivate | Internal | Public | Open
    | Final | Lazy | Override | Nonisolated | Let | Var | Get | Set | WillSet | DidSet

  /** The kind of one token, with its trivia (whitespace, comments) already dropped. */
  datatype TokenKind =
    | KeywordToken(keyword: Keyword)
    | Identifier(text: string)
    | Punctuation(text: string)

  /** A declaration modifier (`weak`, `static`, `private(set)`, ...) as the tokens it is spelled with. */
  type Modifier = seq<TokenKind>

  /** Type annotations: `T?`, `T!` and every other type written as a plain name. */
  datatype TypeSyntax =
    | IdentifierType(name: string)
    | OptionalType(wrappedType: TypeSyntax)
    | ImplicitlyUnwrappedOptionalType(wrappedType: TypeSyntax)

  /**
   * The body of an accessor: one written by the user, or one of the two bodies the
   * accessor expansion generates, `<receiver>.<scopedAccess> { $0 as? <castTo> }`
   * and `<receiver>.<scopedAccess> { $0 = newValue }`.
   */
  datatype AccessorBody =
    | WrittenBody(text: string)
    | LockedRead(receiver: string, scopedAccess: string, castTo: TypeSyntax)
    | LockedWrite(receiver: string, scopedAccess: string)

  /** One accessor: its specifier (`get`, `set`, `willSet`, `didSet`) and its body. */
  datatype AccessorDecl = AccessorDecl(accessorSpecifier: TokenKind, body: AccessorBody)

  /** `{ expr }` (an implicit getter) or `{ get { ... } set { ... } }` (an explicit accessor list). */
  datatype AccessorBlock =
    | Getter(body: string)
    | Accessors(list: seq<AccessorDecl>)

  /** One `pattern: Type = init { accessors }` binding of a variable declaration; the pattern as its trimmed text. */
  datatype PatternBinding = PatternBinding(
    pattern: string,
    typeAnnotation: Option<TypeSyntax>,
    accessorBlock: Option<AccessorBlock>)

  /** An attribute `@Name`, by the tokens of its name. */
  datatype Attribute = Attribute(attributeName: seq<TokenKind>)

  /** An entry of an attribute list: a plain attribute or an `#if ... #endif` clause holding attributes. */
  datatype AttributeListElement =
    | PlainAttribute(attribute: Attribute)
    | IfConfigClause(elements: seq<Attribute>)

  /** A `let`/`var` declaration. */
  datatype VariableDecl = VariableDecl(
    attributes: seq<AttributeListElement>,
    modifiers: seq<Modifier>,
    bindingSpecifier: TokenKind,
    bindings: seq<PatternBinding>)

  /** A member of a type: a variable declaration or any other declaration (functions, nested types, ...). */
  datatype MemberDecl =
    | VariableMember(variable: VariableDecl)
    | OtherMember(text: string)

  datatype DeclKind = ClassKind | StructKind | EnumKind | ActorKind | ProtocolKind | ExtensionKind

  /** The declaration `@LockedWeakReference` is attached to. Extensions have no name. */
  datatype DeclGroup = DeclGroup(kind: DeclKind, name: Option<string>, members: seq<MemberDecl>)

  /**
   * The nested wrapper class the extension expansion emits, by the names of the class, its
   * lock field, its slot field and its scoped-access method. Their modifiers, types and
   * attributes are not represented.
   */
  datatype WrapperClass = WrapperClass(name: string, lockField: string, slotField: string, scopedAccess: string)

  const LockedWeakReferenceClass: WrapperClass :=
    WrapperClass("LockedWeakReference", "lock", "value", "withLock")

  /** `private extension <extendedType> { <nested> }`. */
  datatype ExtensionDecl = PrivateExtension(extendedType: string, nested: WrapperClass)

  /** `private let <name> = <initializerType>()`. */
  datatype BackingField = PrivateLet(name: string, initializerType: string)
}
