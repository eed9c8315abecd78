# LockedWeakReference macros, modelled in Dafny

`@LockedWeakReference` is a Swift attached macro for classes. It replaces each weak
optional stored property with a computed get/set pair. Every read and write of that pair
goes through a lock. The macro works in three expansions over the class declaration:

- the **member-attribute expansion** puts `@RegisterWeakReference` on every eligible member;
- the **member expansion** adds one `private let _<name> = LockedWeakReference()` backing
  field per eligible member;
- the **extension expansion** adds one `private extension <Type>` declaring the nested
  wrapper class `LockedWeakReference` (a lock, a weak `AnyObject?` slot and `withLock`).

`@RegisterWeakReference` then has an **accessor expansion** of its own. It gives the member
a getter and a setter that reach `_<name>` through `withLock`. A member is eligible when
`canLockWeakReference` holds: its first binding is annotated `T?`, it carries `weak`, it
passes the instance test, it has no getter, and it is a `var`.

The model works on a small abstract syntax (`syntax.dfy`), not on SwiftSyntax. A
declaration is a kind, an optional name and its members. A variable member has attributes,
modifiers (each a token sequence), a binding specifier and bindings. A binding has a pattern,
an optional type and an optional accessor block. The output of each expansion is a
structured value: an extension, a backing field, an attribute or an accessor. A Swift
`throw` becomes `Err(DiagnosticsError)` in a `Result` (`wrappers.dfy`).

Files, one module each:

- `extensions.dfy`: the predicates and the error constructor.
- `diagnostics.dfy`: the diagnostic record.
- `locked_weak_reference.dfy`: the three type-level expansions.
- `register_weak_reference.dfy`: the accessor expansion.
- `phase_agreement.dfy`: the lemmas tying the phases together, and the `AnyFoo` example.

The kind tests (`IsClass`, `IsEnum`, `IsStruct`, `IsActor`), `IsImmutable`, `TypeOf`,
`PatternOf`, `KindCheck` and `RejectionMessage` only compute. Their meaning is fixed by the
contracts of the members that use them, listed below.

Behaviour of the code worth knowing, which the model keeps as written:

- The name `isInstance` suggests type-level members are meant to be refused. As written
  (Sources/LockedWeakReferenceMacro/Extensions.swift:46-54) it holds when any modifier token
  is neither `static` nor `class`. A `weak` token is such a token, so `static weak var x: T?`
  is eligible (`StaticWeakVariableIsEligible`, `WeakImpliesInstance`).
- Ineligibility is always silent: no expansion throws for an ineligible member.
- The extension expansion has no class test. A named protocol gets the extension, and so
  does a class with no eligible member.
- The non-class message ends in `types.'`, with a stray quote. It is kept verbatim.

## Model

| member | source | states |
|---|---|---|
| `Diagnostics.MakeDiagnostic` | Sources/LockedWeakReferenceMacro/LockedWeakReferenceDiagnostic.swift:3-7 | the record carries the caller's message verbatim, domain `LockedWeakReference`, id `invalid specifier`, severity error |
| `Extensions.IsClass` | Sources/LockedWeakReferenceMacro/Extensions.swift:7-9 | the declaration is a class; its meaning is fixed by the contracts of `MemberExpansion` and `MemberAttributeExpansion` |
| `Extensions.IsActor` | Sources/LockedWeakReferenceMacro/Extensions.swift:11-13 | the declaration is an actor; its meaning is fixed by the contracts of `ExtensionExpansion` and `MemberExpansion` |
| `Extensions.IsEnum` | Sources/LockedWeakReferenceMacro/Extensions.swift:15-17 | the declaration is an enum; its meaning is fixed by the contracts of `ExtensionExpansion` and `MemberExpansion` |
| `Extensions.IsStruct` | Sources/LockedWeakReferenceMacro/Extensions.swift:19-21 | the declaration is a struct; its meaning is fixed by the contracts of `ExtensionExpansion` and `MemberExpansion` |
| `Extensions.TypeOf` | Sources/LockedWeakReferenceMacro/Extensions.swift:56-58 | the first binding's annotation; its meaning is fixed by the contracts of `IsOptional` and `CanLockWeakReference` |
| `Extensions.PatternOf` | Sources/LockedWeakReferenceMacro/Extensions.swift:60-62 | the first binding's pattern; its meaning is fixed by the contracts of `CanLockWeakReference` and `AccessorExpansion` |
| `Extensions.IsImmutable` | Sources/LockedWeakReferenceMacro/Extensions.swift:77-79 | the binding specifier is `let`; its meaning is fixed by `CanLockWeakReference` and `ImmutableIsNeverEligible` |
| `LockedWeakReferenceMacro.KindCheck` | Sources/LockedWeakReferenceMacro/LockedWeakReference.swift:20-39 | the enum, struct, actor checks in that order; its meaning is fixed by the contracts of `ExtensionExpansion` and `MemberExpansion` |
| `Extensions.DiagnosticsErrorAt` | Sources/LockedWeakReferenceMacro/Extensions.swift:113-120 | the thrown error holds exactly one diagnostic, attached to the given node, with the given message, well-formed (error severity, fixed id) |
| `Extensions.TokensContain` | Sources/LockedWeakReferenceMacro/Extensions.swift:40-42 | `contains(where:)` over a modifier's tokens is true iff some token satisfies the test |
| `Extensions.ModifiersContain` | Sources/LockedWeakReferenceMacro/Extensions.swift:38-43 | the nested `contains` over modifiers is true iff some token of some modifier satisfies the test |
| `Extensions.IsOptional` | Sources/LockedWeakReferenceMacro/Extensions.swift:33-35 | true iff the first binding exists and is annotated with an optional type `T?`; no annotation, `T!` or a plain type give false; later bindings are ignored |
| `Extensions.IsWeak` | Sources/LockedWeakReferenceMacro/Extensions.swift:37-44 | true iff some modifier holds the `weak` keyword token |
| `Extensions.IsInstance` | Sources/LockedWeakReferenceMacro/Extensions.swift:46-54 | true iff some modifier holds a token that is neither `static` nor `class`; false when there are no modifiers |
| `Extensions.WeakImpliesInstance` | Sources/LockedWeakReferenceMacro/Extensions.swift:46-54 | every weak variable passes the instance test |
| `Extensions.StaticWeakVariableIsEligible` | Sources/LockedWeakReferenceMacro/Extensions.swift:46-54 | as written, `static weak var x: T?` passes the eligibility predicate, for every name and wrapped type |
| `Extensions.ExplicitAccessorsSingleton` | Sources/LockedWeakReferenceMacro/Extensions.swift:82-90 | one binding contributes exactly its own explicit accessor list, in its order (nothing for no block or an implicit getter) |
| `Extensions.ExplicitAccessorsConcat` | Sources/LockedWeakReferenceMacro/Extensions.swift:82-90 | collecting is piecewise over the bindings, so the accessors come binding by binding, in binding order |
| `Extensions.AccessorsMatchingConcat` | Sources/LockedWeakReferenceMacro/Extensions.swift:81-95 | splitting the bindings splits the result: the matching accessors of earlier bindings come first, each binding's in its own order |
| `Extensions.ExplicitAccessors` | Sources/LockedWeakReferenceMacro/Extensions.swift:82-90 | an accessor is collected iff it is in the explicit accessor list of some binding; no block and an implicit getter contribute nothing |
| `Extensions.Filter` | Sources/LockedWeakReferenceMacro/Extensions.swift:92-94 | keeps exactly the accessors whose specifier satisfies the test, never more than it was given |
| `Extensions.FilterConcat` | Sources/LockedWeakReferenceMacro/Extensions.swift:92-94 | filtering a concatenation is the concatenation of the filtered parts, so the kept accessors stay in their original order |
| `Extensions.FilterKeepsAll` | Sources/LockedWeakReferenceMacro/Extensions.swift:92-94 | a test every specifier passes keeps the list unchanged |
| `Extensions.AccessorsMatching` | Sources/LockedWeakReferenceMacro/Extensions.swift:81-95 | an accessor is returned iff its specifier satisfies the test and it sits in some binding's explicit accessor list |
| `Extensions.IsComputed` | Sources/LockedWeakReferenceMacro/Extensions.swift:64-75 | true iff some binding has an implicit getter or a `get` in its explicit list; `set`/`willSet`/`didSet` alone do not count |
| `Extensions.CanLockWeakReference` | Sources/LockedWeakReferenceMacro/Extensions.swift:25-31 | eligible iff optional, weak, not computed and not `let` (the instance test never decides); an eligible variable always has a first pattern and a `T?` type |
| `Extensions.ImmutableIsNeverEligible` | Sources/LockedWeakReferenceMacro/Extensions.swift:77-79 | a `let` member is never eligible |
| `Extensions.FindMacroApplication` | Sources/LockedWeakReferenceMacro/Extensions.swift:98-108 | the early-return search finds a match iff some list entry is the plain attribute named exactly `[identifier(name)]` |
| `Extensions.HasMacroApplication` | Sources/LockedWeakReferenceMacro/Extensions.swift:97-109 | true iff `@name` is one of the variable's own plain attributes; `#if` clauses are not looked into |
| `LockedWeakReferenceMacro.RejectionMessageNamesKindAndType` | Sources/LockedWeakReferenceMacro/LockedWeakReference.swift:20-39 | two rejection messages are equal only for the same kind and the same type name, so a message names both |
| `LockedWeakReferenceMacro.ExtensionExpansion` | Sources/LockedWeakReferenceMacro/LockedWeakReference.swift:7-56 | unnamed: `Ok([])`; enum, struct or actor: one well-formed diagnostic at the node naming kind and type; any other named declaration: exactly one private extension of that type declaring the wrapper class, whatever the members |
| `LockedWeakReferenceMacro.EligibleVariables` | Sources/LockedWeakReferenceMacro/LockedWeakReference.swift:98-100 | never keeps more than there are members, and every kept variable has a first binding (so its pattern can always be taken) |
| `LockedWeakReferenceMacro.EligibleVariablesMembers` | Sources/LockedWeakReferenceMacro/LockedWeakReference.swift:98-100 | a variable is kept iff it is one of the members and passes the eligibility predicate |
| `LockedWeakReferenceMacro.EligibleVariablesConcat` | Sources/LockedWeakReferenceMacro/LockedWeakReference.swift:98-100 | collecting is piecewise over concatenation, so eligible members stay in member order |
| `LockedWeakReferenceMacro.IneligibleMemberContributesNothing` | Sources/LockedWeakReferenceMacro/LockedWeakReference.swift:98-100 | inserting a non-variable or ineligible member anywhere leaves the eligible list unchanged |
| `LockedWeakReferenceMacro.BackingFields` | Sources/LockedWeakReferenceMacro/LockedWeakReference.swift:106-108 | for variables that all have a first binding: one `private let _<pattern> = LockedWeakReference()` per variable, in order |
| `LockedWeakReferenceMacro.MemberExpansion` | Sources/LockedWeakReferenceMacro/LockedWeakReference.swift:58-109 | unnamed: `Ok([])`; a named non-class fails, with the kind message for enum/struct/actor and the non-class message otherwise; a named class gets exactly one field `_<pattern>` of the wrapper type per eligible member, in member order (none when none is eligible) |
| `LockedWeakReferenceMacro.MemberAttributeExpansion` | Sources/LockedWeakReferenceMacro/LockedWeakReference.swift:111-128 | never fails; returns `[@RegisterWeakReference]` iff the declaration is a class and the member is an eligible variable not already carrying it, otherwise `[]` |
| `LockedWeakReferenceMacro.PropagationIsIdempotent` | Sources/LockedWeakReferenceMacro/LockedWeakReference.swift:117-127 | once the returned attribute is added to the member, at any position, a second run returns `[]` |
| `LockedWeakReferenceMacro.AttributesDoNotAffectEligibility` | Sources/LockedWeakReferenceMacro/LockedWeakReference.swift:117-120 | adding or removing attributes does not change eligibility |
| `LockedWeakReferenceMacro.IfConfigClauseIsIgnored` | Sources/LockedWeakReferenceMacro/Extensions.swift:104-106 | an `#if` clause added to the attribute list changes nothing, even when it holds `@RegisterWeakReference` |
| `RegisterWeakReferenceMacro.AccessorExpansion` | Sources/LockedWeakReferenceMacro/RegisterWeakReference.swift:7-36 | never fails; returns two accessors iff the declaration is an eligible variable, otherwise none; the two are `get`, reading `_<first pattern>` through `withLock` and casting to the type inside `?`, then `set`, writing through `withLock` into the same field |
| `PhaseAgreement.AccessorsUseEmittedBackingField` | Sources/LockedWeakReferenceMacro/RegisterWeakReference.swift:20-35 | in a named class, both accessors of an eligible member use a field that the member expansion emits, that field instantiates the wrapper class of the one emitted extension, and both call that class's scoped access |
| `PhaseAgreement.EveryBackingFieldIsUsed` | Sources/LockedWeakReferenceMacro/LockedWeakReference.swift:98-108 | every emitted backing field belongs to an eligible variable member whose getter reads it |
| `PhaseAgreement.MarkedExactlyWhenBacked` | Sources/LockedWeakReferenceMacro/LockedWeakReference.swift:117-120 | in a named class, an unmarked variable member is marked iff it gets a backing field iff it gets accessors |
| `PhaseAgreement.AnyFooEligibility` | Tests/LockedWeakReferenceTests/LockedWeakReferenceTests.swift:24-26 | `weak var delegate: FooDelegate?` is eligible; `var name = ""` and `let value = 1` are not |
| `PhaseAgreement.AnyFooMarking` | Tests/LockedWeakReferenceTests/LockedWeakReferenceTests.swift:22-27 | only `delegate` is marked with `@RegisterWeakReference` |
| `PhaseAgreement.AnyFooEligibleVariables` | Tests/LockedWeakReferenceTests/LockedWeakReferenceTests.swift:22-27 | the eligible list of `AnyFoo` is exactly `[delegate]` |
| `PhaseAgreement.AnyFooBackingFields` | Tests/LockedWeakReferenceTests/LockedWeakReferenceTests.swift:47 | the member expansion of `AnyFoo` is exactly `private let _delegate = LockedWeakReference()` |
| `PhaseAgreement.AnyFooExtension` | Tests/LockedWeakReferenceTests/LockedWeakReferenceTests.swift:50-64 | the extension expansion of `AnyFoo` is exactly one private extension of `AnyFoo` declaring the wrapper class |
| `PhaseAgreement.AnyFooAccessors` | Tests/LockedWeakReferenceTests/LockedWeakReferenceTests.swift:32-43 | `delegate` gets a getter reading `_delegate` through `withLock` and casting to `FooDelegate`, then a setter writing through `_delegate`; `name` and `value` get no accessors |

## Left out

- Parsing, trivia and printing. The pattern is held as its trimmed text, and a type as a small tree (`T`, `T?`, `T!`). Emitted code is a structured value, not text, so the formatting of the expected test output is not modelled.
- Other member declarations (functions, nested types, ...) are one opaque `OtherMember`. Only variable declarations are inspected by the code.
- The runtime behaviour of the generated wrapper class: the `NSLock`, mutual exclusion, weak-reference deallocation, the `as?` cast and `rethrows`. This is code the macro emits, not code it runs; only the names of the class, its lock field, its slot field and its scoped-access method are modelled (`LockedWeakReferenceClass`), not their modifiers, types or attributes. The concurrency properties of the generated code are therefore not stated.
- The `MacroExpansionContext`, the `conformingTo` protocols and the `providingExtensionsOf` type. The expansions never use them.
- `DiagnosticsError(syntax:message:)` is generic over the node type. Every call site passes the macro's attribute node, so the model fixes the node type to `Attribute`.
- Sources/LockedWeakReferenceMacro/LockedWeakReferenceMacro.swift (plugin registration), Sources/LockedWeakReference/LockedWeakReference.swift (macro declarations), Package.swift and Sources/LockedWeakReferenceClient/main.swift are not part of this model. They hold wiring, build settings and a demo, and no transformation logic.
