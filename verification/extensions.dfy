/**
 * The structural predicates every expansion phase shares: the declaration-kind tests,
 * the eligibility predicate `CanLockWeakReference` with its five parts, the accessor
 * and attribute lookups, and the constructor of a single-diagnostic error.
 */
module Extensions {
  import opened Wrappers
  import opened Syntax
  import opened Diagnostics

  // ---------------------------------------------------------------- kind tests

  predicate IsClass(d: DeclGroup) { d.kind == ClassKind }
  predicate IsActor(d: DeclGroup) { d.kind == ActorKind }
  predicate IsEnum(d: DeclGroup) { d.kind == EnumKind }
  predicate IsStruct(d: DeclGroup) { d.kind == StructKind }

  // ---------------------------------------------------------------- token searches

  /** `tokens.contains(where: p)`. */
  function TokensContain(tokens: seq<TokenKind>, p: TokenKind -> bool): (r: bool)
    ensures r <==> exists j :: 0 <= j < |tokens| && p(tokens[j])
  {
    if tokens == [] then false
    else p(tokens[0]) || TokensContain(tokens[1..], p)
  }

  /** `modifiers.contains { $0.tokens.contains(where: p) }`. */
  function ModifiersContain(modifiers: seq<Modifier>, p: TokenKind -> bool): (r: bool)
    ensures r <==> exists i, j :: 0 <= i < |modifiers| && 0 <= j < |modifiers[i]| && p(modifiers[i][j])
  {
    if modifiers == [] then false
    else
      var rest := ModifiersContain(modifiers[1..], p);
      assert rest ==> exists i, j :: 0 <= i < |modifiers| && 0 <= j < |modifiers[i]| && p(modifiers[i][j]) by {
        if rest {
          var i, j :| 0 <= i < |modifiers[1..]| && 0 <= j < |modifiers[1..][i]| && p(modifiers[1..][i][j]);
          assert modifiers[1..][i] == modifiers[i + 1];
        }
      }
      TokensContain(modifiers[0], p) || rest
  }

  // ---------------------------------------------------------------- the five parts of eligibility

  /** The annotated type of the first binding, if any. */
  function TypeOf(v: VariableDecl): Option<TypeSyntax>
  {
    if v.bindings == [] then None else v.bindings[0].typeAnnotation
  }

  /** The pattern of the first binding, if any. */
  function PatternOf(v: VariableDecl): Option<string>
  {
    if v.bindings == [] then None else Some(v.bindings[0].pattern)
  }

  /** Only the first binding's annotation is consulted, and only `T?` counts: no annotation and `T!` do not. */
  function IsOptional(v: VariableDecl): (r: bool)
    ensures r <==> |v.bindings| > 0 && v.bindings[0].typeAnnotation.Some?
                   && v.bindings[0].typeAnnotation.value.OptionalType?
  {
    match TypeOf(v)
    case Some(OptionalType(_)) => true
    case _ => false
  }

  /** Some modifier is spelled with the `weak` keyword. */
  function IsWeak(v: VariableDecl): (r: bool)
    ensures r <==> exists i, j :: 0 <= i < |v.modifiers| && 0 <= j < |v.modifiers[i]|
                                  && v.modifiers[i][j] == KeywordToken(Weak)
  {
    ModifiersContain(v.modifiers, t => t == KeywordToken(Weak))
  }

  /**
   * As written: some modifier holds a token that is neither `static` nor `class`.
   * A declaration with no modifiers is therefore never an instance member, and a
   * `static` next to any other modifier does not make it a type member.
   */
  function IsInstance(v: VariableDecl): (r: bool)
    ensures r <==> exists i, j :: 0 <= i < |v.modifiers| && 0 <= j < |v.modifiers[i]|
                                  && v.modifiers[i][j] != KeywordToken(Static)
                                  && v.modifiers[i][j] != KeywordToken(Class)
    ensures v.modifiers == [] ==> !r
  {
    ModifiersContain(v.modifiers, t => t != KeywordToken(Static) && t != KeywordToken(Class))
  }

  // ---------------------------------------------------------------- accessors

  /** The explicit accessor list of a binding; no block and an implicit getter give none. */
  function ExplicitList(b: PatternBinding): seq<AccessorDecl>
  {
    match b.accessorBlock
    case Some(Accessors(list)) => list
    case _ => []
  }

  /** `bindings.compactMap { explicit accessor list }.flatMap { $0 }`. */
  function ExplicitAccessors(bindings: seq<PatternBinding>): (r: seq<AccessorDecl>)
    ensures forall a :: a in r <==>
      exists i :: 0 <= i < |bindings| && bindings[i].accessorBlock.Some?
                  && bindings[i].accessorBlock.value.Accessors?
                  && a in bindings[i].accessorBlock.value.list
  {
    if bindings == [] then []
    else
      var rest := ExplicitAccessors(bindings[1..]);
      assert forall i :: 0 <= i < |bindings[1..]| ==> bindings[1..][i] == bindings[i + 1];
      ExplicitList(bindings[0]) + rest
  }

  /** One binding contributes exactly its own explicit accessor list. */
  lemma ExplicitAccessorsSingleton(b: PatternBinding)
    ensures ExplicitAccessors([b]) == ExplicitList(b)
  {
    assert [b][1..] == [];
  }

  /** Accessors are collected binding by binding, so they come in binding order. */
  lemma {:induction false} ExplicitAccessorsConcat(xs: seq<PatternBinding>, ys: seq<PatternBinding>)
    ensures ExplicitAccessors(xs + ys) == ExplicitAccessors(xs) + ExplicitAccessors(ys)
  {
    if xs == [] {
      assert xs + ys == ys;
    } else {
      assert (xs + ys)[1..] == xs[1..] + ys;
      ExplicitAccessorsConcat(xs[1..], ys);
    }
  }

  /** `accessors.compactMap { p($0.accessorSpecifier) ? $0 : nil }`: the matching accessors, in order. */
  function Filter(accessors: seq<AccessorDecl>, p: TokenKind -> bool): (r: seq<AccessorDecl>)
    ensures forall a :: a in r <==> a in accessors && p(a.accessorSpecifier)
    ensures |r| <= |accessors|
  {
    if accessors == [] then []
    else if p(accessors[0].accessorSpecifier) then [accessors[0]] + Filter(accessors[1..], p)
    else Filter(accessors[1..], p)
  }

  /** Filtering is taken piecewise, so the kept accessors stay in their original order. */
  lemma {:induction false} FilterConcat(xs: seq<AccessorDecl>, ys: seq<AccessorDecl>, p: TokenKind -> bool)
    ensures Filter(xs + ys, p) == Filter(xs, p) + Filter(ys, p)
  {
    if xs == [] {
      assert xs + ys == ys;
    } else {
      assert (xs + ys)[1..] == xs[1..] + ys;
      FilterConcat(xs[1..], ys, p);
    }
  }

  /** A predicate every specifier satisfies keeps the whole list. */
  lemma {:induction false} FilterKeepsAll(xs: seq<AccessorDecl>, p: TokenKind -> bool)
    requires forall k :: 0 <= k < |xs| ==> p(xs[k].accessorSpecifier)
    ensures Filter(xs, p) == xs
  {
    if xs != [] {
      FilterKeepsAll(xs[1..], p);
    }
  }

  /** The accessors satisfying `p` among all bindings' explicit accessor lists. */
  function AccessorsMatching(v: VariableDecl, p: TokenKind -> bool): (r: seq<AccessorDecl>)
    ensures forall a :: a in r <==>
      p(a.accessorSpecifier)
      && exists i :: 0 <= i < |v.bindings| && v.bindings[i].accessorBlock.Some?
                     && v.bindings[i].accessorBlock.value.Accessors?
                     && a in v.bindings[i].accessorBlock.value.list
  {
    Filter(ExplicitAccessors(v.bindings), p)
  }

  /** Splitting the bindings splits the result: earlier bindings' matching accessors come first. */
  lemma AccessorsMatchingConcat(v: VariableDecl, xs: seq<PatternBinding>, ys: seq<PatternBinding>, p: TokenKind -> bool)
    requires v.bindings == xs + ys
    ensures AccessorsMatching(v, p)
            == AccessorsMatching(v.(bindings := xs), p) + AccessorsMatching(v.(bindings := ys), p)
  {
    ExplicitAccessorsConcat(xs, ys);
    FilterConcat(ExplicitAccessors(xs), ExplicitAccessors(ys), p);
  }

  /** A binding that reads as computed on its own: an implicit getter, or a `get` in its accessor list. */
  ghost predicate DeclaresGetter(b: PatternBinding)
  {
    match b.accessorBlock
    case None => false
    case Some(Getter(_)) => true
    case Some(Accessors(list)) => exists k :: 0 <= k < |list| && list[k].accessorSpecifier == KeywordToken(Get)
  }

  /**
   * Some `get` accessor in an explicit list, or else some implicit getter. A block
   * holding only `set`, `willSet` or `didSet` does not make the variable computed.
   */
  function IsComputed(v: VariableDecl): (r: bool)
    ensures r <==> exists i :: 0 <= i < |v.bindings| && DeclaresGetter(v.bindings[i])
  {
    var gets := AccessorsMatching(v, t => t == KeywordToken(Get));
    if |gets| > 0 then
      assert gets[0] in gets;
      true
    else
      exists i :: 0 <= i < |v.bindings| && v.bindings[i].accessorBlock.Some? && v.bindings[i].accessorBlock.value.Getter?
  }

  /** The binding specifier is `let`. */
  predicate IsImmutable(v: VariableDecl)
  {
    v.bindingSpecifier == KeywordToken(Let)
  }

  /**
   * The eligibility predicate shared by all phases. Because a `weak` token is neither
   * `static` nor `class`, the instance test never decides anything once the weak test passed.
   */
  function CanLockWeakReference(v: VariableDecl): (r: bool)
    ensures r <==> IsOptional(v) && IsWeak(v) && !IsComputed(v) && !IsImmutable(v)
    ensures r ==> PatternOf(v).Some? && TypeOf(v).Some? && TypeOf(v).value.OptionalType?
  {
    WeakImpliesInstance(v);
    IsOptional(v)
    && IsWeak(v)
    && IsInstance(v)
    && !IsComputed(v)
    && !IsImmutable(v)
  }

  /** Every `weak` variable counts as an instance member. */
  lemma WeakImpliesInstance(v: VariableDecl)
    ensures IsWeak(v) ==> IsInstance(v)
  {
  }

  /**
   * As written, `static weak var x: T?` is eligible: the `weak` token already satisfies the
   * instance test, so the `static` beside it is never looked at.
   */
  lemma StaticWeakVariableIsEligible(x: string, t: TypeSyntax)
    ensures CanLockWeakReference(
              VariableDecl([], [[KeywordToken(Static)], [KeywordToken(Weak)]], KeywordToken(Var),
                           [PatternBinding(x, Some(OptionalType(t)), None)]))
  {
  }

  /** A `let` member is never eligible, whatever else it carries. */
  lemma ImmutableIsNeverEligible(v: VariableDecl)
    requires IsImmutable(v)
    ensures !CanLockWeakReference(v)
  {
  }

  // ---------------------------------------------------------------- attributes

  /** The early-return search over an attribute list: a plain attribute named exactly `[name]`. */
  function FindMacroApplication(attributes: seq<AttributeListElement>, name: string): (r: bool)
    ensures r <==> exists i :: 0 <= i < |attributes| && attributes[i] == PlainAttribute(Attribute([Identifier(name)]))
  {
    if attributes == [] then false
    else
      match attributes[0]
      case PlainAttribute(attr) =>
        attr.attributeName == [Identifier(name)] || FindMacroApplication(attributes[1..], name)
      case IfConfigClause(_) => FindMacroApplication(attributes[1..], name)
  }

  /** The variable carries `@<name>` as one of its own attributes; `#if` clauses are not looked into. */
  function HasMacroApplication(v: VariableDecl, name: string): (r: bool)
    ensures r <==> PlainAttribute(Attribute([Identifier(name)])) in v.attributes
  {
    FindMacroApplication(v.attributes, name)
  }

  // ---------------------------------------------------------------- errors

  /** The error thrown by an expansion: exactly one diagnostic, at `syntax`, carrying `message`. */
  function DiagnosticsErrorAt(syntax: Attribute, message: string): (e: DiagnosticsError)
    ensures |e.diagnostics| == 1
    ensures e.diagnostics[0].node == syntax
    ensures e.diagnostics[0].message.message == message
    ensures WellFormedError(e)
  {
    DiagnosticsError([Diagnostic(syntax, MakeDiagnostic(message))])
  }
}
