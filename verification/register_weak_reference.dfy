/** The accessor expansion of `@RegisterWeakReference`: the lock-guarded getter and setter of one member. */
module RegisterWeakReferenceMacro {
  import opened Wrappers
  import opened Syntax
  import opened Diagnostics
  import opened Extensions

  /**
   * Nothing unless the declaration is an eligible variable; for an eligible one, always
   * `[get, set]`: the getter reads `_<pattern>` through the wrapper's scoped access and casts
   * to the type inside the first binding's `?`, the setter writes `newValue` through it.
   * It never throws.
   */
  function AccessorExpansion(node: Attribute, declaration: MemberDecl): (r: Result<seq<AccessorDecl>, DiagnosticsError>)
    ensures r.Ok?
    ensures r.value == [] || |r.value| == 2
    ensures |r.value| == 2 <==> declaration.VariableMember? && CanLockWeakReference(declaration.variable)
    ensures |r.value| == 2 ==>
              var first := declaration.variable.bindings[0];
              var backing := "_" + first.pattern;
              r.value[0] == AccessorDecl(KeywordToken(Get),
                              LockedRead(backing, LockedWeakReferenceClass.scopedAccess, first.typeAnnotation.value.wrappedType))
              && r.value[1] == AccessorDecl(KeywordToken(Set),
                                 LockedWrite(backing, LockedWeakReferenceClass.scopedAccess))
  {
    if !declaration.VariableMember? || !CanLockWeakReference(declaration.variable) then Ok([])
    else
      var varDecl := declaration.variable;
      match (PatternOf(varDecl), TypeOf(varDecl))
      case (Some(propertyName), Some(OptionalType(propertyType))) =>
        var accessorGetter := AccessorDecl(KeywordToken(Get),
          LockedRead("_" + propertyName, LockedWeakReferenceClass.scopedAccess, propertyType));
        var accessorSetter := AccessorDecl(KeywordToken(Set),
          LockedWrite("_" + propertyName, LockedWeakReferenceClass.scopedAccess));
        Ok([accessorGetter, accessorSetter])
      case _ => Ok([])
  }
}
