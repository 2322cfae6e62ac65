/**
 * Concrete cases of context normalisation, context compatibility and slug
 * resolution, stated over the general model.
 */
module ResolutionScenarios {
  import opened Wrappers
  import opened Contexts
  import opened AuthorizationMethods

  const Thing: string := "SomeThing"
  const Other: string := "OtherThing"

  /** A permission row with the given slug and context. */
  function PermissionAt(slug: string, ctx: ContextRef): Permission
  {
    Record(slug, ctx, PermissionFields(0, "Edit"))
  }

  /** nil, a context class and a context record normalise to the three canonical forms. */
  lemma ParseCanonicalForms(id: int)
    ensures Parse(NoContext) == ContextRef(None, None)
    ensures Parse(TypeOf("Context")) == ContextRef(Some("Context"), None)
    ensures Parse(InstanceOf("Context", id)) == ContextRef(Some("Context"), Some(id))
    ensures ToContext(ContextRef(Some("Context"), Some(id))) == InstanceOf("Context", id)
  {
  }

  /**
   * Compatibility is not symmetric: `(T, nil)` is usable at `(T, 1)` and `(T, 2)`,
   * `(T, 1)` is not usable at `(T, nil)`, `(T, 2)` or `(U, 1)`, and a global
   * target is usable anywhere; nil never is.
   */
  lemma VerifyTargetContextCases(ctx: ContextInput)
    ensures VerifyTargetContext(Some(PermissionAt("edit", ContextRef(Some(Thing), None))), InstanceOf(Thing, 1))
    ensures VerifyTargetContext(Some(PermissionAt("edit", ContextRef(Some(Thing), None))), InstanceOf(Thing, 2))
    ensures !VerifyTargetContext(Some(PermissionAt("edit", ContextRef(Some(Thing), Some(1)))), TypeOf(Thing))
    ensures !VerifyTargetContext(Some(PermissionAt("edit", ContextRef(Some(Thing), Some(1)))), InstanceOf(Thing, 2))
    ensures !VerifyTargetContext(Some(PermissionAt("edit", ContextRef(Some(Thing), Some(1)))), InstanceOf(Other, 1))
    ensures VerifyTargetContext(Some(PermissionAt("edit", Global)), ctx)
    ensures VerifyTargetContext(Some(PermissionAt("edit", Parse(ctx))), ctx)
    ensures !VerifyTargetContext<PermissionFields>(None, ctx)
  {
  }

  /**
   * With `edit` at `(T, 1)`, `(T, nil)` and globally, a request at `(T, 1)` gets
   * the instance row, one at `(T, 2)` the type row, and one at `(U, 1)` the global row.
   */
  lemma ThreeLevelPrecedence(underscore: string -> string)
    ensures var slug := underscore("edit");
            var inst := PermissionAt(slug, ContextRef(Some(Thing), Some(1)));
            var typ := PermissionAt(slug, ContextRef(Some(Thing), None));
            var glob := PermissionAt(slug, Global);
            var table := [glob, typ, inst];
            && TargetPermission(Slug("edit"), InstanceOf(Thing, 1), table, underscore) == Some(inst)
            && TargetPermission(Slug("edit"), InstanceOf(Thing, 2), table, underscore) == Some(typ)
            && TargetPermission(Slug("edit"), InstanceOf(Other, 1), table, underscore) == Some(glob)
  {
    var slug := underscore("edit");
    var inst := PermissionAt(slug, ContextRef(Some(Thing), Some(1)));
    var typ := PermissionAt(slug, ContextRef(Some(Thing), None));
    var glob := PermissionAt(slug, Global);
    var table := [glob, typ, inst];
    assert SlugUniquePerContext(table);
    ExactContextWins("edit", InstanceOf(Thing, 1), table, underscore, inst);
    TypeContextBeforeGlobal("edit", InstanceOf(Thing, 2), table, underscore, typ);
    var r := TargetPermission(Slug("edit"), InstanceOf(Other, 1), table, underscore);
    SlugTargetComplete("edit", InstanceOf(Other, 1), table, underscore, glob);
    UniqueRow(table, slug, Global, glob, r.value);
  }

  /**
   * With `edit` only at instance `c1`, a request at `c1` finds it and a request at
   * any other context finds nothing.
   */
  lemma InstanceOnlyPermission(underscore: string -> string, c1: int, other: ContextInput)
    requires Parse(other) != ContextRef(Some("Context"), Some(c1))
    ensures var p := PermissionAt(underscore("edit"), ContextRef(Some("Context"), Some(c1)));
            && TargetPermission(Slug("edit"), InstanceOf("Context", c1), [p], underscore) == Some(p)
            && TargetPermission(Slug("edit"), other, [p], underscore) == None
  {
  }

  /**
   * A record passed in directly is returned even where a slug lookup would pick
   * another row, and even where it would fail `verify_target_context`.
   */
  lemma ResolvedRecordBypassesLookup(underscore: string -> string)
    ensures var slug := underscore("admin");
            var inst := Record(slug, ContextRef(Some(Thing), Some(1)), RoleFields(1, "Admin", 100));
            var typ := Record(slug, ContextRef(Some(Thing), None), RoleFields(2, "Admin", 100));
            && TargetRole(Resolved(typ), InstanceOf(Thing, 1), [inst, typ], underscore) == Some(typ)
            && TargetRole(Slug("admin"), InstanceOf(Thing, 1), [inst, typ], underscore) == Some(inst)
            && TargetRole(Resolved(inst), TypeOf(Thing), [inst, typ], underscore) == Some(inst)
            && !VerifyTargetContext(Some(inst), TypeOf(Thing))
  {
  }

  /**
   * A row with an id but no type (which mass assignment can build) passes
   * `verify_target_context` at an instance with that id, yet no slug lookup ever
   * queries such a context from a normalised request, so the lookup misses it.
   */
  lemma IdWithoutTypeRowNotFound(underscore: string -> string)
    ensures var p := PermissionAt(underscore("edit"), ContextRef(None, Some(1)));
            && !WellFormed(p.context)
            && VerifyTargetContext(Some(p), InstanceOf(Thing, 1))
            && TargetPermission(Slug("edit"), InstanceOf(Thing, 1), [p], underscore) == None
  {
    var p := PermissionAt(underscore("edit"), ContextRef(None, Some(1)));
    SlugTargetNotFound("edit", InstanceOf(Thing, 1), [p], underscore);
  }
}
