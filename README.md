# Context-chain resolution in zuul's ActiveRecord authorization methods

This project models, in Dafny, how zuul (the `Allowables::ActiveRecord` authorization
mixin) turns a role or permission identifier plus a context into a stored Role or
Permission, and how it decides whether a role or permission may be used within a
context.

- A **context** is a pair `(class_name, id)`: `(nil, nil)` is global, `(T, nil)` is the
  type `T`, `(T, id)` one instance of `T` (`Contexts.ContextRef`). Whatever a caller
  passes as a context (nil, a context class, a context record, or an already-built
  reference) is normalised first (`Contexts.Parse`).
- **`target_role` / `target_permission`** return a record unchanged, and otherwise look
  the underscored slug up at the exact context, then at `(T, nil)` if the context has an
  id, then at `(nil, nil)` if it has a type; the first hit wins and nil means not found
  (`AuthorizationMethods.Target`, instantiated as `TargetRole` and `TargetPermission`).
  Both source methods are the same algorithm over two tables, so the model defines it
  once, generically over the entity's own columns, and every lemma about `Target`
  holds for roles and for permissions alike.
- **`verify_target_context`** is false for nil and otherwise true when each field of the
  target's own context is unset or equal to the requested one
  (`AuthorizationMethods.VerifyTargetContext`).

The lookups queried for a context form its *chain* (`AuthorizationMethods.Chain`);
`AuthorizationMethods.Search` is a reference definition of "first row at the first level
of a chain that has one", and `Target` is proved equal to it. The fieldwise test of
line 145 is the helper predicate `AuthorizationMethods.Covers`, which
`VerifyTargetContext` applies after normalising the context. It is proved to agree with
the chain (`CoversIffInChain`). From this follow soundness of the lookup with respect
to `verify_target_context` for every row, and completeness for rows whose context is
well formed, meaning no id without a type. A row with an id but no type passes
`verify_target_context` at an instance with that id, yet the lookup never queries its
context, so completeness fails for such rows (`ResolutionScenarios.IdWithoutTypeRowNotFound`).

A table is a sequence of rows; `where(...).first` is the first row of that sequence
whose slug and context equal the query (`AuthorizationMethods.Where`). The row order
is the model's choice (the order in which the database hands rows back is not fixed
here), and it is observable only when two rows share a slug and a context, which slug
uniqueness per context rules out. Slug uniqueness
within a context (enforced by the model's validation) is the table predicate
`SlugUniquePerContext`, used as a precondition only where a lemma names one particular row.
ActiveSupport's `String#underscore` is a function parameter `underscore`, applied to the
identifier once and used in all three queries.

## Model

| member | source | states |
|---|---|---|
| Contexts.Parse | spec/zuul/active_record/permission_spec.rb:168-178 | nil, a class and an instance normalise to well-formed `(nil,nil)`, `(T,nil)`, `(T,id)` from which `to_context` recovers the input; a built reference is kept |
| Contexts.ToContext | spec/zuul/active_record/permission_spec.rb:133-142 | `to_context` gives nil exactly for global, the class exactly for a type context, an instance exactly when an id is set |
| Contexts.ParseRoundTrip | spec/zuul/active_record/permission_spec.rb:133-178 | normalising what `to_context` returns gives every well-formed stored context back |
| Contexts.ParseIdempotent | spec/zuul/active_record/permission_spec.rb:164-178 | normalising an already-normalised context, passed as a built reference, changes nothing for every input shape |
| AuthorizationMethods.Where | lib/allowables/active_record.rb:110 | `where(...).first` is nil exactly when no row has the slug and context, otherwise the first such row of the table |
| AuthorizationMethods.Chain | lib/allowables/active_record.rb:110-112 | the levels queried start at the requested context, each next level strictly covers the previous one, and the last is global |
| AuthorizationMethods.Search | lib/allowables/active_record.rb:110-113 | the chained search is nil exactly when no row with the slug sits at any level; a hit is a stored row with the slug at one of the levels |
| AuthorizationMethods.SearchPrefersEarlier | lib/allowables/active_record.rb:110-112 | once a level holds a row with the slug, the search returns a row from that level or a more specific one |
| AuthorizationMethods.Target | lib/allowables/active_record.rb:106-131 | a record identifier is returned unchanged; a slug yields the chained search over exact, then type (only with an id), then global (only with a type) |
| AuthorizationMethods.TargetIsChainSearch | lib/allowables/active_record.rb:110-113 | the three guarded or-assign queries compute exactly the search over the context's chain |
| AuthorizationMethods.TargetRole | lib/allowables/active_record.rb:106-114 | a Role is returned unchanged whatever the context and table; a role found by slug is stored and passes `verify_target_context` at the same context |
| AuthorizationMethods.TargetPermission | lib/allowables/active_record.rb:124-132 | the same as `target_role` over the permissions table |
| AuthorizationMethods.VerifyTargetContext | lib/allowables/active_record.rb:142-146 | false for nil; true for any level of the requested context's chain; for a well-formed target context, true exactly at those levels |
| AuthorizationMethods.CoversIffInChain | lib/allowables/active_record.rb:134-145 | every context the lookup queries passes the compatibility test, and a well-formed context passing it is one the lookup queries |
| AuthorizationMethods.SlugTargetSound | lib/allowables/active_record.rb:110-112 | whatever a slug lookup returns is a stored row with the underscored slug that passes `verify_target_context` for the same context |
| AuthorizationMethods.SlugTargetNotFound | lib/allowables/active_record.rb:110-113 | a slug lookup is nil exactly when no row with the slug lies on the context's chain; over well-formed rows, exactly when no row with the slug passes `verify_target_context` |
| AuthorizationMethods.ExactContextWins | lib/allowables/active_record.rb:110-112 | a row with the slug at exactly the requested context is chosen over type-level and global ones (that very row when slugs are unique per context) |
| AuthorizationMethods.TypeContextBeforeGlobal | lib/allowables/active_record.rb:111-112 | with no exact row and an id in the context, a `(T, nil)` row is chosen over a global one |
| AuthorizationMethods.GlobalRequestFindsGlobal | lib/allowables/active_record.rb:111-112 | a `(nil, nil)` request returns only global rows |
| AuthorizationMethods.SlugTargetComplete | lib/allowables/active_record.rb:110-113 | if some row with the slug and a well-formed context passes `verify_target_context`, the slug lookup finds a row |
| AuthorizationMethods.UniqueRow | spec/zuul/active_record/permission_spec.rb:69-84 | with slugs unique per context, two rows answering the same query are the same row |
| AuthorizationMethods.CoversIsPartialOrder | lib/allowables/active_record.rb:135-139 | the compatibility relation is reflexive, transitive and antisymmetric, with global above every context |
| AuthorizationMethods.SqlIsOrEqual | lib/allowables/active_record.rb:148-152 | the keyword is `IS` exactly for nil and `=` for a value |
| AuthorizationMethods.SqlIsOrEqualIsEquality | lib/allowables/active_record.rb:148-152 | under SQL semantics (`IS` only before NULL, `=` never true on NULL) the chosen keyword makes the condition hold exactly when column and value are equal, nil included; `=` fails for NULL and `IS` for a value |
| ResolutionScenarios.ParseCanonicalForms | spec/zuul/active_record/permission_spec.rb:168-178 | nil, `Context` and a `Context` record normalise to `(nil,nil)`, `("Context",nil)`, `("Context",id)` |
| ResolutionScenarios.VerifyTargetContextCases | lib/allowables/active_record.rb:137-145 | `(T,nil)` is usable at `(T,1)` and `(T,2)`; `(T,1)` is not usable at `(T,nil)`, `(T,2)`, `(U,1)`; global usable anywhere; own context always usable; nil never |
| ResolutionScenarios.ThreeLevelPrecedence | lib/allowables/active_record.rb:128-131 | with the slug at `(T,1)`, `(T,nil)` and global, requests at `(T,1)`, `(T,2)`, `(U,1)` get the instance, type and global rows |
| ResolutionScenarios.InstanceOnlyPermission | lib/allowables/active_record.rb:127-131 | a permission stored only at instance `c1` is found at `c1` and not found at any other context |
| ResolutionScenarios.IdWithoutTypeRowNotFound | lib/allowables/active_record.rb:128-130 | a row at `(nil, 1)` passes `verify_target_context` at `(T, 1)` (line 145) but the lookup at `(T, 1)` returns nil, because no guarded query asks for `(nil, 1)` |
| ResolutionScenarios.ResolvedRecordBypassesLookup | lib/allowables/active_record.rb:100-107 | a record passed in is returned even when the slug lookup would pick another row, and even when it fails `verify_target_context` there |

## Left out

- The `acts_as_authorization_*` class macros, `prepare_join_classes`, the `@auth_config` configuration and the module-inclusion plumbing (lib/allowables/active_record.rb:12-96): runtime class configuration, not behaviour.
- The `acts_as_authorization_*?` predicates (lib/allowables/active_record.rb:58-82): Ruby ancestor inspection; the model's generic `Identifier` makes the "is already a Role" test a constructor match instead.
- SQL itself: a table is a sequence of rows and a query the first row equal on slug and context; `sql_is_or_equal` is modelled only as the keyword choice and its meaning under NULL semantics.
- `String#underscore` and `to_s`: `underscore` is a parameter, so every property holds for any normalisation applied the same way to all three queries.
- `Allowables::Context.parse` and `to_context` are not part of this model's source; `Contexts.Parse` and `Contexts.ToContext` follow the behaviour the permission model's tests pin down. A built reference with an id but no type is kept as it is, and the lookup then queries it and global, as the guards at lines 111-112 dictate.
- `has_role?`, `has_permission?`, `assign_role`, `allowed?`, `allowed_to?`, revocation and cascade deletion: their implementations (the context and subject modules) are not part of this model.
- Slug format and presence validation, mass assignment and association reflection: ORM validators and associations. Slug uniqueness per context is kept only as the table predicate `SlugUniquePerContext`.
- The migration template lib/generators/zuul/templates/permission_role.rb: schema generation, no logic.
