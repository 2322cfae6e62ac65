/**
 * The context-chain resolver of `Allowables::ActiveRecord::AuthorizationMethods`:
 * turning a role or permission identifier plus a context into a stored record,
 * most specific context first, and checking that a record's own context is at
 * or above a requested one (instance below type below global).
 */
module AuthorizationMethods {
  import opened Wrappers
  import opened Contexts

  /** A stored role or permission: its slug, its own context and the entity's other columns. */
  datatype Record<A> = Record(slug: string, context: ContextRef, fields: A)

  datatype RoleFields = RoleFields(id: int, name: string, level: int)
  datatype PermissionFields = PermissionFields(id: int, name: string)

  type Role = Record<RoleFields>
  type Permission = Record<PermissionFields>

  /**
   * What a caller passes as a role or permission: a record of the right class
   * already, or anything whose `to_s` is the slug to look up.
   */
  datatype Identifier<A> = Resolved(record: Record<A>) | Slug(name: string)

  /** A table of roles or permissions, in primary-key order. */
  type Table<A> = seq<Record<A>>

  /** The row a `where(slug:, context_type:, context_id:)` query selects. */
  predicate Matches<A>(rec: Record<A>, slug: string, ctx: ContextRef) {
    rec.slug == slug && rec.context == ctx
  }

  /** Slugs are unique within each context: no two rows answer the same query. */
  ghost predicate SlugUniquePerContext<A>(table: Table<A>) {
    forall i, j :: 0 <= i < |table| && 0 <= j < |table| && i != j ==>
      !(table[i].slug == table[j].slug && table[i].context == table[j].context)
  }

  /** Row `i` answers the query and no earlier row does. */
  predicate FirstMatchAt<A>(table: Table<A>, i: int, slug: string, ctx: ContextRef) {
    && 0 <= i < |table|
    && Matches(table[i], slug, ctx)
    && forall j :: 0 <= j < i ==> !Matches(table[j], slug, ctx)
  }

  /**
   * `where(:slug => slug, :context_type => ctx.class_name, :context_id => ctx.id).first`:
   * nil exactly when no row matches, otherwise the first matching row.
   */
  function Where<A>(table: Table<A>, slug: string, ctx: ContextRef): (r: Option<Record<A>>)
    ensures r.None? <==> forall i :: 0 <= i < |table| ==> !Matches(table[i], slug, ctx)
    ensures r.Some? ==> exists i :: FirstMatchAt(table, i, slug, ctx) && table[i] == r.value
  {
    if table == [] then None
    else if Matches(table[0], slug, ctx) then
      assert FirstMatchAt(table, 0, slug, ctx);
      Some(table[0])
    else
      var rest := Where(table[1..], slug, ctx);
      assert forall i :: 1 <= i < |table| ==> table[i] == table[1..][i - 1];
      assert rest.Some? ==> exists i :: FirstMatchAt(table, i, slug, ctx) && table[i] == rest.value by {
        if rest.Some? {
          var i :| FirstMatchAt(table[1..], i, slug, ctx) && table[1..][i] == rest.value;
          assert FirstMatchAt(table, i + 1, slug, ctx);
        }
      }
      rest
  }

  /**
   * The contexts a slug lookup queries, most specific first: it starts at the
   * requested context, climbs strictly upwards at every step and always ends globally.
   */
  function Chain(ctx: ContextRef): (levels: seq<ContextRef>)
    ensures 1 <= |levels| <= 3 && levels[0] == ctx
    ensures levels[|levels| - 1] == Global
    ensures forall k :: 0 <= k < |levels| - 1 ==> Covers(levels[k + 1], levels[k]) && levels[k + 1] != levels[k]
  {
    [ctx]
    + (if ctx.id.Some? then [ContextRef(ctx.className, None)] else [])
    + (if ctx.className.Some? then [Global] else [])
  }

  /**
   * Reference definition of a chained lookup: the first row with the slug at the
   * first level of `levels` that has one.
   */
  function Search<A>(table: Table<A>, slug: string, levels: seq<ContextRef>): (r: Option<Record<A>>)
    ensures r.None? <==> forall i :: 0 <= i < |table| && table[i].slug == slug ==> table[i].context !in levels
    ensures r.Some? ==> r.value in table && r.value.slug == slug && r.value.context in levels
    decreases |levels|
  {
    if levels == [] then None
    else
      var hit := Where(table, slug, levels[0]);
      if hit.Some? then hit
      else
        var rest := Search(table, slug, levels[1..]);
        assert forall c :: c in levels ==> c == levels[0] || c in levels[1..];
        rest
  }

  /**
   * Earlier levels take precedence: once level `k` holds a row with the slug, the
   * search returns a row from level `k` or from a more specific one.
   */
  lemma {:induction false} SearchPrefersEarlier<A>(table: Table<A>, slug: string, levels: seq<ContextRef>, k: nat)
    requires k < |levels| && Where(table, slug, levels[k]).Some?
    ensures var r := Search(table, slug, levels);
            r.Some? && r.value.context in levels[..k + 1]
    decreases k
  {
    if Where(table, slug, levels[0]).None? {
      assert k != 0;
      assert levels[1..][k - 1] == levels[k];
      SearchPrefersEarlier(table, slug, levels[1..], k - 1);
      assert levels[1..][..k] == levels[1..k + 1];
    }
  }

  /**
   * `target_role` / `target_permission`: a record is returned unchanged; a slug
   * (after `underscore`) is looked up at the exact context, then at the context's
   * type if it has an id, then globally if it has a type. nil when nothing is found.
   */
  function Target<A>(ident: Identifier<A>, context: ContextInput, table: Table<A>,
                     underscore: string -> string): (r: Option<Record<A>>)
    ensures ident.Resolved? ==> r == Some(ident.record)
    ensures ident.Slug? ==> r == Search(table, underscore(ident.name), Chain(Parse(context)))
  {
    match ident
    case Resolved(rec) => Some(rec)
    case Slug(name) =>
      var ctx := Parse(context);
      var slug := underscore(name);
      var exact := Where(table, slug, ctx);
      var typed := if exact.None? && ctx.id.Some? then Where(table, slug, ContextRef(ctx.className, None)) else exact;
      var found := if typed.None? && ctx.className.Some? then Where(table, slug, Global) else typed;
      TargetIsChainSearch(table, slug, ctx);
      found
  }

  /** The three guarded queries of `target_role` are the chained search over `Chain(ctx)`. */
  lemma TargetIsChainSearch<A>(table: Table<A>, slug: string, ctx: ContextRef)
    ensures
      var exact := Where(table, slug, ctx);
      var typed := if exact.None? && ctx.id.Some? then Where(table, slug, ContextRef(ctx.className, None)) else exact;
      var found := if typed.None? && ctx.className.Some? then Where(table, slug, Global) else typed;
      found == Search(table, slug, Chain(ctx))
  {
    var typeLevel := ContextRef(ctx.className, None);
    var none: seq<ContextRef> := [];
    if ctx.id.Some? && ctx.className.Some? {
      assert Chain(ctx) == [ctx, typeLevel, Global];
      assert [ctx, typeLevel, Global][1..] == [typeLevel, Global];
      assert [typeLevel, Global][1..] == [Global];
      assert Search(table, slug, [Global][1..]) == Search(table, slug, none);
      var global := Search(table, slug, [Global]);
      assert Search(table, slug, [typeLevel, Global]) ==
        if Where(table, slug, typeLevel).Some? then Where(table, slug, typeLevel) else global;
    } else if ctx.id.Some? {
      assert Chain(ctx) == [ctx, typeLevel];
      assert [ctx, typeLevel][1..] == [typeLevel];
      assert Search(table, slug, [typeLevel][1..]) == Search(table, slug, none);
    } else if ctx.className.Some? {
      assert Chain(ctx) == [ctx, Global];
      assert [ctx, Global][1..] == [Global];
      assert Search(table, slug, [Global][1..]) == Search(table, slug, none);
    } else {
      assert Chain(ctx) == [ctx];
      assert Search(table, slug, [ctx][1..]) == Search(table, slug, none);
    }
  }

  /** `target_role`: `Target` over the roles table. */
  function TargetRole(role: Identifier<RoleFields>, context: ContextInput, roles: Table<RoleFields>,
                      underscore: string -> string): (r: Option<Role>)
    ensures role.Resolved? ==> r == Some(role.record)
    ensures role.Slug? && r.Some? ==> r.value in roles && VerifyTargetContext(r, context)
  {
    match role
    case Resolved(_) => Target(role, context, roles, underscore)
    case Slug(name) =>
      SlugTargetSound(name, context, roles, underscore);
      Target(role, context, roles, underscore)
  }

  /** `target_permission`: the same lookup over the permissions table. */
  function TargetPermission(permission: Identifier<PermissionFields>, context: ContextInput,
                            permissions: Table<PermissionFields>,
                            underscore: string -> string): (r: Option<Permission>)
    ensures permission.Resolved? ==> r == Some(permission.record)
    ensures permission.Slug? && r.Some? ==> r.value in permissions && VerifyTargetContext(r, context)
  {
    match permission
    case Resolved(_) => Target(permission, context, permissions, underscore)
    case Slug(name) =>
      SlugTargetSound(name, context, permissions, underscore);
      Target(permission, context, permissions, underscore)
  }

  /**
   * A target whose own context is `target` may be used at `requested`: each of its
   * fields is either unset or equal to the requested one.
   */
  predicate Covers(target: ContextRef, requested: ContextRef) {
    && (target.className.None? || target.className == requested.className)
    && (target.id.None? || target.id == requested.id)
  }

  /**
   * `verify_target_context`: false for nil; otherwise whether the target's own
   * context is the requested one or above it on its chain.
   */
  function VerifyTargetContext<A>(target: Option<Record<A>>, context: ContextInput): (ok: bool)
    ensures target.None? ==> !ok
    ensures target.Some? && target.value.context in Chain(Parse(context)) ==> ok
    ensures target.Some? && WellFormed(target.value.context) ==>
              (ok <==> target.value.context in Chain(Parse(context)))
  {
    if target.None? then false
    else
      CoversIffInChain(target.value.context, Parse(context));
      Covers(target.value.context, Parse(context))
  }

  /**
   * The compatibility test and the lookup chain agree: every level the lookup
   * queries covers the requested context, and a well-formed context that covers it
   * is one of those levels.
   */
  lemma CoversIffInChain(t: ContextRef, ctx: ContextRef)
    ensures t in Chain(ctx) ==> Covers(t, ctx)
    ensures WellFormed(t) ==> (Covers(t, ctx) <==> t in Chain(ctx))
  {
  }

  /** Whatever a slug lookup finds is a stored row with that slug, usable at the requested context. */
  lemma SlugTargetSound<A>(name: string, context: ContextInput, table: Table<A>,
                           underscore: string -> string)
    ensures var r := Target(Slug(name), context, table, underscore);
            r.Some? ==> r.value in table && r.value.slug == underscore(name) && VerifyTargetContext(r, context)
  {
  }

  /**
   * The lookup finds nothing exactly when no row with the slug sits at any level
   * of the context's chain; over a table of well-formed contexts, exactly when no
   * row with the slug passes `verify_target_context`.
   */
  lemma SlugTargetNotFound<A>(name: string, context: ContextInput, table: Table<A>,
                              underscore: string -> string)
    ensures Target(Slug(name), context, table, underscore).None? <==>
              forall i :: 0 <= i < |table| && table[i].slug == underscore(name) ==>
                table[i].context !in Chain(Parse(context))
    ensures (forall i :: 0 <= i < |table| ==> WellFormed(table[i].context)) ==>
              (Target(Slug(name), context, table, underscore).None? <==>
                forall i :: 0 <= i < |table| && table[i].slug == underscore(name) ==>
                  !VerifyTargetContext(Some(table[i]), context))
  {
  }

  /**
   * Most specific wins: a row with the slug at exactly the requested context is
   * preferred to type-level and global rows with the same slug.
   */
  lemma ExactContextWins<A>(name: string, context: ContextInput, table: Table<A>,
                            underscore: string -> string, rec: Record<A>)
    requires rec in table && Matches(rec, underscore(name), Parse(context))
    ensures var r := Target(Slug(name), context, table, underscore);
            r.Some? && r.value.context == Parse(context)
    ensures SlugUniquePerContext(table) ==> Target(Slug(name), context, table, underscore) == Some(rec)
  {
  }

  /**
   * With no row at the exact instance, a row at the instance's type is preferred
   * to a global one.
   */
  lemma TypeContextBeforeGlobal<A>(name: string, context: ContextInput, table: Table<A>,
                                   underscore: string -> string, rec: Record<A>)
    requires Parse(context).id.Some?
    requires forall i :: 0 <= i < |table| ==> !Matches(table[i], underscore(name), Parse(context))
    requires rec in table && Matches(rec, underscore(name), ContextRef(Parse(context).className, None))
    ensures var r := Target(Slug(name), context, table, underscore);
            r.Some? && r.value.context == ContextRef(Parse(context).className, None)
    ensures SlugUniquePerContext(table) ==> Target(Slug(name), context, table, underscore) == Some(rec)
  {
  }

  /** A global request considers global rows only. */
  lemma GlobalRequestFindsGlobal<A>(name: string, context: ContextInput, table: Table<A>,
                                    underscore: string -> string)
    requires Parse(context) == Global
    ensures var r := Target(Slug(name), context, table, underscore);
            r.Some? ==> r.value.context == Global
  {
  }

  /**
   * Completeness: a row with the slug and a well-formed context that would pass
   * `verify_target_context` is never missed; the lookup then finds a row (the
   * most specific one, which need not be `rec`).
   */
  lemma SlugTargetComplete<A>(name: string, context: ContextInput, table: Table<A>,
                              underscore: string -> string, rec: Record<A>)
    requires rec in table && rec.slug == underscore(name) && WellFormed(rec.context)
    requires VerifyTargetContext(Some(rec), context)
    ensures Target(Slug(name), context, table, underscore).Some?
  {
  }

  /** Under per-context slug uniqueness, two rows answering one query are the same row. */
  lemma UniqueRow<A>(table: Table<A>, slug: string, ctx: ContextRef, a: Record<A>, b: Record<A>)
    requires SlugUniquePerContext(table)
    requires a in table && b in table && Matches(a, slug, ctx) && Matches(b, slug, ctx)
    ensures a == b
  {
  }

  /**
   * The containment order instance below type below global: `Covers` is
   * reflexive, transitive and antisymmetric, and global covers every context.
   */
  lemma CoversIsPartialOrder(a: ContextRef, b: ContextRef, c: ContextRef)
    ensures Covers(a, a)
    ensures Covers(a, b) && Covers(b, c) ==> Covers(a, c)
    ensures Covers(a, b) && Covers(b, a) ==> a == b
    ensures Covers(Global, a)
  {
  }

  /**
   * `sql_is_or_equal`: the comparison keyword for a column condition,
   * `IS` for nil and `=` for a value.
   */
  function SqlIsOrEqual<T>(value: Option<T>): (op: string)
    ensures op == "IS" || op == "="
    ensures op == "IS" <==> value.None?
  {
    if value.None? then "IS" else "="
  }

  /**
   * SQL's reading of `column <op> value`: `IS` only accepts NULL on its right and
   * then tests for NULL; `=` is never true when either side is NULL.
   */
  predicate SqlHolds<T(==)>(column: Option<T>, op: string, value: Option<T>) {
    if op == "IS" then value.None? && column.None?
    else op == "=" && column.Some? && value.Some? && column == value
  }

  /**
   * With the keyword `sql_is_or_equal` picks, the SQL condition holds exactly when
   * the column equals the value, nil included; a plain `=` would miss NULL columns
   * and `IS` would match nothing for a value.
   */
  lemma SqlIsOrEqualIsEquality<T>(column: Option<T>, value: Option<T>)
    ensures SqlHolds(column, SqlIsOrEqual(value), value) <==> column == value
    ensures value.None? ==> !SqlHolds(value, "=", value)
    ensures value.Some? ==> !SqlHolds(value, "IS", value)
  {
  }
}
