/**
 * The normalised context a role, permission or authorization check is scoped to,
 * and the normalisation `Allowables::Context.parse` performs on whatever the
 * caller passes as a context.
 */
module Contexts {
  import opened Wrappers

  /**
   * A context reference `(class_name, id)`:
   * `(nil, nil)` is global, `(T, nil)` is the type T as a whole and
   * `(T, id)` is the single instance of T with that id.
   */
  datatype ContextRef = ContextRef(className: Option<string>, id: Option<int>)

  /** The global context `(nil, nil)`. */
  const Global: ContextRef := ContextRef(None, None)

  /** An id without a type names nothing: the three canonical forms all satisfy this. */
  predicate WellFormed(c: ContextRef) {
    c.id.Some? ==> c.className.Some?
  }

  /** The shapes a caller may pass where a context is expected. */
  datatype ContextInput =
    | NoContext                               // nil
    | TypeOf(name: string)                    // a context class such as `Context`
    | InstanceOf(className: string, id: int)  // a persisted record of a context class
    | Ref(ref: ContextRef)                    // an already-built context reference

  /**
   * `Allowables::Context.parse`: nil becomes global, a class becomes `(name, nil)`,
   * an instance becomes `(class name, id)`, and a built reference is kept as it is.
   * Every shape other than a built reference yields a well-formed context, and
   * `ToContext` gives that shape back.
   */
  function Parse(c: ContextInput): (r: ContextRef)
    ensures c.Ref? ==> r == c.ref
    ensures !c.Ref? ==> WellFormed(r) && ToContext(r) == c
  {
    match c
    case NoContext => Global
    case TypeOf(name) => ContextRef(Some(name), None)
    case InstanceOf(className, id) => ContextRef(Some(className), Some(id))
    case Ref(ref) => ref
  }

  /**
   * `to_context` on a stored context: global gives nil, a type gives the class,
   * an instance gives the record. Parsing the result gives the reference back.
   */
  function ToContext(c: ContextRef): (r: ContextInput)
    requires WellFormed(c)
    ensures !r.Ref?
    ensures r.NoContext? <==> c == Global
    ensures r.TypeOf? <==> c.className.Some? && c.id.None?
    ensures r.InstanceOf? <==> c.id.Some?
  {
    match c.className
    case None => NoContext
    case Some(name) =>
      match c.id
      case None => TypeOf(name)
      case Some(id) => InstanceOf(name, id)
  }

  /** Normalising what `to_context` returns gives the stored context back. */
  lemma ParseRoundTrip(c: ContextRef)
    requires WellFormed(c)
    ensures Parse(ToContext(c)) == c
  {
  }

  /** Normalisation is idempotent: parsing an already-built reference changes nothing. */
  lemma ParseIdempotent(c: ContextInput)
    ensures Parse(Ref(Parse(c))) == Parse(c)
  {
  }
}
