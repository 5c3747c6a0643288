/** A GraphQL schema as both GraphQL front ends read it: up to three root
    operation types, each an ordered list of fields, a field with ordered
    arguments and an output type, and the type expressions built from
    non-null and list wrappers around named types. */
module GraphQLSchema {
  import opened Wrappers

  /** A type expression: `T!`, `[T]`, or a named object, scalar or other
      (interface, union, enum, input) type. */
  datatype GqlType =
    | NonNull(ofType: GqlType)
    | ListOf(ofType: GqlType)
    | ObjectType(name: string)
    | ScalarType(name: string)
    | OtherType(name: string)

  datatype Arg = Arg(name: string, argType: GqlType)

  /** A root-type field; `args` and `fieldType` are optional because one
      front end falls back when they are missing. */
  datatype Field = Field(name: string, args: Option<seq<Arg>>, fieldType: Option<GqlType>)

  datatype GqlSchema = GqlSchema(
    query: Option<seq<Field>>,
    mutation: Option<seq<Field>>,
    subscription: Option<seq<Field>>)

  datatype OperationKind = Query | Mutation | Subscription

  /** `"query"`, `"mutation"` or `"subscription"`. */
  function KindName(k: OperationKind): (r: string)
    ensures |r| >= 5
  {
    match k
    case Query => "query"
    case Mutation => "mutation"
    case Subscription => "subscription"
  }

  /** The position of a root kind in the order both front ends visit them. */
  function KindRank(k: OperationKind): (r: nat)
    ensures r < 3
  {
    match k
    case Query => 0
    case Mutation => 1
    case Subscription => 2
  }

  /** `String(type)`: `T!`, `[T]` or the type's name. */
  function TypeString(t: GqlType): string
  {
    match t
    case NonNull(inner) => TypeString(inner) + "!"
    case ListOf(inner) => "[" + TypeString(inner) + "]"
    case ObjectType(n) => n
    case ScalarType(n) => n
    case OtherType(n) => n
  }

  /** The root types in visiting order, each with its kind. */
  function Roots(schema: GqlSchema): (r: seq<(Option<seq<Field>>, OperationKind)>)
    ensures |r| == 3
    ensures forall i :: 0 <= i < 3 ==> KindRank(r[i].1) == i
  {
    [(schema.query, Query), (schema.mutation, Mutation), (schema.subscription, Subscription)]
  }

  /** The fields of one root, each with the root's kind; nothing for an
      absent root. */
  function RootSites(root: Option<seq<Field>>, kind: OperationKind): (r: seq<(OperationKind, Field)>)
    ensures root.None? ==> r == []
    ensures root.Some? ==> |r| == |root.value|
    ensures root.Some? ==> forall j :: 0 <= j < |r| ==> r[j] == (kind, root.value[j])
  {
    match root
    case None => []
    case Some(fields) => seq(|fields|, j requires 0 <= j < |fields| => (kind, fields[j]))
  }

  /** The fields of the given roots, root after root. */
  function SitesOf(roots: seq<(Option<seq<Field>>, OperationKind)>): seq<(OperationKind, Field)>
  {
    if roots == [] then []
    else SitesOf(roots[..|roots| - 1]) + RootSites(roots[|roots| - 1].0, roots[|roots| - 1].1)
  }

  /** Every field of every present root, query fields first, then mutation
      fields, then subscription fields. */
  function FieldSites(schema: GqlSchema): seq<(OperationKind, Field)>
  {
    SitesOf(Roots(schema))
  }

  function FieldCount(root: Option<seq<Field>>): nat
  {
    match root
    case None => 0
    case Some(fields) => |fields|
  }

  /** One site per field of each present root, in order of kind. */
  lemma FieldSitesShape(schema: GqlSchema)
    ensures var sites := FieldSites(schema);
      && |sites| == FieldCount(schema.query) + FieldCount(schema.mutation) + FieldCount(schema.subscription)
      && sites == RootSites(schema.query, Query) + RootSites(schema.mutation, Mutation)
                  + RootSites(schema.subscription, Subscription)
  {
    var r := Roots(schema);
    assert SitesOf(r[..1]) == RootSites(schema.query, Query) by {
      assert r[..1][..0] == [];
    }
    assert SitesOf(r[..2]) == SitesOf(r[..1]) + RootSites(schema.mutation, Mutation) by {
      assert r[..2][..1] == r[..1];
    }
    assert SitesOf(r) == SitesOf(r[..2]) + RootSites(schema.subscription, Subscription) by {
      assert r[..|r| - 1] == r[..2];
    }
  }

  /** Sites come in the order of their root kinds, and a site of a kind
      exists only when that root is present. */
  lemma FieldSitesOrdered(schema: GqlSchema)
    ensures var sites := FieldSites(schema);
      forall i, j :: 0 <= i < j < |sites| ==> KindRank(sites[i].0) <= KindRank(sites[j].0)
    ensures forall s :: s in FieldSites(schema) ==>
      match s.0
      case Query => schema.query.Some? && s.1 in schema.query.value
      case Mutation => schema.mutation.Some? && s.1 in schema.mutation.value
      case Subscription => schema.subscription.Some? && s.1 in schema.subscription.value
  {
    FieldSitesShape(schema);
    var q, m, u := RootSites(schema.query, Query), RootSites(schema.mutation, Mutation),
      RootSites(schema.subscription, Subscription);
    var sites := FieldSites(schema);
    assert sites == q + m + u;
    forall i, j | 0 <= i < j < |sites| ensures KindRank(sites[i].0) <= KindRank(sites[j].0) {
      if i < |q| {
        assert sites[i] == q[i];
      } else if i < |q| + |m| {
        assert sites[i] == m[i - |q|];
        if j < |q| + |m| {
          assert sites[j] == m[j - |q|];
        } else {
          assert sites[j] == u[j - |q| - |m|];
        }
      } else {
        assert sites[i] == u[i - |q| - |m|];
        assert sites[j] == u[j - |q| - |m|];
      }
    }
    forall s | s in sites
      ensures match s.0
        case Query => schema.query.Some? && s.1 in schema.query.value
        case Mutation => schema.mutation.Some? && s.1 in schema.mutation.value
        case Subscription => schema.subscription.Some? && s.1 in schema.subscription.value
    {
      var i :| 0 <= i < |sites| && sites[i] == s;
      if i < |q| {
        assert sites[i] == q[i];
      } else if i < |q| + |m| {
        assert sites[i] == m[i - |q|];
      } else {
        assert sites[i] == u[i - |q| - |m|];
      }
    }
  }
}
