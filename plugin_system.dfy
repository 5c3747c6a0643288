/** The plugin registry and dispatch of src/core/pluginSystem.ts: a
    module-level list that refuses a second plugin of the same name, and the
    choice of plugin from a schema file's extension. */
module PluginSystem {
  import opened Wrappers
  import opened Text
  import opened FileUtils

  /** A code-generation plugin. `handler` stands for its `match` and `run`
      functions, which dispatch never calls but which tell two plugins of
      the same name apart. */
  datatype Plugin = Plugin(name: string, handler: nat)

  /** `plugins.some((p) => p.name === name)`. */
  predicate HasName(plugins: seq<Plugin>, name: string) {
    exists i :: 0 <= i < |plugins| && plugins[i].name == name
  }

  /** No two registered plugins share a name. */
  predicate DistinctNames(plugins: seq<Plugin>) {
    forall i, j :: 0 <= i < j < |plugins| ==> plugins[i].name != plugins[j].name
  }

  /** `plugins.find((p) => p.name === name)`: a registered plugin of that
      name, the first one, when there is one. */
  function Find(plugins: seq<Plugin>, name: string): (r: Option<Plugin>)
    ensures r.None? <==> !HasName(plugins, name)
    ensures r.Some? ==> r.value in plugins && r.value.name == name
  {
    if plugins == [] then None
    else if plugins[0].name == name then Some(plugins[0])
    else
      assert forall i :: 1 <= i < |plugins| ==> plugins[i] == plugins[1..][i - 1];
      Find(plugins[1..], name)
  }

  /** In a registry of distinct names, the plugin found for a name is the
      one plugin of the registry that has it. */
  lemma FindDistinct(plugins: seq<Plugin>, name: string, p: Plugin)
    requires DistinctNames(plugins)
    ensures Find(plugins, name) == Some(p) <==> p in plugins && p.name == name
  {
    if p in plugins && p.name == name {
      var k :| 0 <= k < |plugins| && plugins[k] == p;
      var r := Find(plugins, name).value;
      var i :| 0 <= i < |plugins| && plugins[i] == r;
      if i != k {
        assert plugins[i].name == plugins[k].name;
      }
    }
  }

  const GraphQLPluginMissing: string := "\U{274C} GraphQL plugin not registered"
  const RestPluginMissing: string := "\U{274C} REST plugin not registered"

  /** The error for a duplicate registration. */
  function AlreadyRegistered(name: string): string {
    "Plugin with name \"" + name + "\" already registered"
  }

  /** The error for an extension no plugin handles. */
  function UnknownExtension(ext: string): string {
    "\U{274C} Unknown schema extension: " + ext
  }

  predicate IsGraphQLExtension(ext: string) {
    ext == ".graphql" || ext == ".gql"
  }

  predicate IsRestExtension(ext: string) {
    ext == ".yaml" || ext == ".yml" || ext == ".json"
  }

  /** `detectPlugin(schemaPath)` over the registry `plugins`: the lower-cased
      POSIX extension picks the plugin named `graphql` or `rest`; a missing
      plugin and an unknown extension are errors (the source throws). */
  function DetectIn(plugins: seq<Plugin>, schemaPath: string): Result<Plugin, string>
  {
    var ext := Lower(Extname(schemaPath));
    if IsGraphQLExtension(ext) then
      match Find(plugins, "graphql")
      case None => Failure(GraphQLPluginMissing)
      case Some(p) => Success(p)
    else if IsRestExtension(ext) then
      match Find(plugins, "rest")
      case None => Failure(RestPluginMissing)
      case Some(p) => Success(p)
    else Failure(UnknownExtension(ext))
  }

  /** `.graphql` and `.gql`, in any case, select the `graphql` plugin, and
      fail exactly when none is registered. */
  lemma DetectGraphQL(plugins: seq<Plugin>, schemaPath: string)
    requires IsGraphQLExtension(Lower(Extname(schemaPath)))
    ensures var r := DetectIn(plugins, schemaPath);
      && (r.Failure? <==> !HasName(plugins, "graphql"))
      && (r.Failure? ==> r.error == GraphQLPluginMissing)
      && (r.Success? ==> r.value in plugins && r.value.name == "graphql")
  {
  }

  /** `.yaml`, `.yml` and `.json`, in any case, select the `rest` plugin,
      and fail exactly when none is registered. */
  lemma DetectRest(plugins: seq<Plugin>, schemaPath: string)
    requires IsRestExtension(Lower(Extname(schemaPath)))
    ensures var r := DetectIn(plugins, schemaPath);
      && (r.Failure? <==> !HasName(plugins, "rest"))
      && (r.Failure? ==> r.error == RestPluginMissing)
      && (r.Success? ==> r.value in plugins && r.value.name == "rest")
  {
  }

  /** Any other extension, the empty one included, is an error naming it,
      whatever is registered. */
  lemma DetectUnknown(plugins: seq<Plugin>, schemaPath: string)
    requires var ext := Lower(Extname(schemaPath)); !IsGraphQLExtension(ext) && !IsRestExtension(ext)
    ensures DetectIn(plugins, schemaPath) == Failure(UnknownExtension(Lower(Extname(schemaPath))))
  {
  }

  /** A plugin is chosen only for its name's extensions, and only from the
      registry. */
  lemma DetectChoosesByName(plugins: seq<Plugin>, schemaPath: string)
    ensures var r := DetectIn(plugins, schemaPath);
      var ext := Lower(Extname(schemaPath));
      r.Success? ==> (&& r.value in plugins
                      && ((r.value.name == "graphql" && IsGraphQLExtension(ext))
                          || (r.value.name == "rest" && IsRestExtension(ext))))
  {
  }

  /** Registration order does not matter: registries of distinct names
      holding the same plugins dispatch every path alike. */
  lemma DetectOrderIrrelevant(a: seq<Plugin>, b: seq<Plugin>, schemaPath: string)
    requires DistinctNames(a) && DistinctNames(b)
    requires forall p :: p in a <==> p in b
    ensures DetectIn(a, schemaPath) == DetectIn(b, schemaPath)
  {
    SameFind(a, b, "graphql");
    SameFind(a, b, "rest");
  }

  lemma SameFind(a: seq<Plugin>, b: seq<Plugin>, name: string)
    requires DistinctNames(a) && DistinctNames(b)
    requires forall p :: p in a <==> p in b
    ensures Find(a, name) == Find(b, name)
  {
    match Find(a, name)
    case Some(p) =>
      FindDistinct(a, name, p);
      FindDistinct(b, name, p);
    case None =>
      if Find(b, name).Some? {
        var p := Find(b, name).value;
        FindDistinct(b, name, p);
        FindDistinct(a, name, p);
      }
  }

  /** Appending a plugin of a new name leaves every other lookup as it was
      and makes the new plugin the one found under its name. */
  lemma {:induction false} FindAfterAppend(plugins: seq<Plugin>, p: Plugin, name: string)
    requires !HasName(plugins, p.name)
    ensures Find(plugins + [p], name) == if name == p.name then Some(p) else Find(plugins, name)
  {
    var q := plugins + [p];
    if plugins != [] {
      assert q[0] == plugins[0];
      assert q[1..] == plugins[1..] + [p];
      if plugins[0].name != name {
        assert !HasName(plugins[1..], p.name) by {
          assert forall i :: 0 <= i < |plugins[1..]| ==> plugins[1..][i] == plugins[i + 1];
        }
        FindAfterAppend(plugins[1..], p, name);
      } else {
        assert plugins[0].name != p.name;
      }
    }
  }

  /** The module-level `plugins` array. */
  class Registry {
    var plugins: seq<Plugin>

    ghost predicate Valid()
      reads this
    {
      DistinctNames(plugins)
    }

    constructor()
      ensures plugins == [] && Valid()
    {
      plugins := [];
    }

    /** `registerPlugin(plugin)`: an error, with the registry unchanged, when
        the name is taken; otherwise the plugin goes at the end. */
    method RegisterPlugin(plugin: Plugin) returns (r: Result<(), string>)
      requires Valid()
      modifies this
      ensures Valid()
      ensures r.Failure? <==> HasName(old(plugins), plugin.name)
      ensures r.Failure? ==> plugins == old(plugins) && r.error == AlreadyRegistered(plugin.name)
      ensures r.Success? ==> plugins == old(plugins) + [plugin]
    {
      if HasName(plugins, plugin.name) {
        return Failure(AlreadyRegistered(plugin.name));
      }
      plugins := plugins + [plugin];
      return Success(());
    }

    /** The dispatch decision of `runPlugins(schemaPath, options)`: the plugin
        whose `run` it calls, or the error `detectPlugin` throws. The
        `graphql` plugin runs for `.graphql` and `.gql`, the `rest` plugin
        for `.yaml`, `.yml` and `.json`, each the one registered under that
        name; a missing plugin and any other extension are errors. */
    method RunPlugins(schemaPath: string) returns (chosen: Result<Plugin, string>)
      requires Valid()
      ensures var ext := Lower(Extname(schemaPath));
        IsGraphQLExtension(ext) ==>
          && (chosen.Failure? <==> !HasName(plugins, "graphql"))
          && (chosen.Failure? ==> chosen.error == GraphQLPluginMissing)
          && (chosen.Success? ==> chosen.value in plugins && chosen.value.name == "graphql")
      ensures var ext := Lower(Extname(schemaPath));
        IsRestExtension(ext) ==>
          && (chosen.Failure? <==> !HasName(plugins, "rest"))
          && (chosen.Failure? ==> chosen.error == RestPluginMissing)
          && (chosen.Success? ==> chosen.value in plugins && chosen.value.name == "rest")
      ensures var ext := Lower(Extname(schemaPath));
        !IsGraphQLExtension(ext) && !IsRestExtension(ext) ==> chosen == Failure(UnknownExtension(ext))
      ensures forall p :: chosen == Success(p) <==>
        && p in plugins
        && ((p.name == "graphql" && IsGraphQLExtension(Lower(Extname(schemaPath))))
            || (p.name == "rest" && IsRestExtension(Lower(Extname(schemaPath)))))
    {
      var ext := Lower(Extname(schemaPath));
      chosen := DetectIn(plugins, schemaPath);
      if IsGraphQLExtension(ext) {
        DetectGraphQL(plugins, schemaPath);
      } else if IsRestExtension(ext) {
        DetectRest(plugins, schemaPath);
      } else {
        DetectUnknown(plugins, schemaPath);
      }
      forall p | p in plugins && p.name == "graphql" {
        FindDistinct(plugins, "graphql", p);
      }
      forall p | p in plugins && p.name == "rest" {
        FindDistinct(plugins, "rest", p);
      }
    }
  }

  /** A successful registration makes the plugin the one dispatched to for
      its name, and leaves the other names' lookups alone. */
  lemma RegisteredIsFound(plugins: seq<Plugin>, p: Plugin, name: string)
    requires DistinctNames(plugins) && !HasName(plugins, p.name)
    ensures DistinctNames(plugins + [p])
    ensures Find(plugins + [p], p.name) == Some(p)
    ensures name != p.name ==> Find(plugins + [p], name) == Find(plugins, name)
  {
    FindAfterAppend(plugins, p, p.name);
    FindAfterAppend(plugins, p, name);
    var q := plugins + [p];
    forall i, j | 0 <= i < j < |q| ensures q[i].name != q[j].name {
      if j == |plugins| {
        assert q[i] == plugins[i];
      } else {
        assert q[i] == plugins[i] && q[j] == plugins[j];
      }
    }
  }
}
