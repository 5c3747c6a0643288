/** `normalizeOpenAPISchema` (src/normalizers/openapi.ts): walks the paths of a
    dereferenced OpenAPI document and the entries of each path item in
    enumeration order, keeps the entries whose lower-cased key is an HTTP
    verb (and, on request, drops deprecated operations), and turns each kept
    (path, verb) pair into one endpoint with merged parameters, negotiated
    bodies, a preferred response and a run-unique name. */
module OpenApiNormalizer {
  import opened Wrappers
  import opened Text
  import opened JsObject
  import opened JsonSchema
  import opened EndpointTypes
  import opened RestHelpers

  /** An operation object; absent fields are `None`. */
  datatype Operation = Operation(
    operationId: Option<string>,
    summary: Option<string>,
    description: Option<string>,
    deprecated: Option<bool>,
    parameters: Option<seq<RawParam>>,
    requestBody: Option<ContentHolder>,
    responses: Option<Entries<Option<ContentHolder>>>)

  /** A path item: its `parameters` entry, and every other entry in
      enumeration order (the value of each is read as an operation). */
  datatype PathItem = PathItem(parameters: Option<seq<RawParam>>, entries: Entries<Operation>)

  datatype Document = Document(paths: Option<Entries<PathItem>>)

  /** `!!operation.deprecated`. */
  predicate Deprecated(op: Operation) {
    op.deprecated == Some(true)
  }

  /** `operation.operationId` is truthy. */
  predicate HasOperationId(op: Operation) {
    op.operationId.Some? && op.operationId.value != ""
  }

  /** A path-item entry produces an endpoint: its lower-cased key is a verb,
      and it is not a deprecated operation that is to be skipped. */
  predicate Kept(key: string, op: Operation, skipDeprecated: bool) {
    Lower(key) in HttpMethods && !(skipDeprecated && Deprecated(op))
  }

  // ---------------------------------------------------------------------
  // Responses
  // ---------------------------------------------------------------------

  /** The response record for one declared status: the negotiated content
      type and schema, both undefined when `pickContent` gives null. */
  function ResponseOf(status: string, holder: Option<ContentHolder>): (r: Response)
    ensures r.status == status
    ensures PickContent(holder).None? ==> r.contentType.None? && r.schema.None?
    ensures PickContent(holder).Some? ==>
      r.contentType == PickContent(holder).value.contentType && r.schema == PickContent(holder).value.schema
  {
    match PickContent(holder)
    case None => Response(status, None, None)
    case Some(b) => Response(status, b.contentType, b.schema)
  }

  /** One response per declared status, in the order `Object.entries`
      enumerates the `responses` object: integer-like statuses (`200`, `404`)
      ascending, then the rest (`default`) as declared. */
  function Responses(declared: Entries<Option<ContentHolder>>): (r: seq<Response>)
    ensures |r| == |declared|
    ensures forall i :: 0 <= i < |declared| ==> r[i] == ResponseOf(declared[i].0, declared[i].1)
  {
    seq(|declared|, i requires 0 <= i < |declared| => ResponseOf(declared[i].0, declared[i].1))
  }

  /** The response loop of the normaliser. */
  method CollectResponses(declared: Entries<Option<ContentHolder>>) returns (responses: seq<Response>)
    ensures responses == Responses(declared)
  {
    responses := [];
    for i := 0 to |declared|
      invariant responses == Responses(declared[..i])
    {
      var (status, resp) := declared[i];
      responses := responses + [ResponseOf(status, resp)];
    }
    assert declared[..|declared|] == declared;
  }

  /** The three searches of the preference order. */
  datatype Rank = Exact200 | Any2xx | DefaultStatus

  /** `^2\d\d$`. */
  predicate IsSuccessStatus(s: string) {
    |s| == 3 && s[0] == '2' && IsDigit(s[1]) && IsDigit(s[2])
  }

  predicate Matches(rank: Rank, status: string) {
    match rank
    case Exact200 => status == "200"
    case Any2xx => IsSuccessStatus(status)
    case DefaultStatus => status == "default"
  }

  /** `responses.find(...)` as a position: the first match, or `|rs|`. */
  function FirstMatch(rs: seq<Response>, rank: Rank): (i: nat)
    ensures i <= |rs|
    ensures i < |rs| ==> Matches(rank, rs[i].status)
    ensures forall j :: 0 <= j < i ==> !Matches(rank, rs[j].status)
  {
    if rs == [] then 0
    else if Matches(rank, rs[0].status) then 0
    else 1 + FirstMatch(rs[1..], rank)
  }

  /** `preferredResponse`: 200, else the first 2xx, else `default`, else the
      first response (undefined when there is none). */
  function Preferred(rs: seq<Response>): Option<Response>
  {
    var a := FirstMatch(rs, Exact200);
    if a < |rs| then Some(rs[a])
    else
      var b := FirstMatch(rs, Any2xx);
      if b < |rs| then Some(rs[b])
      else
        var c := FirstMatch(rs, DefaultStatus);
        if c < |rs| then Some(rs[c])
        else if rs != [] then Some(rs[0])
        else None
  }

  /** Response `i` is the first whose status matches `rank`. */
  predicate FirstOfRank(rs: seq<Response>, rank: Rank, i: nat) {
    i < |rs| && Matches(rank, rs[i].status) && forall j :: 0 <= j < i ==> !Matches(rank, rs[j].status)
  }

  /** The preference order 200 > 2xx > `default` > first, each step taken
      only when every earlier one finds nothing. */
  lemma PreferredOrder(rs: seq<Response>)
    ensures Preferred(rs).None? <==> rs == []
    ensures (exists i :: 0 <= i < |rs| && rs[i].status == "200") ==>
      exists i: nat :: FirstOfRank(rs, Exact200, i) && Preferred(rs) == Some(rs[i])
    ensures (forall i :: 0 <= i < |rs| ==> rs[i].status != "200") &&
            (exists i :: 0 <= i < |rs| && IsSuccessStatus(rs[i].status)) ==>
      exists i: nat :: FirstOfRank(rs, Any2xx, i) && Preferred(rs) == Some(rs[i])
    ensures (forall i :: 0 <= i < |rs| ==> !IsSuccessStatus(rs[i].status)) &&
            (exists i :: 0 <= i < |rs| && rs[i].status == "default") ==>
      exists i: nat :: FirstOfRank(rs, DefaultStatus, i) && Preferred(rs) == Some(rs[i])
    ensures rs != [] && (forall i :: 0 <= i < |rs| ==> !IsSuccessStatus(rs[i].status) && rs[i].status != "default") ==>
      Preferred(rs) == Some(rs[0])
  {
    var a := FirstMatch(rs, Exact200);
    var b := FirstMatch(rs, Any2xx);
    var c := FirstMatch(rs, DefaultStatus);
    if a < |rs| {
      assert FirstOfRank(rs, Exact200, a);
    } else if b < |rs| {
      assert FirstOfRank(rs, Any2xx, b);
    } else if c < |rs| {
      assert FirstOfRank(rs, DefaultStatus, c);
    }
  }

  /** Declared statuses `default`, `201`, `200`, which `Object.entries`
      enumerates as `200`, `201`, `default`: the `200` one is preferred; and
      without a `200`, the first enumerated `2xx` (the lowest) wins over
      `default`. */
  lemma PreferredExample(d: Response, r201: Response, r204: Response, r200: Response)
    requires d.status == "default" && r201.status == "201" && r204.status == "204" && r200.status == "200"
    ensures Preferred([r200, r201, d]) == Some(r200)
    ensures Preferred([r201, r204, d]) == Some(r201)
  {
    assert !Matches(Exact200, d.status) by { assert d.status[0] != '2'; }
    assert !Matches(Exact200, r201.status) by { assert r201.status[2] != '0'; }
    assert !Matches(Exact200, r204.status) by { assert r204.status[2] != '0'; }
    var rs := [r201, r204, d];
    assert rs[1..] == [r204, d];
    assert [r204, d][1..] == [d];
    assert [d][1..] == [];
    assert FirstMatch(rs, Exact200) == 3;
    assert Matches(Any2xx, r201.status);
    assert FirstMatch(rs, Any2xx) == 0;
  }

  // ---------------------------------------------------------------------
  // Sites: the kept (path, verb) pairs in walk order
  // ---------------------------------------------------------------------

  /** One kept (path, entry) pair: positions of the path and of the entry,
      the path string, the path-level parameters, the verb and the operation. */
  datatype Site = Site(pathIndex: nat, entryIndex: nat, path: string, pathParams: seq<RawParam>, verb: string, op: Operation)

  /** `pathItem.parameters || []`. */
  function PathLevelParams(item: PathItem): seq<RawParam>
  {
    item.parameters.GetOr([])
  }

  /** The kept entries of path `pi`, in enumeration order. */
  function EntrySites(pi: nat, path: string, pathParams: seq<RawParam>, entries: Entries<Operation>, skip: bool): seq<Site>
  {
    if entries == [] then []
    else
      var n := |entries| - 1;
      var prev := EntrySites(pi, path, pathParams, entries[..n], skip);
      if Kept(entries[n].0, entries[n].1, skip) then
        prev + [Site(pi, n, path, pathParams, Lower(entries[n].0), entries[n].1)]
      else prev
  }

  /** The kept entries of every path, path by path. */
  function PathSites(paths: Entries<PathItem>, skip: bool): seq<Site>
  {
    if paths == [] then []
    else
      var n := |paths| - 1;
      PathSites(paths[..n], skip) + EntrySites(n, paths[n].0, PathLevelParams(paths[n].1), paths[n].1.entries, skip)
  }

  function Sites(doc: Document, skip: bool): seq<Site>
  {
    PathSites(doc.paths.GetOr([]), skip)
  }

  /** `s` describes entry `s.entryIndex` of path `s.pathIndex`, which is kept. */
  predicate SiteOf(paths: Entries<PathItem>, skip: bool, s: Site) {
    && s.pathIndex < |paths|
    && var item := paths[s.pathIndex].1;
    && s.entryIndex < |item.entries|
    && s.path == paths[s.pathIndex].0
    && s.pathParams == PathLevelParams(item)
    && s.verb == Lower(item.entries[s.entryIndex].0)
    && s.op == item.entries[s.entryIndex].1
    && Kept(item.entries[s.entryIndex].0, s.op, skip)
  }

  /** Path-major, then entry order. */
  predicate Precedes(s: Site, t: Site) {
    s.pathIndex < t.pathIndex || (s.pathIndex == t.pathIndex && s.entryIndex < t.entryIndex)
  }

  predicate EntrySiteOf(pi: nat, path: string, pathParams: seq<RawParam>, entries: Entries<Operation>, skip: bool, s: Site) {
    && s.pathIndex == pi && s.entryIndex < |entries|
    && s.path == path && s.pathParams == pathParams
    && s.verb == Lower(entries[s.entryIndex].0) && s.op == entries[s.entryIndex].1
    && Kept(entries[s.entryIndex].0, s.op, skip)
  }

  /** `ss` lists exactly the kept entries, each once, in enumeration order. */
  predicate EntrySitesExact(pi: nat, path: string, pathParams: seq<RawParam>, entries: Entries<Operation>, skip: bool, ss: seq<Site>) {
    && (forall i :: 0 <= i < |ss| ==> EntrySiteOf(pi, path, pathParams, entries, skip, ss[i]))
    && (forall i, j :: 0 <= i < j < |ss| ==> ss[i].entryIndex < ss[j].entryIndex)
    && (forall e :: 0 <= e < |entries| && Kept(entries[e].0, entries[e].1, skip) ==>
          exists i :: 0 <= i < |ss| && ss[i].entryIndex == e)
  }

  lemma {:induction false} EntrySitesShape(pi: nat, path: string, pathParams: seq<RawParam>, entries: Entries<Operation>, skip: bool)
    ensures EntrySitesExact(pi, path, pathParams, entries, skip, EntrySites(pi, path, pathParams, entries, skip))
  {
    if entries != [] {
      var n := |entries| - 1;
      var init := entries[..n];
      EntrySitesShape(pi, path, pathParams, init, skip);
      var prev := EntrySites(pi, path, pathParams, init, skip);
      assert EntrySitesExact(pi, path, pathParams, init, skip, prev);
      var ss := EntrySites(pi, path, pathParams, entries, skip);
      forall i | 0 <= i < |prev| ensures EntrySiteOf(pi, path, pathParams, entries, skip, ss[i]) {
        assert ss[i] == prev[i];
        assert entries[prev[i].entryIndex] == init[prev[i].entryIndex];
      }
      forall e | 0 <= e < |entries| && Kept(entries[e].0, entries[e].1, skip)
        ensures exists i :: 0 <= i < |ss| && ss[i].entryIndex == e
      {
        if e < n {
          assert init[e] == entries[e];
          var i :| 0 <= i < |prev| && prev[i].entryIndex == e;
          assert ss[i] == prev[i];
        } else {
          assert ss[|ss| - 1].entryIndex == n;
        }
      }
    }
  }

  predicate SitesValid(paths: Entries<PathItem>, skip: bool, ss: seq<Site>) {
    forall i :: 0 <= i < |ss| ==> SiteOf(paths, skip, ss[i])
  }

  predicate SitesOrdered(ss: seq<Site>) {
    forall i, j :: 0 <= i < j < |ss| ==> Precedes(ss[i], ss[j])
  }

  predicate SitesComplete(paths: Entries<PathItem>, skip: bool, ss: seq<Site>) {
    forall p, e :: (0 <= p < |paths| && 0 <= e < |paths[p].1.entries| &&
                    Kept(paths[p].1.entries[e].0, paths[p].1.entries[e].1, skip)) ==>
      exists i :: 0 <= i < |ss| && ss[i].pathIndex == p && ss[i].entryIndex == e
  }

  /** `ss` lists exactly the kept (path, entry) pairs, each once, path-major
      and then in enumeration order. */
  predicate SitesExact(paths: Entries<PathItem>, skip: bool, ss: seq<Site>) {
    SitesValid(paths, skip, ss) && SitesOrdered(ss) && SitesComplete(paths, skip, ss)
  }


  lemma {:induction false} PathSitesValid(paths: Entries<PathItem>, skip: bool)
    ensures SitesValid(paths, skip, PathSites(paths, skip))
  {
    if paths != [] {
      var n := |paths| - 1;
      var init := paths[..n];
      PathSitesValid(init, skip);
      var item := paths[n].1;
      EntrySitesShape(n, paths[n].0, PathLevelParams(item), item.entries, skip);
      var prev := PathSites(init, skip);
      var last := EntrySites(n, paths[n].0, PathLevelParams(item), item.entries, skip);
      assert SitesValid(init, skip, prev);
      assert EntrySitesExact(n, paths[n].0, PathLevelParams(item), item.entries, skip, last);
      var ss := PathSites(paths, skip);
      assert ss == prev + last;
      forall i | 0 <= i < |ss| ensures SiteOf(paths, skip, ss[i]) {
        if i < |prev| {
          assert ss[i] == prev[i];
          assert SiteOf(init, skip, prev[i]);
          assert paths[prev[i].pathIndex] == init[prev[i].pathIndex];
        } else {
          assert ss[i] == last[i - |prev|];
          assert EntrySiteOf(n, paths[n].0, PathLevelParams(item), item.entries, skip, last[i - |prev|]);
        }
      }
    }
  }

  lemma {:induction false} PathSitesOrdered(paths: Entries<PathItem>, skip: bool)
    ensures SitesOrdered(PathSites(paths, skip))
  {
    if paths != [] {
      var n := |paths| - 1;
      var init := paths[..n];
      PathSitesOrdered(init, skip);
      PathSitesValid(init, skip);
      var item := paths[n].1;
      EntrySitesShape(n, paths[n].0, PathLevelParams(item), item.entries, skip);
      var prev := PathSites(init, skip);
      var last := EntrySites(n, paths[n].0, PathLevelParams(item), item.entries, skip);
      assert SitesOrdered(prev) && SitesValid(init, skip, prev);
      assert EntrySitesExact(n, paths[n].0, PathLevelParams(item), item.entries, skip, last);
      var ss := PathSites(paths, skip);
      assert ss == prev + last;
      forall i, j | 0 <= i < j < |ss| ensures Precedes(ss[i], ss[j]) {
        if j < |prev| {
          assert ss[i] == prev[i] && ss[j] == prev[j];
        } else if i < |prev| {
          assert ss[i] == prev[i] && ss[j] == last[j - |prev|];
          assert SiteOf(init, skip, prev[i]);
          assert EntrySiteOf(n, paths[n].0, PathLevelParams(item), item.entries, skip, last[j - |prev|]);
        } else {
          assert ss[i] == last[i - |prev|] && ss[j] == last[j - |prev|];
          assert EntrySiteOf(n, paths[n].0, PathLevelParams(item), item.entries, skip, last[i - |prev|]);
          assert EntrySiteOf(n, paths[n].0, PathLevelParams(item), item.entries, skip, last[j - |prev|]);
        }
      }
    }
  }

  lemma {:induction false} PathSitesComplete(paths: Entries<PathItem>, skip: bool)
    ensures SitesComplete(paths, skip, PathSites(paths, skip))
  {
    if paths != [] {
      var n := |paths| - 1;
      var init := paths[..n];
      PathSitesComplete(init, skip);
      var item := paths[n].1;
      EntrySitesShape(n, paths[n].0, PathLevelParams(item), item.entries, skip);
      var prev := PathSites(init, skip);
      var last := EntrySites(n, paths[n].0, PathLevelParams(item), item.entries, skip);
      assert SitesComplete(init, skip, prev);
      assert EntrySitesExact(n, paths[n].0, PathLevelParams(item), item.entries, skip, last);
      var ss := PathSites(paths, skip);
      assert ss == prev + last;
      forall p, e | 0 <= p < |paths| && 0 <= e < |paths[p].1.entries| &&
          Kept(paths[p].1.entries[e].0, paths[p].1.entries[e].1, skip)
        ensures exists i :: 0 <= i < |ss| && ss[i].pathIndex == p && ss[i].entryIndex == e
      {
        if p < n {
          assert init[p] == paths[p];
          var i :| 0 <= i < |prev| && prev[i].pathIndex == p && prev[i].entryIndex == e;
          assert ss[i] == prev[i];
        } else {
          var k :| 0 <= k < |last| && last[k].entryIndex == e;
          assert EntrySiteOf(n, paths[n].0, PathLevelParams(item), item.entries, skip, last[k]);
          assert ss[|prev| + k] == last[k];
        }
      }
    }
  }

  lemma PathSitesShape(paths: Entries<PathItem>, skip: bool)
    ensures SitesExact(paths, skip, PathSites(paths, skip))
  {
    PathSitesValid(paths, skip);
    PathSitesOrdered(paths, skip);
    PathSitesComplete(paths, skip);
  }

  // ---------------------------------------------------------------------
  // Endpoints: one per site, with names threaded through one used set
  // ---------------------------------------------------------------------

  /** `mkName(operation.operationId, method, pathStr)`. */
  function BaseName(s: Site): string
  {
    MkName(s.op.operationId, s.verb, s.path)
  }

  /** The endpoint a site gives once its unique name is chosen. */
  function EndpointAt(s: Site, name: string): Endpoint
  {
    var responses := Responses(s.op.responses.GetOr([]));
    Endpoint(
      if HasOperationId(s.op) then s.op.operationId.value else name,
      name,
      s.verb,
      s.path,
      s.op.summary,
      s.op.description,
      MergedParams(s.pathParams, s.op.parameters.GetOr([])),
      PickContent(s.op.requestBody),
      responses,
      Preferred(responses),
      Deprecated(s.op))
  }

  /** The names given so far, and the `usedNames` set after giving them. */
  datatype Naming = Naming(names: seq<string>, used: set<string>)

  /** `safeName` applied to each base name in turn against one shared set
      that starts empty. */
  function AssignNames(bases: seq<string>): (r: Naming)
    ensures |r.names| == |bases|
  {
    if bases == [] then Naming([], {})
    else
      var prev := AssignNames(bases[..|bases| - 1]);
      var name := FreshName(bases[|bases| - 1], prev.used);
      Naming(prev.names + [name], prev.used + {name})
  }

  /** The first `k` names as a set. */
  function NamesBefore(names: seq<string>, k: nat): set<string>
    requires k <= |names|
  {
    set j | 0 <= j < k :: names[j]
  }

  lemma NamesBeforePrefix(names: seq<string>, k: nat)
    requires k <= |names|
    ensures NamesBefore(names[..k], k) == NamesBefore(names, k)
  {
    forall x | x in NamesBefore(names, k) ensures x in NamesBefore(names[..k], k) {
      var j :| 0 <= j < k && names[j] == x;
      assert names[..k][j] == x;
    }
  }

  lemma {:induction false} AssignNamesUsed(bases: seq<string>)
    ensures AssignNames(bases).used == NamesBefore(AssignNames(bases).names, |bases|)
  {
    if bases != [] {
      var n := |bases| - 1;
      AssignNamesUsed(bases[..n]);
      var prev := AssignNames(bases[..n]).names;
      var names := AssignNames(bases).names;
      assert forall j :: 0 <= j < n ==> names[j] == prev[j];
      assert NamesBefore(names, n) == NamesBefore(prev, n);
      assert NamesBefore(names, n + 1) == NamesBefore(names, n) + {names[n]};
    }
  }

  /** Naming a prefix of the bases gives a prefix of the names. */
  lemma {:induction false} AssignNamesPrefix(bases: seq<string>, k: nat)
    requires k <= |bases|
    ensures AssignNames(bases[..k]).names == AssignNames(bases).names[..k]
    decreases |bases|
  {
    if k < |bases| {
      var n := |bases| - 1;
      AssignNamesPrefix(bases[..n], k);
      assert bases[..n][..k] == bases[..k];
      assert AssignNames(bases).names[..n] == AssignNames(bases[..n]).names;
    } else {
      assert bases[..k] == bases;
    }
  }

  /** The last name is the first free candidate of the last base against
      the names before it. */
  lemma AssignNamesLast(bases: seq<string>)
    requires bases != []
    ensures var n := |bases| - 1;
      AssignNames(bases).names[n] == FreshName(bases[n], NamesBefore(AssignNames(bases).names, n))
  {
    var n := |bases| - 1;
    var names := AssignNames(bases).names;
    var prev := AssignNames(bases[..n]);
    AssignNamesUsed(bases[..n]);
    assert names[..n] == prev.names;
    NamesBeforePrefix(names, n);
  }

  /** The first `i` names of a prefix are the first `i` names. */
  lemma NamesBeforeWithin(names: seq<string>, k: nat, i: nat)
    requires i <= k <= |names|
    ensures NamesBefore(names[..k], i) == NamesBefore(names, i)
  {
    assert forall j :: 0 <= j < i ==> names[..k][j] == names[j];
  }

  /** Name `i` is the first free candidate of base `i` against the names
      before it. */
  lemma AssignNamesIsFresh(bases: seq<string>, i: nat)
    requires i < |bases|
    ensures AssignNames(bases).names[i] == FreshName(bases[i], NamesBefore(AssignNames(bases).names, i))
  {
    var names := AssignNames(bases).names;
    var b := bases[..i + 1];
    var nb := AssignNames(b).names;
    AssignNamesLast(b);
    assert nb[i] == FreshName(b[i], NamesBefore(nb, i));
    AssignNamesPrefix(bases, i + 1);
    assert nb == names[..i + 1];
    NamesBeforeWithin(names, i + 1, i);
    assert NamesBefore(nb, i) == NamesBefore(names, i);
    assert nb[i] == names[i] && b[i] == bases[i];
  }

  /** Name `i` is the first free candidate of base `i` against the names
      before it, and so differs from each of them. */
  lemma AssignNamesAt(bases: seq<string>, i: nat)
    requires i < |bases|
    ensures AssignNames(bases).names[i] == FreshName(bases[i], NamesBefore(AssignNames(bases).names, i))
    ensures AssignNames(bases).names[i] !in NamesBefore(AssignNames(bases).names, i)
  {
    AssignNamesIsFresh(bases, i);
    FreshNameLeast(bases[i], NamesBefore(AssignNames(bases).names, i));
  }

  /** All names given in one run are pairwise distinct. */
  lemma AssignNamesDistinct(bases: seq<string>)
    ensures var names := AssignNames(bases).names;
      forall i, j :: 0 <= i < j < |names| ==> names[i] != names[j]
  {
    var names := AssignNames(bases).names;
    forall i, j | 0 <= i < j < |names| ensures names[i] != names[j] {
      AssignNamesAt(bases, j);
      assert names[i] in NamesBefore(names, j);
    }
  }

  /** The base name of every site. */
  function Bases(sites: seq<Site>): (r: seq<string>)
    ensures |r| == |sites|
    ensures forall i :: 0 <= i < |sites| ==> r[i] == BaseName(sites[i])
  {
    seq(|sites|, i requires 0 <= i < |sites| => BaseName(sites[i]))
  }

  /** The endpoint of every site, with the names of one run. */
  function Endpoints(sites: seq<Site>): (r: seq<Endpoint>)
    ensures |r| == |sites|
  {
    var names := AssignNames(Bases(sites)).names;
    seq(|sites|, i requires 0 <= i < |sites| => EndpointAt(sites[i], names[i]))
  }
  /** Endpoint `i` of a run is the endpoint of site `i` under name `i`. */
  lemma EndpointsAt(sites: seq<Site>, i: nat)
    requires i < |sites|
    ensures Endpoints(sites)[i] == EndpointAt(sites[i], AssignNames(Bases(sites)).names[i])
  {
  }

  /** What an endpoint takes from its site and its name: the operation id
      when truthy and the name otherwise as `id`, the lower-cased key as
      method, the negotiated request body and the deprecation flag. */
  lemma EndpointAtFields(s: Site, name: string)
    ensures var e := EndpointAt(s, name);
      && e.name == name && e.path == s.path && e.httpMethod == s.verb
      && e.id == (if HasOperationId(s.op) then s.op.operationId.value else name)
      && e.params == MergedParams(s.pathParams, s.op.parameters.GetOr([]))
      && e.requestBody == PickContent(s.op.requestBody)
      && e.responses == Responses(s.op.responses.GetOr([]))
      && e.preferredResponse == Preferred(e.responses)
      && e.deprecated == Deprecated(s.op)
  {
  }


  /** `normalizeOpenAPISchema(oas, { skipDeprecated })` as a value. */
  function Normalized(doc: Document, skip: bool): seq<Endpoint>
  {
    Endpoints(Sites(doc, skip))
  }

  lemma EntrySitesSnoc(pi: nat, path: string, pathParams: seq<RawParam>, entries: Entries<Operation>, oi: nat, skip: bool)
    requires oi < |entries|
    ensures EntrySites(pi, path, pathParams, entries[..oi + 1], skip) ==
      EntrySites(pi, path, pathParams, entries[..oi], skip) +
        (if Kept(entries[oi].0, entries[oi].1, skip)
         then [Site(pi, oi, path, pathParams, Lower(entries[oi].0), entries[oi].1)]
         else [])
  {
    assert entries[..oi + 1][..oi] == entries[..oi];
  }

  /** One site more: one name more, chosen against the names so far. */
  lemma EndpointsSnoc(sites: seq<Site>, s: Site)
    ensures var name := FreshName(BaseName(s), AssignNames(Bases(sites)).used);
      && AssignNames(Bases(sites + [s])).used == AssignNames(Bases(sites)).used + {name}
      && Endpoints(sites + [s]) == Endpoints(sites) + [EndpointAt(s, name)]
  {
    var bs := Bases(sites + [s]);
    assert bs[..|sites|] == Bases(sites);
    var r := Endpoints(sites + [s]);
    var names := AssignNames(bs).names;
    assert names[..|sites|] == AssignNames(Bases(sites)).names;
    forall i | 0 <= i < |sites| ensures r[i] == Endpoints(sites)[i] {
      assert names[i] == AssignNames(Bases(sites)).names[i];
    }
  }

  lemma ConcatAssociative(a: seq<Site>, b: seq<Site>, c: seq<Site>)
    ensures a + (b + c) == (a + b) + c
  {
  }

  /** The body of the inner loop for a kept entry: merge the parameters,
      negotiate the request body, collect the responses, pick the preferred
      one, and name the endpoint against the shared set. */
  method EmitEndpoint(s: Site, usedNames: NameSet) returns (endpoint: Endpoint)
    modifies usedNames
    ensures endpoint == EndpointAt(s, FreshName(BaseName(s), old(usedNames.names)))
    ensures usedNames.names == old(usedNames.names) + {endpoint.name}
  {
    var operation := s.op;
    var params := MergeParameters(s.pathParams, operation.parameters.GetOr([]));
    var requestBody := PickContent(operation.requestBody);
    var responses := CollectResponses(operation.responses.GetOr([]));
    var preferredResponse := Preferred(responses);
    var baseName := MkName(operation.operationId, s.verb, s.path);
    var name := usedNames.SafeName(baseName);
    var id := if HasOperationId(operation) then operation.operationId.value else name;
    endpoint := Endpoint(id, name, s.verb, s.path, operation.summary, operation.description,
                         params, requestBody, responses, preferredResponse, Deprecated(operation));
  }

  /** The inner loop over the entries of path `pi`, continuing the run whose
      sites so far are `before`. */
  method WalkPathItem(pi: nat, pathStr: string, pathItem: PathItem, skipDeprecated: bool,
                      usedNames: NameSet, endpoints0: seq<Endpoint>, ghost before: seq<Site>)
    returns (endpoints: seq<Endpoint>)
    requires endpoints0 == Endpoints(before)
    requires usedNames.names == AssignNames(Bases(before)).used
    modifies usedNames
    ensures var after := before + EntrySites(pi, pathStr, PathLevelParams(pathItem), pathItem.entries, skipDeprecated);
      endpoints == Endpoints(after) && usedNames.names == AssignNames(Bases(after)).used
  {
    endpoints := endpoints0;
    var pathLevelParams := PathLevelParams(pathItem);
    assert pathItem.entries[..0] == [];
    assert before + EntrySites(pi, pathStr, pathLevelParams, pathItem.entries[..0], skipDeprecated) == before;
    for oi := 0 to |pathItem.entries|
      invariant endpoints == Endpoints(before + EntrySites(pi, pathStr, pathLevelParams, pathItem.entries[..oi], skipDeprecated))
      invariant usedNames.names ==
        AssignNames(Bases(before + EntrySites(pi, pathStr, pathLevelParams, pathItem.entries[..oi], skipDeprecated))).used
    {
      ghost var sitesSoFar := EntrySites(pi, pathStr, pathLevelParams, pathItem.entries[..oi], skipDeprecated);
      ghost var sitesNext := EntrySites(pi, pathStr, pathLevelParams, pathItem.entries[..oi + 1], skipDeprecated);
      EntrySitesSnoc(pi, pathStr, pathLevelParams, pathItem.entries, oi, skipDeprecated);
      var (rawMethod, operation) := pathItem.entries[oi];
      var verb := Lower(rawMethod);
      if verb !in HttpMethods {
        assert before + sitesNext == before + sitesSoFar;
        continue;
      }
      if skipDeprecated && Deprecated(operation) {
        assert before + sitesNext == before + sitesSoFar;
        continue;
      }
      var s := Site(pi, oi, pathStr, pathLevelParams, verb, operation);
      assert Kept(rawMethod, operation, skipDeprecated);
      assert sitesNext == sitesSoFar + [s];
      ConcatAssociative(before, sitesSoFar, [s]);
      EndpointsSnoc(before + sitesSoFar, s);
      var endpoint := EmitEndpoint(s, usedNames);
      endpoints := endpoints + [endpoint];
    }
    assert pathItem.entries[..|pathItem.entries|] == pathItem.entries;
  }

  /** `normalizeOpenAPISchema(oas, { skipDeprecated })`: paths in order,
      entries of each path in order, one `usedNames` set for the whole run. */
  method NormalizeOpenApi(doc: Document, skipDeprecated: bool) returns (endpoints: seq<Endpoint>)
    ensures endpoints == Normalized(doc, skipDeprecated)
  {
    endpoints := [];
    var usedNames := new NameSet();
    var paths := doc.paths.GetOr([]);
    for pi := 0 to |paths|
      invariant endpoints == Endpoints(PathSites(paths[..pi], skipDeprecated))
      invariant usedNames.names == AssignNames(Bases(PathSites(paths[..pi], skipDeprecated))).used
    {
      var (pathStr, pathItem) := paths[pi];
      endpoints := WalkPathItem(pi, pathStr, pathItem, skipDeprecated, usedNames, endpoints,
                                PathSites(paths[..pi], skipDeprecated));
      assert paths[..pi + 1][..pi] == paths[..pi];
    }
    assert paths[..|paths|] == paths;
  }

  // ---------------------------------------------------------------------
  // Properties of the whole run
  // ---------------------------------------------------------------------

  /** The name of every endpoint. */
  function EndpointNames(eps: seq<Endpoint>): (r: seq<string>)
    ensures |r| == |eps|
    ensures forall i :: 0 <= i < |eps| ==> r[i] == eps[i].name
  {
    seq(|eps|, i requires 0 <= i < |eps| => eps[i].name)
  }

  /** Exactly one endpoint per kept (path, verb) pair, path-major and then in
      enumeration order, each built from its own pair. */
  lemma NormalizedSites(doc: Document, skip: bool)
    ensures SitesExact(doc.paths.GetOr([]), skip, Sites(doc, skip))
    ensures |Normalized(doc, skip)| == |Sites(doc, skip)|
  {
    PathSitesShape(doc.paths.GetOr([]), skip);
  }

  /** Endpoint `i` carries the first free candidate of its base name against
      the names of the endpoints before it: the base name itself when that is
      free. Its id is the operation id when truthy, and its name otherwise. */
  lemma NormalizedNames(doc: Document, skip: bool)
    ensures var ss := Sites(doc, skip);
      var eps := Normalized(doc, skip);
      forall i :: 0 <= i < |eps| ==>
        && eps[i].name == FreshName(BaseName(ss[i]), NamesBefore(EndpointNames(eps), i))
        && eps[i].name !in NamesBefore(EndpointNames(eps), i)
        && (BaseName(ss[i]) !in NamesBefore(EndpointNames(eps), i) ==> eps[i].name == BaseName(ss[i]))
        && eps[i].id == (if HasOperationId(ss[i].op) then ss[i].op.operationId.value else eps[i].name)
  {
    var ss := Sites(doc, skip);
    var eps := Normalized(doc, skip);
    var names := AssignNames(Bases(ss)).names;
    assert EndpointNames(eps) == names;
    forall i | 0 <= i < |eps|
      ensures eps[i].name == FreshName(BaseName(ss[i]), NamesBefore(names, i))
      ensures eps[i].name !in NamesBefore(names, i)
      ensures BaseName(ss[i]) !in NamesBefore(names, i) ==> eps[i].name == BaseName(ss[i])
    {
      AssignNamesAt(Bases(ss), i);
      if BaseName(ss[i]) !in NamesBefore(names, i) {
        FreshNameOfFreeBase(BaseName(ss[i]), NamesBefore(names, i));
      }
    }
  }

  /** No two endpoints of one run share a name. */
  lemma NormalizedNamesDistinct(doc: Document, skip: bool)
    ensures var eps := Normalized(doc, skip);
      forall i, j :: 0 <= i < j < |eps| ==> eps[i].name != eps[j].name
  {
    var ss := Sites(doc, skip);
    var eps := Normalized(doc, skip);
    assert eps == Endpoints(ss);
    var names := AssignNames(Bases(ss)).names;
    AssignNamesDistinct(Bases(ss));
    forall i, j | 0 <= i < j < |eps| ensures eps[i].name != eps[j].name {
      EndpointsAt(ss, i);
      EndpointsAt(ss, j);
      EndpointAtFields(ss[i], names[i]);
      EndpointAtFields(ss[j], names[j]);
    }
  }

  /** Only entries whose lower-cased key is a verb give endpoints, and the
      endpoint's method is that lower-cased key. */
  lemma NormalizedVerbs(doc: Document, skip: bool)
    ensures forall e :: e in Normalized(doc, skip) ==> e.httpMethod in HttpMethods
  {
    NormalizedSites(doc, skip);
    var ss := Sites(doc, skip);
    var eps := Normalized(doc, skip);
    forall e | e in eps ensures e.httpMethod in HttpMethods {
      var i :| 0 <= i < |eps| && eps[i] == e;
      assert SiteOf(doc.paths.GetOr([]), skip, ss[i]);
    }
  }

  /** With `skipDeprecated` no endpoint is deprecated. */
  lemma NormalizedSkipsDeprecated(doc: Document)
    ensures forall e :: e in Normalized(doc, true) ==> !e.deprecated
  {
    PathSitesValid(doc.paths.GetOr([]), true);
    var ss := Sites(doc, true);
    var eps := Normalized(doc, true);
    forall e | e in eps ensures !e.deprecated {
      var i :| 0 <= i < |eps| && eps[i] == e;
      assert SiteOf(doc.paths.GetOr([]), true, ss[i]);
      EndpointsAt(ss, i);
      EndpointAtFields(ss[i], AssignNames(Bases(ss)).names[i]);
    }
  }

  /** Without `skipDeprecated` every verb entry gives an endpoint, whose
      flag is the operation's. */
  lemma NormalizedKeepsDeprecated(doc: Document)
    ensures var paths := doc.paths.GetOr([]);
      var eps := Normalized(doc, false);
      forall p, k :: (0 <= p < |paths| && 0 <= k < |paths[p].1.entries| &&
                      Lower(paths[p].1.entries[k].0) in HttpMethods) ==>
        exists i :: (0 <= i < |eps| && eps[i].path == paths[p].0 &&
                     eps[i].httpMethod == Lower(paths[p].1.entries[k].0) &&
                     eps[i].deprecated == Deprecated(paths[p].1.entries[k].1))
  {
    var paths := doc.paths.GetOr([]);
    PathSitesValid(paths, false);
    PathSitesComplete(paths, false);
    var ss := Sites(doc, false);
    var eps := Normalized(doc, false);
    forall p, k | 0 <= p < |paths| && 0 <= k < |paths[p].1.entries| &&
        Lower(paths[p].1.entries[k].0) in HttpMethods
      ensures exists i :: (0 <= i < |eps| && eps[i].path == paths[p].0 &&
                           eps[i].httpMethod == Lower(paths[p].1.entries[k].0) &&
                           eps[i].deprecated == Deprecated(paths[p].1.entries[k].1))
    {
      assert Kept(paths[p].1.entries[k].0, paths[p].1.entries[k].1, false);
      var i :| 0 <= i < |ss| && ss[i].pathIndex == p && ss[i].entryIndex == k;
      assert SiteOf(paths, false, ss[i]);
      EndpointsAt(ss, i);
      EndpointAtFields(ss[i], AssignNames(Bases(ss)).names[i]);
    }
  }
}
