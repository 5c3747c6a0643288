/** The REST helpers of src/utils/normalizers.ts: the verb filter, collision-free
    naming against a shared set of used names, the derived operation name,
    content negotiation and the path/operation parameter merge. */
module RestHelpers {
  import opened Wrappers
  import opened Text
  import opened JsObject
  import opened JsonSchema
  import opened EndpointTypes

  // ---------------------------------------------------------------------
  // HTTP_METHODS
  // ---------------------------------------------------------------------

  /** The eight verbs a path-item key may name (lower case). */
  const HttpMethods: set<string> := {"get", "post", "put", "patch", "delete", "head", "options", "trace"}

  // ---------------------------------------------------------------------
  // safeName
  // ---------------------------------------------------------------------

  /** The k-th name `safeName` tries for `base`: `base` itself, then
      `base_1`, `base_2`, ... */
  function Candidate(base: string, k: nat): string
  {
    if k == 0 then base else base + "_" + Decimal(k)
  }

  /** Different attempts never produce the same name. */
  lemma CandidateInjective(base: string, j: nat, k: nat)
    requires Candidate(base, j) == Candidate(base, k)
    ensures j == k
  {
    if j != 0 && k != 0 {
      var cj, ck := Candidate(base, j), Candidate(base, k);
      assert cj[|base| + 1..] == Decimal(j);
      assert ck[|base| + 1..] == Decimal(k);
      DecimalInjective(j, k);
    }
  }

  /** The names tried before attempt `k`. */
  function CandidatesBelow(base: string, k: nat): set<string>
  {
    set j | 0 <= j < k :: Candidate(base, j)
  }

  lemma CandidatesBelowStep(base: string, k: nat)
    ensures CandidatesBelow(base, k + 1) == CandidatesBelow(base, k) + {Candidate(base, k)}
    ensures Candidate(base, k) !in CandidatesBelow(base, k)
  {
    forall j | 0 <= j < k ensures Candidate(base, j) != Candidate(base, k) {
      if Candidate(base, j) == Candidate(base, k) {
        CandidateInjective(base, j, k);
      }
    }
  }

  /** The first attempt at or after `i` whose name is not in `used`.  Every
      attempt that fails names a member of `used` not named before, so the
      search ends. */
  function FreshIndexFrom(base: string, used: set<string>, i: nat): (k: nat)
    ensures i <= k
    ensures Candidate(base, k) !in used
    ensures forall j :: i <= j < k ==> Candidate(base, j) in used
    decreases used - CandidatesBelow(base, i)
  {
    if Candidate(base, i) !in used then i
    else
      CandidatesBelowStep(base, i);
      FreshIndexFrom(base, used, i + 1)
  }

  /** The name `safeName(base, used)` returns. */
  function FreshName(base: string, used: set<string>): string
  {
    Candidate(base, FreshIndexFrom(base, used, 0))
  }

  /** A free `base` is returned unchanged. */
  lemma FreshNameOfFreeBase(base: string, used: set<string>)
    requires base !in used
    ensures FreshName(base, used) == base
  {
  }

  /** The result of `safeName` was not in use, and when `base` is taken it is
      `base_k` for the least k >= 1 whose name is free. */
  lemma FreshNameLeast(base: string, used: set<string>)
    ensures FreshName(base, used) !in used
    ensures base in used ==>
      exists k: nat ::
        && 1 <= k
        && FreshName(base, used) == base + "_" + Decimal(k)
        && (forall j :: 1 <= j < k ==> base + "_" + Decimal(j) in used)
  {
    var k := FreshIndexFrom(base, used, 0);
    if base in used {
      assert k != 0;
      assert FreshName(base, used) == base + "_" + Decimal(k);
      forall j | 1 <= j < k ensures base + "_" + Decimal(j) in used {
        assert Candidate(base, j) in used;
      }
    }
  }

  /** There are exactly `k` distinct names among the first `k` attempts. */
  lemma {:induction false} CandidatesBelowSize(base: string, k: nat)
    ensures |CandidatesBelow(base, k)| == k
  {
    if k == 0 {
      assert CandidatesBelow(base, 0) == {};
    } else {
      CandidatesBelowSize(base, k - 1);
      CandidatesBelowStep(base, k - 1);
    }
  }

  /** `safeName` loops at most `|used|` times: the attempt index it stops at
      is no larger than the number of names in use. */
  lemma FreshIndexBound(base: string, used: set<string>)
    ensures FreshIndexFrom(base, used, 0) <= |used|
  {
    var k := FreshIndexFrom(base, used, 0);
    forall x | x in CandidatesBelow(base, k) ensures x in used {
      var j :| 0 <= j < k && x == Candidate(base, j);
    }
    CandidatesBelowSize(base, k);
    SubsetSize(CandidatesBelow(base, k), used);
  }

  lemma {:induction false} SubsetSize(a: set<string>, b: set<string>)
    requires a <= b
    ensures |a| <= |b|
  {
    if a != {} {
      var x :| x in a;
      SubsetSize(a - {x}, b - {x});
    }
  }

  /** The run-scoped set of names already handed out. */
  class NameSet {
    var names: set<string>

    constructor ()
      ensures names == {}
    {
      names := {};
    }

    /** `safeName(base, used)`: the first free name among `base`, `base_1`,
        `base_2`, ...; the set gains exactly that name. */
    method SafeName(base: string) returns (name: string)
      modifies this
      ensures name == FreshName(base, old(names))
      ensures name !in old(names)
      ensures names == old(names) + {name}
    {
      name := base;
      var i := 1;
      ghost var tried: set<string> := {};
      while name in names
        invariant names == old(names)
        invariant 1 <= i
        invariant name == Candidate(base, i - 1)
        invariant tried == CandidatesBelow(base, i - 1)
        invariant tried <= names
        invariant FreshIndexFrom(base, names, i - 1) == FreshIndexFrom(base, names, 0)
        decreases names - tried
      {
        CandidatesBelowStep(base, i - 1);
        tried := tried + {name};
        name := base + "_" + Decimal(i);
        i := i + 1;
      }
      names := names + {name};
    }
  }

  // ---------------------------------------------------------------------
  // mkName
  // ---------------------------------------------------------------------

  /** Length of the leading run of non-whitespace characters. */
  function RunLength(s: string): (n: nat)
    ensures n <= |s|
    ensures forall i :: 0 <= i < n ==> !IsSpace(s[i])
    ensures n < |s| ==> IsSpace(s[n])
  {
    if s == [] || IsSpace(s[0]) then 0 else 1 + RunLength(s[1..])
  }

  /** `s.split(/\s+/).filter(Boolean)`: the maximal runs of non-whitespace. */
  function Words(s: string): (ws: seq<string>)
    decreases |s|
  {
    if s == [] then []
    else if IsSpace(s[0]) then Words(s[1..])
    else
      var n := RunLength(s);
      [s[..n]] + Words(s[n..])
  }

  /** Words are non-empty and hold no whitespace. */
  lemma {:induction false} WordsAreWords(s: string)
    ensures forall w :: w in Words(s) ==> w != [] && forall i :: 0 <= i < |w| ==> !IsSpace(w[i])
    decreases |s|
  {
    if s != [] {
      if IsSpace(s[0]) {
        WordsAreWords(s[1..]);
      } else {
        WordsAreWords(s[RunLength(s)..]);
      }
    }
  }

  function TrimStart(s: string): string
  {
    if s != [] && IsSpace(s[0]) then TrimStart(s[1..]) else s
  }

  function TrimEnd(s: string): string
  {
    if s != [] && IsSpace(s[|s| - 1]) then TrimEnd(s[..|s| - 1]) else s
  }

  /** `s.trim()`. */
  function Trim(s: string): string
  {
    TrimEnd(TrimStart(s))
  }

  /** The characters `/[\/{}]/g` matches. */
  predicate IsSeparator(c: char) {
    c == '/' || c == '{' || c == '}'
  }

  /** The path with every `/`, `{` and `}` turned into a space. */
  function BlankSeparators(path: string): (r: string)
    ensures |r| == |path|
    ensures forall i :: 0 <= i < |r| ==> !IsSeparator(r[i])
  {
    seq(|path|, i requires 0 <= i < |path| => if IsSeparator(path[i]) then ' ' else path[i])
  }

  /** Every word with its first letter upper-cased. */
  function CapitalizeEach(ws: seq<string>): (r: seq<string>)
    ensures |r| == |ws|
    ensures forall i :: 0 <= i < |ws| ==> r[i] == Capitalize(ws[i])
  {
    seq(|ws|, i requires 0 <= i < |ws| => Capitalize(ws[i]))
  }

  /** The first word lower-cased, every later word with its first letter
      upper-cased, all joined. */
  function CamelJoin(parts: seq<string>): string
  {
    if parts == [] then "" else Lower(parts[0]) + Concat(CapitalizeEach(parts[1..]))
  }

  /** `mkName(operationId, verb, path)`. */
  function MkName(operationId: Option<string>, verb: string, path: string): string
  {
    if operationId.Some? && operationId.value != "" then operationId.value
    else CamelJoin(Words(verb + " " + Trim(BlankSeparators(path))))
  }

  /** A non-empty operation id is used verbatim. */
  lemma MkNameOperationId(operationId: string, verb: string, path: string)
    requires operationId != ""
    ensures MkName(Some(operationId), verb, path) == operationId
  {
  }

  /** Whitespace between two strings separates their words. */
  lemma {:induction false} WordsSplit(a: string, c: char, b: string)
    requires IsSpace(c)
    ensures Words(a + [c] + b) == Words(a) + Words(b)
    decreases |a|
  {
    var s := a + [c] + b;
    if a == [] {
      assert s[1..] == b;
    } else if IsSpace(a[0]) {
      assert s[1..] == a[1..] + [c] + b;
      WordsSplit(a[1..], c, b);
    } else {
      var n := RunLength(a);
      RunLengthStops(a, c, b);
      assert s[..n] == a[..n];
      assert s[n..] == a[n..] + [c] + b;
      WordsSplit(a[n..], c, b);
    }
  }

  lemma {:induction false} RunLengthStops(a: string, c: char, b: string)
    requires IsSpace(c)
    ensures RunLength(a + [c] + b) == RunLength(a)
  {
    if a != [] && !IsSpace(a[0]) {
      assert (a + [c] + b)[1..] == a[1..] + [c] + b;
      RunLengthStops(a[1..], c, b);
    }
  }

  /** Leading whitespace never contributes a word. */
  lemma {:induction false} WordsTrimStart(s: string)
    ensures Words(TrimStart(s)) == Words(s)
  {
    if s != [] && IsSpace(s[0]) {
      WordsTrimStart(s[1..]);
    }
  }

  /** Trailing whitespace never contributes a word. */
  lemma {:induction false} WordsTrimEnd(s: string)
    ensures Words(TrimEnd(s)) == Words(s)
  {
    if s != [] && IsSpace(s[|s| - 1]) {
      var init := s[..|s| - 1];
      WordsTrimEnd(init);
      WordsSplit(init, s[|s| - 1], []);
      assert init + [s[|s| - 1]] + [] == s;
      assert Words([]) == [];
    }
  }

  /** `trim` does not change the words of a string. */
  lemma WordsTrim(s: string)
    ensures Words(Trim(s)) == Words(s)
  {
    WordsTrimStart(s);
    WordsTrimEnd(TrimStart(s));
  }

  /** A one-word string is its own only word. */
  lemma WordsOfWord(w: string)
    requires w != [] && forall i :: 0 <= i < |w| ==> !IsSpace(w[i])
    ensures Words(w) == [w]
  {
    var n := RunLengthOfWord(w);
    assert !IsSpace(w[0]);
    assert w[..n] == w;
    assert w[n..] == [];
  }

  lemma {:induction false} RunLengthOfWord(w: string) returns (n: nat)
    requires forall i :: 0 <= i < |w| ==> !IsSpace(w[i])
    ensures n == RunLength(w) == |w|
  {
    if w == [] {
      n := 0;
    } else {
      var m := RunLengthOfWord(w[1..]);
      n := m + 1;
    }
  }

  /** The derived name is the lower-cased verb followed by each path segment
      with only its first letter upper-cased. */
  lemma MkNameShape(verb: string, path: string)
    requires verb != [] && forall i :: 0 <= i < |verb| ==> !IsSpace(verb[i])
    ensures MkName(None, verb, path) == Lower(verb) + Concat(CapitalizeEach(Words(BlankSeparators(path))))
  {
    var clean := Trim(BlankSeparators(path));
    WordsSplit(verb, ' ', clean);
    WordsOfWord(verb);
    WordsTrim(BlankSeparators(path));
    var ws := Words(verb + " " + clean);
    assert verb + " " + clean == verb + [' '] + clean;
    assert ws == [verb] + Words(BlankSeparators(path));
    assert ws[1..] == Words(BlankSeparators(path));
  }

  /** No character a name is built from is whitespace, `/`, `{` or `}`. */
  predicate IdentifierSafe(c: char) {
    !IsSpace(c) && !IsSeparator(c)
  }

  predicate SafeText(w: string) {
    forall i :: 0 <= i < |w| ==> IdentifierSafe(w[i])
  }

  /** The words of a separator-free string are safe. */
  lemma {:induction false} WordsSafe(s: string)
    requires forall i :: 0 <= i < |s| ==> !IsSeparator(s[i])
    ensures forall w :: w in Words(s) ==> SafeText(w)
    decreases |s|
  {
    if s != [] {
      if IsSpace(s[0]) {
        WordsSafe(s[1..]);
      } else {
        var n := RunLength(s);
        WordsSafe(s[n..]);
        assert SafeText(s[..n]);
      }
    }
  }

  lemma {:induction false} ConcatSafe(parts: seq<string>)
    requires forall w :: w in parts ==> SafeText(w)
    ensures SafeText(Concat(parts))
  {
    if parts != [] {
      assert parts[0] in parts;
      ConcatSafe(parts[1..]);
      var r := Concat(parts);
      assert r == parts[0] + Concat(parts[1..]);
    }
  }

  lemma CapitalizeSafe(w: string)
    requires SafeText(w)
    ensures SafeText(Capitalize(w))
  {
    if w != [] {
      var r := Capitalize(w);
      assert r[0] == UpperChar(w[0]);
      assert forall i :: 1 <= i < |r| ==> r[i] == w[i];
    }
  }

  lemma LowerSafe(w: string)
    requires SafeText(w)
    ensures SafeText(Lower(w))
  {
  }

  /** Camel-joining safe words gives a safe name. */
  lemma CamelJoinSafe(parts: seq<string>)
    requires forall i :: 0 <= i < |parts| ==> SafeText(parts[i])
    ensures SafeText(CamelJoin(parts))
  {
    if parts != [] {
      LowerSafe(parts[0]);
      var caps := CapitalizeEach(parts[1..]);
      forall w | w in caps ensures SafeText(w) {
        var i :| 0 <= i < |caps| && caps[i] == w;
        CapitalizeSafe(parts[i + 1]);
      }
      ConcatSafe(caps);
      var low, rest := Lower(parts[0]), Concat(caps);
      assert CamelJoin(parts) == low + rest;
      assert forall i :: 0 <= i < |low| ==> (low + rest)[i] == low[i];
      assert forall i :: |low| <= i < |low + rest| ==> (low + rest)[i] == rest[i - |low|];
    }
  }

  /** A derived name contains no `/`, `{`, `}` or whitespace, whenever the verb
      has none of `/`, `{`, `}`. */
  lemma MkNameIsIdentifierSafe(verb: string, path: string)
    requires forall i :: 0 <= i < |verb| ==> !IsSeparator(verb[i])
    ensures SafeText(MkName(None, verb, path))
  {
    var blank := BlankSeparators(path);
    TrimKeepsNoSeparator(blank);
    var t := Trim(blank);
    var s := verb + " " + t;
    forall i | 0 <= i < |s| ensures !IsSeparator(s[i]) {
      if i > |verb| {
        assert s[i] == t[i - |verb| - 1];
      }
    }
    WordsSafe(s);
    var ws := Words(s);
    forall i | 0 <= i < |ws| ensures SafeText(ws[i]) {
      assert ws[i] in ws;
    }
    CamelJoinSafe(ws);
  }

  /** Trimming keeps only characters of the string. */
  lemma TrimKeepsNoSeparator(s: string)
    requires forall i :: 0 <= i < |s| ==> !IsSeparator(s[i])
    ensures forall i :: 0 <= i < |Trim(s)| ==> !IsSeparator(Trim(s)[i])
  {
    TrimStartIsSuffix(s);
    TrimEndIsPrefix(TrimStart(s));
  }

  lemma {:induction false} TrimStartIsSuffix(s: string)
    ensures exists k :: 0 <= k <= |s| && TrimStart(s) == s[k..]
  {
    if s != [] && IsSpace(s[0]) {
      TrimStartIsSuffix(s[1..]);
      var k :| 0 <= k <= |s| - 1 && TrimStart(s[1..]) == s[1..][k..];
      assert s[1..][k..] == s[k + 1..];
    } else {
      assert s == s[0..];
    }
  }

  lemma {:induction false} TrimEndIsPrefix(s: string)
    ensures exists k :: 0 <= k <= |s| && TrimEnd(s) == s[..k]
  {
    if s != [] && IsSpace(s[|s| - 1]) {
      TrimEndIsPrefix(s[..|s| - 1]);
      var k :| 0 <= k <= |s| - 1 && TrimEnd(s[..|s| - 1]) == s[..|s| - 1][..k];
      assert s[..|s| - 1][..k] == s[..k];
    } else {
      assert s == s[..|s|];
    }
  }

  lemma BlankExamplePath()
    ensures BlankSeparators("/pets/{id}") == " pets  id "
  {
  }

  /** Two words, each between blanks, split into exactly those two words. */
  lemma WordsOfTwo(x: string, y: string)
    requires x != [] && forall i :: 0 <= i < |x| ==> !IsSpace(x[i])
    requires y != [] && forall i :: 0 <= i < |y| ==> !IsSpace(y[i])
    ensures Words([' '] + x + [' ', ' '] + y + [' ']) == [x, y]
  {
    var sp: string := [];
    var left := [' '] + x;
    var right := [' '] + y + [' '] + sp;
    assert [' '] + x + [' ', ' '] + y + [' '] == left + [' '] + right;
    WordsSplit(left, ' ', right);
    WordsSplit([' '] + y, ' ', sp);
    WordsSpaceFirst(x);
    WordsSpaceFirst(y);
    WordsOfWord(x);
    WordsOfWord(y);
  }

  lemma WordsOfExamplePath()
    ensures Words(BlankSeparators("/pets/{id}")) == ["pets", "id"]
  {
    BlankExamplePath();
    WordsOfTwo("pets", "id");
    assert " pets  id " == [' '] + "pets" + [' ', ' '] + "id" + [' '];
  }

  lemma WordsSpaceFirst(w: string)
    ensures Words([' '] + w) == Words(w)
  {
    assert ([' '] + w)[1..] == w;
  }

  lemma CapitalizeExampleWords()
    ensures Concat(CapitalizeEach(["pets", "id"])) == "PetsId"
  {
    var caps := CapitalizeEach(["pets", "id"]);
    var p, i := caps[0], caps[1];
    assert p == [UpperChar('p')] + "pets"[1..];
    assert |p| == 4 && p[0] == 'P' && p[1] == 'e' && p[2] == 't' && p[3] == 's';
    assert i == [UpperChar('i')] + "id"[1..];
    assert |i| == 2 && i[0] == 'I' && i[1] == 'd';
    assert p == "Pets" && i == "Id";
    assert caps == [p, i];
    assert Concat(["Pets", "Id"]) == "PetsId";
  }

  lemma LowerExampleVerb()
    ensures Lower("get") == "get"
  {
    var g := Lower("get");
    assert |g| == 3 && g[0] == 'g' && g[1] == 'e' && g[2] == 't';
  }

  /** `get` on `/pets/{id}` is named `getPetsId`. */
  lemma MkNameExample()
    ensures MkName(None, "get", "/pets/{id}") == "getPetsId"
  {
    MkNameShape("get", "/pets/{id}");
    WordsOfExamplePath();
    CapitalizeExampleWords();
    LowerExampleVerb();
  }

  // ---------------------------------------------------------------------
  // pickContent
  // ---------------------------------------------------------------------

  /** A media-type object of a `content` map. */
  datatype MediaType = MediaType(schema: Option<Schema>)

  /** A request body or response object: whatever it holds besides `content`
      plays no part. */
  datatype ContentHolder = ContentHolder(content: Option<Entries<MediaType>>)

  const JsonMediaType: string := "application/json"

  /** `pickContent(holder)`: nothing without a holder or a `content` map;
      otherwise the `application/json` entry, or else the first entry, or
      else a body with neither content type nor schema. */
  function PickContent(holder: Option<ContentHolder>): (r: Option<Body>)
    ensures r.None? <==> holder.None? || holder.value.content.None?
    ensures r.Some? && JsonMediaType in Keys(holder.value.content.value) ==>
      r.value.contentType == Some(JsonMediaType)
  {
    if holder.None? || holder.value.content.None? then None
    else
      var content := holder.value.content.value;
      match Get(content, JsonMediaType)
      case Some(mt) => Some(Body(Some(JsonMediaType), mt.schema))
      case None =>
        if content == [] then Some(Body(None, None))
        else Some(Body(Some(content[0].0), content[0].1.schema))
  }

  /** In an object (distinct keys) the `application/json` entry, wherever it
      stands, is the one picked. */
  lemma PickContentPrefersJson(content: Entries<MediaType>, i: nat)
    requires DistinctKeys(content)
    requires i < |content| && content[i].0 == JsonMediaType
    ensures PickContent(Some(ContentHolder(Some(content)))) == Some(Body(Some(JsonMediaType), content[i].1.schema))
  {
    assert Keys(content)[i] == JsonMediaType;
    var j :| 0 <= j < |content| && content[j] == (JsonMediaType, Get(content, JsonMediaType).value);
  }

  /** Without an `application/json` entry the first entry is picked, and a
      present but empty map gives a body with nothing in it. */
  lemma PickContentFallback(content: Entries<MediaType>)
    requires JsonMediaType !in Keys(content)
    ensures content == [] ==> PickContent(Some(ContentHolder(Some(content)))) == Some(Body(None, None))
    ensures content != [] ==>
      PickContent(Some(ContentHolder(Some(content)))) == Some(Body(Some(content[0].0), content[0].1.schema))
  {
  }

  // ---------------------------------------------------------------------
  // mergeParameters
  // ---------------------------------------------------------------------

  /** The map key `${p.name}::${p.in}`. */
  function ParamKey(name: string, location: Location): string
  {
    name + "::" + LocationName(location)
  }

  /** Distinct name/location pairs have distinct keys: the four location
      names end in four different letters. */
  lemma ParamKeyInjective(n1: string, l1: Location, n2: string, l2: Location)
    requires ParamKey(n1, l1) == ParamKey(n2, l2)
    ensures n1 == n2 && l1 == l2
  {
    var k := ParamKey(n1, l1);
    var a, b := LocationName(l1), LocationName(l2);
    assert k[|k| - 1] == a[|a| - 1] == b[|b| - 1];
    assert l1 == l2;
    assert n1 == k[..|n1|] == n2;
  }

  /** The parameters keyed as the merge keys them. */
  function Keyed(ps: seq<RawParam>): (r: Entries<RawParam>)
    ensures |r| == |ps|
    ensures forall i :: 0 <= i < |ps| ==> r[i] == (ParamKey(ps[i].name, ps[i].location), ps[i])
  {
    seq(|ps|, i requires 0 <= i < |ps| => (ParamKey(ps[i].name, ps[i].location), ps[i]))
  }

  /** One merged parameter: `required` is `!!p.required`, `schema` is
      `p.schema ?? p`. */
  function ToParam(p: RawParam): (r: Param)
    ensures r.name == p.name && r.location == p.location
    ensures r.required <==> p.required == Some(true)
    ensures p.schema.Some? ==> r.schema == Declared(p.schema.value)
    ensures p.schema.None? ==> r.schema == WholeParam(p)
  {
    Param(p.name, p.location, p.required == Some(true),
          if p.schema.Some? then Declared(p.schema.value) else WholeParam(p))
  }

  function Values<V>(m: Entries<V>): (r: seq<V>)
    ensures |r| == |m|
    ensures forall i :: 0 <= i < |m| ==> r[i] == m[i].1
  {
    seq(|m|, i requires 0 <= i < |m| => m[i].1)
  }

  function ToParams(ps: seq<RawParam>): (r: seq<Param>)
    ensures |r| == |ps|
    ensures forall i :: 0 <= i < |ps| ==> r[i] == ToParam(ps[i])
  {
    seq(|ps|, i requires 0 <= i < |ps| => ToParam(ps[i]))
  }

  /** The key-to-parameter map after both loops of the merge. */
  function MergedMap(pathParams: seq<RawParam>, opParams: seq<RawParam>): Entries<RawParam>
  {
    PutAll(PutAll([], Keyed(pathParams)), Keyed(opParams))
  }

  /** What `mergeParameters(pathParams, opParams)` returns. */
  function MergedParams(pathParams: seq<RawParam>, opParams: seq<RawParam>): seq<Param>
  {
    ToParams(Values(MergedMap(pathParams, opParams)))
  }

  /** `mergeParameters(pathParams, opParams)`: every path-level parameter is
      set into a map under its key, then every operation-level one, and the
      map's values are returned in insertion order. */
  method MergeParameters(pathParams: seq<RawParam>, opParams: seq<RawParam>) returns (r: seq<Param>)
    ensures r == MergedParams(pathParams, opParams)
  {
    var m: Entries<RawParam> := [];
    for i := 0 to |pathParams|
      invariant m == PutAll([], Keyed(pathParams[..i]))
    {
      var p := pathParams[i];
      KeyedPrefix(pathParams, i);
      m := Put(m, ParamKey(p.name, p.location), p);
    }
    assert pathParams[..|pathParams|] == pathParams;
    ghost var base := m;
    for i := 0 to |opParams|
      invariant m == PutAll(base, Keyed(opParams[..i]))
    {
      var p := opParams[i];
      KeyedPrefix(opParams, i);
      m := Put(m, ParamKey(p.name, p.location), p);
    }
    assert opParams[..|opParams|] == opParams;
    r := [];
    for i := 0 to |m|
      invariant r == ToParams(Values(m[..i]))
    {
      ValuesPrefix(m, i);
      r := r + [ToParam(m[i].1)];
    }
    assert m[..|m|] == m;
  }

  lemma KeyedPrefix(ps: seq<RawParam>, i: nat)
    requires i < |ps|
    ensures Keyed(ps[..i + 1]) == Keyed(ps[..i]) + [(ParamKey(ps[i].name, ps[i].location), ps[i])]
  {
  }

  lemma ValuesPrefix(m: Entries<RawParam>, i: nat)
    requires i < |m|
    ensures ToParams(Values(m[..i + 1])) == ToParams(Values(m[..i])) + [ToParam(m[i].1)]
  {
  }

  /** The merge equals one run of `set`s over the path-level then the
      operation-level parameters. */
  lemma MergedMapIsOneRun(pathParams: seq<RawParam>, opParams: seq<RawParam>)
    ensures MergedMap(pathParams, opParams) == FromEntries(Keyed(pathParams + opParams))
  {
    assert Keyed(pathParams + opParams) == Keyed(pathParams) + Keyed(opParams);
    PutAllAppend([], Keyed(pathParams), Keyed(opParams));
  }

  /** No two merged parameters share a name and a location. */
  lemma MergedParamsDistinct(pathParams: seq<RawParam>, opParams: seq<RawParam>)
    ensures var r := MergedParams(pathParams, opParams);
      forall i, j :: 0 <= i < j < |r| ==> r[i].name != r[j].name || r[i].location != r[j].location
  {
    var m := MergedMap(pathParams, opParams);
    PutAllDistinct([], Keyed(pathParams));
    PutAllDistinct(PutAll([], Keyed(pathParams)), Keyed(opParams));
    MergedMapKeys(pathParams, opParams);
    var r := MergedParams(pathParams, opParams);
  }

  /** Every entry of the merged map is keyed by its own parameter. */
  lemma MergedMapKeys(pathParams: seq<RawParam>, opParams: seq<RawParam>)
    ensures var m := MergedMap(pathParams, opParams);
      forall i :: 0 <= i < |m| ==> m[i].0 == ParamKey(m[i].1.name, m[i].1.location)
  {
    WellKeyedPutAll([], Keyed(pathParams));
    WellKeyedPutAll(PutAll([], Keyed(pathParams)), Keyed(opParams));
  }

  predicate WellKeyed(m: Entries<RawParam>) {
    forall i :: 0 <= i < |m| ==> m[i].0 == ParamKey(m[i].1.name, m[i].1.location)
  }

  lemma {:induction false} WellKeyedPutAll(m: Entries<RawParam>, es: Entries<RawParam>)
    requires WellKeyed(m) && WellKeyed(es)
    ensures WellKeyed(PutAll(m, es))
  {
    if es != [] {
      var init := es[..|es| - 1];
      var last := es[|es| - 1];
      WellKeyedPutAll(m, init);
      var prev := PutAll(m, init);
      var r := Put(prev, last.0, last.1);
      if last.0 in Keys(prev) {
        forall i | 0 <= i < |r| ensures r[i].0 == ParamKey(r[i].1.name, r[i].1.location) {
          assert Keys(r)[i] == Keys(prev)[i];
          if r[i] != prev[i] {
            assert r[i].0 == prev[i].0;
            // the one replaced entry takes the value that came with the key
            assert Get(r, last.0) == Some(last.1);
          }
        }
      }
    }
  }

  /** A parameter that the merged map holds is in the merged output. */
  lemma InMergedOutput(pathParams: seq<RawParam>, opParams: seq<RawParam>, p: RawParam)
    requires Get(MergedMap(pathParams, opParams), ParamKey(p.name, p.location)) == Some(p)
    ensures ToParam(p) in MergedParams(pathParams, opParams)
  {
    var m := MergedMap(pathParams, opParams);
    var i :| 0 <= i < |m| && m[i] == (ParamKey(p.name, p.location), p);
    assert MergedParams(pathParams, opParams)[i] == ToParam(p);
  }

  /** An operation-level parameter that is the last with its name and
      location appears in the output whole: its `required` and its `schema`
      together, whatever the path level declared under the same key. */
  lemma MergedOperationWins(pathParams: seq<RawParam>, opParams: seq<RawParam>, j: nat)
    requires j < |opParams|
    requires forall b :: j < b < |opParams| ==>
      opParams[b].name != opParams[j].name || opParams[b].location != opParams[j].location
    ensures ToParam(opParams[j]) in MergedParams(pathParams, opParams)
  {
    var p := opParams[j];
    var k := ParamKey(p.name, p.location);
    var es := Keyed(opParams);
    forall b | j < b < |es| ensures es[b].0 != es[j].0 {
      if es[b].0 == es[j].0 {
        ParamKeyInjective(opParams[b].name, opParams[b].location, p.name, p.location);
      }
    }
    LastValueAt(es, j);
    assert Keys(es)[j] == k;
    PutAllGet(PutAll([], Keyed(pathParams)), es, k);
    InMergedOutput(pathParams, opParams, p);
  }

  /** A path-level parameter that is the last with its name and location,
      and that no operation-level parameter overrides, appears in the output. */
  lemma MergedPathKept(pathParams: seq<RawParam>, opParams: seq<RawParam>, j: nat)
    requires j < |pathParams|
    requires forall b :: j < b < |pathParams| ==>
      pathParams[b].name != pathParams[j].name || pathParams[b].location != pathParams[j].location
    requires forall b :: 0 <= b < |opParams| ==>
      opParams[b].name != pathParams[j].name || opParams[b].location != pathParams[j].location
    ensures ToParam(pathParams[j]) in MergedParams(pathParams, opParams)
  {
    var p := pathParams[j];
    var k := ParamKey(p.name, p.location);
    var es := Keyed(pathParams);
    forall b | j < b < |es| ensures es[b].0 != es[j].0 {
      if es[b].0 == es[j].0 {
        ParamKeyInjective(pathParams[b].name, pathParams[b].location, p.name, p.location);
      }
    }
    LastValueAt(es, j);
    assert Keys(es)[j] == k;
    assert k !in Keys(Keyed(opParams)) by {
      forall b | 0 <= b < |opParams| ensures Keys(Keyed(opParams))[b] != k {
        if Keys(Keyed(opParams))[b] == k {
          ParamKeyInjective(opParams[b].name, opParams[b].location, p.name, p.location);
        }
      }
    }
    PutAllGet([], es, k);
    PutAllGet(PutAll([], es), Keyed(opParams), k);
    InMergedOutput(pathParams, opParams, p);
  }

  /** Every output parameter is built from one of the input parameters. */
  lemma MergedParamsFromInputs(pathParams: seq<RawParam>, opParams: seq<RawParam>)
    ensures forall q :: q in MergedParams(pathParams, opParams) ==>
      exists p :: p in pathParams + opParams && q == ToParam(p)
  {
    var m := MergedMap(pathParams, opParams);
    PutAllFrom([], Keyed(pathParams));
    PutAllFrom(PutAll([], Keyed(pathParams)), Keyed(opParams));
    var r := MergedParams(pathParams, opParams);
    forall q | q in r ensures exists p :: p in pathParams + opParams && q == ToParam(p) {
      var i :| 0 <= i < |r| && r[i] == q;
      assert m[i] in m;
      var p := m[i].1;
      if m[i] in Keyed(pathParams) {
        var a :| 0 <= a < |pathParams| && Keyed(pathParams)[a] == m[i];
        assert p == pathParams[a] == (pathParams + opParams)[a];
      } else {
        var a :| 0 <= a < |opParams| && Keyed(opParams)[a] == m[i];
        assert p == opParams[a] == (pathParams + opParams)[|pathParams| + a];
      }
    }
  }

  /** Output order is first-insertion order of the keys over the path-level
      then the operation-level parameters. */
  lemma MergedParamsOrder(pathParams: seq<RawParam>, opParams: seq<RawParam>)
    ensures var r := MergedParams(pathParams, opParams);
      forall i, j :: 0 <= i < j < |r| ==>
        FirstBefore(Keyed(pathParams + opParams), ParamKey(r[i].name, r[i].location), ParamKey(r[j].name, r[j].location))
  {
    MergedMapIsOneRun(pathParams, opParams);
    FromEntriesOrder(Keyed(pathParams + opParams));
    MergedMapKeys(pathParams, opParams);
  }

  /** Two path-level parameters, the first redeclared by the operation:
      the redeclaration takes the first place, the other keeps the second. */
  lemma MergeOverridesInPlace(a: RawParam, b: RawParam, c: RawParam)
    requires a.name == c.name && a.location == c.location
    requires a.name != b.name || a.location != b.location
    ensures MergedParams([a, b], [c]) == [ToParam(c), ToParam(b)]
  {
    var ka, kb := ParamKey(a.name, a.location), ParamKey(b.name, b.location);
    if ka == kb {
      ParamKeyInjective(a.name, a.location, b.name, b.location);
    }
    var e: Entries<RawParam> := [];
    var m1 := Put(e, ka, a);
    assert m1 == [(ka, a)];
    assert Keys(m1) == [ka];
    var m2 := Put(m1, kb, b);
    assert m2 == [(ka, a), (kb, b)];
    assert Keys(m2) == [ka, kb];
    var m3 := Put(m2, ka, c);
    assert m3 == [(ka, c), (kb, b)];
    assert Keyed([a, b]) == [(ka, a)] + [(kb, b)];
    assert Keyed([c]) == e + [(ka, c)];
    PutAllSnoc(e, e, (ka, a));
    assert e + [(ka, a)] == [(ka, a)];
    PutAllSnoc(e, [(ka, a)], (kb, b));
    PutAllSnoc(m2, e, (ka, c));
  }

  /** A path-level required string `id` and an optional boolean `verbose`,
      with the operation redeclaring `id` as an optional integer: `id` keeps
      its first place and takes the operation's flag and schema together. */
  lemma MergeExample()
    ensures
      var idPath := RawParam("id", InPath, Some(true), Some(TypeOnly("string")));
      var verbose := RawParam("verbose", InQuery, None, Some(TypeOnly("boolean")));
      var idOp := RawParam("id", InPath, Some(false), Some(TypeOnly("integer")));
      MergedParams([idPath, verbose], [idOp]) ==
        [Param("id", InPath, false, Declared(TypeOnly("integer"))),
         Param("verbose", InQuery, false, Declared(TypeOnly("boolean")))]
  {
    var idPath := RawParam("id", InPath, Some(true), Some(TypeOnly("string")));
    var verbose := RawParam("verbose", InQuery, None, Some(TypeOnly("boolean")));
    var idOp := RawParam("id", InPath, Some(false), Some(TypeOnly("integer")));
    MergeOverridesInPlace(idPath, verbose, idOp);
  }
}
