/** `isUrl` and `getExtension` (src/utils/file.ts), with the POSIX
    `path.extname` and the part of URL parsing they rely on. */
module FileUtils {
  import opened Wrappers
  import opened Text

  // ---------------------------------------------------------------------
  // isUrl
  // ---------------------------------------------------------------------

  /** `s` starts with `prefix` when both are compared with ASCII letters
      folded, as a regular expression with the `i` flag compares them. */
  predicate StartsWithIgnoringCase(s: string, prefix: string) {
    |prefix| <= |s| && forall i :: 0 <= i < |prefix| ==> LowerChar(s[i]) == LowerChar(prefix[i])
  }

  /** `/^https?:\/\//i.test(value)`. */
  predicate IsUrl(value: string) {
    StartsWithIgnoringCase(value, "http://") || StartsWithIgnoringCase(value, "https://")
  }

  /** A URL is recognised by its lower-cased text's prefix. */
  lemma IsUrlByLowerCase(value: string)
    ensures IsUrl(value) <==> StartsWith(Lower(value), "http://") || StartsWith(Lower(value), "https://")
  {
    var low := Lower(value);
    if StartsWith(low, "http://") {
      assert forall i :: 0 <= i < 7 ==> LowerChar(value[i]) == low[i] == "http://"[i];
    }
    if StartsWith(low, "https://") {
      assert forall i :: 0 <= i < 8 ==> LowerChar(value[i]) == low[i] == "https://"[i];
    }
    if StartsWithIgnoringCase(value, "http://") {
      assert low[..7] == "http://";
    }
    if StartsWithIgnoringCase(value, "https://") {
      assert low[..8] == "https://";
    }
  }

  /** Neither an absolute POSIX path nor a Windows drive path is a URL. */
  lemma LocalPathsAreNotUrls(value: string)
    requires |value| >= 2 && (value[0] == '/' || value[1] == ':')
    ensures !IsUrl(value)
  {
    if value[0] != '/' {
      assert LowerChar(value[1]) == ':' != 't';
    }
  }

  /** A string starting with the prefix itself starts with it ignoring case. */
  lemma StartsWithExactly(s: string, prefix: string)
    requires StartsWith(s, prefix)
    ensures StartsWithIgnoringCase(s, prefix)
  {
    assert forall i :: 0 <= i < |prefix| ==> s[i] == s[..|prefix|][i];
  }

  /** A string not starting with `h` or `H` is not a URL. */
  lemma NotUrlByFirst(s: string)
    requires s == [] || LowerChar(s[0]) != 'h'
    ensures !IsUrl(s)
  {
    if |s| >= 7 {
      assert LowerChar("http://"[0]) == 'h';
      assert LowerChar("https://"[0]) == 'h';
    }
  }

  /** The examples of the URL check. */
  lemma IsUrlExamples()
    ensures IsUrl("https://example.com/schema.json")
    ensures IsUrl("http://example.com/foo.yaml")
    ensures !IsUrl("C:\\Users\\me\\schema.yaml")
    ensures !IsUrl("/home/me/schema.yaml")
    ensures !IsUrl("ftp://example.com/schema.json")
  {
    StartsWithExactly("https://example.com/schema.json", "https://");
    StartsWithExactly("http://example.com/foo.yaml", "http://");
    NotUrlByFirst("C:\\Users\\me\\schema.yaml");
    NotUrlByFirst("/home/me/schema.yaml");
    NotUrlByFirst("ftp://example.com/schema.json");
  }

  /** The scheme may be written in capitals. */
  lemma CapitalSchemeIsUrl()
    ensures IsUrl("HTTPS://EXAMPLE.COM")
  {
    var u := "HTTPS://EXAMPLE.COM";
    assert LowerChar(u[0]) == 'h' && LowerChar(u[1]) == 't' && LowerChar(u[2]) == 't';
    assert LowerChar(u[3]) == 'p' && LowerChar(u[4]) == 's';
    assert forall i :: 0 <= i < 8 ==> LowerChar(u[i]) == LowerChar("https://"[i]);
  }

  // ---------------------------------------------------------------------
  // path.extname
  // ---------------------------------------------------------------------

  /** Position just after the last non-`/` character, 0 when there is none. */
  function EndOfName(p: string): (e: nat)
    ensures e <= |p|
    ensures forall i :: e <= i < |p| ==> p[i] == '/'
    ensures e > 0 ==> p[e - 1] != '/'
  {
    if p == [] then 0
    else if p[|p| - 1] == '/' then EndOfName(p[..|p| - 1])
    else |p|
  }

  /** Position just after the last `/` before `end`, 0 when there is none. */
  function StartOfName(p: string, end: nat): (s: nat)
    requires end <= |p|
    ensures s <= end
    ensures forall i :: s <= i < end ==> p[i] != '/'
    ensures s > 0 ==> p[s - 1] == '/'
  {
    if end == 0 then 0
    else if p[end - 1] == '/' then end
    else StartOfName(p, end - 1)
  }

  /** The last path segment, trailing slashes ignored. */
  function BaseName(p: string): (b: string)
    ensures forall i :: 0 <= i < |b| ==> b[i] != '/'
  {
    var end := EndOfName(p);
    p[StartOfName(p, end)..end]
  }

  /** Index of the last `.` in `s`, if any. */
  function LastDot(s: string): (r: Option<nat>)
    ensures r.Some? ==> r.value < |s| && s[r.value] == '.'
    ensures r.Some? ==> forall i :: r.value < i < |s| ==> s[i] != '.'
    ensures r.None? ==> forall i :: 0 <= i < |s| ==> s[i] != '.'
  {
    if s == [] then None
    else if s[|s| - 1] == '.' then Some(|s| - 1)
    else LastDot(s[..|s| - 1])
  }

  /** Node's POSIX `path.extname(p)`: from the last `.` of the last segment to
      its end; empty when the segment has no dot, when its only leading dot
      is that dot (`.bashrc`), and for `..`. */
  function Extname(p: string): string
  {
    var base := BaseName(p);
    match LastDot(base)
    case None => ""
    case Some(d) => if d == 0 || base == ".." then "" else base[d..]
  }

  /** An extension is empty or a dot followed by characters that are neither
      dots nor slashes, and it ends the last segment of the path. */
  lemma ExtnameShape(p: string)
    ensures var r := Extname(p);
      && (r == "" || (r[0] == '.' && forall i :: 1 <= i < |r| ==> r[i] != '.' && r[i] != '/'))
      && EndsWith(BaseName(p), r)
  {
  }

  // ---------------------------------------------------------------------
  // URL pathname
  // ---------------------------------------------------------------------

  /** Characters that end the host of an http(s) URL. */
  predicate EndsHost(c: char) {
    c == '/' || c == '\\' || c == '?' || c == '#'
  }

  /** The separators skipped between the scheme and the host. */
  predicate IsSlash(c: char) {
    c == '/' || c == '\\'
  }

  predicate NotSlash(c: char) {
    !IsSlash(c)
  }

  /** Characters that end the path of a URL. */
  predicate EndsPath(c: char) {
    c == '?' || c == '#'
  }

  /** Index of the first character of `s` satisfying `stop`, or `|s|`. */
  function FirstWhere(s: string, stop: char -> bool): (i: nat)
    ensures i <= |s|
    ensures forall j :: 0 <= j < i ==> !stop(s[j])
    ensures i < |s| ==> stop(s[i])
  {
    if s == [] then 0 else if stop(s[0]) then 0 else 1 + FirstWhere(s[1..], stop)
  }

  /** The length of the URL's scheme and its `//`. */
  function SchemeLength(value: string): (n: nat)
    requires IsUrl(value)
    ensures n <= |value|
  {
    if StartsWithIgnoringCase(value, "https://") then 8 else 7
  }

  /** The pathname read from what follows the host: the text up to a query
      or fragment, back-slashes read as slashes, `/` when it is empty. */
  function PathOfTail(tail: string): (r: string)
    ensures (tail == [] || EndsHost(tail[0])) ==> |r| >= 1 && r[0] == '/'
    ensures forall i :: 0 <= i < |r| ==> !EndsPath(r[i]) && r[i] != '\\'
  {
    var pathEnd := FirstWhere(tail, EndsPath);
    var path := seq(pathEnd, i requires 0 <= i < pathEnd => if tail[i] == '\\' then '/' else tail[i]);
    if path == [] then "/" else path
  }

  /** What follows the scheme's `//` and any further `/` or `\`, which an
      http(s) URL skips before its host. */
  function AfterSlashes(value: string): (rest: string)
    requires IsUrl(value)
    ensures rest == [] || !IsSlash(rest[0])
  {
    var afterScheme := value[SchemeLength(value)..];
    afterScheme[FirstWhere(afterScheme, NotSlash)..]
  }

  /** `new URL(value).pathname` for a value `IsUrl` accepts; no value when
      the host is empty (the constructor throws). */
  function UrlPathname(value: string): (r: Option<string>)
    requires IsUrl(value)
    ensures r.Some? ==> |r.value| >= 1 && r.value[0] == '/'
    ensures r.Some? ==> forall i :: 0 <= i < |r.value| ==> !EndsPath(r.value[i])
  {
    PathnameAfterSlashes(AfterSlashes(value))
  }

  /** The pathname read from what follows the slashes: the host runs up to
      the first `/`, `\`, `?` or `#`, and must not be empty. */
  function PathnameAfterSlashes(rest: string): (r: Option<string>)
    ensures r.Some? ==> |r.value| >= 1 && r.value[0] == '/'
    ensures r.Some? ==> forall i :: 0 <= i < |r.value| ==> !EndsPath(r.value[i])
  {
    var hostEnd := FirstWhere(rest, EndsHost);
    if hostEnd == 0 then None else Some(PathOfTail(rest[hostEnd..]))
  }

  // ---------------------------------------------------------------------
  // getExtension
  // ---------------------------------------------------------------------

  /** `getExtension(filePath)`: the lower-cased extension of the URL's
      pathname, or `""` when the URL does not parse, or of the path itself. */
  function GetExtension(filePath: string): (r: string)
    ensures HasNoUpper(r)
  {
    if IsUrl(filePath) then
      match UrlPathname(filePath)
      case None => ""
      case Some(pathname) => Lower(Extname(pathname))
    else Lower(Extname(filePath))
  }

  /** The extension is already lower-case: asking again changes nothing. */
  lemma GetExtensionLowered(filePath: string)
    ensures Lower(GetExtension(filePath)) == GetExtension(filePath)
  {
    LowerIdempotent(if IsUrl(filePath) && UrlPathname(filePath).Some? then Extname(UrlPathname(filePath).value)
                    else Extname(filePath));
  }

  /** Whether a URL's scheme is `https` is fixed by its first characters. */
  lemma SchemeKept(value: string, t: string)
    requires IsUrl(value)
    ensures IsUrl(value + t)
    ensures StartsWithIgnoringCase(value + t, "https://") <==> StartsWithIgnoringCase(value, "https://")
  {
    var v := value + t;
    assert forall i :: 0 <= i < |value| ==> v[i] == value[i];
    if !StartsWithIgnoringCase(value, "https://") {
      assert LowerChar(value[4]) == LowerChar("http://"[4]) == ':';
      assert LowerChar(v[4]) != LowerChar("https://"[4]);
    }
  }

  /** A query or fragment after a tail without one leaves its pathname
      unchanged. */
  lemma PathOfTailSuffix(tail: string, mark: char, suffix: string)
    requires EndsPath(mark)
    requires forall i :: 0 <= i < |tail| ==> !EndsPath(tail[i])
    ensures PathOfTail(tail + [mark] + suffix) == PathOfTail(tail)
  {
    var t := tail + [mark] + suffix;
    assert t == tail + ([mark] + suffix);
    FirstWherePrefix(tail, [mark] + suffix, EndsPath);
    assert FirstWhere(tail, EndsPath) == |tail|;
  }

  /** A query or fragment after the host and path moves neither the end of
      the host nor the pathname. */
  lemma AfterSchemeSuffix(rest: string, mark: char, suffix: string)
    requires EndsPath(mark)
    requires forall i :: 0 <= i < |rest| ==> !EndsPath(rest[i])
    ensures var hostEnd := FirstWhere(rest, EndsHost);
      && FirstWhere(rest + [mark] + suffix, EndsHost) == hostEnd
      && PathOfTail((rest + [mark] + suffix)[hostEnd..]) == PathOfTail(rest[hostEnd..])
    ensures PathnameAfterSlashes(rest + [mark] + suffix) == PathnameAfterSlashes(rest)
  {
    var r := rest + [mark] + suffix;
    assert r == rest + ([mark] + suffix);
    FirstWherePrefix(rest, [mark] + suffix, EndsHost);
    var hostEnd := FirstWhere(rest, EndsHost);
    assert r[hostEnd..] == rest[hostEnd..] + [mark] + suffix;
    PathOfTailSuffix(rest[hostEnd..], mark, suffix);
  }

  /** A query or fragment appended to a URL without either leaves its
      pathname unchanged. */
  lemma UrlPathnameSuffix(value: string, mark: char, suffix: string)
    requires IsUrl(value) && EndsPath(mark)
    requires forall i :: 0 <= i < |value| ==> !EndsPath(value[i])
    ensures IsUrl(value + [mark] + suffix)
    ensures UrlPathname(value + [mark] + suffix) == UrlPathname(value)
  {
    AfterSlashesSuffix(value, mark, suffix);
    AfterSlashesClean(value);
    AfterSchemeSuffix(AfterSlashes(value), mark, suffix);
  }

  /** What follows the slashes of a URL without a query or fragment has
      neither. */
  lemma AfterSlashesClean(value: string)
    requires IsUrl(value)
    requires forall i :: 0 <= i < |value| ==> !EndsPath(value[i])
    ensures var rest := AfterSlashes(value); forall i :: 0 <= i < |rest| ==> !EndsPath(rest[i])
  {
    var n := SchemeLength(value);
    var a := value[n..];
    var k := FirstWhere(a, NotSlash);
    assert forall i :: 0 <= i < |a[k..]| ==> a[k..][i] == value[n + k + i];
  }

  /** A query or fragment appended to a URL is appended to what follows its
      slashes. */
  lemma AfterSlashesSuffix(value: string, mark: char, suffix: string)
    requires IsUrl(value) && EndsPath(mark)
    ensures IsUrl(value + [mark] + suffix)
    ensures AfterSlashes(value + [mark] + suffix) == AfterSlashes(value) + [mark] + suffix
  {
    var t := [mark] + suffix;
    assert value + [mark] + suffix == value + t;
    SchemeKept(value, t);
    var n := SchemeLength(value);
    var a := value[n..];
    assert (value + t)[n..] == a + t;
    FirstWherePrefix(a, t, NotSlash);
    var k := FirstWhere(a, NotSlash);
    assert (a + t)[k..] == a[k..] + [mark] + suffix;
  }

  /** For a URL only the pathname counts: a query string appended to a URL
      without a query or fragment leaves its extension unchanged. */
  lemma UrlQueryIgnored(value: string, query: string)
    requires IsUrl(value)
    requires forall i :: 0 <= i < |value| ==> value[i] != '?' && value[i] != '#'
    ensures IsUrl(value + "?" + query)
    ensures GetExtension(value + "?" + query) == GetExtension(value)
  {
    UrlPathnameSuffix(value, '?', query);
  }

  /** Nor does a fragment. */
  lemma UrlFragmentIgnored(value: string, fragment: string)
    requires IsUrl(value)
    requires forall i :: 0 <= i < |value| ==> value[i] != '?' && value[i] != '#'
    ensures IsUrl(value + "#" + fragment)
    ensures GetExtension(value + "#" + fragment) == GetExtension(value)
  {
    UrlPathnameSuffix(value, '#', fragment);
  }

  /** A URL with no host, whatever slashes follow its scheme, fails to
      parse, and its extension is `""`. */
  lemma UrlWithoutHost(scheme: string, slashes: string, tail: string)
    requires scheme == "https://" || scheme == "http://"
    requires forall i :: 0 <= i < |slashes| ==> IsSlash(slashes[i])
    requires tail == [] || EndsPath(tail[0])
    ensures IsUrl(scheme + slashes + tail)
    ensures UrlPathname(scheme + slashes + tail) == None
    ensures GetExtension(scheme + slashes + tail) == ""
  {
    var v := scheme + slashes + tail;
    assert v == scheme + (slashes + tail);
    SchemeOf(scheme, slashes + tail);
    SkipSlashes(slashes, tail);
  }

  /** The slashes before a host, or before what cannot start one, are
      skipped. */
  lemma {:induction false} SkipSlashes(slashes: string, rest: string)
    requires forall i :: 0 <= i < |slashes| ==> IsSlash(slashes[i])
    requires rest == [] || !IsSlash(rest[0])
    ensures FirstWhere(slashes + rest, NotSlash) == |slashes|
  {
    if slashes != [] {
      assert (slashes + rest)[1..] == slashes[1..] + rest;
      SkipSlashes(slashes[1..], rest);
    } else {
      assert slashes + rest == rest;
    }
  }

  /** Extending a string whose stopping character is already found, or which
      has none and is followed by one, does not move the first stop. */
  lemma {:induction false} FirstWherePrefix(s: string, t: string, stop: char -> bool)
    requires t != [] && stop(t[0])
    ensures FirstWhere(s + t, stop) == FirstWhere(s, stop)
  {
    if s != [] {
      assert (s + t)[1..] == s[1..] + t;
      if !stop(s[0]) {
        FirstWherePrefix(s[1..], t, stop);
      }
    } else {
      assert s + t == t;
    }
  }

  /** A local path ending in `stem.ext` has the extension `.ext`, lower-cased;
      a Windows path's back-slashes are no separators to POSIX `extname`, but
      its last dot still starts the extension. */
  lemma LocalPathExtension(dir: string, stem: string, ext: string)
    requires !IsUrl(dir + stem + "." + ext)
    requires dir == [] || dir[|dir| - 1] == '/'
    requires stem != [] && forall i :: 0 <= i < |stem| ==> stem[i] != '/'
    requires ext != [] && forall i :: 0 <= i < |ext| ==> ext[i] != '/' && ext[i] != '.'
    ensures GetExtension(dir + stem + "." + ext) == Lower("." + ext)
  {
    ExtnameOfName(dir, stem, ext);
  }

  /** `dir + stem + "." + ext` with a last segment `stem.ext`. */
  lemma ExtnameOfName(dir: string, stem: string, ext: string)
    requires dir == [] || dir[|dir| - 1] == '/'
    requires stem != [] && forall i :: 0 <= i < |stem| ==> stem[i] != '/'
    requires ext != [] && forall i :: 0 <= i < |ext| ==> ext[i] != '/' && ext[i] != '.'
    ensures Extname(dir + stem + "." + ext) == "." + ext
  {
    var p := dir + stem + "." + ext;
    var name := stem + "." + ext;
    assert p == dir + name;
    assert p[|p| - 1] == ext[|ext| - 1];
    assert EndOfName(p) == |p|;
    NameStart(dir, name);
    assert BaseName(p) == name;
    LastDotOf(stem, ext);
    AfterDot(stem, ext);
    assert |name| != 2 || ext == [];
  }

  lemma NameStart(dir: string, name: string)
    requires dir == [] || dir[|dir| - 1] == '/'
    requires forall i :: 0 <= i < |name| ==> name[i] != '/'
    ensures StartOfName(dir + name, |dir + name|) == |dir|
    decreases |name|
  {
    var p := dir + name;
    if name != [] {
      assert p[|p| - 1] == name[|name| - 1];
      assert p[..|p|] == p;
      StartOfNameShrink(p, |p|);
      assert dir + name[..|name| - 1] == p[..|p| - 1];
      NameStart(dir, name[..|name| - 1]);
      StartOfNameTruncate(p, |p| - 1);
    }
  }

  lemma StartOfNameShrink(p: string, end: nat)
    requires 0 < end <= |p| && p[end - 1] != '/'
    ensures StartOfName(p, end) == StartOfName(p, end - 1)
  {
  }

  /** `StartOfName` before `end` only reads the first `end` characters. */
  lemma {:induction false} StartOfNameTruncate(p: string, end: nat)
    requires end <= |p|
    ensures StartOfName(p[..end], end) == StartOfName(p, end)
    decreases end
  {
    if end > 0 && p[end - 1] != '/' {
      assert p[..end][end - 1] == p[end - 1];
      StartOfNameTruncate(p, end - 1);
      assert p[..end][..end - 1] == p[..end - 1];
      StartOfNameTruncate(p[..end], end - 1);
    }
  }

  /** The dot before an extension without dots is the last one. */
  lemma {:induction false} LastDotOf(stem: string, ext: string)
    requires forall i :: 0 <= i < |ext| ==> ext[i] != '.'
    ensures LastDot(stem + "." + ext) == Some(|stem|)
    decreases |ext|
  {
    var s := stem + "." + ext;
    if ext == [] {
      assert s[|s| - 1] == '.';
    } else {
      assert s[|s| - 1] == ext[|ext| - 1];
      assert s[..|s| - 1] == stem + "." + ext[..|ext| - 1];
      LastDotOf(stem, ext[..|ext| - 1]);
    }
  }

  /** What follows the dot is the extension. */
  lemma AfterDot(stem: string, ext: string)
    ensures (stem + "." + ext)[|stem|..] == "." + ext
  {
    assert stem + "." + ext == stem + ("." + ext);
  }

  /** The pathname of `scheme + slashes + host + path`, for a non-empty host
      and a path that starts with `/` and holds no query, fragment or
      back-slash, is that path; extra slashes after the scheme are skipped. */
  lemma UrlPathnameOf(scheme: string, slashes: string, host: string, path: string)
    requires scheme == "https://" || scheme == "http://"
    requires forall i :: 0 <= i < |slashes| ==> IsSlash(slashes[i])
    requires host != [] && forall i :: 0 <= i < |host| ==> !EndsHost(host[i])
    requires path != [] && path[0] == '/'
    requires forall i :: 0 <= i < |path| ==> !EndsPath(path[i]) && path[i] != '\\'
    ensures IsUrl(scheme + slashes + host + path)
    ensures UrlPathname(scheme + slashes + host + path) == Some(path)
  {
    var v := scheme + slashes + host + path;
    assert v == scheme + (slashes + (host + path));
    SchemeOf(scheme, slashes + (host + path));
    SkipSlashes(slashes, host + path);
    assert AfterSlashes(v) == host + path;
    FirstWherePrefix(host, path, EndsHost);
    assert (host + path)[|host|..] == path;
    PathOfCleanTail(path);
  }

  /** A URL's scheme, `http://` or `https://`, is what `SchemeLength` skips. */
  lemma SchemeOf(scheme: string, rest: string)
    requires scheme == "https://" || scheme == "http://"
    ensures IsUrl(scheme + rest)
    ensures SchemeLength(scheme + rest) == |scheme|
    ensures (scheme + rest)[|scheme|..] == rest
  {
    var v := scheme + rest;
    StartsWithExactly(v, scheme);
    if scheme == "http://" {
      assert LowerChar(v[4]) != LowerChar("https://"[4]);
    }
  }

  /** A tail with no query, fragment or back-slash that starts with `/` is
      its own pathname. */
  lemma PathOfCleanTail(path: string)
    requires path != [] && path[0] == '/'
    requires forall i :: 0 <= i < |path| ==> !EndsPath(path[i]) && path[i] != '\\'
    ensures PathOfTail(path) == path
  {
    assert FirstWhere(path, EndsPath) == |path|;
  }

  /** A URL whose path ends in `stem.ext` has the extension `.ext`,
      lower-cased, however many slashes follow the scheme. */
  lemma UrlExtension(scheme: string, slashes: string, host: string, dir: string, stem: string, ext: string)
    requires scheme == "https://" || scheme == "http://"
    requires forall i :: 0 <= i < |slashes| ==> IsSlash(slashes[i])
    requires host != [] && forall i :: 0 <= i < |host| ==> !EndsHost(host[i])
    requires dir != [] && dir[0] == '/' && dir[|dir| - 1] == '/'
    requires stem != [] && forall i :: 0 <= i < |stem| ==> stem[i] != '/'
    requires ext != [] && forall i :: 0 <= i < |ext| ==> ext[i] != '/' && ext[i] != '.'
    requires var path := dir + stem + "." + ext;
      forall i :: 0 <= i < |path| ==> !EndsPath(path[i]) && path[i] != '\\'
    ensures GetExtension(scheme + slashes + host + (dir + stem + "." + ext)) == Lower("." + ext)
  {
    var path := dir + stem + "." + ext;
    UrlPathnameOf(scheme, slashes, host, path);
    ExtnameOfName(dir, stem, ext);
  }
}
