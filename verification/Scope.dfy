/** Paths and routes: their canonical spelling, what they classify as, and which of them coincide. */
module Scope {
  import opened Common
  import opened Text

  const PAGE_EXTENSIONS: set<string> := {"md", "mdx"}

  datatype ConfigArea = Navigation | Redirects | Automations | Unspecified

  datatype Target =
    | Page(route: string)
    | Config(area: ConfigArea)
    | Facts
    | AgentsMd
    | Other
    | Unknown(path: string)

  datatype Layout = Layout(configFile: string, agentsFile: string, factDirs: set<string>, contentRoot: string)

  // ---- Segments ----

  /** The segments that name something: neither empty nor `.`. */
  function Named(parts: seq<string>): (named: seq<string>)
    ensures forall part <- named :: part in parts && part != "" && part != "."
  {
    if parts == [] then []
    else if parts[0] == "" || parts[0] == "." then Named(parts[1..])
    else [parts[0]] + Named(parts[1..])
  }

  lemma {:induction false} NamedAppend(a: seq<string>, b: seq<string>)
    ensures Named(a + b) == Named(a) + Named(b)
  {
    if a == [] {
      assert a + b == b;
    } else {
      assert (a + b)[1..] == a[1..] + b;
      NamedAppend(a[1..], b);
    }
  }

  lemma {:induction false} NamedFixed(parts: seq<string>)
    requires forall part <- parts :: part != "" && part != "."
    ensures Named(parts) == parts
  {
    if parts != [] {
      assert forall part <- parts[1..] :: part in parts;
      assert parts[0] in parts;
      NamedFixed(parts[1..]);
    }
  }

  /** The loop both normalisers run: push what is named, refuse `..`. */
  method PushSegments(parts: seq<string>) returns (r: Option<seq<string>>)
    ensures r == if ".." in parts then None else Some(Named(parts))
  {
    var pushed: seq<string> := [];
    for i := 0 to |parts|
      invariant ".." !in parts[..i]
      invariant pushed == Named(parts[..i])
    {
      assert parts[..i + 1] == parts[..i] + [parts[i]];
      NamedAppend(parts[..i], [parts[i]]);
      if parts[i] == ".." {
        return None;
      } else if parts[i] != "" && parts[i] != "." {
        pushed := pushed + [parts[i]];
      }
    }
    assert parts[..|parts|] == parts;
    r := Some(pushed);
  }

  // ---- Routes ----

  /** Whether a string can be a route at all. */
  predicate RouteShaped(route: string) {
    && StartsWith(route, "/")
    && '\0' !in route
    && '\\' !in route
    && ".." !in Split(route, {'/'})
  }

  function CanonicalRoute(route: string): Option<string> {
    if RouteShaped(route) then Some("/" + Join(Named(Split(route, {'/'})), "/")) else None
  }

  /** Computes a route's canonical spelling, refusing what cannot be a route. */
  method NormaliseRoute(route: string) returns (r: Option<string>)
    ensures r == CanonicalRoute(route)
  {
    if !StartsWith(route, "/") || '\0' in route || '\\' in route {
      return None;
    }
    var parts := PushSegments(Split(route, {'/'}));
    match parts
    case None => r := None;
    case Some(named) => r := Some("/" + Join(named, "/"));
  }

  lemma {:induction false} JoinChars(parts: seq<string>, c: char)
    requires c != '/' && forall part <- parts :: c !in part
    ensures c !in Join(parts, "/")
  {
    if |parts| > 1 {
      JoinChars(parts[1..], c);
      assert parts[0] in parts;
    } else if |parts| == 1 {
      assert parts[0] in parts;
    }
  }

  lemma {:induction false} PartChars(s: string, c: char, seps: set<char>)
    requires c !in s
    ensures forall part <- Split(s, seps) :: c !in part
  {
    if s != [] {
      PartChars(s[1..], c, seps);
      var rest := Split(s[1..], seps);
      assert c !in rest[0];
      assert s[0] in s;
    }
  }

  /** The canonical spelling splits back into exactly the named segments. */
  lemma {:induction false} CanonicalSplits(named: seq<string>)
    requires AllFree(named, {'/'}) && forall part <- named :: part != "" && part != "."
    ensures Named(Split("/" + Join(named, "/"), {'/'})) == named
    ensures forall part <- Split("/" + Join(named, "/"), {'/'}) :: part == "" || part in named
  {
    var text := Join(named, "/");
    SplitAppend("", '/', text, {'/'});
    assert "" + ['/'] + text == "/" + text;
    NamedAppend(Split("", {'/'}), Split(text, {'/'}));
    if named != [] {
      SplitJoin(named, '/');
      NamedFixed(named);
    }
  }

  lemma NamedSegmentsOf(route: string)
    ensures var named := Named(Split(route, {'/'}));
            AllFree(named, {'/'}) && forall part <- named :: part != "" && part != "."
  {
    PartsAreFree(route, {'/'});
  }

  /** Normalising twice changes nothing. */
  lemma CanonicalRouteIdempotent(route: string)
    requires CanonicalRoute(route).Some?
    ensures CanonicalRoute(CanonicalRoute(route).value) == CanonicalRoute(route)
  {
    var named := Named(Split(route, {'/'}));
    var canonical := "/" + Join(named, "/");
    NamedSegmentsOf(route);
    CanonicalSplits(named);
    PartChars(route, '\0', {'/'});
    PartChars(route, '\\', {'/'});
    JoinChars(named, '\0');
    JoinChars(named, '\\');
    assert RouteShaped(canonical);
  }

  /** Two routes get the same canonical form exactly when their named segments agree. */
  lemma SameRouteIffSameSegments(a: string, b: string)
    requires RouteShaped(a) && RouteShaped(b)
    ensures CanonicalRoute(a) == CanonicalRoute(b) <==> Named(Split(a, {'/'})) == Named(Split(b, {'/'}))
  {
    NamedSegmentsOf(a);
    NamedSegmentsOf(b);
    CanonicalSplits(Named(Split(a, {'/'})));
    CanonicalSplits(Named(Split(b, {'/'})));
  }

  // ---- Paths ----

  /** An absolute path with a drive letter: a one-byte character, then a colon. */
  predicate DriveLike(path: string) {
    |path| >= 2 && path[0] as int < 128 && path[1] == ':'
  }

  function CanonicalPath(path: string): Option<string> {
    if path == "" || StartsWith(path, "/") || '\0' in path || DriveLike(path) then None
    else if ".." in Split(path, {'/', '\\'}) then None
    else
      var named := Named(Split(path, {'/', '\\'}));
      if named == [] then None else Some(Join(named, "/"))
  }

  /** Computes a path's canonical spelling, refusing absolute paths and any that climb. */
  method NormalisePath(path: string) returns (r: Option<string>)
    ensures r == CanonicalPath(path)
  {
    if path == "" || StartsWith(path, "/") || '\0' in path || DriveLike(path) {
      return None;
    }
    var parts := PushSegments(Split(path, {'/', '\\'}));
    match parts
    case None => r := None;
    case Some(named) => r := if named == [] then None else Some(Join(named, "/"));
  }

  lemma {:induction false} FewerSeps(s: string)
    requires '\\' !in s
    ensures Split(s, {'/', '\\'}) == Split(s, {'/'})
  {
    if s != [] {
      assert s[0] in s;
      FewerSeps(s[1..]);
    }
  }

  lemma {:induction false} CanonicalPathParts(path: string)
    requires CanonicalPath(path).Some?
    ensures var n := CanonicalPath(path).value;
            && n != "" && !StartsWith(n, "/") && '\0' !in n && '\\' !in n
            && Split(n, {'/'}) == Named(Split(path, {'/', '\\'})) && ".." !in Split(n, {'/'})
  {
    var named := Named(Split(path, {'/', '\\'}));
    PartsAreFree(path, {'/', '\\'});
    PartChars(path, '\0', {'/', '\\'});
    forall part | part in named
      ensures Free(part, {'/'}) && '\\' !in part
    {
      assert Free(part, {'/', '\\'});
    }
    JoinChars(named, '\0');
    JoinChars(named, '\\');
    SplitJoin(named, '/');
    assert named[0] in named && '/' !in named[0] && named[0] != "";
    assert named[0][0] in named[0];
  }

  /**
   * Normalising a path twice agrees with normalising it once, except when dropping leading `.` segments
   * brings a drive-like segment to the front: then the result itself is refused.
   */
  lemma CanonicalPathIdempotentIff(path: string)
    requires CanonicalPath(path).Some?
    ensures CanonicalPath(CanonicalPath(path).value) == CanonicalPath(path)
            <==> !DriveLike(Named(Split(path, {'/', '\\'}))[0])
  {
    var n := CanonicalPath(path).value;
    var named := Named(Split(path, {'/', '\\'}));
    CanonicalPathParts(path);
    FewerSeps(n);
    NamedFixed(named);
    assert DriveLike(n) <==> DriveLike(named[0]) by {
      if |named| == 1 {
        assert n == named[0];
      } else {
        assert n == named[0] + "/" + Join(named[1..], "/");
      }
    }
  }

  /** The exception is real. */
  lemma CanonicalPathNotIdempotent()
    ensures CanonicalPath("./a:") == Some("a:") && CanonicalPath("a:") == None
  {
    var seps := {'/', '\\'};
    SplitAppend(".", '/', "a:", seps);
    SplitFree(".", seps);
    SplitFree("a:", seps);
    assert "./a:" == "." + ['/'] + "a:";
    assert Split("./a:", seps) == [".", "a:"];
    assert Named([".", "a:"]) == ["a:"];
  }

  /** What is refused as a route, spelled out. */
  lemma RouteRefusedIff(route: string)
    ensures CanonicalRoute(route).None? <==>
            || route == "" || route[0] != '/' || '\0' in route || '\\' in route
            || exists i | 0 <= i < |Split(route, {'/'})| :: Split(route, {'/'})[i] == ".."
  {
    assert StartsWith(route, "/") <==> route != "" && route[0] == '/';
  }

  /** No path of the project: nothing at all, something absolute, or something no file is called. */
  predicate IsOutside(path: string) {
    path == "" || path[0] == '/' || '\0' in path || (|path| >= 2 && path[1] == ':' && path[0] as int < 0x80)
  }

  predicate NamesNothing(segments: seq<string>) {
    forall i | 0 <= i < |segments| :: segments[i] == "" || segments[i] == "."
  }

  /** And as a path: what is outside, what climbs, and what names nothing. */
  lemma PathRefusedIff(path: string)
    ensures CanonicalPath(path).None? <==>
            var segments := Split(path, {'/', '\\'});
            IsOutside(path) || ".." in segments || NamesNothing(segments)
  {
    NothingNamed(Split(path, {'/', '\\'}));
    OutsideIs(path);
  }

  lemma OutsideIs(path: string)
    ensures IsOutside(path) <==> path == "" || StartsWith(path, "/") || '\0' in path || DriveLike(path)
  {
    assert StartsWith(path, "/") <==> path != "" && path[0] == '/';
  }

  lemma NothingNamed(parts: seq<string>)
    ensures Named(parts) == [] <==> NamesNothing(parts)
  {
    NamedHas(parts);
    if Named(parts) != [] {
      assert Named(parts)[0] in Named(parts);
    } else {
      forall i | 0 <= i < |parts|
        ensures parts[i] == "" || parts[i] == "."
      {
        assert parts[i] in parts;
      }
    }
  }

  /** What is dropped from a route or a path is exactly what names nothing. */
  lemma {:induction false} NamedHas(parts: seq<string>)
    ensures forall part :: part in Named(parts) <==> part in parts && part != "" && part != "."
  {
    if parts != [] {
      NamedHas(parts[1..]);
      assert parts == [parts[0]] + parts[1..];
    }
  }

  // ---- Classification ----

  function ContentPrefix(layout: Layout): string {
    if layout.contentRoot == "" then "" else layout.contentRoot + "/"
  }

  /** Where the site serves a file: nowhere, unless it lies under the content root and is a page. */
  function RouteOf(layout: Layout, path: string): Option<string> {
    if ContentPrefix(layout) <= path then RouteUnderRoot(path[|ContentPrefix(layout)|..]) else None
  }

  predicate IsPageExtension(extension: string) {
    extension in PAGE_EXTENSIONS
  }

  /** The same of a path within the content root: what stands before a page's extension names the route. */
  function RouteUnderRoot(rest: string): Option<string> {
    var dot := LastIndexOf(rest, '.');
    if dot == |rest| || !IsPageExtension(rest[dot + 1..]) then None else Some("/" + PageStem(rest[..dot]))
  }

  /** A directory's index is the directory itself. */
  function PageStem(stem: string): string {
    if !EndsWith(stem, "index") then stem
    else
      var dir := stem[..|stem| - 5];
      if EndsWith(dir, "/") then dir[..|dir| - 1] else dir
  }

  function Classify(layout: Layout, path: string): Target {
    match CanonicalPath(path)
    case None => Unknown(path)
    case Some(p) =>
      if p == layout.configFile then Config(Unspecified)
      else if p == layout.agentsFile || EndsWith(p, "/" + layout.agentsFile) then AgentsMd
      else if exists dir <- layout.factDirs :: p == dir || StartsWith(p, dir + "/") then Facts
      else match RouteOf(layout, p)
        case Some(route) => Page(route)
        case None => Other
  }

  /** What is never a page, whatever its name: the project's config, its agents files, its facts. */
  predicate IsReserved(layout: Layout, p: string) {
    || p == layout.configFile
    || p == layout.agentsFile || EndsWith(p, "/" + layout.agentsFile)
    || exists dir <- layout.factDirs :: p == dir || StartsWith(p, dir + "/")
  }

  /** What the kinds of target that are no page are: asked in this order, before any page. */
  lemma ReservedIs(layout: Layout, path: string, p: string)
    requires CanonicalPath(path) == Some(p)
    ensures Classify(layout, path) == Config(Unspecified) <==> p == layout.configFile
    ensures Classify(layout, path) == AgentsMd
            <==> p != layout.configFile && (p == layout.agentsFile || EndsWith(p, "/" + layout.agentsFile))
    ensures Classify(layout, path) in {Config(Unspecified), AgentsMd, Facts} <==> IsReserved(layout, p)
  {
  }

  /** And nothing else is one but what leaves the project, and what no route serves. */
  lemma UnroutedIs(layout: Layout, path: string)
    ensures Classify(layout, path) == Unknown(path) <==> CanonicalPath(path).None?
    ensures Classify(layout, path) == Other
            <==> CanonicalPath(path).Some? && !IsReserved(layout, CanonicalPath(path).value)
                 && forall stem :: !Serves(layout, CanonicalPath(path).value, stem)
  {
    if CanonicalPath(path).Some? {
      UnservedIs(layout, CanonicalPath(path).value);
    }
  }

  lemma UnservedIs(layout: Layout, p: string)
    ensures RouteOf(layout, p).None? <==> forall stem :: !Serves(layout, p, stem)
  {
    forall stem
      ensures Serves(layout, p, stem) <==> RouteOf(layout, p) == Some("/" + stem)
    {
      RouteOfIff(layout, p, stem);
    }
    if RouteOf(layout, p).Some? {
      assert RouteOf(layout, p).value == "/" + RouteOf(layout, p).value[1..];
    }
  }

  lemma PageIsRouted(layout: Layout, path: string, route: string)
    ensures Classify(layout, path) == Page(route)
            <==> CanonicalPath(path).Some? && !IsReserved(layout, CanonicalPath(path).value)
                 && RouteOf(layout, CanonicalPath(path).value) == Some(route)
  {
  }

  // ---- Which files share a route ----

  /** Whether a path is the content root, this stem, and a page's extension. */
  predicate HasStem(layout: Layout, path: string, stem: string) {
    var root := if layout.contentRoot == "" then "" else layout.contentRoot + "/";
    exists extension <- PAGE_EXTENSIONS :: path == root + (stem + "." + extension)
  }

  lemma {:induction false} LastDot(stem: string, extension: string)
    requires '.' !in extension
    ensures LastIndexOf(stem + "." + extension, '.') == |stem|
    decreases |extension|
  {
    var s := stem + "." + extension;
    if extension == "" {
      assert s == stem + ".";
    } else {
      var init := extension[..|extension| - 1];
      assert extension[|extension| - 1] in extension;
      assert s[..|s| - 1] == stem + "." + init;
      LastDot(stem, init);
    }
  }

  lemma ExtensionsHaveNoDot(extension: string)
    requires IsPageExtension(extension)
    ensures '.' !in extension
  {
  }

  lemma StemNamesRoute(stem: string, extension: string)
    requires IsPageExtension(extension)
    ensures RouteUnderRoot(stem + "." + extension) == Some("/" + PageStem(stem))
  {
    ExtensionsHaveNoDot(extension);
    LastDot(stem, extension);
    var rest := stem + "." + extension;
    assert rest[..|stem|] == stem && rest[|stem| + 1..] == extension;
  }

  lemma StemGivesRoute(layout: Layout, path: string, stem: string)
    requires HasStem(layout, path, stem)
    ensures RouteOf(layout, path) == Some("/" + PageStem(stem))
  {
    var extension :| extension in PAGE_EXTENSIONS && path == ContentPrefix(layout) + (stem + "." + extension);
    StemNamesRoute(stem, extension);
    assert path[|ContentPrefix(layout)|..] == stem + "." + extension;
  }

  lemma DotDivides(s: string, at: nat)
    requires at < |s| && s[at] == '.'
    ensures s == s[..at] + "." + s[at + 1..]
  {
  }

  lemma RouteGivesStem(layout: Layout, path: string) returns (stem: string)
    requires RouteOf(layout, path).Some?
    ensures HasStem(layout, path, stem)
  {
    var rest := path[|ContentPrefix(layout)|..];
    var dot := LastIndexOf(rest, '.');
    stem := rest[..dot];
    DotDivides(rest, dot);
    assert path == ContentPrefix(layout) + rest;
    assert IsPageExtension(rest[dot + 1..]);
  }

  lemma SuffixIsCut(a: string, b: string)
    ensures EndsWith(a + b, b) && (a + b)[..|a|] == a
  {
  }

  lemma SuffixCancels(a: string, b: string, suffix: string)
    ensures a + suffix == b + suffix <==> a == b
  {
    SuffixIsCut(a, suffix);
    SuffixIsCut(b, suffix);
  }

  lemma SlashIsCut(dir: string, t: string)
    ensures (if EndsWith(dir, "/") then dir[..|dir| - 1] else dir) == t
            <==> dir == t + "/" || (dir == t && !EndsWith(t, "/"))
  {
    SuffixIsCut(t, "/");
    if EndsWith(dir, "/") {
      assert dir == dir[..|dir| - 1] + "/";
    }
  }

  /** The stems that are cut to `t`: itself, its index, and any name that only ends in `index`. */
  lemma PageStemIff(s: string, t: string)
    ensures PageStem(s) == t
            <==> (s == t && !EndsWith(s, "index")) || s == t + "/index" || (s == t + "index" && !EndsWith(t, "/"))
  {
    var index := "index";
    assert t + "/index" == (t + "/") + index;
    if EndsWith(s, index) {
      var dir := s[..|s| - 5];
      assert s == dir + index;
      SlashIsCut(dir, t);
      SuffixCancels(dir, t, index);
      SuffixCancels(dir, t + "/", index);
    } else {
      SuffixIsCut(t, index);
      SuffixIsCut(t + "/", index);
    }
  }

  /** Whether a file is the page of the route `/t`. */
  predicate Serves(layout: Layout, path: string, t: string) {
    || (HasStem(layout, path, t) && !EndsWith(t, "index"))
    || HasStem(layout, path, t + "/index")
    || (HasStem(layout, path, t + "index") && !EndsWith(t, "/"))
  }

  /** The files served under one route: the page of that name, its index, and a name that only ends in `index`. */
  lemma RouteOfIff(layout: Layout, path: string, t: string)
    ensures RouteOf(layout, path) == Some("/" + t) <==> Serves(layout, path, t)
  {
    if Serves(layout, path, t) {
      var stem := if HasStem(layout, path, t) && !EndsWith(t, "index") then t
                  else if HasStem(layout, path, t + "/index") then t + "/index" else t + "index";
      StemGivesRoute(layout, path, stem);
      PageStemIff(stem, t);
    }
    if RouteOf(layout, path) == Some("/" + t) {
      var stem := RouteGivesStem(layout, path);
      StemGivesRoute(layout, path, stem);
      assert ("/" + PageStem(stem))[1..] == PageStem(stem) && ("/" + t)[1..] == t;
      PageStemIff(stem, t);
    }
  }

  /** So two paths share a route exactly when both are among the files of one. */
  lemma SharedRouteIff(layout: Layout, a: string, b: string)
    ensures RouteOf(layout, a).Some? && RouteOf(layout, a) == RouteOf(layout, b)
            <==> exists t :: Serves(layout, a, t) && Serves(layout, b, t)
  {
    if RouteOf(layout, a).Some? && RouteOf(layout, a) == RouteOf(layout, b) {
      var t := RouteOf(layout, a).value[1..];
      assert RouteOf(layout, a).value == "/" + t;
      RouteOfIff(layout, a, t);
      RouteOfIff(layout, b, t);
    }
    if t :| Serves(layout, a, t) && Serves(layout, b, t) {
      RouteOfIff(layout, a, t);
      RouteOfIff(layout, b, t);
    }
  }

  /** Every page shares its route with two others, in every layout: `re.md` with `re/index.md` and with `reindex.md`. */
  lemma EveryRouteIsShared(layout: Layout, t: string)
    requires !EndsWith(t, "index") && !EndsWith(t, "/")
    ensures var at := ContentPrefix(layout);
            && RouteOf(layout, at + (t + ".md")) == Some("/" + t)
            && RouteOf(layout, at + (t + "/index" + ".md")) == Some("/" + t)
            && RouteOf(layout, at + (t + "index" + ".md")) == Some("/" + t)
  {
    var at := ContentPrefix(layout);
    MdHasStem(layout, t);
    MdHasStem(layout, t + "/index");
    MdHasStem(layout, t + "index");
    RouteOfIff(layout, at + (t + ".md"), t);
    RouteOfIff(layout, at + (t + "/index" + ".md"), t);
    RouteOfIff(layout, at + (t + "index" + ".md"), t);
  }

  lemma MdHasStem(layout: Layout, stem: string)
    ensures HasStem(layout, ContentPrefix(layout) + (stem + ".md"), stem)
  {
    assert "md" in PAGE_EXTENSIONS && stem + ".md" == stem + "." + "md";
  }

  // ---- Context repositories ----

  datatype Repo = Repo(name: string, allow: seq<string>, deny: seq<string>)

  datatype RepoDenial = UnknownRepo | NotAllowed | Denied | NotAPath

  /** Whether a path is the prefix or lies under it. */
  predicate Covers(prefix: string, path: string) {
    var p := TrimChar(prefix, '/');
    p == "" || path == p || StartsWith(path, p + "/")
  }

  function FindRepo(repos: seq<Repo>, name: string): Option<Repo> {
    if repos == [] then None
    else if repos[0].name == name then Some(repos[0])
    else FindRepo(repos[1..], name)
  }

  /** The answer to a read: the repository must exist, and deny is asked before allow. */
  function PermitsRead(repos: seq<Repo>, name: string, path: string): Result<(), RepoDenial> {
    match FindRepo(repos, name)
    case None => Err(UnknownRepo)
    case Some(repo) =>
      match CanonicalPath(path)
      case None => Err(NotAPath)
      case Some(p) =>
        if exists prefix <- repo.deny :: Covers(prefix, p) then Err(Denied)
        else if exists prefix <- repo.allow :: Covers(prefix, p) then Ok(())
        else Err(NotAllowed)
  }

  /** `search_repo` names no path: the repository must be configured with something allowed. */
  function PermitsSearch(repos: seq<Repo>, name: string): Result<(), RepoDenial> {
    match FindRepo(repos, name)
    case None => Err(UnknownRepo)
    case Some(repo) => if repo.allow == [] then Err(NotAllowed) else Ok(())
  }

  /** Coverage is about whole segments: the prefix's segments begin the path's. */
  lemma CoversIffSegments(prefix: string, path: string)
    ensures Covers(prefix, path) <==>
            var p := TrimChar(prefix, '/'); p == "" || Split(p, {'/'}) <= Split(path, {'/'})
  {
    var p := TrimChar(prefix, '/');
    if path != p && StartsWith(path, p + "/") {
      assert path == p + ['/'] + path[|p| + 1..];
      SplitAppend(p, '/', path[|p| + 1..], {'/'});
    }
    if Split(p, {'/'}) <= Split(path, {'/'}) {
      JoinOfPrefix(Split(p, {'/'}), Split(path, {'/'}));
      JoinSplit(p, '/');
      JoinSplit(path, '/');
    }
  }

  lemma {:induction false} JoinOfPrefix(a: seq<string>, b: seq<string>)
    requires a != [] && a <= b
    ensures Join(a, "/") == Join(b, "/") || StartsWith(Join(b, "/"), Join(a, "/") + "/")
  {
    if |a| > 1 {
      assert a[1..] <= b[1..];
      JoinOfPrefix(a[1..], b[1..]);
    } else if |b| > 1 {
      assert Join(b, "/") == (a[0] + "/") + Join(b[1..], "/");
    } else {
      assert a == b;
    }
  }

  /** One configuration grants no more than another: the same repositories, each allowing less and denying more. */
  ghost predicate Tighter(small: seq<Repo>, large: seq<Repo>) {
    if small == [] || large == [] then small == large
    else
      && small[0].name == large[0].name
      && (forall prefix <- small[0].allow :: prefix in large[0].allow)
      && (forall prefix <- large[0].deny :: prefix in small[0].deny)
      && Tighter(small[1..], large[1..])
  }

  lemma {:induction false} TighterFinds(small: seq<Repo>, large: seq<Repo>, name: string)
    requires Tighter(small, large)
    ensures FindRepo(small, name).Some? <==> FindRepo(large, name).Some?
    ensures FindRepo(small, name).Some? ==>
              Tighter([FindRepo(small, name).value], [FindRepo(large, name).value])
  {
    if small != [] {
      TighterFinds(small[1..], large[1..], name);
    }
  }

  /** Denying more, or allowing less, in any of the repositories, never grants a read. */
  lemma ReadsAreMonotone(small: seq<Repo>, large: seq<Repo>, name: string, path: string)
    requires Tighter(small, large) && PermitsRead(small, name, path).Ok?
    ensures PermitsRead(large, name, path).Ok?
  {
    TighterFinds(small, large, name);
    var one, two := FindRepo(small, name).value, FindRepo(large, name).value;
    assert [one][0] == one && [two][0] == two;
    var p := CanonicalPath(path).value;
    var prefix :| prefix in one.allow && Covers(prefix, p);
    assert prefix in two.allow;
  }

  lemma {:induction false} FindsFirst(repos: seq<Repo>, name: string, i: nat)
    requires i < |repos| && repos[i].name == name && forall j | 0 <= j < i :: repos[j].name != name
    ensures FindRepo(repos, name) == Some(repos[i])
  {
    if i > 0 {
      assert repos[0].name != name;
      forall j | 0 <= j < i - 1
        ensures repos[1..][j].name != name
      {
        assert repos[1..][j] == repos[j + 1];
      }
      FindsFirst(repos[1..], name, i - 1);
    }
  }

  lemma {:induction false} FindsNone(repos: seq<Repo>, name: string)
    ensures FindRepo(repos, name).None? <==> forall repo <- repos :: repo.name != name
    ensures FindRepo(repos, name).Some? ==>
              exists i | 0 <= i < |repos| :: FindRepo(repos, name) == Some(repos[i]) && IsFirst(repos, name, i)
  {
    if repos != [] {
      FindsNone(repos[1..], name);
      assert repos == [repos[0]] + repos[1..];
      if repos[0].name == name {
        assert IsFirst(repos, name, 0);
      } else if FindRepo(repos, name).Some? {
        var i :| 0 <= i < |repos[1..]| && FindRepo(repos[1..], name) == Some(repos[1..][i]) && IsFirst(repos[1..], name, i);
        forall j | 0 <= j < i + 1
          ensures repos[j].name != name
        {
          assert j > 0 ==> repos[j] == repos[1..][j - 1];
        }
        assert IsFirst(repos, name, i + 1);
      }
    }
  }

  ghost predicate IsFirst(repos: seq<Repo>, name: string, i: nat) {
    i < |repos| && repos[i].name == name && forall j | 0 <= j < i :: repos[j].name != name
  }

  /** What one repository grants of a normalised path, segment by segment. */
  ghost predicate Grants(repo: Repo, path: string) {
    CanonicalPath(path).Some? &&
    var segments := Split(CanonicalPath(path).value, {'/'});
    && (exists prefix <- repo.allow :: CoversSegments(prefix, segments))
    && (forall prefix <- repo.deny :: !CoversSegments(prefix, segments))
  }

  ghost predicate MayRead(repos: seq<Repo>, name: string, path: string) {
    exists i: nat :: IsFirst(repos, name, i) && Grants(repos[i], path)
  }

  ghost predicate MaySearch(repos: seq<Repo>, name: string) {
    exists i: nat :: IsFirst(repos, name, i) && repos[i].allow != []
  }

  /** A search is granted exactly when the first repository of that name allows something. */
  lemma SearchIff(repos: seq<Repo>, name: string)
    ensures PermitsSearch(repos, name).Ok? <==> MaySearch(repos, name)
  {
    FindsNone(repos, name);
    if i: nat :| IsFirst(repos, name, i) && repos[i].allow != [] {
      FindsFirst(repos, name, i);
    }
  }

  /**
   * A read is granted exactly when the first repository of that name has an allowed prefix, and no denied one,
   * whose segments begin those of a path that normalises.
   */
  lemma ReadIffSegments(repos: seq<Repo>, name: string, path: string)
    ensures PermitsRead(repos, name, path).Ok? <==> MayRead(repos, name, path)
  {
    FindsNone(repos, name);
    if FindRepo(repos, name).Some? && CanonicalPath(path).Some? {
      var repo, p := FindRepo(repos, name).value, CanonicalPath(path).value;
      forall prefix | prefix in repo.allow || prefix in repo.deny
        ensures Covers(prefix, p) <==> CoversSegments(prefix, Split(p, {'/'}))
      {
        CoversIffSegments(prefix, p);
      }
    }
    if i: nat :| IsFirst(repos, name, i) && Grants(repos[i], path) {
      FindsFirst(repos, name, i);
    }
  }

  ghost predicate CoversSegments(prefix: string, segments: seq<string>) {
    var p := TrimChar(prefix, '/');
    p == "" || Split(p, {'/'}) <= segments
  }
}
