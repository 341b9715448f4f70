// `repoUrlToAPIUrl` of the GitLab adapter: the REST endpoint of the project a
// repository URL names. A string URL is first rewritten (a "git+" prefix, the
// SSH form "git@host:path" and a ".git" suffix) and then parsed; a URL object
// is used as it is. `URL.parse` is a parameter.
module GitLab {
  import opened Wrappers
  import opened Strings
  import opened Urls

  /** The argument of `repoUrlToAPIUrl`: `string | URL`. */
  datatype ProjectUrl = Text(s: string) | Object(url: Url)

  datatype GitLabError = BadUrl

  /** The projects endpoint of the GitLab REST API. */
  const PROJECTS_PATH := "/api/v4/projects/"

  /** The rewrites a string URL goes through before it is parsed. */
  function Rewritten(s: string): string
  {
    var s1 := if StartsWith(s, "git+") then s[4..] else s;
    var s2 := if StartsWith(s1, "git@") then ReplaceText(ReplaceText(s1, ":", "/"), "git@", "https://") else s1;
    if EndsWith(s2, ".git") then s2[..|s2| - 4] else s2
  }

  /** The project path up to the "/-/" that starts GitLab's own routes (a tree, a blob, ...). */
  function Cut(p: string): (r: string)
    ensures Contains(p, "/-/") ==> StartsWith(p, r) && OccursAt(p, "/-/", |r|)
    ensures Contains(p, "/-/") ==> forall j: nat | j < |r| :: !OccursAt(p, "/-/", j)
    ensures !Contains(p, "/-/") ==> r == p
  {
    ContainsIndexOf(p, "/-/");
    match IndexOf(p, "/-/")
    case None => p
    case Some(i) => p[..i]
  }

  /** One trailing "/" removed, then every "/" encoded as "%2F". */
  function Encode(p: string): (r: string)
    ensures '/' !in r
  {
    var p2 := if EndsWith(p, "/") then p[..|p| - 1] else p;
    ReplaceAll(p2, '/', "%2F")
  }

  /** The project path of a URL path: without its leading "/", cut before "/-/", encoded. */
  function ProjectPath(pathname: string): (r: string)
    ensures '/' !in r
  {
    var p := if |pathname| >= 1 then pathname[1..] else "";
    Encode(if Contains(p, "/-/") then Cut(p) else p)
  }

  /** The endpoint for a parsed URL: its origin, the projects path, and the encoded project path. */
  function ApiUrl(origin: string, pathname: string): (r: string)
    ensures StartsWith(r, origin + PROJECTS_PATH)
    ensures '/' !in r[|origin + PROJECTS_PATH|..]
  {
    var r := origin + PROJECTS_PATH + ProjectPath(pathname);
    assert r[|origin + PROJECTS_PATH|..] == ProjectPath(pathname);
    r
  }

  /** The rewrites of a string URL, one reassignment at a time. */
  method RewriteUrl(s: string) returns (url: string)
    ensures url == Rewritten(s)
  {
    url := s;
    if StartsWith(url, "git+") {
      url := url[4..];
    }
    if StartsWith(url, "git@") {
      url := ReplaceText(ReplaceText(url, ":", "/"), "git@", "https://");
    }
    if EndsWith(url, ".git") {
      url := url[..|url| - 4];
    }
  }

  /** The project path of a parsed URL, one reassignment at a time. */
  method ProjectPathOfUrl(pathname: string) returns (projectPath: string)
    ensures projectPath == ProjectPath(pathname)
  {
    projectPath := if |pathname| >= 1 then pathname[1..] else "";
    if Contains(projectPath, "/-/") {
      projectPath := Cut(projectPath);
    }
    if EndsWith(projectPath, "/") {
      projectPath := projectPath[..|projectPath| - 1];
    }
    projectPath := ReplaceAll(projectPath, '/', "%2F");
  }

  /**
   * `repoUrlToAPIUrl(projectUrl)`: a string that does not parse after its
   * rewrites is an error; a URL object always gives an endpoint.
   */
  method RepoUrlToApiUrl(projectUrl: ProjectUrl, parse: string -> Option<UrlParts>) returns (r: Result<string, GitLabError>)
    ensures projectUrl.Text? ==> (r.Err? <==> parse(Rewritten(projectUrl.s)).None?)
    ensures projectUrl.Text? && r.Ok? ==>
      var u := parse(Rewritten(projectUrl.s)).value; r.value == ApiUrl(u.origin, u.pathname)
    ensures projectUrl.Object? ==> r == Ok(ApiUrl(projectUrl.url.origin, projectUrl.url.pathname))
  {
    var origin: string, pathname: string;
    if projectUrl.Text? {
      var url := RewriteUrl(projectUrl.s);
      var parsed := parse(url);
      if parsed.None? {
        return Err(BadUrl);
      }
      origin, pathname := parsed.value.origin, parsed.value.pathname;
    } else {
      origin, pathname := projectUrl.url.origin, projectUrl.url.pathname;
    }
    var base := origin;
    var projectPath := ProjectPathOfUrl(pathname);
    r := Ok(base + PROJECTS_PATH + projectPath);
  }

  // ------------------------------------------------------------- properties

  /** The project path of "/" + `q` is the encoded cut of `q`. */
  lemma ProjectPathOf(q: string)
    ensures ProjectPath("/" + q) == Encode(if Contains(q, "/-/") then Cut(q) else q)
  {
    assert ("/" + q)[1..] == q;
  }

  /** The first occurrence of a one-character pattern is at the first occurrence of the character. */
  lemma IndexOfChar(a: string, c: char, b: string)
    requires c !in a
    ensures IndexOf(a + [c] + b, [c]) == Some(|a|)
  {
    var s := a + [c] + b;
    assert s[|a|..|a| + 1] == [c];
    assert OccursAt(s, [c], |a|);
    forall j | 0 <= j < |a|
      ensures !OccursAt(s, [c], j)
    {
      assert s[j] == a[j];
      Mismatch(s, [c], j, 0);
    }
  }

  /** Replacing the first ":" of "git@host:rest" gives "git@host/rest". */
  lemma SshColon(host: string, rest: string)
    requires ':' !in host
    ensures ReplaceText("git@" + host + ":" + rest, ":", "/") == "git@" + host + "/" + rest
  {
    var a := "git@" + host;
    var s := a + [':'] + rest;
    assert "git@" + host + ":" + rest == s;
    IndexOfChar(a, ':', rest);
    assert s[..|a|] == a;
    assert s[|a| + 1..] == rest;
  }

  /** A URL starting with "git@" but not "git+" is rewritten by its two replacements and the ".git" cut. */
  lemma RewrittenSsh(s: string, s2: string)
    requires StartsWith(s, "git@") && s2 == ReplaceText(ReplaceText(s, ":", "/"), "git@", "https://")
    ensures Rewritten(s) == if EndsWith(s2, ".git") then s2[..|s2| - 4] else s2
  {
    assert !StartsWith(s, "git+") by { assert s[3] == '@'; }
  }

  /** "git@" + host + ":" + path + ".git" starts with "git@". */
  lemma SshPrefix(host: string, path: string)
    ensures StartsWith("git@" + host + ":" + path + ".git", "git@")
  {
    var s := "git@" + host + ":" + path + ".git";
    assert s[..4] == "git@";
  }

  /** "git@" at the start becomes "https://". */
  lemma SshScheme(host: string, path: string)
    ensures ReplaceText("git@" + host + "/" + path + ".git", "git@", "https://") == "https://" + host + "/" + path + ".git"
  {
    var t := "git@" + host + "/" + path + ".git";
    assert t[..4] == "git@";
    ReplaceTextAtStart(t, "git@", "https://");
    assert t[4..] == host + "/" + path + ".git";
  }

  /** A ".git" suffix is removed. */
  lemma DropGitSuffix(host: string, path: string)
    ensures var u := "https://" + host + "/" + path + ".git";
      EndsWith(u, ".git") && u[..|u| - 4] == "https://" + host + "/" + path
  {
    var u := "https://" + host + "/" + path + ".git";
    assert u[|u| - 4..] == ".git";
  }

  /** Replacing the first ":" of "git@host:path.git". */
  lemma SshColonGit(host: string, path: string)
    requires ':' !in host
    ensures ReplaceText("git@" + host + ":" + path + ".git", ":", "/") == "git@" + host + "/" + path + ".git"
  {
    SshColon(host, path + ".git");
    assert "git@" + host + ":" + path + ".git" == "git@" + host + ":" + (path + ".git");
    assert "git@" + host + "/" + path + ".git" == "git@" + host + "/" + (path + ".git");
  }

  /** The SSH form "git@host:path.git" becomes "https://host/path". */
  lemma SshUrl(host: string, path: string)
    requires ':' !in host
    ensures Rewritten("git@" + host + ":" + path + ".git") == "https://" + host + "/" + path
  {
    SshPrefix(host, path);
    SshColonGit(host, path);
    SshScheme(host, path);
    DropGitSuffix(host, path);
    RewrittenSsh("git@" + host + ":" + path + ".git", "https://" + host + "/" + path + ".git");
  }

  /** A "git+" prefix is only removed: the rest is rewritten as if it were absent. */
  lemma GitPlusPrefix(u: string)
    requires !StartsWith(u, "git+")
    ensures Rewritten("git+" + u) == Rewritten(u)
  {
    assert ("git+" + u)[..4] == "git+";
    assert ("git+" + u)[4..] == u;
  }

  /** Without "/-/" and a trailing "/", the project path is its segments joined by "%2F". */
  lemma PlainProjectPath(path: string)
    requires !Contains(path, "/-/") && !EndsWith(path, "/")
    ensures ProjectPath("/" + path) == Join("%2F", Split(path, '/'))
  {
    ProjectPathOf(path);
    JoinSplit(path, '/', "%2F");
  }

  /** No "-" directly follows a "/" in `g`. */
  predicate NoDashAfterSlash(g: string)
  {
    !Contains(g, "/-")
  }

  /** Two segments joined by "/" have no "/-" when the second does not start with "-". */
  lemma NoDashAfterSlashJoin(a: string, b: string)
    requires '/' !in a && '/' !in b && b != "" && b[0] != '-'
    ensures NoDashAfterSlash(a + "/" + b)
  {
    var g := a + "/" + b;
    forall k: nat | k <= |g|
      ensures !OccursAt(g, "/-", k)
    {
      if k < |a| {
        assert g[k] == a[k];
        Mismatch(g, "/-", k, 0);
      } else if k == |a| {
        assert g[k + 1] == b[0];
        Mismatch(g, "/-", k, 1);
      } else if k < |g| {
        assert g[k] == b[k - |a| - 1];
        Mismatch(g, "/-", k, 0);
      }
    }
  }

  /** A path without "-" has no "/-". */
  lemma NoDashAfterSlashWithoutDash(g: string)
    requires '-' !in g
    ensures NoDashAfterSlash(g)
  {
    forall k: nat | k <= |g|
      ensures !OccursAt(g, "/-", k)
    {
      if k + 1 < |g| {
        Mismatch(g, "/-", k, 1);
      }
    }
  }

  /** "/-/" is first found right after a project path in which no "-" follows a "/". */
  lemma IndexOfMarker(g: string, rest: string)
    requires NoDashAfterSlash(g)
    ensures IndexOf(g + "/-/" + rest, "/-/") == Some(|g|)
  {
    var p := g + "/-/" + rest;
    assert p[|g|..|g| + 3] == "/-/";
    assert OccursAt(p, "/-/", |g|);
    forall j | 0 <= j < |g|
      ensures !OccursAt(p, "/-/", j)
    {
      if j + 1 == |g| {
        assert p[j + 1] == '/';
        Mismatch(p, "/-/", j, 1);
      } else if g[j] != '/' {
        assert p[j] == g[j];
        Mismatch(p, "/-/", j, 0);
      } else {
        assert !OccursAt(g, "/-", j);
        assert g[j..j + 2] == [g[j], g[j + 1]];
        assert p[j + 1] == g[j + 1];
        Mismatch(p, "/-/", j, 1);
      }
    }
  }

  /** Cutting a path with a route keeps what precedes the route. */
  lemma CutRoute(g: string, rest: string)
    requires NoDashAfterSlash(g)
    ensures var p := g + "/-/" + rest; Contains(p, "/-/") && Cut(p) == g
  {
    var p := g + "/-/" + rest;
    IndexOfMarker(g, rest);
    ContainsIndexOf(p, "/-/");
    assert p[..|g|] == g;
  }

  /** A route under "/-/" is cut off: the project path is the part before it. */
  lemma RouteProjectPath(g: string, rest: string)
    requires NoDashAfterSlash(g)
    requires !EndsWith(g, "/")
    ensures ProjectPath("/" + g + "/-/" + rest) == Join("%2F", Split(g, '/'))
  {
    var p := g + "/-/" + rest;
    assert "/" + g + "/-/" + rest == "/" + p;
    ProjectPathOf(p);
    CutRoute(g, rest);
    JoinSplit(g, '/', "%2F");
  }

  // --------------------------------------------------------------- as written

  /** The cut as the source writes it: at the first "-" anywhere in the path. */
  function CutAsWritten(p: string): (r: string)
    ensures '-' !in r && StartsWith(p, r)
    ensures r != p ==> p[|r|] == '-'
  {
    Split(p, '-')[0]
  }

  /** The project path with the cut as written. */
  function ProjectPathAsWritten(pathname: string): (r: string)
    ensures '/' !in r
    ensures var p := if |pathname| >= 1 then pathname[1..] else "";
      !Contains(p, "/-/") ==> r == ProjectPath(pathname)
  {
    var p := if |pathname| >= 1 then pathname[1..] else "";
    Encode(if Contains(p, "/-/") then CutAsWritten(p) else p)
  }

  /** The project path as written of "/" + `q`. */
  lemma ProjectPathAsWrittenOf(q: string)
    ensures ProjectPathAsWritten("/" + q) == Encode(if Contains(q, "/-/") then CutAsWritten(q) else q)
  {
    assert ("/" + q)[1..] == q;
  }

  /** The cut as written stops at the first "-". */
  lemma CutAsWrittenAt(a: string, b: string)
    requires '-' !in a
    ensures CutAsWritten(a + "-" + b) == a
  {
    SplitCons(a, b, '-');
    assert a + "-" + b == a + ['-'] + b;
  }

  /** A trailing "/" is dropped before encoding. */
  lemma EncodeTrailingSlash(g: string)
    requires !EndsWith(g, "/")
    ensures Encode(g + "/") == Encode(g)
  {
    assert (g + "/")[|g|..] == "/";
    assert (g + "/")[..|g|] == g;
  }

  /** With a route in the path, the cut as written keeps what precedes the first "-". */
  lemma AsWrittenCut(a: string, b: string)
    requires '-' !in a && Contains(a + "-" + b, "/-/")
    ensures ProjectPathAsWritten("/" + a + "-" + b) == Encode(a)
  {
    var p := a + "-" + b;
    assert "/" + a + "-" + b == "/" + p;
    ProjectPathAsWrittenOf(p);
    CutAsWrittenAt(a, b);
  }

  /** With a route in the path, the corrected cut keeps what precedes "/-/". */
  lemma CorrectedCut(g: string, rest: string)
    requires NoDashAfterSlash(g)
    ensures ProjectPath("/" + g + "/-/" + rest) == Encode(g)
  {
    var p := g + "/-/" + rest;
    assert "/" + g + "/-/" + rest == "/" + p;
    ProjectPathOf(p);
    CutRoute(g, rest);
  }

  /** As written, a route path whose project path has no "-" is cut just after the project path's "/". */
  lemma AsWrittenRouteWithoutDash(g: string, rest: string)
    requires '-' !in g
    ensures ProjectPathAsWritten("/" + g + "/-/" + rest) == Encode(g + "/")
  {
    var a := g + "/";
    var b := "/" + rest;
    assert g + "/-/" + rest == a + "-" + b;
    assert "/" + g + "/-/" + rest == "/" + a + "-" + b;
    assert Contains(a + "-" + b, "/-/") by {
      assert (a + "-" + b)[|g|..|g| + 3] == "/-/";
      assert OccursAt(a + "-" + b, "/-/", |g|);
    }
    AsWrittenCut(a, b);
  }

  /** Both cuts agree when the project path itself has no "-". */
  lemma CutsAgreeWithoutDash(g: string, rest: string)
    requires '-' !in g && !EndsWith(g, "/")
    ensures ProjectPathAsWritten("/" + g + "/-/" + rest) == ProjectPath("/" + g + "/-/" + rest)
  {
    AsWrittenRouteWithoutDash(g, rest);
    NoDashAfterSlashWithoutDash(g);
    CorrectedCut(g, rest);
    EncodeTrailingSlash(g);
  }

  /** A path without "/" is encoded as it is. */
  lemma EncodeWithoutSlash(p: string)
    requires '/' !in p
    ensures Encode(p) == p
  {
    assert !EndsWith(p, "/") by {
      if |p| >= 1 {
        assert p[|p| - 1] in p;
      }
    }
    ReplaceAllWithout(p, '/', "%2F");
  }

  /** The example URL path split at its first "-". */
  lemma ExampleDashParts(s: string)
    requires s == "/my-group/project/-/tree/main"
    ensures s == "/" + "my" + "-" + "group/project/-/tree/main"
  {
  }

  /** The example project path holds a route. */
  lemma ExampleRoute(p: string)
    requires p == "my" + "-" + "group/project/-/tree/main"
    ensures Contains(p, "/-/")
  {
    assert p[16..19] == "/-/";
    assert OccursAt(p, "/-/", 16);
  }

  /** A group name with a dash is cut short: "/my-group/project/-/tree/main" gives the project "my". */
  lemma CutAsWrittenCounterexample(s: string)
    requires s == "/my-group/project/-/tree/main"
    ensures ProjectPathAsWritten(s) == "my"
  {
    ExampleDashParts(s);
    ExampleRoute("my" + "-" + "group/project/-/tree/main");
    AsWrittenCut("my", "group/project/-/tree/main");
    EncodeWithoutSlash("my");
  }

  /** A group and a project name before a route are kept and joined by "%2F". */
  lemma TwoSegmentRoute(a: string, b: string, rest: string)
    requires '/' !in a && '/' !in b && b != "" && b[0] != '-'
    ensures ProjectPath("/" + a + "/" + b + "/-/" + rest) == a + "%2F" + b
  {
    var g := a + "/" + b;
    NoDashAfterSlashJoin(a, b);
    assert !EndsWith(g, "/") by {
      assert g[|g| - 1] == b[|b| - 1];
    }
    RouteProjectPath(g, rest);
    assert "/" + a + "/" + b + "/-/" + rest == "/" + g + "/-/" + rest;
    assert Split(g, '/') == [a, b] by {
      SplitCons(a, b, '/');
      SplitWithout(b, '/');
      assert g == a + ['/'] + b;
    }
    assert Join("%2F", [a, b]) == a + "%2F" + b by {
      assert [a, b][..1] == [a];
    }
  }

  /** The example URL path split into its group, project and route. */
  lemma ExamplePathParts(s: string)
    requires s == "/my-group/project/-/tree/main"
    ensures s == "/" + "my-group" + "/" + "project" + "/-/" + "tree/main"
  {
    assert s[..9] == "/my-group";
    assert s[9] == '/';
    assert s[10..17] == "project";
    assert s[17..20] == "/-/";
    assert s[20..] == "tree/main";
  }

  /** The corrected cut keeps the whole project path of the same URL. */
  lemma CutCorrectedExample(s: string)
    requires s == "/my-group/project/-/tree/main"
    ensures ProjectPath(s) == "my-group%2Fproject"
  {
    ExamplePathParts(s);
    TwoSegmentRoute("my-group", "project", "tree/main");
    assert "my-group" + "%2F" + "project" == "my-group%2Fproject";
  }
}
