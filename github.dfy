// `parseURL` of the GitHub adapter: the owner and repository named by a
// repository URL. A URL object handed in by the caller has its path rewritten
// in place; a string is parsed into a fresh object first. `URL.parse` is a
// parameter.
module GitHub {
  import opened Wrappers
  import opened Strings
  import opened Urls

  /** The argument of `parseURL`: `string | URL`. */
  datatype RepoUrl = Text(s: string) | Object(url: Url)

  /** `{ repo, owner }`; either is `undefined` when the path has too few segments. */
  datatype OwnerRepo = OwnerRepo(repo: Option<string>, owner: Option<string>)

  datatype ParseError = CouldNotParse

  /** One trailing "/" removed, then one trailing ".git". */
  function TrimPath(p: string): (r: string)
    ensures StartsWith(p, r) && |p| - 5 <= |r|
    ensures !EndsWith(p, "/") && !EndsWith(p, ".git") ==> r == p
  {
    var p1 := if EndsWith(p, "/") then p[..|p| - 1] else p;
    if EndsWith(p1, ".git") then p1[..|p1| - 4] else p1
  }

  /** `.filter(text => text)`: the non-empty strings, in order. */
  function NonEmpty(xs: seq<string>): (r: seq<string>)
    decreases |xs|
    ensures forall i | 0 <= i < |r| :: r[i] != ""
    ensures forall x :: x in r <==> x in xs && x != ""
  {
    if xs == [] then []
    else (if xs[0] != "" then [xs[0]] else []) + NonEmpty(xs[1..])
  }

  /** The non-empty "/"-separated segments of a path. */
  function Segments(p: string): (r: seq<string>)
    ensures forall i | 0 <= i < |r| :: r[i] != "" && '/' !in r[i]
  {
    var parts := Split(p, '/');
    assert forall x | x in parts :: '/' !in x;
    NonEmpty(parts)
  }

  /** `parsed[i]`, `undefined` past the end. */
  function At(xs: seq<string>, i: nat): Option<string>
  {
    if i < |xs| then Some(xs[i]) else None
  }

  /** The owner and repository of a path already trimmed. */
  function OwnerRepoOf(p: string): OwnerRepo
  {
    var parsed := Segments(p);
    OwnerRepo(At(parsed, 1), At(parsed, 0))
  }

  /**
   * `parseURL(repoUrl)`. A string that does not parse is an error; a URL
   * object is modified in place and nothing else is.
   */
  method ParseURL(repoUrl: RepoUrl, parse: string -> Option<UrlParts>) returns (r: Result<OwnerRepo, ParseError>)
    modifies if repoUrl.Object? then {repoUrl.url} else {}
    ensures repoUrl.Text? ==> (r.Err? <==> parse(repoUrl.s).None?)
    ensures repoUrl.Text? && r.Ok? ==> r.value == OwnerRepoOf(TrimPath(parse(repoUrl.s).value.pathname))
    ensures repoUrl.Object? ==>
      && repoUrl.url.pathname == TrimPath(old(repoUrl.url.pathname))
      && repoUrl.url.origin == old(repoUrl.url.origin)
      && r == Ok(OwnerRepoOf(repoUrl.url.pathname))
  {
    var obj: Url;
    if repoUrl.Text? {
      var parsed := parse(repoUrl.s);
      if parsed.None? {
        return Err(CouldNotParse);
      }
      obj := new Url(parsed.value.origin, parsed.value.pathname);
    } else {
      obj := repoUrl.url;
    }
    if EndsWith(obj.pathname, "/") {
      obj.pathname := obj.pathname[..|obj.pathname| - 1];
    }
    if EndsWith(obj.pathname, ".git") {
      obj.pathname := obj.pathname[..|obj.pathname| - 4];
    }
    var parsed := Segments(obj.pathname);
    r := Ok(OwnerRepo(At(parsed, 1), At(parsed, 0)));
  }

  /** A ".git" suffix goes, with or without one slash after it, and only one ".git" is removed. */
  lemma TrimPathSuffixes(q: string)
    ensures TrimPath(q + ".git") == q
    ensures TrimPath(q + ".git/") == q
    ensures TrimPath(q + ".git.git") == q + ".git"
    ensures !EndsWith(q, ".git") ==> TrimPath(q + "/") == q
  {
    assert (q + ".git")[|q| + 3] == 't';
    assert (q + ".git")[|q|..] == ".git";
    assert (q + ".git/")[..|q| + 4] == q + ".git";
    assert (q + ".git.git")[|q| + 7] == 't';
    assert (q + ".git.git")[|q| + 4..] == ".git";
    assert (q + ".git.git")[..|q| + 4] == q + ".git";
    assert (q + "/")[..|q|] == q;
  }

  /** Empty segments are dropped wherever they are. */
  lemma {:induction false} NonEmptyAppend(xs: seq<string>, ys: seq<string>)
    decreases |xs|
    ensures NonEmpty(xs + ys) == NonEmpty(xs) + NonEmpty(ys)
  {
    if xs == [] {
      assert xs + ys == ys;
    } else {
      NonEmptyAppend(xs[1..], ys);
      assert (xs + ys)[1..] == xs[1..] + ys;
    }
  }

  lemma {:induction false} NonEmptyKeeps(xs: seq<string>)
    requires forall i | 0 <= i < |xs| :: xs[i] != ""
    decreases |xs|
    ensures NonEmpty(xs) == xs
  {
    if xs != [] {
      NonEmptyKeeps(xs[1..]);
    }
  }

  /** A path "/" followed by non-empty segments joined by "/" has exactly those segments. */
  lemma SegmentsOfPath(xs: seq<string>)
    requires xs != []
    requires forall i | 0 <= i < |xs| :: xs[i] != "" && '/' !in xs[i]
    ensures Segments("/" + Join("/", xs)) == xs
  {
    SplitCons("", Join("/", xs), '/');
    assert "/" + Join("/", xs) == "" + ['/'] + Join("/", xs);
    SplitOfJoin(xs, '/');
    NonEmptyAppend([""], xs);
    NonEmptyKeeps(xs);
  }

  /** "/owner/repo" ends neither in "/" nor in ".git" when the repository name does not. */
  lemma RepoPathEnd(owner: string, repo: string)
    requires owner != "" && repo != "" && '/' !in repo && !EndsWith(repo, ".git")
    ensures var q := "/" + owner + "/" + repo; !EndsWith(q, "/") && !EndsWith(q, ".git")
  {
    var q := "/" + owner + "/" + repo;
    assert q[|q| - 1] == repo[|repo| - 1];
    if |repo| >= 4 {
      assert q[|q| - 4..] == repo[|repo| - 4..];
    } else {
      assert q[|q| - 4..][3 - |repo|] == q[|q| - |repo| - 1] == '/';
    }
  }

  /** The path of a repository, as "/" and its two segments joined by "/". */
  lemma RepoPathJoined(owner: string, repo: string)
    ensures "/" + owner + "/" + repo == "/" + Join("/", [owner, repo])
  {
    assert [owner, repo][..1] == [owner];
  }

  /** The suffixes a repository URL may carry are all trimmed off. */
  lemma RepoPathTrimmed(owner: string, repo: string, suffix: string)
    requires owner != "" && repo != "" && '/' !in repo
    requires !EndsWith(repo, ".git")
    requires suffix in {"", "/", ".git", ".git/"}
    ensures TrimPath("/" + owner + "/" + repo + suffix) == "/" + owner + "/" + repo
  {
    var q := "/" + owner + "/" + repo;
    RepoPathEnd(owner, repo);
    TrimPathSuffixes(q);
    assert q + "" == q;
  }

  /** A repository path, with or without ".git" and a trailing slash, names its owner and repository. */
  lemma OwnerAndRepo(owner: string, repo: string, suffix: string)
    requires owner != "" && repo != "" && '/' !in owner && '/' !in repo
    requires !EndsWith(repo, ".git")
    requires suffix in {"", "/", ".git", ".git/"}
    ensures OwnerRepoOf(TrimPath("/" + owner + "/" + repo + suffix)) == OwnerRepo(Some(repo), Some(owner))
  {
    RepoPathTrimmed(owner, repo, suffix);
    RepoPathJoined(owner, repo);
    SegmentsOfPath([owner, repo]);
  }
}
