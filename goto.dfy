/**
 * The URL rewriting of the `goto` command-line tool: the `origin` remote of
 * the local repository becomes a web address for the `github` command, that
 * address becomes a Travis CI address for the `travis` command, and a search
 * term becomes a Rust standard-library documentation search for `rust`.
 */
module Goto {
  import opened Wrappers
  import opened StrReplace

  /** The documentation-search prefix the `rust` command appends its term to. */
  const RustDocHttp: string := "https://doc.rust-lang.org/std/index.html?search="

  /** The tool's error kinds. Only `OriginUrlNotFound` arises in this model:
      the other two wrap failures of the repository library and of process
      spawning, which stay outside it. */
  datatype Error = Git2Error(message: string) | OriginUrlNotFound | IoError(message: string)

  // ---------------------------------------------------------------------
  // The three rewriting steps applied to the origin URL, in order
  // ---------------------------------------------------------------------

  /** `.replace(".git", "")`: every `.git`, wherever it stands, is deleted. */
  function DeleteDotGit(origin: string): string {
    ReplaceAll(origin, ".git", "")
  }

  /** `.replace(":", "/")`: every colon becomes a slash. */
  function ColonsToSlashes(s: string): string {
    ReplaceAll(s, ":", "/")
  }

  /** `.replace("git@", "https://")`: the ssh user prefix becomes a scheme. */
  function SshToHttps(s: string): string {
    ReplaceAll(s, "git@", "https://")
  }

  /** The web address computed from an origin URL. */
  function Normalize(origin: string): string {
    SshToHttps(ColonsToSlashes(DeleteDotGit(origin)))
  }

  /** `get_local_github_url` after the repository lookup: `origin` is the URL
      recorded for the `origin` remote, `None` when it has none. */
  function LocalGithubUrl(origin: Option<string>): (r: Result<string, Error>)
    ensures r.Err? <==> origin.None?
    ensures r.Err? ==> r.error == OriginUrlNotFound
    ensures r.Ok? ==> r.value == Normalize(origin.value)
  {
    match origin
    case None => Err(OriginUrlNotFound)
    case Some(url) => Ok(Normalize(url))
  }

  /** `travis`: the host name `github.com` becomes `travis-ci.org`, wherever it occurs. */
  function TravisUrl(githubUrl: string): string {
    ReplaceAll(githubUrl, "github.com", "travis-ci.org")
  }

  /** The address the `travis` command opens, or the error it reports. */
  function TravisTarget(origin: Option<string>): (r: Result<string, Error>)
    ensures r.Err? <==> origin.None?
    ensures r.Err? ==> r.error == OriginUrlNotFound
    ensures r.Ok? ==> r.value == TravisUrl(Normalize(origin.value))
  {
    match LocalGithubUrl(origin)
    case Err(e) => Err(e)
    case Ok(url) => Ok(TravisUrl(url))
  }

  /** `rust`: the documentation-search address for a search term. */
  function RustDocUrl(search: string): (r: string)
    ensures |r| == |RustDocHttp| + |search|
    ensures RustDocHttp <= r
    ensures r[|RustDocHttp|..] == search
    ensures search == [] ==> r == RustDocHttp
  {
    RustDocHttp + search
  }

  // ---------------------------------------------------------------------
  // Properties of the origin-URL rewriting
  // ---------------------------------------------------------------------

  /** Text that none of the three rewriting steps touches. */
  predicate Plain(x: string) {
    ':' !in x && !Occurs(x, ".git") && !Occurs(x, "git@")
  }

  /** Every colon of `r` is the colon of an `https://` scheme. */
  predicate ColonsInScheme(r: string) {
    forall k :: 0 <= k < |r| && r[k] == ':' ==> 5 <= k && k + 3 <= |r| && r[k - 5..k + 3] == "https://"
  }

  /** The `.git` step deletes four characters per match and never lengthens the URL. */
  lemma {:induction false} StripGitLength(origin: string)
    ensures |DeleteDotGit(origin)| == |origin| - 4 * Count(origin, ".git")
    ensures |DeleteDotGit(origin)| <= |origin|
  {
    ReplaceAllLength(origin, ".git", "");
  }

  /** After the colon step no colon is left. */
  lemma NoColonAfterSlashing(origin: string)
    ensures ':' !in ColonsToSlashes(DeleteDotGit(origin))
  {
    ReplaceCharRemoves(DeleteDotGit(origin), ':', '/');
  }

  /** The only colon of `https://` is at index 5. */
  lemma SchemeColonAt(k: int)
    requires 0 <= k < 8 && "https://"[k] == ':'
    ensures k == 5
  {
  }

  /** A colon of `x` seen through the prefix `https://` still sits in a scheme. */
  lemma SchemeShift(x: string, k: int)
    requires ColonsInScheme(x)
    requires 8 <= k < 8 + |x| && x[k - 8] == ':'
    ensures 5 <= k && k + 3 <= 8 + |x| && ("https://" + x)[k - 5..k + 3] == "https://"
  {
    assert ("https://" + x)[k - 5..k + 3] == x[k - 13..k - 5];
  }

  /** Prefixing a scheme keeps every colon inside a scheme. */
  lemma SchemePrefix(x: string)
    requires ColonsInScheme(x)
    ensures ColonsInScheme("https://" + x)
  {
    var y := "https://" + x;
    forall k | 0 <= k < |y| && y[k] == ':'
      ensures 5 <= k && k + 3 <= |y| && y[k - 5..k + 3] == "https://"
    {
      if k < 8 {
        assert y[k] == "https://"[k];
        SchemeColonAt(k);
        assert y[..8] == "https://";
      } else {
        SchemeShift(x, k);
      }
    }
  }

  /** Prefixing a character other than a colon keeps every colon inside a scheme. */
  lemma CharPrefix(c: char, x: string)
    requires c != ':' && ColonsInScheme(x)
    ensures ColonsInScheme([c] + x)
  {
    var y := [c] + x;
    forall k | 0 <= k < |y| && y[k] == ':'
      ensures 5 <= k && k + 3 <= |y| && y[k - 5..k + 3] == "https://"
    {
      assert x[k - 1] == ':';
      assert y[k - 5..k + 3] == x[k - 6..k + 2];
    }
  }

  /** On colon-free text, the ssh step only brings in colons as part of `https://`. */
  lemma {:induction false} SchemeColons(t: string)
    requires ':' !in t
    ensures ColonsInScheme(SshToHttps(t))
    decreases |t|
  {
    if "git@" <= t {
      ReplaceStepMatch(t, "git@", "https://");
      SchemeColons(t[4..]);
      SchemePrefix(SshToHttps(t[4..]));
    } else if |t| > 0 {
      ReplaceStepCopy(t, "git@", "https://");
      SchemeColons(t[1..]);
      CharPrefix(t[0], SshToHttps(t[1..]));
    }
  }

  /** Every colon of a normalised URL comes from an inserted `https://`. */
  lemma ColonsOnlyFromScheme(origin: string)
    ensures ColonsInScheme(Normalize(origin))
  {
    NoColonAfterSlashing(origin);
    SchemeColons(ColonsToSlashes(DeleteDotGit(origin)));
  }

  /** A URL without `.git`, colon or `git@` passes through unchanged. */
  lemma PlainUntouched(origin: string)
    requires Plain(origin)
    ensures Normalize(origin) == origin
  {
    ReplaceAbsent(origin, ".git", "");
    AbsentChar(origin, ":", ':');
    ReplaceAbsent(origin, ":", "/");
    ReplaceAbsent(origin, "git@", "https://");
  }

  /** The `.git` step on `git@H:P.git` deletes just the final `.git`. */
  lemma SshStrip(h: string, p: string)
    requires Plain(h) && Plain(p)
    ensures DeleteDotGit("git@" + h + ":" + p + ".git") == "git@" + h + ":" + p
  {
    var g, c, e := "git@", ":", ".git";
    calc {
      ReplaceAll(g + h + c + p + e, e, "");
      { ReplaceConcatAtSeparator(g + h + c + p, e, e, ""); }
      ReplaceAll(g + h + c + p, e, "") + ReplaceAll(e, e, "");
      { ReplaceStepMatch(e, e, ""); }
      ReplaceAll(g + h + c + p, e, "");
      { ReplaceConcatAtSeparator(g + h + c, p, e, ""); ReplaceAbsent(p, e, ""); }
      ReplaceAll(g + h + c, e, "") + p;
      { ReplaceConcatAtSeparator(g + h, c, e, ""); ReplaceAbsentChar(c, e, "", '.'); }
      ReplaceAll(g + h, e, "") + c + p;
      { ReplaceConcatAtSeparator(g, h, e, ""); ReplaceAbsentChar(g, e, "", '.'); ReplaceAbsent(h, e, ""); }
      g + h + c + p;
    }
  }

  /** The colon step on `git@H:P` turns the host separator into a slash. */
  lemma SshColons(h: string, p: string)
    requires Plain(h) && Plain(p)
    ensures ColonsToSlashes("git@" + h + ":" + p) == "git@" + h + "/" + p
  {
    var g, c := "git@", ":";
    calc {
      ReplaceAll(g + h + c + p, c, "/");
      { ReplaceCharConcat(g + h + c, p, ':', "/"); ReplaceAbsentChar(p, c, "/", ':'); }
      ReplaceAll(g + h + c, c, "/") + p;
      { ReplaceCharConcat(g + h, c, ':', "/"); ReplaceStepMatch(c, c, "/"); }
      ReplaceAll(g + h, c, "/") + "/" + p;
      { ReplaceCharConcat(g, h, ':', "/"); ReplaceAbsentChar(g, c, "/", ':'); ReplaceAbsentChar(h, c, "/", ':'); }
      g + h + "/" + p;
    }
  }

  /** The ssh step on `git@H/P` puts the scheme in place of the user prefix. */
  lemma SshScheme(h: string, p: string)
    requires Plain(h) && Plain(p)
    ensures SshToHttps("git@" + h + "/" + p) == "https://" + h + "/" + p
  {
    var g, sl := "git@", "/";
    calc {
      ReplaceAll(g + h + sl + p, g, "https://");
      { ReplaceConcatAtSeparator(g + h + sl, p, g, "https://"); ReplaceAbsent(p, g, "https://"); }
      ReplaceAll(g + h + sl, g, "https://") + p;
      { ReplaceConcatAtSeparator(g + h, sl, g, "https://"); ReplaceAbsentChar(sl, g, "https://", '@'); }
      ReplaceAll(g + h, g, "https://") + sl + p;
      { ReplaceConcatAtSeparator(g, h, g, "https://"); ReplaceStepMatch(g, g, "https://"); ReplaceAbsent(h, g, "https://"); }
      "https://" + h + sl + p;
    }
  }

  /** An ssh remote `git@H:P.git` becomes `https://H/P`: the host is kept. */
  lemma SshRemote(h: string, p: string)
    requires Plain(h) && Plain(p)
    ensures Normalize("git@" + h + ":" + p + ".git") == "https://" + h + "/" + p
  {
    SshStrip(h, p);
    SshColons(h, p);
    SshScheme(h, p);
  }

  /** `github.com` is left alone by all three steps. */
  lemma GithubHostPlain()
    ensures Plain("github.com")
  {
    var a, b := "github", ".com";
    AbsentChar(a, ".git", '.');
    AbsentChar(b, ".git", 'g');
    SeparatorBlocksStraddle(a, b, ".git");
    OccursConcat(a, b, ".git");
    assert a + b == "github.com";
    AbsentChar("github.com", "git@", '@');
  }

  /** `u/r` is left alone by all three steps. */
  lemma RepoPathPlain()
    ensures Plain("u/r")
  {
    AbsentChar("u/r", ".git", '.');
    AbsentChar("u/r", "git@", '@');
  }

  /** `git@github.com:u/r.git` becomes `https://github.com/u/r`. */
  lemma SshExample()
    ensures Normalize("git@" + "github.com" + ":" + "u/r" + ".git") == "https://" + "github.com" + "/" + "u/r"
  {
    GithubHostPlain();
    RepoPathPlain();
    SshRemote("github.com", "u/r");
  }

  /** The `.git` step on `https://H/P.git` deletes just the final `.git`. */
  lemma HttpsStrip(h: string, p: string)
    requires Plain(h) && Plain(p)
    ensures DeleteDotGit("https://" + h + "/" + p + ".git") == "https://" + h + "/" + p
  {
    var a, sl, e := "https://", "/", ".git";
    calc {
      ReplaceAll(a + h + sl + p + e, e, "");
      { ReplaceConcatAtSeparator(a + h + sl + p, e, e, ""); }
      ReplaceAll(a + h + sl + p, e, "") + ReplaceAll(e, e, "");
      { ReplaceStepMatch(e, e, ""); }
      ReplaceAll(a + h + sl + p, e, "");
      { ReplaceConcatAtSeparator(a + h + sl, p, e, ""); ReplaceAbsent(p, e, ""); }
      ReplaceAll(a + h + sl, e, "") + p;
      { ReplaceConcatAtSeparator(a + h, sl, e, ""); ReplaceAbsentChar(sl, e, "", '.'); }
      ReplaceAll(a + h, e, "") + sl + p;
      { ReplaceConcatAtSeparator(a, h, e, ""); ReplaceAbsentChar(a, e, "", '.'); ReplaceAbsent(h, e, ""); }
      a + h + sl + p;
    }
  }

  /** The colon step rewrites the scheme's own colon. */
  lemma HttpsColons(h: string, p: string)
    requires Plain(h) && Plain(p)
    ensures ColonsToSlashes("https://" + h + "/" + p) == "https///" + h + "/" + p
  {
    var a, sl, c := "https://", "/", ":";
    calc {
      ReplaceAll(a + h + sl + p, c, "/");
      { ReplaceCharConcat(a + h + sl, p, ':', "/"); ReplaceAbsentChar(p, c, "/", ':'); }
      ReplaceAll(a + h + sl, c, "/") + p;
      { ReplaceCharConcat(a + h, sl, ':', "/"); ReplaceAbsentChar(sl, c, "/", ':'); }
      ReplaceAll(a + h, c, "/") + sl + p;
      { ReplaceCharConcat(a, h, ':', "/"); ReplaceAbsentChar(h, c, "/", ':'); SchemeColonRewritten(); }
      "https///" + h + sl + p;
    }
  }

  /** `https://` itself becomes `https///`. */
  lemma SchemeColonRewritten()
    ensures ReplaceAll("https://", ":", "/") == "https///"
  {
    ReplaceCharIsSubst("https://", ':', '/');
  }

  /** The ssh step leaves `https///H/P` alone. */
  lemma HttpsScheme(h: string, p: string)
    requires Plain(h) && Plain(p)
    ensures SshToHttps("https///" + h + "/" + p) == "https///" + h + "/" + p
  {
    var b, sl, g := "https///", "/", "git@";
    calc {
      ReplaceAll(b + h + sl + p, g, "https://");
      { ReplaceConcatAtSeparator(b + h + sl, p, g, "https://"); ReplaceAbsent(p, g, "https://"); }
      ReplaceAll(b + h + sl, g, "https://") + p;
      { ReplaceConcatAtSeparator(b + h, sl, g, "https://"); ReplaceAbsentChar(sl, g, "https://", '@'); }
      ReplaceAll(b + h, g, "https://") + sl + p;
      { ReplaceConcatAtSeparator(b, h, g, "https://"); ReplaceAbsentChar(b, g, "https://", '@'); ReplaceAbsent(h, g, "https://"); }
      b + h + sl + p;
    }
  }

  /** An https remote `https://H/P.git` loses its scheme colon: it becomes `https///H/P`. */
  lemma HttpsRemote(h: string, p: string)
    requires Plain(h) && Plain(p)
    ensures Normalize("https://" + h + "/" + p + ".git") == "https///" + h + "/" + p
  {
    HttpsStrip(h, p);
    HttpsColons(h, p);
    HttpsScheme(h, p);
  }

  /** `https://github.com/u/r.git` becomes `https///github.com/u/r`. */
  lemma HttpsExample()
    ensures Normalize("https://" + "github.com" + "/" + "u/r" + ".git") == "https///" + "github.com" + "/" + "u/r"
  {
    GithubHostPlain();
    RepoPathPlain();
    HttpsRemote("github.com", "u/r");
  }

  /** A `.git` between two pieces free of it is deleted, and the text that
      closes up around it is not scanned again. */
  lemma StripMiddle(a: string, b: string)
    requires !Occurs(a, ".git") && !Occurs(b, ".git")
    ensures DeleteDotGit(a + ".git" + b) == a + b
  {
    var e := ".git";
    calc {
      ReplaceAll(a + e + b, e, "");
      { ReplaceConcatAtSeparator(a + e, b, e, ""); ReplaceAbsent(b, e, ""); }
      ReplaceAll(a + e, e, "") + b;
      { ReplaceConcatAtSeparator(a, e, e, ""); ReplaceStepMatch(e, e, ""); ReplaceAbsent(a, e, ""); }
      a + b;
    }
  }

  /** Text without colon or `@` is left alone by the colon and ssh steps. */
  lemma ColonAndSchemeKeep(t: string)
    requires ':' !in t && '@' !in t
    ensures SshToHttps(ColonsToSlashes(t)) == t
  {
    ReplaceAbsentChar(t, ":", "/", ':');
    ReplaceAbsentChar(t, "git@", "https://", '@');
  }

  /** The `.git` step on `u/r.g.gitit` deletes the match at index 5 and nothing else. */
  lemma StripOnceExample()
    ensures DeleteDotGit("u/r.g" + ".git" + "it") == "u/r.g" + "it"
  {
    AbsentChar("u/r.g", ".git", 'i');
    AbsentChar("it", ".git", '.');
    StripMiddle("u/r.g", "it");
  }

  /** Deleted text is not rescanned: `u/r.g.gitit` loses its one `.git`
      match and comes out as `u/r.git`, still ending in `.git`. */
  lemma GitSuffixCanReappear()
    ensures Normalize("u/r.g" + ".git" + "it") == "u/r.g" + "it" == "u/r" + ".git"
  {
    StripOnceExample();
    assert "u/r.g" + "it" == "u/r" + ".git";
    ColonAndSchemeKeep("u/r.g" + "it");
  }

  // ---------------------------------------------------------------------
  // Properties of the CI address
  // ---------------------------------------------------------------------

  /** The CI address equals the GitHub address exactly when `github.com` does not occur in it. */
  lemma TravisUnchangedIff(url: string)
    ensures TravisUrl(url) == url <==> !Occurs(url, "github.com")
  {
    ReplaceUnchangedIff(url, "github.com", "travis-ci.org");
  }

  /** No match of `github.com` starts before it and ends inside it: its first
      letter `g` appears nowhere else in it. */
  lemma GithubNoStraddle(scheme: string)
    ensures NoStraddle(scheme, "github.com", "github.com")
  {
    var g := "github.com";
    forall i | 0 <= i < |scheme| < i + |g| ensures !MatchAt(scheme + g, g, i) {
      if i + |g| <= |scheme + g| {
        var d := |scheme| - i;
        assert (scheme + g)[i + d] == g[0];
        assert g[d] != 'g';
      }
    }
  }

  /** The host `github.com` after a scheme and before a path, neither holding
      `github.com`, moves to `travis-ci.org`. */
  lemma TravisFromGithub(scheme: string, path: string)
    requires !Occurs(scheme, "github.com") && !Occurs(path, "github.com")
    ensures TravisUrl(scheme + "github.com" + path) == scheme + "travis-ci.org" + path
  {
    var g, t := "github.com", "travis-ci.org";
    calc {
      ReplaceAll(scheme + g + path, g, t);
      { ReplaceConcatAtSeparator(scheme + g, path, g, t); ReplaceAbsent(path, g, t); }
      ReplaceAll(scheme + g, g, t) + path;
      { GithubNoStraddle(scheme); ReplaceConcat(scheme, g, g, t); }
      ReplaceAll(scheme, g, t) + ReplaceAll(g, g, t) + path;
      { ReplaceAbsent(scheme, g, t); ReplaceStepMatch(g, g, t); }
      scheme + t + path;
    }
  }

  /** `https://github.com/u/r` gives `https://travis-ci.org/u/r`. */
  lemma TravisExample()
    ensures TravisUrl("https://" + "github.com" + "/u/r") == "https://" + "travis-ci.org" + "/u/r"
  {
    AbsentChar("https://", "github.com", 'g');
    AbsentChar("/u/r", "github.com", 'g');
    TravisFromGithub("https://", "/u/r");
  }

  /** An https URL whose host and path hold no `github.com`, and where no
      `github.com` runs across the join of host and path, is left unchanged. */
  lemma TravisOtherHost(host: string, path: string)
    requires !Occurs(host, "github.com") && !Occurs(path, "github.com")
    requires NoStraddle(host, path, "github.com")
    ensures TravisUrl("https://" + host + path) == "https://" + host + path
  {
    var a, g, t := "https://", "github.com", "travis-ci.org";
    assert a + host + path == a + (host + path);
    calc {
      ReplaceAll(a + (host + path), g, t);
      { ReplaceConcatAtSeparator(a, host + path, g, t); ReplaceAbsentChar(a, g, t, 'g'); }
      a + ReplaceAll(host + path, g, t);
      { ReplaceConcat(host, path, g, t); ReplaceAbsent(host, g, t); ReplaceAbsent(path, g, t); }
      a + (host + path);
    }
  }

  /** `https://gitlab.com/u/r` is left as it is. */
  lemma GitlabUnchanged()
    ensures TravisUrl("https://" + "gitlab.com" + "/u/r") == "https://" + "gitlab.com" + "/u/r"
  {
    AbsentChar("gitlab.com", "github.com", 'h');
    AbsentChar("/u/r", "github.com", 'g');
    SeparatorBlocksStraddle("gitlab.com", "/u/r", "github.com");
    TravisOtherHost("gitlab.com", "/u/r");
  }

  /** The `travis` command on the ssh remote `git@github.com:u/r.git` opens `https://travis-ci.org/u/r`. */
  lemma TravisTargetExample()
    ensures TravisTarget(Some("git@" + "github.com" + ":" + "u/r" + ".git"))
         == Ok("https://" + "travis-ci.org" + "/" + "u/r")
  {
    SshExample();
    var path := "/" + "u/r";
    AbsentChar("https://", "github.com", 'g');
    AbsentChar(path, "github.com", 'g');
    TravisFromGithub("https://", path);
    assert "https://" + "github.com" + "/" + "u/r" == "https://" + "github.com" + path;
    assert "https://" + "travis-ci.org" + path == "https://" + "travis-ci.org" + "/" + "u/r";
  }
}
