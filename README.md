# goto: URL rewriting, modelled in Dafny

`goto` is a small command-line tool. Run inside a git working copy, it opens
web pages in the browser:

- `github` opens the page of the repository's `origin` remote;
- `travis` opens the same repository on Travis CI;
- `rust --search TERM` opens a search of the Rust standard-library documentation.

The only computation in the tool is string rewriting. The origin URL goes
through a chain of three `String::replace` calls: `.git` is deleted, `:`
becomes `/`, and `git@` becomes `https://`. The Travis address replaces
`github.com` by `travis-ci.org`. The documentation address is a constant
followed by the search term. This project models that rewriting and proves
what it does.

Files:

- `wrappers.dfy`: `Option` and `Result`.
- `str_replace.dfy` (module `StrReplace`): a model of Rust's `str::replace`.
  `ReplaceAll(s, pat, rep)` scans left to right, replaces every leftmost
  non-overlapping match, and never rescans the text it inserted. An empty
  pattern matches at every character boundary, as it does in Rust.
  `Count(s, pat)` is the number of matches that scan finds.
  The module also proves how `ReplaceAll` behaves: length, leftmost matching,
  absent patterns, concatenation, and one-character patterns.
- `goto.dfy` (module `Goto`): the three rewriting steps (`DeleteDotGit`,
  `ColonsToSlashes`, `SshToHttps`), their composition `Normalize`, the `origin`
  lookup result `LocalGithubUrl`, the CI address `TravisUrl` / `TravisTarget`,
  the documentation address `RustDocUrl`, and the properties of all of them.

What the code does, and what the model therefore proves:

- The ssh host is kept. `git@H:P.git` becomes `https://H/P` (`SshRemote`).
- `.git` is deleted wherever it occurs, not only at the end (`StripMiddle`).
  The deletion does not rescan its own result, so `u/r.g.gitit` comes out as
  `u/r.git`: the output can still end in `.git` (`GitSuffixCanReappear`).
- Every `:` is rewritten, the one in an `https://` scheme included.
  `https://H/P.git` becomes `https///H/P` (`HttpsRemote`).
- No input is rejected. The only error the rewriting path reports is
  `OriginUrlNotFound`, when the remote has no URL.

## Model

| member | source | states |
|---|---|---|
| `Goto.LocalGithubUrl` | src/main.rs:36-42 | A remote without a URL gives `OriginUrlNotFound` and nothing else does. Otherwise the result is the normalised URL. |
| `Goto.TravisTarget` | src/main.rs:44-46 | `travis` fails exactly when the origin URL is missing, with `OriginUrlNotFound`. Otherwise it yields the CI rewrite of the normalised URL. |
| `Goto.RustDocUrl` | src/main.rs:65 | The documentation URL starts with the constant `RUST_DOC_HTTP` (line 22). It ends with exactly the search term, and its length is the sum of the two. An empty term gives the constant itself. |
| `Goto.StripGitLength` | src/main.rs:40 | The `.git` step shortens the URL by exactly 4 characters per match found, so it never lengthens it. |
| `Goto.NoColonAfterSlashing` | src/main.rs:40 | After the `.replace(":", "/")` step, no colon is left. |
| `Goto.ColonsOnlyFromScheme` | src/main.rs:40 | Every colon in a normalised URL sits inside an `https://` that the `git@` step inserted. |
| `Goto.PlainUntouched` | src/main.rs:40 | A URL without `.git`, `:` or `git@` is returned unchanged. |
| `Goto.SshRemote` | src/main.rs:40 | For H and P free of `:`, `.git` and `git@`, `git@H:P.git` normalises to `https://H/P`, keeping the host. |
| `Goto.SshExample` | src/main.rs:40 | `git@github.com:u/r.git` normalises to `https://github.com/u/r`. |
| `Goto.HttpsRemote` | src/main.rs:40 | For H and P free of `:`, `.git` and `git@`, `https://H/P.git` normalises to `https///H/P`: the scheme's colon is rewritten too. |
| `Goto.HttpsExample` | src/main.rs:40 | `https://github.com/u/r.git` normalises to `https///github.com/u/r`. |
| `Goto.StripMiddle` | src/main.rs:40 | A `.git` between two pieces that hold none is deleted, wherever it stands, and the rest is kept. |
| `Goto.GitSuffixCanReappear` | src/main.rs:40 | Deleted text is not rescanned: `u/r.g.gitit` normalises to `u/r.git`, which still ends in `.git`. |
| `Goto.ColonAndSchemeKeep` | src/main.rs:40 | Text with no colon and no `@` passes the colon and `git@` steps unchanged. |
| `Goto.TravisUnchangedIff` | src/main.rs:46 | The CI rewrite leaves a URL unchanged exactly when `github.com` does not occur in it. |
| `Goto.TravisFromGithub` | src/main.rs:46 | The host `github.com`, after any scheme and before any path that hold no `github.com` (an empty scheme or `https://www.` included), becomes `travis-ci.org`. Nothing else changes. |
| `Goto.TravisExample` | src/main.rs:46 | `https://github.com/u/r` becomes `https://travis-ci.org/u/r`. |
| `Goto.TravisOtherHost` | src/main.rs:46 | An https URL whose host and path hold no `github.com`, and where no `github.com` runs across the join of host and path, is returned unchanged. |
| `Goto.GitlabUnchanged` | src/main.rs:46 | `https://gitlab.com/u/r` is returned unchanged. |
| `Goto.TravisTargetExample` | src/main.rs:44-46 | `travis` on the remote `git@github.com:u/r.git` targets `https://travis-ci.org/u/r`. |
| `StrReplace.ReplaceAllLength` | src/main.rs:40 | `replace` changes the length by `|rep| - |pat|` per match; for an empty pattern there are `|s| + 1` matches. |
| `StrReplace.CountBound` | src/main.rs:40 | Matches of a non-empty pattern do not overlap: together they cover at most the whole string. |
| `StrReplace.CountZeroIff` | src/main.rs:40 | A non-empty pattern has no matches if and only if it does not occur. |
| `StrReplace.ReplaceAbsent` | src/main.rs:40 | A non-empty pattern that does not occur leaves the string unchanged. |
| `StrReplace.ReplaceUnchangedIff` | src/main.rs:40 | `replace` leaves its input unchanged if and only if the pattern does not occur or is replaced by itself. |
| `StrReplace.ReplacePrefix` | src/main.rs:40 | Text before the first match is copied unchanged. |
| `StrReplace.ReplaceLeftmost` | src/main.rs:40 | The leftmost match is replaced, and scanning resumes right after it, not inside the inserted text. |
| `StrReplace.ReplaceSelf` | src/main.rs:40 | Replacing a pattern by itself returns the input. |
| `StrReplace.ReplaceCharIsSubst` | src/main.rs:40 | Replacing one character by another equals the independent character-by-character substitution `SubstChar`. |
| `StrReplace.ReplaceCharRemoves` | src/main.rs:40 | After a character is replaced by a different one, it no longer occurs. |
| `StrReplace.ReplaceConcat` | src/main.rs:40 | When no match crosses the join, the two pieces are rewritten independently and the results concatenated. |
| `StrReplace.OccursConcat` | src/main.rs:40 | When no match crosses the join, a pattern found in neither piece is not found in their concatenation. |

## Left out

- Opening the repository and looking up the `origin` remote through `git2` (src/main.rs:37-38): foreign library calls. The model takes the remote's URL as an `Option<string>` input, `None` when the remote has no URL. So `Git2Error` is never produced.
- Spawning `xdg-open` and waiting for it, and the `println!` messages (src/main.rs:47-49, 56-58, 66-68): process I/O. `IoError` is never produced. `github` opens the result of `LocalGithubUrl` unchanged, so it has no model beyond that function.
- Command-line parsing with `structopt` and the command dispatch in `main`, including its "Not supported command" branch (src/main.rs:14-20, 73-83): argument plumbing with no computation.
- The `Display` texts of the `Error` enum (src/main.rs:24-34): only the variants are modelled.
- Byte-level UTF-8: Rust's `str` is UTF-8 bytes, and the model works on characters. All three patterns and their replacements are ASCII, and valid UTF-8 never puts an ASCII byte inside a multi-byte character. So matching on characters finds the same matches as matching on bytes.
- The example lemmas (`SshExample`, `HttpsExample`, `GitSuffixCanReappear`, `TravisExample`, `GitlabUnchanged`, `TravisTargetExample`) spell their literal URLs as concatenations of shorter literals, such as `"git@" + "github.com" + ":" + "u/r" + ".git"`. Dafny equates a concatenation with the joined literal, so the statement is the same.
