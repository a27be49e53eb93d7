/** The Bitbucket connector's URL handling: reading the project key and the
    repository slug out of a repository URL, naming a fork, and building the
    clone and web URLs of a repository. The REST calls themselves are
    parameters: their answers are given, not computed. */
module BitbucketService {
  import opened Wrappers

  // ---------------------------------------------------------------------------
  // Strings
  // ---------------------------------------------------------------------------

  /** Position of the first `c` in `s`, or `|s|` when there is none (Java's
      `indexOf`, with -1 read as `|s|`). */
  function IndexOf(s: string, c: char): (i: nat)
    ensures i <= |s| && c !in s[..i]
    ensures i < |s| ==> s[i] == c
  {
    if s == [] then 0
    else if s[0] == c then 0
    else
      var j := IndexOf(s[1..], c);
      assert s[..j + 1] == [s[0]] + s[1..][..j];
      j + 1
  }

  /** The two facts above single out one position. */
  lemma IndexOfUnique(s: string, c: char, i: nat)
    requires i <= |s| && c !in s[..i]
    requires i < |s| ==> s[i] == c
    ensures IndexOf(s, c) == i
  {
  }

  /** A prefix without `c` shifts the first `c` by its length. */
  lemma IndexOfAfter(a: string, b: string, c: char)
    requires c !in a
    ensures IndexOf(a + b, c) == |a| + IndexOf(b, c)
    ensures (a + b)[..|a|] == a && (a + b)[|a|..] == b
  {
    var j := IndexOf(b, c);
    assert (a + b)[..|a| + j] == a + b[..j];
    IndexOfUnique(a + b, c, |a| + j);
  }

  lemma IndexOfNone(s: string, c: char)
    requires c !in s
    ensures IndexOf(s, c) == |s|
  {
    IndexOfUnique(s, c, |s|);
  }

  /** Splitting at the first `c`, when `a` does not contain it. */
  lemma SplitAtFirst(a: string, b: string, c: char)
    requires c !in a
    ensures IndexOf(a + [c] + b, c) == |a|
    ensures (a + [c] + b)[..|a|] == a && (a + [c] + b)[|a| + 1..] == b
  {
    IndexOfAfter(a, [c] + b, c);
    assert a + [c] + b == a + ([c] + b);
  }

  /** `s.endsWith(suffix)`. */
  predicate EndsWith(s: string, suffix: string) {
    |suffix| <= |s| && s[|s| - |suffix|..] == suffix
  }

  predicate NoneOf(s: string, cs: set<char>) {
    forall k :: 0 <= k < |s| ==> s[k] !in cs
  }

  // ---------------------------------------------------------------------------
  // String.split with a one-character separator
  // ---------------------------------------------------------------------------

  /** All the pieces between the separators, empty ones included. */
  function Pieces(s: string, c: char): (parts: seq<string>)
    ensures |parts| >= 1
    decreases |s|
  {
    var i := IndexOf(s, c);
    if i == |s| then [s] else [s[..i]] + Pieces(s[i + 1..], c)
  }

  /** The pieces put back together with the separator between them. */
  function Join(parts: seq<string>, c: char): string
    requires |parts| >= 1
  {
    if |parts| == 1 then parts[0] else parts[0] + [c] + Join(parts[1..], c)
  }

  lemma JoinCons(first: string, rest: seq<string>, c: char)
    requires |rest| >= 1
    ensures Join([first] + rest, c) == first + [c] + Join(rest, c)
  {
    assert ([first] + rest)[1..] == rest;
  }

  /** Joining the pieces gives the string back. */
  lemma {:induction false} PiecesJoin(s: string, c: char)
    ensures Join(Pieces(s, c), c) == s
    decreases |s|
  {
    var i := IndexOf(s, c);
    if i < |s| {
      var after := s[i + 1..];
      PiecesJoin(after, c);
      JoinCons(s[..i], Pieces(after, c), c);
      assert s == s[..i] + [c] + after;
    }
  }

  /** No piece holds the separator. */
  lemma {:induction false} PiecesFree(s: string, c: char)
    ensures forall k :: 0 <= k < |Pieces(s, c)| ==> c !in Pieces(s, c)[k]
    decreases |s|
  {
    var i := IndexOf(s, c);
    if i < |s| {
      var rest := Pieces(s[i + 1..], c);
      PiecesFree(s[i + 1..], c);
      assert Pieces(s, c) == [s[..i]] + rest;
    }
  }

  /** Splitting a join of separator-free pieces gives the pieces back. */
  lemma {:induction false} JoinPieces(parts: seq<string>, c: char)
    requires |parts| >= 1
    requires forall k :: 0 <= k < |parts| ==> c !in parts[k]
    ensures Pieces(Join(parts, c), c) == parts
  {
    if |parts| == 1 {
      IndexOfNone(parts[0], c);
    } else {
      JoinPieces(parts[1..], c);
      SplitAtFirst(parts[0], Join(parts[1..], c), c);
    }
  }

  /** The pieces without the empty ones at the end. */
  function DropTrailingEmpty(parts: seq<string>): (kept: seq<string>)
    ensures |kept| <= |parts| && kept == parts[..|kept|]
    ensures kept != [] ==> kept[|kept| - 1] != []
    ensures forall k :: |kept| <= k < |parts| ==> parts[k] == []
  {
    if parts == [] then []
    else if parts[|parts| - 1] == [] then DropTrailingEmpty(parts[..|parts| - 1])
    else parts
  }

  /** Java's `s.split(String.valueOf(c))`: without a separator the result is
      `[s]` (so `"".split("/")` is `[""]`); otherwise the pieces, a leading
      empty piece included, with the trailing empty ones removed. */
  function JavaSplit(s: string, c: char): seq<string> {
    if c !in s then [s] else DropTrailingEmpty(Pieces(s, c))
  }

  /** What `split` keeps: the pieces in order, up to the last non-empty one. */
  lemma JavaSplitPieces(s: string, c: char)
    ensures c !in s ==> JavaSplit(s, c) == [s]
    ensures c in s ==> var parts := JavaSplit(s, c);
      && parts == Pieces(s, c)[..|parts|]
      && (parts != [] ==> parts[|parts| - 1] != [])
      && forall k :: |parts| <= k < |Pieces(s, c)| ==> Pieces(s, c)[k] == []
  {
  }

  // ---------------------------------------------------------------------------
  // java.net.URL
  // ---------------------------------------------------------------------------

  /** The parts of a `java.net.URL` the service reads. `authority` is the
      text between `//` and the path, user info and port included. */
  datatype Url = Url(protocol: string, authority: string, path: string, query: Option<string>, ref: Option<string>)

  /** `[c] + x` for a present part `x`, nothing for an absent one. */
  function Tagged(c: char, part: Option<string>): string {
    if part.Some? then [c] + part.value else []
  }

  /** `getFile()`: the path and the query. */
  function FileOf(u: Url): string {
    u.path + Tagged('?', u.query)
  }

  /** What stands between the protocol's `:` and the query: `//` and the
      authority when there is one, then the path. */
  function HierOf(u: Url): string {
    (if u.authority != [] then "//" + u.authority else []) + u.path
  }

  /** `toString()`, which is `toExternalForm()`: the protocol, `:`, `//` and the
      authority (written only when the authority is not empty), the path, the
      query after `?` and the reference after `#`. */
  function ExternalForm(u: Url): string {
    u.protocol + [':'] + ((HierOf(u) + Tagged('?', u.query)) + Tagged('#', u.ref))
  }

  /** The text before the first `c`, and the text after it if there is one. */
  function SplitAt(s: string, c: char): (string, Option<string>) {
    var i := IndexOf(s, c);
    if i < |s| then (s[..i], Some(s[i + 1..])) else (s, None)
  }

  lemma SplitAtTagged(a: string, part: Option<string>, c: char)
    requires c !in a
    ensures SplitAt(a + Tagged(c, part), c) == (a, part)
  {
    if part.Some? {
      SplitAtFirst(a, part.value, c);
      assert a + Tagged(c, part) == a + [c] + part.value;
    } else {
      IndexOfNone(a, c);
      assert a + Tagged(c, part) == a;
    }
  }

  predicate IsAsciiLetter(ch: char) {
    'a' <= ch <= 'z' || 'A' <= ch <= 'Z'
  }

  predicate IsProtocolChar(ch: char) {
    IsAsciiLetter(ch) || '0' <= ch <= '9' || ch == '+' || ch == '.' || ch == '-'
  }

  /** A protocol name: a letter, then letters, digits, `+`, `.` or `-`. */
  predicate ValidProtocol(p: string) {
    |p| >= 1 && IsAsciiLetter(p[0]) && forall k :: 0 <= k < |p| ==> IsProtocolChar(p[k])
  }

  function LowerChar(ch: char): char {
    if 'A' <= ch <= 'Z' then (ch - 'A' + 'a') as char else ch
  }

  function Lower(s: string): (r: string)
    ensures |r| == |s| && forall k :: 0 <= k < |s| ==> r[k] == LowerChar(s[k])
  {
    if s == [] then [] else [LowerChar(s[0])] + Lower(s[1..])
  }

  /** The text after the protocol starts with `//` (and not `////`, a UNC name). */
  predicate HasAuthority(hier: string) {
    && |hier| >= 2 && hier[0] == '/' && hier[1] == '/'
    && !(|hier| >= 4 && hier[2] == '/' && hier[3] == '/')
  }

  function AuthorityOf(hier: string): string {
    if HasAuthority(hier) then hier[2..][..IndexOf(hier[2..], '/')] else []
  }

  function PathOf(hier: string): string {
    if HasAuthority(hier) then hier[2..][IndexOf(hier[2..], '/')..] else hier
  }

  /** `new URL(spec)` for an absolute URL: the protocol up to the first `:`
      (lower-cased; a missing or invalid one is a `MalformedURLException`,
      here `None`), the reference after the first `#`, the query after the
      first `?` before it, then the authority after `//` up to the next `/`,
      and the path. */
  function ParseUrl(s: string): Option<Url> {
    var i := IndexOf(s, ':');
    if i == |s| || !ValidProtocol(s[..i]) then None
    else Some(ParseAfterProtocol(Lower(s[..i]), s[i + 1..]))
  }

  function ParseAfterProtocol(protocol: string, rest: string): Url {
    var (beforeRef, ref) := SplitAt(rest, '#');
    var (hier, query) := SplitAt(beforeRef, '?');
    Url(protocol, AuthorityOf(hier), PathOf(hier), query, ref)
  }

  /** A URL that its own external form describes: a lower-case protocol, no
      separator inside a part that would end it early, and a path that cannot
      be read as part of the authority. */
  predicate WellFormed(u: Url) {
    && ValidProtocol(u.protocol)
    && (forall k :: 0 <= k < |u.protocol| ==> !('A' <= u.protocol[k] <= 'Z'))
    && NoneOf(u.authority, {'/', '?', '#'})
    && NoneOf(u.path, {'?', '#'})
    && (u.authority != [] ==> u.path == [] || u.path[0] == '/')
    && (u.authority == [] ==> !(|u.path| >= 2 && u.path[0] == '/' && u.path[1] == '/'))
    && (u.query.Some? ==> '#' !in u.query.value)
  }

  lemma ReadHier(u: Url)
    requires WellFormed(u)
    ensures AuthorityOf(HierOf(u)) == u.authority && PathOf(HierOf(u)) == u.path
  {
    var hier := HierOf(u);
    if u.authority != [] {
      assert hier[2..] == u.authority + u.path;
      assert hier[2] == u.authority[0];
      IndexOfAfter(u.authority, u.path, '/');
      if u.path != [] {
        IndexOfUnique(u.path, '/', 0);
      }
    }
  }

  /** The text after the protocol of a well-formed URL reads back as its parts. */
  lemma ReadAfterProtocol(u: Url)
    requires WellFormed(u)
    ensures ParseAfterProtocol(u.protocol, (HierOf(u) + Tagged('?', u.query)) + Tagged('#', u.ref)) == u
  {
    var beforeRef := HierOf(u) + Tagged('?', u.query);
    assert '#' !in HierOf(u) && '?' !in HierOf(u);
    SplitAtTagged(beforeRef, u.ref, '#');
    SplitAtTagged(HierOf(u), u.query, '?');
    ReadHier(u);
  }

  /** A valid protocol is read up to its `:`; a lower-case one comes back as is. */
  lemma ReadProtocol(protocol: string, rest: string)
    requires ValidProtocol(protocol)
    requires forall k :: 0 <= k < |protocol| ==> !('A' <= protocol[k] <= 'Z')
    ensures ParseUrl(protocol + [':'] + rest) == Some(ParseAfterProtocol(protocol, rest))
  {
    SplitAtFirst(protocol, rest, ':');
    assert Lower(protocol) == protocol;
  }

  /** Parsing the external form of a well-formed URL gives that URL back. */
  lemma UrlRoundTrip(u: Url)
    requires WellFormed(u)
    ensures ParseUrl(ExternalForm(u)) == Some(u)
  {
    ReadProtocol(u.protocol, (HierOf(u) + Tagged('?', u.query)) + Tagged('#', u.ref));
    ReadAfterProtocol(u);
  }

  // ---------------------------------------------------------------------------
  // Project key, repository slug, fork name
  // ---------------------------------------------------------------------------

  /** What the service lets escape: an index past the end of a split, a
      dereferenced `null`, a client error passed on, or its own exception. */
  datatype Failure = IndexOutOfBounds | NullPointer | HttpClientError(status: int) | BitbucketException(message: string)

  /** `file.split("/")[n]`. */
  function Segment(file: string, n: nat): Outcome<string, Failure> {
    var parts := JavaSplit(file, '/');
    if n < |parts| then Ok(parts[n]) else Fail(IndexOutOfBounds)
  }

  /** Removes one trailing `.git`, if there is one. */
  function StripGit(slug: string): string {
    if EndsWith(slug, ".git") then slug[..|slug| - 4] else slug
  }

  /** The key of a repository whose file is `file`: its third segment. */
  function KeyOf(file: string): Outcome<string, Failure> {
    Segment(file, 2)
  }

  /** The slug of a repository whose file is `file`: its fourth segment
      without a trailing `.git`. */
  function SlugOf(file: string): Outcome<string, Failure> {
    match Segment(file, 3)
    case Ok(segment) => Ok(StripGit(segment))
    case Fail(e) => Fail(e)
  }

  /** `getProjectKeyFromUrl`, as written: segment 2 of the whole file. */
  function ProjectKeyFromUrl(repositoryUrl: Url): Outcome<string, Failure> {
    KeyOf(FileOf(repositoryUrl))
  }

  /** `getRepositorySlugFromUrl`, as written: segment 3 of the whole file. */
  function RepositorySlugFromUrl(repositoryUrl: Url): Outcome<string, Failure> {
    SlugOf(FileOf(repositoryUrl))
  }

  /** The repository URL's file with the server's base path taken off the
      front, when it starts with it. */
  function FileUnderBase(server: Url, repositoryUrl: Url): string {
    var file := FileOf(repositoryUrl);
    var base := server.path;
    if |base| <= |file| && file[..|base|] == base then file[|base|..] else file
  }

  /** The project key read after the server's base path. */
  function ProjectKeyUnderBase(server: Url, repositoryUrl: Url): Outcome<string, Failure> {
    KeyOf(FileUnderBase(server, repositoryUrl))
  }

  /** The repository slug read after the server's base path. */
  function RepositorySlugUnderBase(server: Url, repositoryUrl: Url): Outcome<string, Failure> {
    SlugOf(FileUnderBase(server, repositoryUrl))
  }

  /** `String.format("%s-%s", baseRepositorySlug, username)`. */
  function ForkName(baseRepositorySlug: string, username: string): string {
    baseRepositorySlug + "-" + username
  }

  /** `StripGit` removes exactly one `.git`: the slug is what is left before it,
      and a slug without the suffix is kept. */
  lemma StripGitRemovesOneSuffix(slug: string)
    ensures EndsWith(slug, ".git") ==> StripGit(slug) + ".git" == slug
    ensures !EndsWith(slug, ".git") ==> StripGit(slug) == slug
  {
    if EndsWith(slug, ".git") {
      assert slug == slug[..|slug| - 4] + slug[|slug| - 4..];
    }
  }

  /** `StripGit` undoes appending `.git`; so `"x.git.git"` becomes `"x.git"`. */
  lemma StripGitAppended(name: string)
    ensures StripGit(name + ".git") == name
  {
    var s := name + ".git";
    assert s[|s| - 4..] == ".git";
    assert s[..|s| - 4] == name;
  }

  lemma StripGitOnlyOnce()
    ensures StripGit("x.git.git") == "x.git"
  {
    StripGitAppended("x.git");
    assert "x.git" + ".git" == "x.git.git";
  }

  /** Position of the last `c` in `s`, if any. */
  function LastIndexOf(s: string, c: char): (i: Option<nat>)
    ensures i.Some? ==> i.value < |s| && s[i.value] == c
  {
    if s == [] then None
    else if s[|s| - 1] == c then Some(|s| - 1)
    else LastIndexOf(s[..|s| - 1], c)
  }

  /** A fork name read back: the slug before its last `-`, the user after it. */
  function SplitForkName(name: string): Option<(string, string)> {
    match LastIndexOf(name, '-')
    case None => None
    case Some(i) => Some((name[..i], name[i + 1..]))
  }

  lemma {:induction false} LastDash(slug: string, username: string)
    requires '-' !in username
    ensures LastIndexOf(ForkName(slug, username), '-') == Some(|slug|)
    decreases |username|
  {
    var name := ForkName(slug, username);
    if username != [] {
      var shorter := username[..|username| - 1];
      assert username[|username| - 1] in username;
      assert name[..|name| - 1] == ForkName(slug, shorter);
      LastDash(slug, shorter);
    }
  }

  /** A user name without `-` can be read back from the fork name, and so can
      the slug. */
  lemma SplitForkNameRoundTrip(slug: string, username: string)
    requires '-' !in username
    ensures SplitForkName(ForkName(slug, username)) == Some((slug, username))
  {
    LastDash(slug, username);
    var name := ForkName(slug, username);
    assert name[..|slug|] == slug;
    assert name[|slug| + 1..] == username;
  }

  /** Different slugs or users get different fork names as long as user
      names contain no `-`. */
  lemma ForkNameUnique(slug1: string, user1: string, slug2: string, user2: string)
    requires '-' !in user1 && '-' !in user2
    requires ForkName(slug1, user1) == ForkName(slug2, user2)
    ensures slug1 == slug2 && user1 == user2
  {
    SplitForkNameRoundTrip(slug1, user1);
    SplitForkNameRoundTrip(slug2, user2);
  }

  /** With a `-` in a user name, two forks can share a name. */
  lemma ForkNameCollision()
    ensures ForkName("a-b", "c") == ForkName("a", "b-c")
  {
  }

  // ---------------------------------------------------------------------------
  // Clone URL
  // ---------------------------------------------------------------------------

  /** `getAuthority()` as string concatenation writes it: a URL without an
      authority has a `null` one, which is written `"null"`. An empty
      authority after `//` is not told apart from an absent one here. */
  function AuthorityText(u: Url): string {
    if u.authority == [] then "null" else u.authority
  }

  /** The text `buildCloneUrl` hands to `new URL`. */
  function CloneUrlText(server: Url, projectKey: string, repositorySlug: string, username: string): string {
    server.protocol + "://" + username + "@" + AuthorityText(server) + server.path
    + "/scm/" + projectKey + "/" + repositorySlug + ".git"
  }

  /** `buildCloneUrl`: the parsed clone URL, `None` (`null`) when it is malformed. */
  function BuildCloneUrl(server: Url, projectKey: string, repositorySlug: string, username: string): Option<Url> {
    ParseUrl(CloneUrlText(server, projectKey, repositorySlug, username))
  }

  /** The URL a clone URL denotes: the user in front of the server's
      authority, and the repository under `/scm/` after the server's path. */
  function CloneUrl(server: Url, projectKey: string, repositorySlug: string, username: string): Url {
    Url(server.protocol, username + "@" + server.authority,
        server.path + "/scm/" + projectKey + "/" + repositorySlug + ".git", None, None)
  }

  /** The names that go into a URL hold no `/`, `?` or `#`. */
  predicate PlainName(s: string) {
    NoneOf(s, {'/', '?', '#'})
  }

  /** The server URL the clone URL is built from: well formed, with an
      authority, and with a path that is empty or starts with `/`. */
  predicate ServerUrl(server: Url) {
    WellFormed(server) && server.authority != [] && (server.path == [] || server.path[0] == '/')
  }

  /** For a server URL and plain names, `buildCloneUrl` succeeds with the URL
      above. */
  lemma BuildCloneUrlParses(server: Url, projectKey: string, repositorySlug: string, username: string)
    requires ServerUrl(server)
    requires PlainName(projectKey) && PlainName(repositorySlug) && PlainName(username)
    ensures BuildCloneUrl(server, projectKey, repositorySlug, username)
         == Some(CloneUrl(server, projectKey, repositorySlug, username))
  {
    var u := CloneUrl(server, projectKey, repositorySlug, username);
    CloneUrlWellFormed(server, projectKey, repositorySlug, username);
    CloneUrlTextIsExternalForm(server, projectKey, repositorySlug, username);
    UrlRoundTrip(u);
  }

  lemma CloneUrlWellFormed(server: Url, projectKey: string, repositorySlug: string, username: string)
    requires ServerUrl(server)
    requires PlainName(projectKey) && PlainName(repositorySlug) && PlainName(username)
    ensures WellFormed(CloneUrl(server, projectKey, repositorySlug, username))
  {
    var u := CloneUrl(server, projectKey, repositorySlug, username);
    assert u.authority[|username|] == '@';
    assert u.path[|server.path|] == '/';
  }

  lemma CloneUrlTextIsExternalForm(server: Url, projectKey: string, repositorySlug: string, username: string)
    requires server.authority != []
    ensures CloneUrlText(server, projectKey, repositorySlug, username)
         == ExternalForm(CloneUrl(server, projectKey, repositorySlug, username))
  {
    var u := CloneUrl(server, projectKey, repositorySlug, username);
    assert u.authority != [];
    assert HierOf(u) == "//" + u.authority + u.path;
    assert ExternalForm(u) == server.protocol + ":" + ("//" + u.authority + u.path);
  }

  // ---------------------------------------------------------------------------
  // Key and slug of a clone URL
  // ---------------------------------------------------------------------------

  /** Splitting a join of at least two separator-free pieces, the last one not
      empty, gives the pieces back. */
  lemma SplitJoined(parts: seq<string>, c: char)
    requires |parts| >= 2 && parts[|parts| - 1] != []
    requires forall k :: 0 <= k < |parts| ==> c !in parts[k]
    ensures JavaSplit(Join(parts, c), c) == parts
  {
    JoinPieces(parts, c);
    assert Join(parts, c)[|parts[0]|] == c;
  }

  /** The file of a repository under `/scm/` splits into `""`, `"scm"`, the
      key and the last segment. */
  lemma ScmFileSegments(projectKey: string, last: string)
    requires PlainName(projectKey) && PlainName(last) && last != []
    ensures JavaSplit("/scm/" + projectKey + "/" + last, '/') == ["", "scm", projectKey, last]
  {
    var parts := ["", "scm", projectKey, last];
    JoinCons(projectKey, [last], '/');
    assert ["scm", projectKey, last] == ["scm"] + [projectKey, last];
    JoinCons("scm", [projectKey, last], '/');
    assert parts == [""] + ["scm", projectKey, last];
    JoinCons("", ["scm", projectKey, last], '/');
    assert Join(parts, '/') == "/scm/" + projectKey + "/" + last;
    assert '/' !in projectKey && '/' !in last;
    SplitJoined(parts, '/');
  }

  /** The same file under a one-segment base path splits into one more
      segment, in front of `"scm"`. */
  lemma BaseScmFileSegments(base: string, projectKey: string, last: string)
    requires PlainName(base) && PlainName(projectKey) && PlainName(last) && last != []
    ensures JavaSplit("/" + base + "/scm/" + projectKey + "/" + last, '/') == ["", base, "scm", projectKey, last]
  {
    var parts := ["", base, "scm", projectKey, last];
    JoinCons(projectKey, [last], '/');
    assert ["scm", projectKey, last] == ["scm"] + [projectKey, last];
    JoinCons("scm", [projectKey, last], '/');
    assert [base, "scm", projectKey, last] == [base] + ["scm", projectKey, last];
    JoinCons(base, ["scm", projectKey, last], '/');
    assert parts == [""] + [base, "scm", projectKey, last];
    JoinCons("", [base, "scm", projectKey, last], '/');
    assert Join(parts, '/') == "/" + base + "/scm/" + projectKey + "/" + last;
    assert '/' !in base && '/' !in projectKey && '/' !in last;
    SplitJoined(parts, '/');
  }

  /** The slug with `.git` appended is still a plain, non-empty name. */
  lemma GitNamePlain(repositorySlug: string)
    requires PlainName(repositorySlug)
    ensures PlainName(repositorySlug + ".git") && repositorySlug + ".git" != []
  {
  }

  /** With no base path, the key and the slug read back from a clone URL are
      the ones it was built from. */
  lemma CloneUrlKeyAndSlug(server: Url, projectKey: string, repositorySlug: string, username: string)
    requires server.path == []
    requires PlainName(projectKey) && PlainName(repositorySlug)
    ensures ProjectKeyFromUrl(CloneUrl(server, projectKey, repositorySlug, username)) == Ok(projectKey)
    ensures RepositorySlugFromUrl(CloneUrl(server, projectKey, repositorySlug, username)) == Ok(repositorySlug)
  {
    CloneUrlKeyAndSlugUnderBase(server, projectKey, repositorySlug, username);
    UnderBaseAgreesWithoutBasePath(server, CloneUrl(server, projectKey, repositorySlug, username));
  }

  /** Under a one-segment base path such as `/bitbucket`, the key read back
      from a clone URL is `"scm"`, and the slug is the project key. */
  lemma CloneUrlKeyUnderBasePath(server: Url, base: string, projectKey: string, repositorySlug: string,
                                 username: string)
    requires server.path == "/" + base && PlainName(base)
    requires PlainName(projectKey) && PlainName(repositorySlug)
    ensures ProjectKeyFromUrl(CloneUrl(server, projectKey, repositorySlug, username)) == Ok("scm")
    ensures RepositorySlugFromUrl(CloneUrl(server, projectKey, repositorySlug, username)) == Ok(StripGit(projectKey))
  {
    var u := CloneUrl(server, projectKey, repositorySlug, username);
    assert FileOf(u) == "/" + base + "/scm/" + projectKey + "/" + (repositorySlug + ".git");
    GitNamePlain(repositorySlug);
    BaseScmFileSegments(base, projectKey, repositorySlug + ".git");
  }

  /** The server `https://host/bitbucket`: the clone URL of repository
      `repo-ab12` in project `KEY` yields the key `"scm"`. */
  lemma KeyMisreadExample()
    ensures var server := Url("https", "host", "/bitbucket", None, None);
      ProjectKeyFromUrl(CloneUrl(server, "KEY", "repo-ab12", "ab12")) == Ok("scm")
  {
    var server := Url("https", "host", "/bitbucket", None, None);
    assert server.path == "/" + "bitbucket";
    CloneUrlKeyUnderBasePath(server, "bitbucket", "KEY", "repo-ab12", "ab12");
  }

  /** Read after the base path, the key and the slug of a clone URL are the
      ones it was built from, whatever the base path. */
  lemma CloneUrlKeyAndSlugUnderBase(server: Url, projectKey: string, repositorySlug: string, username: string)
    requires PlainName(projectKey) && PlainName(repositorySlug)
    ensures ProjectKeyUnderBase(server, CloneUrl(server, projectKey, repositorySlug, username)) == Ok(projectKey)
    ensures RepositorySlugUnderBase(server, CloneUrl(server, projectKey, repositorySlug, username)) == Ok(repositorySlug)
  {
    var u := CloneUrl(server, projectKey, repositorySlug, username);
    var rest := "/scm/" + projectKey + "/" + (repositorySlug + ".git");
    assert FileOf(u) == server.path + rest;
    assert FileUnderBase(server, u) == rest;
    GitNamePlain(repositorySlug);
    ScmFileSegments(projectKey, repositorySlug + ".git");
    StripGitAppended(repositorySlug);
  }

  /** Without a base path, reading after it is reading the whole file. */
  lemma UnderBaseAgreesWithoutBasePath(server: Url, repositoryUrl: Url)
    requires server.path == []
    ensures ProjectKeyUnderBase(server, repositoryUrl) == ProjectKeyFromUrl(repositoryUrl)
    ensures RepositorySlugUnderBase(server, repositoryUrl) == RepositorySlugFromUrl(repositoryUrl)
  {
    assert FileOf(repositoryUrl)[0..] == FileOf(repositoryUrl);
  }

  // ---------------------------------------------------------------------------
  // Forking and the URLs of a repository
  // ---------------------------------------------------------------------------

  /** How the fork request ended: an answer with its status and the `slug` of
      its body, an `HttpClientErrorException` with its status, or any other
      exception. */
  datatype ForkResponse = Answered(status: int, bodySlug: string) | ClientError(status: int) | OtherException

  /** The map `forkRepository` returns: `slug` and `cloneUrl`. */
  datatype ForkResult = ForkResult(slug: string, cloneUrl: string)

  const CREATED: int := 201
  const CONFLICT: int := 409

  /** The result map for a slug: the clone URL is written with `toString()`,
      which throws on a `null` clone URL. */
  function ResultWith(slug: string, cloneUrl: Option<Url>): Outcome<Option<ForkResult>, Failure> {
    match cloneUrl
    case None => Fail(NullPointer)
    case Some(u) => Ok(Some(ForkResult(slug, ExternalForm(u))))
  }

  /** `forkRepository` once the request has been answered: a conflict means
      the fork exists and is described by the fork name; a creation is
      described by the slug of the answer; any other answer gives `null`; any
      other client error is passed on and any other exception becomes a
      `BitbucketException`. Both descriptions carry the clone URL of the fork
      name. */
  function ForkRepository(server: Url, baseProjectKey: string, baseRepositorySlug: string, username: string,
                          response: ForkResponse): Outcome<Option<ForkResult>, Failure>
  {
    var forkName := ForkName(baseRepositorySlug, username);
    match response
    case ClientError(status) =>
      if status == CONFLICT then ResultWith(forkName, BuildCloneUrl(server, baseProjectKey, forkName, username))
      else Fail(HttpClientError(status))
    case OtherException => Fail(BitbucketException("Error while forking repository"))
    case Answered(status, bodySlug) =>
      if status == CREATED then ResultWith(bodySlug, BuildCloneUrl(server, baseProjectKey, forkName, username))
      else Ok(None)
  }

  /** A fork name of plain names is plain. */
  lemma ForkNamePlain(baseRepositorySlug: string, username: string)
    requires PlainName(baseRepositorySlug) && PlainName(username)
    ensures PlainName(ForkName(baseRepositorySlug, username))
  {
  }

  /** For a server URL and plain names, the fork succeeds exactly on a
      creation or a conflict, and then carries the clone URL of the fork name;
      it fails exactly on any other client error or any other exception, and
      gives `null` on any other answer. */
  lemma ForkRepositoryOutcomes(server: Url, baseProjectKey: string, baseRepositorySlug: string, username: string,
                               response: ForkResponse)
    requires ServerUrl(server)
    requires PlainName(baseProjectKey) && PlainName(baseRepositorySlug) && PlainName(username)
    ensures var r := ForkRepository(server, baseProjectKey, baseRepositorySlug, username, response);
      var forkName := ForkName(baseRepositorySlug, username);
      && (r.Ok? && r.value.Some? <==>
            response == ClientError(CONFLICT) || (response.Answered? && response.status == CREATED))
      && (r.Ok? && r.value.Some? ==>
            && r.value.value.cloneUrl == CloneUrlText(server, baseProjectKey, forkName, username)
            && r.value.value.slug == (if response.Answered? then response.bodySlug else forkName))
      && (r.Fail? <==> response.OtherException? || (response.ClientError? && response.status != CONFLICT))
      && (r.Fail? && response.ClientError? ==> r.error == HttpClientError(response.status))
  {
    var forkName := ForkName(baseRepositorySlug, username);
    ForkNamePlain(baseRepositorySlug, username);
    BuildCloneUrlParses(server, baseProjectKey, forkName, username);
    CloneUrlTextIsExternalForm(server, baseProjectKey, forkName, username);
  }

  /** `copyRepository` once the key and the slug have been read, the key
      first: forks the repository and parses the clone URL of the fork
      (`None` when it is malformed). A fork that gives `null` fails on the
      lookup of the clone URL. */
  function CopyWith(server: Url, projectKey: Outcome<string, Failure>, repositorySlug: Outcome<string, Failure>,
                    username: string, response: ForkResponse): Outcome<Option<Url>, Failure>
  {
    match projectKey
    case Fail(e) => Fail(e)
    case Ok(key) =>
      match repositorySlug
      case Fail(e) => Fail(e)
      case Ok(slug) =>
        match ForkRepository(server, key, slug, username, response)
        case Fail(e) => Fail(e)
        case Ok(None) => Fail(NullPointer)
        case Ok(Some(result)) => Ok(ParseUrl(result.cloneUrl))
  }

  /** `copyRepository` as written: the key and the slug are segments 2 and 3
      of the base repository's whole file. */
  function CopyRepository(server: Url, baseRepositoryUrl: Url, username: string, response: ForkResponse)
    : Outcome<Option<Url>, Failure>
  {
    CopyWith(server, ProjectKeyFromUrl(baseRepositoryUrl), RepositorySlugFromUrl(baseRepositoryUrl),
             username, response)
  }

  /** `copyRepository` with the key and the slug read after the server's base
      path. */
  function CopyRepositoryUnderBase(server: Url, baseRepositoryUrl: Url, username: string, response: ForkResponse)
    : Outcome<Option<Url>, Failure>
  {
    CopyWith(server, ProjectKeyUnderBase(server, baseRepositoryUrl), RepositorySlugUnderBase(server, baseRepositoryUrl),
             username, response)
  }

  /** The part of a plain name before a trailing `.git` is plain. */
  lemma StripGitPlain(slug: string)
    requires PlainName(slug)
    ensures PlainName(StripGit(slug))
  {
    var r := StripGit(slug);
    assert forall k :: 0 <= k < |r| ==> r[k] == slug[k];
  }

  /** When the fork is created or already exists, copying a key and a slug
      gives the clone URL of the fork name in the same project. */
  lemma CopyWithFork(server: Url, projectKey: string, repositorySlug: string, username: string,
                     response: ForkResponse)
    requires ServerUrl(server)
    requires PlainName(projectKey) && PlainName(repositorySlug) && PlainName(username)
    requires response == ClientError(CONFLICT) || (response.Answered? && response.status == CREATED)
    ensures CopyWith(server, Ok(projectKey), Ok(repositorySlug), username, response)
         == Ok(Some(CloneUrl(server, projectKey, ForkName(repositorySlug, username), username)))
  {
    var forkName := ForkName(repositorySlug, username);
    ForkRepositoryOutcomes(server, projectKey, repositorySlug, username, response);
    ForkNamePlain(repositorySlug, username);
    BuildCloneUrlParses(server, projectKey, forkName, username);
  }

  /** Without a base path, copying the repository behind a clone URL, when
      the fork is created or already exists, gives the clone URL of the fork
      in the same project, from which the project key and the fork name are
      read back. */
  lemma CopyRepositoryOfClone(server: Url, projectKey: string, repositorySlug: string, owner: string,
                              username: string, response: ForkResponse)
    requires ServerUrl(server) && server.path == []
    requires PlainName(projectKey) && PlainName(repositorySlug) && PlainName(username)
    requires response == ClientError(CONFLICT) || (response.Answered? && response.status == CREATED)
    ensures var fork := CloneUrl(server, projectKey, ForkName(repositorySlug, username), username);
      && CopyRepository(server, CloneUrl(server, projectKey, repositorySlug, owner), username, response) == Ok(Some(fork))
      && ProjectKeyFromUrl(fork) == Ok(projectKey)
      && RepositorySlugFromUrl(fork) == Ok(ForkName(repositorySlug, username))
  {
    var forkName := ForkName(repositorySlug, username);
    CloneUrlKeyAndSlug(server, projectKey, repositorySlug, owner);
    CopyWithFork(server, projectKey, repositorySlug, username, response);
    ForkNamePlain(repositorySlug, username);
    CloneUrlKeyAndSlug(server, projectKey, forkName, username);
  }

  /** Under a one-segment base path, copying the repository behind a clone
      URL forks project `scm`, and the fork is named after the project key. */
  lemma CopyRepositoryUnderBasePath(server: Url, base: string, projectKey: string, repositorySlug: string,
                                    owner: string, username: string, response: ForkResponse)
    requires ServerUrl(server) && server.path == "/" + base && PlainName(base)
    requires PlainName(projectKey) && PlainName(repositorySlug) && PlainName(username)
    requires response == ClientError(CONFLICT) || (response.Answered? && response.status == CREATED)
    ensures CopyRepository(server, CloneUrl(server, projectKey, repositorySlug, owner), username, response)
         == Ok(Some(CloneUrl(server, "scm", ForkName(StripGit(projectKey), username), username)))
  {
    CloneUrlKeyUnderBasePath(server, base, projectKey, repositorySlug, owner);
    StripGitPlain(projectKey);
    CopyWithFork(server, "scm", StripGit(projectKey), username, response);
  }

  /** Read after the base path, copying the repository behind a clone URL,
      when the fork is created or already exists, gives the clone URL of the
      fork in the same project, whatever the base path. */
  lemma CopyRepositoryUnderBaseOfClone(server: Url, projectKey: string, repositorySlug: string, owner: string,
                                       username: string, response: ForkResponse)
    requires ServerUrl(server)
    requires PlainName(projectKey) && PlainName(repositorySlug) && PlainName(username)
    requires response == ClientError(CONFLICT) || (response.Answered? && response.status == CREATED)
    ensures var fork := CloneUrl(server, projectKey, ForkName(repositorySlug, username), username);
      && CopyRepositoryUnderBase(server, CloneUrl(server, projectKey, repositorySlug, owner), username, response)
         == Ok(Some(fork))
      && ProjectKeyUnderBase(server, fork) == Ok(projectKey)
      && RepositorySlugUnderBase(server, fork) == Ok(ForkName(repositorySlug, username))
  {
    var forkName := ForkName(repositorySlug, username);
    CloneUrlKeyAndSlugUnderBase(server, projectKey, repositorySlug, owner);
    CopyWithFork(server, projectKey, repositorySlug, username, response);
    ForkNamePlain(repositorySlug, username);
    CloneUrlKeyAndSlugUnderBase(server, projectKey, forkName, username);
  }

  /** Copying fails with the failure of the key when it cannot be read, then
      with that of the slug; once both are read, it fails with the client
      error of the fork, with the fork's `BitbucketException`, or with a
      `NullPointerException` when the fork gives `null`. */
  lemma CopyRepositoryFailures(server: Url, baseRepositoryUrl: Url, username: string, response: ForkResponse)
    ensures var r := CopyRepository(server, baseRepositoryUrl, username, response);
      var key := ProjectKeyFromUrl(baseRepositoryUrl);
      var slug := RepositorySlugFromUrl(baseRepositoryUrl);
      && (key.Fail? ==> r == Fail(key.error))
      && (key.Ok? && slug.Fail? ==> r == Fail(slug.error))
      && (key.Ok? && slug.Ok? && response.OtherException? ==>
            r == Fail(BitbucketException("Error while forking repository")))
      && (key.Ok? && slug.Ok? && response.ClientError? && response.status != CONFLICT ==>
            r == Fail(HttpClientError(response.status)))
      && (key.Ok? && slug.Ok? && response.Answered? && response.status != CREATED ==> r == Fail(NullPointer))
  {
  }

  /** The text `getRepositoryWebUrl` hands to `new URL`. */
  function WebUrlText(server: Url, projectKey: string, repositorySlug: string): string {
    ExternalForm(server) + "/projects/" + projectKey + "/repos/" + repositorySlug + "/browse"
  }

  /** The URL a web URL denotes: the repository's browse page under the
      server's path. */
  function WebUrl(server: Url, projectKey: string, repositorySlug: string): Url {
    Url(server.protocol, server.authority,
        server.path + "/projects/" + projectKey + "/repos/" + repositorySlug + "/browse", None, None)
  }

  /** `getRepositoryWebUrl` once the key and the slug have been read, the key
      first: the browse page of the repository, or the server URL itself when
      the text does not parse. */
  function WebUrlWith(server: Url, projectKey: Outcome<string, Failure>, repositorySlug: Outcome<string, Failure>)
    : Outcome<Url, Failure>
  {
    match projectKey
    case Fail(e) => Fail(e)
    case Ok(key) =>
      match repositorySlug
      case Fail(e) => Fail(e)
      case Ok(slug) =>
        match ParseUrl(WebUrlText(server, key, slug))
        case None => Ok(server)
        case Some(u) => Ok(u)
  }

  /** `getRepositoryWebUrl` as written: the key and the slug are segments 2
      and 3 of the repository's whole file. */
  function RepositoryWebUrl(server: Url, repositoryUrl: Url): Outcome<Url, Failure> {
    WebUrlWith(server, ProjectKeyFromUrl(repositoryUrl), RepositorySlugFromUrl(repositoryUrl))
  }

  /** `getRepositoryWebUrl` with the key and the slug read after the server's
      base path. */
  function RepositoryWebUrlUnderBase(server: Url, repositoryUrl: Url): Outcome<Url, Failure> {
    WebUrlWith(server, ProjectKeyUnderBase(server, repositoryUrl), RepositorySlugUnderBase(server, repositoryUrl))
  }

  lemma WebUrlWellFormed(server: Url, projectKey: string, repositorySlug: string)
    requires ServerUrl(server)
    requires PlainName(projectKey) && PlainName(repositorySlug)
    ensures WellFormed(WebUrl(server, projectKey, repositorySlug))
  {
    var u := WebUrl(server, projectKey, repositorySlug);
    assert u.path[|server.path|] == '/';
  }

  lemma WebUrlTextIsExternalForm(server: Url, projectKey: string, repositorySlug: string)
    requires server.authority != [] && server.query.None? && server.ref.None?
    ensures WebUrlText(server, projectKey, repositorySlug) == ExternalForm(WebUrl(server, projectKey, repositorySlug))
  {
    var u := WebUrl(server, projectKey, repositorySlug);
    assert ExternalForm(server) == server.protocol + ":" + ("//" + server.authority + server.path);
    assert ExternalForm(u) == server.protocol + ":" + ("//" + server.authority + u.path);
  }

  /** For a server URL without query or fragment and plain names, the web URL
      text parses to the browse page of that key and slug. */
  lemma WebUrlWithParses(server: Url, projectKey: string, repositorySlug: string)
    requires ServerUrl(server) && server.query.None? && server.ref.None?
    requires PlainName(projectKey) && PlainName(repositorySlug)
    ensures WebUrlWith(server, Ok(projectKey), Ok(repositorySlug)) == Ok(WebUrl(server, projectKey, repositorySlug))
  {
    WebUrlWellFormed(server, projectKey, repositorySlug);
    WebUrlTextIsExternalForm(server, projectKey, repositorySlug);
    UrlRoundTrip(WebUrl(server, projectKey, repositorySlug));
  }

  /** Without a base path, the web URL of a clone URL is the browse page of
      its project key and slug. */
  lemma RepositoryWebUrlOfClone(server: Url, projectKey: string, repositorySlug: string, username: string)
    requires ServerUrl(server) && server.path == [] && server.query.None? && server.ref.None?
    requires PlainName(projectKey) && PlainName(repositorySlug)
    ensures RepositoryWebUrl(server, CloneUrl(server, projectKey, repositorySlug, username))
         == Ok(WebUrl(server, projectKey, repositorySlug))
  {
    CloneUrlKeyAndSlug(server, projectKey, repositorySlug, username);
    WebUrlWithParses(server, projectKey, repositorySlug);
  }

  /** Under a one-segment base path, the web URL of a clone URL is the browse
      page of repository `scm/<project key>`. */
  lemma RepositoryWebUrlUnderBasePath(server: Url, base: string, projectKey: string, repositorySlug: string,
                                      username: string)
    requires ServerUrl(server) && server.path == "/" + base && PlainName(base)
    requires server.query.None? && server.ref.None?
    requires PlainName(projectKey) && PlainName(repositorySlug)
    ensures RepositoryWebUrl(server, CloneUrl(server, projectKey, repositorySlug, username))
         == Ok(WebUrl(server, "scm", StripGit(projectKey)))
  {
    CloneUrlKeyUnderBasePath(server, base, projectKey, repositorySlug, username);
    StripGitPlain(projectKey);
    WebUrlWithParses(server, "scm", StripGit(projectKey));
  }

  /** Read after the base path, the web URL of a clone URL is the browse page
      of its project key and slug, whatever the base path. */
  lemma RepositoryWebUrlUnderBaseOfClone(server: Url, projectKey: string, repositorySlug: string, username: string)
    requires ServerUrl(server) && server.query.None? && server.ref.None?
    requires PlainName(projectKey) && PlainName(repositorySlug)
    ensures RepositoryWebUrlUnderBase(server, CloneUrl(server, projectKey, repositorySlug, username))
         == Ok(WebUrl(server, projectKey, repositorySlug))
  {
    CloneUrlKeyAndSlugUnderBase(server, projectKey, repositorySlug, username);
    WebUrlWithParses(server, projectKey, repositorySlug);
  }

  /** The web URL fails with the failure of the key when it cannot be read,
      then with that of the slug. */
  lemma RepositoryWebUrlFailures(server: Url, repositoryUrl: Url)
    ensures var r := RepositoryWebUrl(server, repositoryUrl);
      var key := ProjectKeyFromUrl(repositoryUrl);
      var slug := RepositorySlugFromUrl(repositoryUrl);
      && (key.Fail? ==> r == Fail(key.error))
      && (key.Ok? && slug.Fail? ==> r == Fail(slug.error))
      && (key.Ok? && slug.Ok? ==> r.Ok?)
  {
  }
}
