/** Bucketing of GitHub API paths for metrics, and the organisation read off the same path. */
module PathBuckets {
  import opened Text

  // ----- The literal words of the patterns -----

  datatype Word =
    | Graphql | App | Installations | AccessTokens | Repos | Issues | Comments | Labels | Pulls | Files
    | Reviews | Commits | Compare | Status | Statuses | Contents | Branches | Tags | Releases | Actions
    | Runs | Workflows | CheckRuns | BranchesWhereHead | Rename | MergeUpstream | Merges | Git | Refs
    | MatchingRefs | Merge | UpdateBranch | Orgs | Installation | Members | Teams | User | Users
    | CheckSuites | Trees

  function Spelling(w: Word): (s: string)
    ensures '/' !in s
  {
    match w
    case Graphql => "graphql"
    case App => "app"
    case Installations => "installations"
    case AccessTokens => "access_tokens"
    case Repos => "repos"
    case Issues => "issues"
    case Comments => "comments"
    case Labels => "labels"
    case Pulls => "pulls"
    case Files => "files"
    case Reviews => "reviews"
    case Commits => "commits"
    case Compare => "compare"
    case Status => "status"
    case Statuses => "statuses"
    case Contents => "contents"
    case Branches => "branches"
    case Tags => "tags"
    case Releases => "releases"
    case Actions => "actions"
    case Runs => "runs"
    case Workflows => "workflows"
    case CheckRuns => "check-runs"
    case BranchesWhereHead => "branches-where-head"
    case Rename => "rename"
    case MergeUpstream => "merge-upstream"
    case Merges => "merges"
    case Git => "git"
    case Refs => "refs"
    case MatchingRefs => "matching-refs"
    case Merge => "merge"
    case UpdateBranch => "update-branch"
    case Orgs => "orgs"
    case Installation => "installation"
    case Members => "members"
    case Teams => "teams"
    case User => "user"
    case Users => "users"
    case CheckSuites => "check-suites"
    case Trees => "trees"
  }

  /** The only word a text can be, judged by its length and one or two letters. */
  function Guess(s: string): Word {
    match |s|
    case 3 => if s[0] == 'a' then App else Git
    case 4 =>
      if s[1] == 'a' then Tags else if s[1] == 'u' then Runs else if s[1] == 'e' then Refs
      else if s[1] == 'r' then Orgs else User
    case 5 =>
      if s[0] == 'r' then Repos else if s[0] == 'p' then Pulls else if s[0] == 'f' then Files
      else if s[0] == 'm' then Merge else if s[0] == 'u' then Users
      else if s[1] == 'e' then Teams else Trees
    case 6 =>
      if s[0] == 'i' then Issues else if s[0] == 'l' then Labels else if s[0] == 's' then Status
      else if s[0] == 'r' then Rename else Merges
    case 7 =>
      if s[0] == 'g' then Graphql else if s[0] == 'r' then Reviews else if s[0] == 'a' then Actions
      else if s[0] == 'm' then Members else if s[3] == 'm' then Commits else Compare
    case 8 =>
      if s[0] == 's' then Statuses else if s[0] == 'b' then Branches else if s[0] == 'r' then Releases
      else if s[2] == 'm' then Comments else Contents
    case 9 => Workflows
    case 10 => CheckRuns
    case 12 => if s[0] == 'i' then Installation else CheckSuites
    case 13 =>
      if s[0] == 'i' then Installations else if s[0] == 'a' then AccessTokens
      else if s[0] == 'm' then MatchingRefs else UpdateBranch
    case 14 => MergeUpstream
    case 19 => BranchesWhereHead
    case _ => Graphql
  }

  /** So no two words are spelt alike. */
  lemma GuessIsRight(w: Word)
    ensures Guess(Spelling(w)) == w
  {
    match w {
      case Graphql => case App => case Installations => case AccessTokens => case Repos => case Issues =>
      case Comments => case Labels => case Pulls => case Files => case Reviews => case Commits =>
      case Compare => case Status => case Statuses => case Contents => case Branches => case Tags =>
      case Releases => case Actions => case Runs => case Workflows => case CheckRuns =>
      case BranchesWhereHead => case Rename => case MergeUpstream => case Merges => case Git => case Refs =>
      case MatchingRefs => case Merge => case UpdateBranch => case Orgs => case Installation => case Members =>
      case Teams => case User => case Users => case CheckSuites => case Trees =>
    }
  }

  // ----- Patterns -----

  /** What stands between two slashes of a pattern: a word, `[^/]+` or `\d+`. */
  datatype Piece = Lit(word: Word) | Any | Digits

  /** A pattern ends after a piece, or in `.+` or `.*`, which may take in slashes. */
  datatype Pattern = End | Rest | RestOrEmpty | Then(piece: Piece, next: Pattern)

  predicate Fits(p: Piece, s: string) {
    match p
    case Lit(w) => s == Spelling(w)
    case Any => s != "" && '/' !in s
    case Digits => s != "" && forall c :: c in s ==> '0' <= c <= '9'
  }

  /** `text` is in the language of the regular expression: one slash and one fitting text for each
      piece, then the end, or a slash and any text without a newline. */
  ghost predicate InLanguage(p: Pattern, text: string) {
    match p
    case End => text == ""
    case Rest => text != "" && text[0] == '/' && text[1..] != "" && '\n' !in text[1..]
    case RestOrEmpty => text != "" && text[0] == '/' && '\n' !in text[1..]
    case Then(piece, next) =>
      exists s, more :: Fits(piece, s) && InLanguage(next, more) && text == "/" + s + more
  }

  /** The same, decided on the segments from the k-th on. */
  predicate FitsFrom(p: Pattern, segs: seq<string>, k: nat)
    requires k <= |segs|
  {
    match p
    case End => k == |segs|
    case Rest => k < |segs| && Join(segs[k..], '/') != "" && '\n' !in Join(segs[k..], '/')
    case RestOrEmpty => k < |segs| && '\n' !in Join(segs[k..], '/')
    case Then(piece, next) => k < |segs| && Fits(piece, segs[k]) && FitsFrom(next, segs, k + 1)
  }

  function Segments(path: string): seq<string>
    requires path != ""
  {
    Split(path[1..], '/')
  }

  /** pattern.MatchString(path). */
  predicate MatchString(p: Pattern, path: string) {
    path != "" && path[0] == '/' && FitsFrom(p, Segments(path), 0)
  }

  // ----- The table -----

  /** What follows the first word of a pattern (or the word after `/repos/[^/]+/[^/]+/`), and the rest of
      its bucket name. */
  datatype Row = Row(pattern: Pattern, bucket: string)

  /** The rows whose pattern starts with the word, except those of RepoRows. */
  function TopRows(first: Word): seq<Row> {
    match first
    case Graphql => [Row(End, "/graphql")]
    case App =>
      [Row(Then(Lit(Installations), Then(Digits, Then(Lit(AccessTokens), End))),
           "/app/installations/{installation_id}/access_tokens"),
       Row(Then(Lit(Installations), Then(Digits, End)), "/app/installations/{installation_id}")]
    case Repos => [Row(Then(Any, Then(Any, End)), "/repos/{org}/{repo}")]
    case Orgs =>
      [Row(Then(Any, Then(Lit(Installation), End)), "/orgs/{org}/installation"),
       Row(Then(Any, End), "/orgs/{org}"),
       Row(Then(Any, Then(Lit(Repos), End)), "/orgs/{org}/repos"),
       Row(Then(Any, Then(Lit(Members), End)), "/orgs/{org}/members"),
       Row(Then(Any, Then(Lit(Teams), End)), "/orgs/{org}/teams")]
    case User => [Row(End, "/user"), Row(Then(Lit(Repos), End), "/user/repos")]
    case Users =>
      [Row(Then(Any, End), "/users/{user}"),
       Row(Then(Any, Then(Lit(Repos), End)), "/users/{user}/repos")]
    case _ => []
  }

  /** The rows of `/repos/{org}/{repo}/word`. */
  function RepoRows(fourth: Word): seq<Row> {
    match fourth
    case Issues =>
      [Row(End, "/issues"),
       Row(Then(Digits, End), "/issues/{number}"),
       Row(Then(Digits, Then(Lit(Comments), End)), "/issues/{number}/comments"),
       Row(Then(Digits, Then(Lit(Labels), End)), "/issues/{number}/labels")]
    case Pulls =>
      [Row(End, "/pulls"),
       Row(Then(Digits, End), "/pulls/{number}"),
       Row(Then(Digits, Then(Lit(Files), End)), "/pulls/{number}/files"),
       Row(Then(Digits, Then(Lit(Comments), End)), "/pulls/{number}/comments"),
       Row(Then(Digits, Then(Lit(Reviews), End)), "/pulls/{number}/reviews"),
       Row(Then(Digits, Then(Lit(Merge), End)), "/pulls/{number}/merge"),
       Row(Then(Digits, Then(Lit(UpdateBranch), End)), "/pulls/{number}/update-branch")]
    case Commits =>
      [Row(End, "/commits"),
       Row(Then(Any, End), "/commits/{sha}"),
       Row(Then(Any, Then(Lit(Status), End)), "/commits/{sha}/status"),
       Row(Then(Any, Then(Lit(CheckRuns), End)), "/commits/{ref}/check-runs"),
       Row(Then(Any, Then(Lit(BranchesWhereHead), End)), "/commits/{sha}/branches-where-head"),
       Row(Then(Any, Then(Lit(Pulls), End)), "/commits/{sha}/pulls")]
    case Compare => [Row(Rest, "/compare/{base}...{head}")]
    case Statuses => [Row(Then(Any, End), "/statuses/{sha}")]
    case Contents => [Row(RestOrEmpty, "/contents/{path}")]
    case Branches =>
      [Row(End, "/branches"),
       Row(Then(Any, End), "/branches/{branch}"),
       Row(Then(Any, Then(Lit(Rename), End)), "/branches/{branch}/rename")]
    case Tags => [Row(End, "/tags")]
    case Releases => [Row(End, "/releases"), Row(Then(Digits, End), "/releases/{id}")]
    case Actions =>
      [Row(Then(Lit(Runs), End), "/actions/runs"),
       Row(Then(Lit(Runs), Then(Digits, End)), "/actions/runs/{id}"),
       Row(Then(Lit(Workflows), End), "/actions/workflows"),
       Row(Then(Lit(Workflows), Then(Any, End)), "/actions/workflows/{id}")]
    case CheckRuns => [Row(End, "/check-runs"), Row(Then(Digits, End), "/check-runs/{id}")]
    case MergeUpstream => [Row(End, "/merge-upstream")]
    case Merges => [Row(End, "/merges")]
    case Git =>
      [Row(Then(Lit(Refs), End), "/git/refs"),
       Row(Then(Lit(Refs), Rest), "/git/refs/{ref}"),
       Row(Then(Lit(MatchingRefs), Rest), "/git/matching-refs/{ref}"),
       Row(Then(Lit(Trees), Then(Any, End)), "/git/trees/{sha}")]
    case Installation => [Row(End, "/installation")]
    case CheckSuites => [Row(End, "/check-suites"), Row(Then(Digits, End), "/check-suites/{id}")]
    case _ => []
  }

  datatype Place = Top(first: Word, i: nat) | InRepo(fourth: Word, i: nat)

  predicate InTable(e: Place) {
    match e
    case Top(w, i) => i < |TopRows(w)|
    case InRepo(w, i) => i < |RepoRows(w)|
  }

  /** One row of the table. */
  type Entry = e: Place | InTable(e) witness Top(Graphql, 0)

  function InRepoPattern(w: Word, rest: Pattern): Pattern {
    Then(Lit(Repos), Then(Any, Then(Any, Then(Lit(w), rest))))
  }

  function PatternOf(e: Entry): Pattern {
    match e
    case Top(w, i) => Then(Lit(w), TopRows(w)[i].pattern)
    case InRepo(w, i) => InRepoPattern(w, RepoRows(w)[i].pattern)
  }

  function BucketOf(e: Entry): string {
    match e
    case Top(w, i) => TopRows(w)[i].bucket
    case InRepo(w, i) => "/repos/{org}/{repo}" + RepoRows(w)[i].bucket
  }

  const UNKNOWN: string := "unknown_gh_path"

  /** bucketizeGitHubPath: the bucket of the first listed row that matches. */
  function Bucketize(table: seq<Entry>, path: string): string {
    if table == [] then UNKNOWN
    else if MatchString(PatternOf(table[0]), path) then BucketOf(table[0])
    else Bucketize(table[1..], path)
  }

  // ----- The regular expressions and the segments -----

  lemma {:induction false} FitsGivesLanguage(p: Pattern, segs: seq<string>, k: nat)
    requires k <= |segs| && (forall s :: s in segs ==> '/' !in s) && FitsFrom(p, segs, k)
    ensures InLanguage(p, if k == |segs| then "" else "/" + Join(segs[k..], '/'))
    decreases p
  {
    if p.Then? {
      FitsGivesLanguage(p.next, segs, k + 1);
      var more := if k + 1 == |segs| then "" else "/" + Join(segs[k + 1..], '/');
      assert segs[k..][1..] == segs[k + 1..];
      assert "/" + Join(segs[k..], '/') == "/" + segs[k] + more;
    } else if !p.End? {
      var rest := Join(segs[k..], '/');
      assert ("/" + rest)[1..] == rest;
    }
  }

  lemma HeadSegment(s: string, more: string)
    requires '/' !in s && (more == "" || more[0] == '/')
    ensures Split(s + more, '/') == [s] + if more == "" then [] else Split(more[1..], '/')
  {
    if more == "" {
      assert s + more == s;
      SplitWhole(s, '/');
    } else {
      SplitHead(s, '/', more[1..]);
      assert s + ['/'] + more[1..] == s + more;
    }
  }

  lemma {:induction false} LanguageGivesFits(p: Pattern, segs: seq<string>, k: nat, text: string)
    requires k <= |segs| && InLanguage(p, text)
    requires if text == "" then k == |segs| else text[0] == '/' && segs[k..] == Split(text[1..], '/')
    ensures FitsFrom(p, segs, k)
    decreases p
  {
    if p.Then? {
      var s, more :| Fits(p.piece, s) && InLanguage(p.next, more) && text == "/" + s + more;
      assert '/' !in s;
      LanguageStartsWithSlash(p.next, more);
      HeadSegment(s, more);
      assert text[1..] == s + more;
      assert segs[k] == segs[k..][0] == s;
      assert segs[k + 1..] == segs[k..][1..];
      LanguageGivesFits(p.next, segs, k + 1, more);
    } else if !p.End? {
      JoinSplit(text[1..], '/');
    }
  }

  lemma LanguageStartsWithSlash(p: Pattern, text: string)
    requires InLanguage(p, text)
    ensures text == "" || text[0] == '/'
  {
  }

  /** Matching on segments decides the regular expression, for every path. */
  lemma MatchStringIff(p: Pattern, path: string)
    requires p.Then?
    ensures MatchString(p, path) <==> InLanguage(p, path)
  {
    if path != "" && path[0] == '/' {
      var segs := Segments(path);
      JoinSplit(path[1..], '/');
      assert segs[0..] == segs;
      assert path == "/" + path[1..];
      if MatchString(p, path) {
        FitsGivesLanguage(p, segs, 0);
      }
      if InLanguage(p, path) {
        LanguageGivesFits(p, segs, 0, path);
      }
    }
  }

  // ----- At most one row matches -----

  predicate PiecesOverlap(a: Piece, b: Piece) {
    a.Lit? && b.Lit? ==> a.word == b.word
  }

  /** May some path match both patterns? */
  predicate Overlap(p: Pattern, q: Pattern) {
    if p.Then? && q.Then? then PiecesOverlap(p.piece, q.piece) && Overlap(p.next, q.next)
    else p.End? <==> q.End?
  }

  /** The check is sound: patterns that match a common path overlap. */
  lemma {:induction false} OverlapIsSound(p: Pattern, q: Pattern, segs: seq<string>, k: nat)
    requires k <= |segs| && FitsFrom(p, segs, k) && FitsFrom(q, segs, k)
    ensures Overlap(p, q)
    decreases p
  {
    if p.Then? && q.Then? {
      if p.piece.Lit? && q.piece.Lit? {
        GuessIsRight(p.piece.word);
        GuessIsRight(q.piece.word);
      }
      OverlapIsSound(p.next, q.next, segs, k + 1);
    }
  }

  /** No two of the rows overlap. */
  ghost predicate Apart(rows: seq<Row>) {
    forall i, j :: 0 <= i < j < |rows| ==> !Overlap(rows[i].pattern, rows[j].pattern)
  }

  lemma OrgRowsApart()
    ensures Apart(TopRows(Orgs))
  {
  }

  lemma TopRowsApart(w: Word)
    ensures Apart(TopRows(w))
  {
    match w {
      case Orgs => OrgRowsApart();
      case App => case User => case Users => case _ =>
    }
  }

  lemma PullRowsApart()
    ensures Apart(RepoRows(Pulls))
  {
    var rows := RepoRows(Pulls);
    forall i, j | 0 <= i < j < |rows|
      ensures !Overlap(rows[i].pattern, rows[j].pattern)
    {
      match i {
        case 0 => case 1 => case 2 => case 3 => case 4 => case _ =>
      }
    }
  }

  lemma CommitRowsApart()
    ensures Apart(RepoRows(Commits))
  {
    var rows := RepoRows(Commits);
    forall i, j | 0 <= i < j < |rows|
      ensures !Overlap(rows[i].pattern, rows[j].pattern)
    {
      match i {
        case 0 => case 1 => case 2 => case 3 => case _ =>
      }
    }
  }

  lemma IssueRowsApart()
    ensures Apart(RepoRows(Issues))
  {
  }

  lemma ActionRowsApart()
    ensures Apart(RepoRows(Actions))
  {
  }

  lemma GitRowsApart()
    ensures Apart(RepoRows(Git))
  {
  }

  lemma RepoRowsApart(w: Word)
    ensures Apart(RepoRows(w))
  {
    match w {
      case Pulls => PullRowsApart();
      case Commits => CommitRowsApart();
      case Issues => IssueRowsApart();
      case Actions => ActionRowsApart();
      case Git => GitRowsApart();
      case _ =>
    }
  }

  lemma RepoRootIsApart(rest: Pattern)
    requires rest.Then?
    ensures !Overlap(Then(Any, Then(Any, End)), Then(Any, Then(Any, rest)))
  {
    assert !Overlap(Then(Any, End), Then(Any, rest));
  }

  lemma {:induction false} OverlapCommutes(p: Pattern, q: Pattern)
    ensures Overlap(p, q) == Overlap(q, p)
  {
    if p.Then? && q.Then? {
      OverlapCommutes(p.next, q.next);
    }
  }

  lemma RowsApart(rows: seq<Row>, i: nat, j: nat)
    requires Apart(rows) && i < |rows| && j < |rows| && Overlap(rows[i].pattern, rows[j].pattern)
    ensures i == j
  {
    OverlapCommutes(rows[i].pattern, rows[j].pattern);
  }

  lemma TopEntriesApart(w: Word, i: nat, v: Word, j: nat)
    requires i < |TopRows(w)| && j < |TopRows(v)| && Overlap(PatternOf(Top(w, i)), PatternOf(Top(v, j)))
    ensures w == v && i == j
  {
    TopRowsApart(w);
    RowsApart(TopRows(w), i, j);
  }

  lemma OverlapInRepo(w: Word, p: Pattern, v: Word, q: Pattern)
    requires Overlap(InRepoPattern(w, p), InRepoPattern(v, q))
    ensures w == v && Overlap(p, q)
  {
    assert Overlap(Then(Any, Then(Lit(w), p)), Then(Any, Then(Lit(v), q)));
    assert Overlap(Then(Lit(w), p), Then(Lit(v), q));
  }

  lemma RepoEntriesApart(w: Word, i: nat, v: Word, j: nat)
    requires i < |RepoRows(w)| && j < |RepoRows(v)| && Overlap(PatternOf(InRepo(w, i)), PatternOf(InRepo(v, j)))
    ensures w == v && i == j
  {
    OverlapInRepo(w, RepoRows(w)[i].pattern, v, RepoRows(v)[j].pattern);
    RepoRowsApart(w);
    RowsApart(RepoRows(w), i, j);
  }

  lemma TopAndRepoApart(w: Word, i: nat, v: Word, j: nat)
    requires i < |TopRows(w)| && j < |RepoRows(v)|
    ensures !Overlap(PatternOf(Top(w, i)), PatternOf(InRepo(v, j)))
  {
    if w == Repos {
      RepoRootIsApart(Then(Lit(v), RepoRows(v)[j].pattern));
    }
  }

  lemma DifferentRowsDoNotOverlap(a: Entry, b: Entry)
    requires Overlap(PatternOf(a), PatternOf(b))
    ensures a == b
  {
    if a.Top? && b.Top? {
      TopEntriesApart(a.first, a.i, b.first, b.i);
    } else if a.InRepo? && b.InRepo? {
      RepoEntriesApart(a.fourth, a.i, b.fourth, b.i);
    } else if a.Top? {
      TopAndRepoApart(a.first, a.i, b.fourth, b.i);
    } else {
      OverlapCommutes(PatternOf(a), PatternOf(b));
      TopAndRepoApart(b.first, b.i, a.fourth, a.i);
    }
  }

  /** At most one row of the table matches a path. */
  lemma UniqueMatch(a: Entry, b: Entry, path: string)
    requires MatchString(PatternOf(a), path) && MatchString(PatternOf(b), path)
    ensures a == b
  {
    OverlapIsSound(PatternOf(a), PatternOf(b), Segments(path), 0);
    DifferentRowsDoNotOverlap(a, b);
  }


  // ----- The order of the table does not matter -----

  /** A row whose regular expression accepts the path gives the bucket, wherever it stands in the table. */
  lemma {:induction false} FirstMatchIsTheMatch(table: seq<Entry>, path: string, e: Entry)
    requires e in table && InLanguage(PatternOf(e), path)
    ensures Bucketize(table, path) == BucketOf(e)
  {
    MatchStringIff(PatternOf(e), path);
    if MatchString(PatternOf(table[0]), path) {
      UniqueMatch(table[0], e, path);
    } else {
      FirstMatchIsTheMatch(table[1..], path, e);
    }
  }

  lemma {:induction false} UnmatchedIsUnknown(table: seq<Entry>, path: string)
    requires forall e :: e in table ==> !InLanguage(PatternOf(e), path)
    ensures Bucketize(table, path) == UNKNOWN
  {
    if table == [] {
    } else {
      assert table[0] in table;
      MatchStringIff(PatternOf(table[0]), path);
      UnmatchedIsUnknown(table[1..], path);
    }
  }

  /** Two tables with the same rows, in any order and with any repeats, give every path the same bucket. */
  lemma OrderIndependent(table: seq<Entry>, other: seq<Entry>, path: string)
    requires forall e :: e in table <==> e in other
    ensures Bucketize(table, path) == Bucketize(other, path)
  {
    if e :| e in table && InLanguage(PatternOf(e), path) {
      FirstMatchIsTheMatch(table, path, e);
      FirstMatchIsTheMatch(other, path, e);
    } else {
      UnmatchedIsUnknown(table, path);
      UnmatchedIsUnknown(other, path);
    }
  }

  // ----- The organisation -----

  function TrimSlash(path: string): string {
    if path != "" && path[0] == '/' then path[1..] else path
  }

  /** extractOrgFromGitHubURL. */
  function ExtractOrg(path: string): string {
    var parts := Split(TrimSlash(path), '/');
    if |parts| < 2 then "unknown"
    else if parts[0] == "repos" then parts[1]
    else if parts[0] == "orgs" then parts[1]
    else "unknown"
  }

  /** The path starts with `/repos/{org}` or `/orgs/{org}`; the slash in front may be missing. */
  predicate OrgStands(path: string, word: string, org: string, more: string) {
    && (word == "repos" || word == "orgs") && '/' !in org && (more == "" || more[0] == '/')
    && (path == word + "/" + org + more || path == "/" + word + "/" + org + more)
  }

  lemma StandingOrgIsExtracted(path: string, word: string, org: string, more: string)
    requires OrgStands(path, word, org, more)
    ensures ExtractOrg(path) == org
  {
    if path == "/" + word + "/" + org + more {
      FirstTwoParts(path, word, org, more);
    } else {
      assert ("/" + path)[1..] == path && "/" + path == "/" + word + "/" + org + more;
      FirstTwoParts("/" + path, word, org, more);
    }
  }

  lemma UnknownOrg(path: string)
    requires forall word, org, more :: !OrgStands(path, word, org, more)
    ensures ExtractOrg(path) == "unknown"
  {
    var text := TrimSlash(path);
    var parts := Split(text, '/');
    if |parts| >= 2 && (parts[0] == "repos" || parts[0] == "orgs") {
      var more := SplitInTwo(text);
      assert path == text || path == "/" + text;
      assert OrgStands(path, parts[0], parts[1], more);
    }
  }

  lemma SplitInTwo(text: string) returns (more: string)
    requires |Split(text, '/')| >= 2
    ensures var parts := Split(text, '/');
            text == parts[0] + "/" + parts[1] + more && '/' !in parts[1] && (more == "" || more[0] == '/')
  {
    var parts := Split(text, '/');
    JoinSplit(text, '/');
    assert parts[1] in parts;
    assert parts[1..][1..] == parts[2..];
    more := if parts[2..] == [] then "" else "/" + Join(parts[2..], '/');
  }

  /** The buckets `/repos/{org}/...` and `/orgs/{org}...`. */
  predicate NamesAnOrg(e: Entry) {
    e.InRepo? || e.first == Repos || e.first == Orgs
  }

  /** Exactly the rows whose pattern starts with one of those words. */
  lemma NamesAnOrgIff(e: Entry)
    ensures NamesAnOrg(e) <==> PatternOf(e).piece == Lit(Repos) || PatternOf(e).piece == Lit(Orgs)
  {
  }

  function FirstWord(e: Entry): Word {
    if e.InRepo? then Repos else e.first
  }

  /** Those patterns are a fixed word, `{org}`, and more. */
  lemma OrgIsSecond(e: Entry) returns (rest: Pattern)
    requires NamesAnOrg(e)
    ensures PatternOf(e) == Then(Lit(FirstWord(e)), Then(Any, rest))
  {
    rest := PatternOf(e).next.next;
  }

  lemma FirstTwoParts(path: string, first: string, org: string, more: string)
    requires '/' !in first && '/' !in org && (more == "" || more[0] == '/')
    requires path == "/" + first + "/" + org + more
    ensures var parts := Split(TrimSlash(path), '/');
            |parts| >= 2 && parts[0] == first && parts[1] == org
  {
    var tail := "/" + org + more;
    assert path[1..] == first + tail && tail[1..] == org + more;
    HeadSegment(first, tail);
    HeadSegment(org, more);
  }

  /** However such a pattern is laid over the path, the text under `{org}` is the organisation extracted. */
  lemma OrgIsTheMatchedSegment(w: Word, rest: Pattern, path: string, org: string, more: string)
    requires w == Repos || w == Orgs
    requires Fits(Any, org) && InLanguage(rest, more) && path == "/" + Spelling(w) + "/" + org + more
    ensures ExtractOrg(path) == org
  {
    LanguageStartsWithSlash(rest, more);
    FirstTwoParts(path, Spelling(w), org, more);
  }

  lemma FirstPiece(piece: Piece, next: Pattern, text: string) returns (s: string, more: string)
    requires InLanguage(Then(piece, next), text)
    ensures Fits(piece, s) && InLanguage(next, more) && text == "/" + s + more
  {
    s, more :| Fits(piece, s) && InLanguage(next, more) && text == "/" + s + more;
  }

  lemma LayOver(w: Word, rest: Pattern, path: string) returns (org: string, more: string)
    requires InLanguage(Then(Lit(w), Then(Any, rest)), path)
    ensures Fits(Any, org) && InLanguage(rest, more) && path == "/" + Spelling(w) + "/" + org + more
  {
    var first, tail := FirstPiece(Lit(w), Then(Any, rest), path);
    org, more := FirstPiece(Any, rest, tail);
    assert path == "/" + first + "/" + org + more;
  }

  /** So a path with such a bucket is the bucket's word, the organisation extracted, and a text that fits
      the rest of the pattern. */
  lemma OrgAgreesWithBucket(e: Entry, path: string) returns (rest: Pattern, more: string)
    requires NamesAnOrg(e) && InLanguage(PatternOf(e), path)
    ensures PatternOf(e) == Then(Lit(FirstWord(e)), Then(Any, rest)) && InLanguage(rest, more)
    ensures path == "/" + Spelling(FirstWord(e)) + "/" + ExtractOrg(path) + more
    ensures Fits(Any, ExtractOrg(path))
  {
    rest := OrgIsSecond(e);
    var org;
    org, more := LayOver(FirstWord(e), rest, path);
    OrgIsTheMatchedSegment(FirstWord(e), rest, path, org, more);
  }
}
