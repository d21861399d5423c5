/** The run of src/main.rs: fetch the base commit, fetch the issues, then for
    each issue name a branch, provision it, generate a fix and commit it.
    Every remote call is an oracle whose answer is part of the input; the run
    produces the trace of calls and log lines it makes, and its final result. */
module Orchestrator {
  import opened Results
  import opened Bitbucket

  // ------------------------------------------------------------ the inputs

  /** A file proposed as the fix: its path in the repository and its text. */
  datatype GeneratedFix = GeneratedFix(path: string, code: string)

  /** What the remote calls made for one issue answer. */
  datatype IssueReplies = IssueReplies(
    naming: Result<string>,          // generate_branch_name
    presence: Result<bool>,          // branch_exists
    creation: Result<()>,            // create_branch
    generation: Result<GeneratedFix>, // generate_fix_code
    committing: Result<()>)          // commit_file

  /** Everything the run reads: the configuration and the answers of every
      remote call. `replies(i)` answers the calls made for the issue at
      position `i`. */
  datatype World = World(
    workspace: string,
    repoSlug: string,
    defaultLang: Option<string>,     // DEFAULT_LANG, if it is set
    latestCommit: Result<string>,    // get_latest_commit
    issues: Result<seq<Issue>>,      // fetch_issues
    replies: nat -> IssueReplies)

  // ------------------------------------------------------------ the outputs

  /** One line the run prints, without its wording. */
  datatype Event =
    | BaseCommit(hash: string)
    | NoIssues
    | BranchReused(branch: string)
    | CreatingBranch(branch: string, issueId: int)
    | BranchCreationFailed(issueId: int, error: Error)
    | CodeGenerated(path: string)
    | Committed(path: string, branch: string)
    | CommitFailed(path: string, error: Error)
    | FixFailed(issueId: int, error: Error)
    | NamingFailed(issueId: int, error: Error)
    | IssuesUnavailable(error: Error)

  /** A remote call with its arguments, or a printed line. */
  datatype Action =
    | GetLatestCommit(repo: string)
    | FetchIssues(repo: string)
    | GenerateBranchName(issueId: int, description: string)
    | BranchExists(repo: string, branch: string)
    | CreateBranch(repo: string, branch: string, fromCommit: string)
    | GenerateFixCode(issueId: int, title: string, body: string, language: string)
    | CommitFile(repo: string, branch: string, path: string, content: string)
    | Log(event: Event)

  datatype Outcome = Outcome(trace: seq<Action>, result: Result<()>)

  // ------------------------------------------------------- the configuration

  /** The repository every call addresses: "workspace/slug". */
  function RepoPath(workspace: string, slug: string): (repo: string)
    ensures |repo| == |workspace| + 1 + |slug|
    ensures repo[..|workspace|] == workspace && repo[|workspace|] == '/' && repo[|workspace| + 1..] == slug
  {
    workspace + "/" + slug
  }

  /** The position of the first '/', or the length when there is none. */
  function FirstSlash(s: string): (k: nat)
    ensures k <= |s| && '/' !in s[..k] && (k < |s| ==> s[k] == '/')
  {
    if s == [] then 0
    else if s[0] == '/' then 0
    else
      var k := 1 + FirstSlash(s[1..]);
      assert s[..k] == [s[0]] + s[1..][..k - 1];
      k
  }

  /** A repository path read back as workspace and slug. */
  function SplitRepo(repo: string): (string, string) {
    var k := FirstSlash(repo);
    (repo[..k], if k < |repo| then repo[k + 1..] else "")
  }

  /** A workspace without '/' is recovered from the path, and so is the slug. */
  lemma RepoPathSplits(workspace: string, slug: string)
    requires '/' !in workspace
    ensures SplitRepo(RepoPath(workspace, slug)) == (workspace, slug)
  {
    var repo := RepoPath(workspace, slug);
    assert repo[..|workspace|] == workspace;
  }

  const FallbackLanguage := "javascript"

  /** The language fixes are written in: DEFAULT_LANG when it is set. */
  function Language(defaultLang: Option<string>): (lang: string)
    ensures defaultLang.Some? ==> lang == defaultLang.value
    ensures defaultLang.None? ==> lang == "javascript"
  {
    match defaultLang
    case Some(lang) => lang
    case None => FallbackLanguage
  }

  /** What stays fixed for the whole loop over the issues. */
  datatype Context = Context(repo: string, base: string, lang: string)

  // ------------------------------------------------------ the specification

  /** The actions taken for one issue, and the error that ends the whole run
      if there is one. */
  datatype Step = Step(actions: seq<Action>, abort: Option<Error>)

  /** Generating the fix and committing it on `branch`. */
  function FixAndCommit(ctx: Context, issue: Issue, branch: string, r: IssueReplies): seq<Action> {
    [GenerateFixCode(issue.id, issue.title, issue.body, ctx.lang)] +
    match r.generation
    case Err(e) => [Log(FixFailed(issue.id, e))]
    case Ok(fix) =>
      [Log(CodeGenerated(fix.path)), CommitFile(ctx.repo, branch, fix.path, fix.code)] +
      match r.committing
      case Ok(_) => [Log(Committed(fix.path, branch))]
      case Err(e) => [Log(CommitFailed(fix.path, e))]
  }

  /** One pass of the loop body for `issue`. */
  function IssueStep(ctx: Context, issue: Issue, r: IssueReplies): Step {
    var asked := [GenerateBranchName(issue.id, issue.title)];
    match r.naming
    case Err(e) => Step(asked + [Log(NamingFailed(issue.id, e))], None)
    case Ok(branch) =>
      var checked := asked + [BranchExists(ctx.repo, branch)];
      match r.presence
      case Err(e) => Step(checked, Some(e))
      case Ok(true) => Step(checked + [Log(BranchReused(branch))] + FixAndCommit(ctx, issue, branch, r), None)
      case Ok(false) =>
        var created := checked + [Log(CreatingBranch(branch, issue.id)), CreateBranch(ctx.repo, branch, ctx.base)];
        match r.creation
        case Err(e) => Step(created + [Log(BranchCreationFailed(issue.id, e))], None)
        case Ok(_) => Step(created + FixAndCommit(ctx, issue, branch, r), None)
  }

  /** The loop over the first `n` issues; once an issue aborts, the rest are
      not visited. */
  function Process(ctx: Context, issues: seq<Issue>, replies: nat -> IssueReplies, n: nat): Step
    requires n <= |issues|
  {
    if n == 0 then Step([], None)
    else
      var done := Process(ctx, issues, replies, n - 1);
      if done.abort.Some? then done
      else
        var s := IssueStep(ctx, issues[n - 1], replies(n - 1));
        Step(done.actions + s.actions, s.abort)
  }

  function ContextOf(w: World, base: string): Context {
    Context(RepoPath(w.workspace, w.repoSlug), base, Language(w.defaultLang))
  }

  /** The whole run. */
  function Run(w: World): (o: Outcome)
    ensures o.trace != [] && o.trace[0] == GetLatestCommit(RepoPath(w.workspace, w.repoSlug))
    ensures w.latestCommit.Ok? ==> |o.trace| >= 3 && o.trace[2] == FetchIssues(RepoPath(w.workspace, w.repoSlug))
    ensures o.result.Err? && w.latestCommit.Ok? ==> w.issues.Ok? && w.issues.value != []
  {
    var repo := RepoPath(w.workspace, w.repoSlug);
    match w.latestCommit
    case Err(e) => Outcome([GetLatestCommit(repo)], Err(e))
    case Ok(base) =>
      var head := [GetLatestCommit(repo), Log(BaseCommit(base)), FetchIssues(repo)];
      match w.issues
      case Err(e) => Outcome(head + [Log(IssuesUnavailable(e))], Ok(()))
      case Ok(issues) =>
        if issues == [] then Outcome(head + [Log(NoIssues)], Ok(()))
        else
          var s := Process(ContextOf(w, base), issues, w.replies, |issues|);
          Outcome(head + s.actions, if s.abort.Some? then Err(s.abort.value) else Ok(()))
  }

  // ------------------------------------------------------ the implementation

  /** The body of the loop for one issue: the calls it makes, and the error
      of `branch_exists`, which ends the whole run, if there is one. */
  method ProcessIssue(repo: string, base: string, defaultLang: Option<string>, issue: Issue, r: IssueReplies)
    returns (actions: seq<Action>, abort: Option<Error>)
    ensures Step(actions, abort) == IssueStep(Context(repo, base, Language(defaultLang)), issue, r)
  {
    actions := [GenerateBranchName(issue.id, issue.title)];
    match r.naming {
      case Err(e) =>
        return actions + [Log(NamingFailed(issue.id, e))], None;
      case Ok(branch) =>
        actions := actions + [BranchExists(repo, branch)];
        if r.presence.Err? {
          return actions, Some(r.presence.error);
        }
        if r.presence.value {
          actions := actions + [Log(BranchReused(branch))];
        } else {
          actions := actions + [Log(CreatingBranch(branch, issue.id)), CreateBranch(repo, branch, base)];
          if r.creation.Err? {
            return actions + [Log(BranchCreationFailed(issue.id, r.creation.error))], None;
          }
        }
        ghost var provisioned := actions;
        var language := Language(defaultLang);
        actions := actions + [GenerateFixCode(issue.id, issue.title, issue.body, language)];
        match r.generation {
          case Ok(fix) =>
            actions := actions + [Log(CodeGenerated(fix.path)), CommitFile(repo, branch, fix.path, fix.code)];
            match r.committing {
              case Ok(_) => actions := actions + [Log(Committed(fix.path, branch))];
              case Err(e) => actions := actions + [Log(CommitFailed(fix.path, e))];
            }
          case Err(e) =>
            actions := actions + [Log(FixFailed(issue.id, e))];
        }
        assert actions == provisioned + FixAndCommit(Context(repo, base, Language(defaultLang)), issue, branch, r);
        abort := None;
    }
  }

  /** The loop over the issues, in the order fetched; an error of
      `branch_exists` leaves the loop and is returned. */
  method ProcessIssues(repo: string, base: string, defaultLang: Option<string>, issues: seq<Issue>, replies: nat -> IssueReplies)
    returns (actions: seq<Action>, abort: Option<Error>)
    ensures Step(actions, abort) == Process(Context(repo, base, Language(defaultLang)), issues, replies, |issues|)
  {
    ghost var ctx := Context(repo, base, Language(defaultLang));
    actions := [];
    var i := 0;
    while i < |issues|
      invariant 0 <= i <= |issues|
      invariant Process(ctx, issues, replies, i) == Step(actions, None)
    {
      var more, stop := ProcessIssue(repo, base, defaultLang, issues[i], replies(i));
      actions := actions + more;
      if stop.Some? {
        AbortIsFinal(ctx, issues, replies, i + 1, |issues|);
        return actions, stop;
      }
      i := i + 1;
    }
    abort := None;
  }

  /** The run, step by step. */
  method Orchestrate(w: World) returns (trace: seq<Action>, result: Result<()>)
    ensures Outcome(trace, result) == Run(w)
  {
    var repo := RepoPath(w.workspace, w.repoSlug);
    trace := [GetLatestCommit(repo)];
    if w.latestCommit.Err? {
      return trace, Err(w.latestCommit.error);
    }
    var base := w.latestCommit.value;
    trace := trace + [Log(BaseCommit(base)), FetchIssues(repo)];
    if w.issues.Err? {
      return trace + [Log(IssuesUnavailable(w.issues.error))], Ok(());
    }
    var issues := w.issues.value;
    if issues == [] {
      return trace + [Log(NoIssues)], Ok(());
    }
    var actions, abort := ProcessIssues(repo, base, w.defaultLang, issues, w.replies);
    trace := trace + actions;
    result := if abort.Some? then Err(abort.value) else Ok(());
  }

  lemma PrefixTransitive(a: seq<Action>, b: seq<Action>, c: seq<Action>)
    requires a <= b && b <= c
    ensures a <= c
  {
    assert c[..|a|] == b[..|a|];
  }

  lemma ProcessAppends(ctx: Context, issues: seq<Issue>, replies: nat -> IssueReplies, k: nat)
    requires k < |issues|
    ensures Process(ctx, issues, replies, k).actions <= Process(ctx, issues, replies, k + 1).actions
  {
    ProcessStep(ctx, issues, replies, k + 1);
  }

  /** The loop only ever appends: the trace over fewer issues is a prefix of
      the trace over more. */
  lemma {:induction false} ProcessExtends(ctx: Context, issues: seq<Issue>, replies: nat -> IssueReplies, m: nat, n: nat)
    requires m <= n <= |issues|
    ensures Process(ctx, issues, replies, m).actions <= Process(ctx, issues, replies, n).actions
    decreases n - m
  {
    if m < n {
      ProcessAppends(ctx, issues, replies, m);
      ProcessExtends(ctx, issues, replies, m + 1, n);
      PrefixTransitive(Process(ctx, issues, replies, m).actions, Process(ctx, issues, replies, m + 1).actions,
                       Process(ctx, issues, replies, n).actions);
    }
  }

  /** After an abort the remaining issues add nothing. */
  lemma {:induction false} AbortIsFinal(ctx: Context, issues: seq<Issue>, replies: nat -> IssueReplies, m: nat, n: nat)
    requires m <= n <= |issues|
    requires Process(ctx, issues, replies, m).abort.Some?
    ensures Process(ctx, issues, replies, n) == Process(ctx, issues, replies, m)
    decreases n - m
  {
    if m < n {
      AbortIsFinal(ctx, issues, replies, m, n - 1);
    }
  }

  // ------------------------------------------------------------ properties

  /** The actions of a trace that `keep` selects, in trace order. */
  function Filter(s: seq<Action>, keep: Action -> bool): (r: seq<Action>)
    ensures |r| <= |s|
  {
    if s == [] then [] else (if keep(s[0]) then [s[0]] else []) + Filter(s[1..], keep)
  }

  /** The selection holds exactly the actions of the trace that `keep` accepts. */
  lemma {:induction false} FilterMembers(s: seq<Action>, keep: Action -> bool)
    ensures forall a :: a in Filter(s, keep) <==> a in s && keep(a)
  {
    if s != [] {
      FilterMembers(s[1..], keep);
      assert s == [s[0]] + s[1..];
    }
  }

  lemma {:induction false} FilterAppend(s: seq<Action>, t: seq<Action>, keep: Action -> bool)
    ensures Filter(s + t, keep) == Filter(s, keep) + Filter(t, keep)
  {
    if s == [] {
      assert s + t == t;
    } else {
      var head := if keep(s[0]) then [s[0]] else [];
      assert (s + t)[0] == s[0];
      assert (s + t)[1..] == s[1..] + t;
      FilterAppend(s[1..], t, keep);
      calc {
        Filter(s + t, keep);
        head + Filter(s[1..] + t, keep);
        head + (Filter(s[1..], keep) + Filter(t, keep));
        (head + Filter(s[1..], keep)) + Filter(t, keep);
        Filter(s, keep) + Filter(t, keep);
      }
    }
  }

  /** A trace with nothing to keep filters to nothing. */
  lemma FilterNone(s: seq<Action>, keep: Action -> bool)
    requires forall a :: a in s ==> !keep(a)
    ensures Filter(s, keep) == []
  {
    FilterMembers(s, keep);
  }

  /** A trace with one action to keep filters to that action. */
  lemma FilterJust(before: seq<Action>, a: Action, after: seq<Action>, keep: Action -> bool)
    requires forall b :: b in before ==> !keep(b)
    requires forall b :: b in after ==> !keep(b)
    requires keep(a)
    ensures Filter(before + [a] + after, keep) == [a]
  {
    FilterAppend(before + [a], after, keep);
    FilterAppend(before, [a], keep);
    FilterNone(before, keep);
    FilterNone(after, keep);
    assert [a][1..] == [];
  }

  function IsNamingRequest(a: Action): bool { a.GenerateBranchName? }
  function IsBranchCreation(a: Action): bool { a.CreateBranch? }
  function IsFixRequest(a: Action): bool { a.GenerateFixCode? }
  function IsCommit(a: Action): bool { a.CommitFile? }

  /** The calls that act on one issue, as opposed to the two fetches. */
  predicate IsIssueWork(a: Action) {
    a.GenerateBranchName? || a.BranchExists? || a.CreateBranch? || a.GenerateFixCode? || a.CommitFile?
  }

  /** The only per-issue failure that ends the run: `branch_exists` failing. */
  predicate Aborts(r: IssueReplies) {
    r.naming.Ok? && r.presence.Err?
  }

  /** The issue has a branch to commit on: named, and found or created. */
  predicate Provisioned(r: IssueReplies) {
    r.naming.Ok? && (r.presence == Ok(true) || (r.presence == Ok(false) && r.creation.Ok?))
  }

  /** The branch creation an issue should cause: only when the name was found
      absent, from the run's base commit. */
  function ExpectedCreation(ctx: Context, r: IssueReplies): seq<Action> {
    if r.naming.Ok? && r.presence == Ok(false) then [CreateBranch(ctx.repo, r.naming.value, ctx.base)] else []
  }

  /** The fix request an issue should cause: once it has a branch. */
  function ExpectedFixRequest(ctx: Context, issue: Issue, r: IssueReplies): seq<Action> {
    if Provisioned(r) then [GenerateFixCode(issue.id, issue.title, issue.body, ctx.lang)] else []
  }

  /** The commit an issue should cause: once it has a branch and a fix, on
      that branch, with that file. */
  function ExpectedCommit(ctx: Context, r: IssueReplies): seq<Action> {
    if Provisioned(r) && r.generation.Ok?
    then [CommitFile(ctx.repo, r.naming.value, r.generation.value.path, r.generation.value.code)]
    else []
  }

  /** Within one issue the branch name is asked for once, first, from the
      issue's id and title. */
  lemma IssueStepNamesOnce(ctx: Context, issue: Issue, r: IssueReplies)
    ensures Filter(IssueStep(ctx, issue, r).actions, IsNamingRequest) == [GenerateBranchName(issue.id, issue.title)]
  {
    var actions := IssueStep(ctx, issue, r).actions;
    assert actions == [] + [actions[0]] + actions[1..];
    FilterJust([], actions[0], actions[1..], IsNamingRequest);
  }

  /** Within one issue a branch is created only when `branch_exists` said it
      is absent, and then from the run's base commit. */
  lemma IssueStepCreatesWhenAbsent(ctx: Context, issue: Issue, r: IssueReplies)
    ensures Filter(IssueStep(ctx, issue, r).actions, IsBranchCreation) == ExpectedCreation(ctx, r)
  {
    var actions := IssueStep(ctx, issue, r).actions;
    if r.naming.Ok? && r.presence == Ok(false) {
      var branch := r.naming.value;
      var before := [GenerateBranchName(issue.id, issue.title), BranchExists(ctx.repo, branch), Log(CreatingBranch(branch, issue.id))];
      var after := actions[4..];
      assert actions == before + [CreateBranch(ctx.repo, branch, ctx.base)] + after;
      FilterJust(before, CreateBranch(ctx.repo, branch, ctx.base), after, IsBranchCreation);
    } else {
      FilterNone(actions, IsBranchCreation);
    }
  }

  /** Within one issue the fix is asked for only once the branch exists or was
      created; a failed creation skips it. */
  lemma IssueStepFixesWhenProvisioned(ctx: Context, issue: Issue, r: IssueReplies)
    ensures Filter(IssueStep(ctx, issue, r).actions, IsFixRequest) == ExpectedFixRequest(ctx, issue, r)
  {
    var actions := IssueStep(ctx, issue, r).actions;
    if Provisioned(r) {
      var branch := r.naming.value;
      var tail := FixAndCommit(ctx, issue, branch, r);
      var before := if r.presence == Ok(true)
        then [GenerateBranchName(issue.id, issue.title), BranchExists(ctx.repo, branch), Log(BranchReused(branch))]
        else [GenerateBranchName(issue.id, issue.title), BranchExists(ctx.repo, branch),
              Log(CreatingBranch(branch, issue.id)), CreateBranch(ctx.repo, branch, ctx.base)];
      assert actions == before + tail;
      FixAndCommitFixesOnce(ctx, issue, branch, r);
      FilterNone(before, IsFixRequest);
      FilterAppend(before, tail, IsFixRequest);
    } else {
      FilterNone(actions, IsFixRequest);
    }
  }

  /** Generating and committing asks for the fix once, first. */
  lemma FixAndCommitFixesOnce(ctx: Context, issue: Issue, branch: string, r: IssueReplies)
    ensures Filter(FixAndCommit(ctx, issue, branch, r), IsFixRequest)
            == [GenerateFixCode(issue.id, issue.title, issue.body, ctx.lang)]
  {
    var tail := FixAndCommit(ctx, issue, branch, r);
    assert tail == [] + [tail[0]] + tail[1..];
    FilterJust([], tail[0], tail[1..], IsFixRequest);
  }

  /** Within one issue a commit is made exactly when naming, provisioning and
      generation all worked, on the generated branch with the generated file. */
  lemma IssueStepCommitsWhenReady(ctx: Context, issue: Issue, r: IssueReplies)
    ensures Filter(IssueStep(ctx, issue, r).actions, IsCommit) == ExpectedCommit(ctx, r)
  {
    var actions := IssueStep(ctx, issue, r).actions;
    if Provisioned(r) && r.generation.Ok? {
      var branch := r.naming.value;
      var fix := r.generation.value;
      var n := |actions|;
      assert actions[n - 2] == CommitFile(ctx.repo, branch, fix.path, fix.code);
      assert actions == actions[..n - 2] + [actions[n - 2]] + actions[n - 1..];
      FilterJust(actions[..n - 2], actions[n - 2], actions[n - 1..], IsCommit);
    } else {
      FilterNone(actions, IsCommit);
    }
  }

  /** Only a failing `branch_exists` stops the loop; it stops it with that error. */
  lemma IssueStepAborts(ctx: Context, issue: Issue, r: IssueReplies)
    ensures IssueStep(ctx, issue, r).abort == if Aborts(r) then Some(r.presence.error) else None
  {
  }

  // ---------------------------------------------------- the loop as a whole

  /** The position of the first issue whose `branch_exists` fails, or `n`. */
  function FirstAbort(replies: nat -> IssueReplies, n: nat): (k: nat)
    ensures k <= n
    ensures forall j :: 0 <= j < k ==> !Aborts(replies(j))
    ensures k < n ==> Aborts(replies(k))
  {
    if n == 0 then 0
    else
      var k := FirstAbort(replies, n - 1);
      if k < n - 1 then k else if Aborts(replies(n - 1)) then n - 1 else n
  }

  /** How many of the first `n` issues the loop gets to: all of them, or up to
      and including the first whose `branch_exists` fails. */
  function Visited(replies: nat -> IssueReplies, n: nat): nat {
    var k := FirstAbort(replies, n);
    if k < n then k + 1 else n
  }

  /** One more issue moves the count of visited issues on only when no
      earlier issue aborted. */
  lemma VisitedStep(replies: nat -> IssueReplies, n: nat)
    requires n > 0
    ensures FirstAbort(replies, n - 1) < n - 1 ==> Visited(replies, n) == Visited(replies, n - 1)
    ensures FirstAbort(replies, n - 1) == n - 1 ==> Visited(replies, n - 1) == n - 1 && Visited(replies, n) == n
  {
  }

  /** The loop stops with an error exactly at the first issue whose
      `branch_exists` fails, and with that error. */
  lemma {:induction false} ProcessAborts(ctx: Context, issues: seq<Issue>, replies: nat -> IssueReplies, n: nat)
    requires n <= |issues|
    ensures Process(ctx, issues, replies, n).abort
            == if FirstAbort(replies, n) < n then Some(replies(FirstAbort(replies, n)).presence.error) else None
  {
    if n > 0 {
      ProcessAborts(ctx, issues, replies, n - 1);
      IssueStepAborts(ctx, issues[n - 1], replies(n - 1));
    }
  }

  /** The concatenation of `part(i)` for `i` below `m`. */
  function Concat(part: nat -> seq<Action>, m: nat): seq<Action> {
    if m == 0 then [] else Concat(part, m - 1) + part(m - 1)
  }

  /** One more issue adds its own actions to the loop's, unless the loop has
      already stopped. */
  lemma ProcessStep(ctx: Context, issues: seq<Issue>, replies: nat -> IssueReplies, n: nat)
    requires 0 < n <= |issues|
    ensures Process(ctx, issues, replies, n - 1).abort.Some? ==>
              Process(ctx, issues, replies, n) == Process(ctx, issues, replies, n - 1)
    ensures Process(ctx, issues, replies, n - 1).abort.None? ==>
              Process(ctx, issues, replies, n).actions
              == Process(ctx, issues, replies, n - 1).actions + IssueStep(ctx, issues[n - 1], replies(n - 1)).actions
  {
  }

  /** The loop has not stopped before issue `n` exactly when it visits all of
      the first `n` issues. */
  lemma VisitedByProcess(ctx: Context, issues: seq<Issue>, replies: nat -> IssueReplies, n: nat)
    requires 0 < n <= |issues|
    ensures Process(ctx, issues, replies, n - 1).abort.Some? ==> Visited(replies, n) == Visited(replies, n - 1)
    ensures Process(ctx, issues, replies, n - 1).abort.None? ==> Visited(replies, n - 1) == n - 1 && Visited(replies, n) == n
  {
    ProcessAborts(ctx, issues, replies, n - 1);
    VisitedStep(replies, n);
  }

  /** Selecting from one more issue's actions extends the selection from the
      loop's by that issue's part, when the loop gets to that issue. */
  lemma ProcessFilteredStep(ctx: Context, issues: seq<Issue>, replies: nat -> IssueReplies, m: nat,
                            keep: Action -> bool, part: nat -> seq<Action>)
    requires m < |issues|
    requires Filter(Process(ctx, issues, replies, m).actions, keep) == Concat(part, Visited(replies, m))
    requires Filter(IssueStep(ctx, issues[m], replies(m)).actions, keep) == part(m)
    ensures Filter(Process(ctx, issues, replies, m + 1).actions, keep) == Concat(part, Visited(replies, m + 1))
  {
    ProcessStep(ctx, issues, replies, m + 1);
    VisitedByProcess(ctx, issues, replies, m + 1);
    var done := Process(ctx, issues, replies, m);
    if done.abort.None? {
      FilterAppend(done.actions, IssueStep(ctx, issues[m], replies(m)).actions, keep);
    }
  }

  /** Any selection of the loop's actions is the concatenation, over the
      visited issues in order, of that selection within each issue. */
  lemma {:induction false} ProcessFiltered(ctx: Context, issues: seq<Issue>, replies: nat -> IssueReplies, n: nat,
                                           keep: Action -> bool, part: nat -> seq<Action>)
    requires n <= |issues|
    requires forall i :: 0 <= i < n ==> Filter(IssueStep(ctx, issues[i], replies(i)).actions, keep) == part(i)
    ensures Filter(Process(ctx, issues, replies, n).actions, keep) == Concat(part, Visited(replies, n))
  {
    if n > 0 {
      var m := n - 1;
      ProcessFiltered(ctx, issues, replies, m, keep, part);
      ProcessFilteredStep(ctx, issues, replies, m, keep, part);
    }
  }

  /** The branch-name requests for the given issues, in order. */
  function NamingRequests(issues: seq<Issue>): seq<Action> {
    seq(|issues|, i requires 0 <= i < |issues| => GenerateBranchName(issues[i].id, issues[i].title))
  }

  lemma {:induction false} ConcatNaming(issues: seq<Issue>, m: nat)
    requires m <= |issues|
    ensures Concat((i: nat) => if i < |issues| then [GenerateBranchName(issues[i].id, issues[i].title)] else [], m)
            == NamingRequests(issues[..m])
  {
    if m > 0 {
      ConcatNaming(issues, m - 1);
      assert issues[..m] == issues[..m - 1] + [issues[m - 1]];
    }
  }

  /** The loop visits the issues once each, in the order fetched, asking for
      each branch name from the issue's id and title; it gets to every issue
      unless a `branch_exists` fails, and then to no issue after that one. */
  lemma ProcessVisitsInOrder(ctx: Context, issues: seq<Issue>, replies: nat -> IssueReplies)
    ensures Filter(Process(ctx, issues, replies, |issues|).actions, IsNamingRequest)
            == NamingRequests(issues[..Visited(replies, |issues|)])
  {
    var part := (i: nat) => if i < |issues| then [GenerateBranchName(issues[i].id, issues[i].title)] else [];
    forall i | 0 <= i < |issues|
      ensures Filter(IssueStep(ctx, issues[i], replies(i)).actions, IsNamingRequest) == part(i)
    {
      IssueStepNamesOnce(ctx, issues[i], replies(i));
    }
    ProcessFiltered(ctx, issues, replies, |issues|, IsNamingRequest, part);
    ConcatNaming(issues, Visited(replies, |issues|));
  }

  /** The loop's commits: one per visited issue that got a branch and a fix,
      in issue order. */
  lemma ProcessCommits(ctx: Context, issues: seq<Issue>, replies: nat -> IssueReplies)
    ensures Filter(Process(ctx, issues, replies, |issues|).actions, IsCommit)
            == Concat((i: nat) => ExpectedCommit(ctx, replies(i)), Visited(replies, |issues|))
  {
    forall i | 0 <= i < |issues|
      ensures Filter(IssueStep(ctx, issues[i], replies(i)).actions, IsCommit) == ExpectedCommit(ctx, replies(i))
    {
      IssueStepCommitsWhenReady(ctx, issues[i], replies(i));
    }
    ProcessFiltered(ctx, issues, replies, |issues|, IsCommit, (i: nat) => ExpectedCommit(ctx, replies(i)));
  }

  /** The loop's branch creations: one per visited issue whose branch was
      found absent, each from the base commit. */
  lemma ProcessCreations(ctx: Context, issues: seq<Issue>, replies: nat -> IssueReplies)
    ensures Filter(Process(ctx, issues, replies, |issues|).actions, IsBranchCreation)
            == Concat((i: nat) => ExpectedCreation(ctx, replies(i)), Visited(replies, |issues|))
  {
    forall i | 0 <= i < |issues|
      ensures Filter(IssueStep(ctx, issues[i], replies(i)).actions, IsBranchCreation) == ExpectedCreation(ctx, replies(i))
    {
      IssueStepCreatesWhenAbsent(ctx, issues[i], replies(i));
    }
    ProcessFiltered(ctx, issues, replies, |issues|, IsBranchCreation, (i: nat) => ExpectedCreation(ctx, replies(i)));
  }

  // ------------------------------------------------------- the run as a whole

  /** Without a base commit the run fails at once: issues are not even fetched. */
  lemma BaseCommitFailureStopsRun(w: World)
    requires w.latestCommit.Err?
    ensures Run(w).result == Err(w.latestCommit.error)
    ensures Run(w).trace == [GetLatestCommit(RepoPath(w.workspace, w.repoSlug))]
  {
  }

  /** When fetching the issues fails or finds none, the run succeeds and works
      on no issue. */
  lemma NoIssuesNoWork(w: World)
    requires w.latestCommit.Ok?
    requires w.issues.Err? || w.issues.value == []
    ensures Run(w).result == Ok(())
    ensures forall a :: a in Run(w).trace ==> !IsIssueWork(a)
  {
  }

  /** The run fails after fetching the issues only because a `branch_exists`
      failed, with that error, and the issues it visits are exactly those up to
      that one, in order; otherwise it visits every issue and succeeds. */
  lemma RunVisitsIssuesInOrder(w: World)
    requires w.latestCommit.Ok? && w.issues.Ok?
    ensures var issues := w.issues.value;
            var k := FirstAbort(w.replies, |issues|);
            && Run(w).result == (if k < |issues| then Err(w.replies(k).presence.error) else Ok(()))
            && Filter(Run(w).trace, IsNamingRequest) == NamingRequests(issues[..Visited(w.replies, |issues|)])
  {
    var issues := w.issues.value;
    var ctx := ContextOf(w, w.latestCommit.value);
    var repo := RepoPath(w.workspace, w.repoSlug);
    var head := [GetLatestCommit(repo), Log(BaseCommit(w.latestCommit.value)), FetchIssues(repo)];
    FilterNone(head, IsNamingRequest);
    if issues == [] {
      FilterNone(head + [Log(NoIssues)], IsNamingRequest);
    } else {
      ProcessAborts(ctx, issues, w.replies, |issues|);
      ProcessVisitsInOrder(ctx, issues, w.replies);
      FilterAppend(head, Process(ctx, issues, w.replies, |issues|).actions, IsNamingRequest);
    }
  }

  /** The run commits once for every visited issue that got a branch and a
      fix, in issue order, on that issue's branch with that issue's file. */
  lemma RunCommitsExactlyWhenReady(w: World)
    requires w.latestCommit.Ok? && w.issues.Ok?
    ensures Filter(Run(w).trace, IsCommit)
            == Concat((i: nat) => ExpectedCommit(ContextOf(w, w.latestCommit.value), w.replies(i)), Visited(w.replies, |w.issues.value|))
  {
    var issues := w.issues.value;
    var ctx := ContextOf(w, w.latestCommit.value);
    var repo := RepoPath(w.workspace, w.repoSlug);
    var head := [GetLatestCommit(repo), Log(BaseCommit(w.latestCommit.value)), FetchIssues(repo)];
    FilterNone(head, IsCommit);
    if issues == [] {
      FilterNone(head + [Log(NoIssues)], IsCommit);
    } else {
      ProcessCommits(ctx, issues, w.replies);
      FilterAppend(head, Process(ctx, issues, w.replies, |issues|).actions, IsCommit);
    }
  }

  /** The run's branch creations: one per visited issue whose branch was
      found absent, each from the one base commit of the run. */
  lemma RunCreatesOnlyWhenAbsent(w: World)
    requires w.latestCommit.Ok? && w.issues.Ok?
    ensures Filter(Run(w).trace, IsBranchCreation)
            == Concat((i: nat) => ExpectedCreation(ContextOf(w, w.latestCommit.value), w.replies(i)), Visited(w.replies, |w.issues.value|))
  {
    var issues := w.issues.value;
    var ctx := ContextOf(w, w.latestCommit.value);
    var repo := RepoPath(w.workspace, w.repoSlug);
    var head := [GetLatestCommit(repo), Log(BaseCommit(w.latestCommit.value)), FetchIssues(repo)];
    FilterNone(head, IsBranchCreation);
    if issues == [] {
      FilterNone(head + [Log(NoIssues)], IsBranchCreation);
    } else {
      ProcessCreations(ctx, issues, w.replies);
      FilterAppend(head, Process(ctx, issues, w.replies, |issues|).actions, IsBranchCreation);
    }
  }

  /** An action agrees with the run's fixed values: its repository, the base
      commit new branches start from, and the language fixes are written in. */
  predicate UsesContext(ctx: Context, a: Action) {
    match a
    case GetLatestCommit(repo) => repo == ctx.repo
    case FetchIssues(repo) => repo == ctx.repo
    case BranchExists(repo, _) => repo == ctx.repo
    case CreateBranch(repo, _, fromCommit) => repo == ctx.repo && fromCommit == ctx.base
    case GenerateFixCode(_, _, _, language) => language == ctx.lang
    case CommitFile(repo, _, _, _) => repo == ctx.repo
    case _ => true
  }

  lemma IssueStepUsesContext(ctx: Context, issue: Issue, r: IssueReplies)
    ensures forall a :: a in IssueStep(ctx, issue, r).actions ==> UsesContext(ctx, a)
  {
  }

  lemma {:induction false} ProcessUsesContext(ctx: Context, issues: seq<Issue>, replies: nat -> IssueReplies, n: nat)
    requires n <= |issues|
    ensures forall a :: a in Process(ctx, issues, replies, n).actions ==> UsesContext(ctx, a)
  {
    if n > 0 {
      ProcessUsesContext(ctx, issues, replies, n - 1);
      IssueStepUsesContext(ctx, issues[n - 1], replies(n - 1));
    }
  }

  /** Every call of a run addresses the repository "workspace/slug", every
      branch is created from the run's single base commit, and every fix is
      asked for in DEFAULT_LANG, or "javascript" when it is not set. */
  lemma RunUsesOneContext(w: World)
    requires w.latestCommit.Ok?
    ensures forall a :: a in Run(w).trace ==> UsesContext(ContextOf(w, w.latestCommit.value), a)
    ensures ContextOf(w, w.latestCommit.value).lang == if w.defaultLang.Some? then w.defaultLang.value else "javascript"
  {
    if w.issues.Ok? && w.issues.value != [] {
      ProcessUsesContext(ContextOf(w, w.latestCommit.value), w.issues.value, w.replies, |w.issues.value|);
    }
  }

  /** Two issues: the first goes through to a commit, naming the second fails.
      The run still reaches the second issue, makes exactly one commit and
      succeeds. */
  lemma TwoIssuesOneCommit(first: Issue, second: Issue, branch: string, fix: GeneratedFix, failure: Error)
    ensures var good := IssueReplies(Ok(branch), Ok(false), Ok(()), Ok(fix), Ok(()));
            var bad := IssueReplies(Err(failure), Ok(false), Ok(()), Ok(fix), Ok(()));
            var w := World("team", "app", None, Ok("c0ffee"), Ok([first, second]), (i: nat) => if i == 0 then good else bad);
            && Run(w).result == Ok(())
            && Filter(Run(w).trace, IsNamingRequest)
               == [GenerateBranchName(first.id, first.title), GenerateBranchName(second.id, second.title)]
            && Filter(Run(w).trace, IsCommit) == [CommitFile("team/app", branch, fix.path, fix.code)]
  {
    var good := IssueReplies(Ok(branch), Ok(false), Ok(()), Ok(fix), Ok(()));
    var bad := IssueReplies(Err(failure), Ok(false), Ok(()), Ok(fix), Ok(()));
    var w := World("team", "app", None, Ok("c0ffee"), Ok([first, second]), (i: nat) => if i == 0 then good else bad);
    assert FirstAbort(w.replies, 2) == 2;
    RunVisitsIssuesInOrder(w);
    RunCommitsExactlyWhenReady(w);
    assert [first, second][..2] == [first, second];
    assert RepoPath("team", "app") == "team/app";
  }
}
