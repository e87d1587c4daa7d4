/**
 * The `review` command: find the pull requests that request my review and post
 * an "@codex review" comment on those with commits newer than the last such
 * comment. The `gh` CLI, its JSON output and the confirmation prompt are inputs.
 */
module Review {
  import opened Common
  import opened Strings

  /** One entry of `comments` in `gh pr view --json comments,commits`; a missing key is None. */
  datatype Comment = Comment(body: Option<string>, createdAt: Option<string>)

  /** One entry of `commits` in the same output. */
  datatype Commit = Commit(committedDate: Option<string>)

  /** What `gh pr view` reports for one pull request; a missing key is None. */
  datatype PrDetails = PrDetails(comments: Option<seq<Comment>>, commits: Option<seq<Commit>>)

  /** One entry of `gh pr list --json number,url,title`. */
  datatype PullRequest = PullRequest(number: int, url: string, title: string)

  const CodexReview := "@codex review"

  /** Python's truth value of a `str | None`: present and non-empty. */
  predicate Present(t: Option<string>) {
    t.Some? && t.value != ""
  }

  /** The comment asks for a codex review: its body (`""` when missing) contains the request. */
  predicate IsReviewRequest(c: Comment) {
    Contains(c.body.GetOr(""), CodexReview)
  }

  /** The timestamp a comment contributes to the search: its `createdAt` if it is a review request. */
  function ReviewStamp(c: Comment): Option<string> {
    if IsReviewRequest(c) then c.createdAt else None
  }

  function ReviewStamps(comments: seq<Comment>): seq<Option<string>> {
    seq(|comments|, i requires 0 <= i < |comments| => ReviewStamp(comments[i]))
  }

  function CommitStamps(commits: seq<Commit>): seq<Option<string>> {
    seq(|commits|, i requires 0 <= i < |commits| => commits[i].committedDate)
  }

  /** One step of the scan: keep `acc` unless `t` is present and later. */
  function Later(acc: Option<string>, t: Option<string>): Option<string> {
    if Present(t) && (acc.None? || Less(acc.value, t.value)) then t else acc
  }

  /** The running maximum after scanning `ts` from left to right. */
  function Latest(ts: seq<Option<string>>): Option<string>
    decreases |ts|
  {
    if ts == [] then None else Later(Latest(ts[..|ts| - 1]), ts[|ts| - 1])
  }

  /** `t` is a present stamp of `ts` that no present stamp of `ts` exceeds. */
  ghost predicate IsLatest(t: string, ts: seq<Option<string>>) {
    && t != ""
    && Some(t) in ts
    && forall x :: x in ts && Present(x) ==> !Less(t, x.value)
  }

  /** The scan yields nothing exactly when no stamp is present, and otherwise the greatest one. */
  lemma {:induction false} LatestSpec(ts: seq<Option<string>>)
    ensures Latest(ts).None? <==> forall x :: x in ts ==> !Present(x)
    ensures Latest(ts).Some? ==> IsLatest(Latest(ts).value, ts)
    decreases |ts|
  {
    if ts != [] {
      var init, t := ts[..|ts| - 1], ts[|ts| - 1];
      assert ts == init + [t];
      LatestSpec(init);
      var acc := Latest(init);
      if Present(t) && (acc.None? || Less(acc.value, t.value)) {
        forall x | x in ts && Present(x)
          ensures !Less(t.value, x.value)
        {
          if x in init {
            if Less(t.value, x.value) {
              LessTransitive(acc.value, t.value, x.value);
            }
          } else {
            LessIrreflexive(t.value);
          }
        }
      } else if Present(t) {
        LessTotal(acc.value, t.value);
      }
    }
  }

  /** Under the total order on strings there is only one greatest stamp. */
  lemma LatestUnique(t: string, u: string, ts: seq<Option<string>>)
    requires IsLatest(t, ts) && IsLatest(u, ts)
    ensures t == u
  {
    assert Present(Some(t)) && Present(Some(u));
    LessTotal(t, u);
  }

  /** The scan's result depends only on which stamps occur, not on their order. */
  lemma LatestOrderFree(ts: seq<Option<string>>, us: seq<Option<string>>)
    requires forall x :: x in ts <==> x in us
    ensures Latest(ts) == Latest(us)
  {
    LatestSpec(ts);
    LatestSpec(us);
    if Latest(ts).Some? && Latest(us).Some? {
      LatestUnique(Latest(ts).value, Latest(us).value, ts);
    }
  }

  /** `get_last_codex_review_time`, as a value: what the scan of the comments yields. */
  function LastReview(comments: seq<Comment>): Option<string> {
    Latest(ReviewStamps(comments))
  }

  /** `get_latest_commit_time`, as a value: what the scan of the commits yields. */
  function LatestCommit(commits: seq<Commit>): Option<string> {
    Latest(CommitStamps(commits))
  }

  lemma ReviewStampsMembers(comments: seq<Comment>)
    ensures forall x :: x in ReviewStamps(comments) <==> exists c :: c in comments && ReviewStamp(c) == x
  {
    var ts := ReviewStamps(comments);
    forall x | x in ts
      ensures exists c :: c in comments && ReviewStamp(c) == x
    {
      var i :| 0 <= i < |ts| && ts[i] == x;
      assert comments[i] in comments;
    }
    forall c | c in comments
      ensures ReviewStamp(c) in ts
    {
      var i :| 0 <= i < |comments| && comments[i] == c;
      assert ts[i] == ReviewStamp(c);
    }
  }

  lemma CommitStampsMembers(commits: seq<Commit>)
    ensures forall x :: x in CommitStamps(commits) <==> exists c :: c in commits && c.committedDate == x
  {
    var ts := CommitStamps(commits);
    forall x | x in ts
      ensures exists c :: c in commits && c.committedDate == x
    {
      var i :| 0 <= i < |ts| && ts[i] == x;
      assert commits[i] in commits;
    }
    forall c | c in commits
      ensures c.committedDate in ts
    {
      var i :| 0 <= i < |commits| && commits[i] == c;
      assert ts[i] == c.committedDate;
    }
  }

  /**
   * `get_last_codex_review_time`: the greatest `createdAt` among the comments
   * whose body mentions "@codex review", None when there is no such comment
   * with a non-empty `createdAt`.
   */
  method GetLastCodexReviewTime(comments: seq<Comment>) returns (lastTime: Option<string>)
    ensures lastTime == LastReview(comments)
    ensures lastTime.None? <==> forall c :: c in comments && IsReviewRequest(c) ==> !Present(c.createdAt)
    ensures lastTime.Some? ==>
      && lastTime.value != ""
      && (exists c :: c in comments && IsReviewRequest(c) && c.createdAt == lastTime)
      && (forall c :: c in comments && IsReviewRequest(c) && Present(c.createdAt) ==> !Less(lastTime.value, c.createdAt.value))
  {
    lastTime := None;
    for i := 0 to |comments|
      invariant lastTime == Latest(ReviewStamps(comments)[..i])
    {
      assert ReviewStamps(comments)[..i + 1][..i] == ReviewStamps(comments)[..i];
      var comment := comments[i];
      if Contains(comment.body.GetOr(""), CodexReview) {
        var createdAt := comment.createdAt;
        if Present(createdAt) && (lastTime.None? || Less(lastTime.value, createdAt.value)) {
          lastTime := createdAt;
        }
      }
    }
    assert ReviewStamps(comments)[..|comments|] == ReviewStamps(comments);
    LatestSpec(ReviewStamps(comments));
    ReviewStampsMembers(comments);
    if lastTime.Some? {
      forall c | c in comments && IsReviewRequest(c) && Present(c.createdAt)
        ensures !Less(lastTime.value, c.createdAt.value)
      {
        assert ReviewStamp(c) in ReviewStamps(comments);
      }
    } else {
      forall c | c in comments && IsReviewRequest(c)
        ensures !Present(c.createdAt)
      {
        assert ReviewStamp(c) in ReviewStamps(comments);
      }
    }
  }

  /**
   * `get_latest_commit_time`: the greatest non-empty `committedDate`, None
   * when no commit has one.
   */
  method GetLatestCommitTime(commits: seq<Commit>) returns (latestTime: Option<string>)
    ensures latestTime == LatestCommit(commits)
    ensures latestTime.None? <==> forall c :: c in commits ==> !Present(c.committedDate)
    ensures latestTime.Some? ==>
      && latestTime.value != ""
      && (exists c :: c in commits && c.committedDate == latestTime)
      && (forall c :: c in commits && Present(c.committedDate) ==> !Less(latestTime.value, c.committedDate.value))
  {
    latestTime := None;
    for i := 0 to |commits|
      invariant latestTime == Latest(CommitStamps(commits)[..i])
    {
      assert CommitStamps(commits)[..i + 1][..i] == CommitStamps(commits)[..i];
      var committedDate := commits[i].committedDate;
      if Present(committedDate) && (latestTime.None? || Less(latestTime.value, committedDate.value)) {
        latestTime := committedDate;
      }
    }
    assert CommitStamps(commits)[..|commits|] == CommitStamps(commits);
    LatestSpec(CommitStamps(commits));
    CommitStampsMembers(commits);
    if latestTime.Some? {
      forall c | c in commits && Present(c.committedDate)
        ensures !Less(latestTime.value, c.committedDate.value)
      {
        assert c.committedDate in CommitStamps(commits);
      }
    }
  }

  /** Both searches give the same answer on any reordering of their input. */
  lemma SearchesOrderFree(comments: seq<Comment>, comments': seq<Comment>, commits: seq<Commit>, commits': seq<Commit>)
    requires multiset(comments) == multiset(comments')
    requires multiset(commits) == multiset(commits')
    ensures LastReview(comments) == LastReview(comments')
    ensures LatestCommit(commits) == LatestCommit(commits')
  {
    ReviewStampsMembers(comments);
    ReviewStampsMembers(comments');
    forall x
      ensures x in ReviewStamps(comments) <==> x in ReviewStamps(comments')
    {
      if x in ReviewStamps(comments) {
        var c :| c in comments && ReviewStamp(c) == x;
        assert c in multiset(comments');
      }
      if x in ReviewStamps(comments') {
        var c :| c in comments' && ReviewStamp(c) == x;
        assert c in multiset(comments);
      }
    }
    LatestOrderFree(ReviewStamps(comments), ReviewStamps(comments'));
    CommitStampsMembers(commits);
    CommitStampsMembers(commits');
    forall x
      ensures x in CommitStamps(commits) <==> x in CommitStamps(commits')
    {
      if x in CommitStamps(commits) {
        var c :| c in commits && c.committedDate == x;
        assert c in multiset(commits');
      }
      if x in CommitStamps(commits') {
        var c :| c in commits' && c.committedDate == x;
        assert c in multiset(commits);
      }
    }
    LatestOrderFree(CommitStamps(commits), CommitStamps(commits'));
  }

  /** The `(bool, str)` pair `needs_review` returns. */
  datatype Verdict = Verdict(needed: bool, reason: string)

  const NoReviewComment := "No '@codex review' comment found"
  const NewCommits := "New commits after last review"
  const AlreadyReviewed := "Already reviewed, no new commits"

  /** `needs_review`: does the pull request need a new "@codex review" comment, and why. */
  function NeedsReview(comments: seq<Comment>, commits: seq<Commit>): (v: Verdict)
    ensures v.reason == NoReviewComment || v.reason == NewCommits || v.reason == AlreadyReviewed
    ensures v.needed <==> v.reason != AlreadyReviewed
  {
    var lastReview := LastReview(comments);
    if lastReview.None? then Verdict(true, NoReviewComment)
    else
      var latestCommit := LatestCommit(commits);
      if Present(latestCommit) && Less(lastReview.value, latestCommit.value) then Verdict(true, NewCommits)
      else Verdict(false, AlreadyReviewed)
  }

  /** Without a dated review-request comment a review is needed, whatever the commits. */
  lemma NeedsReviewWithoutRequest(comments: seq<Comment>, commits: seq<Commit>)
    requires forall c :: c in comments && IsReviewRequest(c) ==> !Present(c.createdAt)
    ensures NeedsReview(comments, commits) == Verdict(true, NoReviewComment)
  {
    LatestSpec(ReviewStamps(comments));
    ReviewStampsMembers(comments);
  }

  /**
   * Once the last review request is at `t`, a review is needed exactly when
   * some commit is strictly later than `t`; a commit at `t` itself is not newer.
   */
  lemma NeedsReviewAfter(comments: seq<Comment>, commits: seq<Commit>)
    requires LastReview(comments).Some?
    ensures var t := LastReview(comments).value;
      NeedsReview(comments, commits) ==
        if exists c :: c in commits && Present(c.committedDate) && Less(t, c.committedDate.value)
        then Verdict(true, NewCommits)
        else Verdict(false, AlreadyReviewed)
  {
    var t := LastReview(comments).value;
    var ts := CommitStamps(commits);
    LatestSpec(ts);
    CommitStampsMembers(commits);
    var latest := LatestCommit(commits);
    if exists c :: c in commits && Present(c.committedDate) && Less(t, c.committedDate.value) {
      var c :| c in commits && Present(c.committedDate) && Less(t, c.committedDate.value);
      assert c.committedDate in ts;
      LessTotal(latest.value, c.committedDate.value);
      if latest.value != c.committedDate.value {
        LessTransitive(t, c.committedDate.value, latest.value);
      }
    } else if Present(latest) {
      assert latest in ts;
      var c :| c in commits && c.committedDate == latest;
    }
  }

  /** A latest commit carrying the same timestamp as the last review request does not trigger a review. */
  lemma SameTimestampAlreadyReviewed(comments: seq<Comment>, commits: seq<Commit>)
    requires LastReview(comments).Some? && LatestCommit(commits) == LastReview(comments)
    ensures NeedsReview(comments, commits) == Verdict(false, AlreadyReviewed)
  {
    LessIrreflexive(LastReview(comments).value);
  }

  /** A review request later than every commit means the pull request is already reviewed. */
  lemma ReviewAfterLatestCommit(comments: seq<Comment>, commits: seq<Commit>)
    requires LastReview(comments).Some? && LatestCommit(commits).Some?
    requires Less(LatestCommit(commits).value, LastReview(comments).value)
    ensures NeedsReview(comments, commits) == Verdict(false, AlreadyReviewed)
  {
    LessAsymmetric(LatestCommit(commits).value, LastReview(comments).value);
  }

  /** The three `gh` command prefixes the tool builds. */
  const ListPrefix: seq<string> := ["pr", "list", "--json", "number,url,title", "--search", "review-requested:@me"]

  function ViewPrefix(prNumber: int): seq<string> {
    ["pr", "view", IntToString(prNumber), "--json", "comments,commits"]
  }

  function CommentPrefix(prNumber: int, body: string): seq<string> {
    ["pr", "comment", IntToString(prNumber), "--body", body]
  }

  /** A command's arguments: its fixed prefix, then `--repo repo` exactly when `repo` is non-empty. */
  function WithRepo(prefix: seq<string>, repo: Option<string>): (args: seq<string>)
    ensures |args| >= |prefix| && args[..|prefix|] == prefix
    ensures Present(repo) <==> |args| > |prefix|
    ensures Present(repo) ==> args[|prefix|..] == ["--repo", repo.value]
  {
    if Present(repo) then prefix + ["--repo", repo.value] else prefix
  }

  /** The arguments `get_review_requested_prs` passes to `gh`. */
  method ReviewRequestedArgs(repo: Option<string>) returns (args: seq<string>)
    ensures args == WithRepo(ListPrefix, repo)
  {
    args := ListPrefix;
    if Present(repo) {
      args := args + ["--repo", repo.value];
    }
  }

  /** The arguments `get_pr_details` passes to `gh`. */
  method PrDetailsArgs(prNumber: int, repo: Option<string>) returns (args: seq<string>)
    ensures args == WithRepo(ViewPrefix(prNumber), repo)
  {
    args := ["pr", "view", IntToString(prNumber), "--json", "comments,commits"];
    if Present(repo) {
      args := args + ["--repo", repo.value];
    }
  }

  /** The arguments `add_pr_comment` passes to `gh`. */
  method PrCommentArgs(prNumber: int, body: string, repo: Option<string>) returns (args: seq<string>)
    ensures args == WithRepo(CommentPrefix(prNumber, body), repo)
  {
    args := ["pr", "comment", IntToString(prNumber), "--body", body];
    if Present(repo) {
      args := args + ["--repo", repo.value];
    }
  }

  /** Commands for different pull requests differ: the number is printed in a way that can be read back. */
  lemma CommentArgsDistinct(n: int, m: int, body: string, repo: Option<string>)
    requires n != m
    ensures WithRepo(CommentPrefix(n, body), repo) != WithRepo(CommentPrefix(m, body), repo)
  {
    var a, b := WithRepo(CommentPrefix(n, body), repo), WithRepo(CommentPrefix(m, body), repo);
    assert a[2] == a[..5][2] == IntToString(n);
    assert b[2] == b[..5][2] == IntToString(m);
    IntToStringRoundTrip(n);
    IntToStringRoundTrip(m);
    assert IntToString(n) != IntToString(m);
  }

  /** What the command does with one pull request. */
  datatype Action = Skipped | WouldComment | Commented | Declined

  /** The prompt is shown only when a review is needed, this is no dry run and `--auto` is off. */
  predicate Prompts(needed: bool, dryRun: bool, auto: bool) {
    needed && !dryRun && !auto
  }

  /**
   * The per-PR choice in `review`; `confirmed` is the user's answer to the
   * prompt and only matters when `Prompts` holds.
   */
  function ChooseAction(needed: bool, dryRun: bool, auto: bool, confirmed: bool): (a: Action)
    ensures !needed ==> a == Skipped
    ensures needed && dryRun ==> a == WouldComment
    ensures a == Commented <==> needed && !dryRun && (auto || confirmed)
    ensures needed && !dryRun && !auto && !confirmed ==> a == Declined
  {
    if !needed then Skipped
    else if dryRun then WouldComment
    else if auto || confirmed then Commented
    else Declined
  }

  /** The answer to the prompt changes nothing when no prompt is shown. */
  lemma AnswerOnlyMattersWhenPrompted(needed: bool, dryRun: bool, auto: bool)
    requires !Prompts(needed, dryRun, auto)
    ensures ChooseAction(needed, dryRun, auto, true) == ChooseAction(needed, dryRun, auto, false)
  {
  }

  /** The verdict for one pull request, from what `gh pr view` reported (missing lists are empty). */
  function VerdictFor(d: PrDetails): Verdict {
    NeedsReview(d.comments.GetOr([]), d.commits.GetOr([]))
  }

  /** The action `review` takes on `pr`, the `i`-th pull request listed. */
  function ActionFor(pr: PullRequest, i: nat, dryRun: bool, auto: bool, fetch: int -> PrDetails, answer: nat -> bool): Action {
    ChooseAction(VerdictFor(fetch(pr.number)).needed, dryRun, auto, answer(i))
  }

  /** The actions `review` takes on the listed pull requests, in order. */
  function Actions(prs: seq<PullRequest>, dryRun: bool, auto: bool, fetch: int -> PrDetails, answer: nat -> bool): (r: seq<Action>)
    ensures |r| == |prs|
    decreases |prs|
  {
    if prs == [] then []
    else Actions(prs[..|prs| - 1], dryRun, auto, fetch, answer) + [ActionFor(prs[|prs| - 1], |prs| - 1, dryRun, auto, fetch, answer)]
  }

  lemma {:induction false} ActionsAt(prs: seq<PullRequest>, dryRun: bool, auto: bool, fetch: int -> PrDetails, answer: nat -> bool, i: int)
    requires 0 <= i < |prs|
    ensures Actions(prs, dryRun, auto, fetch, answer)[i] == ActionFor(prs[i], i, dryRun, auto, fetch, answer)
    decreases |prs|
  {
    var k := |prs| - 1;
    var init := prs[..k];
    assert Actions(prs, dryRun, auto, fetch, answer)
      == Actions(init, dryRun, auto, fetch, answer) + [ActionFor(prs[k], k, dryRun, auto, fetch, answer)];
    if i < k {
      ActionsAt(init, dryRun, auto, fetch, answer, i);
      assert init[i] == prs[i];
    }
  }

  lemma ActionsStep(prs: seq<PullRequest>, i: int, dryRun: bool, auto: bool, fetch: int -> PrDetails, answer: nat -> bool)
    requires 0 <= i < |prs|
    ensures Actions(prs[..i + 1], dryRun, auto, fetch, answer)
      == Actions(prs[..i], dryRun, auto, fetch, answer) + [ActionFor(prs[i], i, dryRun, auto, fetch, answer)]
  {
    assert prs[..i + 1][..i] == prs[..i];
  }

  /** The `gh pr comment` arguments that post the review request on pull request `n`. */
  function CommentArgs(n: int, repo: Option<string>): seq<string> {
    WithRepo(CommentPrefix(n, CodexReview), repo)
  }

  /** The `gh` commands the loop issues for one pull request: fetch its details, then maybe comment. */
  function PrCommands(pr: PullRequest, action: Action, repo: Option<string>): seq<seq<string>> {
    [WithRepo(ViewPrefix(pr.number), repo)] + (if action == Commented then [CommentArgs(pr.number, repo)] else [])
  }

  /** The `gh` commands the loop issues for the pull requests, in order. */
  function LoopCommands(prs: seq<PullRequest>, actions: seq<Action>, repo: Option<string>): seq<seq<string>>
    requires |actions| == |prs|
    decreases |prs|
  {
    if prs == [] then []
    else LoopCommands(prs[..|prs| - 1], actions[..|prs| - 1], repo) + PrCommands(prs[|prs| - 1], actions[|prs| - 1], repo)
  }

  lemma LoopCommandsSnoc(prs: seq<PullRequest>, actions: seq<Action>, pr: PullRequest, action: Action, repo: Option<string>)
    requires |actions| == |prs|
    ensures LoopCommands(prs + [pr], actions + [action], repo) == LoopCommands(prs, actions, repo) + PrCommands(pr, action, repo)
  {
    assert (prs + [pr])[..|prs|] == prs;
    assert (actions + [action])[..|prs|] == actions;
  }

  lemma LoopCommandsStep(
    prs: seq<PullRequest>, i: int, actions: seq<Action>, action: Action, repo: Option<string>,
    first: seq<string>, commands: seq<seq<string>>, issued: seq<seq<string>>)
    requires 0 <= i < |prs| && |actions| == i
    requires commands == [first] + LoopCommands(prs[..i], actions, repo)
    requires issued == PrCommands(prs[i], action, repo)
    ensures commands + issued == [first] + LoopCommands(prs[..i + 1], actions + [action], repo)
  {
    assert prs[..i + 1] == prs[..i] + [prs[i]];
    LoopCommandsSnoc(prs[..i], actions, prs[i], action, repo);
  }

  /** Pull request `i` was commented on, with `args`. */
  ghost predicate CommentedWith(prs: seq<PullRequest>, actions: seq<Action>, repo: Option<string>, args: seq<string>, i: int)
    requires |actions| == |prs|
  {
    0 <= i < |prs| && actions[i] == Commented && args == CommentArgs(prs[i].number, repo)
  }

  /** Among one pull request's commands, a comment command is there exactly when the action was to comment. */
  lemma PrCommandsComment(pr: PullRequest, action: Action, repo: Option<string>, args: seq<string>)
    requires |args| > 1 && args[1] == "comment"
    ensures args in PrCommands(pr, action, repo) <==> action == Commented && args == CommentArgs(pr.number, repo)
  {
    assert WithRepo(ViewPrefix(pr.number), repo)[1] == "view";
  }

  /** A comment command is issued exactly for the pull requests whose action was to comment. */
  lemma {:induction false} LoopCommandsComments(prs: seq<PullRequest>, actions: seq<Action>, repo: Option<string>, args: seq<string>)
    requires |actions| == |prs|
    requires |args| > 1 && args[1] == "comment"
    ensures args in LoopCommands(prs, actions, repo) <==> exists i :: CommentedWith(prs, actions, repo, args, i)
    decreases |prs|
  {
    if prs != [] {
      var k := |prs| - 1;
      var init, initActions := prs[..k], actions[..k];
      LoopCommandsComments(init, initActions, repo, args);
      PrCommandsComment(prs[k], actions[k], repo, args);
      assert LoopCommands(prs, actions, repo) == LoopCommands(init, initActions, repo) + PrCommands(prs[k], actions[k], repo);
      if args in LoopCommands(init, initActions, repo) {
        var i :| CommentedWith(init, initActions, repo, args, i);
        assert CommentedWith(prs, actions, repo, args, i);
      } else if args in PrCommands(prs[k], actions[k], repo) {
        assert CommentedWith(prs, actions, repo, args, k);
      } else {
        forall i | CommentedWith(prs, actions, repo, args, i)
          ensures false
        {
          if i < k {
            assert CommentedWith(init, initActions, repo, args, i);
          }
        }
      }
    }
  }

  /**
   * `review`: list the pull requests requesting my review, fetch each one's
   * comments and commits, and act on the verdict. `prs` is the output of
   * `gh pr list`, `fetch` the output of `gh pr view` per number, and
   * `answer(i)` the answer to the prompt for the i-th pull request.
   * Returns the action per pull request and every `gh` command issued.
   */
  method ReviewPrs(
    repo: Option<string>, dryRun: bool, auto: bool,
    prs: seq<PullRequest>, fetch: int -> PrDetails, answer: nat -> bool)
    returns (actions: seq<Action>, commands: seq<seq<string>>)
    ensures |actions| == |prs|
    ensures forall i :: 0 <= i < |prs| ==>
      actions[i] == ChooseAction(VerdictFor(fetch(prs[i].number)).needed, dryRun, auto, answer(i))
    ensures commands == [WithRepo(ListPrefix, repo)] + LoopCommands(prs, actions, repo)
  {
    var listArgs := ReviewRequestedArgs(repo);
    commands := [listArgs];
    actions := [];
    for i := 0 to |prs|
      invariant |actions| == i
      invariant actions == Actions(prs[..i], dryRun, auto, fetch, answer)
      invariant commands == [listArgs] + LoopCommands(prs[..i], actions, repo)
    {
      var action, issued := HandlePr(repo, dryRun, auto, prs[i], fetch(prs[i].number), answer(i));
      LoopCommandsStep(prs, i, actions, action, repo, listArgs, commands, issued);
      ActionsStep(prs, i, dryRun, auto, fetch, answer);
      assert action == ActionFor(prs[i], i, dryRun, auto, fetch, answer);
      commands := commands + issued;
      actions := actions + [action];
    }
    assert prs[..|prs|] == prs;
    forall i | 0 <= i < |prs|
      ensures actions[i] == ChooseAction(VerdictFor(fetch(prs[i].number)).needed, dryRun, auto, answer(i))
    {
      ActionsAt(prs, dryRun, auto, fetch, answer, i);
    }
  }

  /**
   * The body of the loop in `review` for one pull request, given what
   * `gh pr view` reported and the answer the prompt would get. Returns the
   * action taken and the `gh` commands issued.
   */
  method HandlePr(repo: Option<string>, dryRun: bool, auto: bool, pr: PullRequest, details: PrDetails, confirmed: bool)
    returns (action: Action, issued: seq<seq<string>>)
    ensures action == ChooseAction(VerdictFor(details).needed, dryRun, auto, confirmed)
    ensures issued == PrCommands(pr, action, repo)
  {
    var viewArgs := PrDetailsArgs(pr.number, repo);
    issued := [viewArgs];
    var verdict := NeedsReview(details.comments.GetOr([]), details.commits.GetOr([]));
    if !verdict.needed {
      action := Skipped;
    } else if dryRun {
      action := WouldComment;
    } else if auto || confirmed {
      var commentArgs := PrCommentArgs(pr.number, CodexReview, repo);
      issued := issued + [commentArgs];
      action := Commented;
    } else {
      action := Declined;
    }
  }

  /** A dry run issues no comment command, and neither does a run in which no review is needed. */
  lemma NoCommentWithoutNeedOrOnDryRun(
    repo: Option<string>, dryRun: bool, auto: bool, prs: seq<PullRequest>,
    fetch: int -> PrDetails, answer: nat -> bool, actions: seq<Action>, args: seq<string>)
    requires |actions| == |prs|
    requires forall i :: 0 <= i < |prs| ==>
      actions[i] == ChooseAction(VerdictFor(fetch(prs[i].number)).needed, dryRun, auto, answer(i))
    requires dryRun || forall i :: 0 <= i < |prs| ==> !VerdictFor(fetch(prs[i].number)).needed
    requires |args| > 1 && args[1] == "comment"
    ensures args !in LoopCommands(prs, actions, repo)
  {
    LoopCommandsComments(prs, actions, repo, args);
  }
}
