/** `setup-workspace.py`: fast-forwarding the root checkout's main and a reused worktree's
    branch, stashing local changes around the dangerous step. The commit graph is abstract;
    what git answers to each command of a run is a record of replies, so a statement for
    all replies covers every path, exceptions included. A failing command changes nothing
    but what its reply says (remote-tracking refs, leftovers of a failed `stash apply`). */
module GitSync {
  import opened Common

  type Sha = string

  // ---------------------------------------------------------------- commits

  /** The commit graph as git answers for it: `ancestor(a, b)` includes `a == b`, and
      `tracks(a, path)` says that commit `a` has a file at `path`. */
  datatype History = History(
    ancestor: (Sha, Sha) -> bool, mergeBase: (Sha, Sha) -> Option<Sha>, tracks: (Sha, string) -> bool)

  ghost predicate IsPartialOrder(leq: (Sha, Sha) -> bool) {
    && (forall a :: leq(a, a))
    && (forall a, b :: leq(a, b) && leq(b, a) ==> a == b)
    && forall a, b, c :: leq(a, b) && leq(b, c) ==> leq(a, c)
  }

  /** `m` is a common ancestor with no common ancestor properly after it. */
  ghost predicate IsMergeBase(leq: (Sha, Sha) -> bool, a: Sha, b: Sha, m: Sha) {
    && leq(m, a) && leq(m, b)
    && forall c :: leq(c, a) && leq(c, b) && leq(m, c) ==> c == m
  }

  ghost predicate ValidHistory(h: History) {
    && IsPartialOrder(h.ancestor)
    && (forall a, b :: h.mergeBase(a, b).Some? ==> IsMergeBase(h.ancestor, a, b, h.mergeBase(a, b).value))
    && forall a, b, c :: h.mergeBase(a, b).None? ==> !(h.ancestor(c, a) && h.ancestor(c, b))
  }

  predicate CanFastForward(h: History, localSha: Sha, remoteSha: Sha) {
    localSha != remoteSha && h.mergeBase(localSha, remoteSha) == Some(localSha)
  }

  /** The merge-base test recognises strict fast-forwards and nothing else. */
  lemma CanFastForwardIff(h: History, localSha: Sha, remoteSha: Sha)
    requires ValidHistory(h)
    ensures CanFastForward(h, localSha, remoteSha) <==> localSha != remoteSha && h.ancestor(localSha, remoteSha)
  {
    if h.ancestor(localSha, remoteSha) {
      assert h.ancestor(localSha, localSha);
      match h.mergeBase(localSha, remoteSha) {
        case Some(m) => assert IsMergeBase(h.ancestor, localSha, remoteSha, m);
        case None =>
      }
    }
    if CanFastForward(h, localSha, remoteSha) {
      assert IsMergeBase(h.ancestor, localSha, remoteSha, localSha);
    }
  }

  // ---------------------------------------------------------------- repository state

  /** A difference between the working tree and HEAD: an edit of a tracked or staged file,
      an untracked file, dirt inside a submodule (which stashing and `reset --hard` leave
      alone), or files still those of an older commit because HEAD was moved without them. */
  datatype Change =
    | EditOf(path: string)
    | Untracked(path: string)
    | SubmoduleDirt(path: string)
    | FilesOf(commit: Option<Sha>)

  datatype Head = On(branch: string) | Detached(sha: Sha)

  /** `branches` are the refs under refs/heads, `remotes` those under refs/remotes/origin. */
  datatype State = State(
    branches: map<string, Sha>,
    remotes: map<string, Sha>,
    head: Head,
    changes: set<Change>,
    stash: seq<set<Change>>)

  function Stashable(changes: set<Change>): set<Change> {
    set c | c in changes && !c.SubmoduleDirt?
  }

  /** Everything uncommitted that is still to be found somewhere. */
  ghost function Kept(s: State): set<Change> {
    s.changes + Stashed(s.stash)
  }

  ghost function Stashed(stash: seq<set<Change>>): set<Change> {
    set i, c | 0 <= i < |stash| && c in stash[i] :: c
  }

  function HeadSha(s: State): Option<Sha> {
    match s.head
    case On(b) => if b in s.branches then Some(s.branches[b]) else None
    case Detached(sha) => Some(sha)
  }

  function MoveHead(s: State, sha: Sha): State {
    match s.head
    case On(b) => s.(branches := s.branches[b := sha])
    case Detached(_) => s.(head := Detached(sha))
  }

  function StashPush(s: State): State {
    if Stashable(s.changes) == {} then s
    else s.(changes := s.changes - Stashable(s.changes), stash := [Stashable(s.changes)] + s.stash)
  }

  /** What `reset --hard` to a commit discards: edits, and untracked files in the way of
      files that the commit has. */
  function Dropped(h: History, changes: set<Change>, sha: Sha): set<Change> {
    set c | c in changes && !c.SubmoduleDirt? && (c.Untracked? ==> h.tracks(sha, c.path))
  }

  function ResetHard(h: History, s: State, sha: Sha): State {
    MoveHead(s.(changes := s.changes - Dropped(h, s.changes, sha)), sha)
  }

  /** `update-ref`: when the branch is checked out, its files do not follow. */
  function UpdateRef(s: State, branch: string, sha: Sha): State {
    if s.head == On(branch) && HeadSha(s) != Some(sha)
    then s.(branches := s.branches[branch := sha], changes := s.changes + {FilesOf(HeadSha(s))})
    else s.(branches := s.branches[branch := sha])
  }

  // ---------------------------------------------------------------- replies and outcomes

  datatype PullReply = PullReply(ok: bool, remotes: map<string, Sha>, target: Sha, noTracking: bool)

  datatype FetchReply = FetchReply(ok: bool, remotes: map<string, Sha>)

  datatype StashReplies = StashReplies(
    status: bool,
    push: bool,
    applyIndex: bool,
    leftovers: set<Change>,
    apply: bool,
    moreLeftovers: set<Change>,
    drop: bool)

  datatype ResetReplies = ResetReplies(fetch: FetchReply, reset: bool, confirmHead: bool, confirmBranch: bool)

  /** `seesMain...` and `seesOriginMain` tell whether the respective existence query ran. */
  datatype MainReplies = MainReplies(
    hasOrigin: bool, seesMainWithoutOrigin: bool,
    fetch: FetchReply, seesMainWithoutFetch: bool, seesOriginMain: bool,
    remoteMain: Option<Sha>, readsOriginMain: bool, seesMainWithoutRemote: bool,
    seesMain: bool, readsMain: bool, mergeBase: bool, showsBranch: bool, status: bool, updateRef: bool,
    stash: StashReplies, pull: PullReply, reset: ResetReplies)

  datatype BranchReplies = BranchReplies(
    checkout: bool, upstream: Option<string>, seesRemoteBranch: bool, upstreamAgain: Option<string>,
    stash: StashReplies, pull: PullReply, readsBranch: bool, upstreamSha: Option<Sha>, mergeBase: bool,
    reset: ResetReplies)

  datatype Error =
    | MainMissing | CommandFailed | StashFailed | RefMismatch | RestoreFailed | DropFailed | NotFastForward

  datatype Outcome =
    | Skipped
    | UpToDate
    | Created(sha: Sha)
    | FastForwarded(sha: Sha)
    | Synced(sha: Sha)
    | Raised(error: Error)

  datatype Ran = Ran(state: State, outcome: Outcome)

  // ---------------------------------------------------------------- stash and restore

  datatype Stashing = Clean | Saved | Refused

  /** A failing `git status` prints nothing and so reads as a clean tree. */
  function SeesChanges(s: State, status: bool): bool {
    status && s.changes != {}
  }

  function Stash(s: State, r: StashReplies): Stashing {
    if !SeesChanges(s, r.status) then Clean else if r.push then Saved else Refused
  }

  function AfterStash(s: State, r: StashReplies): State {
    if Stash(s, r).Saved? then StashPush(s) else s
  }

  function ApplyTop(s: State, ok: bool, leftovers: set<Change>): State {
    if ok && s.stash != [] then s.(changes := s.changes + s.stash[0]) else s.(changes := s.changes + leftovers)
  }

  function Applied(s: State, r: StashReplies): State {
    var first := ApplyTop(s, r.applyIndex, r.leftovers);
    if r.applyIndex && s.stash != [] then first else ApplyTop(first, r.apply, r.moreLeftovers)
  }

  /** `finally: restore_stashed_changes(...)` after a body that ended with `body`. */
  function Restore(s: State, stashing: Stashing, r: StashReplies, body: Outcome): Ran {
    if !stashing.Saved? then Ran(s, body)
    else if s.stash == [] || !(r.applyIndex || r.apply) then Ran(Applied(s, r), Raised(RestoreFailed))
    else if !r.drop then Ran(Applied(s, r), Raised(DropFailed))
    else Ran(Applied(s, r).(stash := s.stash[1..]), body)
  }

  // ---------------------------------------------------------------- root main

  /** `git pull --ff-only`: moves the current branch to the fetched target if that is ahead. */
  predicate PullMoves(h: History, s: State, r: PullReply) {
    r.ok && HeadSha(s).Some? && h.ancestor(HeadSha(s).value, r.target)
  }

  function Pulled(h: History, s: State, r: PullReply): State {
    if PullMoves(h, s, r) then MoveHead(s.(remotes := r.remotes), r.target) else s.(remotes := r.remotes)
  }

  function Confirm(s: State, branch: string, sha: Sha, r: ResetReplies): Outcome {
    if !r.confirmHead || HeadSha(s).None? then Raised(CommandFailed)
    else if HeadSha(s) != Some(sha) then Raised(RefMismatch)
    else if !r.confirmBranch || branch !in s.branches then Raised(CommandFailed)
    else if s.branches[branch] != sha then Raised(RefMismatch)
    else Synced(sha)
  }

  function PullOrReset(h: History, s: State, sha: Sha, pull: PullReply, r: ResetReplies): Ran {
    var pulled := Pulled(h, s, pull);
    if PullMoves(h, s, pull) then Ran(pulled, Confirm(pulled, "main", sha, r))
    else
      var fetched := pulled.(remotes := r.fetch.remotes);
      if !r.fetch.ok || !r.reset then Ran(fetched, Raised(CommandFailed))
      else
        var moved := ResetHard(h, fetched, sha);
        Ran(moved, Confirm(moved, "main", sha, r))
  }

  function SyncCheckedOutMain(h: History, s: State, sha: Sha, r: MainReplies): Ran {
    if Stash(s, r.stash).Refused? then Ran(s, Raised(StashFailed))
    else
      var body := PullOrReset(h, AfterStash(s, r.stash), sha, r.pull, r.reset);
      Restore(body.state, Stash(s, r.stash), r.stash, body.outcome)
  }

  /** The remote sha to aim for: asked of the remote after a fetch, else the tracking ref. */
  function TargetSha(s: State, r: MainReplies): Option<Sha> {
    if r.fetch.ok then r.remoteMain
    else if r.readsOriginMain && "main" in s.remotes then Some(s.remotes["main"]) else None
  }

  function MoveMain(h: History, s: State, sha: Sha, r: MainReplies): Ran {
    if !(r.seesMain && "main" in s.branches) then
      if r.updateRef then Ran(UpdateRef(s, "main", sha), Created(sha)) else Ran(s, Raised(CommandFailed))
    else if !r.readsMain then Ran(s, Raised(CommandFailed))
    else if s.branches["main"] == sha then Ran(s, UpToDate)
    else if !(r.mergeBase && CanFastForward(h, s.branches["main"], sha)) then Ran(s, Skipped)
    else if r.showsBranch && s.head == On("main") && SeesChanges(s, r.status) then SyncCheckedOutMain(h, s, sha, r)
    else if r.updateRef then Ran(UpdateRef(s, "main", sha), FastForwarded(sha))
    else Ran(s, Raised(CommandFailed))
  }

  function SyncMain(h: History, s: State, r: MainReplies): Ran {
    var hasMain := "main" in s.branches;
    if !r.hasOrigin then
      Ran(s, if r.seesMainWithoutOrigin && hasMain then Skipped else Raised(MainMissing))
    else
      var fetched := s.(remotes := r.fetch.remotes);
      if !r.fetch.ok && r.seesMainWithoutFetch && hasMain then Ran(fetched, Skipped)
      else if !r.fetch.ok && !(r.seesOriginMain && "main" in fetched.remotes) then Ran(fetched, Raised(MainMissing))
      else match TargetSha(fetched, r)
        case None => Ran(fetched, if r.seesMainWithoutRemote && hasMain then Skipped else Raised(MainMissing))
        case Some(sha) => MoveMain(h, fetched, sha, r)
  }

  // ---------------------------------------------------------------- reused worktree branch

  function ResetToUpstream(h: History, s: State, branch: string, r: BranchReplies): Ran {
    var fetched := s.(remotes := r.reset.fetch.remotes);
    if !r.reset.fetch.ok || !r.readsBranch || branch !in s.branches || r.upstreamAgain.None? || r.upstreamSha.None?
    then Ran(fetched, Raised(CommandFailed))
    else
      var sha := r.upstreamSha.value;
      if !(r.mergeBase && CanFastForward(h, s.branches[branch], sha)) then Ran(fetched, Raised(NotFastForward))
      else if !r.reset.reset then Ran(fetched, Raised(CommandFailed))
      else
        var moved := ResetHard(h, fetched, sha);
        Ran(moved, Confirm(moved, branch, sha, r.reset))
  }

  function PullBranch(h: History, s: State, branch: string, r: BranchReplies): Ran {
    var pulled := Pulled(h, s, r.pull);
    if PullMoves(h, s, r.pull) then
      if r.upstreamAgain.None? || r.upstreamSha.None? then Ran(pulled, Raised(CommandFailed))
      else Ran(pulled, Confirm(pulled, branch, r.upstreamSha.value, r.reset))
    else if r.pull.noTracking then Ran(pulled, Skipped)
    else ResetToUpstream(h, pulled, branch, r)
  }

  /** `git checkout branch`: a branch known only to the remote gets a local ref first. */
  function CheckedOut(s: State, branch: string): State {
    if branch in s.branches then s.(head := On(branch))
    else if branch in s.remotes then s.(head := On(branch), branches := s.branches[branch := s.remotes[branch]])
    else s
  }

  function SyncReusedBranch(h: History, s: State, branch: string, r: BranchReplies): Ran {
    if !r.checkout || (branch !in s.branches && branch !in s.remotes) then Ran(s, Raised(CommandFailed))
    else
      var on := CheckedOut(s, branch);
      if r.upstream.None? || !(r.seesRemoteBranch && branch in on.remotes) then Ran(on, Skipped)
      else if Stash(on, r.stash).Refused? then Ran(on, Raised(StashFailed))
      else
        var body := PullBranch(h, AfterStash(on, r.stash), branch, r);
        Restore(body.state, Stash(on, r.stash), r.stash, body.outcome)
  }

  // ---------------------------------------------------------------- the source's form

  /** A checkout of the repository and the script's operations on it. */
  class Checkout {
    const history: History
    var branches: map<string, Sha>
    var remotes: map<string, Sha>
    var head: Head
    var changes: set<Change>
    var stash: seq<set<Change>>

    constructor (history: History, s: State)
      ensures this.history == history && Now() == s
    {
      this.history := history;
      branches, remotes, head, changes, stash := s.branches, s.remotes, s.head, s.changes, s.stash;
    }

    function Now(): State
      reads this
    {
      State(branches, remotes, head, changes, stash)
    }

    method Put(s: State)
      modifies this
      ensures Now() == s
    {
      branches, remotes, head, changes, stash := s.branches, s.remotes, s.head, s.changes, s.stash;
    }

    method StashLocalChanges(r: StashReplies) returns (stashing: Stashing)
      modifies this
      ensures stashing == Stash(old(Now()), r) && Now() == AfterStash(old(Now()), r)
    {
      if !r.status || changes == {} {
        return Clean;
      }
      if !r.push {
        return Refused;
      }
      var taken := Stashable(changes);
      if taken != {} {
        changes := changes - taken;
        stash := [taken] + stash;
      }
      stashing := Saved;
    }

    method RestoreStashedChanges(stashing: Stashing, r: StashReplies, body: Outcome) returns (outcome: Outcome)
      modifies this
      ensures Ran(Now(), outcome) == Restore(old(Now()), stashing, r, body)
    {
      if stashing != Saved {
        return body;
      }
      if r.applyIndex && stash != [] {
        changes := changes + stash[0];
      } else {
        changes := changes + r.leftovers;
        if r.apply && stash != [] {
          changes := changes + stash[0];
        } else {
          changes := changes + r.moreLeftovers;
          return Raised(RestoreFailed);
        }
      }
      if !r.drop {
        return Raised(DropFailed);
      }
      stash := stash[1..];
      outcome := body;
    }

    method PullFastForward(r: PullReply) returns (moved: bool)
      modifies this
      ensures moved == PullMoves(history, old(Now()), r) && Now() == Pulled(history, old(Now()), r)
    {
      moved := PullMoves(history, Now(), r);
      remotes := r.remotes;
      if moved {
        Put(MoveHead(Now(), r.target));
      }
    }

    method ConfirmRefs(branch: string, sha: Sha, r: ResetReplies) returns (outcome: Outcome)
      ensures outcome == Confirm(Now(), branch, sha, r)
    {
      if !r.confirmHead || HeadSha(Now()).None? {
        return Raised(CommandFailed);
      }
      if HeadSha(Now()) != Some(sha) {
        return Raised(RefMismatch);
      }
      if !r.confirmBranch || branch !in branches {
        return Raised(CommandFailed);
      }
      outcome := if branches[branch] != sha then Raised(RefMismatch) else Synced(sha);
    }

    /** The `try` body of `sync_checked_out_main_with_stash`. */
    method PullOrResetMain(sha: Sha, pull: PullReply, r: ResetReplies) returns (outcome: Outcome)
      modifies this
      ensures Ran(Now(), outcome) == PullOrReset(history, old(Now()), sha, pull, r)
    {
      var moved := PullFastForward(pull);
      if !moved {
        remotes := r.fetch.remotes;
        if !r.fetch.ok {
          return Raised(CommandFailed);
        }
        if !r.reset {
          return Raised(CommandFailed);
        }
        Put(ResetHard(history, Now(), sha));
      }
      outcome := ConfirmRefs("main", sha, r);
    }

    method SyncCheckedOutMainWithStash(sha: Sha, r: MainReplies) returns (outcome: Outcome)
      modifies this
      ensures Ran(Now(), outcome) == SyncCheckedOutMain(history, old(Now()), sha, r)
    {
      var stashing := StashLocalChanges(r.stash);
      if stashing == Refused {
        return Raised(StashFailed);
      }
      var body := PullOrResetMain(sha, r.pull, r.reset);
      outcome := RestoreStashedChanges(stashing, r.stash, body);
    }

    /** `sync_main` once the target is known. */
    method MoveMainTo(sha: Sha, r: MainReplies) returns (outcome: Outcome)
      modifies this
      ensures Ran(Now(), outcome) == MoveMain(history, old(Now()), sha, r)
    {
      if !r.seesMain || "main" !in branches {
        if !r.updateRef {
          return Raised(CommandFailed);
        }
        Put(UpdateRef(Now(), "main", sha));
        return Created(sha);
      }
      if !r.readsMain {
        return Raised(CommandFailed);
      }
      var localSha := branches["main"];
      if localSha == sha {
        return UpToDate;
      }
      if !r.mergeBase || !CanFastForward(history, localSha, sha) {
        return Skipped;
      }
      if r.showsBranch && head == On("main") && SeesChanges(Now(), r.status) {
        outcome := SyncCheckedOutMainWithStash(sha, r);
        return;
      }
      if !r.updateRef {
        return Raised(CommandFailed);
      }
      Put(UpdateRef(Now(), "main", sha));
      outcome := FastForwarded(sha);
    }

    method SyncRootMain(r: MainReplies) returns (outcome: Outcome)
      modifies this
      ensures Ran(Now(), outcome) == SyncMain(history, old(Now()), r)
    {
      if !r.hasOrigin {
        return if r.seesMainWithoutOrigin && "main" in branches then Skipped else Raised(MainMissing);
      }
      remotes := r.fetch.remotes;
      if !r.fetch.ok {
        if r.seesMainWithoutFetch && "main" in branches {
          return Skipped;
        }
        if !r.seesOriginMain || "main" !in remotes {
          return Raised(MainMissing);
        }
      }
      var target := TargetSha(Now(), r);
      if target.None? {
        return if r.seesMainWithoutRemote && "main" in branches then Skipped else Raised(MainMissing);
      }
      outcome := MoveMainTo(target.value, r);
    }

    /** The `try` body of `sync_reused_worktree_branch`. */
    method PullOrResetBranch(branch: string, r: BranchReplies) returns (outcome: Outcome)
      modifies this
      ensures Ran(Now(), outcome) == PullBranch(history, old(Now()), branch, r)
    {
      var moved := PullFastForward(r.pull);
      if moved {
        if r.upstreamAgain.None? || r.upstreamSha.None? {
          return Raised(CommandFailed);
        }
        outcome := ConfirmRefs(branch, r.upstreamSha.value, r.reset);
        return;
      }
      if r.pull.noTracking {
        return Skipped;
      }
      remotes := r.reset.fetch.remotes;
      if !r.reset.fetch.ok || !r.readsBranch || branch !in branches || r.upstreamAgain.None? || r.upstreamSha.None? {
        return Raised(CommandFailed);
      }
      if !r.mergeBase || !CanFastForward(history, branches[branch], r.upstreamSha.value) {
        return Raised(NotFastForward);
      }
      if !r.reset.reset {
        return Raised(CommandFailed);
      }
      Put(ResetHard(history, Now(), r.upstreamSha.value));
      outcome := ConfirmRefs(branch, r.upstreamSha.value, r.reset);
    }

    method SyncReusedWorktreeBranch(branch: string, r: BranchReplies) returns (outcome: Outcome)
      modifies this
      ensures Ran(Now(), outcome) == SyncReusedBranch(history, old(Now()), branch, r)
    {
      if !r.checkout || (branch !in branches && branch !in remotes) {
        return Raised(CommandFailed);
      }
      Put(CheckedOut(Now(), branch));
      if r.upstream.None? {
        return Skipped;
      }
      if !r.seesRemoteBranch || branch !in remotes {
        return Skipped;
      }
      var stashing := StashLocalChanges(r.stash);
      if stashing == Refused {
        return Raised(StashFailed);
      }
      var body := PullOrResetBranch(branch, r);
      outcome := RestoreStashedChanges(stashing, r.stash, body);
    }
  }

  // ---------------------------------------------------------------- branches only move forward

  ghost predicate Forward(h: History, before: map<string, Sha>, after: map<string, Sha>, branch: string) {
    branch in before ==> branch in after && h.ancestor(before[branch], after[branch])
  }

  /** No local branch but `branch` is touched. */
  ghost predicate OthersKept(before: map<string, Sha>, after: map<string, Sha>, branch: string) {
    forall b :: b != branch ==> (b in before <==> b in after) && (b in before ==> before[b] == after[b])
  }

  lemma RestoreKeepsRefs(s: State, stashing: Stashing, r: StashReplies, body: Outcome)
    ensures Restore(s, stashing, r, body).state.branches == s.branches
    ensures Restore(s, stashing, r, body).state.head == s.head
  {
  }

  lemma PullOrResetMovesForward(h: History, s: State, sha: Sha, pull: PullReply, r: ResetReplies)
    requires ValidHistory(h) && s.head == On("main") && "main" in s.branches && h.ancestor(s.branches["main"], sha)
    ensures var after := PullOrReset(h, s, sha, pull, r).state;
      && Forward(h, s.branches, after.branches, "main")
      && OthersKept(s.branches, after.branches, "main")
      && after.head == s.head
  {
  }

  lemma SyncCheckedOutMovesForward(h: History, s: State, sha: Sha, r: MainReplies)
    requires ValidHistory(h) && s.head == On("main") && "main" in s.branches && h.ancestor(s.branches["main"], sha)
    ensures var after := SyncCheckedOutMain(h, s, sha, r).state;
      && Forward(h, s.branches, after.branches, "main")
      && OthersKept(s.branches, after.branches, "main")
      && after.head == s.head
  {
    if !Stash(s, r.stash).Refused? {
      var stashed := AfterStash(s, r.stash);
      PullOrResetMovesForward(h, stashed, sha, r.pull, r.reset);
      var body := PullOrReset(h, stashed, sha, r.pull, r.reset);
      RestoreKeepsRefs(body.state, Stash(s, r.stash), r.stash, body.outcome);
    }
  }

  /** The target `sync_main` moves main to, if the run gets that far. */
  function Target(s: State, r: MainReplies): Option<Sha> {
    var fetched := s.(remotes := r.fetch.remotes);
    if !r.hasOrigin || (!r.fetch.ok && r.seesMainWithoutFetch && "main" in s.branches)
       || (!r.fetch.ok && !(r.seesOriginMain && "main" in fetched.remotes))
    then None
    else TargetSha(fetched, r)
  }

  lemma SyncMainIsMoveMain(h: History, s: State, r: MainReplies)
    ensures match Target(s, r)
      case Some(sha) => SyncMain(h, s, r) == MoveMain(h, s.(remotes := r.fetch.remotes), sha, r)
      case None =>
        var ran := SyncMain(h, s, r);
        (ran.outcome == Skipped || ran.outcome == Raised(MainMissing)) && ran.state == s.(remotes := ran.state.remotes)
  {
  }

  /** The existence query fails on a main that is there, and the commit to aim for, which
      `update-ref` then writes, does not have that main behind it. */
  predicate OverwritesMain(h: History, s: State, r: MainReplies) {
    && Target(s, r).Some? && !r.seesMain && r.updateRef
    && "main" in s.branches && !h.ancestor(s.branches["main"], Target(s, r).value)
  }

  /** On every path of the root sync, an existing main stays or moves to a descendant,
      except exactly when the existence query before the update fails and main is not
      behind the target. No other branch is touched and HEAD stays on its branch. */
  lemma MainMovesForwardIff(h: History, s: State, r: MainReplies)
    requires ValidHistory(h) && "main" in s.branches
    ensures Forward(h, s.branches, SyncMain(h, s, r).state.branches, "main") <==> !OverwritesMain(h, s, r)
    ensures OthersKept(s.branches, SyncMain(h, s, r).state.branches, "main")
    ensures SyncMain(h, s, r).state.head == s.head
  {
    SyncMainIsMoveMain(h, s, r);
    if Target(s, r).Some? {
      MoveMainForwardIff(h, s.(remotes := r.fetch.remotes), Target(s, r).value, r);
    }
  }

  lemma MoveMainForwardIff(h: History, s: State, sha: Sha, r: MainReplies)
    requires ValidHistory(h) && "main" in s.branches
    ensures Forward(h, s.branches, MoveMain(h, s, sha, r).state.branches, "main")
       <==> !(!r.seesMain && r.updateRef && !h.ancestor(s.branches["main"], sha))
    ensures OthersKept(s.branches, MoveMain(h, s, sha, r).state.branches, "main")
    ensures MoveMain(h, s, sha, r).state.head == s.head
  {
    CanFastForwardIff(h, s.branches["main"], sha);
    if h.ancestor(s.branches["main"], sha) && s.head == On("main") {
      SyncCheckedOutMovesForward(h, s, sha, r);
    }
  }

  lemma PullBranchMovesForward(h: History, s: State, branch: string, r: BranchReplies)
    requires ValidHistory(h) && s.head == On(branch) && branch in s.branches
    ensures var after := PullBranch(h, s, branch, r).state;
      Forward(h, s.branches, after.branches, branch) && OthersKept(s.branches, after.branches, branch)
  {
    if r.upstreamSha.Some? {
      CanFastForwardIff(h, s.branches[branch], r.upstreamSha.value);
    }
  }

  /** On every path of the worktree sync the branch stays or moves to a descendant (a
      branch new to this clone is created), and no other branch is touched. */
  lemma ReusedBranchMovesForward(h: History, s: State, branch: string, r: BranchReplies)
    requires ValidHistory(h)
    ensures var after := SyncReusedBranch(h, s, branch, r).state;
      Forward(h, s.branches, after.branches, branch) && OthersKept(s.branches, after.branches, branch)
  {
    var on := CheckedOut(s, branch);
    if r.checkout && (branch in s.branches || branch in s.remotes) && !Stash(on, r.stash).Refused? {
      var stashed := AfterStash(on, r.stash);
      PullBranchMovesForward(h, stashed, branch, r);
      var body := PullBranch(h, stashed, branch, r);
      RestoreKeepsRefs(body.state, Stash(on, r.stash), r.stash, body.outcome);
    }
  }

  // ---------------------------------------------------------------- local changes survive

  /** `reset --hard` runs although no stash was taken. */
  predicate ResetsUnstashed(h: History, s: State, status: bool, pull: PullReply, reset: ResetReplies) {
    !SeesChanges(s, status) && !PullMoves(h, s, pull) && reset.fetch.ok && reset.reset
  }

  /** The branch of `sync_main` that syncs a checked-out, visibly dirty main. */
  predicate SyncsCheckedOut(h: History, s: State, sha: Sha, r: MainReplies) {
    && "main" in s.branches && r.seesMain && r.readsMain
    && r.mergeBase && CanFastForward(h, s.branches["main"], sha)
    && r.showsBranch && s.head == On("main") && SeesChanges(s, r.status)
  }

  lemma StashSplits(s: State)
    ensures s.changes == Stashable(s.changes) + (s.changes - Stashable(s.changes))
    ensures Stashed([Stashable(s.changes)] + s.stash) == Stashable(s.changes) + Stashed(s.stash)
    ensures Stashable(s.changes - Stashable(s.changes)) == {}
    ensures forall h, sha :: Dropped(h, s.changes - Stashable(s.changes), sha) == {}
  {
    var pushed := [Stashable(s.changes)] + s.stash;
    forall c ensures c in Stashed(pushed) <==> c in Stashable(s.changes) + Stashed(s.stash) {
      if c in Stashable(s.changes) {
        assert c in pushed[0];
      }
      if c in Stashed(s.stash) {
        var i :| 0 <= i < |s.stash| && c in s.stash[i];
        assert c in pushed[i + 1];
      }
    }
  }

  lemma TopAndRest(stash: seq<set<Change>>)
    requires stash != []
    ensures Stashed(stash) == stash[0] + Stashed(stash[1..])
  {
    forall c ensures c in Stashed(stash) <==> c in stash[0] + Stashed(stash[1..]) {
      if c in Stashed(stash) {
        var i :| 0 <= i < |stash| && c in stash[i];
        assert i > 0 ==> c in stash[1..][i - 1];
      }
      if c in Stashed(stash[1..]) {
        var i :| 0 <= i < |stash[1..]| && c in stash[1..][i];
        assert c in stash[i + 1];
      }
    }
  }

  lemma StashKeeps(s: State, r: StashReplies)
    ensures Kept(AfterStash(s, r)) == Kept(s)
    ensures Stash(s, r).Saved? ==> forall h, sha :: Dropped(h, AfterStash(s, r).changes, sha) == {}
  {
    StashSplits(s);
  }

  lemma RestoreKeeps(s: State, stashing: Stashing, r: StashReplies, body: Outcome)
    ensures Kept(s) <= Kept(Restore(s, stashing, r, body).state)
    ensures !stashing.Saved? ==> Restore(s, stashing, r, body) == Ran(s, body)
  {
    if s.stash != [] {
      TopAndRest(s.stash);
    }
  }

  lemma PullOrResetKeepsIff(h: History, s: State, sha: Sha, pull: PullReply, r: ResetReplies)
    ensures var after := PullOrReset(h, s, sha, pull, r).state;
      && after.stash == s.stash
      && after.changes == if !PullMoves(h, s, pull) && r.fetch.ok && r.reset
                          then s.changes - Dropped(h, s.changes, sha) else s.changes
  {
  }

  lemma SyncCheckedOutKeepsIff(h: History, s: State, sha: Sha, r: MainReplies)
    ensures Kept(s) <= Kept(SyncCheckedOutMain(h, s, sha, r).state)
       <==> !(&& ResetsUnstashed(h, s, r.stash.status, r.pull, r.reset)
              && !(Dropped(h, s.changes, sha) <= Stashed(s.stash)))
  {
    if !Stash(s, r.stash).Refused? {
      var stashed := AfterStash(s, r.stash);
      var body := PullOrReset(h, stashed, sha, r.pull, r.reset);
      StashKeeps(s, r.stash);
      StashSplits(s);
      PullOrResetKeepsIff(h, stashed, sha, r.pull, r.reset);
      RestoreKeeps(body.state, Stash(s, r.stash), r.stash, body.outcome);
    }
  }

  /** On every path of the root sync each pre-existing local change is still in the working
      tree or in the stash, except exactly when the second `git status` fails, so that no
      stash precedes a `reset --hard`, and that reset discards a change which no stash entry
      holds. Untracked files survive it unless the target has a file in their place. */
  lemma RootSyncKeepsChangesIff(h: History, s: State, r: MainReplies)
    ensures Kept(s) <= Kept(SyncMain(h, s, r).state)
       <==> !(&& Target(s, r).Some?
              && SyncsCheckedOut(h, s, Target(s, r).value, r)
              && ResetsUnstashed(h, s, r.stash.status, r.pull, r.reset)
              && !(Dropped(h, s.changes, Target(s, r).value) <= Stashed(s.stash)))
  {
    SyncMainIsMoveMain(h, s, r);
    if Target(s, r).Some? {
      SyncCheckedOutKeepsIff(h, s.(remotes := r.fetch.remotes), Target(s, r).value, r);
    }
  }

  lemma PullBranchChanges(h: History, s: State, branch: string, r: BranchReplies)
    ensures var after := PullBranch(h, s, branch, r).state;
      && after.stash == s.stash
      && after.changes == if BranchResets(h, s, branch, r)
                          then s.changes - Dropped(h, s.changes, r.upstreamSha.value) else s.changes
  {
  }

  /** The branch sync reaches `reset --hard` and runs it. */
  predicate BranchResets(h: History, s: State, branch: string, r: BranchReplies) {
    && !PullMoves(h, s, r.pull) && !r.pull.noTracking && r.reset.fetch.ok && r.reset.reset
    && r.readsBranch && branch in s.branches && r.upstreamAgain.Some? && r.upstreamSha.Some?
    && r.mergeBase && CanFastForward(h, s.branches[branch], r.upstreamSha.value)
  }

  predicate BranchSyncStarts(s: State, branch: string, r: BranchReplies) {
    && r.checkout && (branch in s.branches || branch in s.remotes)
    && r.upstream.Some? && r.seesRemoteBranch && branch in CheckedOut(s, branch).remotes
  }

  /** The same for the worktree sync: changes are lost exactly when `git status` fails, so
      that nothing is stashed, and the run goes on to `reset --hard`. */
  lemma BranchSyncKeepsChangesIff(h: History, s: State, branch: string, r: BranchReplies)
    ensures Kept(s) <= Kept(SyncReusedBranch(h, s, branch, r).state)
       <==> !(&& BranchSyncStarts(s, branch, r)
              && BranchResets(h, CheckedOut(s, branch), branch, r)
              && !r.stash.status
              && !(Dropped(h, s.changes, r.upstreamSha.value) <= Stashed(s.stash)))
  {
    var on := CheckedOut(s, branch);
    if BranchSyncStarts(s, branch, r) && !Stash(on, r.stash).Refused? {
      var stashed := AfterStash(on, r.stash);
      var body := PullBranch(h, stashed, branch, r);
      StashKeeps(on, r.stash);
      StashSplits(on);
      PullBranchChanges(h, stashed, branch, r);
      RestoreKeeps(body.state, Stash(on, r.stash), r.stash, body.outcome);
    }
  }

  // ---------------------------------------------------------------- what an outcome means

  /** The stash as it is, or without the top entry that was popped though nothing was pushed. */
  ghost predicate StashSettled(s: State, after: State) {
    after.stash == s.stash || (Stashable(s.changes) == {} && s.stash != [] && after.stash == s.stash[1..])
  }

  /** What an error leaves behind. */
  ghost predicate ErrorTells(s: State, r: MainReplies, error: Error, after: State) {
    && after.head == s.head
    && (|| after.branches == s.branches
        || after.branches == s.branches["main" := r.pull.target]
        || (Target(s, r).Some? && after.branches == s.branches["main" := Target(s, r).value]))
    && match error
       case MainMissing => after == s.(remotes := after.remotes)
       case StashFailed => after == s.(remotes := after.remotes)
       case RestoreFailed => after.stash == AfterStash(s, r.stash).stash
       case DropFailed => after.stash == AfterStash(s, r.stash).stash
         && after.stash != [] && after.stash[0] <= after.changes
       case CommandFailed => StashSettled(s, after)
       case RefMismatch => StashSettled(s, after)
       case NotFastForward => false
  }

  /** What the reported outcome of a root sync says about the repository. In particular a
      fast-forward reported without a pull leaves the files of a checked-out main at the
      old commit: the tree, clean before, now differs from HEAD. After a failed restore or
      drop the stash entry is still there. */
  ghost predicate Tells(s: State, r: MainReplies, outcome: Outcome, after: State) {
    match outcome
    case Skipped => after == s.(remotes := after.remotes)
    case UpToDate => after == s.(remotes := after.remotes)
    case Created(sha) => Target(s, r) == Some(sha) && after == UpdateRef(s, "main", sha).(remotes := after.remotes)
    case FastForwarded(sha) =>
      && Target(s, r) == Some(sha) && "main" in s.branches && s.branches["main"] != sha
      && after.branches == s.branches["main" := sha] && after.stash == s.stash
      && after.changes == if s.head == On("main") then s.changes + {FilesOf(Some(s.branches["main"]))} else s.changes
    case Synced(sha) =>
      Target(s, r) == Some(sha) && s.head == On("main")
      && after.branches == s.branches["main" := sha] && StashSettled(s, after)
    case Raised(error) => ErrorTells(s, r, error, after)
  }

  lemma ConfirmTells(s: State, branch: string, sha: Sha, r: ResetReplies)
    ensures var outcome := Confirm(s, branch, sha, r);
      outcome.Raised? || (outcome == Synced(sha) && branch in s.branches
                          && s.branches[branch] == sha == HeadSha(s).GetOr(""))
  {
  }

  lemma PullOrResetTells(h: History, s: State, sha: Sha, pull: PullReply, r: ResetReplies)
    requires s.head == On("main") && "main" in s.branches
    ensures var body := PullOrReset(h, s, sha, pull, r);
      && body.state.head == s.head && body.state.stash == s.stash
      && match body.outcome
         case Synced(to) => to == sha && body.state.branches == s.branches["main" := sha]
         case Raised(error) =>
           && (error == CommandFailed || error == RefMismatch)
           && (|| body.state.branches == s.branches
               || body.state.branches == s.branches["main" := pull.target]
               || body.state.branches == s.branches["main" := sha])
         case _ => false
  {
    ConfirmTells(Pulled(h, s, pull), "main", sha, r);
  }

  /** What a checked-out sync leaves, by outcome. */
  ghost predicate CheckedOutTells(s: State, sha: Sha, r: MainReplies, ran: Ran) {
    && ran.state.head == s.head
    && (|| ran.state.branches == s.branches
        || ran.state.branches == s.branches["main" := r.pull.target]
        || ran.state.branches == s.branches["main" := sha])
    && match ran.outcome
       case Synced(to) => to == sha && ran.state.branches == s.branches["main" := sha] && StashSettled(s, ran.state)
       case Raised(StashFailed) => ran.state == s
       case Raised(RestoreFailed) => ran.state.stash == AfterStash(s, r.stash).stash
       case Raised(DropFailed) =>
         && ran.state.stash == AfterStash(s, r.stash).stash
         && ran.state.stash != [] && ran.state.stash[0] <= ran.state.changes
       case Raised(CommandFailed) => StashSettled(s, ran.state)
       case Raised(RefMismatch) => StashSettled(s, ran.state)
       case _ => false
  }

  lemma SyncCheckedOutTells(h: History, s: State, sha: Sha, r: MainReplies)
    requires s.head == On("main") && "main" in s.branches
    ensures CheckedOutTells(s, sha, r, SyncCheckedOutMain(h, s, sha, r))
  {
    if !Stash(s, r.stash).Refused? {
      var stashed := AfterStash(s, r.stash);
      var body := PullOrReset(h, stashed, sha, r.pull, r.reset);
      PullOrResetTells(h, stashed, sha, r.pull, r.reset);
      RestoreKeepsRefs(body.state, Stash(s, r.stash), r.stash, body.outcome);
      RestoreSettles(s, body.state, r.stash, body.outcome);
    }
  }

  lemma RestoreSettles(s: State, mid: State, r: StashReplies, body: Outcome)
    requires !Stash(s, r).Refused? && mid.stash == AfterStash(s, r).stash
    ensures var ran := Restore(mid, Stash(s, r), r, body);
      match ran.outcome
      case Raised(RestoreFailed) => ran.outcome == body || ran.state.stash == AfterStash(s, r).stash
      case Raised(DropFailed) =>
        ran.outcome == body || (ran.state.stash == AfterStash(s, r).stash && ran.state.stash != []
                                && ran.state.stash[0] <= ran.state.changes)
      case _ => ran.outcome == body && StashSettled(s, ran.state)
  {
    if Stash(s, r).Saved? && Stashable(s.changes) != {} {
      assert ([Stashable(s.changes)] + s.stash)[1..] == s.stash;
    }
  }

  lemma OutcomeTellsState(h: History, s: State, r: MainReplies)
    ensures Tells(s, r, SyncMain(h, s, r).outcome, SyncMain(h, s, r).state)
  {
    SyncMainIsMoveMain(h, s, r);
    if Target(s, r).Some? {
      var fetched := s.(remotes := r.fetch.remotes);
      MoveMainUnlessCheckedOut(h, fetched, Target(s, r).value, r);
      if SyncsCheckedOut(h, s, Target(s, r).value, r) {
        SyncCheckedOutTells(h, fetched, Target(s, r).value, r);
      }
    }
  }

  lemma MoveMainUnlessCheckedOut(h: History, s: State, sha: Sha, r: MainReplies)
    ensures SyncsCheckedOut(h, s, sha, r) ==> MoveMain(h, s, sha, r) == SyncCheckedOutMain(h, s, sha, r)
    ensures !SyncsCheckedOut(h, s, sha, r) ==> match MoveMain(h, s, sha, r).outcome
      case Skipped => MoveMain(h, s, sha, r).state == s
      case UpToDate => MoveMain(h, s, sha, r).state == s
      case Created(to) => to == sha && MoveMain(h, s, sha, r).state == UpdateRef(s, "main", sha)
      case FastForwarded(to) =>
        && to == sha && "main" in s.branches && s.branches["main"] != sha
        && MoveMain(h, s, sha, r).state == UpdateRef(s, "main", sha)
      case Raised(error) => error == CommandFailed && MoveMain(h, s, sha, r).state == s
      case Synced(_) => false
  {
  }

  /** When a synced checkout has its changes and its stash back as they were: the changes
      were seen and some of them stashed, and a first failing apply left nothing new behind;
      or none were seen and the pull did it, or the reset had nothing to discard. */
  predicate RestoresExactly(h: History, s: State, sha: Sha, r: MainReplies) {
    if SeesChanges(s, r.stash.status)
    then Stashable(s.changes) != {} && (r.stash.applyIndex || r.stash.leftovers <= s.changes)
    else PullMoves(h, s, r.pull) || Dropped(h, s.changes, sha) == {}
  }

  /** A synced checkout has its changes and stash back as they were exactly under that
      condition. When the only dirt is inside submodules the push saves nothing, and an
      unrelated older stash entry is applied and dropped instead. */
  lemma SyncedRestoresIff(h: History, s: State, sha: Sha, r: MainReplies)
    requires SyncCheckedOutMain(h, s, sha, r).outcome.Synced?
    ensures var after := SyncCheckedOutMain(h, s, sha, r).state;
      && (after.changes == s.changes && after.stash == s.stash <==> RestoresExactly(h, s, sha, r))
      && (SeesChanges(s, r.stash.status) && Stashable(s.changes) == {} ==>
            s.stash != [] && after.stash == s.stash[1..] && s.changes + s.stash[0] <= after.changes)
  {
    var stashed := AfterStash(s, r.stash);
    var body := PullOrReset(h, stashed, sha, r.pull, r.reset);
    StashSplits(s);
    PullOrResetKeepsIff(h, stashed, sha, r.pull, r.reset);
    if SeesChanges(s, r.stash.status) {
      if Stashable(s.changes) != {} {
        assert body.state.stash[1..] == s.stash;
        assert body.state.changes + body.state.stash[0] == s.changes;
      } else {
        assert |s.stash[1..]| != |s.stash|;
      }
    } else if !PullMoves(h, s, r.pull) {
      DroppedLeave(h, s.changes, sha);
    }
  }

  lemma DroppedLeave(h: History, changes: set<Change>, sha: Sha)
    ensures changes - Dropped(h, changes, sha) == changes <==> Dropped(h, changes, sha) == {}
  {
    assert Dropped(h, changes, sha) <= changes;
    if Dropped(h, changes, sha) != {} {
      var c :| c in Dropped(h, changes, sha);
      assert c in changes && c !in changes - Dropped(h, changes, sha);
    }
  }

  // ---------------------------------------------------------------- concrete failures

  function TwoCommits(): History {
    var ahead := (a: Sha, b: Sha) => a == b || (a == "old" && b == "new");
    History(ahead, (a, b) => if ahead(a, b) then Some(a) else if ahead(b, a) then Some(b) else None, (a, path) => false)
  }

  function DirtyMain(at: Sha): State {
    State(map["main" := at], map[], On("main"), {EditOf("notes")}, [])
  }

  function Replies(status: bool, seesMain: bool): MainReplies {
    MainReplies(true, true, FetchReply(true, map[]), true, true, Some("new"), true, true,
                seesMain, true, true, true, true, true,
                StashReplies(status, true, true, {}, true, {}, true),
                PullReply(false, map[], "new", false), ResetReplies(FetchReply(true, map[]), true, true, true))
  }

  lemma TwoCommitsAreValid()
    ensures ValidHistory(TwoCommits())
  {
  }

  /** A failing `git status` before the reset loses an edit. */
  lemma FailedStatusLosesEdit()
    ensures ValidHistory(TwoCommits())
    ensures var after := SyncMain(TwoCommits(), DirtyMain("old"), Replies(false, true));
      after.outcome == Synced("new") && EditOf("notes") !in Kept(after.state)
  {
    TwoCommitsAreValid();
  }

  /** A failing existence query overwrites a main that has diverged. */
  lemma FailedQueryOverwritesMain()
    ensures ValidHistory(TwoCommits())
    ensures var after := SyncMain(TwoCommits(), DirtyMain("fork"), Replies(true, false));
      after.outcome == Created("new") && !Forward(TwoCommits(), map["main" := "fork"], after.state.branches, "main")
  {
    TwoCommitsAreValid();
  }
}
