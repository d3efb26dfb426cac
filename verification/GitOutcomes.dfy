/** Exactly how each run of the git synchronisation ends and what it leaves, told from the
    repository before it and git's answers. */
module GitOutcomes {
  import opened Common
  import opened GitSync

  // ---------------------------------------------------------------- the stash around a sync

  predicate HasStashable(s: State) {
    exists c :: c in s.changes && !c.SubmoduleDirt?
  }

  /** The changes are seen and the push is tried. */
  predicate Pushes(s: State, r: StashReplies) { r.status && s.changes != {} }

  predicate PushRefused(s: State, r: StashReplies) { Pushes(s, r) && !r.push }

  /** Nothing was pushed, or the top entry is applied one way or the other and dropped. */
  predicate RestoreWorks(s: State, r: StashReplies) {
    Pushes(s, r) ==> EntryApplies(s, r) && r.drop
  }

  /** After a push there is an entry (a push of nothing leaves an older one on top), and it
      applies with or without the index. */
  predicate EntryApplies(s: State, r: StashReplies) {
    (HasStashable(s) || s.stash != []) && (r.applyIndex || r.apply)
  }

  /** The stash after a push that git reports as done. */
  function Stack(s: State): seq<set<Change>> {
    if HasStashable(s) then [set c | c in s.changes && !c.SubmoduleDirt?] + s.stash else s.stash
  }

  /** What the files show of the stash after the attempts to apply its top entry. */
  function BroughtBack(s: State, r: StashReplies): set<Change> {
    if r.applyIndex && Stack(s) != [] then Stack(s)[0]
    else r.leftovers + if r.apply && Stack(s) != [] then Stack(s)[0] else r.moreLeftovers
  }

  predicate DropsEntry(s: State, r: StashReplies) { EntryApplies(s, r) && r.drop }

  lemma StashableIff(s: State)
    ensures Stashable(s.changes) == (set c | c in s.changes && !c.SubmoduleDirt?)
    ensures HasStashable(s) <==> Stashable(s.changes) != {}
  {
    if HasStashable(s) {
      var c :| c in s.changes && !c.SubmoduleDirt?;
      assert c in Stashable(s.changes);
    }
    if Stashable(s.changes) != {} {
      var c :| c in Stashable(s.changes);
    }
  }

  lemma StashIs(s: State, r: StashReplies)
    ensures Stash(s, r).Refused? <==> PushRefused(s, r)
    ensures Stash(s, r).Saved? <==> Pushes(s, r) && r.push
    ensures var after := AfterStash(s, r);
      && after == s.(changes := after.changes, stash := after.stash)
      && after.stash == (if Pushes(s, r) && r.push then Stack(s) else s.stash)
      && after.changes == if Pushes(s, r) && r.push then set c | c in s.changes && c.SubmoduleDirt? else s.changes
  {
    StashableIff(s);
    assert s.changes - Stashable(s.changes) == set c | c in s.changes && c.SubmoduleDirt?;
  }

  /** How the run ends once the body ended with `body`. */
  function EndsAfter(s: State, r: StashReplies, body: Outcome): Outcome {
    if !Pushes(s, r) then body
    else if !EntryApplies(s, r) then Raised(RestoreFailed)
    else if !r.drop then Raised(DropFailed)
    else body
  }

  lemma UnionsRegroup(a: set<Change>, b: set<Change>, c: set<Change>)
    ensures a + b + c == a + (b + c)
  {
  }

  lemma AppliedIs(s: State, r: StashReplies, mid: State)
    requires mid.stash == Stack(s)
    ensures Applied(mid, r) == mid.(changes := mid.changes + BroughtBack(s, r))
  {
    UnionsRegroup(mid.changes, r.leftovers, r.moreLeftovers);
    if mid.stash != [] {
      UnionsRegroup(mid.changes, r.leftovers, mid.stash[0]);
    }
  }

  lemma RestoreIs(s: State, r: StashReplies, mid: State, body: Outcome)
    requires !PushRefused(s, r) && mid.stash == AfterStash(s, r).stash
    ensures var ran := Restore(mid, Stash(s, r), r, body);
      && ran.outcome == EndsAfter(s, r, body)
      && ran.state == mid.(changes := ran.state.changes, stash := ran.state.stash)
      && ran.state.changes == mid.changes + (if Pushes(s, r) then BroughtBack(s, r) else {})
      && ran.state.stash == if Pushes(s, r) && DropsEntry(s, r) then Stack(s)[1..] else mid.stash
  {
    StashIs(s, r);
    if Pushes(s, r) {
      AppliedIs(s, r, mid);
    } else {
      assert mid.changes + {} == mid.changes;
    }
  }

  // ---------------------------------------------------------------- what reset --hard discards

  predicate Discards(h: History, sha: Sha, c: Change) {
    match c
    case EditOf(_) => true
    case FilesOf(_) => true
    case SubmoduleDirt(_) => false
    case Untracked(path) => h.tracks(sha, path)
  }

  lemma DroppedAreDiscarded(h: History, changes: set<Change>, sha: Sha)
    ensures changes - Dropped(h, changes, sha) == set c | c in changes && !Discards(h, sha, c)
  {
  }

  // ---------------------------------------------------------------- the root sync

  /** The commit the root sync aims main at: asked of origin after a fetch, else the
      tracking ref, unless main is there to fall back to. */
  function Aim(s: State, r: MainReplies): Option<Sha> {
    if !r.hasOrigin then None
    else if r.fetch.ok then r.remoteMain
    else if (r.seesMainWithoutFetch && "main" in s.branches) || !KnowsOriginMain(r) || !r.readsOriginMain then None
    else Some(r.fetch.remotes["main"])
  }

  predicate KnowsOriginMain(r: MainReplies) { r.seesOriginMain && "main" in r.fetch.remotes }

  /** With no commit to aim at, main is seen to be there. */
  predicate FallsBack(s: State, r: MainReplies) {
    && Aim(s, r).None? && "main" in s.branches
    && if !r.hasOrigin then r.seesMainWithoutOrigin
       else if !r.fetch.ok && r.seesMainWithoutFetch then true
       else (r.fetch.ok || KnowsOriginMain(r)) && r.seesMainWithoutRemote
  }

  predicate SeesMain(s: State, r: MainReplies) { "main" in s.branches && r.seesMain }

  /** Main is seen, read, and a strict ancestor of `sha`, which the merge-base query confirms. */
  predicate Behind(h: History, s: State, r: MainReplies, sha: Sha) {
    && SeesMain(s, r) && r.readsMain && r.mergeBase
    && s.branches["main"] != sha && h.ancestor(s.branches["main"], sha)
  }

  predicate VisiblyDirty(s: State, r: MainReplies) {
    r.showsBranch && s.head == On("main") && r.status && s.changes != {}
  }

  /** `pull --ff-only` works and moves main, or finds it at the target. */
  predicate PullWorks(h: History, s: State, pull: PullReply, branch: string) {
    branch in s.branches && pull.ok && h.ancestor(s.branches[branch], pull.target)
  }

  /** How the stash-protected part ends: HEAD and main are where they should be. */
  function RootBodyEnds(h: History, s: State, r: MainReplies, sha: Sha): Outcome {
    if PullWorks(h, s, r.pull, "main") then
      if !r.reset.confirmHead then Raised(CommandFailed)
      else if r.pull.target != sha then Raised(RefMismatch)
      else if r.reset.confirmBranch then Synced(sha) else Raised(CommandFailed)
    else if r.reset.fetch.ok && r.reset.reset && r.reset.confirmHead && r.reset.confirmBranch then Synced(sha)
    else Raised(CommandFailed)
  }

  lemma RootBodyIs(h: History, s: State, r: MainReplies, sha: Sha)
    requires s.head == On("main") && "main" in s.branches
    ensures var body := PullOrReset(h, s, sha, r.pull, r.reset);
      var pulls := PullWorks(h, s, r.pull, "main");
      var resets := !pulls && r.reset.fetch.ok && r.reset.reset;
      && body.outcome == RootBodyEnds(h, s, r, sha)
      && body.state.head == s.head && body.state.stash == s.stash
      && body.state.remotes == (if pulls then r.pull.remotes else r.reset.fetch.remotes)
      && body.state.branches == (if pulls then s.branches["main" := r.pull.target]
                                 else if resets then s.branches["main" := sha] else s.branches)
      && body.state.changes == if resets then set c | c in s.changes && !Discards(h, sha, c) else s.changes
  {
    DroppedAreDiscarded(h, s.changes, sha);
  }

  /** How a root sync ends. */
  ghost predicate RootEnds(h: History, s: State, r: MainReplies, outcome: Outcome) {
    match outcome
    case Skipped =>
      || FallsBack(s, r)
      || (Aim(s, r).Some? && SeesMain(s, r) && r.readsMain && s.branches["main"] != Aim(s, r).value
          && !Behind(h, s, r, Aim(s, r).value))
    case UpToDate => SeesMain(s, r) && r.readsMain && Aim(s, r) == Some(s.branches["main"])
    case Created(sha) => Aim(s, r) == Some(sha) && !SeesMain(s, r) && r.updateRef
    case FastForwarded(sha) => Aim(s, r) == Some(sha) && Behind(h, s, r, sha) && !VisiblyDirty(s, r) && r.updateRef
    case Synced(sha) => SyncsWithStash(h, s, r) && DirtyRootEnds(h, s, r) == Synced(sha)
    case Raised(MainMissing) => Aim(s, r).None? && !FallsBack(s, r)
    case Raised(error) =>
      || (SyncsWithStash(h, s, r) && DirtyRootEnds(h, s, r) == Raised(error))
      || (error.CommandFailed? && QueryOrUpdateFails(h, s, r))
  }

  predicate SyncsWithStash(h: History, s: State, r: MainReplies) {
    Aim(s, r).Some? && Behind(h, s, r, Aim(s, r).value) && VisiblyDirty(s, r)
  }

  /** Main cannot be read, or not be written where that is all there is to do. */
  predicate QueryOrUpdateFails(h: History, s: State, r: MainReplies) {
    && Aim(s, r).Some?
    && if SeesMain(s, r) then
         !r.readsMain || (Behind(h, s, r, Aim(s, r).value) && !VisiblyDirty(s, r) && !r.updateRef)
       else !r.updateRef
  }

  function DirtyRootEnds(h: History, s: State, r: MainReplies): Outcome
    requires Aim(s, r).Some?
  {
    if PushRefused(s, r.stash) then Raised(StashFailed)
    else EndsAfter(s, r.stash, RootBodyEnds(h, s, r, Aim(s, r).value))
  }

  /** What the synced, visibly dirty main leaves. */
  ghost predicate DirtyRootLeaves(h: History, s: State, r: MainReplies, sha: Sha, after: State) {
    if PushRefused(s, r.stash) then after == s
    else
      var pulls := PullWorks(h, s, r.pull, "main");
      var resets := !pulls && r.reset.fetch.ok && r.reset.reset;
      var kept := if Pushes(s, r.stash) then set c | c in s.changes && c.SubmoduleDirt? else s.changes;
      && after.head == s.head
      && after.remotes == (if pulls then r.pull.remotes else r.reset.fetch.remotes)
      && after.branches == (if pulls then s.branches["main" := r.pull.target]
                            else if resets then s.branches["main" := sha] else s.branches)
      && after.changes == (if resets then set c | c in kept && !Discards(h, sha, c) else kept)
                          + (if Pushes(s, r.stash) then BroughtBack(s, r.stash) else {})
      && after.stash == if !Pushes(s, r.stash) then s.stash
                        else if DropsEntry(s, r.stash) then Stack(s)[1..] else Stack(s)
  }

  lemma SyncCheckedOutIs(h: History, s: State, sha: Sha, r: MainReplies)
    requires s.head == On("main") && "main" in s.branches
    ensures var ran := SyncCheckedOutMain(h, s, sha, r);
      && ran.outcome == (if PushRefused(s, r.stash) then Raised(StashFailed)
                         else EndsAfter(s, r.stash, RootBodyEnds(h, s, r, sha)))
      && DirtyRootLeaves(h, s, r, sha, ran.state)
  {
    StashIs(s, r.stash);
    if !PushRefused(s, r.stash) {
      var stashed := AfterStash(s, r.stash);
      var body := PullOrReset(h, stashed, sha, r.pull, r.reset);
      RootBodyIs(h, stashed, r, sha);
      RestoreIs(s, r.stash, body.state, body.outcome);
    }
  }

  lemma AimIsTarget(s: State, r: MainReplies)
    ensures Target(s, r) == Aim(s, r)
    ensures Aim(s, r).None? ==> forall h ::
              SyncMain(h, s, r) == Ran(s.(remotes := if r.hasOrigin then r.fetch.remotes else s.remotes),
                                       if FallsBack(s, r) then Skipped else Raised(MainMissing))
    ensures Aim(s, r).Some? ==> r.hasOrigin
  {
  }

  lemma MoveMainEnds(h: History, s: State, r: MainReplies, fetched: State, sha: Sha)
    requires ValidHistory(h) && Aim(s, r) == Some(sha) && fetched == s.(remotes := r.fetch.remotes)
    ensures SyncsWithStash(h, s, r) ==> MoveMain(h, fetched, sha, r) == SyncCheckedOutMain(h, fetched, sha, r)
    ensures !SyncsWithStash(h, s, r) ==>
      var outcome := MoveMain(h, fetched, sha, r).outcome;
      if !SeesMain(s, r) then outcome == if r.updateRef then Created(sha) else Raised(CommandFailed)
      else if !r.readsMain then outcome == Raised(CommandFailed)
      else if s.branches["main"] == sha then outcome == UpToDate
      else if !Behind(h, s, r, sha) then outcome == Skipped
      else outcome == if r.updateRef then FastForwarded(sha) else Raised(CommandFailed)
  {
    if "main" in s.branches {
      CanFastForwardIff(h, s.branches["main"], sha);
    }
  }

  lemma DirtyRootIsIndependentOfRemotes(h: History, s: State, r: MainReplies, fetched: State)
    requires fetched == s.(remotes := r.fetch.remotes) && Aim(s, r).Some?
    ensures PushRefused(fetched, r.stash) == PushRefused(s, r.stash)
    ensures RootBodyEnds(h, fetched, r, Aim(s, r).value) == RootBodyEnds(h, s, r, Aim(s, r).value)
    ensures forall body :: EndsAfter(fetched, r.stash, body) == EndsAfter(s, r.stash, body)
  {
  }

  lemma EndsWithoutAim(h: History, s: State, r: MainReplies, outcome: Outcome)
    requires Aim(s, r).None?
    ensures RootEnds(h, s, r, outcome) <==> outcome == if FallsBack(s, r) then Skipped else Raised(MainMissing)
  {
  }

  lemma NeverUnaimedErrors(h: History, s: State, r: MainReplies)
    requires Aim(s, r).Some?
    ensures DirtyRootEnds(h, s, r) != Raised(MainMissing)
    ensures match DirtyRootEnds(h, s, r)
      case Synced(_) => true
      case Raised(_) => true
      case _ => false
  {
  }

  lemma EndsWhenSynced(h: History, s: State, r: MainReplies, outcome: Outcome)
    requires Aim(s, r).Some? && SyncsWithStash(h, s, r)
    ensures RootEnds(h, s, r, outcome) <==> outcome == DirtyRootEnds(h, s, r)
  {
    NeverUnaimedErrors(h, s, r);
  }

  lemma EndsWithAim(h: History, s: State, r: MainReplies, sha: Sha, outcome: Outcome)
    requires Aim(s, r) == Some(sha) && !SyncsWithStash(h, s, r)
    ensures RootEnds(h, s, r, outcome) <==>
      outcome == if !SeesMain(s, r) then if r.updateRef then Created(sha) else Raised(CommandFailed)
                 else if !r.readsMain then Raised(CommandFailed)
                 else if s.branches["main"] == sha then UpToDate
                 else if !Behind(h, s, r, sha) then Skipped
                 else if r.updateRef then FastForwarded(sha) else Raised(CommandFailed)
  {
  }

  /** The root sync ends with an outcome exactly under that outcome's condition. */
  lemma RootOutcomeIff(h: History, s: State, r: MainReplies, outcome: Outcome)
    requires ValidHistory(h)
    ensures SyncMain(h, s, r).outcome == outcome <==> RootEnds(h, s, r, outcome)
  {
    AimIsTarget(s, r);
    SyncMainIsMoveMain(h, s, r);
    if Aim(s, r).None? {
      EndsWithoutAim(h, s, r, outcome);
    } else {
      var fetched := s.(remotes := r.fetch.remotes);
      MoveMainEnds(h, s, r, fetched, Aim(s, r).value);
      if SyncsWithStash(h, s, r) {
        SyncCheckedOutIs(h, fetched, Aim(s, r).value, r);
        DirtyRootIsIndependentOfRemotes(h, s, r, fetched);
        EndsWhenSynced(h, s, r, outcome);
      } else {
        EndsWithAim(h, s, r, Aim(s, r).value, outcome);
      }
    }
  }

  /** What the root sync leaves, by outcome: unless a dirty main is synced, only refs move,
      and the files of a checked-out main do not follow. */
  ghost predicate RootLeaves(h: History, s: State, r: MainReplies, outcome: Outcome, after: State) {
    if SyncsWithStash(h, s, r) then
      DirtyRootLeaves(h, s.(remotes := r.fetch.remotes), r, Aim(s, r).value, after)
    else
      && after.remotes == (if r.hasOrigin then r.fetch.remotes else s.remotes)
      && after.head == s.head && after.stash == s.stash
      && match outcome
         case Created(sha) => MovesRefOnly(s, sha, after)
         case FastForwarded(sha) => MovesRefOnly(s, sha, after)
         case _ => after.branches == s.branches && after.changes == s.changes
  }

  ghost predicate MovesRefOnly(s: State, sha: Sha, after: State) {
    var was := if "main" in s.branches then Some(s.branches["main"]) else None;
    && after.branches == s.branches["main" := sha]
    && after.changes == if s.head == On("main") && was != Some(sha) then s.changes + {FilesOf(was)} else s.changes
  }

  lemma RefMoveIs(s: State, sha: Sha)
    ensures MovesRefOnly(s, sha, UpdateRef(s, "main", sha))
    ensures UpdateRef(s, "main", sha) == s.(branches := s.branches["main" := sha],
                                            changes := UpdateRef(s, "main", sha).changes)
  {
  }

  lemma RootStateIs(h: History, s: State, r: MainReplies)
    requires ValidHistory(h)
    ensures RootLeaves(h, s, r, SyncMain(h, s, r).outcome, SyncMain(h, s, r).state)
  {
    AimIsTarget(s, r);
    SyncMainIsMoveMain(h, s, r);
    if Aim(s, r).Some? {
      var fetched := s.(remotes := r.fetch.remotes);
      MoveMainEnds(h, s, r, fetched, Aim(s, r).value);
      if SyncsWithStash(h, s, r) {
        SyncCheckedOutIs(h, fetched, Aim(s, r).value, r);
      } else {
        RefMoveIs(fetched, Aim(s, r).value);
      }
    }
  }

  // ---------------------------------------------------------------- the worktree sync

  predicate ChecksOut(s: State, branch: string, r: BranchReplies) {
    r.checkout && (branch in s.branches || branch in s.remotes)
  }

  /** The branch, created from its remote ref if need be, and checked out. */
  function OnBranch(s: State, branch: string): State {
    State(if branch in s.branches then s.branches
          else if branch in s.remotes then s.branches[branch := s.remotes[branch]] else s.branches,
          s.remotes, On(branch), s.changes, s.stash)
  }

  predicate HasUpstream(s: State, branch: string, r: BranchReplies) {
    r.upstream.Some? && r.seesRemoteBranch && branch in s.remotes
  }

  predicate ReadsUpstream(r: BranchReplies) { r.upstreamAgain.Some? && r.upstreamSha.Some? }

  predicate BranchBehind(h: History, s: State, branch: string, r: BranchReplies)
    requires branch in s.branches && r.upstreamSha.Some?
  {
    r.mergeBase && s.branches[branch] != r.upstreamSha.value && h.ancestor(s.branches[branch], r.upstreamSha.value)
  }

  /** How the stash-protected part ends, on the checked-out branch. */
  function BranchBodyEnds(h: History, s: State, branch: string, r: BranchReplies): Outcome
    requires branch in s.branches
  {
    if PullWorks(h, s, r.pull, branch) then
      if !ReadsUpstream(r) || !r.reset.confirmHead then Raised(CommandFailed)
      else if r.pull.target != r.upstreamSha.value then Raised(RefMismatch)
      else if r.reset.confirmBranch then Synced(r.upstreamSha.value) else Raised(CommandFailed)
    else if r.pull.noTracking then Skipped
    else if !r.reset.fetch.ok || !r.readsBranch || !ReadsUpstream(r) then Raised(CommandFailed)
    else if !BranchBehind(h, s, branch, r) then Raised(NotFastForward)
    else if r.reset.reset && r.reset.confirmHead && r.reset.confirmBranch then Synced(r.upstreamSha.value)
    else Raised(CommandFailed)
  }

  /** The part gets to `reset --hard`, which works. */
  predicate BranchIsReset(h: History, s: State, branch: string, r: BranchReplies)
    requires branch in s.branches
  {
    && !PullWorks(h, s, r.pull, branch) && !r.pull.noTracking && r.reset.fetch.ok && r.readsBranch && ReadsUpstream(r)
    && BranchBehind(h, s, branch, r) && r.reset.reset
  }

  function BranchRemotes(h: History, s: State, branch: string, r: BranchReplies): map<string, Sha> {
    if PullWorks(h, s, r.pull, branch) || r.pull.noTracking then r.pull.remotes else r.reset.fetch.remotes
  }

  lemma BranchBodyIs(h: History, s: State, branch: string, r: BranchReplies)
    requires ValidHistory(h) && s.head == On(branch) && branch in s.branches
    ensures var body := PullBranch(h, s, branch, r);
      && body.outcome == BranchBodyEnds(h, s, branch, r)
      && body.state.head == s.head && body.state.stash == s.stash
      && body.state.remotes == BranchRemotes(h, s, branch, r)
      && body.state.branches == (if PullWorks(h, s, r.pull, branch) then s.branches[branch := r.pull.target]
                                 else if BranchIsReset(h, s, branch, r) then s.branches[branch := r.upstreamSha.value]
                                 else s.branches)
      && body.state.changes == if BranchIsReset(h, s, branch, r)
                               then set c | c in s.changes && !Discards(h, r.upstreamSha.value, c) else s.changes
  {
    if r.upstreamSha.Some? {
      DroppedAreDiscarded(h, s.changes, r.upstreamSha.value);
      CanFastForwardIff(h, s.branches[branch], r.upstreamSha.value);
    }
  }

  /** How a worktree sync ends. */
  function BranchEnds(h: History, s: State, branch: string, r: BranchReplies): Outcome {
    if !ChecksOut(s, branch, r) then Raised(CommandFailed)
    else if !HasUpstream(s, branch, r) then Skipped
    else if PushRefused(s, r.stash) then Raised(StashFailed)
    else EndsAfter(s, r.stash, BranchBodyEnds(h, OnBranch(s, branch), branch, r))
  }

  /** The worktree sync reports `Synced` exactly for an upstream commit that the branch was
      pulled or reset to, with both refs confirmed and the stash back. */
  ghost predicate BranchSyncs(h: History, s: State, branch: string, r: BranchReplies, sha: Sha) {
    && ChecksOut(s, branch, r) && HasUpstream(s, branch, r)
    && !PushRefused(s, r.stash) && RestoreWorks(s, r.stash)
    && ReadsUpstream(r) && r.upstreamSha.value == sha && r.reset.confirmHead && r.reset.confirmBranch
    && var on := OnBranch(s, branch);
       if PullWorks(h, on, r.pull, branch) then r.pull.target == sha else BranchIsReset(h, on, branch, r)
  }

  /** It is skipped exactly without an upstream, or when the pull finds no tracking
      information and the stash is back. */
  ghost predicate BranchSkips(h: History, s: State, branch: string, r: BranchReplies) {
    && ChecksOut(s, branch, r)
    && (HasUpstream(s, branch, r) ==>
          && !PushRefused(s, r.stash) && RestoreWorks(s, r.stash)
          && !PullWorks(h, OnBranch(s, branch), r.pull, branch) && r.pull.noTracking)
  }

  /** What the worktree sync leaves. */
  ghost predicate BranchLeaves(h: History, s: State, branch: string, r: BranchReplies, after: State) {
    if !ChecksOut(s, branch, r) then after == s
    else
      var on := OnBranch(s, branch);
      if !HasUpstream(s, branch, r) || PushRefused(s, r.stash) then after == on
      else
        var resets := BranchIsReset(h, on, branch, r);
        var kept := if Pushes(s, r.stash) then set c | c in s.changes && c.SubmoduleDirt? else s.changes;
        && after.head == On(branch) && after.remotes == BranchRemotes(h, on, branch, r)
        && after.branches == (if PullWorks(h, on, r.pull, branch) then on.branches[branch := r.pull.target]
                              else if resets then on.branches[branch := r.upstreamSha.value] else on.branches)
        && after.changes == (if resets then set c | c in kept && !Discards(h, r.upstreamSha.value, c) else kept)
                            + (if Pushes(s, r.stash) then BroughtBack(s, r.stash) else {})
        && after.stash == if !Pushes(s, r.stash) then s.stash
                          else if DropsEntry(s, r.stash) then Stack(s)[1..] else Stack(s)
  }

  lemma SyncReusedIs(h: History, s: State, branch: string, r: BranchReplies)
    requires ValidHistory(h)
    ensures SyncReusedBranch(h, s, branch, r).outcome == BranchEnds(h, s, branch, r)
    ensures BranchLeaves(h, s, branch, r, SyncReusedBranch(h, s, branch, r).state)
  {
    if ChecksOut(s, branch, r) {
      assert CheckedOut(s, branch) == OnBranch(s, branch);
      if HasUpstream(s, branch, r) {
        StashedBranchIs(h, s, branch, r);
      }
    }
  }

  lemma StashedBranchIs(h: History, s: State, branch: string, r: BranchReplies)
    requires ValidHistory(h) && ChecksOut(s, branch, r) && HasUpstream(s, branch, r)
    requires CheckedOut(s, branch) == OnBranch(s, branch)
    ensures SyncReusedBranch(h, s, branch, r).outcome == BranchEnds(h, s, branch, r)
    ensures BranchLeaves(h, s, branch, r, SyncReusedBranch(h, s, branch, r).state)
  {
    var on := OnBranch(s, branch);
    StashIs(on, r.stash);
    if !PushRefused(on, r.stash) {
      var body := PullBranch(h, AfterStash(on, r.stash), branch, r);
      RestoredBranchIs(h, s, branch, r, on, body, Restore(body.state, Stash(on, r.stash), r.stash, body.outcome));
    }
  }

  lemma RestoredBranchIs(h: History, s: State, branch: string, r: BranchReplies, on: State, body: Ran, ran: Ran)
    requires ValidHistory(h) && ChecksOut(s, branch, r) && HasUpstream(s, branch, r)
    requires on == OnBranch(s, branch) && !PushRefused(on, r.stash)
    requires body == PullBranch(h, AfterStash(on, r.stash), branch, r)
    requires ran == Restore(body.state, Stash(on, r.stash), r.stash, body.outcome)
    ensures ran.outcome == BranchEnds(h, s, branch, r) && BranchLeaves(h, s, branch, r, ran.state)
  {
    StashIs(on, r.stash);
    BranchBodyIs(h, AfterStash(on, r.stash), branch, r);
    RestoreIs(on, r.stash, body.state, body.outcome);
  }

  /** The worktree sync ends with an outcome exactly under that outcome's condition; the
      root sync's own outcomes never occur. */
  lemma BranchOutcomeIff(h: History, s: State, branch: string, r: BranchReplies, outcome: Outcome)
    requires ValidHistory(h)
    ensures SyncReusedBranch(h, s, branch, r).outcome == outcome <==>
      match outcome
      case Synced(sha) => BranchSyncs(h, s, branch, r, sha)
      case Skipped => BranchSkips(h, s, branch, r)
      case Raised(error) => BranchEnds(h, s, branch, r) == Raised(error)
      case UpToDate => false
      case Created(_) => false
      case FastForwarded(_) => false
  {
    SyncReusedIs(h, s, branch, r);
  }
}
