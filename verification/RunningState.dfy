/** What kdamonds run, compared with what is staged for them. */
module RunningState {
  import opened Outcomes
  import opened Paths
  import opened KernelTree
  import opened Config
  import opened TargetLeaves
  import opened SysfsModel

  /** Reads the target leaves of one kdamond. */
  type TargetReader = Tree -> Option<seq<seq<TargetConfig>>>

  /** Kdamond `i` runs what committing `t` makes it run: the staged subtree of a tree that is
      `t`, retuned leaves apart, with its targets settled. */
  ghost predicate RunsAsStaged(K: Schema, loose: set<Path>, active: map<nat, Tree>, t: Tree, i: nat) {
    i in active && exists s: Tree :: Calm(loose, Subtree(t, KdamondDir(K, i)), s) && active[i] == Settle(K, s)
  }

  lemma RunsByDrift(K: Schema, loose: set<Path>, active: map<nat, Tree>, t: Tree, u: Tree, i: nat)
    requires RunsAsStaged(K, loose, active, t, i) && Calm(loose, t, u)
    ensures RunsAsStaged(K, loose, active, u, i)
  {
    SubtreeCalm(loose, t, u, KdamondDir(K, i));
    var s: Tree :| Calm(loose, Subtree(t, KdamondDir(K, i)), s) && active[i] == Settle(K, s);
    CalmWidens(loose, loose, Subtree(t, KdamondDir(K, i)), Subtree(u, KdamondDir(K, i)));
    CalmTransitive(loose, Subtree(u, KdamondDir(K, i)), Subtree(t, KdamondDir(K, i)), s);
  }

  lemma HandedOver(K: Schema, loose: set<Path>, active: map<nat, Tree>, handed: Tree, u: Tree, i: nat)
    requires i in active && active[i] == Settle(K, Subtree(handed, KdamondDir(K, i))) && Calm(loose, handed, u)
    ensures RunsAsStaged(K, loose, active, u, i)
  {
    SubtreeCalm(loose, handed, u, KdamondDir(K, i));
    CalmWidens(loose, loose, Subtree(handed, KdamondDir(K, i)), Subtree(u, KdamondDir(K, i)));
  }

  /** Commands that leave every kdamond but the listed ones running what it ran. */
  ghost predicate SparesOthers(before: map<nat, Tree>, after: map<nat, Tree>, listed: seq<nat>) {
    forall i | i !in listed :: (i in before <==> i in after) && (i in before ==> before[i] == after[i])
  }

  // ---------- in step ----------

  function StagedTargets(K: Schema, targets: TargetReader, t: Tree, i: nat): Option<seq<seq<TargetConfig>>> {
    targets(TargetPart(K, Subtree(t, KdamondDir(K, i))))
  }

  /** No target staged for kdamond `i` is marked obsolete. */
  ghost predicate Clean(K: Schema, targets: TargetReader, t: Tree, i: nat) {
    var staged := StagedTargets(K, targets, t, i);
    staged.Some? && Unmarked(staged.value)
  }

  /** The same configuration, read leaf by leaf, except that targets are compared as the
      readers see them, and leaves in `loose` not at all. */
  ghost predicate SameRunning(K: Schema, loose: set<Path>, targets: TargetReader, a: Tree, b: Tree) {
    SameElsewhere(K, loose, a, b) && targets(TargetPart(K, a)) == targets(TargetPart(K, b))
  }

  /** Kdamond `i` runs exactly what is staged for it. */
  ghost predicate InStepAt(K: Schema, loose: set<Path>, targets: TargetReader, active: map<nat, Tree>, t: Tree, i: nat) {
    i in active && SameRunning(K, loose, targets, Subtree(t, KdamondDir(K, i)), active[i])
  }

  lemma CleanBelow(K: Schema, loose: set<Path>, targets: TargetReader, t: Tree, u: Tree, i: nat)
    requires Clean(K, targets, t, i) && Calm(loose, Subtree(t, KdamondDir(K, i)), Subtree(u, KdamondDir(K, i))) && NoTargets(K, loose)
    ensures Clean(K, targets, u, i)
  {
    CalmKeepsTargets(K, loose, Subtree(t, KdamondDir(K, i)), Subtree(u, KdamondDir(K, i)));
  }

  /** As long as neither the kdamond's own staged leaves nor what it runs changes. */
  lemma InStepBelow(K: Schema, loose: set<Path>, targets: TargetReader, active0: map<nat, Tree>, t: Tree, active: map<nat, Tree>, u: Tree, i: nat)
    requires InStepAt(K, loose, targets, active0, t, i) && NoTargets(K, loose)
    requires Calm(loose, Subtree(t, KdamondDir(K, i)), Subtree(u, KdamondDir(K, i))) && i in active && active[i] == active0[i]
    ensures InStepAt(K, loose, targets, active, u, i)
  {
    CalmKeepsTargets(K, loose, Subtree(t, KdamondDir(K, i)), Subtree(u, KdamondDir(K, i)));
  }

  lemma CleanByDrift(K: Schema, loose: set<Path>, targets: TargetReader, t: Tree, u: Tree, i: nat)
    requires Clean(K, targets, t, i) && Calm(loose, t, u) && NoTargets(K, loose)
    ensures Clean(K, targets, u, i)
  {
    SubtreeCalm(loose, t, u, KdamondDir(K, i));
    CalmKeepsTargets(K, loose, Subtree(t, KdamondDir(K, i)), Subtree(u, KdamondDir(K, i)));
  }

  lemma InStepByDrift(K: Schema, loose: set<Path>, targets: TargetReader, active: map<nat, Tree>, t: Tree, u: Tree, i: nat)
    requires InStepAt(K, loose, targets, active, t, i) && Calm(loose, t, u) && NoTargets(K, loose)
    ensures InStepAt(K, loose, targets, active, u, i)
  {
    var s, s' := Subtree(t, KdamondDir(K, i)), Subtree(u, KdamondDir(K, i));
    SubtreeCalm(loose, t, u, KdamondDir(K, i));
    CalmKeepsTargets(K, loose, s, s');
  }

  /** A kdamond just turned on runs what is staged for it. */
  lemma TurnedOnInStep(K: Schema, loose: set<Path>, targets: TargetReader, active: map<nat, Tree>, handed: Tree, u: Tree, i: nat)
    requires i in active && active[i] == Subtree(handed, KdamondDir(K, i)) && Calm(loose, handed, u) && NoTargets(K, loose)
    ensures InStepAt(K, loose, targets, active, u, i)
  {
    SubtreeCalm(loose, handed, u, KdamondDir(K, i));
    CalmKeepsTargets(K, loose, active[i], Subtree(u, KdamondDir(K, i)));
  }

  /** After a commit a kdamond runs the targets that were not marked, and everything else as staged. */
  lemma CommittedRuns(K: Schema, loose: set<Path>, reader: Tree -> Option<DamonConfig>, targets: TargetReader, active: map<nat, Tree>, t: Tree, i: nat)
    requires RunsAsStaged(K, loose, active, t, i) && NoTargets(K, loose) && ReadersLawful(K, reader, targets)
    ensures SameElsewhere(K, loose, Subtree(t, KdamondDir(K, i)), active[i])
    ensures StagedTargets(K, targets, t, i).Some? ==>
              targets(TargetPart(K, active[i])) == Some(RetainEach(StagedTargets(K, targets, t, i).value))
  {
    var staged := Subtree(t, KdamondDir(K, i));
    var s: Tree :| Calm(loose, staged, s) && active[i] == Settle(K, s);
    CalmKeepsTargets(K, loose, staged, s);
    SettleParts(K, s);
    CalmIsSameElsewhere(K, loose, staged, s);
    hide Calm, NoTargets, Settle, SameElsewhere;
    SameElsewhereWidens(K, {}, loose, s, active[i]);
    SameElsewhereTransitive(K, loose, staged, s, active[i]);
  }

  /** A commit of a hierarchy without marked targets leaves the kdamond in step. */
  lemma CommittedInStep(K: Schema, loose: set<Path>, reader: Tree -> Option<DamonConfig>, targets: TargetReader, active: map<nat, Tree>, t: Tree, i: nat)
    requires RunsAsStaged(K, loose, active, t, i) && Clean(K, targets, t, i)
    requires NoTargets(K, loose) && ReadersLawful(K, reader, targets)
    ensures InStepAt(K, loose, targets, active, t, i)
  {
    CommittedRuns(K, loose, reader, targets, active, t, i);
    RetainsUnmarked(StagedTargets(K, targets, t, i).value);
  }

  /** A kdamond in step before and after, with the same hierarchy staged, runs what it ran. */
  lemma InStepTwice(K: Schema, loose: set<Path>, wider: set<Path>, targets: TargetReader,
                    active0: map<nat, Tree>, files0: Tree, active: map<nat, Tree>, files: Tree, i: nat)
    requires InStepAt(K, loose, targets, active0, files0, i) && InStepAt(K, loose, targets, active, files, i)
    requires Calm(wider, files0, files) && loose <= wider && NoTargets(K, wider)
    ensures SameRunning(K, wider, targets, active0[i], active[i])
  {
    var s0, s := Subtree(files0, KdamondDir(K, i)), Subtree(files, KdamondDir(K, i));
    SubtreeCalm(wider, files0, files, KdamondDir(K, i));
    CalmKeepsTargets(K, wider, s0, s);
  }

  /** The typed view of a whole tree shows which targets each kdamond has staged. */
  lemma ReadTargets(K: Schema, reader: Tree -> Option<DamonConfig>, targets: TargetReader, t: Tree, i: nat)
    requires ReadersLawful(K, reader, targets) && reader(t).Some? && i < |reader(t).value.kdamonds|
    ensures StagedTargets(K, targets, t, i) == Some(TargetsOf(reader(t).value.kdamonds[i]))
  {
  }
}
