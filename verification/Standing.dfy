/** The configuration a session stands by: the one the hierarchy it owns was read back as. */
module Standing {
  import opened Outcomes
  import opened Paths
  import opened KernelTree
  import opened Restoration
  import opened Config
  import opened TuningGoals
  import opened SysfsModel
  import opened Snapshots
  import opened Hierarchy
  import opened Updates
  import opened OnlineUpdates
  import opened Transactions
  import opened CapturedReceipts

  /** `t` reads back as `config`, apart from intervals the kernel retunes. */
  ghost predicate Stages(sys: Sysfs, config: DamonConfig, t: Tree) {
    exists seen: Tree, observed: Option<DamonConfig> :: StagesSeen(sys, config, t, seen, observed)
  }

  ghost predicate StagesSeen(sys: Sysfs, config: DamonConfig, t: Tree, seen: Tree, observed: Option<DamonConfig>) {
    Realises(sys, config, observed, seen) && Calm(VolatilePaths(sys.schema, config) + sys.retuned, seen, t)
  }

  /** What the session owns is a capture of `config`. */
  ghost predicate Stands(h: ManagedHierarchy, config: DamonConfig)
    reads h`staged
  {
    Sorted(h.staged.entries) && (h.sys.exclusive ==> Stages(h.sys, config, Values(h.staged.entries)))
  }

  lemma StagesByDrift(sys: Sysfs, config: DamonConfig, t: Tree, u: Tree)
    requires Stages(sys, config, t) && Calm(VolatilePaths(sys.schema, config) + sys.retuned, t, u)
    ensures Stages(sys, config, u)
  {
    var seen: Tree, observed: Option<DamonConfig> :| StagesSeen(sys, config, t, seen, observed);
    CalmTransitive(VolatilePaths(sys.schema, config) + sys.retuned, seen, t, u);
    assert StagesSeen(sys, config, u, seen, observed);
  }

  /** The owned capture is the staged tree, apart from what the kernel retunes. */
  lemma OwnedMatches(h: ManagedHierarchy)
    requires h.Valid() && h.sys.exclusive && h.InStep()
    ensures Calm(h.staged.volatile + h.sys.retuned, Values(h.staged.entries), h.sys.files)
  {
    assert h.sys.schema.Valid() && Consistent(h.sys.schema, h.sys.files) && NoCounts(h.staged.volatile + h.sys.retuned);
    hide ManagedHierarchy.Valid, SysfsModel.Sysfs.Valid, Schema.Valid, Agrees, Consistent, Values, TunedAs, InStepIn,
         Calm;
    AgreementFixesShape(h.sys.schema, h.staged.entries, h.staged.volatile + h.sys.retuned, h.sys.files);
  }

  /** A session in step that stands by a configuration owns the leaves it makes volatile. */
  lemma VolatileAsStood(h: ManagedHierarchy, config: DamonConfig)
    requires h.Valid() && h.sys.exclusive && h.InStep() && Stands(h, config)
    ensures h.staged.volatile == VolatilePaths(h.sys.schema, config)
  {
    var K, entries := h.sys.schema, Values(h.staged.entries);
    var seen: Tree, observed: Option<DamonConfig> :| StagesSeen(h.sys, config, entries, seen, observed);
    OwnedCapture(h);
    assert K.Lawful() && OnlyIntervals(h.sys.retuned) && h.sys.Valid();
    RealisedIsTuned(h.sys, config, observed, seen);
    VolatileIsIntervals(K, config);
    hide ManagedHierarchy.Valid, SysfsModel.Sysfs.Valid, Schema.Lawful, TunedAs, VolatilePaths, Realises, Calm,
         Values, ManagedHierarchy.InStep, SameTuning;
    CalmIsSameTuning(K, VolatilePaths(K, config) + h.sys.retuned, seen, entries);
    TunedAsKept(K, seen, entries, VolatilePaths(K, config), |config.kdamonds|);
    TunedAsIsUnique(K, entries, h.staged.volatile, h.staged.count, VolatilePaths(K, config), |config.kdamonds|);
  }

  /** The staged tree reads back as what the session stands by. */
  lemma StandsAndStages(h: ManagedHierarchy, config: DamonConfig)
    requires h.Valid() && h.sys.exclusive && h.InStep() && Stands(h, config)
    ensures Stages(h.sys, config, h.sys.files)
  {
    VolatileAsStood(h, config);
    OwnedMatches(h);
    assert Sorted(h.staged.entries);
    hide ManagedHierarchy.Valid, Stages, Calm, VolatilePaths, Values, ManagedHierarchy.InStep;
    StagesByDrift(h.sys, config, Values(h.staged.entries), h.sys.files);
  }

  /** And conversely, when the volatile leaves owned are those of the configuration. */
  lemma StagesAndStands(h: ManagedHierarchy, config: DamonConfig)
    requires h.Valid() && h.sys.exclusive && h.InStep()
    requires Stages(h.sys, config, h.sys.files) && h.staged.volatile == VolatilePaths(h.sys.schema, config)
    ensures Stands(h, config)
  {
    OwnedMatches(h);
    var ignored := h.staged.volatile + h.sys.retuned;
    CalmWidens(ignored, ignored, Values(h.staged.entries), h.sys.files);
    StagesByDrift(h.sys, config, h.sys.files, Values(h.staged.entries));
  }

  // ---------- what operations leave standing ----------

  lemma StandsAfterUpdate(h: ManagedHierarchy, config: DamonConfig, observed: Option<DamonConfig>, selected: seq<nat>, seen: Tree, final: Tree)
    requires h.Valid() && h.sys.exclusive && h.InStep() && forall n | n in selected :: n < |config.kdamonds|
    requires Updated(h.sys, config, observed, selected, seen, final, h.staged) && !ContainsObsolete(config, selected)
    ensures Stands(h, config)
  {
    CalmWidens(h.sys.retuned, VolatilePaths(h.sys.schema, config) + h.sys.retuned, final, h.sys.files);
    assert StagesSeen(h.sys, config, h.sys.files, final, observed);
    hide ManagedHierarchy.Valid, ManagedHierarchy.InStep, StagesSeen, Calm, VolatilePaths;
    StagesAndStands(h, config);
  }

  /** An undone operation leaves standing what stood. */
  lemma StandsAfterUndo(h: ManagedHierarchy, config: DamonConfig, volatile: set<Path>, count: nat, files0: Tree)
    requires h.Valid() && h.sys.exclusive && h.InStep()
    requires Stages(h.sys, config, files0) && volatile == VolatilePaths(h.sys.schema, config) && TunedAs(h.sys.schema, files0, volatile, count)
    requires Calm(volatile + h.sys.retuned, files0, h.sys.files)
    ensures Stands(h, config)
  {
    var K := h.sys.schema;
    assert K.Lawful() && OnlyIntervals(h.sys.retuned) && TunedAs(K, h.sys.files, h.staged.volatile, h.staged.count);
    VolatileIsIntervals(K, config);
    StagesByDrift(h.sys, config, files0, h.sys.files);
    hide ManagedHierarchy.Valid, ManagedHierarchy.InStep, Stages, Calm, VolatilePaths, TunedAs, Schema.Lawful,
         SameTuning;
    CalmIsSameTuning(K, volatile + h.sys.retuned, files0, h.sys.files);
    TunedAsKept(K, files0, h.sys.files, volatile, count);
    TunedAsIsUnique(K, h.sys.files, volatile, count, h.staged.volatile, h.staged.count);
    StagesAndStands(h, config);
  }

  lemma StandsAfterOpen(h: ManagedHierarchy, earlier: seq<Event>, config: DamonConfig)
    requires h.Valid() && StagedAs(h.sys, earlier, config, h.staged.entries)
    ensures Stands(h, config)
  {
    if h.sys.exclusive {
      var t: Tree :| Reads(h.sys, t, config);
      var entries, wider := Values(h.staged.entries), VolatilePaths(h.sys.schema, config) + h.sys.retuned;
      AdoptsNothing(config, h.sys.reader(t).value);
      CalmWidens(h.sys.retuned, h.sys.retuned, entries, h.sys.files);
      CalmTransitive(h.sys.retuned, t, h.sys.files, entries);
      CalmWidens(h.sys.retuned, wider, t, entries);
      assert StagesSeen(h.sys, config, entries, t, None);
    }
  }

  /** An equivalent readback already has the requested intervals. */
  lemma AdoptsNothing(config: DamonConfig, observed: DamonConfig)
    requires EquivalentAfterKernelNormalization(config, observed)
    ensures AdoptTuned(config, None, observed) == observed
  {
    hide Canonical, PatternEquivalent;
    var adopted, n := AdoptTuned(config, None, observed), if config == observed then config else Normalize(config, observed);
    forall k | 0 <= k < |observed.kdamonds| ensures adopted.kdamonds[k] == observed.kdamonds[k] {
      var a, b, m := adopted.kdamonds[k], observed.kdamonds[k], n.kdamonds[k];
      forall c | 0 <= c < |b.contexts| ensures a.contexts[c] == b.contexts[c] {
        assert m.contexts[c].intervals == config.kdamonds[k].contexts[c].intervals;
      }
      assert a.contexts == b.contexts;
    }
  }
}
