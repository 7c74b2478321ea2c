/** The leaves below a context's targets: what a commit makes of targets marked obsolete,
    and the rest of a kdamond, which a commit takes over as it is staged. */
module TargetLeaves {
  import opened Outcomes
  import opened Paths
  import opened KernelTree
  import opened Config
  import opened Validity

  /** Whether a leaf lies in the `targets` directory of some context. */
  predicate IsTargetLeaf(K: Schema, p: Path) {
    |K.base| + 4 < |p| && p[|K.base| + 1] == "contexts" && p[|K.base| + 3] == "targets"
  }

  /** The `targets` directory of a context. */
  function TargetsDir(K: Schema, k: nat, context: Component): Path {
    KdamondDir(K, k) + ["contexts", context, "targets"]
  }

  /** Target leaves of a kdamond are what lies below the `targets` directories of its contexts. */
  lemma TargetLeavesLieBelow(K: Schema, k: nat, p: Path)
    requires KdamondDir(K, k) <= p
    ensures IsTargetLeaf(K, p) <==> exists context :: TargetsDir(K, k, context) < p
  {
    if IsTargetLeaf(K, p) { assert TargetsDir(K, k, p[|K.base| + 2]) < p; }
  }

  function TargetPart(K: Schema, s: Tree): Tree {
    map p | p in s && IsTargetLeaf(K, p) :: s[p]
  }

  /** What a kdamond runs after committing the staged subtree `s`: everything as staged,
      except that the kernel settles the targets. */
  function Settle(K: Schema, s: Tree): Tree {
    (map p | p in s && !IsTargetLeaf(K, p) :: s[p]) + K.settle(TargetPart(K, s))
  }

  lemma SettleParts(K: Schema, s: Tree)
    requires forall p | p in K.settle(TargetPart(K, s)) :: IsTargetLeaf(K, p)
    ensures SameElsewhere(K, {}, s, Settle(K, s)) && TargetPart(K, Settle(K, s)) == K.settle(TargetPart(K, s))
  {
  }

  ghost predicate NoTargets(K: Schema, paths: set<Path>) {
    forall p | p in paths :: !IsTargetLeaf(K, p)
  }

  /** The same leaves apart from targets, with the same values outside `loose`. */
  ghost predicate SameElsewhere(K: Schema, loose: set<Path>, t: Tree, u: Tree) {
    forall p | !IsTargetLeaf(K, p) :: (p in t <==> p in u) && (p in t && p !in loose ==> t[p] == u[p])
  }

  lemma SameElsewhereTransitive(K: Schema, loose: set<Path>, t: Tree, u: Tree, v: Tree)
    requires SameElsewhere(K, loose, t, u) && SameElsewhere(K, loose, u, v)
    ensures SameElsewhere(K, loose, t, v)
  {
  }

  lemma SameElsewhereSymmetric(K: Schema, loose: set<Path>, t: Tree, u: Tree)
    requires SameElsewhere(K, loose, t, u)
    ensures SameElsewhere(K, loose, u, t)
  {
  }

  lemma SameElsewhereWidens(K: Schema, loose: set<Path>, wider: set<Path>, t: Tree, u: Tree)
    requires SameElsewhere(K, loose, t, u) && loose <= wider
    ensures SameElsewhere(K, wider, t, u)
  {
  }

  lemma CalmIsSameElsewhere(K: Schema, loose: set<Path>, t: Tree, u: Tree)
    requires Calm(loose, t, u)
    ensures SameElsewhere(K, loose, t, u)
  {
  }

  /** Leaves that are no targets leave the targets alone. */
  lemma CalmKeepsTargets(K: Schema, loose: set<Path>, t: Tree, u: Tree)
    requires Calm(loose, t, u) && NoTargets(K, loose)
    ensures TargetPart(K, t) == TargetPart(K, u)
  {
  }

  /** A write to a target leaf, even to a count, changes target leaves only. */
  lemma TargetWriteStaysBelow(K: Schema, t: Tree, p: Path, v: string)
    requires K.Lawful() && Legal(K, t, p, v) && IsTargetLeaf(K, p)
    ensures SameElsewhere(K, {}, t, AfterWrite(K, t, p, v))
  {
    var u := AfterWrite(K, t, p, v);
    if K.Rebuilds(p) {
      forall q | !IsTargetLeaf(K, q) ensures (q in t <==> q in u) && (q in t ==> t[q] == u[q]) {
        if q in Created(K, p, K.number(v).value) {
          var i, r :| 0 <= i < K.number(v).value && r in K.children(p, i) && q == K.Child(p, i, r);
          CreatedLeaf(K, p, i, r);
        }
      }
    }
  }

  // ---------- targets as the readers see them ----------

  /** The targets of each context. */
  function TargetsOf(k: KdamondConfig): (targets: seq<seq<TargetConfig>>)
    ensures |targets| == |k.contexts| && forall i | 0 <= i < |targets| :: targets[i] == k.contexts[i].targets
  {
    seq(|k.contexts|, i requires 0 <= i < |k.contexts| => k.contexts[i].targets)
  }

  function RetainEach(targets: seq<seq<TargetConfig>>): (kept: seq<seq<TargetConfig>>)
    ensures |kept| == |targets| && forall i | 0 <= i < |kept| :: kept[i] == Retained(targets[i])
  {
    seq(|targets|, i requires 0 <= i < |targets| => Retained(targets[i]))
  }

  predicate Unmarked(targets: seq<seq<TargetConfig>>) {
    forall ts, t | ts in targets && t in ts :: !t.obsolete
  }

  lemma NothingMarked(k: KdamondConfig)
    ensures !HasObsolete(k) ==> Unmarked(TargetsOf(k))
  {
    if !HasObsolete(k) {
      forall ts, t | ts in TargetsOf(k) && t in ts ensures !t.obsolete {
        var i :| 0 <= i < |k.contexts| && TargetsOf(k)[i] == ts;
        assert k.contexts[i] in k.contexts && t in k.contexts[i].targets;
      }
    }
  }

  /** Retention changes nothing where nothing is marked. */
  lemma RetainsUnmarked(targets: seq<seq<TargetConfig>>)
    requires Unmarked(targets)
    ensures RetainEach(targets) == targets
  {
    forall i | 0 <= i < |targets| ensures Retained(targets[i]) == targets[i] {
      assert targets[i] in targets;
      assert forall n | 0 <= n < |targets[i]| :: targets[i][n] in targets[i];
      AllRetained(targets[i]);
    }
  }

  /** What is retained is unmarked, and is what dropping the obsolete targets leaves. */
  lemma RetainedIsDropped(k: KdamondConfig)
    ensures RetainEach(TargetsOf(k)) == TargetsOf(DropObsolete(k)) && Unmarked(RetainEach(TargetsOf(k)))
  {
    forall ts, t | ts in RetainEach(TargetsOf(k)) && t in ts ensures !t.obsolete {
      var i :| 0 <= i < |k.contexts| && RetainEach(TargetsOf(k))[i] == ts;
      RetainedMembers(k.contexts[i].targets);
    }
  }

  /** Kernel normalisation never touches targets. */
  lemma EquivalentHasSameTargets(request: DamonConfig, observed: DamonConfig, k: nat)
    requires EquivalentAfterKernelNormalization(request, observed) && k < |observed.kdamonds|
    ensures k < |request.kdamonds| && TargetsOf(request.kdamonds[k]) == TargetsOf(observed.kdamonds[k])
  {
    hide Canonical, PatternEquivalent;
    var n := if request == observed then request else Normalize(request, observed);
    assert n.kdamonds[k] == observed.kdamonds[k];
    forall c | 0 <= c < |request.kdamonds[k].contexts| ensures request.kdamonds[k].contexts[c].targets == n.kdamonds[k].contexts[c].targets {
    }
  }

  lemma AdoptTunedKeepsTargets(requested: DamonConfig, previous: Option<DamonConfig>, observed: DamonConfig, k: nat)
    requires k < |observed.kdamonds|
    ensures k < |AdoptTuned(requested, previous, observed).kdamonds|
    ensures TargetsOf(AdoptTuned(requested, previous, observed).kdamonds[k]) == TargetsOf(observed.kdamonds[k])
  {
  }
}
