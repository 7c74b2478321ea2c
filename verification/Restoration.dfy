/** Why a captured hierarchy can be written back leaf by leaf: the order in which
    leaves are restored, the closure of a write journal, and what a restoration
    of that closure reaches and leaves alone. */
module Restoration {
  import opened Outcomes
  import opened Paths
  import opened KernelTree

  // ---------- restoration order ----------

  /** The key (depth, count files first, path), compared lexicographically. */
  predicate KeyLess(p: Path, q: Path) {
    Depth(p) < Depth(q)
    || (Depth(p) == Depth(q)
        && if IsReconstructionCount(p) != IsReconstructionCount(q)
           then IsReconstructionCount(p)
           else PathLess(p, q))
  }

  lemma KeyOrderTotal(p: Path, q: Path)
    ensures p == q || KeyLess(p, q) || KeyLess(q, p)
    ensures !(KeyLess(p, q) && KeyLess(q, p))
    ensures p == q ==> !KeyLess(p, q)
  {
    PathOrderTotal(p, q);
  }

  lemma KeyLessTransitive(p: Path, q: Path, r: Path)
    requires KeyLess(p, q) && KeyLess(q, r)
    ensures KeyLess(p, r)
  {
    if PathLess(p, q) && PathLess(q, r) { PathLessTransitive(p, q, r); }
  }

  ghost predicate KeySorted(order: seq<Path>) {
    forall i, j | 0 <= i < j < |order| :: KeyLess(order[i], order[j])
  }

  // ---------- what a set of paths must contain to be restorable ----------

  /** A captured count path brings in every captured leaf under its directory. */
  ghost predicate Closed(s: Tree, affected: set<Path>) {
    forall c, q | c in affected && c in s && IsReconstructionCount(c) && q in s && Dir(c) <= q ::
      q in affected
  }

  ghost predicate NoCounts(skip: set<Path>) {
    forall p | p in skip :: !IsReconstructionCount(p)
  }

  /** Counts the restoration will not rewrite still hold their captured values. */
  ghost predicate CountsKept(K: Schema, s: Tree, affected: set<Path>, t: Tree) {
    forall c | c in s && K.Rebuilds(c) && c !in affected :: c in t && t[c] == s[c]
  }

  /** A tree from which writing back the captured leaves in `affected` can only succeed.
      When the top count is among them, whatever lies below it does not matter. */
  ghost predicate Recoverable(K: Schema, s: Tree, affected: set<Path>, t: Tree) {
    && K.Lawful() && Consistent(K, s) && Closed(s, affected) && CountsKept(K, s, affected, t)
    && (Consistent(K, t) || (K.top in affected && Anchored(K, t)))
  }

  /** Halfway: the leaves in `done` (a prefix of the restoration order) are back,
      apart from those deliberately skipped. */
  ghost predicate Progress(K: Schema, s: Tree, affected: set<Path>, skip: set<Path>, t: Tree, done: set<Path>) {
    && Recoverable(K, s, affected, t) && NoCounts(skip)
    && done <= affected && done <= s.Keys
    && ((K.top in affected && K.top !in done) || Consistent(K, t))
    && forall p | p in done && p !in skip :: p in t && t[p] == s[p]
  }

  /** `p` is the next captured leaf of `affected` in restoration order. */
  ghost predicate Next(s: Tree, affected: set<Path>, done: set<Path>, p: Path) {
    && p in s && p in affected && p !in done
    && (forall q | q in s && q in affected && KeyLess(q, p) :: q in done)
    && (forall q | q in done :: KeyLess(q, p))
  }

  /** No leaf is named by an index: indices name directories. */
  lemma LeafNameIsNoIndex(K: Schema, s: Tree, p: Path)
    requires K.Lawful() && Consistent(K, s) && p in s
    ensures p != [] && !K.IsIndex(Name(p))
  {
    if p !in K.roots {
      var c, i, r := SupportedParts(K, s, p);
      assert Name(p) == r[|r| - 1];
    }
  }

  /** The top count precedes everything it rebuilds. */
  lemma TopComesFirst(K: Schema, s: Tree, p: Path)
    requires K.Lawful() && Consistent(K, s) && p in s && p !in K.roots
    ensures KeyLess(K.top, p) && Dir(K.top) <= p
  {
    BelowTop(K, s, p);
    LeafNameIsNoIndex(K, s, p);
  }

  /** The next leaf is present: the counts above it were restored before it. */
  lemma NextIsPresent(K: Schema, s: Tree, affected: set<Path>, skip: set<Path>, t: Tree, done: set<Path>, p: Path)
    requires Progress(K, s, affected, skip, t, done) && Next(s, affected, done, p)
    ensures p in t
    ensures p !in K.roots ==> Consistent(K, t)
  {
    if p !in K.roots {
      TopComesFirst(K, s, p);
      OwnedIsPresent(K, s, affected, skip, t, done, p);
    }
  }

  /** A captured leaf is present once the count that owns it is back, or was never lost. */
  lemma OwnedIsPresent(K: Schema, s: Tree, affected: set<Path>, skip: set<Path>, t: Tree, done: set<Path>, p: Path)
    requires Progress(K, s, affected, skip, t, done) && Consistent(K, t)
    requires p in s && p !in K.roots
    requires forall c | Owner(K, p) == Some(c) && c in affected :: c in done
    ensures p in t
  {
    var c, i, r := SupportedParts(K, s, p);
    assert IsReconstructionCount(c);
    assert c in t && t[c] == s[c];
    assert Complete(K, t, c);
  }

  /** A rebuild of the next count cannot reach a leaf restored before it:
      everything it destroys lies strictly deeper. */
  lemma RebuildSparesRestored(K: Schema, s: Tree, p: Path, q: Path)
    requires K.Lawful() && Consistent(K, s) && q in s && K.Rebuilds(p) && KeyLess(q, p)
    ensures !BelowIndex(K, Dir(p), q)
  {
    LeafNameIsNoIndex(K, s, q);
  }

  /** A restoring write loses nothing restored before it, and no captured leaf
      outside `affected`. */
  lemma RestoreStepKeeps(K: Schema, s: Tree, affected: set<Path>, skip: set<Path>, t: Tree, done: set<Path>, p: Path, q: Path)
    requires Progress(K, s, affected, skip, t, done) && Next(s, affected, done, p)
    requires Legal(K, t, p, s[p])
    requires q in s && q in t && q != p && (q !in affected || q in done)
    ensures q in AfterWrite(K, t, p, s[p]) && AfterWrite(K, t, p, s[p])[q] == t[q]
  {
    if K.Rebuilds(p) {
      if q in done {
        RebuildSparesRestored(K, s, p, q);
      } else {
        assert IsReconstructionCount(p) && !(Dir(p) <= q);
      }
    }
    SurvivesWrite(K, t, p, s[p], q);
  }

  lemma RestoreStepSchema(K: Schema, s: Tree, affected: set<Path>, skip: set<Path>, t: Tree, done: set<Path>, p: Path)
    requires Progress(K, s, affected, skip, t, done) && Next(s, affected, done, p)
    ensures Legal(K, t, p, s[p])
    ensures var t' := AfterWrite(K, t, p, s[p]);
            p in t' && t'[p] == s[p]
            && (Consistent(K, t') || (K.top in affected && K.top !in done && K.top != p && Anchored(K, t')))
  {
    NextIsPresent(K, s, affected, skip, t, done, p);
    WrittenValue(K, t, p, s[p]);
    if p == K.top && !Consistent(K, t) {
      TopWriteRestoresSchema(K, t, s[p]);
    } else if Consistent(K, t) {
      WriteKeepsConsistent(K, t, p, s[p]);
    } else {
      assert p in K.roots && !K.Rebuilds(p);
    }
  }

  /** One restored leaf: `done` grows, nothing restored is lost, and no captured
      leaf outside `affected` changes. */
  lemma RestoreStep(K: Schema, s: Tree, affected: set<Path>, skip: set<Path>, t: Tree, done: set<Path>, p: Path)
    requires Progress(K, s, affected, skip, t, done) && Next(s, affected, done, p)
    ensures Legal(K, t, p, s[p])
    ensures Progress(K, s, affected, skip, AfterWrite(K, t, p, s[p]), done + {p})
    ensures forall q | q in s && q !in affected && q in t ::
              q in AfterWrite(K, t, p, s[p]) && AfterWrite(K, t, p, s[p])[q] == t[q]
  {
    RestoreStepSchema(K, s, affected, skip, t, done, p);
    forall q | q in s && q in t && q != p && (q !in affected || q in done)
      ensures q in AfterWrite(K, t, p, s[p]) && AfterWrite(K, t, p, s[p])[q] == t[q]
    {
      RestoreStepKeeps(K, s, affected, skip, t, done, p, q);
    }
  }

  /** A leaf that needs no write, because it already holds its value or is skipped. */
  lemma PassStep(K: Schema, s: Tree, affected: set<Path>, skip: set<Path>, t: Tree, done: set<Path>, p: Path)
    requires Progress(K, s, affected, skip, t, done) && Next(s, affected, done, p)
    requires (!IsReconstructionCount(p) || K.top in done) && p in t && (p in skip || t[p] == s[p])
    ensures Progress(K, s, affected, skip, t, done + {p})
  {
    if K.top in affected && K.top !in done {
      assert p != K.top by { assert IsReconstructionCount(K.top); }
    }
  }

  /** Leaves that move by themselves do not undo a restoration that skips them. */
  lemma ProgressByDrift(K: Schema, s: Tree, affected: set<Path>, skip: set<Path>, t: Tree, done: set<Path>, loose: set<Path>, u: Tree)
    requires Progress(K, s, affected, skip, t, done) && Calm(loose, t, u) && loose <= skip
    ensures Progress(K, s, affected, skip, u, done)
  {
    if Consistent(K, t) { CalmKeepsConsistent(K, loose, t, u); }
    forall c | c in s && K.Rebuilds(c) && c !in affected ensures c in u && u[c] == s[c] {
      assert IsReconstructionCount(c);
    }
  }

  /** When every captured leaf of `affected` has been visited, the tree has exactly
      the captured leaves, and the restored ones hold their captured values. */
  lemma RestorationComplete(K: Schema, s: Tree, affected: set<Path>, skip: set<Path>, t: Tree, done: set<Path>)
    requires Progress(K, s, affected, skip, t, done)
    requires forall p | p in s && p in affected :: p in done
    ensures Consistent(K, t) && t.Keys == s.Keys
    ensures forall p | p in s && p in affected && p !in skip :: t[p] == s[p]
  {
    forall p | p in s ensures p in t {
      if p !in K.roots { OwnedIsPresent(K, s, affected, skip, t, done, p); }
    }
    forall p | p in t ensures p in s { NothingExtra(K, s, affected, skip, t, done, p); }
  }

  lemma {:induction false} NothingExtra(K: Schema, s: Tree, affected: set<Path>, skip: set<Path>, t: Tree, done: set<Path>, p: Path)
    requires Progress(K, s, affected, skip, t, done) && Consistent(K, t)
    requires forall q | q in s && q in affected :: q in done
    requires p in t
    ensures p in s
    decreases |p|
  {
    if p !in K.roots {
      var c, i, r := SupportedParts(K, t, p);
      NothingExtra(K, s, affected, skip, t, done, c);
      assert IsReconstructionCount(c);
      assert t[c] == s[c];
      assert Complete(K, s, c);
    }
  }

  // ---------- whole restorations ----------

  /** One step of the restoration loop: counts are always rewritten, other leaves
      only when they differ; a write to a missing leaf fails. */
  function RestoreLeaf(K: Schema, t: Tree, s: Tree, p: Path): Option<Tree>
    requires p in s
  {
    if p in t && t[p] == s[p] && !IsReconstructionCount(p) then Some(t)
    else if Legal(K, t, p, s[p]) then Some(AfterWrite(K, t, p, s[p]))
    else None
  }

  function RestoreRun(K: Schema, t: Tree, s: Tree, order: seq<Path>): Option<Tree>
    requires forall p | p in order :: p in s
    decreases |order|
  {
    if order == [] then Some(t)
    else
      match RestoreLeaf(K, t, s, order[0])
      case None => None
      case Some(t') => RestoreRun(K, t', s, order[1..])
  }

  /** The captured leaves of `affected`, each once, in restoration order. */
  ghost predicate IsRestorationOrder(s: Tree, affected: set<Path>, order: seq<Path>) {
    KeySorted(order) && forall p :: p in order <==> p in s && p in affected
  }

  lemma {:induction false} RestoreRunReaches(K: Schema, s: Tree, affected: set<Path>, t: Tree, done: set<Path>, order: seq<Path>)
    requires Progress(K, s, affected, {}, t, done) && KeySorted(order)
    requires forall p :: p in order <==> p in s && p in affected && p !in done
    requires forall p, q | p in done && q in order :: KeyLess(p, q)
    ensures var r := RestoreRun(K, t, s, order);
            && r.Some? && Consistent(K, r.value) && r.value.Keys == s.Keys
            && (forall p | p in s && p in affected :: r.value[p] == s[p])
            && (forall p | p in s && p !in affected && p in t :: r.value[p] == t[p])
    decreases |order|
  {
    if order == [] {
      forall p | p in s && p in affected ensures p in done {
        assert p !in order;
      }
      RestorationComplete(K, s, affected, {}, t, done);
    } else {
      hide Consistent, Schema.Lawful, Progress, RestoreLeaf;
      var p, rest := order[0], order[1..];
      FirstIsNext(s, affected, done, order);
      RestoreLeafStep(K, s, affected, t, done, p);
      var t' := RestoreLeaf(K, t, s, p).value;
      OrderRest(s, affected, done, order);
      RestoreRunReaches(K, s, affected, t', done + {p}, rest);
    }
  }

  lemma RestoreLeafStep(K: Schema, s: Tree, affected: set<Path>, t: Tree, done: set<Path>, p: Path)
    requires Progress(K, s, affected, {}, t, done) && Next(s, affected, done, p)
    ensures var r := RestoreLeaf(K, t, s, p);
            && r.Some? && Progress(K, s, affected, {}, r.value, done + {p})
            && (forall q | q in s && q !in affected && q in t :: q in r.value && r.value[q] == t[q])
  {
    NextIsPresent(K, s, affected, {}, t, done, p);
    if t[p] == s[p] && !IsReconstructionCount(p) {
      PassStep(K, s, affected, {}, t, done, p);
    } else {
      RestoreStep(K, s, affected, {}, t, done, p);
    }
  }

  lemma OrderRest(s: Tree, affected: set<Path>, done: set<Path>, order: seq<Path>)
    requires order != [] && KeySorted(order)
    requires forall p :: p in order <==> p in s && p in affected && p !in done
    requires forall p, q | p in done && q in order :: KeyLess(p, q)
    ensures KeySorted(order[1..])
    ensures forall q :: q in order[1..] <==> q in s && q in affected && q !in done + {order[0]}
    ensures forall p, q | p in done + {order[0]} && q in order[1..] :: KeyLess(p, q)
  {
    var p, rest := order[0], order[1..];
    assert order == [p] + rest;
    assert p !in rest by { if p in rest { KeyOrderTotal(p, p); } }
    forall q ensures q in rest <==> q in s && q in affected && q !in done + {p} {
      assert q in order <==> q == p || q in rest;
    }
  }

  /** The first leaf of a sorted remainder is the next one to restore. */
  lemma FirstIsNext(s: Tree, affected: set<Path>, done: set<Path>, order: seq<Path>)
    requires order != [] && KeySorted(order)
    requires forall p :: p in order <==> p in s && p in affected && p !in done
    requires forall p, q | p in done && q in order :: KeyLess(p, q)
    ensures Next(s, affected, done, order[0])
  {
    var p := order[0];
    assert p in order;
    forall q | q in s && q in affected && KeyLess(q, p) ensures q in done {
      if q !in done {
        assert q in order;
        var k :| 0 <= k < |order| && order[k] == q;
        KeyOrderTotal(p, q);
      }
    }
  }

  /** Exact restoration. Whatever an earlier controller left below the top count,
      writing a captured hierarchy back in restoration order yields that hierarchy,
      with no leaf missing, none left over and no write refused. */
  lemma ExactRestoration(K: Schema, s: Tree, t: Tree, order: seq<Path>)
    requires K.Lawful() && Consistent(K, s) && Anchored(K, t)
    requires IsRestorationOrder(s, s.Keys, order)
    ensures RestoreRun(K, t, s, order) == Some(s)
  {
    assert Closed(s, s.Keys) && CountsKept(K, s, s.Keys, t);
    assert Progress(K, s, s.Keys, {}, t, {});
    RestoreRunReaches(K, s, s.Keys, t, {}, order);
    var r := RestoreRun(K, t, s, order);
    assert r.value == s;
  }

  // ---------- the closure of a write journal ----------

  /** The journalled paths, plus every captured leaf under the directory of a
      journalled count. */
  ghost function Affected(s: Tree, writes: set<Path>): set<Path> {
    writes + set q | q in s && exists w :: w in writes && IsReconstructionCount(w) && Dir(w) <= q
  }

  /** The journalled paths, and what lies under the directory of a journalled count that the
      kernel really rebuilds. */
  ghost function Rebuilt(K: Schema, s: Tree, writes: set<Path>): set<Path> {
    writes + set q | q in s && exists w :: w in writes && K.Rebuilds(w) && Dir(w) <= q
  }

  /** The closure is as small as it can be: a plain leaf brings in nothing but itself. */
  lemma AffectedIsMinimal(K: Schema, s: Tree, writes: set<Path>)
    requires K.Lawful() && forall w | w in writes :: LeafShape(K, w)
    ensures Affected(s, writes) == Rebuilt(K, s, writes)
  {
    forall w | w in writes ensures IsReconstructionCount(w) <==> K.Rebuilds(w) { NameTestIsExact(K, w); }
    hide Schema.Lawful, LeafShape, Schema.Rebuilds, IsReconstructionCount;
  }

  /** The closure is closed: rebuilding a captured count found in it destroys no
      captured leaf that the restoration will not put back. */
  lemma AffectedIsClosed(K: Schema, s: Tree, writes: set<Path>)
    requires K.Valid() && Consistent(K, s)
    requires forall w | w in writes :: LeafShape(K, w)
    ensures Closed(s, Affected(s, writes))
  {
    hide Consistent, Schema.Lawful, Schema.Distinct, LeafShape;
    forall c, q | c in Affected(s, writes) && c in s && IsReconstructionCount(c) && q in s && Dir(c) <= q
      ensures q in Affected(s, writes)
    {
      if c !in writes {
        var w :| w in writes && IsReconstructionCount(w) && Dir(w) <= c;
        LeavesHaveShape(K, s, c);
        if Dir(w) == c { NoLeafIsDirectory(K, c, w); }
        assert Dir(w) <= Dir(c);
      }
    }
  }

  /** What a journalled run can have done to a captured hierarchy: every captured
      leaf outside the closure of the journal is present and, unless something else
      changes it, unchanged. */
  ghost predicate Covered(K: Schema, s: Tree, loose: set<Path>, t: Tree, writes: set<Path>) {
    && K.Lawful() && Consistent(K, s) && Consistent(K, t) && NoCounts(loose)
    && (forall w | w in writes :: LeafShape(K, w))
    && forall p | p in s && p !in Affected(s, writes) :: p in t && (p in loose || t[p] == s[p])
  }

  lemma CoveredByWrite(K: Schema, s: Tree, loose: set<Path>, t: Tree, writes: set<Path>, p: Path, v: string)
    requires Covered(K, s, loose, t, writes) && Legal(K, t, p, v)
    ensures Covered(K, s, loose, AfterWrite(K, t, p, v), writes + {p})
  {
    WriteKeepsConsistent(K, t, p, v);
    LeavesHaveShape(K, t, p);
    var t' := AfterWrite(K, t, p, v);
    forall q | q in s && q !in Affected(s, writes + {p}) ensures q in t' && (q in loose || t'[q] == s[q]) {
      assert q !in Affected(s, writes) && q != p;
      if K.Rebuilds(p) {
        assert IsReconstructionCount(p) && p in writes + {p};
        assert !(Dir(p) <= q);
      }
      SurvivesWrite(K, t, p, v, q);
    }
  }

  lemma CoveredByDrift(K: Schema, s: Tree, loose: set<Path>, t: Tree, writes: set<Path>, u: Tree)
    requires Covered(K, s, loose, t, writes) && Calm(loose, t, u)
    ensures Covered(K, s, loose, u, writes)
  {
    CalmKeepsConsistent(K, loose, t, u);
  }

  lemma CoveredIsRecoverable(K: Schema, s: Tree, loose: set<Path>, t: Tree, writes: set<Path>)
    requires K.Valid() && Covered(K, s, loose, t, writes)
    ensures Recoverable(K, s, Affected(s, writes), t)
  {
    AffectedIsClosed(K, s, writes);
  }

  // ---------- partial rollback ----------

  /** A transaction's own journalled writes, interleaved with plain writes of another controller. */
  datatype Step = Ours(path: Path, value: string) | Outside(path: Path, value: string)

  ghost predicate LegalRun(K: Schema, t: Tree, steps: seq<Step>)
    decreases |steps|
  {
    steps == []
    || (Legal(K, t, steps[0].path, steps[0].value)
        && (steps[0].Outside? ==> !IsReconstructionCount(steps[0].path))
        && LegalRun(K, AfterWrite(K, t, steps[0].path, steps[0].value), steps[1..]))
  }

  ghost function RunSteps(K: Schema, t: Tree, steps: seq<Step>): Tree
    requires LegalRun(K, t, steps)
    decreases |steps|
  {
    if steps == [] then t
    else RunSteps(K, AfterWrite(K, t, steps[0].path, steps[0].value), steps[1..])
  }

  ghost function Journal(steps: seq<Step>): set<Path> {
    set e | e in steps && e.Ours? :: e.path
  }

  ghost function OutsidePaths(steps: seq<Step>): set<Path> {
    set e | e in steps && e.Outside? :: e.path
  }

  lemma {:induction false} RunIsCovered(K: Schema, s: Tree, loose: set<Path>, t: Tree, writes: set<Path>, steps: seq<Step>)
    requires Covered(K, s, loose, t, writes) && LegalRun(K, t, steps) && OutsidePaths(steps) <= loose
    ensures Covered(K, s, loose, RunSteps(K, t, steps), writes + Journal(steps))
    decreases |steps|
  {
    hide Covered, Consistent, Schema.Lawful;
    if steps == [] {
      assert writes + Journal(steps) == writes;
    } else {
      var e, rest := steps[0], steps[1..];
      var t' := AfterWrite(K, t, e.path, e.value);
      assert steps == [e] + rest;
      assert OutsidePaths(rest) <= OutsidePaths(steps);
      match e
      case Ours(p, v) =>
        CoveredByWrite(K, s, loose, t, writes, p, v);
        RunIsCovered(K, s, loose, t', writes + {p}, rest);
        assert writes + Journal(steps) == writes + {p} + Journal(rest);
      case Outside(p, v) =>
        assert p in OutsidePaths(steps);
        PlainWriteIsCalm(K, s, loose, t, writes, p, v);
        CoveredByDrift(K, s, loose, t, writes, t');
        RunIsCovered(K, s, loose, t', writes, rest);
        assert Journal(steps) == Journal(rest);
    }
  }

  lemma PlainWriteIsCalm(K: Schema, s: Tree, loose: set<Path>, t: Tree, writes: set<Path>, p: Path, v: string)
    requires Covered(K, s, loose, t, writes) && Legal(K, t, p, v) && p in loose
    ensures Calm(loose, t, AfterWrite(K, t, p, v))
  {
    assert !K.Rebuilds(p);
  }

  /** Partial rollback is complete and framed. After any journalled run, interrupted
      anywhere and interleaved with another controller's plain writes, restoring the
      closure of the journal succeeds. It puts back every captured leaf that was written or
      rebuilt, leaves every other captured leaf as it found it - the captured value unless
      the other controller wrote it - and leaves nothing behind that was not captured. */
  lemma PartialRollback(K: Schema, s: Tree, steps: seq<Step>, order: seq<Path>)
    requires K.Valid() && Consistent(K, s) && LegalRun(K, s, steps)
    requires IsRestorationOrder(s, Affected(s, Journal(steps)), order)
    ensures var t, affected := RunSteps(K, s, steps), Rebuilt(K, s, Journal(steps));
            var r := RestoreRun(K, t, s, order);
            && r.Some? && r.value.Keys == s.Keys
            && (forall p | p in s && p in affected :: r.value[p] == s[p])
            && (forall p | p in s && p !in affected :: p in t && r.value[p] == t[p])
            && (forall p | p in s && p !in affected && p !in OutsidePaths(steps) :: r.value[p] == s[p])
  {
    var t, affected, loose := RunSteps(K, s, steps), Affected(s, Journal(steps)), OutsidePaths(steps);
    OutsideIsPlain(K, s, steps);
    RunIsCovered(K, s, loose, s, {}, steps);
    assert {} + Journal(steps) == Journal(steps);
    CoveredIsRecoverable(K, s, loose, t, Journal(steps));
    AffectedIsMinimal(K, s, Journal(steps));
    RestoreRunReaches(K, s, affected, t, {}, order);
  }

  /** Without interference a partial rollback is exact. */
  lemma PartialRollbackIsExact(K: Schema, s: Tree, steps: seq<Step>, order: seq<Path>)
    requires K.Valid() && Consistent(K, s) && LegalRun(K, s, steps) && OutsidePaths(steps) == {}
    requires IsRestorationOrder(s, Affected(s, Journal(steps)), order)
    ensures RestoreRun(K, RunSteps(K, s, steps), s, order) == Some(s)
  {
    hide Consistent, Schema.Valid, RunSteps, RestoreRun, Affected, Rebuilt;
    PartialRollback(K, s, steps, order);
    var r := RestoreRun(K, RunSteps(K, s, steps), s, order).value;
    assert forall p | p in s :: p !in OutsidePaths(steps);
    assert r == s;
  }

  lemma {:induction false} OutsideIsPlain(K: Schema, t: Tree, steps: seq<Step>)
    requires LegalRun(K, t, steps)
    ensures NoCounts(OutsidePaths(steps))
    decreases |steps|
  {
    if steps != [] {
      OutsideIsPlain(K, AfterWrite(K, t, steps[0].path, steps[0].value), steps[1..]);
      assert steps == [steps[0]] + steps[1..];
      forall e | e in steps && e.Outside? ensures !IsReconstructionCount(e.path) {
        if e != steps[0] { assert e.path in OutsidePaths(steps[1..]); }
      }
    }
  }
}
