/** Where a scheme's filters go: the canonical order in which they read back, computed in
    place by a stable sort, and equal to the layers one after another. */
module FilterLayout {
  import opened Config

  /** The order in which layers are read. */
  function Rank(p: FilterPlacement): nat {
    match p
    case Core => 0
    case Operations => 1
    case Unified => 2
    case Adaptive => 3
  }

  // ---------- layers ----------

  lemma {:induction false} LayerConcat(a: seq<FilterConfig>, b: seq<FilterConfig>, p: FilterPlacement)
    ensures Layer(a + b, p) == Layer(a, p) + Layer(b, p)
    decreases |a|
  {
    if a == [] {
      assert a + b == b;
    } else {
      assert (a + b)[1..] == a[1..] + b;
      LayerConcat(a[1..], b, p);
    }
  }

  lemma {:induction false} LayerMembers(filters: seq<FilterConfig>, p: FilterPlacement)
    ensures forall f :: f in Layer(filters, p) <==> f in filters && f.placement == p
    ensures (forall f | f in filters :: f.placement == p) ==> Layer(filters, p) == filters
    ensures (forall f | f in filters :: f.placement != p) ==> Layer(filters, p) == []
    decreases |filters|
  {
    if filters != [] {
      assert filters == [filters[0]] + filters[1..];
      LayerMembers(filters[1..], p);
    }
  }

  lemma LayeredMembers(filters: seq<FilterConfig>)
    ensures forall f :: f in Layered(filters) <==> f in filters
  {
    LayerMembers(filters, Core);
    LayerMembers(filters, Operations);
    LayerMembers(filters, Unified);
    LayerMembers(filters, Adaptive);
  }

  lemma LayerOfUniform(filters: seq<FilterConfig>, own: FilterPlacement, p: FilterPlacement)
    requires forall f | f in filters :: f.placement == own
    ensures Layer(filters, p) == if p == own then filters else []
  {
    LayerMembers(filters, p);
  }

  /** Three lists, each of one layer, are already in layered order. */
  lemma LayeredOfLayers(core: seq<FilterConfig>, operations: seq<FilterConfig>, unified: seq<FilterConfig>)
    requires forall f | f in core :: f.placement == Core
    requires forall f | f in operations :: f.placement == Operations
    requires forall f | f in unified :: f.placement == Unified
    ensures Layered(core + operations + unified) == core + operations + unified
  {
    var all := core + operations + unified;
    forall p
      ensures Layer(all, p) == (if p == Core then core else []) + (if p == Operations then operations else []) + (if p == Unified then unified else [])
    {
      LayerConcat(core + operations, unified, p);
      LayerConcat(core, operations, p);
      LayerOfUniform(core, Core, p);
      LayerOfUniform(operations, Operations, p);
      LayerOfUniform(unified, Unified, p);
    }
    hide Layer;
    assert Layer(all, Core) == core && Layer(all, Operations) == operations && Layer(all, Unified) == unified && Layer(all, Adaptive) == [];
  }

  /** Layering twice changes nothing. */
  lemma LayeredTwice(filters: seq<FilterConfig>)
    requires forall f | f in filters :: f.placement != Adaptive
    ensures Layered(Layered(filters)) == Layered(filters)
  {
    LayerMembers(filters, Core);
    LayerMembers(filters, Operations);
    LayerMembers(filters, Unified);
    LayerMembers(filters, Adaptive);
    var core, operations, unified := Layer(filters, Core), Layer(filters, Operations), Layer(filters, Unified);
    assert Layered(filters) == core + operations + unified;
    LayeredOfLayers(core, operations, unified);
  }

  // ---------- the in-place form ----------

  /** The layers up to a rank, and those after it. */
  function UpTo(filters: seq<FilterConfig>, rank: nat): seq<FilterConfig> {
    if rank == 0 then Layer(filters, Core)
    else if rank == 1 then Layer(filters, Core) + Layer(filters, Operations)
    else if rank == 2 then Layer(filters, Core) + Layer(filters, Operations) + Layer(filters, Unified)
    else Layered(filters)
  }

  function Behind(filters: seq<FilterConfig>, rank: nat): seq<FilterConfig> {
    if rank == 0 then Layer(filters, Operations) + Layer(filters, Unified) + Layer(filters, Adaptive)
    else if rank == 1 then Layer(filters, Unified) + Layer(filters, Adaptive)
    else if rank == 2 then Layer(filters, Adaptive)
    else []
  }

  lemma LayeredSplits(filters: seq<FilterConfig>, rank: nat)
    ensures Layered(filters) == UpTo(filters, rank) + Behind(filters, rank)
    ensures forall f | f in UpTo(filters, rank) :: Rank(f.placement) <= rank
    ensures forall f | f in Behind(filters, rank) :: Rank(f.placement) > rank
  {
    LayerMembers(filters, Core);
    LayerMembers(filters, Operations);
    LayerMembers(filters, Unified);
    LayerMembers(filters, Adaptive);
    hide Layer;
    var a, b, c, d := Layer(filters, Core), Layer(filters, Operations), Layer(filters, Unified), Layer(filters, Adaptive);
    Regroup(a, b, c, d);
  }

  lemma Regroup(a: seq<FilterConfig>, b: seq<FilterConfig>, c: seq<FilterConfig>, d: seq<FilterConfig>)
    ensures a + b + c + d == a + (b + c + d) && a + b + c + d == a + b + (c + d) && a + b + c + d == a + b + c + d + []
  {
  }

  /** A new last filter goes behind everything of its rank or below. */
  lemma LayeredInsert(filters: seq<FilterConfig>, x: FilterConfig)
    ensures Layered(filters + [x]) == UpTo(filters, Rank(x.placement)) + [x] + Behind(filters, Rank(x.placement))
  {
    forall p ensures Layer(filters + [x], p) == Layer(filters, p) + (if x.placement == p then [x] else []) {
      LayerConcat(filters, [x], p);
      assert [x][1..] == [];
    }
  }

  /** Where a sorted list splits is where the ranks pass a bound. */
  lemma SplitIsUnique(low: seq<FilterConfig>, high: seq<FilterConfig>, rank: nat, k: nat)
    requires k <= |low + high|
    requires forall f | f in low :: Rank(f.placement) <= rank
    requires forall f | f in high :: Rank(f.placement) > rank
    requires forall i | k <= i < |low + high| :: Rank((low + high)[i].placement) > rank
    requires k > 0 ==> Rank((low + high)[k - 1].placement) <= rank
    ensures k == |low|
  {
    var all := low + high;
    assert forall i | 0 <= i < |low| :: all[i] == low[i] && low[i] in low;
    assert forall i | |low| <= i < |all| :: all[i] == high[i - |low|] && high[i - |low|] in high;
    var next := if k < |all| then Rank(all[k].placement) else rank + 1;
    var last := if k > 0 then Rank(all[k - 1].placement) else rank;
    assert last <= rank < next;
  }

  lemma InsertAt(filters: seq<FilterConfig>, x: FilterConfig, k: nat)
    requires k <= |Layered(filters)|
    requires forall i | k <= i < |Layered(filters)| :: Rank(Layered(filters)[i].placement) > Rank(x.placement)
    requires k > 0 ==> Rank(Layered(filters)[k - 1].placement) <= Rank(x.placement)
    ensures Layered(filters + [x]) == Layered(filters)[..k] + [x] + Layered(filters)[k..]
  {
    var rank := Rank(x.placement);
    LayeredSplits(filters, rank);
    LayeredInsert(filters, x);
    var low, high := UpTo(filters, rank), Behind(filters, rank);
    SplitIsUnique(low, high, rank, k);
    assert (low + high)[..k] == low && (low + high)[k..] == high;
  }

  method PlaceInPlace(filters: array<FilterConfig>, split: bool)
    modifies filters
    ensures filters[..] == PlaceAll(old(filters[..]), split)
  {
    for n := 0 to filters.Length
      invariant forall i | 0 <= i < n :: filters[i] == Place(old(filters[i]), split)
      invariant forall i | n <= i < filters.Length :: filters[i] == old(filters[i])
    {
      filters[n] := Place(filters[n], split);
    }
  }

  /** A stable sort by rank. */
  method SortInPlace(filters: array<FilterConfig>)
    modifies filters
    ensures filters[..] == Layered(old(filters[..]))
  {
    hide Layered;
    ghost var was := filters[..];
    NothingLayered();
    assert was[..0] == [];
    for n := 0 to filters.Length
      invariant filters[..n] == Layered(was[..n])
      invariant filters[n..] == was[n..]
    {
      InsertLast(filters, n, was);
    }
    assert was[..filters.Length] == was && filters[..filters.Length] == filters[..];
  }

  lemma NothingLayered()
    ensures Layered([]) == []
  {
  }

  method InsertLast(filters: array<FilterConfig>, n: nat, ghost was: seq<FilterConfig>)
    requires n < filters.Length == |was|
    requires filters[..n] == Layered(was[..n]) && filters[n..] == was[n..]
    modifies filters
    ensures filters[..n + 1] == Layered(was[..n + 1]) && filters[n + 1..] == was[n + 1..]
  {
    hide Layered;
    ghost var sorted := filters[..n];
    var k := n;
    assert filters[n..][0] == was[n];
    while k > 0 && Rank(filters[k - 1].placement) > Rank(filters[n].placement)
      invariant 0 <= k <= n
      invariant forall i | k <= i < n :: Rank(sorted[i].placement) > Rank(was[n].placement)
    {
      assert filters[k - 1] == sorted[k - 1];
      k := k - 1;
    }
    if k > 0 { assert filters[k - 1] == sorted[k - 1]; }
    InsertAt(was[..n], was[n], k);
    assert was[..n + 1] == was[..n] + [was[n]];
    assert filters[n..][1..] == filters[n + 1..] && was[n..][1..] == was[n + 1..];
    MoveBack(filters, k, n);
  }

  /** Moves element `n` to position `k`, everything between one up. */
  method MoveBack(filters: array<FilterConfig>, k: nat, n: nat)
    requires k <= n < filters.Length
    modifies filters
    ensures filters[..n + 1] == old(filters[..n])[..k] + [old(filters[n])] + old(filters[..n])[k..]
    ensures filters[n + 1..] == old(filters[n + 1..])
  {
    var x := filters[n];
    for j := n downto k
      invariant forall i | 0 <= i <= j :: filters[i] == old(filters[i])
      invariant forall i | j < i <= n :: filters[i] == old(filters[i - 1])
      invariant forall i | n < i < filters.Length :: filters[i] == old(filters[i])
    {
      filters[j + 1] := filters[j];
    }
    filters[k] := x;
  }

  /** `canonicalize_filter_placements`. */
  method CanonicalizeFilterPlacements(filters: array<FilterConfig>, observed: seq<FilterConfig>)
    modifies filters
    ensures filters[..] == Canonical(old(filters[..]), observed)
  {
    var split := Split(observed);
    PlaceInPlace(filters, split);
    if split { SortInPlace(filters); }
  }

  // ---------- which filters go where ----------

  /** Filters the core evaluates: those asked for there, and adaptive ones about addresses,
      targets and weighted sums. */
  predicate ForCore(f: FilterConfig) {
    f.placement.Core?
    || (f.placement.Adaptive? && (f.filterType.Address? || f.filterType.TargetIndex? || f.filterType.ProbeHitsWeightedSum?))
  }

  /** Filters the operations evaluate: those asked for there, and every other adaptive one,
      types this library does not know included. */
  predicate ForOperations(f: FilterConfig) {
    f.placement.Operations?
    || (f.placement.Adaptive? && !f.filterType.Address? && !f.filterType.TargetIndex? && !f.filterType.ProbeHitsWeightedSum?)
  }

  predicate ForUnified(f: FilterConfig) {
    f.placement.Unified?
  }

  /** The filters a test picks, in order. */
  function Picked(filters: seq<FilterConfig>, test: FilterConfig -> bool): (picked: seq<FilterConfig>)
    ensures forall f :: f in picked <==> f in filters && test(f)
    decreases |filters|
  {
    if filters == [] then []
    else
      var rest := Picked(filters[1..], test);
      assert filters == [filters[0]] + filters[1..];
      if test(filters[0]) then [filters[0]] + rest else rest
  }

  /** The filters as they read back from a layer. */
  function InLayer(filters: seq<FilterConfig>, placement: FilterPlacement): (placed: seq<FilterConfig>)
    ensures |placed| == |filters| && forall i | 0 <= i < |filters| :: placed[i] == filters[i].(placement := placement)
  {
    seq(|filters|, i requires 0 <= i < |filters| => filters[i].(placement := placement))
  }

  /** The filters for one layer of a split kernel, in order. */
  function Destined(filters: seq<FilterConfig>, placement: FilterPlacement): (layer: seq<FilterConfig>)
    ensures forall f | f in layer :: f in filters
    decreases |filters|
  {
    if filters == [] then []
    else
      var rest := Destined(filters[1..], placement);
      if Place(filters[0], true).placement == placement then [filters[0]] + rest else rest
  }

  lemma {:induction false} DestinedLayer(filters: seq<FilterConfig>, placement: FilterPlacement)
    ensures InLayer(Destined(filters, placement), placement) == Layer(PlaceAll(filters, true), placement)
    decreases |filters|
  {
    if filters != [] {
      DestinedLayer(filters[1..], placement);
      assert PlaceAll(filters, true)[1..] == PlaceAll(filters[1..], true);
      var rest := Destined(filters[1..], placement);
      if Place(filters[0], true).placement == placement {
        assert InLayer([filters[0]] + rest, placement) == [Place(filters[0], true)] + InLayer(rest, placement);
      }
    }
  }

  lemma {:induction false} DestinedByType(filters: seq<FilterConfig>)
    ensures Destined(filters, Core) == Picked(filters, ForCore)
    ensures Destined(filters, Operations) == Picked(filters, ForOperations)
    ensures Destined(filters, Unified) == Picked(filters, ForUnified)
    decreases |filters|
  {
    if filters != [] { DestinedByType(filters[1..]); }
  }

  /** The canonical form, told from placements and types. */
  lemma CanonicalByType(filters: seq<FilterConfig>, observed: seq<FilterConfig>)
    ensures Split(observed) ==>
              Canonical(filters, observed) ==
                InLayer(Picked(filters, ForCore), Core) + InLayer(Picked(filters, ForOperations), Operations) + InLayer(Picked(filters, ForUnified), Unified)
    ensures !Split(observed) ==>
              |Canonical(filters, observed)| == |filters|
              && forall i | 0 <= i < |filters| ::
                   Canonical(filters, observed)[i] == if filters[i].placement.Adaptive? then filters[i].(placement := Unified) else filters[i]
  {
    if Split(observed) {
      DestinedByType(filters);
      DestinedLayer(filters, Core);
      DestinedLayer(filters, Operations);
      DestinedLayer(filters, Unified);
      var placed := PlaceAll(filters, true);
      LayerMembers(placed, Adaptive);
      forall f | f in placed ensures f.placement != Adaptive {
        var i :| 0 <= i < |placed| && placed[i] == f;
        assert f == Place(filters[i], true);
      }
    }
  }

  // ---------- matching is an equivalence towards readbacks ----------

  /** The form every readback has: no adaptive placement, layers in reading order. */
  predicate ReadbackForm(filters: seq<FilterConfig>) {
    (forall f | f in filters :: f.placement != Adaptive) && Layered(filters) == filters
  }

  lemma PlacedIsFixed(filters: seq<FilterConfig>, split: bool)
    requires forall f | f in filters :: f.placement != Adaptive
    ensures PlaceAll(filters, split) == filters
  {
  }

  /** A readback is its own canonical form. */
  lemma ReadbackIsCanonical(filters: seq<FilterConfig>)
    requires ReadbackForm(filters)
    ensures Canonical(filters, filters) == filters
  {
    PlacedIsFixed(filters, true);
    PlacedIsFixed(filters, false);
  }

  lemma PlacedHasNoAdaptive(filters: seq<FilterConfig>, split: bool)
    ensures forall f | f in PlaceAll(filters, split) :: f.placement != Adaptive
  {
  }

  /** Matching composes: a request matching what was observed, itself matching a readback, matches the readback. */
  lemma FiltersMatchTransitive(requested: seq<FilterConfig>, observed: seq<FilterConfig>, readback: seq<FilterConfig>)
    requires FiltersMatch(requested, observed) && FiltersMatch(observed, readback)
    ensures FiltersMatch(requested, readback)
  {
    if requested != observed && observed != readback {
      var split := Split(observed);
      var placed := PlaceAll(requested, split);
      PlacedHasNoAdaptive(requested, split);
      LayeredMembers(placed);
      assert forall f | f in observed :: f.placement != Adaptive;
      PlacedIsFixed(observed, true);
      PlacedIsFixed(observed, false);
      LayeredMembers(observed);
      if Split(readback) {
        assert Split(observed);
        LayeredTwice(placed);
      }
    }
  }
}
