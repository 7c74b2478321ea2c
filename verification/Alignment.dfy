/** Initial monitoring regions as the kernel sees them: rounded outwards to whole
    minimum-size regions, over 64-bit addresses. */
module Alignment {
  import opened Outcomes
  import opened Config

  /** The smallest region the kernel keeps, in core address units; unknown for unknown operations. */
  function MinimumRegionUnits(operation: Operation, unit: nat, page: nat): (units: Option<nat>)
    requires 0 < unit && 0 < page
    ensures units.Some? ==> 0 < units.value
  {
    match operation
    case VirtualAddress | FixedVirtualAddress => Some(page)
    case PhysicalAddress => Some(if page / unit == 0 then 1 else page / unit)
    case OtherOperation(_) => None
  }

  function AlignDown(x: nat, a: nat): nat
    requires 0 < a
  {
    x - x % a
  }

  function AlignUp(x: nat, a: nat): nat
    requires 0 < a
  {
    if x % a == 0 then x else x + (a - x % a)
  }

  /** The block of `a` units an address lies in. */
  function Block(x: nat, a: nat): nat
    requires 0 < a
  {
    x / a
  }

  /** The rounded region covers the original, starts and ends on a boundary, and is the
      smallest such region. */
  lemma RoundingCovers(start: nat, end: nat, a: nat)
    requires 0 < a && start < end
    ensures AlignDown(start, a) <= start < end <= AlignUp(end, a)
    ensures AlignDown(start, a) % a == 0 && AlignUp(end, a) % a == 0
    ensures forall lo: nat, hi: nat | lo <= start && end <= hi && lo % a == 0 && hi % a == 0 ::
              lo <= AlignDown(start, a) && AlignUp(end, a) <= hi
  {
    Multiples(start, a);
    Multiples(end, a);
    forall lo: nat, hi: nat | lo <= start && end <= hi && lo % a == 0 && hi % a == 0
      ensures lo <= AlignDown(start, a) && AlignUp(end, a) <= hi
    {
      Quotients(lo, start, a);
      Quotients(end, hi, a);
    }
  }

  /** For physical addresses the smallest region is as many whole units as fit a page, but at
      least one. Where units divide the page, rounding to it is rounding bytes to pages. */
  lemma PhysicalRounding(unit: nat, page: nat, x: nat)
    requires 0 < unit && 0 < page
    ensures var units := MinimumRegionUnits(PhysicalAddress, unit, page).value;
            && (units > 1 ==> units * unit <= page) && page < (units + 1) * unit
            && (page % unit == 0 ==> AlignDown(x, units) * unit == AlignDown(x * unit, page) && AlignUp(x, units) * unit == AlignUp(x * unit, page))
  {
    var units := MinimumRegionUnits(PhysicalAddress, unit, page).value;
    var q := page / unit;
    assert q * unit <= page < (q + 1) * unit;
    if page % unit == 0 {
      assert page == q * unit && q >= 1 && units == q;
      ScaledRemainder(x, units, unit);
      assert (x - x % units) * unit == x * unit - (x % units) * unit;
      assert (x + (units - x % units)) * unit == x * unit + (units * unit - (x % units) * unit);
    }
  }

  /** Scaling a division scales its remainder. */
  lemma ScaledRemainder(x: nat, a: nat, unit: nat)
    requires 0 < a && 0 < unit
    ensures 0 < a * unit && (x * unit) % (a * unit) == (x % a) * unit
    ensures x % a == 0 <==> (x * unit) % (a * unit) == 0
  {
    var q, m := x / a, x % a;
    assert x == a * q + m;
    assert x * unit == (a * unit) * q + m * unit by { assert (a * q) * unit == (a * unit) * q; }
    assert m * unit < a * unit;
    QuotientIs(x * unit, a * unit, q, m * unit);
  }

  /** Rounding in terms of blocks. */
  lemma Multiples(x: nat, a: nat)
    requires 0 < a
    ensures AlignDown(x, a) == a * Block(x, a) && AlignDown(x, a) % a == 0
    ensures 0 < x ==> AlignUp(x, a) == a * (Block(x - 1, a) + 1)
    ensures AlignUp(x, a) % a == 0
  {
    var q, m := x / a, x % a;
    assert x == a * q + m;
    MultipleOf(a, q);
    MultipleOf(a, q + 1);
    if x > 0 {
      if m == 0 {
        assert x - 1 == a * (q - 1) + (a - 1);
        QuotientIs(x - 1, a, q - 1, a - 1);
      } else {
        QuotientIs(x - 1, a, q, m - 1);
      }
    }
  }

  lemma MultipleOf(a: nat, q: nat)
    requires 0 < a
    ensures (a * q) % a == 0 && a * (q + 1) == a * q + a
  {
    QuotientIs(a * q, a, q, 0);
  }

  /** Multiplication keeps a strict order, with room for one more block. */
  lemma {:induction false} Scaled(x: int, y: int, a: nat)
    requires 0 < a && x < y
    ensures a * x + a <= a * y
    decreases y - x
  {
    assert a * (y - 1) == a * y - a;
    if x < y - 1 { Scaled(x, y - 1, a); }
  }

  lemma QuotientIs(x: nat, a: nat, q: int, m: nat)
    requires 0 < a && m < a && x == a * q + m
    ensures x / a == q && x % a == m
  {
    var d := x / a;
    assert x == a * d + x % a;
    if d > q { Scaled(q, d, a); }
    if d < q { Scaled(d, q, a); }
  }

  /** Between two aligned neighbours there is nothing. */
  lemma Quotients(x: nat, y: nat, a: nat)
    requires 0 < a && x <= y
    ensures Block(x, a) <= Block(y, a)
    ensures x % a == 0 ==> x <= AlignDown(y, a)
    ensures y % a == 0 ==> AlignUp(x, a) <= y
  {
    var qx, qy := x / a, y / a;
    assert x == a * qx + x % a;
    assert y == a * qy + y % a;
    if qx > qy { Scaled(qy, qx, a); }
    if qx < qy { Scaled(qx, qy, a); }
  }

  // ---------- the check ----------

  /** Regions over 64-bit addresses, none empty. */
  predicate NonEmpty(regions: seq<Region>) {
    forall i | 0 <= i < |regions| :: regions[i].start < regions[i].end <= U64_MAX
  }

  /** Two regions reach into one block. */
  ghost predicate ShareBlock(p: Region, q: Region, a: nat)
    requires 0 < a
  {
    exists x: nat, y: nat | p.start <= x < p.end && q.start <= y < q.end :: Block(x, a) == Block(y, a)
  }

  /** Every rounded region fits 64 bits, and all of them - not only neighbours - are ordered and disjoint. */
  predicate AlignedApart(regions: seq<Region>, a: nat)
    requires 0 < a
  {
    && (forall i | 0 <= i < |regions| :: AlignUp(regions[i].end, a) <= U64_MAX)
    && forall i, j | 0 <= i < j < |regions| :: AlignUp(regions[i].end, a) <= AlignDown(regions[j].start, a)
  }

  /** `validate_kernel_aligned_initial_regions`, for regions already known to be non-empty. */
  method ValidateKernelAligned(targets: seq<TargetConfig>, alignment: Option<nat>) returns (r: Result<()>)
    requires alignment.Some? ==> 0 < alignment.value
    requires forall t | t in targets :: NonEmpty(t.regions)
    ensures r.Ok? <==> alignment.None? || forall t | t in targets :: AlignedApart(t.regions, alignment.value)
  {
    if alignment.None? { return Ok(()); }
    for k := 0 to |targets|
      invariant forall m | 0 <= m < k :: AlignedApart(targets[m].regions, alignment.value)
    {
      r := ValidateTargetAligned(targets[k].regions, alignment.value);
      if r.Err? {
        assert targets[k] in targets;
        return;
      }
    }
    r := Ok(());
  }

  /** Rounding up with a 64-bit overflow check. */
  function CheckedAlignUp(x: nat, a: nat): (r: Option<nat>)
    requires 0 < a && x <= U64_MAX
    ensures r == if AlignUp(x, a) <= U64_MAX then Some(AlignUp(x, a)) else None
  {
    var remainder := x % a;
    if remainder == 0 then Some(x)
    else if x + (a - remainder) <= U64_MAX then Some(x + (a - remainder))
    else None
  }

  method ValidateTargetAligned(regions: seq<Region>, a: nat) returns (r: Result<()>)
    requires 0 < a
    requires NonEmpty(regions)
    ensures r.Ok? <==> AlignedApart(regions, a)
  {
    hide AlignUp, AlignDown, CheckedAlignUp;
    var previousEnd: Option<nat> := None;
    for n := 0 to |regions|
      invariant previousEnd == if n == 0 then None else Some(AlignUp(regions[n - 1].end, a))
      invariant AlignedApart(regions[..n], a)
    {
      var alignedStart := AlignDown(regions[n].start, a);
      var alignedEnd := CheckedAlignUp(regions[n].end, a);
      if alignedEnd.None? { return Err(InvalidConfiguration); }
      if previousEnd.Some? && previousEnd.value > alignedStart { return Err(InvalidConfiguration); }
      NextApart(regions, n, a);
      previousEnd := alignedEnd;
    }
    assert regions[..|regions|] == regions;
    r := Ok(());
  }

  /** Comparing neighbours suffices. */
  lemma NextApart(regions: seq<Region>, n: nat, a: nat)
    requires 0 < a && n < |regions|
    requires NonEmpty(regions)
    requires AlignedApart(regions[..n], a)
    requires AlignUp(regions[n].end, a) <= U64_MAX
    requires n > 0 ==> AlignUp(regions[n - 1].end, a) <= AlignDown(regions[n].start, a)
    ensures AlignedApart(regions[..n + 1], a)
  {
    var part, all := regions[..n], regions[..n + 1];
    forall i, j | 0 <= i < j < |all| ensures AlignUp(all[i].end, a) <= AlignDown(all[j].start, a) {
      if j < n {
        assert part[i] == all[i] && part[j] == all[j];
      } else if i < n - 1 {
        assert AlignUp(part[i].end, a) <= AlignDown(part[n - 1].start, a);
        RoundingCovers(regions[n - 1].start, regions[n - 1].end, a);
      }
    }
    forall i | 0 <= i < |all| ensures AlignUp(all[i].end, a) <= U64_MAX {
      if i < n { assert part[i] == all[i]; }
    }
  }

  /** What the check means for regions already sorted and disjoint: it accepts exactly
      when nothing overflows and no block is shared by two regions. */
  lemma ApartMeansNoSharedBlock(regions: seq<Region>, a: nat)
    requires 0 < a
    requires NonEmpty(regions)
    requires forall i, j | 0 <= i < j < |regions| :: regions[i].end <= regions[j].start
    ensures AlignedApart(regions, a) <==>
              && (forall i | 0 <= i < |regions| :: AlignUp(regions[i].end, a) <= U64_MAX)
              && forall i, j | 0 <= i < j < |regions| :: !ShareBlock(regions[i], regions[j], a)
  {
    forall i, j | 0 <= i < j < |regions|
      ensures AlignUp(regions[i].end, a) <= AlignDown(regions[j].start, a) <==> !ShareBlock(regions[i], regions[j], a)
    {
      OverlapIsSharedBlock(regions[i], regions[j], a);
    }
  }

  lemma OverlapIsSharedBlock(p: Region, q: Region, a: nat)
    requires 0 < a && p.start < p.end <= q.start < q.end
    ensures AlignUp(p.end, a) <= AlignDown(q.start, a) <==> !ShareBlock(p, q, a)
  {
    hide AlignUp, AlignDown, Block;
    var last, first := p.end - 1, q.start;
    Multiples(p.end, a);
    Multiples(first, a);
    Quotients(last, first, a);
    if Block(last, a) < Block(first, a) { Scaled(Block(last, a), Block(first, a), a); }
    assert a * (Block(last, a) + 1) == a * Block(last, a) + a;
    if Block(last, a) == Block(first, a) {
      assert ShareBlock(p, q, a);
    } else {
      forall x: nat, y: nat | p.start <= x < p.end && q.start <= y < q.end ensures Block(x, a) != Block(y, a) {
        Quotients(x, last, a);
        Quotients(first, y, a);
      }
    }
  }
}
