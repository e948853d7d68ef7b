/**
 * The dashboard's filter chain and its "top 5 most expensive listings" table:
 * optional nature, type, price-range and city predicates applied one after the
 * other, then the five highest prices of what remains.
 */
module Filtering {
  import opened Wrappers
  import opened Cleaning
  import opened Loading

  // ---------------------------------------------------------------------------
  // Order-preserving selection
  // ---------------------------------------------------------------------------

  /** `a` is `b` with some elements left out and the rest kept in order. */
  predicate IsSubsequence<T(==)>(a: seq<T>, b: seq<T>)
    decreases |b|
  {
    || a == []
    || (b != [] && ((a[0] == b[0] && IsSubsequence(a[1..], b[1..])) || IsSubsequence(a, b[1..])))
  }

  /**
   * A boolean mask applied to a frame: the rows that satisfy `keep`, in their
   * order; never more rows than the frame, and a listing is selected exactly
   * when it is in the frame and passes.
   */
  function Where(rows: seq<Listing>, keep: Listing -> bool): (r: seq<Listing>)
    ensures |r| <= |rows|
    ensures forall l :: l in r <==> l in rows && keep(l)
  {
    if rows == [] then []
    else (if keep(rows[0]) then [rows[0]] else []) + Where(rows[1..], keep)
  }

  /**
   * The selection keeps every copy of a row that passes the mask (duplicate
   * listings are counted as often as they occur) and no copy of one that fails.
   */
  lemma {:induction false} WhereKeepsEveryCopy(rows: seq<Listing>, keep: Listing -> bool)
    ensures forall l :: multiset(Where(rows, keep))[l] == if keep(l) then multiset(rows)[l] else 0
  {
    if rows != [] {
      WhereKeepsEveryCopy(rows[1..], keep);
      var head := if keep(rows[0]) then [rows[0]] else [];
      assert Where(rows, keep) == head + Where(rows[1..], keep);
      assert rows == [rows[0]] + rows[1..];
    }
  }

  /** The positions of the frame whose row passes the mask. */
  ghost function PassingPositions(rows: seq<Listing>, keep: Listing -> bool): set<int> {
    set k | 0 <= k < |rows| && keep(rows[k])
  }

  /** The passing positions of a frame are those of all but its last row, plus the last position if it passes. */
  lemma PassingPositionsStep(rows: seq<Listing>, keep: Listing -> bool)
    requires rows != []
    ensures PassingPositions(rows, keep)
         == PassingPositions(rows[..|rows| - 1], keep) + (if keep(rows[|rows| - 1]) then {|rows| - 1} else {})
    ensures |rows| - 1 !in PassingPositions(rows[..|rows| - 1], keep)
  {
    var init := rows[..|rows| - 1];
    assert forall k :: 0 <= k < |init| ==> rows[k] == init[k];
  }

  /** The selection holds one row per position of the frame whose row passes the mask. */
  lemma {:induction false} WhereCountsPassingPositions(rows: seq<Listing>, keep: Listing -> bool)
    ensures |Where(rows, keep)| == |PassingPositions(rows, keep)|
    decreases |rows|
  {
    if rows != [] {
      var init, last := rows[..|rows| - 1], rows[|rows| - 1];
      WhereCountsPassingPositions(init, keep);
      assert rows == init + [last];
      WhereAppend(init, [last], keep);
      assert Where([last], keep) == (if keep(last) then [last] else []) + Where([], keep);
      PassingPositionsStep(rows, keep);
    }
  }

  /** The selection keeps the order of the frame it selects from. */
  lemma {:induction false} WhereIsSubsequence(rows: seq<Listing>, keep: Listing -> bool)
    ensures IsSubsequence(Where(rows, keep), rows)
  {
    if rows != [] {
      var rest := Where(rows[1..], keep);
      WhereIsSubsequence(rows[1..], keep);
      if keep(rows[0]) {
        assert Where(rows, keep) == [rows[0]] + rest;
        assert ([rows[0]] + rest)[1..] == rest;
      } else {
        assert Where(rows, keep) == rest;
      }
    }
  }

  /** Masks that agree on every row select the same rows. */
  lemma {:induction false} WhereSameMask(rows: seq<Listing>, p: Listing -> bool, q: Listing -> bool)
    requires forall l :: l in rows ==> p(l) == q(l)
    ensures Where(rows, p) == Where(rows, q)
  {
    if rows != [] {
      WhereSameMask(rows[1..], p, q);
    }
  }

  /** Two masks applied one after the other select what their conjunction selects. */
  lemma {:induction false} WhereWhere(rows: seq<Listing>, p: Listing -> bool, q: Listing -> bool)
    ensures Where(Where(rows, p), q) == Where(rows, (l: Listing) => p(l) && q(l))
  {
    if rows != [] {
      WhereWhere(rows[1..], p, q);
      var head := if p(rows[0]) then [rows[0]] else [];
      var rest := Where(rows[1..], p);
      assert Where(rows, p) == head + rest;
      WhereAppend(head, rest, q);
    }
  }

  /** Selection distributes over concatenation. */
  lemma {:induction false} WhereAppend(a: seq<Listing>, b: seq<Listing>, keep: Listing -> bool)
    ensures Where(a + b, keep) == Where(a, keep) + Where(b, keep)
  {
    if a == [] {
      assert a + b == b;
    } else {
      var head := if keep(a[0]) then [a[0]] else [];
      assert (a + b)[0] == a[0] && (a + b)[1..] == a[1..] + b;
      assert Where(a + b, keep) == head + Where(a[1..] + b, keep);
      WhereAppend(a[1..], b, keep);
      assert Where(a, keep) == head + Where(a[1..], keep);
    }
  }

  /** A mask that no row passes leaves nothing. */
  lemma {:induction false} WhereNone(rows: seq<Listing>, keep: Listing -> bool)
    requires forall l :: l in rows ==> !keep(l)
    ensures Where(rows, keep) == []
  {
    if rows != [] {
      WhereNone(rows[1..], keep);
    }
  }

  /** A mask that every row passes keeps the frame as it is. */
  lemma {:induction false} WhereAll(rows: seq<Listing>, keep: Listing -> bool)
    requires forall l :: l in rows ==> keep(l)
    ensures Where(rows, keep) == rows
  {
    if rows != [] {
      WhereAll(rows[1..], keep);
    }
  }

  // ---------------------------------------------------------------------------
  // The filter criteria of `update_charts`
  // ---------------------------------------------------------------------------

  /** The value of the nature and type dropdowns that disables their filter. */
  const AllValues: string := "Tous"

  /** The value of the city dropdown that disables its filter. */
  const AllCities: string := "Toutes"

  /** The value of the multi-select city dropdown: the string 'Toutes' or None, or a list. */
  datatype CitySelection = NotAList | Listed(names: seq<string>)

  /**
   * The inputs of `update_charts`. A cleared single-select dropdown yields
   * None; `minPrice` and `maxPrice` are the two ends of the price slider.
   */
  datatype Criteria = Criteria(
    nature: Option<string>,
    kind: Option<string>,
    minPrice: int,
    maxPrice: int,
    cities: CitySelection)

  /** The city predicate applies only to a non-empty list that does not contain 'Toutes'. */
  predicate CityFilterActive(c: CitySelection) {
    c.Listed? && |c.names| > 0 && AllCities !in c.names
  }

  function ByNature(rows: seq<Listing>, v: Option<string>): seq<Listing> {
    if v == Some(AllValues) then rows else Where(rows, (l: Listing) => Some(l.nature.Label()) == v)
  }

  function ByKind(rows: seq<Listing>, v: Option<string>): seq<Listing> {
    if v == Some(AllValues) then rows else Where(rows, (l: Listing) => Some(l.kind.Label()) == v)
  }

  function ByPrice(rows: seq<Listing>, lo: int, hi: int): seq<Listing> {
    Where(rows, (l: Listing) => lo <= l.cleanPrice <= hi)
  }

  function ByCity(rows: seq<Listing>, c: CitySelection): seq<Listing> {
    if CityFilterActive(c) then Where(rows, (l: Listing) => l.city in c.names) else rows
  }

  /**
   * The four successive reassignments of `filtered_df`: a listing is left
   * exactly when it is in the dataset and meets every active criterion.
   */
  function ApplyFilters(rows: seq<Listing>, c: Criteria): (r: seq<Listing>)
    ensures forall l :: l in r <==> l in rows && Matches(c, l)
  {
    ByCity(ByPrice(ByKind(ByNature(rows, c.nature), c.kind), c.minPrice, c.maxPrice), c.cities)
  }

  /** A listing satisfies every active criterion. */
  predicate Matches(c: Criteria, l: Listing) {
    && (c.nature == Some(AllValues) || Some(l.nature.Label()) == c.nature)
    && (c.kind == Some(AllValues) || Some(l.kind.Label()) == c.kind)
    && c.minPrice <= l.cleanPrice <= c.maxPrice
    && (!CityFilterActive(c.cities) || l.city in c.cities.names)
  }

  /** The filter chain is one selection by the conjunction of the active criteria. */
  lemma FilterChainIsConjunction(rows: seq<Listing>, c: Criteria)
    ensures ApplyFilters(rows, c) == Where(rows, (l: Listing) => Matches(c, l))
  {
    var pn := (l: Listing) => c.nature == Some(AllValues) || Some(l.nature.Label()) == c.nature;
    var pk := (l: Listing) => c.kind == Some(AllValues) || Some(l.kind.Label()) == c.kind;
    var pp := (l: Listing) => c.minPrice <= l.cleanPrice <= c.maxPrice;
    var pc := (l: Listing) => !CityFilterActive(c.cities) || l.city in c.cities.names;
    var s1 := ByNature(rows, c.nature);
    ByNatureIsWhere(rows, c.nature, pn);
    var s2 := ByKind(s1, c.kind);
    ByKindIsWhere(s1, c.kind, pk);
    var s3 := ByPrice(s2, c.minPrice, c.maxPrice);
    WhereSameMask(s2, (l: Listing) => c.minPrice <= l.cleanPrice <= c.maxPrice, pp);
    ByCityIsWhere(s3, c.cities, pc);
    WhereFourTimes(rows, pn, pk, pp, pc, (l: Listing) => Matches(c, l));
  }

  /** Four selections in a row are one selection by the conjunction of their masks. */
  lemma WhereFourTimes(rows: seq<Listing>, p1: Listing -> bool, p2: Listing -> bool, p3: Listing -> bool,
                       p4: Listing -> bool, all: Listing -> bool)
    requires forall l :: all(l) == (p1(l) && p2(l) && p3(l) && p4(l))
    ensures Where(Where(Where(Where(rows, p1), p2), p3), p4) == Where(rows, all)
  {
    WhereWhere(rows, p1, p2);
    var p12 := (l: Listing) => p1(l) && p2(l);
    WhereWhere(rows, p12, p3);
    var p123 := (l: Listing) => p12(l) && p3(l);
    WhereWhere(rows, p123, p4);
    WhereSameMask(rows, (l: Listing) => p123(l) && p4(l), all);
  }

  /** The nature step is the selection by its criterion, which 'Tous' makes always true. */
  lemma ByNatureIsWhere(rows: seq<Listing>, v: Option<string>, p: Listing -> bool)
    requires forall l :: p(l) == (v == Some(AllValues) || Some(l.nature.Label()) == v)
    ensures ByNature(rows, v) == Where(rows, p)
  {
    if v == Some(AllValues) {
      WhereAll(rows, p);
    } else {
      WhereSameMask(rows, (l: Listing) => Some(l.nature.Label()) == v, p);
    }
  }

  /** The type step is the selection by its criterion, which 'Tous' makes always true. */
  lemma ByKindIsWhere(rows: seq<Listing>, v: Option<string>, p: Listing -> bool)
    requires forall l :: p(l) == (v == Some(AllValues) || Some(l.kind.Label()) == v)
    ensures ByKind(rows, v) == Where(rows, p)
  {
    if v == Some(AllValues) {
      WhereAll(rows, p);
    } else {
      WhereSameMask(rows, (l: Listing) => Some(l.kind.Label()) == v, p);
    }
  }

  /** The city step is the selection by its criterion, always true unless the city list is active. */
  lemma ByCityIsWhere(rows: seq<Listing>, c: CitySelection, p: Listing -> bool)
    requires forall l :: p(l) == (!CityFilterActive(c) || l.city in c.names)
    ensures ByCity(rows, c) == Where(rows, p)
  {
    if CityFilterActive(c) {
      WhereSameMask(rows, (l: Listing) => l.city in c.names, p);
    } else {
      WhereAll(rows, p);
    }
  }

  /**
   * The filtered frame keeps the order of the dataset, holds exactly the
   * listings that satisfy every active criterion, and filtering it again
   * changes nothing.
   */
  lemma FilterIsOrderPreservingSelection(rows: seq<Listing>, c: Criteria)
    ensures IsSubsequence(ApplyFilters(rows, c), rows)
    ensures forall l :: l in ApplyFilters(rows, c) <==> l in rows && Matches(c, l)
    ensures ApplyFilters(ApplyFilters(rows, c), c) == ApplyFilters(rows, c)
  {
    FilterChainIsConjunction(rows, c);
    WhereIsSubsequence(rows, (l: Listing) => Matches(c, l));
    var once := ApplyFilters(rows, c);
    FilterChainIsConjunction(once, c);
    WhereAll(once, (l: Listing) => Matches(c, l));
  }

  /** A price range whose lower end is above its upper end leaves nothing. */
  lemma EmptyPriceRangeSelectsNothing(rows: seq<Listing>, c: Criteria)
    requires c.minPrice > c.maxPrice
    ensures ApplyFilters(rows, c) == []
  {
    FilterChainIsConjunction(rows, c);
    WhereNone(rows, (l: Listing) => Matches(c, l));
  }

  /**
   * With 'Tous' for nature and type, no active city list and a price range
   * that covers every listing, the filter keeps the whole dataset.
   */
  lemma NeutralCriteriaKeepEverything(rows: seq<Listing>, c: Criteria)
    requires c.nature == Some(AllValues) && c.kind == Some(AllValues) && !CityFilterActive(c.cities)
    requires forall l :: l in rows ==> c.minPrice <= l.cleanPrice <= c.maxPrice
    ensures ApplyFilters(rows, c) == rows
  {
    FilterChainIsConjunction(rows, c);
    WhereAll(rows, (l: Listing) => Matches(c, l));
  }

  // ---------------------------------------------------------------------------
  // Reset of the filter widgets
  // ---------------------------------------------------------------------------

  /** Lowest cleaned price of a non-empty dataset. */
  function MinPrice(rows: seq<Listing>): (m: int)
    requires rows != []
    ensures forall l :: l in rows ==> m <= l.cleanPrice
    ensures exists l :: l in rows && l.cleanPrice == m
  {
    if |rows| == 1 then rows[0].cleanPrice
    else
      var rest := MinPrice(rows[1..]);
      if rows[0].cleanPrice <= rest then rows[0].cleanPrice else rest
  }

  /** Highest cleaned price of a non-empty dataset. */
  function MaxPrice(rows: seq<Listing>): (m: int)
    requires rows != []
    ensures forall l :: l in rows ==> l.cleanPrice <= m
    ensures exists l :: l in rows && l.cleanPrice == m
  {
    if |rows| == 1 then rows[0].cleanPrice
    else
      var rest := MaxPrice(rows[1..]);
      if rows[0].cleanPrice >= rest then rows[0].cleanPrice else rest
  }

  /**
   * `reset_filters`: 'Tous', 'Tous', the full price range of the dataset
   * (0 to 1000000 for an empty one), 'Toutes'. Every criterion is neutral:
   * no nature, type or city filter, and a range that covers every price.
   */
  function ResetCriteria(rows: seq<Listing>): (c: Criteria)
    ensures c.nature == Some(AllValues) && c.kind == Some(AllValues) && !CityFilterActive(c.cities)
    ensures forall l :: l in rows ==> c.minPrice <= l.cleanPrice <= c.maxPrice
    ensures rows != [] ==> exists l :: l in rows && l.cleanPrice == c.minPrice
    ensures rows != [] ==> exists l :: l in rows && l.cleanPrice == c.maxPrice
    ensures rows == [] ==> c.minPrice == 0 && c.maxPrice == 1000000
  {
    Criteria(Some(AllValues), Some(AllValues),
             if rows == [] then 0 else MinPrice(rows),
             if rows == [] then 1000000 else MaxPrice(rows),
             NotAList)
  }

  /** After a reset the filter keeps every listing. */
  lemma ResetKeepsEverything(rows: seq<Listing>)
    ensures ApplyFilters(rows, ResetCriteria(rows)) == rows
  {
    NeutralCriteriaKeepEverything(rows, ResetCriteria(rows));
  }

  // ---------------------------------------------------------------------------
  // Top listings by price
  // ---------------------------------------------------------------------------

  /** Number of rows the "top annonces" table shows. */
  const TopCount: nat := 5

  function Min(a: nat, b: nat): nat {
    if a <= b then a else b
  }

  predicate SortedByPriceDescending(s: seq<Listing>) {
    forall i, j :: 0 <= i < j < |s| ==> s[i].cleanPrice >= s[j].cleanPrice
  }

  /** Position at which a listing of price `p` goes in a list sorted by decreasing price. */
  method InsertionPoint(top: seq<Listing>, p: int) returns (j: nat)
    requires SortedByPriceDescending(top)
    ensures j <= |top|
    ensures forall k :: 0 <= k < j ==> top[k].cleanPrice >= p
    ensures forall k :: j <= k < |top| ==> top[k].cleanPrice < p
  {
    j := 0;
    while j < |top| && top[j].cleanPrice >= p
      invariant j <= |top|
      invariant forall k :: 0 <= k < j ==> top[k].cleanPrice >= p
    {
      j := j + 1;
    }
  }

  /** Putting `x` at its insertion point keeps the list sorted and adds exactly `x`. */
  lemma InsertAtPoint(top: seq<Listing>, j: nat, x: Listing)
    requires SortedByPriceDescending(top) && j <= |top|
    requires forall k :: 0 <= k < j ==> top[k].cleanPrice >= x.cleanPrice
    requires forall k :: j <= k < |top| ==> top[k].cleanPrice < x.cleanPrice
    ensures var grown := top[..j] + [x] + top[j..];
      && SortedByPriceDescending(grown)
      && multiset(grown) == multiset(top) + multiset{x}
  {
    InsertKeepsSorted(top, j, x);
    InsertAddsOne(top, j, x);
  }

  /** Listing `x` placed between the dearer and the cheaper listings keeps the order. */
  lemma InsertKeepsSorted(top: seq<Listing>, j: nat, x: Listing)
    requires SortedByPriceDescending(top) && j <= |top|
    requires forall k :: 0 <= k < j ==> top[k].cleanPrice >= x.cleanPrice
    requires forall k :: j <= k < |top| ==> top[k].cleanPrice < x.cleanPrice
    ensures SortedByPriceDescending(top[..j] + [x] + top[j..])
  {
    var grown := top[..j] + [x] + top[j..];
    forall a, b | 0 <= a < b < |grown|
      ensures grown[a].cleanPrice >= grown[b].cleanPrice
    {
      var pa := if a < j then top[a].cleanPrice else if a == j then x.cleanPrice else top[a - 1].cleanPrice;
      var pb := if b < j then top[b].cleanPrice else if b == j then x.cleanPrice else top[b - 1].cleanPrice;
      assert grown[a].cleanPrice == pa;
      assert grown[b].cleanPrice == pb;
    }
  }

  /** Inserting `x` anywhere adds exactly one copy of it. */
  lemma InsertAddsOne(top: seq<Listing>, j: nat, x: Listing)
    requires j <= |top|
    ensures multiset(top[..j] + [x] + top[j..]) == multiset(top) + multiset{x}
  {
    assert top == top[..j] + top[j..];
  }

  /** Removing the cheapest listing of a sorted list keeps it sorted; the removed one is the cheapest. */
  lemma DropLast(grown: seq<Listing>)
    requires SortedByPriceDescending(grown) && grown != []
    ensures var kept := grown[..|grown| - 1];
      && SortedByPriceDescending(kept)
      && multiset(kept) + multiset{grown[|grown| - 1]} == multiset(grown)
      && forall t :: t in kept ==> grown[|grown| - 1].cleanPrice <= t.cleanPrice
  {
    assert grown == grown[..|grown| - 1] + [grown[|grown| - 1]];
  }

  /**
   * `top` is a top-`n` list of the listings `seen` so far: sorted by
   * decreasing price, as long as allowed, and every listing `dropped` from
   * `seen` is no dearer than any listing kept.
   */
  ghost predicate IsTopOf(seen: multiset<Listing>, n: nat, top: seq<Listing>, dropped: multiset<Listing>) {
    && |top| == Min(n, |seen|)
    && multiset(top) + dropped == seen
    && SortedByPriceDescending(top)
    && (|top| < n ==> dropped == multiset{})
    && forall d, t :: d in dropped && t in top ==> d.cleanPrice <= t.cleanPrice
  }

  /** While the list is not full, the grown list is a top list of everything seen. */
  lemma OfferFits(seen: multiset<Listing>, n: nat, top: seq<Listing>, dropped: multiset<Listing>,
                  x: Listing, grown: seq<Listing>)
    requires IsTopOf(seen, n, top, dropped)
    requires SortedByPriceDescending(grown) && multiset(grown) == multiset(top) + multiset{x}
    requires |grown| <= n
    ensures IsTopOf(seen + multiset{x}, n, grown, dropped)
  {
    assert |grown| == |top| + 1;
  }

  /**
   * Once the list is full, dropping the cheapest listing of the grown list
   * leaves a top list of everything seen.
   */
  lemma OfferOverflows(seen: multiset<Listing>, n: nat, top: seq<Listing>, dropped: multiset<Listing>,
                       x: Listing, j: nat)
    requires IsTopOf(seen, n, top, dropped) && j <= |top|
    requires forall k :: 0 <= k < j ==> top[k].cleanPrice >= x.cleanPrice
    requires forall k :: j <= k < |top| ==> top[k].cleanPrice < x.cleanPrice
    requires |top| + 1 > n
    ensures var grown := top[..j] + [x] + top[j..];
      IsTopOf(seen + multiset{x}, n, grown[..|grown| - 1], dropped + multiset{grown[|grown| - 1]})
  {
    assert |seen| == |top| + |dropped|;
    OverflowCounts(seen, top, dropped, x, j);
    OverflowSorted(top, x, j);
    OverflowKeepsDearer(top, dropped, x, j);
  }

  /** After an overflow the kept and dropped listings together are everything seen. */
  lemma OverflowCounts(seen: multiset<Listing>, top: seq<Listing>, dropped: multiset<Listing>, x: Listing, j: nat)
    requires j <= |top| && multiset(top) + dropped == seen
    ensures var grown := top[..j] + [x] + top[j..];
      multiset(grown[..|grown| - 1]) + (dropped + multiset{grown[|grown| - 1]}) == seen + multiset{x}
  {
    var grown := top[..j] + [x] + top[j..];
    var last := grown[|grown| - 1];
    assert top == top[..j] + top[j..];
    assert grown == grown[..|grown| - 1] + [last];
    calc {
      multiset(grown[..|grown| - 1]) + (dropped + multiset{last});
      multiset(grown) + dropped;
      multiset(top[..j]) + multiset{x} + multiset(top[j..]) + dropped;
      multiset(top) + multiset{x} + dropped;
    }
  }

  /** After an overflow the kept listings are still sorted. */
  lemma OverflowSorted(top: seq<Listing>, x: Listing, j: nat)
    requires SortedByPriceDescending(top) && j <= |top|
    requires forall k :: 0 <= k < j ==> top[k].cleanPrice >= x.cleanPrice
    requires forall k :: j <= k < |top| ==> top[k].cleanPrice < x.cleanPrice
    ensures var grown := top[..j] + [x] + top[j..];
      SortedByPriceDescending(grown[..|grown| - 1])
  {
    InsertAtPoint(top, j, x);
    DropLast(top[..j] + [x] + top[j..]);
  }

  /**
   * After an overflow every dropped listing, the earlier ones and the one
   * just dropped, is no dearer than any listing kept.
   */
  lemma OverflowKeepsDearer(top: seq<Listing>, dropped: multiset<Listing>, x: Listing, j: nat)
    requires SortedByPriceDescending(top) && j <= |top|
    requires forall k :: 0 <= k < j ==> top[k].cleanPrice >= x.cleanPrice
    requires forall k :: j <= k < |top| ==> top[k].cleanPrice < x.cleanPrice
    requires forall d, t :: d in dropped && t in top ==> d.cleanPrice <= t.cleanPrice
    ensures var grown := top[..j] + [x] + top[j..];
      forall d, t :: d in dropped + multiset{grown[|grown| - 1]} && t in grown[..|grown| - 1] ==> d.cleanPrice <= t.cleanPrice
  {
    var grown := top[..j] + [x] + top[j..];
    var top' := grown[..|grown| - 1];
    var last := grown[|grown| - 1];
    InsertAtPoint(top, j, x);
    DropLast(grown);
    EarlierDroppedNoDearer(top, dropped, x, j);
    forall d, t | d in dropped + multiset{last} && t in top' ensures d.cleanPrice <= t.cleanPrice {
      if d != last {
        assert d in dropped;
      }
    }
  }

  /** A listing dropped before an overflow is no dearer than any listing left after it. */
  lemma EarlierDroppedNoDearer(top: seq<Listing>, dropped: multiset<Listing>, x: Listing, j: nat)
    requires j <= |top|
    requires forall k :: j <= k < |top| ==> top[k].cleanPrice < x.cleanPrice
    requires forall d, t :: d in dropped && t in top ==> d.cleanPrice <= t.cleanPrice
    ensures var grown := top[..j] + [x] + top[j..];
      forall d, t :: d in dropped && t in grown[..|grown| - 1] ==> d.cleanPrice <= t.cleanPrice
  {
    var grown := top[..j] + [x] + top[j..];
    var top' := grown[..|grown| - 1];
    if j == |top| {
      assert top' == top;
    } else {
      forall d, t | d in dropped && t in top' ensures d.cleanPrice <= t.cleanPrice {
        assert top[j] in top;
        if t !in top {
          assert t in grown;
        }
      }
    }
  }

  /** One step of the selection: offer listing `x` to a top-`n` list. */
  method Offer(top: seq<Listing>, n: nat, x: Listing, ghost seen: multiset<Listing>, ghost dropped: multiset<Listing>)
    returns (top': seq<Listing>, ghost dropped': multiset<Listing>)
    requires IsTopOf(seen, n, top, dropped)
    ensures IsTopOf(seen + multiset{x}, n, top', dropped')
  {
    var j := InsertionPoint(top, x.cleanPrice);
    var grown := top[..j] + [x] + top[j..];
    if |grown| > n {
      OfferOverflows(seen, n, top, dropped, x, j);
      top', dropped' := grown[..|grown| - 1], dropped + multiset{grown[|grown| - 1]};
    } else {
      InsertAtPoint(top, j, x);
      OfferFits(seen, n, top, dropped, x, grown);
      top', dropped' := grown, dropped;
    }
  }

  /**
   * `sort_values('Prix_nettoye', ascending=False).head(n)`: the `n` listings
   * of highest price (all of them when there are fewer), by decreasing price,
   * taken from the rows, and no listing left out is dearer than one taken.
   */
  method TopByPrice(rows: seq<Listing>, n: nat) returns (top: seq<Listing>)
    ensures |top| == Min(n, |rows|)
    ensures multiset(top) <= multiset(rows)
    ensures SortedByPriceDescending(top)
    ensures forall x, t :: x in multiset(rows) - multiset(top) && t in top ==> x.cleanPrice <= t.cleanPrice
  {
    top := [];
    ghost var dropped: multiset<Listing> := multiset{};
    ghost var seen: multiset<Listing> := multiset{};
    for i := 0 to |rows|
      invariant seen == multiset(rows[..i])
      invariant IsTopOf(seen, n, top, dropped)
    {
      top, dropped := Offer(top, n, rows[i], seen, dropped);
      seen := seen + multiset{rows[i]};
      PrefixGrows(rows, i);
    }
    PrefixGrows(rows, |rows|);
    TopOfEverything(rows, n, top, dropped);
  }

  /** The listings of the first `i + 1` rows are those of the first `i` and row `i`; all rows at the end. */
  lemma PrefixGrows(rows: seq<Listing>, i: nat)
    requires i <= |rows|
    ensures i < |rows| ==> multiset(rows[..i + 1]) == multiset(rows[..i]) + multiset{rows[i]}
    ensures i == |rows| ==> multiset(rows[..i]) == multiset(rows)
  {
    if i < |rows| {
      assert rows[..i + 1] == rows[..i] + [rows[i]];
    } else {
      assert rows[..i] == rows;
    }
  }

  /** A top list of all the rows meets the contract of the selection. */
  lemma TopOfEverything(rows: seq<Listing>, n: nat, top: seq<Listing>, dropped: multiset<Listing>)
    requires IsTopOf(multiset(rows), n, top, dropped)
    ensures |top| == Min(n, |rows|)
    ensures multiset(top) <= multiset(rows)
    ensures forall x, t :: x in multiset(rows) - multiset(top) && t in top ==> x.cleanPrice <= t.cleanPrice
  {
    assert multiset(rows) - multiset(top) == dropped;
  }

  /**
   * The first listing of a top-by-price table is the dearest of all the rows,
   * whatever order ties were put in.
   */
  lemma TopHeadIsMaximum(rows: seq<Listing>, n: nat, top: seq<Listing>)
    requires multiset(top) <= multiset(rows)
    requires SortedByPriceDescending(top)
    requires forall x, t :: x in multiset(rows) - multiset(top) && t in top ==> x.cleanPrice <= t.cleanPrice
    requires top != []
    ensures forall x :: x in rows ==> x.cleanPrice <= top[0].cleanPrice
  {
    forall x | x in rows ensures x.cleanPrice <= top[0].cleanPrice {
      if x in multiset(rows) - multiset(top) {
      } else {
        assert x in multiset(top);
        var k :| 0 <= k < |top| && top[k] == x;
      }
    }
  }

  /**
   * `update_charts` as far as the listings go: unless the reset button fired
   * the callback, narrow the dataset criterion by criterion; then take the
   * five dearest listings of the result for the table.
   */
  method UpdateCharts(rows: seq<Listing>, c: Criteria, resetClicked: bool)
    returns (filtered: seq<Listing>, top: seq<Listing>)
    ensures filtered == if resetClicked then rows else Where(rows, (l: Listing) => Matches(c, l))
    ensures |top| == Min(TopCount, |filtered|)
    ensures multiset(top) <= multiset(filtered)
    ensures SortedByPriceDescending(top)
    ensures forall x, t :: x in multiset(filtered) - multiset(top) && t in top ==> x.cleanPrice <= t.cleanPrice
  {
    filtered := rows;
    if !resetClicked {
      if c.nature != Some(AllValues) {
        filtered := Where(filtered, (l: Listing) => Some(l.nature.Label()) == c.nature);
      }
      if c.kind != Some(AllValues) {
        filtered := Where(filtered, (l: Listing) => Some(l.kind.Label()) == c.kind);
      }
      filtered := Where(filtered, (l: Listing) => c.minPrice <= l.cleanPrice <= c.maxPrice);
      if CityFilterActive(c.cities) {
        filtered := Where(filtered, (l: Listing) => l.city in c.cities.names);
      }
      assert filtered == ApplyFilters(rows, c);
      FilterChainIsConjunction(rows, c);
    }
    top := TopByPrice(filtered, TopCount);
  }
}
