/**
 * The listing loader: drop the rows whose title, price or location is null,
 * parse the price and drop the rows where it fails, then derive the city,
 * type, nature, surface, price per square metre and price bucket of each
 * remaining row. A row that reaches the type derivation with a title that is
 * not text raises, and the loader then answers with an empty dataset.
 */
module Loading {
  import opened Wrappers
  import opened Text
  import opened Cleaning

  /** The spreadsheet columns the loader reads. */
  datatype RawRow = RawRow(title: Cell, price: Cell, location: Cell, area: Cell)

  /** A row of the cleaned dataset: the raw cells it keeps and the derived columns. */
  datatype Listing = Listing(
    title: string,
    price: Cell,
    location: Cell,
    area: Cell,
    cleanPrice: int,
    city: string,
    kind: PropertyType,
    nature: Nature,
    cleanArea: Option<int>,
    pricePerArea: Option<real>,
    bucket: Option<PriceBucket>)

  /** What the loader does with one raw row. */
  datatype RowOutcome =
    | Dropped             // removed by one of the two `dropna` calls
    | Kept(listing: Listing)
    | Raises              // `.lower()` on a title that is not text

  /**
   * The invariants of a cleaned row: its location is not null, its price is
   * the parse of its price cell, and each derived column (city, type, nature,
   * surface, price per square metre, bucket) is what the cleaning functions
   * compute from its cells.
   */
  ghost predicate Consistent(l: Listing) {
    && !l.location.Missing?
    && CleanPrice(l.price) == Some(l.cleanPrice)
    && l.city == City(l.location)
    && l.kind == TypeFromTitle(l.title)
    && l.nature == NatureOf(l.title, l.price)
    && l.cleanArea == CleanArea(l.area)
    && IsPricePerArea(l.cleanPrice, l.cleanArea, l.pricePerArea)
    && l.bucket == BucketOf(l.cleanPrice)
  }

  /**
   * One row through the loader. It survives exactly when its title, price and
   * location are not null and its price parses; a surviving row whose title
   * is not text raises; a kept row keeps the row's cells
   * (`CleanRowIsConsistent` gives its derived columns).
   */
  function CleanRow(r: RawRow): (o: RowOutcome)
    ensures o.Dropped? <==>
      r.title.Missing? || r.price.Missing? || r.location.Missing? || CleanPrice(r.price).None?
    ensures o.Raises? <==> !o.Dropped? && !r.title.Str?
    ensures o.Kept? ==>
      && Str(o.listing.title) == r.title
      && o.listing.price == r.price && o.listing.location == r.location && o.listing.area == r.area
  {
    if r.title.Missing? || r.price.Missing? || r.location.Missing? then Dropped
    else
      match CleanPrice(r.price)
      case None => Dropped
      case Some(p) =>
        if !r.title.Str? then Raises
        else
          var title := r.title.s;
          var area := CleanArea(r.area);
          Kept(Listing(title, r.price, r.location, r.area, p, City(r.location), TypeFromTitle(title),
                       NatureOf(title, r.price), area, PricePerArea(p, area), BucketOf(p)))
  }

  /** A kept row carries every derived column as the cleaning functions compute it from its cells. */
  lemma CleanRowIsConsistent(r: RawRow)
    requires CleanRow(r).Kept?
    ensures Consistent(CleanRow(r).listing)
  {
  }

  /**
   * The dataset `load_data` builds from the raw rows, in their order, or None
   * when one surviving row raises (the exception escapes the cleaning and the
   * loader falls back to an empty dataset).
   */
  function LoadRows(raw: seq<RawRow>): (r: Option<seq<Listing>>)
    ensures r.Some? ==> |r.value| <= |raw|
  {
    if raw == [] then Some([])
    else
      var init := LoadRows(raw[..|raw| - 1]);
      match CleanRow(raw[|raw| - 1])
      case Raises => None
      case Dropped => init
      case Kept(l) => if init.None? then None else Some(init.value + [l])
  }

  /** Some row raises. */
  ghost predicate SomeRowRaises(raw: seq<RawRow>) {
    exists k :: 0 <= k < |raw| && CleanRow(raw[k]).Raises?
  }

  /** Loading fails exactly when some row that survives the `dropna` calls has a title that is not text. */
  lemma {:induction false} LoadFailsIffSomeRowRaises(raw: seq<RawRow>)
    ensures LoadRows(raw).None? <==> SomeRowRaises(raw)
  {
    if raw != [] {
      LoadFailsIffSomeRowRaises(raw[..|raw| - 1]);
      SomeRowRaisesStep(raw);
    }
  }

  /** A row of `raw` raises exactly when one of all but the last does or the last one does. */
  lemma SomeRowRaisesStep(raw: seq<RawRow>)
    requires raw != []
    ensures SomeRowRaises(raw) <==> SomeRowRaises(raw[..|raw| - 1]) || CleanRow(raw[|raw| - 1]).Raises?
  {
    var init := raw[..|raw| - 1];
    if SomeRowRaises(init) {
      var k :| 0 <= k < |init| && CleanRow(init[k]).Raises?;
      assert raw[k] == init[k];
    }
    if SomeRowRaises(raw) && !CleanRow(raw[|raw| - 1]).Raises? {
      var k :| 0 <= k < |raw| && CleanRow(raw[k]).Raises?;
      assert k < |init| && init[k] == raw[k];
    }
  }

  /** Every row of a loaded dataset keeps the invariants of a cleaned row. */
  lemma {:induction false} LoadedRowsAreConsistent(raw: seq<RawRow>)
    requires LoadRows(raw).Some?
    ensures forall l :: l in LoadRows(raw).value ==> Consistent(l)
  {
    if raw != [] {
      LoadedRowsAreConsistent(raw[..|raw| - 1]);
      var last := raw[|raw| - 1];
      if CleanRow(last).Kept? {
        CleanRowIsConsistent(last);
      }
    }
  }

  /** What the loader does with each raw row, in the rows' order. */
  function Outcomes(raw: seq<RawRow>): (o: seq<RowOutcome>)
    ensures |o| == |raw|
  {
    seq(|raw|, k requires 0 <= k < |raw| => CleanRow(raw[k]))
  }

  /** The outcomes of all rows are those of all but the last, then the last one's. */
  lemma OutcomesStep(raw: seq<RawRow>)
    requires raw != []
    ensures Outcomes(raw) == Outcomes(raw[..|raw| - 1]) + [CleanRow(raw[|raw| - 1])]
  {
    var init := raw[..|raw| - 1];
    assert forall k :: 0 <= k < |init| ==> Outcomes(init)[k] == CleanRow(raw[k]);
  }

  /**
   * When nothing raises, a listing is in the dataset exactly when some raw
   * row's outcome is to be kept as that listing.
   */
  lemma {:induction false} LoadedListingsAreKeptRows(raw: seq<RawRow>)
    requires LoadRows(raw).Some?
    ensures forall l :: l in LoadRows(raw).value <==> Kept(l) in Outcomes(raw)
  {
    if raw != [] {
      LoadRowsStep(raw);
      LoadedListingsAreKeptRows(raw[..|raw| - 1]);
      OutcomesStep(raw);
    }
  }

  /**
   * When nothing raises, a listing appears in the dataset as many times as
   * raw rows are kept as that listing: duplicate rows give duplicate listings.
   */
  lemma {:induction false} LoadedListingsCountKeptRows(raw: seq<RawRow>)
    requires LoadRows(raw).Some?
    ensures forall l :: multiset(LoadRows(raw).value)[l] == multiset(Outcomes(raw))[Kept(l)]
  {
    if raw != [] {
      var init := raw[..|raw| - 1];
      var last := CleanRow(raw[|raw| - 1]);
      LoadRowsStep(raw);
      LoadedListingsCountKeptRows(init);
      OutcomesStep(raw);
      assert LoadRows(raw).value == LoadRows(init).value + (if last.Kept? then [last.listing] else []);
    }
  }

  /** Number of raw rows the loader drops. */
  function DroppedCount(raw: seq<RawRow>): nat {
    if raw == [] then 0
    else DroppedCount(raw[..|raw| - 1]) + (if CleanRow(raw[|raw| - 1]).Dropped? then 1 else 0)
  }

  /** When nothing raises, every raw row is either in the dataset or counted as dropped. */
  lemma {:induction false} KeptPlusDroppedIsAll(raw: seq<RawRow>)
    requires LoadRows(raw).Some?
    ensures |LoadRows(raw).value| + DroppedCount(raw) == |raw|
  {
    if raw != [] {
      var init := raw[..|raw| - 1];
      assert LoadRows(init).Some?;
      KeptPlusDroppedIsAll(init);
    }
  }

  /** Dropping the last raw row can only remove the last listing. */
  lemma LoadRowsStep(raw: seq<RawRow>)
    requires raw != [] && LoadRows(raw).Some?
    ensures LoadRows(raw[..|raw| - 1]).Some?
    ensures LoadRows(raw[..|raw| - 1]).value <= LoadRows(raw).value
  {
  }

  /** Loading more rows keeps the earlier result as a prefix (the dataset keeps the file's order). */
  lemma {:induction false} LoadRowsPrefix(raw: seq<RawRow>, more: seq<RawRow>)
    requires LoadRows(raw + more).Some?
    ensures LoadRows(raw).Some? && LoadRows(raw).value <= LoadRows(raw + more).value
    decreases |more|
  {
    if more == [] {
      assert raw + more == raw;
    } else {
      var all := raw + more;
      assert all[..|all| - 1] == raw + more[..|more| - 1];
      LoadRowsStep(all);
      LoadRowsPrefix(raw, more[..|more| - 1]);
    }
  }

  /**
   * `load_data` over rows already read from the spreadsheet: the rows are
   * cleaned in order, and a row that raises makes the result empty.
   */
  method LoadData(raw: seq<RawRow>) returns (rows: seq<Listing>)
    ensures rows == LoadRows(raw).GetOr([])
  {
    rows := [];
    for i := 0 to |raw|
      invariant LoadRows(raw[..i]) == Some(rows)
    {
      assert raw[..i + 1][..i] == raw[..i];
      match CleanRow(raw[i])
      case Dropped =>
      case Raises =>
        LoadFailsIffSomeRowRaises(raw);
        assert CleanRow(raw[i]).Raises?;
        return [];
      case Kept(l) =>
        rows := rows + [l];
    }
    assert raw[..|raw|] == raw;
  }
}
