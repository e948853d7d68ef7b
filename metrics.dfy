/**
 * The headline counts of the dashboard: number of listings, of sales, of
 * rentals and of distinct cities.
 */
module Metrics {
  import opened Cleaning
  import opened Loading
  import opened Filtering

  /**
   * `df[df['nature'] == label].shape[0]`: the number of positions of the
   * dataset whose listing has that nature, so at most the number of listings,
   * and zero exactly when no listing has that nature.
   */
  function CountNature(rows: seq<Listing>, n: Nature): (count: nat)
    ensures count == |set k | 0 <= k < |rows| && rows[k].nature == n|
    ensures count <= |rows|
    ensures count == 0 <==> forall l :: l in rows ==> l.nature != n
  {
    var keep := (l: Listing) => l.nature == n;
    var selected := Where(rows, keep);
    WhereCountsPassingPositions(rows, keep);
    assert PassingPositions(rows, keep) == (set k | 0 <= k < |rows| && rows[k].nature == n);
    assert selected != [] ==> selected[0] in selected;
    |selected|
  }

  /** Every listing is a sale or a rental, never both: the two counts add up to the total. */
  lemma {:induction false} SalesPlusRentalsIsTotal(rows: seq<Listing>)
    ensures CountNature(rows, Vente) + CountNature(rows, Location) == |rows|
  {
    if rows != [] {
      SalesPlusRentalsIsTotal(rows[1..]);
      var sale := (l: Listing) => l.nature == Vente;
      var rent := (l: Listing) => l.nature == Location;
      assert Where(rows, sale) == (if sale(rows[0]) then [rows[0]] else []) + Where(rows[1..], sale);
      assert Where(rows, rent) == (if rent(rows[0]) then [rows[0]] else []) + Where(rows[1..], rent);
    }
  }

  /**
   * The distinct cities of the dataset (`df['Ville'].nunique()` is its size):
   * the city of every listing and no other city, so none for an empty dataset.
   */
  function DistinctCities(rows: seq<Listing>): (cities: set<string>)
    ensures forall l :: l in rows ==> l.city in cities
    ensures forall c :: c in cities ==> exists l :: l in rows && l.city == c
    ensures cities == {} <==> rows == []
  {
    var cities := set l | l in rows :: l.city;
    assert rows != [] ==> rows[0].city in cities;
    cities
  }

  /** There are never more distinct cities than listings. */
  lemma {:induction false} DistinctCitiesAtMostListings(rows: seq<Listing>)
    ensures |DistinctCities(rows)| <= |rows|
  {
    if rows != [] {
      DistinctCitiesAtMostListings(rows[1..]);
      assert DistinctCities(rows) == {rows[0].city} + DistinctCities(rows[1..]);
    }
  }
}
