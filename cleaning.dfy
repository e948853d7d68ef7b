/**
 * The per-cell normalisers and per-row derivations of the listing loader:
 * price and surface parsing, the city, the property type, the sale/rental
 * nature, the price per square metre and the price bucket.
 */
module Cleaning {
  import opened Wrappers
  import opened Text

  /** One spreadsheet cell as pandas hands it to the cleaning functions. */
  datatype Cell =
    | Missing           // None or NaN: what `dropna` and `notnull` treat as null
    | Str(s: string)
    | Int(i: int)
    | Float(x: real)    // a finite float
    | Infinite          // a float infinity: `int()` of it raises OverflowError
    | Bool(b: bool)     // `bool` is a subclass of `int` in Python
    | OtherValue        // any other object (a date, say): neither text nor a number

  // ---------------------------------------------------------------------------
  // Numbers
  // ---------------------------------------------------------------------------

  /** Python's `int(x)` on a finite float: the integer part, rounded toward zero. */
  function Truncate(x: real): (n: int)
    ensures 0.0 <= x ==> 0 <= n && n as real <= x < n as real + 1.0
    ensures x < 0.0 ==> n <= 0 && n as real - 1.0 < x <= n as real
  {
    if x >= 0.0 then x.Floor else -((-x).Floor)
  }

  /**
   * The `isinstance(x, (int, float))` branch shared by both parsers: `int(x)`,
   * or None where `int()` raises (NaN, infinity) and the exception is swallowed,
   * or where the cell is not a number at all.
   */
  function NumericValue(c: Cell): (r: Option<int>)
    ensures r.Some? <==> c.Int? || c.Bool? || c.Float?
    ensures c.Int? ==> r.value == c.i
    ensures c.Bool? ==> r.value == if c.b then 1 else 0
    ensures c.Float? ==> r.value == Truncate(c.x)
    ensures c.Float? ==> r.value as real - 1.0 < c.x < r.value as real + 1.0
    ensures c.Float? ==> (0.0 <= c.x ==> 0 <= r.value) && (c.x <= 0.0 ==> r.value <= 0)
  {
    match c
    case Int(i) => Some(i)
    case Bool(b) => Some(if b then 1 else 0)
    case Float(x) => Some(Truncate(x))
    case _ => None
  }

  // ---------------------------------------------------------------------------
  // Price and surface parsing
  // ---------------------------------------------------------------------------

  /** The thousands separators the price parser deletes before looking for digits. */
  predicate IsSeparator(c: char) {
    c == ' ' || c == '.' || c == ','
  }

  predicate NoSeparators(s: string) {
    forall k :: 0 <= k < |s| ==> !IsSeparator(s[k])
  }

  /** `s.replace(" ", "").replace(".", "").replace(",", "")`. */
  function RemoveSeparators(s: string): (r: string)
    ensures |r| <= |s|
    ensures NoSeparators(r)
    ensures NoSeparators(s) ==> r == s
  {
    if s == [] then []
    else (if IsSeparator(s[0]) then [] else [s[0]]) + RemoveSeparators(s[1..])
  }

  /** Deleting separators works piece by piece. */
  lemma {:induction false} RemoveSeparatorsAppend(s: string, t: string)
    ensures RemoveSeparators(s + t) == RemoveSeparators(s) + RemoveSeparators(t)
    decreases |s|
  {
    if s == [] {
      assert s + t == t;
    } else {
      assert (s + t)[1..] == s[1..] + t;
      RemoveSeparatorsAppend(s[1..], t);
    }
  }

  /**
   * On one character, deleting separators removes a separator and keeps any
   * other character. With `RemoveSeparatorsAppend` this fixes the result on
   * every text: the characters that are not separators, in their order.
   */
  lemma RemoveSeparatorsOfChar(c: char)
    ensures RemoveSeparators([c]) == if IsSeparator(c) then [] else [c]
  {
    assert [c][1..] == [];
  }

  /** The digits of a text, in their order. */
  function DigitsOf(s: string): (r: string)
    ensures AllDigits(r)
    ensures r == [] <==> NoDigits(s)
    decreases |s|
  {
    if s == [] then []
    else
      assert NoDigits(s) <==> !IsDigit(s[0]) && NoDigits(s[1..]) by {
        assert forall k :: 1 <= k < |s| ==> s[k] == s[1..][k - 1];
      }
      (if IsDigit(s[0]) then [s[0]] else []) + DigitsOf(s[1..])
  }

  /** Deleting separators keeps every digit, in order, and adds none. */
  lemma {:induction false} RemoveSeparatorsKeepsDigits(s: string)
    ensures DigitsOf(RemoveSeparators(s)) == DigitsOf(s)
    decreases |s|
  {
    if s != [] {
      RemoveSeparatorsKeepsDigits(s[1..]);
      var head := if IsSeparator(s[0]) then [] else [s[0]];
      var tail := RemoveSeparators(s[1..]);
      assert RemoveSeparators(s) == head + tail;
      DigitsOfAppend(head, tail);
      assert DigitsOf(head) == if IsDigit(s[0]) then [s[0]] else [] by {
        if head != [] {
          assert head[1..] == [];
        }
      }
    }
  }

  /** Collecting digits works piece by piece. */
  lemma {:induction false} DigitsOfAppend(s: string, t: string)
    ensures DigitsOf(s + t) == DigitsOf(s) + DigitsOf(t)
    decreases |s|
  {
    if s == [] {
      assert s + t == t;
    } else {
      var head := if IsDigit(s[0]) then [s[0]] else [];
      assert (s + t)[0] == s[0] && (s + t)[1..] == s[1..] + t;
      assert DigitsOf(s + t) == head + DigitsOf(s[1..] + t);
      DigitsOfAppend(s[1..], t);
      assert DigitsOf(s) == head + DigitsOf(s[1..]);
    }
  }

  /**
   * The value of the first run of digits of `s`, or None when `s` has no
   * digit; `LeadingNumberOfSplit` gives the value wherever the run stands.
   */
  function LeadingNumber(s: string): (r: Option<int>)
    ensures r.None? <==> NoDigits(s)
    ensures r.Some? ==> r.value >= 0
  {
    match FirstDigitRun(s)
    case None => None
    case Some(run) => Some(DecimalValue(run))
  }

  /**
   * `nettoyer_prix`: on text, delete every space, period and comma, then read
   * the first run of digits; on a number, truncate it; anything else, and any
   * exception, gives None. Text gives a value exactly when it holds a digit,
   * and that value is never negative.
   */
  function CleanPrice(c: Cell): (r: Option<int>)
    ensures c.Str? ==> (r.None? <==> NoDigits(c.s))
    ensures c.Str? && r.Some? ==> r.value >= 0
    ensures !c.Str? ==> r == NumericValue(c)
  {
    match c
    case Str(s) =>
      RemoveSeparatorsKeepsDigits(s);
      LeadingNumber(RemoveSeparators(s))
    case _ => NumericValue(c)
  }

  /**
   * `nettoyer_superficie`: the same first-run-of-digits rule, without deleting
   * separators first.
   */
  function CleanArea(c: Cell): (r: Option<int>)
    ensures c.Str? ==> (r.None? <==> NoDigits(c.s))
    ensures c.Str? && r.Some? ==> r.value >= 0
    ensures !c.Str? ==> r == NumericValue(c)
  {
    match c
    case Str(s) => LeadingNumber(s)
    case _ => NumericValue(c)
  }

  /**
   * Text without digits, a run of digits, then text that does not start with
   * a digit: the first-run reader gives the value of that run, leading zeros
   * and all.
   */
  lemma LeadingNumberOfSplit(pre: string, d: string, rest: string)
    requires NoDigits(pre) && d != [] && AllDigits(d)
    requires rest == [] || !IsDigit(rest[0])
    ensures LeadingNumber(pre + d + rest) == Some(DecimalValue(d))
  {
    FirstRunAfterDigitFreePrefix(pre, d, rest);
  }

  /**
   * Whatever text stands before it, the price is the value of the first run
   * of digits left once the separators are deleted.
   */
  lemma CleanPriceReadsFirstRun(s: string, pre: string, d: string, rest: string)
    requires RemoveSeparators(s) == pre + d + rest
    requires NoDigits(pre) && d != [] && AllDigits(d)
    requires rest == [] || !IsDigit(rest[0])
    ensures CleanPrice(Str(s)) == Some(DecimalValue(d))
  {
    LeadingNumberOfSplit(pre, d, rest);
  }

  /**
   * A label without digits (as in "Prix : "), then an amount written with
   * separators anywhere between its digits (as in "1 250 000" or
   * "1.250.000"), then a unit without digits: the price is that amount.
   */
  lemma CleanPriceReadsGroupedAmount(lead: string, grouped: string, unit: string, n: nat)
    requires NoDigits(lead) && NoDigits(unit)
    requires RemoveSeparators(grouped) == Render(n)
    ensures CleanPrice(Str(lead + grouped + unit)) == Some(n)
  {
    var l, u := RemoveSeparators(lead), RemoveSeparators(unit);
    RemoveSeparatorsAppend(lead, grouped);
    RemoveSeparatorsAppend(lead + grouped, unit);
    RemoveSeparatorsKeepsDigits(lead);
    RemoveSeparatorsKeepsDigits(unit);
    assert u == [] || !IsDigit(u[0]);
    CleanPriceReadsFirstRun(lead + grouped + unit, l, Render(n), u);
    DecimalValueOfRender(n);
  }

  /**
   * Whatever text stands before it, the surface is the value of the first
   * run of digits of the text, separators included.
   */
  lemma CleanAreaReadsFirstRun(pre: string, d: string, rest: string)
    requires NoDigits(pre) && d != [] && AllDigits(d)
    requires rest == [] || !IsDigit(rest[0])
    ensures CleanArea(Str(pre + d + rest)) == Some(DecimalValue(d))
  {
    LeadingNumberOfSplit(pre, d, rest);
  }

  /** On text without separators the two parsers agree. */
  lemma CleanPriceAgreesWithCleanAreaWithoutSeparators(s: string)
    requires NoSeparators(s)
    ensures CleanPrice(Str(s)) == CleanArea(Str(s))
  {
  }

  /** Digit groups separated by single spaces lose exactly the spaces. */
  lemma RemoveSeparatorsOfGroups(a: string, b: string, c: string)
    requires NoSeparators(a) && NoSeparators(b) && NoSeparators(c)
    ensures RemoveSeparators(a + " " + b + " " + c) == a + b + c
  {
    var space := " ";
    assert RemoveSeparators(space) == [] by {
      assert IsSeparator(space[0]) && space[1..] == [];
    }
    RemoveSeparatorsAppend(a, space);
    assert RemoveSeparators(a + space) == a;
    RemoveSeparatorsAppend(a + space, b);
    assert RemoveSeparators(a + space + b) == a + b;
    RemoveSeparatorsAppend(a + space + b, space);
    assert RemoveSeparators(a + space + b + space) == a + b;
    RemoveSeparatorsAppend(a + space + b + space, c);
  }

  /** "1 250 000 TND" is read as 1250000 by the price parser. */
  lemma CleanPriceExample()
    ensures CleanPrice(Str("1 250 000 TND")) == Some(1250000)
  {
    var grouped, unit := "1 250 000", " TND";
    assert grouped + unit == "1 250 000 TND";
    GroupedAmountExample(grouped, unit, 1250000);
  }

  // The three helpers below take the example's literals as parameters pinned by
  // `requires`: stated on the literals themselves, the solver unfolds
  // `RemoveSeparators` and `Render` eagerly and exceeds its budget.
  lemma GroupedAmountExample(grouped: string, unit: string, n: nat)
    requires grouped == "1 250 000" && unit == " TND" && n == 1250000
    ensures CleanPrice(Str(grouped + unit)) == Some(n)
  {
    RenderOfExampleAmount(n);
    ExampleAmountWithoutSpaces(grouped);
    assert NoDigits(unit) by {
    }
    assert grouped + unit == [] + grouped + unit;
    CleanPriceReadsGroupedAmount([], grouped, unit, n);
  }

  lemma ExampleAmountWithoutSpaces(grouped: string)
    requires grouped == "1 250 000"
    ensures RemoveSeparators(grouped) == "1250000"
  {
    assert grouped == "1" + " " + "250" + " " + "000";
    RemoveSeparatorsOfGroups("1", "250", "000");
    assert "1" + "250" + "000" == "1250000";
  }

  lemma RenderOfExampleAmount(n: nat)
    requires n == 1250000
    ensures Render(n) == "1250000"
  {
    assert Render(1) == "1";
    assert Render(12) == Render(1) + "2";
    assert Render(125) == Render(12) + "5";
    assert Render(1250) == Render(125) + "0";
    assert Render(12500) == Render(1250) + "0";
    assert Render(125000) == Render(12500) + "0";
  }

  /** "1 200 m²" is read as 1 by the surface parser: the space ends the first run. */
  lemma CleanAreaStopsAtSpace()
    ensures CleanArea(Str("1 200 m²")) == Some(1)
  {
    assert "1 200 m²" == [] + "1" + " 200 m²";
    CleanAreaReadsFirstRun([], "1", " 200 m²");
  }

  // ---------------------------------------------------------------------------
  // City
  // ---------------------------------------------------------------------------

  /** The city assigned to a listing whose location is not text. */
  const UnknownCity: string := "Inconnu"

  /**
   * The `Ville` column: the last comma-separated segment of a textual
   * location, stripped, so it holds no comma; "Inconnu" for any other cell.
   */
  function City(location: Cell): (city: string)
    ensures ',' !in city
    ensures !location.Str? ==> city == UnknownCity
  {
    match location
    case Str(s) =>
      LastPieceIsFinalSegment(s, ',');
      StripKeepsAbsentChar(Last(Split(s, ',')), ',');
      Strip(Last(Split(s, ',')))
    case _ => UnknownCity
  }

  /** The city of a textual location carries no whitespace at either end. */
  lemma CityIsTrimmed(s: string)
    ensures var city := City(Str(s));
      city == [] || (!IsSpace(city[0]) && !IsSpace(city[|city| - 1]))
  {
    var piece := Last(Split(s, ','));
    assert City(Str(s)) == Strip(piece);
  }

  /**
   * The city of a textual location is the stripped text after its last comma,
   * or the whole stripped location when it has no comma.
   */
  lemma CityIsTextAfterLastComma(s: string)
    ensures ',' !in s ==> City(Str(s)) == Strip(s)
    ensures ',' in s ==> exists i :: 0 <= i < |s| && s[i] == ',' && ',' !in s[i + 1..] && City(Str(s)) == Strip(s[i + 1..])
  {
    var piece := Last(Split(s, ','));
    if ',' !in s {
      SplitWithoutSeparator(s, ',');
    } else {
      LastPieceIsFinalSegment(s, ',');
      assert |piece| != |s|;
      var at := |s| - |piece| - 1;
      assert s[at + 1..] == piece;
    }
  }

  /** Stripping never brings in a character that was not there. */
  lemma StripKeepsAbsentChar(s: string, c: char)
    requires c !in s
    ensures c !in Strip(s)
  {
    var i, j := StripBounds(s);
    assert forall k :: 0 <= k < j - i ==> Strip(s)[k] == s[i + k];
  }

  // ---------------------------------------------------------------------------
  // Property type
  // ---------------------------------------------------------------------------

  /** The `type_bien` labels. */
  datatype PropertyType = Appartement | Villa | Terrain | Maison | Autre {

    function Label(): string {
      match this
      case Appartement => "Appartement"
      case Villa => "Villa"
      case Terrain => "Terrain"
      case Maison => "Maison"
      case Autre => "Autre"
    }

    /** Position in the order the keywords are looked for; `Autre` comes last. */
    function Rank(): nat {
      match this
      case Appartement => 0
      case Villa => 1
      case Terrain => 2
      case Maison => 3
      case Autre => 4
    }

    /** The keyword whose presence in the lower-cased title selects this type. */
    function Keyword(): string
      requires !Autre?
    {
      match this
      case Appartement => "appart"
      case Villa => "villa"
      case Terrain => "terrain"
      case Maison => "maison"
    }
  }

  /**
   * `extraire_type_bien` on a textual title: the first keyword found, in a
   * fixed order. A type other than `Autre` is one whose keyword the title
   * mentions, and no keyword of a type that comes earlier is mentioned.
   */
  function TypeFromTitle(title: string): (k: PropertyType)
    ensures !k.Autre? ==> Mentions(title, k)
    ensures forall m: PropertyType :: m.Rank() < k.Rank() ==> !Mentions(title, m)
  {
    var t := Lower(title);
    if Contains(t, "appart") then Appartement
    else if Contains(t, "villa") then Villa
    else if Contains(t, "terrain") then Terrain
    else if Contains(t, "maison") then Maison
    else Autre
  }

  /** Whether the keyword of type `k` occurs in the lower-cased title. */
  predicate Mentions(title: string, k: PropertyType)
    requires !k.Autre?
  {
    Contains(Lower(title), k.Keyword())
  }

  /**
   * The type is decided by priority, not by position: it is the type of
   * highest priority whose keyword occurs anywhere in the title, and `Autre`
   * exactly when none occurs.
   */
  lemma TypeIsHighestPriorityMention(title: string, k: PropertyType)
    ensures TypeFromTitle(title) == k <==>
      if k.Autre? then forall m: PropertyType :: !m.Autre? ==> !Mentions(title, m)
      else Mentions(title, k) && forall m: PropertyType :: m.Rank() < k.Rank() ==> !Mentions(title, m)
  {
    if TypeFromTitle(title) != k && k.Autre? {
      var m := TypeFromTitle(title);
      assert Mentions(title, m);
    }
    if TypeFromTitle(title) != k && !k.Autre? && Mentions(title, k) {
      var m := TypeFromTitle(title);
      assert m.Rank() < k.Rank() && Mentions(title, m);
    }
  }

  /** Upper- or lower-case letters in the title do not change its type. */
  lemma TypeIgnoresCase(title: string)
    ensures TypeFromTitle(Lower(title)) == TypeFromTitle(title)
  {
    LowerIdempotent(title);
  }

  /** Text added before or after a title can only move its type up the priority order. */
  lemma TypeOfLongerTitle(a: string, b: string)
    ensures TypeFromTitle(a + b).Rank() <= TypeFromTitle(a).Rank()
    ensures TypeFromTitle(a + b).Rank() <= TypeFromTitle(b).Rank()
  {
    LowerAppend(a, b);
    var la, lb := Lower(a), Lower(b);
    forall k: PropertyType | !k.Autre? && (Mentions(a, k) || Mentions(b, k))
      ensures Mentions(a + b, k)
    {
      if Mentions(a, k) {
        ContainsExtendRight(la, lb, k.Keyword());
      } else {
        ContainsExtendLeft(la, lb, k.Keyword());
      }
    }
    TypeIsHighestPriorityMention(a, TypeFromTitle(a));
    TypeIsHighestPriorityMention(b, TypeFromTitle(b));
    TypeIsHighestPriorityMention(a + b, TypeFromTitle(a + b));
  }

  /** "Appartement S+2 à vendre" is an apartment. */
  lemma TypeOfApartmentTitle()
    ensures TypeFromTitle("Appartement S+2 à vendre") == Appartement
  {
    assert "appart" <= Lower("Appartement S+2 à vendre");
  }

  /** "Terrain agricole" is land. */
  lemma TypeOfLandTitle()
    ensures TypeFromTitle("Terrain agricole") == Terrain
  {
    var t := "Terrain agricole";
    assert Contains(Lower(t), "terrain") by {
      assert "terrain" <= Lower(t);
    }
    assert !Contains(Lower(t), "appart") by { LetterRulesOutPattern(t, "appart", 'p'); }
    assert !Contains(Lower(t), "villa") by { LetterRulesOutPattern(t, "villa", 'v'); }
  }

  /** "Bureau" (an office) mentions no keyword: `Autre`. */
  lemma TypeOfOfficeTitle()
    ensures TypeFromTitle("Bureau") == Autre
  {
    var t := "Bureau";
    assert !Contains(Lower(t), "appart") by { LetterRulesOutPattern(t, "appart", 'p'); }
    assert !Contains(Lower(t), "villa") by { LetterRulesOutPattern(t, "villa", 'v'); }
    assert !Contains(Lower(t), "terrain") by { LetterRulesOutPattern(t, "terrain", 't'); }
    assert !Contains(Lower(t), "maison") by { LetterRulesOutPattern(t, "maison", 's'); }
  }

  // ---------------------------------------------------------------------------
  // Nature (sale or rental)
  // ---------------------------------------------------------------------------

  /** The `nature` labels. */
  datatype Nature = Vente | Location {
    function Label(): string {
      match this
      case Vente => "Vente"
      case Location => "Location"
    }
  }

  /**
   * The text of the price cell that `str(prix).lower()` scans. Python's
   * rendering of a number ("950000", "1200.0", "inf", "True") contains neither
   * "/mois" nor "par mois", so only a textual price can carry a marker.
   */
  function PriceText(price: Cell): (t: string)
    ensures price.Str? ==> t == price.s
    ensures !price.Str? ==> !Contains(Lower(t), "/mois") && !Contains(Lower(t), "par mois")
  {
    if price.Str? then price.s else ""
  }

  /** A rental marker in the title ("louer", "locat") or in the price ("/mois", "par mois"). */
  predicate HasRentalMarker(title: string, price: Cell) {
    var t := Lower(title);
    var p := Lower(PriceText(price));
    Contains(t, "louer") || Contains(t, "locat") || Contains(p, "/mois") || Contains(p, "par mois")
  }

  /**
   * `determiner_nature`: `Location` exactly when a rental marker is present,
   * else `Vente`; `NatureOfMarkerPositions` states where the markers must sit.
   */
  function NatureOf(title: string, price: Cell): (n: Nature) {
    if HasRentalMarker(title, price) then Location else Vente
  }

  /**
   * The nature is `Location` exactly when one of the four markers sits at
   * some position of the lower-cased title or price text.
   */
  lemma NatureOfMarkerPositions(title: string, price: Cell)
    ensures NatureOf(title, price) == Location <==>
      || (exists i :: OccursAt(Lower(title), "louer", i))
      || (exists i :: OccursAt(Lower(title), "locat", i))
      || (exists i :: OccursAt(Lower(PriceText(price)), "/mois", i))
      || (exists i :: OccursAt(Lower(PriceText(price)), "par mois", i))
  {
    ContainsAt(Lower(title), "louer");
    ContainsAt(Lower(title), "locat");
    ContainsAt(Lower(PriceText(price)), "/mois");
    ContainsAt(Lower(PriceText(price)), "par mois");
  }

  /** A title that marks a rental keeps doing so whatever text surrounds it, whatever the price. */
  lemma RentalTitleSurvivesSurroundingText(a: string, title: string, b: string, price: Cell)
    requires HasRentalMarker(title, Str([]))
    ensures NatureOf(a + title + b, price) == Location
  {
    LowerAppend(a, title);
    LowerAppend(a + title, b);
    var la, lt, lb := Lower(a), Lower(title), Lower(b);
    assert Lower(a + title + b) == la + lt + lb;
    if Contains(lt, "louer") {
      ContainsExtendLeft(la, lt, "louer");
      ContainsExtendRight(la + lt, lb, "louer");
    } else if Contains(lt, "locat") {
      ContainsExtendLeft(la, lt, "locat");
      ContainsExtendRight(la + lt, lb, "locat");
    }
  }

  /** "À louer villa" priced "1200/mois" is a rental. */
  lemma NatureOfRentalAd()
    ensures NatureOf("À louer villa", Str("1200/mois")) == Location
  {
    var t := "À louer villa";
    ContainsAt(Lower(t), "louer");
    assert OccursAt(Lower(t), "louer", 2);
  }

  /** "Villa S+4" priced "450000" is a sale. */
  lemma NatureOfSaleAd()
    ensures NatureOf("Villa S+4", Str("450000")) == Vente
  {
    var t, p := "Villa S+4", "450000";
    assert !Contains(Lower(t), "louer") by { LetterRulesOutPattern(t, "louer", 'u'); }
    assert !Contains(Lower(t), "locat") by { LetterRulesOutPattern(t, "locat", 'o'); }
    assert !Contains(Lower(p), "/mois") by {
      OtherAbsentAfterLower(p, '/');
      MissingCharMeansNoMatch(Lower(p), "/mois", '/');
    }
    assert !Contains(Lower(p), "par mois") by { LetterRulesOutPattern(p, "par mois", 'p'); }
  }

  /** Upper- or lower-case letters do not change the nature. */
  lemma NatureIgnoresCase(title: string, price: string)
    ensures NatureOf(Lower(title), Str(Lower(price))) == NatureOf(title, Str(price))
  {
    LowerIdempotent(title);
    LowerIdempotent(price);
  }

  // ---------------------------------------------------------------------------
  // Price per square metre and price bucket
  // ---------------------------------------------------------------------------

  /**
   * `r` is a price per square metre of `price` over `area`: present exactly
   * when the surface is known and positive, and then multiplied back by the
   * surface it gives the price.
   */
  predicate IsPricePerArea(price: int, area: Option<int>, r: Option<real>) {
    && (r.Some? <==> area.Some? && area.value > 0)
    && (r.Some? ==> r.value * (area.value as real) == price as real)
  }

  /**
   * `prix_m2`: the price divided by the surface when the surface is known and
   * positive, else absent; multiplied back by the surface it gives the price.
   */
  function PricePerArea(price: int, area: Option<int>): (r: Option<real>)
    ensures IsPricePerArea(price, area, r)
  {
    if area.Some? && area.value > 0 then Some(price as real / area.value as real) else None
  }

  /** The `categorie_prix` buckets, in increasing order of price. */
  datatype PriceBucket = Under100K | From100KTo250K | From250KTo500K | From500KTo1M | Over1M {

    function Label(): string {
      match this
      case Under100K => "< 100K"
      case From100KTo250K => "100K-250K"
      case From250KTo500K => "250K-500K"
      case From500KTo1M => "500K-1M"
      case Over1M => "> 1M"
    }

    function Index(): nat {
      match this
      case Under100K => 0
      case From100KTo250K => 1
      case From250KTo500K => 2
      case From500KTo1M => 3
      case Over1M => 4
    }
  }

  /** The finite bin edges; the last bin reaches to infinity. */
  const BinEdges: seq<int> := [0, 100000, 250000, 500000, 1000000]

  /**
   * `pd.cut` with those edges and its default right-closed bins
   * (0, 100000], (100000, 250000], ...: a price gets a bucket exactly when it
   * is positive.
   */
  function BucketOf(price: int): (r: Option<PriceBucket>)
    ensures r.Some? <==> price > 0
  {
    if price <= 0 then None
    else if price <= 100000 then Some(Under100K)
    else if price <= 250000 then Some(From100KTo250K)
    else if price <= 500000 then Some(From250KTo500K)
    else if price <= 1000000 then Some(From500KTo1M)
    else Some(Over1M)
  }

  /**
   * Bucket `b` holds exactly the prices above its left edge and up to and
   * including its right edge (the last bucket has no right edge).
   */
  lemma BucketIsRightClosedBin(price: int, b: PriceBucket)
    ensures BucketOf(price) == Some(b) <==>
      BinEdges[b.Index()] < price && (b.Index() == 4 || price <= BinEdges[b.Index() + 1])
  {
  }

  /** A higher price never falls in a lower bucket. */
  lemma BucketMonotone(p: int, q: int)
    requires 0 < p <= q
    ensures BucketOf(p).value.Index() <= BucketOf(q).value.Index()
  {
  }
}
