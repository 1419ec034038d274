/**
 * The analysed point of the time-series view and the pure rules the point
 * store applies to a list of them: colour choice from the fixed palette,
 * sequential names and the first-match lookup used by deletion.
 */
module Points {
  import opened Opt
  import Decimal

  type Color = string

  /** Opaque handle of the map feature (or circle marker) a point owns. */
  type Marker = nat

  /** The backend's answer to one analysis request. */
  datatype AnalysisData = AnalysisData(
    probability: real,
    ndviValues: seq<real>,
    hasEvent: bool,
    dipIdx: Option<int>,
    trIdx: Option<int>)

  /** One analysed point; `id` is the environment's timestamp, not assumed unique. */
  datatype Point = Point(
    id: nat,
    name: string,
    lat: real,
    lng: real,
    color: Color,
    marker: Marker,
    data: AnalysisData)

  /** The 20 colours every variant of the store assigns from. */
  const Palette: seq<Color> := [
    "#1f77b4", "#ff7f0e", "#2ca02c", "#d62728", "#9467bd",
    "#8c564b", "#e377c2", "#7f7f7f", "#bcbd22", "#17becf",
    "#ff9896", "#c5b0d5", "#c49c94", "#f7b6d2", "#dbdb8d",
    "#9edae5", "#393b79", "#e6550d", "#31a354", "#756bb1"
  ]

  lemma PaletteDistinct()
    ensures |Palette| == 20
    ensures forall i, j | 0 <= i < j < |Palette| :: Palette[i] != Palette[j]
  {
  }

  /** The colours of the live points, in list order (`points.map(p => p.color)`). */
  function UsedColors(points: seq<Point>): (used: seq<Color>)
    ensures |used| == |points|
    ensures forall i | 0 <= i < |points| :: used[i] == points[i].color
  {
    seq(|points|, i requires 0 <= i < |points| => points[i].color)
  }

  /** `Array.prototype.find` over the palette from index `k`: the index of the first colour not in `used`. */
  function FirstFree(used: seq<Color>, k: nat): (r: Option<nat>)
    requires k <= |Palette|
    ensures r.Some? ==> k <= r.value < |Palette| && Palette[r.value] !in used
    ensures r.Some? ==> forall j | k <= j < r.value :: Palette[j] in used
    ensures r.None? ==> forall j | k <= j < |Palette| :: Palette[j] in used
    decreases |Palette| - k
  {
    if k == |Palette| then None
    else if Palette[k] !in used then Some(k)
    else FirstFree(used, k + 1)
  }

  /**
   * The colour given to a new point: the lowest-indexed palette entry no live
   * point holds, or `Palette[0]` once every entry is held.
   */
  function NextAvailableColor(points: seq<Point>): (c: Color)
    ensures c in Palette
    ensures (forall i | 0 <= i < |Palette| :: Palette[i] in UsedColors(points)) ==> c == Palette[0]
    ensures (exists i | 0 <= i < |Palette| :: Palette[i] !in UsedColors(points)) ==>
      c !in UsedColors(points) &&
      exists k | 0 <= k < |Palette| :: c == Palette[k] && forall j | 0 <= j < k :: Palette[j] in UsedColors(points)
  {
    match FirstFree(UsedColors(points), 0)
    case Some(k) => Palette[k]
    case None => Palette[0]
  }

  /** No two live points share a colour. */
  ghost predicate ColorsDistinct(points: seq<Point>)
  {
    forall i, j | 0 <= i < j < |points| :: points[i].color != points[j].color
  }

  lemma {:induction false} CardAtMostLength<T>(s: seq<T>)
    ensures |set x | x in s| <= |s|
  {
    if s != [] {
      CardAtMostLength(s[1..]);
      assert (set x | x in s) == {s[0]} + (set x | x in s[1..]);
    }
  }

  lemma {:induction false} CardOfDistinct<T>(s: seq<T>)
    requires forall i, j | 0 <= i < j < |s| :: s[i] != s[j]
    ensures |set x | x in s| == |s|
  {
    if s != [] {
      CardOfDistinct(s[1..]);
      assert (set x | x in s) == {s[0]} + (set x | x in s[1..]);
      assert s[0] !in (set x | x in s[1..]);
    }
  }

  lemma {:induction false} SubsetCardLe<T>(a: set<T>, b: set<T>)
    requires a <= b
    ensures |a| <= |b|
    decreases a
  {
    if a != {} {
      var x :| x in a;
      SubsetCardLe(a - {x}, b - {x});
    }
  }

  lemma SubsetCard<T>(a: set<T>, b: set<T>)
    requires a <= b
    ensures |a| <= |b|
    ensures |a| == |b| ==> a == b
  {
    SubsetCardLe(a, b);
    if |a| == |b| && a != b {
      var y :| y in b && y !in a;
      SubsetCardLe(a, b - {y});
      assert false;
    }
  }

  /** With fewer than 20 live points some palette colour is free (pigeonhole). */
  lemma FreeColorExists(points: seq<Point>)
    requires |points| < |Palette|
    ensures exists i | 0 <= i < |Palette| :: Palette[i] !in UsedColors(points)
  {
    var used := UsedColors(points);
    if forall i | 0 <= i < |Palette| :: Palette[i] in used {
      PaletteDistinct();
      CardOfDistinct(Palette);
      CardAtMostLength(used);
      SubsetCard(set x | x in Palette, set x | x in used);
      assert false;
    }
  }

  /** A distinct list that fits inside another distinct list of the same length covers it. */
  lemma CoveredWhenFull<T>(pal: seq<T>, used: seq<T>)
    requires |used| == |pal|
    requires forall i, j | 0 <= i < j < |pal| :: pal[i] != pal[j]
    requires forall i, j | 0 <= i < j < |used| :: used[i] != used[j]
    requires forall i | 0 <= i < |used| :: used[i] in pal
    ensures forall i | 0 <= i < |pal| :: pal[i] in used
  {
    CardOfDistinct(pal);
    CardOfDistinct(used);
    var u := set x | x in used;
    var p := set x | x in pal;
    SubsetCard(u, p);
    forall i | 0 <= i < |pal| ensures pal[i] in used {
      assert pal[i] in p;
      assert pal[i] in u;
    }
  }

  /** Twenty live points with distinct palette colours hold every palette colour. */
  lemma PaletteExhausted(points: seq<Point>)
    requires |points| == |Palette|
    requires ColorsDistinct(points)
    requires forall i | 0 <= i < |points| :: points[i].color in Palette
    ensures forall i | 0 <= i < |Palette| :: Palette[i] in UsedColors(points)
  {
    PaletteDistinct();
    var used := UsedColors(points);
    assert forall i | 0 <= i < |used| :: used[i] == points[i].color;
    CoveredWhenFull(Palette, used);
  }

  /** With fewer than 20 live points, the chosen colour is held by no live point. */
  lemma NextColorIsFree(points: seq<Point>)
    requires |points| < |Palette|
    ensures NextAvailableColor(points) !in UsedColors(points)
  {
    FreeColorExists(points);
  }

  /** Appending a point whose colour no live point holds keeps live colours distinct. */
  lemma AddKeepsColorsDistinct(points: seq<Point>, p: Point)
    requires ColorsDistinct(points)
    requires p.color !in UsedColors(points)
    ensures ColorsDistinct(points + [p])
  {
    var ps := points + [p];
    forall i, j | 0 <= i < j < |ps| ensures ps[i].color != ps[j].color {
      if j == |points| {
        assert ps[i].color == UsedColors(points)[i];
      }
    }
  }

  /** The element list with index `k` taken out (`splice(k, 1)`). */
  function RemoveAt<T>(s: seq<T>, k: nat): (r: seq<T>)
    requires k < |s|
    ensures |r| == |s| - 1
    ensures forall i | 0 <= i < k :: r[i] == s[i]
    ensures forall i | k <= i < |r| :: r[i] == s[i + 1]
  {
    s[..k] + s[k + 1..]
  }

  /** Taking a point out never makes two remaining colours equal. */
  lemma RemoveKeepsColorsDistinct(points: seq<Point>, k: nat)
    requires ColorsDistinct(points)
    requires k < |points|
    ensures ColorsDistinct(RemoveAt(points, k))
  {
    var r := RemoveAt(points, k);
    forall i, j | 0 <= i < j < |r| ensures r[i].color != r[j].color {
      var i' := if i < k then i else i + 1;
      var j' := if j < k then j else j + 1;
      assert r[i] == points[i'] && r[j] == points[j'];
    }
  }

  /**
   * A point appended with a colour some live point already holds: deleting a
   * point other than both holders leaves a list of the old length with a
   * repeated colour.
   */
  lemma ReusedColorSurvivesRemoval(points: seq<Point>, p: Point)
    requires |points| >= 2
    requires p.color in UsedColors(points)
    ensures exists k | 0 <= k < |points| ::
      |RemoveAt(points + [p], k)| == |points| && !ColorsDistinct(RemoveAt(points + [p], k))
  {
    var used := UsedColors(points);
    var j :| 0 <= j < |points| && used[j] == p.color;
    var k := if j == 0 then 1 else 0;
    var r := RemoveAt(points + [p], k);
    var j' := if j < k then j else j - 1;
    assert r[j'] == points[j] && r[|r| - 1] == p;
    assert j' < |r| - 1;
  }

  /**
   * Live colours are NOT kept distinct whenever at most 20 points are live:
   * with 20 distinct live colours the 21st point gets `Palette[0]`, which a
   * live point already holds, and deleting some other point leaves 20 live
   * points with a repeated colour.
   */
  lemma ColorReuseAfterOverflow(points: seq<Point>, p: Point)
    requires |points| == |Palette|
    requires ColorsDistinct(points)
    requires forall i | 0 <= i < |points| :: points[i].color in Palette
    requires p.color == NextAvailableColor(points)
    ensures p.color == Palette[0]
    ensures exists k | 0 <= k < |points| ::
      |RemoveAt(points + [p], k)| == |Palette| && !ColorsDistinct(RemoveAt(points + [p], k))
  {
    PaletteExhausted(points);
    ReusedColorSurvivesRemoval(points, p);
  }

  /** `Array.prototype.findIndex` on ids: the first index with that id, or -1. */
  function FindIndex(points: seq<Point>, id: nat): (r: int)
    ensures -1 <= r < |points|
    ensures r == -1 <==> forall i | 0 <= i < |points| :: points[i].id != id
    ensures r >= 0 ==> points[r].id == id && forall i | 0 <= i < r :: points[i].id != id
    decreases |points|
  {
    if points == [] then -1
    else if points[0].id == id then 0
    else
      var r := FindIndex(points[1..], id);
      if r == -1 then -1 else r + 1
  }

  /** The name issued for counter value `k`: `"A" + k`. */
  function PointName(k: nat): (name: string)
    ensures |name| >= 2 && name[0] == 'A'
  {
    "A" + Decimal.NatToString(k)
  }

  /** Different counter values give different names. */
  lemma PointNameInjective(a: nat, b: nat)
    ensures PointName(a) == PointName(b) ==> a == b
  {
    if PointName(a) == PointName(b) {
      assert PointName(a)[1..] == Decimal.NatToString(a);
      assert PointName(b)[1..] == Decimal.NatToString(b);
      Decimal.NatToStringInjective(a, b);
    }
  }

  /**
   * Points whose names were issued from strictly increasing counter values
   * have pairwise distinct names.
   */
  lemma NamesDistinct(points: seq<Point>, issued: seq<nat>)
    requires |issued| == |points|
    requires forall i | 0 <= i < |points| :: points[i].name == PointName(issued[i])
    requires forall i, j | 0 <= i < j < |issued| :: issued[i] < issued[j]
    ensures forall i, j | 0 <= i < j < |points| :: points[i].name != points[j].name
  {
    forall i, j | 0 <= i < j < |points| ensures points[i].name != points[j].name {
      PointNameInjective(issued[i], issued[j]);
    }
  }
}
