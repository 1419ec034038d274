/**
 * The point store of the time-series view: the ordered list of analysed
 * points, the name counter and the point-count field. One class serves the
 * three copies of this logic; each reset policy is its own method.
 */
module Store {
  import opened Opt
  import opened Points

  /**
   * `issued[i]` is the counter value point `i`'s name was made from: every
   * value is below `counter` and they increase along the list; every
   * colour is a palette entry.
   */
  ghost predicate IssuedFrom(points: seq<Point>, issued: seq<nat>, counter: nat)
  {
    && |issued| == |points|
    && (forall i | 0 <= i < |points| :: points[i].name == PointName(issued[i]))
    && (forall i | 0 <= i < |issued| :: 1 <= issued[i] < counter)
    && (forall i, j | 0 <= i < j < |issued| :: issued[i] < issued[j])
    && (forall i | 0 <= i < |points| :: points[i].color in Palette)
  }

  /** Appending a point named from the counter, in a palette colour, keeps the bookkeeping. */
  lemma IssuedAppend(points: seq<Point>, issued: seq<nat>, counter: nat, p: Point)
    requires IssuedFrom(points, issued, counter) && counter >= 1
    requires p.name == PointName(counter) && p.color in Palette
    ensures IssuedFrom(points + [p], issued + [counter], counter + 1)
  {
  }

  /** Removing point `k` together with its counter value keeps the bookkeeping. */
  lemma IssuedRemove(points: seq<Point>, issued: seq<nat>, counter: nat, k: nat)
    requires IssuedFrom(points, issued, counter) && k < |points|
    ensures IssuedFrom(RemoveAt(points, k), RemoveAt(issued, k), counter)
  {
    var rest := RemoveAt(issued, k);
    forall i, j | 0 <= i < j < |rest| ensures rest[i] < rest[j] {
      var i' := if i < k then i else i + 1;
      var j' := if j < k then j else j + 1;
      assert rest[i] == issued[i'] && rest[j] == issued[j'];
    }
  }

  class PointStore {
    /** `window.points` (or the module-level `points`). */
    var points: seq<Point>
    /** `nextPointIndex`, the counter names are issued from. */
    var nextPointIndex: nat
    /** The `pointCount` data field of the app.js component. */
    var pointCount: nat
    /** Counter value each live point's name was issued from, parallel to `points`. */
    ghost var issued: seq<nat>

    ghost predicate Valid()
      reads this
    {
      nextPointIndex >= 1 && IssuedFrom(points, issued, nextPointIndex)
    }

    /** Live names are pairwise distinct. */
    lemma NamesAreDistinct()
      requires Valid()
      ensures forall i, j | 0 <= i < j < |points| :: points[i].name != points[j].name
    {
      NamesDistinct(points, issued);
    }

    /** Initial state: no points and the counter at 1. */
    constructor ()
      ensures Valid()
      ensures points == [] && nextPointIndex == 1 && pointCount == 0
    {
      points := [];
      nextPointIndex := 1;
      pointCount := 0;
      issued := [];
    }

    /**
     * `initMapHandlers`: removes the points layer, so every marker goes with
     * it, empties the list and sets the counter back to 1. The app.js copy
     * does nothing when no map exists yet (`mapReady` false).
     */
    method InitMapHandlers(mapReady: bool) returns (removed: seq<Marker>)
      requires Valid()
      modifies this
      ensures Valid()
      ensures mapReady ==>
        points == [] && nextPointIndex == 1 && pointCount == 0 &&
        |removed| == |old(points)| && forall i | 0 <= i < |removed| :: removed[i] == old(points)[i].marker
      ensures !mapReady ==>
        removed == [] && points == old(points) && nextPointIndex == old(nextPointIndex) && pointCount == old(pointCount)
    {
      removed := [];
      if mapReady {
        removed := seq(|points|, i requires 0 <= i < |points| reads this => points[i].marker);
        points := [];
        pointCount := 0;
        nextPointIndex := 1;
        issued := [];
      }
    }

    /** `getNextPointName`: `"A" + nextPointIndex++`. */
    method NextPointName() returns (name: string)
      requires Valid()
      modifies this
      ensures Valid()
      ensures name == PointName(old(nextPointIndex))
      ensures nextPointIndex == old(nextPointIndex) + 1
      ensures points == old(points) && pointCount == old(pointCount) && issued == old(issued)
    {
      name := PointName(nextPointIndex);
      nextPointIndex := nextPointIndex + 1;
    }

    /**
     * The append path of the map-click handler. `response` is the parsed body
     * of a successful analysis request, or `None` when the request failed or
     * answered with a non-ok status; then nothing changes.
     */
    method AddAnalysedPoint(id: nat, lat: real, lng: real, marker: Marker, response: Option<AnalysisData>)
      returns (added: Option<Point>)
      requires Valid()
      modifies this
      ensures Valid()
      ensures added.Some? <==> response.Some?
      ensures response.None? ==>
        points == old(points) && nextPointIndex == old(nextPointIndex) && pointCount == old(pointCount)
      ensures response.Some? ==>
        && points == old(points) + [added.value]
        && added.value == Point(id, PointName(old(nextPointIndex)), lat, lng,
                                NextAvailableColor(old(points)), marker, response.value)
        && nextPointIndex == old(nextPointIndex) + 1
        && pointCount == |points|
      ensures ColorsDistinct(old(points)) && |old(points)| < |Palette| ==> ColorsDistinct(points)
    {
      if response.None? {
        return None;
      }
      var color := NextAvailableColor(points);
      var k := nextPointIndex;
      var p := Point(id, PointName(k), lat, lng, color, marker, response.value);
      if ColorsDistinct(points) && |points| < |Palette| {
        NextColorIsFree(points);
        AddKeepsColorsDistinct(points, p);
      }
      IssuedAppend(points, issued, k, p);
      nextPointIndex := k + 1;
      points := points + [p];
      issued := issued + [k];
      pointCount := |points|;
      added := Some(p);
    }

    /**
     * `deletePoint(id)`: removes the first point with that id and returns its
     * marker for removal from the map; an unknown id changes nothing.
     */
    method DeletePoint(id: nat) returns (removed: Option<Marker>)
      requires Valid()
      modifies this
      ensures Valid()
      ensures nextPointIndex == old(nextPointIndex)
      ensures FindIndex(old(points), id) == -1 ==>
        removed.None? && points == old(points) && pointCount == old(pointCount)
      ensures FindIndex(old(points), id) >= 0 ==>
        && removed == Some(old(points)[FindIndex(old(points), id)].marker)
        && points == RemoveAt(old(points), FindIndex(old(points), id))
        && pointCount == |points|
      ensures ColorsDistinct(old(points)) ==> ColorsDistinct(points)
    {
      var k := FindIndex(points, id);
      if k == -1 {
        return None;
      }
      removed := Some(points[k].marker);
      if ColorsDistinct(points) {
        RemoveKeepsColorsDistinct(points, k);
      }
      IssuedRemove(points, issued, nextPointIndex, k);
      points := RemoveAt(points, k);
      issued := RemoveAt(issued, k);
      pointCount := |points|;
    }

    /**
     * `clearAllPoints` (app.js): on a non-empty list, removes every point and
     * returns their markers; the counter is kept. An empty list is left alone.
     */
    method ClearAllPoints() returns (cleared: seq<Marker>)
      requires Valid()
      modifies this
      ensures Valid()
      ensures nextPointIndex == old(nextPointIndex)
      ensures old(points) != [] ==>
        points == [] && pointCount == 0 &&
        |cleared| == |old(points)| && forall i | 0 <= i < |cleared| :: cleared[i] == old(points)[i].marker
      ensures old(points) == [] ==> cleared == [] && points == old(points) && pointCount == old(pointCount)
    {
      cleared := [];
      if |points| > 0 {
        cleared := seq(|points|, i requires 0 <= i < |points| reads this => points[i].marker);
        points := [];
        issued := [];
        pointCount := 0;
      }
    }

    /**
     * `beforeUnmount` (app.js): clears the points layer, so every marker is
     * removed, empties the list and sets the counter back to 1; the
     * `pointCount` field is left as it was.
     */
    method BeforeUnmount() returns (removed: seq<Marker>)
      requires Valid()
      modifies this
      ensures Valid()
      ensures points == [] && nextPointIndex == 1 && pointCount == old(pointCount)
      ensures |removed| == |old(points)| && forall i | 0 <= i < |removed| :: removed[i] == old(points)[i].marker
    {
      removed := seq(|points|, i requires 0 <= i < |points| reads this => points[i].marker);
      points := [];
      issued := [];
      nextPointIndex := 1;
    }
  }

  /**
   * The name counter survives `ClearAllPoints`: the first point added after a
   * clear is named after the counter value reached before it.
   */
  method ClearThenAdd(s: PointStore, id: nat, lat: real, lng: real, m: Marker, d: AnalysisData)
    returns (added: Option<Point>)
    requires s.Valid()
    modifies s
    ensures s.Valid()
    ensures added.Some? && added.value.name == PointName(old(s.nextPointIndex))
    ensures s.points == [added.value] && added.value.color == Palette[0]
  {
    var _ := s.ClearAllPoints();
    added := s.AddAnalysedPoint(id, lat, lng, m, Some(d));
    assert UsedColors([]) == [];
  }
}
