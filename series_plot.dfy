/**
 * `updatePlot`: the chart derived from the point list, one trace per point
 * and a pair of dashed vertical lines per point whose event is complete.
 * The charting call itself is not modelled; this is the figure handed to it.
 */
module SeriesPlot {
  import opened Opt
  import opened Points

  /** The year of sample index 0. */
  const BaseYear: int := 1986

  /** One plotted series. */
  datatype Trace = Trace(x: seq<int>, y: seq<real>, name: string, color: Color)

  /** A line shape of the layout (`type: 'line'`). */
  datatype Shape = Line(x0: int, x1: int, y0: int, y1: int, color: Color, width: int, dash: string)

  datatype Layout = Layout(shapes: seq<Shape>, tickInterval: int)

  datatype Figure = Figure(traces: seq<Trace>, layout: Layout)

  /** `getYears(n)`: the years `1986 .. 1986 + n - 1`. */
  function Years(n: nat): (ys: seq<int>)
    ensures |ys| == n
    ensures n > 0 ==> ys[0] == BaseYear
    ensures forall j | 0 < j < n :: ys[j] == ys[j - 1] + 1
  {
    seq(n, j => BaseYear + j)
  }

  /** One point's series: its samples against the years from 1986, in its name and colour. */
  function TraceOf(p: Point): (t: Trace)
    ensures t.name == p.name && t.color == p.color && t.y == p.data.ndviValues
    ensures |t.x| == |t.y| && forall j | 0 <= j < |t.x| :: t.x[j] == BaseYear + j
  {
    Trace(Years(|p.data.ndviValues|), p.data.ndviValues, p.name, p.color)
  }

  /** `points.map(...)`: the traces in list order. */
  function Traces(points: seq<Point>): (ts: seq<Trace>)
    ensures |ts| == |points|
    ensures forall i | 0 <= i < |points| :: ts[i].name == points[i].name && ts[i].y == points[i].data.ndviValues
  {
    seq(|points|, i requires 0 <= i < |points| => TraceOf(points[i]))
  }

  /** The event test: `has_event` set and both indices non-null. */
  predicate HasCompleteEvent(p: Point)
    ensures HasCompleteEvent(p) ==> p.data.hasEvent
    ensures p.data.dipIdx.None? || p.data.trIdx.None? ==> !HasCompleteEvent(p)
  {
    p.data.hasEvent && p.data.dipIdx.Some? && p.data.trIdx.Some?
  }

  /** A dashed vertical marker at `year`, spanning y -2..2, in the point's colour. */
  function EventLine(year: int, color: Color): (l: Shape)
    ensures l.x0 == year && l.x1 == year
    ensures l.y0 == -2 && l.y1 == 2
    ensures l.color == color && l.width == 2 && l.dash == "dash"
  {
    Line(year, year, -2, 2, color, 2, "dash")
  }

  /** The shapes one point contributes to the reduction. */
  function EventShapes(p: Point): (r: seq<Shape>)
    ensures |r| == (if HasCompleteEvent(p) then 2 else 0)
    ensures forall k | 0 <= k < |r| :: r[k].color == p.color && r[k].x0 == r[k].x1 && r[k].dash == "dash"
    ensures |r| == 2 ==> r[0].x0 == BaseYear + p.data.dipIdx.value && r[1].x0 == BaseYear + p.data.trIdx.value
  {
    if HasCompleteEvent(p) then
      [EventLine(BaseYear + p.data.dipIdx.value, p.color), EventLine(BaseYear + p.data.trIdx.value, p.color)]
    else []
  }

  /** How many points have a complete event. */
  function CountEvents(points: seq<Point>): (n: nat)
    ensures n <= |points|
    decreases |points|
  {
    if points == [] then 0
    else CountEvents(points[..|points| - 1]) + (if HasCompleteEvent(points[|points| - 1]) then 1 else 0)
  }

  /**
   * `points.reduce(...)`: a left fold that pushes each point's event shapes
   * onto the accumulator. There are exactly two shapes per point with a
   * complete event, and every one is a dashed vertical line from y -2 to 2.
   */
  function Shapes(points: seq<Point>): (r: seq<Shape>)
    ensures |r| == 2 * CountEvents(points)
    ensures forall i | 0 <= i < |r| :: r[i].x0 == r[i].x1 && r[i].y0 == -2 && r[i].y1 == 2 && r[i].dash == "dash"
    decreases |points|
  {
    if points == [] then []
    else Shapes(points[..|points| - 1]) + EventShapes(points[|points| - 1])
  }

  /** The figure `updatePlot` builds: traces, shapes and a fixed 5-year tick interval. */
  function UpdatePlot(points: seq<Point>): (f: Figure)
    ensures |f.traces| == |points|
    ensures |f.layout.shapes| == 2 * CountEvents(points)
    ensures f.layout.tickInterval == 5
  {
    Figure(Traces(points), Layout(Shapes(points), 5))
  }

  /** Trace `i` carries point `i`'s name, colour and samples, at years 1986 + j. */
  lemma TraceMatchesPoint(points: seq<Point>, i: nat, j: nat)
    requires i < |points|
    requires j < |points[i].data.ndviValues|
    ensures var t := UpdatePlot(points).traces[i];
      && t.name == points[i].name && t.color == points[i].color
      && t.y == points[i].data.ndviValues
      && |t.x| == |t.y| && t.x[j] == 1986 + j
  {
  }

  /** The shape list of a concatenation is the concatenation of the shape lists. */
  lemma {:induction false} ShapesAppend(a: seq<Point>, b: seq<Point>)
    ensures Shapes(a + b) == Shapes(a) + Shapes(b)
    decreases |b|
  {
    if b == [] {
      assert a + b == a;
    } else {
      var b' := b[..|b| - 1];
      assert (a + b)[..|a + b| - 1] == a + b';
      ShapesAppend(a, b');
    }
  }

  /** Each shape comes from a point with a complete event, at its dip or trough year. */
  lemma {:induction false} ShapeHasOrigin(points: seq<Point>, k: nat)
    requires k < |Shapes(points)|
    ensures exists i | 0 <= i < |points| ::
      HasCompleteEvent(points[i]) && Shapes(points)[k].color == points[i].color &&
      (Shapes(points)[k].x0 == BaseYear + points[i].data.dipIdx.value ||
       Shapes(points)[k].x0 == BaseYear + points[i].data.trIdx.value)
    decreases |points|
  {
    var n := |points|;
    var init := points[..n - 1];
    if k < |Shapes(init)| {
      ShapeHasOrigin(init, k);
      var i :| 0 <= i < |init| && HasCompleteEvent(init[i]) && Shapes(init)[k].color == init[i].color &&
        (Shapes(init)[k].x0 == BaseYear + init[i].data.dipIdx.value ||
         Shapes(init)[k].x0 == BaseYear + init[i].data.trIdx.value);
      assert points[i] == init[i];
    } else {
      assert Shapes(points)[k] == EventShapes(points[n - 1])[k - |Shapes(init)|];
    }
  }

  lemma ShapesSingleton(p: Point)
    ensures Shapes([p]) == EventShapes(p)
  {
    assert [p][..0] == [];
  }

  /** The shapes around one point: those before it, its own, then those after it. */
  lemma ShapesAround(pre: seq<Point>, p: Point, post: seq<Point>)
    ensures Shapes(pre + [p] + post) == Shapes(pre) + EventShapes(p) + Shapes(post)
  {
    ShapesAppend(pre + [p], post);
    ShapesAppend(pre, [p]);
    ShapesSingleton(p);
  }

  /** The two lines of a point with a complete event sit right after the shapes of the points before it. */
  lemma ContributesAt(pre: seq<Point>, p: Point, post: seq<Point>)
    requires HasCompleteEvent(p)
    ensures var all := Shapes(pre + [p] + post); var k := |Shapes(pre)|;
      && k + 1 < |all|
      && all[k] == EventLine(BaseYear + p.data.dipIdx.value, p.color)
      && all[k + 1] == EventLine(BaseYear + p.data.trIdx.value, p.color)
  {
    ShapesAround(pre, p, post);
    var es := EventShapes(p);
    assert es == [EventLine(BaseYear + p.data.dipIdx.value, p.color), EventLine(BaseYear + p.data.trIdx.value, p.color)];
    var sp := Shapes(pre);
    var all := sp + es + Shapes(post);
    assert all[|sp|] == es[0] && all[|sp| + 1] == es[1];
  }

  /** A point with a complete event contributes both of its lines, in dip-then-trough order. */
  lemma EventPointContributes(points: seq<Point>, i: nat)
    requires i < |points| && HasCompleteEvent(points[i])
    ensures exists k | 0 <= k < |Shapes(points)| - 1 ::
      Shapes(points)[k] == EventLine(BaseYear + points[i].data.dipIdx.value, points[i].color) &&
      Shapes(points)[k + 1] == EventLine(BaseYear + points[i].data.trIdx.value, points[i].color)
  {
    var pre, post := points[..i], points[i + 1..];
    assert points == pre + [points[i]] + post;
    ContributesAt(pre, points[i], post);
    var k := |Shapes(pre)|;
    assert Shapes(points)[k] == EventLine(BaseYear + points[i].data.dipIdx.value, points[i].color);
  }

  /** Adding a point appends its trace; the other traces are unchanged. */
  lemma TracesFollowAppend(points: seq<Point>, p: Point)
    ensures Traces(points + [p]) == Traces(points) + [TraceOf(p)]
  {
  }

  /** Deleting point `k` deletes trace `k`; the other traces keep their order. */
  lemma TracesFollowRemove(points: seq<Point>, k: nat)
    requires k < |points|
    ensures Traces(RemoveAt(points, k)) == RemoveAt(Traces(points), k)
  {
  }

  /** The example of an event at indices 3 and 7: lines at 1989 and 1993. */
  lemma EventExample(p: Point)
    requires p.data.hasEvent && p.data.dipIdx == Some(3) && p.data.trIdx == Some(7)
    ensures Shapes([p]) == [EventLine(1989, p.color), EventLine(1993, p.color)]
  {
    ShapesSingleton(p);
  }
}
