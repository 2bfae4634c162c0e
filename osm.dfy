/** The OpenStreetMap job: every GPS fix becomes a point with a quality that
    cycles through 0, 1, 2 every 128 messages; the detail view groups runs
    of equal quality into coloured line features of a GeoJSON collection. */
module Osm {
  import opened Wrappers

  const IndexError := "IndexError"

  /** Messages per quality block (the shift by 7 bits). */
  const Block := 128

  datatype Coord = Coord(lon: real, lat: real)

  datatype Point = Point(quality: int, coord: Coord)

  /** The quality of the i-th message: `(i >> 7) % 3`. */
  function Quality(i: nat): (q: nat)
    ensures q < 3
  {
    (i / Block) % 3
  }

  /** The quality is constant within a block of 128 messages and moves on
      to the next of 0, 1, 2 at each block boundary. */
  lemma QualityCycle(i: nat)
    ensures Quality(i) == Quality(i - i % Block)
    ensures Quality(i + Block) == (Quality(i) + 1) % 3
  {
    assert (i + Block) / Block == i / Block + 1;
    assert (i - i % Block) / Block == i / Block;
  }

  /** The points of the job, one per message in order. */
  function PointsOf(fixes: seq<Coord>): (r: seq<Point>)
    ensures |r| == |fixes|
    ensures forall i :: 0 <= i < |r| ==> r[i].coord == fixes[i] && 0 <= r[i].quality < 3
  {
    seq(|fixes|, i requires 0 <= i < |fixes| => Point(Quality(i), fixes[i]))
  }

  /** `job`: the points, or no record for a bag without GPS fixes. */
  method Job(fixes: seq<Coord>) returns (r: Option<seq<Point>>)
    ensures r.None? <==> |fixes| == 0
    ensures r.Some? ==> r.value == PointsOf(fixes)
  {
    var points := [];
    for i := 0 to |fixes|
      invariant points == PointsOf(fixes[..i])
    {
      points := points + [Point(Quality(i), fixes[i])];
    }
    assert fixes[..|fixes|] == fixes;
    if |points| > 0 {
      return Some(points);
    }
    return None;
  }

  /** The colour of a quality, with Python's negative indexing and its
      IndexError outside the three colours. */
  function Colour(quality: int): (r: Result<string, string>)
    ensures r.Ok? <==> -3 <= quality < 3
  {
    var colours := ["#f00", "#0f0", "#00f"];
    if 0 <= quality < 3 then Ok(colours[quality])
    else if -3 <= quality < 0 then Ok(colours[quality + 3])
    else Err(IndexError)
  }

  /** One LineString feature. */
  datatype Feature = Feature(color: string, coordinates: seq<Coord>)

  /** The previous point's quality, none before the first point. */
  function PrevQuality(points: seq<Point>): Option<int>
  {
    if |points| == 0 then None else Some(points[|points| - 1].quality)
  }

  /** The features with a coordinate added to the last one. */
  function AppendLast(fs: seq<Feature>, c: Coord): (r: seq<Feature>)
    requires |fs| > 0
    ensures |r| == |fs|
  {
    fs[..|fs| - 1] + [fs[|fs| - 1].(coordinates := fs[|fs| - 1].coordinates + [c])]
  }

  /** One point more: a point whose quality differs from the previous
      one's starts a new feature in the colour of its quality. */
  function Extend(fs: seq<Feature>, prev: Option<int>, p: Point): Result<seq<Feature>, string>
  {
    if prev == Some(p.quality) && |fs| > 0 then Ok(AppendLast(fs, p.coord))
    else match Colour(p.quality)
      case Err(e) => Err(e)
      case Ok(c) => Ok(fs + [Feature(c, [p.coord])])
  }

  /** The features of a run of points. */
  function Group(points: seq<Point>): Result<seq<Feature>, string>
  {
    if |points| == 0 then Ok([])
    else
      var init := points[..|points| - 1];
      match Group(init)
      case Err(e) => Err(e)
      case Ok(fs) => Extend(fs, PrevQuality(init), points[|points| - 1])
  }

  /** `osm_detail`: nothing without a job run or points. */
  function Detail(record: Option<seq<Point>>): Result<Option<seq<Feature>>, string>
  {
    if record.None? then Ok(None)
    else match Group(record.value)
      case Err(e) => Err(e)
      case Ok(fs) => Ok(Some(fs))
  }

  function Concat(features: seq<Feature>): seq<Coord>
  {
    if |features| == 0 then [] else Concat(features[..|features| - 1]) + features[|features| - 1].coordinates
  }

  function Coords(points: seq<Point>): (r: seq<Coord>)
    ensures |r| == |points|
    ensures forall i :: 0 <= i < |r| ==> r[i] == points[i].coord
  {
    seq(|points|, i requires 0 <= i < |points| => points[i].coord)
  }

  /** How many points start a run: the first one and each whose quality
      differs from the one before. */
  function Starts(points: seq<Point>): nat
  {
    if |points| == 0 then 0
    else Starts(points[..|points| - 1])
         + (if PrevQuality(points[..|points| - 1]) != Some(points[|points| - 1].quality) then 1 else 0)
  }

  predicate Coloured(points: seq<Point>)
  {
    forall i :: 0 <= i < |points| ==> -3 <= points[i].quality < 3
  }

  /** The grouping fails exactly when some point's quality has no colour. */
  lemma {:induction false} GroupOk(points: seq<Point>)
    ensures Group(points).Ok? <==> Coloured(points)
  {
    if |points| > 0 {
      var init := points[..|points| - 1];
      GroupOk(init);
      assert forall i :: 0 <= i < |init| ==> init[i] == points[i];
    }
  }

  lemma ExtendCoords(fs: seq<Feature>, prev: Option<int>, p: Point)
    requires Extend(fs, prev, p).Ok?
    ensures Concat(Extend(fs, prev, p).value) == Concat(fs) + [p.coord]
  {
    if prev == Some(p.quality) && |fs| > 0 {
      var r := AppendLast(fs, p.coord);
      assert r[..|fs| - 1] == fs[..|fs| - 1];
      assert fs[..|fs| - 1] + [fs[|fs| - 1]] == fs;
    } else {
      var r := Extend(fs, prev, p).value;
      assert r[..|fs|] == fs;
    }
  }

  /** The features hold every coordinate, in order. */
  lemma {:induction false} GroupCoords(points: seq<Point>)
    requires Group(points).Ok?
    ensures Concat(Group(points).value) == Coords(points)
  {
    if |points| > 0 {
      var init := points[..|points| - 1];
      GroupCoords(init);
      ExtendCoords(Group(init).value, PrevQuality(init), points[|points| - 1]);
      assert Coords(init) + [points[|points| - 1].coord] == Coords(points);
    }
  }

  /** One feature per run of equal quality, the last one in the colour of
      the last point's quality. */
  lemma {:induction false} GroupRuns(points: seq<Point>)
    requires Group(points).Ok?
    ensures |Group(points).value| == Starts(points)
    ensures |points| > 0 ==>
      && |Group(points).value| > 0
      && Colour(points[|points| - 1].quality) == Ok(Group(points).value[|Group(points).value| - 1].color)
  {
    if |points| > 0 {
      var init := points[..|points| - 1];
      GroupRuns(init);
      var fs := Group(init).value;
      var p := points[|points| - 1];
      if PrevQuality(init) == Some(p.quality) && |fs| > 0 {
        assert AppendLast(fs, p.coord)[|fs| - 1].color == fs[|fs| - 1].color;
      }
    }
  }

  /** The colours of qualities 0, 1, 2 are distinct. */
  lemma ColoursDistinct(q1: int, q2: int)
    requires 0 <= q1 < 3 && 0 <= q2 < 3 && q1 != q2
    ensures Colour(q1).value != Colour(q2).value
  {
    var colours := ["#f00", "#0f0", "#00f"];
    assert Colour(q1).value == colours[q1] && Colour(q2).value == colours[q2];
    assert colours[0][1] == 'f' && colours[1][1] == '0' && colours[2][1] == '0';
    assert colours[1][2] == 'f' && colours[2][2] == '0';
  }

  /** The points of the job always group without error, and neighbouring
      features have different colours. */
  lemma {:induction false} JobColours(points: seq<Point>)
    requires forall i :: 0 <= i < |points| ==> 0 <= points[i].quality < 3
    ensures Group(points).Ok?
    ensures forall k :: 0 <= k < |Group(points).value| - 1 ==> Group(points).value[k].color != Group(points).value[k + 1].color
  {
    GroupOk(points);
    if |points| > 0 {
      var init := points[..|points| - 1];
      var p := points[|points| - 1];
      assert forall i :: 0 <= i < |init| ==> init[i] == points[i];
      JobColours(init);
      GroupRuns(init);
      var fs := Group(init).value;
      var r := Group(points).value;
      if PrevQuality(init) == Some(p.quality) && |fs| > 0 {
        assert forall k :: 0 <= k < |r| ==> r[k].color == fs[k].color;
      } else {
        assert r == fs + [Feature(Colour(p.quality).value, [p.coord])];
        if |fs| > 0 {
          ColoursDistinct(init[|init| - 1].quality, p.quality);
        }
      }
    }
  }

  /** An error in a prefix is the error of the whole grouping. */
  lemma {:induction false} GroupAbort(points: seq<Point>, n: nat)
    requires n <= |points| && Group(points[..n]).Err?
    ensures Group(points) == Group(points[..n])
    decreases |points| - n
  {
    if n < |points| {
      assert points[..n + 1][..n] == points[..n];
      GroupAbort(points, n + 1);
    } else {
      assert points[..n] == points;
    }
  }

  /** The loop of `osm_detail`. */
  method DetailView(record: Option<seq<Point>>) returns (r: Result<Option<seq<Feature>>, string>)
    ensures r == Detail(record)
  {
    if record.None? {
      return Ok(None);
    }
    var points := record.value;
    var features: seq<Feature> := [];
    var prevQuality: Option<int> := None;
    for i := 0 to |points|
      invariant Group(points[..i]) == Ok(features)
      invariant prevQuality == PrevQuality(points[..i])
    {
      assert points[..i + 1][..i] == points[..i];
      var p := points[i];
      ghost var before := features;
      assert Group(points[..i + 1]) == Extend(before, PrevQuality(points[..i]), p);
      if prevQuality != Some(p.quality) || |features| == 0 {
        var colour := Colour(p.quality);
        if colour.Err? {
          GroupAbort(points, i + 1);
          return Err(colour.error);
        }
        features := features + [Feature(colour.value, [])];
        prevQuality := Some(p.quality);
        assert features[..|features| - 1] == before;
        assert [] + [p.coord] == [p.coord];
      }
      var last := features[|features| - 1];
      features := features[..|features| - 1] + [last.(coordinates := last.coordinates + [p.coord])];
    }
    assert points[..|points|] == points;
    return Ok(Some(features));
  }
}
