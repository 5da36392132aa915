/** Sensors and beacons of day15/day15.py: each sensor covers the diamond of points no
    farther, in Manhattan distance, than its closest beacon. The distress beacon is
    searched among the points just outside the diamonds, those at distance + 1. */
module BeaconExclusion {

  /** One input line: the sensor position and its closest beacon. */
  datatype Sensor = Sensor(x: int, y: int, beaconX: int, beaconY: int)

  type Point = (int, int)

  function Abs(v: int): int {
    if v < 0 then -v else v
  }

  function Distance(p: Point, q: Point): int {
    Abs(p.0 - q.0) + Abs(p.1 - q.1)
  }

  /** get_manhattan_distance (day15/day15.py:23-26): the distance between the sensor and
      its beacon. */
  function GetManhattanDistance(s: Sensor): (d: int)
    ensures d >= 0 && d == Distance((s.x, s.y), (s.beaconX, s.beaconY))
    ensures d == 0 <==> s.x == s.beaconX && s.y == s.beaconY
  {
    Abs(s.y - s.beaconY) + Abs(s.x - s.beaconX)
  }

  /** The sensor covers p. */
  predicate CoveredBy(p: Point, s: Sensor) {
    Distance(p, (s.x, s.y)) <= GetManhattanDistance(s)
  }

  predicate Covered(p: Point, sensors: seq<Sensor>) {
    exists i :: 0 <= i < |sensors| && CoveredBy(p, sensors[i])
  }

  /** is_covered (day15/day15.py:58-85). */
  method IsCovered(point: Point, sensors: seq<Sensor>) returns (covered: bool)
    ensures covered <==> Covered(point, sensors)
  {
    covered := false;
    for i := 0 to |sensors|
      invariant forall j :: 0 <= j < i ==> !CoveredBy(point, sensors[j])
    {
      var s := sensors[i];
      var manhattanDistance := GetManhattanDistance(s);
      if Abs(point.0 - s.x) + Abs(point.1 - s.y) <= manhattanDistance {
        covered := true;
        break;
      }
    }
  }

  /** Every sensor covers its own beacon, and so does every list holding the sensor. */
  lemma {:induction false} BeaconIsCovered(sensors: seq<Sensor>, i: int)
    requires 0 <= i < |sensors|
    ensures Covered((sensors[i].beaconX, sensors[i].beaconY), sensors)
  {
    assert CoveredBy((sensors[i].beaconX, sensors[i].beaconY), sensors[i]);
  }

  /** p lies at distance d from the sensor. */
  predicate OnRim(p: Point, s: Sensor, d: int) {
    Distance(p, (s.x, s.y)) == d
  }

  /** The rim points at offset m along x: below and above the sensor. */
  function Below(s: Sensor, d: int, m: int): Point {
    (s.x + m, s.y + Abs(m) - d)
  }

  function Above(s: Sensor, d: int, m: int): Point {
    (s.x + m, s.y - Abs(m) + d)
  }

  /** The rim at distance d > 0 consists of the two tips on the x axis and, for every
      offset -d < m < d, the points below and above. */
  lemma RimShape(s: Sensor, d: int, p: Point)
    requires d > 0
    ensures OnRim(p, s, d) <==>
      p == (s.x - d, s.y) || p == (s.x + d, s.y) ||
      (-d < p.0 - s.x < d && (p == Below(s, d, p.0 - s.x) || p == Above(s, d, p.0 - s.x)))
  {
  }

  /** add_sensor_edges (day15/day15.py:29-55): the points at distance d + 1 from the
      sensor, d being its beacon distance; there are 4 (d + 1) of them, none covered
      by the sensor, and every point at that distance is among them. */
  method AddSensorEdges(sensor: Sensor) returns (points: seq<Point>)
    ensures |points| == 4 * (GetManhattanDistance(sensor) + 1)
    ensures forall i :: 0 <= i < |points| ==> OnRim(points[i], sensor, GetManhattanDistance(sensor) + 1)
    ensures forall i :: 0 <= i < |points| ==> !CoveredBy(points[i], sensor)
    ensures forall p: Point :: OnRim(p, sensor, GetManhattanDistance(sensor) + 1) ==> p in points
  {
    var manhattanDistance := GetManhattanDistance(sensor) + 1;
    points := [(sensor.x - manhattanDistance, sensor.y)];
    points := points + [(sensor.x + manhattanDistance, sensor.y)];
    var md := -manhattanDistance + 1;
    while md < manhattanDistance
      invariant -manhattanDistance + 1 <= md <= manhattanDistance
      invariant |points| == 2 + 2 * (md + manhattanDistance - 1)
      invariant points[0] == (sensor.x - manhattanDistance, sensor.y)
      invariant points[1] == (sensor.x + manhattanDistance, sensor.y)
      invariant forall k :: 0 <= k < md + manhattanDistance - 1 ==>
        points[2 + 2 * k] == Below(sensor, manhattanDistance, k - manhattanDistance + 1) &&
        points[3 + 2 * k] == Above(sensor, manhattanDistance, k - manhattanDistance + 1)
    {
      points := points + [(sensor.x + md, sensor.y + Abs(md) - manhattanDistance)];
      points := points + [(sensor.x + md, sensor.y - Abs(md) + manhattanDistance)];
      md := md + 1;
    }
    forall i | 0 <= i < |points| ensures OnRim(points[i], sensor, manhattanDistance) {
      RimShape(sensor, manhattanDistance, points[i]);
      if i >= 2 {
        var k := (i - 2) / 2;
        assert i == 2 + 2 * k || i == 3 + 2 * k;
      }
    }
    forall p: Point | OnRim(p, sensor, manhattanDistance) ensures p in points {
      RimShape(sensor, manhattanDistance, p);
      var m := p.0 - sensor.x;
      if -manhattanDistance < m < manhattanDistance {
        var k := m + manhattanDistance - 1;
        assert points[2 + 2 * k] == Below(sensor, manhattanDistance, m);
        assert points[3 + 2 * k] == Above(sensor, manhattanDistance, m);
      }
    }
  }

  /** clean_edges (day15/day15.py:103-104): the points no sensor covers, in order. */
  function CleanEdges(points: seq<Point>, sensors: seq<Sensor>): (r: seq<Point>)
    ensures |r| <= |points|
    ensures forall p :: p in r <==> p in points && !Covered(p, sensors)
  {
    if points == [] then []
    else
      var rest := CleanEdges(points[1..], sensors);
      assert forall p :: p in points <==> p == points[0] || p in points[1..];
      if Covered(points[0], sensors) then rest else [points[0]] + rest
  }

  /** The boundary box (min x, max x, min y, max y). */
  datatype Boundary = Boundary(minX: int, maxX: int, minY: int, maxY: int)

  predicate Inside(p: Point, b: Boundary) {
    b.minX <= p.0 <= b.maxX && b.minY <= p.1 <= b.maxY
  }

  /** crop_area (day15/day15.py:107-110): exactly the points inside the box, in order. */
  function CropArea(points: seq<Point>, boundary: Boundary): (r: seq<Point>)
    ensures |r| <= |points|
    ensures forall p :: p in r <==> p in points && Inside(p, boundary)
  {
    if points == [] then []
    else
      var rest := CropArea(points[1..], boundary);
      assert forall p :: p in points <==> p == points[0] || p in points[1..];
      if Inside(points[0], boundary) then [points[0]] + rest else rest
  }

  /** A point outside every diamond that lies next to one of them (at distance + 1 of
      some sensor) survives clean_edges on the edge list of that sensor. */
  lemma {:induction false} UncoveredEdgeSurvives(sensors: seq<Sensor>, i: int, p: Point, edges: seq<Point>)
    requires 0 <= i < |sensors| && !Covered(p, sensors)
    requires OnRim(p, sensors[i], GetManhattanDistance(sensors[i]) + 1)
    requires forall q: Point :: OnRim(q, sensors[i], GetManhattanDistance(sensors[i]) + 1) ==> q in edges
    ensures p in CleanEdges(edges, sensors)
  {
  }
}
