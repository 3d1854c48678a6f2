/** The environment of tools/environment.py: a width x length grid of cities,
    its center as a list, and the angle classification around that center
    that the balanced sector assignment uses. */
module ToolsEnvironment {
  import opened Grid

  /** The angle reported for the center itself: larger than every sector
      boundary, so the center is never assigned to a sector. */
  const CenterSentinel: real := 999.0

  class Environment {
    const width: nat
    const length: nat
    /** `[width / 2, length / 2]`, a list. */
    const center: seq<real> := [width as real / 2.0, length as real / 2.0]
    /** The memoised list of cities; each city is a list of floats. */
    var cities: seq<seq<real>>

    /** `__init__`: stores the dimensions, empties the list and reads the
        `get_cities` property once, which fills it. */
    constructor (width: nat, length: nat)
      ensures this.width == width && this.length == length
      ensures cities == Cities(width, length)
    {
      this.width := width;
      this.length := length;
      cities := [];
      new;
      var populated := GetCities();
    }

    /** The `get_cities` property: fills the list with the w-major grid of
        cell centers only when it is empty, then returns it. */
    method GetCities() returns (result: seq<seq<real>>)
      modifies this
      ensures cities == (if old(cities) == [] then Cities(width, length) else old(cities))
      ensures result == cities
    {
      if cities == [] {
        for w := 0 to width
          invariant cities == Cities(w, length)
        {
          for h := 0 to length
            invariant cities == Cities(w, length) + Column(w, length)[..h]
          {
            cities := cities + [[w as real + 0.5, h as real + 0.5]];
          }
        }
      }
      result := cities;
    }

    /** `quadrant`: where a point lies relative to the center, by the signs of
        its offset (dx, dy): `'c'`, the axis labels 0/90/180/270 (ints) or the
        open quadrants 1-4 (ints). The nine cases are exclusive and exhaustive. */
    function Quadrant(point: seq<real>): (r: PyValue)
      requires |point| == 2
      ensures r == Str("c") <==> point == center
      ensures r == Int(0) <==> point[0] > center[0] && point[1] == center[1]
      ensures r == Int(1) <==> point[0] > center[0] && point[1] > center[1]
      ensures r == Int(90) <==> point[0] == center[0] && point[1] > center[1]
      ensures r == Int(2) <==> point[0] < center[0] && point[1] > center[1]
      ensures r == Int(180) <==> point[0] < center[0] && point[1] == center[1]
      ensures r == Int(3) <==> point[0] < center[0] && point[1] < center[1]
      ensures r == Int(270) <==> point[0] == center[0] && point[1] < center[1]
      ensures r == Int(4) <==> point[0] > center[0] && point[1] < center[1]
      ensures r in {Str("c"), Int(0), Int(1), Int(90), Int(2), Int(180), Int(3), Int(270), Int(4)}
    {
      var dx := point[0] - center[0];
      var dy := point[1] - center[1];
      if dx == 0.0 && dy == 0.0 then Str("c")
      else if dx > 0.0 && dy == 0.0 then Int(0)
      else if dx > 0.0 && dy > 0.0 then Int(1)
      else if dx == 0.0 && dy > 0.0 then Int(90)
      else if dx < 0.0 < dy then Int(2)
      else if dx < 0.0 && dy == 0.0 then Int(180)
      else if dx < 0.0 && dy < 0.0 then Int(3)
      else if dx == 0.0 && dy < 0.0 then Int(270)
      else Int(4)
    }

    /** `find_angle_from_center`: 999 for the center, exact radians on the
        four axes, otherwise the angle to the reference axis (positive x),
        reflected to 2*pi minus it below the center. `angleBetween` is the
        arccos-based `angle_between` of two vectors. */
    function FindAngleFromCenter(point: seq<real>, angleBetween: (seq<real>, seq<real>) -> real): (r: real)
      requires |point| == 2
      ensures point == center ==> r == CenterSentinel
      ensures point != center && point[1] == center[1] ==>
                r == (if point[0] > center[0] then 0.0 else Pi)
      ensures point != center && point[0] == center[0] ==>
                r == (if point[1] > center[1] then Pi / 2.0 else 3.0 * Pi / 2.0)
      ensures point[0] != center[0] && point[1] != center[1] ==>
                var angle := angleBetween([center[0], 0.0], [point[0] - center[0], point[1] - center[1]]);
                r == if point[1] < center[1] then TwoPi - angle else angle
    {
      if point == center then CenterSentinel
      else
        var position := Quadrant(point);
        if position == Int(0) || position == Int(90) || position == Int(180) || position == Int(270) then
          Radians(position.i as real)
        else
          // reference vector [2 * cx, cy] - center, and the offset of the point
          var reference := [2.0 * center[0] - center[0], center[1] - center[1]];
          var offset := [point[0] - center[0], point[1] - center[1]];
          var angle := angleBetween(reference, offset);
          // the string '270' is never returned by Quadrant: only 3 and 4 reflect
          if position == Int(3) || position == Int(4) || position == Str("270") then TwoPi - angle
          else angle
    }
  }
}
