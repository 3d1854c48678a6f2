/** The environment of environment.py (the one main.py uses): a width x height
    grid of cities, its center as a tuple, and the angle classification
    around it. Differs from tools/environment.py in its sentinel (`'center'`),
    its 270-degree label (the string `'270'`) and its exact-axis cases (only
    0, 90 and 180 degrees). */
module RootEnvironment {
  import opened Grid

  class Environment {
    const width: nat
    const height: nat
    /** `(width / 2, height / 2)`, a tuple. */
    const center: (real, real) := (width as real / 2.0, height as real / 2.0)
    var cities: seq<seq<real>>

    /** `__init__`: the property access `self.get_cities` fills the list once. */
    constructor (width: nat, height: nat)
      ensures this.width == width && this.height == height
      ensures cities == Cities(width, height)
    {
      this.width := width;
      this.height := height;
      cities := [];
      new;
      var populated := GetCities();
    }

    /** The `get_cities` property: fills the empty list with the w-major grid
        of cell centers; a non-empty list is returned unchanged. */
    method GetCities() returns (result: seq<seq<real>>)
      modifies this
      ensures cities == (if old(cities) == [] then Cities(width, height) else old(cities))
      ensures result == cities
    {
      if cities == [] {
        for w := 0 to width
          invariant cities == Cities(w, height)
        {
          for h := 0 to height
            invariant cities == Cities(w, height) + Column(w, height)[..h]
          {
            cities := cities + [[w as real + 0.5, h as real + 0.5]];
          }
        }
      }
      result := cities;
    }

    /** `quadrant`: `'c'` for the center, ints 0/90/180 on three axes, the
        string `'270'` on the fourth, ints 1-4 in the open quadrants; the nine
        cases are exclusive and exhaustive. */
    function Quadrant(point: seq<real>): (r: PyValue)
      requires |point| == 2
      ensures r == Str("c") <==> point[0] == center.0 && point[1] == center.1
      ensures r == Int(0) <==> point[0] > center.0 && point[1] == center.1
      ensures r == Int(1) <==> point[0] > center.0 && point[1] > center.1
      ensures r == Int(90) <==> point[0] == center.0 && point[1] > center.1
      ensures r == Int(2) <==> point[0] < center.0 && point[1] > center.1
      ensures r == Int(180) <==> point[0] < center.0 && point[1] == center.1
      ensures r == Int(3) <==> point[0] < center.0 && point[1] < center.1
      ensures r == Str("270") <==> point[0] == center.0 && point[1] < center.1
      ensures r == Int(4) <==> point[0] > center.0 && point[1] < center.1
      ensures r in {Str("c"), Int(0), Int(1), Int(90), Int(2), Int(180), Int(3), Str("270"), Int(4)}
    {
      var dx := point[0] - center.0;
      var dy := point[1] - center.1;
      if dx == 0.0 && dy == 0.0 then Str("c")
      else if dx > 0.0 && dy == 0.0 then Int(0)
      else if dx > 0.0 && dy > 0.0 then Int(1)
      else if dx == 0.0 && dy > 0.0 then Int(90)
      else if dx < 0.0 && dy > 0.0 then Int(2)
      else if dx < 0.0 && dy == 0.0 then Int(180)
      else if dx < 0.0 && dy < 0.0 then Int(3)
      else if dx == 0.0 && dy < 0.0 then Str("270")
      else Int(4)
    }

    /** `find_angle_from_center`: `'center'` when `tuple(point)` is the
        center, exact radians for the 0, 90 and 180 degree axes, and otherwise
        the `angle_between` value, reflected to 2*pi minus it for quadrants 3
        and 4 and for the 270-degree axis. */
    function FindAngleFromCenter(point: seq<real>, angleBetween: (seq<real>, seq<real>) -> real): (r: Angle)
      requires |point| == 2
      ensures r == Center <==> point[0] == center.0 && point[1] == center.1
      ensures r != Center && point[1] == center.1 ==>
                r == Rad(if point[0] > center.0 then 0.0 else Pi)
      ensures r != Center && point[0] == center.0 && point[1] > center.1 ==> r == Rad(Pi / 2.0)
      ensures r != Center && point[1] != center.1 && !(point[0] == center.0 && point[1] > center.1) ==>
                var angle := angleBetween([center.0, 0.0], [point[0] - center.0, point[1] - center.1]);
                r == Rad(if point[1] < center.1 then TwoPi - angle else angle)
    {
      if (point[0], point[1]) == center then Center
      else
        var position := Quadrant(point);
        if position == Int(0) || position == Int(90) || position == Int(180) then
          Rad(Radians(position.i as real))
        else
          var reference := [2.0 * center.0 - center.0, center.1 - center.1];
          var offset := [point[0] - center.0, point[1] - center.1];
          var angle := angleBetween(reference, offset);
          if position == Int(3) || position == Int(4) || position == Str("270") then Rad(TwoPi - angle)
          else Rad(angle)
    }
  }
}
