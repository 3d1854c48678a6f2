/** The grid environment and the module-level angle helpers of partition.py.
    Its `quadrant` labels all four axes with strings (`'0'`, `'90'`, `'180'`,
    `'270'`), and its `find_angle_from_center` has no exact-axis cases: every
    point but the center gets the `angle_between` value, reflected below the
    center. */
module PartitionDraft {
  import opened Grid

  class Environment {
    const width: nat
    const height: nat
    /** `(width / 2, height / 2)`, a tuple. */
    const center: (real, real) := (width as real / 2.0, height as real / 2.0)
    var cities: seq<seq<real>>

    /** `__init__`: calls `get_cities()` once, which fills the list. */
    constructor (width: nat, height: nat)
      ensures this.width == width && this.height == height
      ensures cities == Cities(width, height)
    {
      this.width := width;
      this.height := height;
      cities := [];
      new;
      var populated := GetCities();
    }

    /** `get_cities()`: fills the empty list with the w-major grid of cell
        centers; later calls return the list unchanged. */
    method GetCities() returns (result: seq<seq<real>>)
      modifies this
      ensures cities == (if old(cities) == [] then Cities(width, height) else old(cities))
      ensures result == cities
    {
      if cities == [] {
        for w := 0 to width
          invariant cities == Cities(w, height)
        {
          for h := 0 to height
            invariant cities == Cities(w, height) + Column(w, height)[..h]
          {
            cities := cities + [[w as real + 0.5, h as real + 0.5]];
          }
        }
      }
      result := cities;
    }
  }

  /** Module-level `quadrant(center, point)`: `'c'`, the strings
      `'0'`/`'90'`/`'180'`/`'270'` on the axes, ints 1-4 in the open
      quadrants; the nine cases are exclusive and exhaustive. */
  function Quadrant(center: (real, real), point: (real, real)): (r: PyValue)
    ensures r == Str("c") <==> point == center
    ensures r == Str("0") <==> point.0 > center.0 && point.1 == center.1
    ensures r == Int(1) <==> point.0 > center.0 && point.1 > center.1
    ensures r == Str("90") <==> point.0 == center.0 && point.1 > center.1
    ensures r == Int(2) <==> point.0 < center.0 && point.1 > center.1
    ensures r == Str("180") <==> point.0 < center.0 && point.1 == center.1
    ensures r == Int(3) <==> point.0 < center.0 && point.1 < center.1
    ensures r == Str("270") <==> point.0 == center.0 && point.1 < center.1
    ensures r == Int(4) <==> point.0 > center.0 && point.1 < center.1
    ensures r in {Str("c"), Str("0"), Int(1), Str("90"), Int(2), Str("180"), Int(3), Str("270"), Int(4)}
  {
    var dx := point.0 - center.0;
    var dy := point.1 - center.1;
    if dx == 0.0 && dy == 0.0 then Str("c")
    else if dx > 0.0 && dy == 0.0 then Str("0")
    else if dx > 0.0 && dy > 0.0 then Int(1)
    else if dx == 0.0 && dy > 0.0 then Str("90")
    else if dx < 0.0 && dy > 0.0 then Int(2)
    else if dx < 0.0 && dy == 0.0 then Str("180")
    else if dx < 0.0 && dy < 0.0 then Int(3)
    else if dx == 0.0 && dy < 0.0 then Str("270")
    else Int(4)
  }

  /** The point handed to `find_angle_from_center`: a tuple such as the
      center, or a list such as the cities `get_cities` builds. A Python list
      never equals a tuple, whatever its entries. */
  datatype PyPoint = Tuple(x: real, y: real) | List(x: real, y: real)

  /** Module-level `find_angle_from_center(center, point)`: `'center'` only
      for a tuple equal to the center (so never for a list city, even one at
      the center); otherwise the `angle_between` value of the offset, which
      is reflected to 2*pi minus it exactly when the point lies strictly
      below the center (quadrants 3, 4 and the 270-degree axis). */
  function FindAngleFromCenter(center: (real, real), point: PyPoint,
                               angleBetween: (seq<real>, seq<real>) -> real): (r: Angle)
    ensures r == Center <==> point.Tuple? && (point.x, point.y) == center
    ensures r != Center ==>
              var angle := angleBetween([center.0, 0.0], [point.x - center.0, point.y - center.1]);
              r == Rad(if point.y < center.1 then TwoPi - angle else angle)
  {
    if point.Tuple? && center == (point.x, point.y) then Center
    else
      var centerVector := [2.0 * center.0 - center.0, center.1 - center.1];
      var offset := [point.x - center.0, point.y - center.1];
      var angle := angleBetween(centerVector, offset);
      var position := Quadrant(center, (point.x, point.y));
      if position == Int(3) || position == Int(4) || position == Str("270") then Rad(TwoPi - angle)
      else Rad(angle)
  }
}
