/** Vocabulary shared by the three environment drafts: angles in radians, the
    Python values returned by the quadrant classifiers, and the list of grid
    cities that every `get_cities` builds. */
module Grid {

  /** `math.pi` and `numpy.pi`, as the decimal value of the double. */
  const Pi: real := 3.141592653589793

  /** `np.radians(360)`: the closing boundary of the angular sectors. */
  const TwoPi: real := 2.0 * Pi

  /** `np.radians` / `math.radians`, in exact real arithmetic. */
  function Radians(deg: real): real
  {
    deg * Pi / 180.0
  }

  /** A Python value of the two dynamic types the quadrant classifiers
      return: an `int` or a `str`. */
  datatype PyValue = Int(i: int) | Str(s: string)

  /** The result of `find_angle_from_center` in the drafts that answer
      `'center'` for the center point, and a float otherwise. */
  datatype Angle = Center | Rad(r: real)

  /** The city at the center of grid square (w, h). */
  function CellCenter(w: int, h: int): seq<real>
  {
    [w as real + 0.5, h as real + 0.5]
  }

  /** The cities of column `w`: `[w + 0.5, h + 0.5]` for `h` below `length`. */
  function Column(w: nat, length: nat): (c: seq<seq<real>>)
    ensures |c| == length
  {
    seq(length, h => CellCenter(w, h))
  }

  /** The cities of the first `columns` columns, in w-major order: what the
      nested `for w` / `for h` loops of `get_cities` append. */
  function Cities(columns: nat, length: nat): (c: seq<seq<real>>)
    ensures |c| == columns * length
    ensures forall t :: 0 <= t < |c| ==> |c[t]| == 2
  {
    if columns == 0 then []
    else
      var before := Cities(columns - 1, length);
      assert |before| + length == columns * length by {
        assert (columns - 1) * length + length == columns * length;
      }
      before + Column(columns - 1, length)
  }

  /** The city at index `w * length + h` sits at the center of grid square (w, h). */
  lemma {:induction false} CityAt(columns: nat, length: nat, w: nat, h: nat)
    requires w < columns && h < length
    ensures w * length + h < columns * length
    ensures Cities(columns, length)[w * length + h] == CellCenter(w, h)
  {
    var before := Cities(columns - 1, length);
    assert |before| == (columns - 1) * length;
    if w == columns - 1 {
      assert w * length + h == |before| + h;
    } else {
      CityAt(columns - 1, length, w, h);
      assert w * length + h < |before|;
    }
  }

  /** Every city is the center of a grid square inside the environment. */
  lemma {:induction false} CityShape(columns: nat, length: nat, t: nat)
    requires t < columns * length
    ensures exists w, h :: 0 <= w < columns && 0 <= h < length &&
              Cities(columns, length)[t] == CellCenter(w, h)
  {
    var before := Cities(columns - 1, length);
    if t < |before| {
      CityShape(columns - 1, length, t);
      var w, h :| 0 <= w < columns - 1 && 0 <= h < length && before[t] == CellCenter(w, h);
      assert Cities(columns, length)[t] == CellCenter(w, h);
    } else {
      var h := t - |before|;
      assert Cities(columns, length)[t] == CellCenter(columns - 1, h);
    }
  }

  /** A coordinate `n / 2` is the center `w + 0.5` of a grid square exactly when `n = 2w + 1`. */
  lemma HalfIsCellCoordinate(n: nat, w: int)
    ensures n as real / 2.0 == w as real + 0.5 <==> n == 2 * w + 1
    ensures n == 2 * w + 1 ==> n % 2 == 1 && n / 2 == w
  {
    if n as real / 2.0 == w as real + 0.5 {
      assert n as real == (2 * w + 1) as real;
    }
  }

  /** The center `[columns / 2, length / 2]` is one of the cities exactly when
      both dimensions are odd; only then does it count towards the number of
      cities and receive the center sentinel as its angle. */
  lemma CenterIsCity(columns: nat, length: nat)
    ensures [columns as real / 2.0, length as real / 2.0] in Cities(columns, length)
        <==> columns % 2 == 1 && length % 2 == 1
  {
    if columns % 2 == 1 && length % 2 == 1 {
      OddCenterIsCity(columns, length);
    }
    if [columns as real / 2.0, length as real / 2.0] in Cities(columns, length) {
      CityCenterIsOdd(columns, length);
    }
  }

  lemma OddCenterIsCity(columns: nat, length: nat)
    requires columns % 2 == 1 && length % 2 == 1
    ensures [columns as real / 2.0, length as real / 2.0] in Cities(columns, length)
  {
    var w, h := columns / 2, length / 2;
    CityAt(columns, length, w, h);
    HalfIsCellCoordinate(columns, w);
    HalfIsCellCoordinate(length, h);
    assert Cities(columns, length)[w * length + h] == [columns as real / 2.0, length as real / 2.0];
  }

  lemma CityCenterIsOdd(columns: nat, length: nat)
    requires [columns as real / 2.0, length as real / 2.0] in Cities(columns, length)
    ensures columns % 2 == 1 && length % 2 == 1
  {
    var c := [columns as real / 2.0, length as real / 2.0];
    var cs := Cities(columns, length);
    var t :| 0 <= t < |cs| && cs[t] == c;
    CityShape(columns, length, t);
    var w, h :| 0 <= w < columns && 0 <= h < length && cs[t] == CellCenter(w, h);
    assert c[0] == w as real + 0.5 && c[1] == h as real + 0.5;
    HalfIsCellCoordinate(columns, w);
    HalfIsCellCoordinate(length, h);
  }
}
