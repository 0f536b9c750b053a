/** The sliding-window regression of the GPS code, over the reals. */
module Regression {
  import opened LeastSquares

  /** The points a control block of the given size still looks at. */
  ghost function Window(added: seq<Point>, size: nat): seq<Point> {
    if |added| <= size then added else added[|added| - size..]
  }

  lemma WindowAdd(added: seq<Point>, p: Point, size: nat)
    requires size > 0
    ensures var w := Window(added, size);
            Window(added + [p], size) == if |added| < size then w + [p] else w[1..] + [p]
  {
  }

  /** The ring holds the window: from slot 0 while it fills, later from its oldest point at index. */
  ghost predicate Ring(values: seq<Point>, index: nat, added: seq<Point>) {
    if |added| < |values| then index == |added| && values[..index] == added
    else index < |values| && values[index..] + values[..index] == Window(added, |values|)
  }

  lemma RingAdd(values: seq<Point>, index: nat, added: seq<Point>, p: Point)
    requires values != [] && Ring(values, index, added)
    ensures Ring(values[index := p], (index + 1) % |values|, added + [p])
  {
    var (size, more) := (|values|, values[index := p]);
    var next := if index + 1 == size then 0 else index + 1;
    assert next == (index + 1) % size;
    if |added| >= size {
      WindowAdd(added, p, size);
      assert Window(added, size)[1..] == values[index + 1..] + values[..index];
      assert more[next..] + more[..next] == Window(added + [p], size);
    } else if index + 1 == size {
      assert more[0..] + more[..0] == added + [p];
    } else {
      assert more[..next] == added + [p];
    }
  }

  /** The five running sums of a window. */
  datatype Sums = Sums(n: real, x: real, y: real, xx: real, xy: real)

  ghost function SumsOf(w: seq<Point>): Sums {
    Sums(Sum(w, One), Sum(w, X), Sum(w, Y), Sum(w, XX), Sum(w, XY))
  }

  lemma NoSums()
    ensures SumsOf([]) == Sums(0.0, 0.0, 0.0, 0.0, 0.0)
  {
  }

  lemma SumsCount(w: seq<Point>)
    ensures SumsOf(w).n == |w| as real
  {
    Count(w);
  }

  lemma SumsMore(w: seq<Point>, p: Point)
    ensures SumsOf(w + [p]) == Plus(SumsOf(w), p)
  {
    hide Sum;
    SumMore(w, p, One);
    SumMore(w, p, X);
    SumMore(w, p, Y);
    SumMore(w, p, XX);
    SumMore(w, p, XY);
  }

  ghost function Plus(a: Sums, p: Point): Sums {
    Sums(a.n + 1.0, a.x + p.x, a.y + p.y, a.xx + p.x * p.x, a.xy + p.x * p.y)
  }

  lemma SumsLess(w: seq<Point>)
    requires w != []
    ensures SumsOf(w) == Plus(SumsOf(w[1..]), w[0])
  {
    hide Sum;
    SumFirst(w, One);
    SumFirst(w, X);
    SumFirst(w, Y);
    SumFirst(w, XX);
    SumFirst(w, XY);
  }

  /** The control block of a regression. */
  class Regression {
    var values: array<Point>
    var index: nat
    var n: real
    var sx: real
    var sy: real
    var sxx: real
    var sxy: real
    var lastX: real
    var valid: int
    var s: real
    var t: real
    ghost var added: seq<Point>

    ghost function Points(): seq<Point>
      reads this
    {
      Window(added, values.Length)
    }

    /** The sums are those of the window; a result, once computed, is that of a fresh fit. */
    ghost predicate Fitted()
      reads this
    {
      && Sums(n, sx, sy, sxx, sxy) == SumsOf(Points())
      && lastX == (if added == [] then 0.0 else added[|added| - 1].x)
      && (valid == 0 ==> s == 0.0 && t == 0.0)
      && (valid != 0 ==> Computed())
    }

    ghost predicate Computed()
      reads this
    {
      && s == Slope(Points())
      && t == Intercept(Points())
      && valid == if SameX(Points()) then -1 else 1
    }

    ghost predicate Valid()
      reads this, values
    {
      && values.Length > 0
      && index < values.Length
      && Ring(values[..], index, added)
      && Fitted()
    }

    constructor (buffer: array<Point>)
      requires buffer.Length > 0
      modifies buffer
      ensures Valid() && added == [] && values == buffer
    {
      values := buffer;
      new;
      Reset();
    }

    method ClearValues()
      modifies values
    {
      for i := 0 to values.Length
        modifies values
      {
        values[i] := Point(0.0, 0.0);
      }
    }

    method Reset()
      requires values.Length > 0
      modifies this, values
      ensures Valid() && added == [] && values == old(values)
    {
      hide SumsOf, SameX, Slope, Intercept;
      n, sx, sy, sxx, sxy := 0.0, 0.0, 0.0, 0.0, 0.0;
      lastX, valid, s, t := 0.0, 0, 0.0, 0.0;
      index := 0;
      added := [];
      NoSums();
      ClearValues();
    }

    /** Takes the oldest point out of the sums. */
    method RemoveOldest()
      requires Valid() && |added| >= values.Length
      modifies this`n, this`sx, this`sy, this`sxx, this`sxy, this`valid, this`s, this`t, values
      ensures Sums(n, sx, sy, sxx, sxy) == SumsOf(Points()[1..])
      ensures values[..] == old(values[..])[index := Point(0.0, 0.0)]
    {
      hide SumsOf, SameX, Slope, Intercept;
      var p := values[index];
      assert p == Points()[0] by {
        assert p == (values[..][index..] + values[..][..index])[0];
      }
      values[index] := Point(0.0, 0.0);
      SumsLess(Points());
      n, sx, sy := n - 1.0, sx - p.x, sy - p.y;
      sxx, sxy := sxx - p.x * p.x, sxy - p.x * p.y;
      valid, s, t := 0, 0.0, 0.0;
    }

    method AddToSums(p: Point, ghost w: seq<Point>)
      requires Sums(n, sx, sy, sxx, sxy) == SumsOf(w)
      modifies this`n, this`sx, this`sy, this`sxx, this`sxy, this`valid, this`s, this`t, this`lastX
      ensures Sums(n, sx, sy, sxx, sxy) == SumsOf(w + [p])
      ensures valid == 0 && s == 0.0 && t == 0.0 && lastX == p.x
    {
      hide SumsOf;
      SumsMore(w, p);
      n, sx, sy := n + 1.0, sx + p.x, sy + p.y;
      sxx, sxy := sxx + p.x * p.x, sxy + p.x * p.y;
      valid, s, t, lastX := 0, 0.0, 0.0, p.x;
    }

    /** Adds a point to sums that leave room for one. */
    method Put(x: real, y: real, ghost before: seq<Point>, ghost w: seq<Point>)
      requires index < values.Length == |before| && Ring(before, index, added)
      requires values[..] == before || values[..] == before[index := Point(0.0, 0.0)]
      requires Sums(n, sx, sy, sxx, sxy) == SumsOf(w)
      requires w == if |added| < values.Length then Points() else Points()[1..]
      modifies this, values
      ensures Valid() && values == old(values)
      ensures added == old(added) + [Point(x, y)]
    {
      hide Sum, SameX, Slope, Intercept, Ring, SumsOf, Window;
      var p := Point(x, y);
      AddToSums(p, w);
      WindowAdd(added, p, values.Length);
      RingAdd(before, index, added, p);
      values[index] := p;
      assert values[..] == before[index := p];
      index := (index + 1) % values.Length;
      added := added + [p];
    }

    method Add(x: real, y: real)
      requires Valid()
      modifies this, values
      ensures Valid() && values == old(values)
      ensures added == old(added) + [Point(x, y)]
    {
      hide Sum, SameX, Slope, Intercept, Ring, SumsOf;
      ghost var (before, w) := (values[..], Points());
      SumsCount(w);
      if n >= values.Length as real {
        RemoveOldest();
        w := w[1..];
        SumsCount(w);
      }
      if n < values.Length as real {
        Put(x, y, before, w);
      }
    }

    method Compute()
      requires Valid()
      modifies this`valid, this`s, this`t
      ensures Valid() && Computed()
    {
      hide Sum, SameX, Ring, Window;
      if valid != 0 {
        return;
      }
      DetZeroIff(Points());
      valid := -1;
      var det := n * sxx - sx * sx;
      assert det == Det(Points());
      if det == 0.0 {
        return;
      }
      s := (n * sxy - sx * sy) / det;
      t := (sxx * sy - sx * sxy) / det;
      valid := 1;
    }

    method Actual() returns (y: real)
      requires Valid()
      modifies this`valid, this`s, this`t
      ensures Valid()
      ensures y == (if added == [] then 0.0 else added[|added| - 1].x) * Slope(Points()) + Intercept(Points())
      ensures SameX(Points()) ==> y == 0.0
    {
      hide Sum, SameX, Slope, Intercept, SumsOf, Ring, Window;
      Compute();
      if SameX(Points()) { NoLine(Points()); }
      y := lastX * s + t;
    }

    method Forecast(x: real) returns (y: real)
      requires Valid()
      modifies this`valid, this`s, this`t
      ensures Valid()
      ensures y == x * Slope(Points()) + Intercept(Points())
      ensures SameX(Points()) ==> y == 0.0
    {
      hide Sum, SameX, Slope, Intercept, SumsOf, Ring, Window;
      Compute();
      if SameX(Points()) { NoLine(Points()); }
      y := x * s + t;
    }

    /** The x at which the line takes the value y, or 1e9 when the line is level. */
    method Reverse(y: real) returns (x: real)
      requires Valid()
      modifies this`valid, this`s, this`t
      ensures Valid()
      ensures SameX(Points()) || Slope(Points()) == 0.0 ==> x == 1000000000.0
      ensures Slope(Points()) != 0.0 ==> x * Slope(Points()) + Intercept(Points()) == y
    {
      hide Sum, SameX, Slope, Intercept, SumsOf, Ring, Window;
      Compute();
      if SameX(Points()) { NoLine(Points()); }
      x := if s != 0.0 then (y - t) / s else 1000000000.0;
      if s != 0.0 {
        Divided(y - t, s);
      }
    }

    method Change() returns (r: real)
      requires Valid()
      modifies this`valid, this`s, this`t
      ensures Valid()
      ensures r == Slope(Points())
      ensures SameX(Points()) ==> r == 0.0
    {
      hide Sum, SameX, Slope, Intercept, SumsOf, Ring, Window;
      Compute();
      if SameX(Points()) { NoLine(Points()); }
      r := s;
    }

    method Quality() returns (r: real)
      requires Valid()
      modifies this`valid, this`s, this`t
      ensures Valid()
      ensures r == if SameX(Points()) then 0.0 else 1.0
    {
      hide Sum, SameX, Slope, Intercept, SumsOf, Ring, Window;
      Compute();
      r := if valid == 1 then 1.0 else 0.0;
    }
  }

  lemma Divided(a: real, b: real)
    requires b != 0.0
    ensures a / b * b == a
  {
  }

  /** Points that lie on one line are predicted exactly, whatever was added before them. */
  lemma LineIsPredicted(added: seq<Point>, size: nat, a: real, b: real, x: real)
    requires OnLine(Window(added, size), a, b) && !SameX(Window(added, size))
    ensures x * Slope(Window(added, size)) + Intercept(Window(added, size)) == x * a + b
  {
    hide *;
    LineRecovered(Window(added, size), a, b);
  }
}
