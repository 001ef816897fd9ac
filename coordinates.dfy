/**
 * The mutable integer pair of both generations of the game
 * (core/src/com/mygdx/kaps/level/gridobject/Coordinates.java and
 * core/src/com/mygdx/kaps/level/Coordinates.java). `set`, `add` and `map` overwrite the
 * fields; `mapped`, `copy` and `addedTo` return fresh objects and leave the receiver alone.
 * Java's overloads get distinct names here (`Set`/`SetCoordinates`, `Add`/`AddCoordinates`,
 * `AddedTo`/`AddedToCoordinates`, `Mapped`/`MappedBoth`).
 */
module Coordinates {
  import Text

  /** The value of a pair of coordinates, or a displacement. */
  datatype Pos = Pos(x: int, y: int) {
    function Plus(d: Pos): (r: Pos)
      ensures r.x - x == d.x && r.y - y == d.y
    {
      Pos(x + d.x, y + d.y)
    }
  }

  /** Java's `"(" + x + " , " + y + ")"`. */
  function PosToString(p: Pos): string
  {
    "(" + Text.IntToString(p.x) + " , " + Text.IntToString(p.y) + ")"
  }

  lemma {:induction false} NatToStringInjective(a: nat, b: nat)
    requires Text.NatToString(a) == Text.NatToString(b)
    ensures a == b
    decreases a
  {
    var sa, sb := Text.NatToString(a), Text.NatToString(b);
    if a < 10 && b < 10 {
      assert sa[0] == sb[0];
    } else if a >= 10 && b >= 10 {
      var pa, pb := Text.NatToString(a / 10), Text.NatToString(b / 10);
      assert sa == pa + [Text.DigitChar(a % 10)] && sb == pb + [Text.DigitChar(b % 10)];
      assert sa[|sa| - 1] == sb[|sb| - 1];
      assert pa == sa[..|sa| - 1] == sb[..|sb| - 1] == pb;
      NatToStringInjective(a / 10, b / 10);
    }
  }

  lemma IntToStringInjective(a: int, b: int)
    requires Text.IntToString(a) == Text.IntToString(b)
    ensures a == b
    ensures ' ' !in Text.IntToString(a)
  {
    var sa, sb := Text.IntToString(a), Text.IntToString(b);
    assert sa[0] == '-' <==> a < 0;
    assert sb[0] == '-' <==> b < 0;
    if a < 0 {
      assert Text.NatToString(-a) == sa[1..] == sb[1..] == Text.NatToString(-b);
      NatToStringInjective(-a, -b);
    } else {
      NatToStringInjective(a, b);
    }
  }

  lemma FieldBeforeSeparator(a: string, b: string, restA: string, restB: string)
    requires ' ' !in a && ' ' !in b
    requires a + " , " + restA == b + " , " + restB
    ensures a == b && restA == restB
  {
    var sa, sb := a + " , " + restA, b + " , " + restB;
    assert forall k :: 0 <= k < |a| ==> sa[k] == a[k] != ' ';
    assert forall k :: 0 <= k < |b| ==> sb[k] == b[k] != ' ';
    assert sa[|a|] == ' ' && sb[|b|] == ' ';
    assert |a| == |b|;
    assert a == sa[..|a|] && b == sb[..|b|];
    assert restA == sa[|a| + 3..] && restB == sb[|b| + 3..];
  }

  /** The printed form tells coordinates apart. */
  lemma PosToStringInjective(p: Pos, q: Pos)
    requires PosToString(p) == PosToString(q)
    ensures p == q
  {
    var xp, yp := Text.IntToString(p.x), Text.IntToString(p.y);
    var xq, yq := Text.IntToString(q.x), Text.IntToString(q.y);
    assert PosToString(p) == "(" + (xp + " , " + (yp + ")"));
    assert PosToString(q) == "(" + (xq + " , " + (yq + ")"));
    assert xp + " , " + (yp + ")") == PosToString(p)[1..] == PosToString(q)[1..] == xq + " , " + (yq + ")");
    if ' ' in xp {
      IntToStringInjective(p.x, p.x);
    }
    if ' ' in xq {
      IntToStringInjective(q.x, q.x);
    }
    FieldBeforeSeparator(xp, xq, yp + ")", yq + ")");
    assert yp == (yp + ")")[..|yp|] && yq == (yq + ")")[..|yq|];
    IntToStringInjective(p.x, q.x);
    IntToStringInjective(p.y, q.y);
  }

  class Coordinates {
    var x: int
    var y: int

    function Value(): Pos
      reads this
    {
      Pos(x, y)
    }

    /** The no-argument constructor of the gridobject generation. */
    constructor Origin()
      ensures Value() == Pos(0, 0)
    {
      x, y := 0, 0;
    }

    constructor (x: int, y: int)
      ensures Value() == Pos(x, y)
    {
      this.x, this.y := x, y;
    }

    function ToString(): string
      reads this
    {
      PosToString(Value())
    }

    /** The private `map`: applies `fx` to x and `fy` to y. */
    method Map(fx: int -> int, fy: int -> int)
      modifies this
      ensures Value() == Pos(fx(old(x)), fy(old(y)))
    {
      x := fx(x);
      y := fy(y);
    }

    method Set(x: int, y: int)
      modifies this
      ensures Value() == Pos(x, y)
    {
      Map(_ => x, _ => y);
    }

    method Add(dx: int, dy: int)
      modifies this
      ensures Value() == old(Value()).Plus(Pos(dx, dy))
    {
      Map(n => n + dx, n => n + dy);
    }

    method SetCoordinates(c: Coordinates)
      modifies this
      ensures Value() == old(c.Value())
    {
      Set(c.x, c.y);
    }

    method AddCoordinates(c: Coordinates)
      modifies this
      ensures Value() == old(Value()).Plus(old(c.Value()))
    {
      Add(c.x, c.y);
    }

    method Mapped(fx: int -> int, fy: int -> int) returns (c: Coordinates)
      ensures fresh(c) && c.Value() == Pos(fx(x), fy(y))
    {
      c := new Coordinates(x, y);
      c.Map(fx, fy);
    }

    method MappedBoth(f: int -> int) returns (c: Coordinates)
      ensures fresh(c) && c.Value() == Pos(f(x), f(y))
    {
      c := Mapped(f, f);
    }

    /** A value-equal, independent object: later changes to either side do not reach the other. */
    method Copy() returns (c: Coordinates)
      ensures fresh(c) && c.Value() == Value()
    {
      c := MappedBoth(n => n);
    }

    method AddedTo(dx: int, dy: int) returns (c: Coordinates)
      ensures fresh(c) && c.Value() == Value().Plus(Pos(dx, dy))
    {
      c := Mapped(n => n + dx, n => n + dy);
    }

    method AddedToCoordinates(d: Coordinates) returns (c: Coordinates)
      ensures fresh(c) && c.Value() == Value().Plus(d.Value())
    {
      c := AddedTo(d.x, d.y);
    }
  }

  /** A copy does not follow later mutation of its origin, nor the origin of the copy. */
  method CopyIsIndependent(a: Coordinates, dx: int, dy: int) returns (b: Coordinates)
    modifies a
    ensures fresh(b) && b.Value() == old(a.Value())
    ensures a.Value() == old(a.Value()).Plus(Pos(dx, dy))
  {
    b := a.Copy();
    a.Add(dx, dy);
  }
}
