/**
 * Shared vocabulary of the game model: optional values, 2D world points with
 * exact real coordinates, and the five direction values agents use
 * (Vector2.zero and the four unit vectors).
 */
module Common {

  datatype Option<+T> = None | Some(value: T)

  /** A point or a vector of the 2D world (Unity's Vector2), with real coordinates. */
  datatype Vec = Vec(x: real, y: real)

  const Origin: Vec := Vec(0.0, 0.0)

  function Add(a: Vec, b: Vec): Vec { Vec(a.x + b.x, a.y + b.y) }

  function Sub(a: Vec, b: Vec): Vec { Vec(a.x - b.x, a.y - b.y) }

  function Scale(k: real, a: Vec): Vec { Vec(k * a.x, k * a.y) }

  function Neg(a: Vec): Vec { Vec(-a.x, -a.y) }

  /** Squared Euclidean distance; comparing it is comparing Vector2.Distance. */
  function SqDist(a: Vec, b: Vec): real
  {
    (a.x - b.x) * (a.x - b.x) + (a.y - b.y) * (a.y - b.y)
  }

  /** A movement direction: Vector2.zero or one of the four unit vectors. */
  datatype Dir = Zero | Up | Down | Left | Right {

    function Unit(): Vec
    {
      match this
      case Zero => Origin
      case Up => Vec(0.0, 1.0)
      case Down => Vec(0.0, -1.0)
      case Left => Vec(-1.0, 0.0)
      case Right => Vec(1.0, 0.0)
    }

    /** The direction whose vector is the negation of this one's. */
    function Reverse(): Dir
    {
      match this
      case Zero => Zero
      case Up => Down
      case Down => Up
      case Left => Right
      case Right => Left
    }
  }

  /** The four cardinal directions in the order the source scans them. */
  const Cardinals: seq<Dir> := [Up, Down, Left, Right]

  /** A wall query: is the straight segment between two points obstructed? */
  type Blocked = (Vec, Vec) -> bool

  /** The feasibility probe half a unit ahead in direction d. */
  function Probe(pos: Vec, d: Dir): Vec
  {
    Add(pos, Scale(0.5, d.Unit()))
  }

  /** Comparing directions as values is comparing them as vectors, and
      Reverse is vector negation, so `dir == -direction` is `dir == direction.Reverse()`. */
  lemma ReverseIsNegation(d: Dir, e: Dir)
    ensures d.Reverse().Unit() == Neg(d.Unit())
    ensures e.Unit() == Neg(d.Unit()) <==> e == d.Reverse()
    ensures e.Unit() == d.Unit() <==> e == d
  {
    NegatedUnit(d);
    if e.Unit() == d.Reverse().Unit() {
      UnitInjective(e, d.Reverse());
    }
    if e.Unit() == d.Unit() {
      UnitInjective(e, d);
    }
  }

  /** Reverse negates the vector. */
  lemma NegatedUnit(d: Dir)
    ensures d.Reverse().Unit() == Neg(d.Unit())
  {
  }

  /** No two directions share a vector. */
  lemma UnitInjective(d: Dir, e: Dir)
    requires d.Unit() == e.Unit()
    ensures d == e
  {
    UnitCoordinates(d);
    UnitCoordinates(e);
  }

  /** Each direction's vector, coordinate by coordinate. */
  lemma UnitCoordinates(e: Dir)
    ensures e.Unit().x == 0.0 <==> e in {Zero, Up, Down}
    ensures e.Unit().y == 0.0 <==> e in {Zero, Left, Right}
    ensures e.Unit().x == 1.0 <==> e == Right
    ensures e.Unit().x == -1.0 <==> e == Left
    ensures e.Unit().y == 1.0 <==> e == Up
    ensures e.Unit().y == -1.0 <==> e == Down
  {
  }

  lemma CardinalsAreTheNonZeroDirections(d: Dir)
    ensures d in Cardinals <==> d != Zero
    ensures d != Zero ==> d.Reverse() != Zero && d.Reverse().Reverse() == d
  {
  }
}
