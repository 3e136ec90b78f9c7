/**
 Swept collision of axis-aligned boxes over the reals (src/collision.cpp): the test of one moving box
 against one static box, and the search for the nearest collision among many.
 */
module Collision {

  datatype Axis = X | Y | Z

  datatype Vec = Vec(x: real, y: real, z: real) {
    function At(a: Axis): real {
      match a
      case X => x
      case Y => y
      case Z => z
    }
  }

  datatype Box = Box(min: Vec, max: Vec)

  datatype CollisionAxis = None | On(axis: Axis)

  function Max(a: real, b: real): real {
    if a < b then b else a
  }

  function Min(a: real, b: real): real {
    if b < a then b else a
  }

  function Abs(a: real): real {
    if a < 0.0 then -a else a
  }

  function Width(b: Box, a: Axis): real {
    b.max.At(a) - b.min.At(a)
  }

  predicate Solid(b: Box) {
    Width(b, X) > 0.0 && Width(b, Y) > 0.0 && Width(b, Z) > 0.0
  }

  function Others(a: Axis): (Axis, Axis) {
    match a
    case X => (Y, Z)
    case Y => (X, Z)
    case Z => (X, Y)
  }

  function Times(a: real, b: real): real {
    a * b
  }

  /** The position at time `t` of a coordinate that starts at `c` and moves at `speed`. */
  function Moved(c: real, speed: real, t: real): real {
    c + Times(speed, t)
  }

  /**
   The extent of both boxes along an axis at time `t`, less the sum of their widths: the width of the
   gap between them, or minus the depth of their overlap.
   */
  function Distance(s: Box, m: Box, v: Vec, a: Axis, t: real): real {
    Max(Moved(m.max.At(a), v.At(a), t), s.max.At(a)) - Min(Moved(m.min.At(a), v.At(a), t), s.min.At(a))
      - (Width(m, a) + Width(s, a))
  }

  /** When the gap along an axis would be closed. */
  function Dtime(s: Box, m: Box, v: Vec, a: Axis): real
    requires v.At(a) != 0.0
  {
    Distance(s, m, v, a, 0.0) / Abs(v.At(a))
  }

  /** How deep an overlap along an axis still counts as facing. */
  function InnerMargin(s: Box, a: Axis): real {
    Max(-0.5 * Width(s, a), -2.0)
  }

  predicate Facing(s: Box, m: Box, v: Vec, a: Axis) {
    || (v.At(a) > 0.0 && s.min.At(a) - m.max.At(a) > InnerMargin(s, a))
    || (v.At(a) < 0.0 && m.min.At(a) - s.max.At(a) > InnerMargin(s, a))
  }

  /** The code's condition for a collision on an axis. */
  predicate Hits(s: Box, m: Box, v: Vec, a: Axis, limit: real) {
    && v.At(a) != 0.0
    && Dtime(s, m, v, a) <= limit
    && Facing(s, m, v, a)
    && Distance(s, m, v, Others(a).0, Max(Dtime(s, m, v, a), 0.0)) < 0.0
    && Distance(s, m, v, Others(a).1, Max(Dtime(s, m, v, a), 0.0)) < 0.0
  }

  /** The axis closes too late for any collision before `limit`. */
  predicate TooLate(s: Box, m: Box, v: Vec, a: Axis, limit: real) {
    v.At(a) != 0.0 && Dtime(s, m, v, a) > limit
  }

  function Collide(s: Box, m: Box, v: Vec, limit: real): CollisionAxis {
    if TooLate(s, m, v, Y, limit) then None
    else if Hits(s, m, v, Y, limit) then On(Y)
    else if TooLate(s, m, v, X, limit) then None
    else if Hits(s, m, v, X, limit) then On(X)
    else if Hits(s, m, v, Z, limit) then On(Z)
    else None
  }

  /** One of the three blocks of axisAlignedCollision. */
  method TryAxis(s: Box, m: Box, v: Vec, a: Axis, dtimeMax: real, before: real)
    returns (hit: bool, late: bool, dtime: real)
    ensures hit == Hits(s, m, v, a, dtimeMax)
    ensures late == TooLate(s, m, v, a, dtimeMax)
    ensures dtime == if v.At(a) != 0.0 then Dtime(s, m, v, a) else before
  {
    hit, late, dtime := false, false, before;
    if v.At(a) != 0.0 {
      var relMin := Width(m, a) + Width(s, a);
      var relMax := Max(m.max.At(a), s.max.At(a)) - Min(m.min.At(a), s.min.At(a));
      dtime := (relMax - relMin) / Abs(v.At(a));
      var time := Max(dtime, 0.0);
      if dtime <= dtimeMax {
        if Facing(s, m, v, a) {
          var (b, c) := Others(a);
          hit := Distance(s, m, v, b, time) < 0.0 && Distance(s, m, v, c, time) < 0.0;
        }
      } else {
        late := true;
      }
    }
  }

  /** axisAlignedCollision */
  method AxisAlignedCollision(s: Box, m: Box, v: Vec, dtimeMax: real) returns (r: CollisionAxis, dtime: real)
    ensures r == Collide(s, m, v, dtimeMax)
    ensures r.On? ==> v.At(r.axis) != 0.0 && dtime == Dtime(s, m, v, r.axis)
  {
    var hit, late;
    hide *;
    hit, late, dtime := TryAxis(s, m, v, Y, dtimeMax, dtimeMax);
    HitsMoves(s, m, v, dtimeMax);
    CollideIs(s, m, v, dtimeMax);
    if hit {
      return On(Y), dtime;
    }
    if late {
      return None, dtime;
    }
    hit, late, dtime := TryAxis(s, m, v, X, dtimeMax, dtime);
    if hit {
      return On(X), dtime;
    }
    if late {
      return None, dtime;
    }
    hit, late, dtime := TryAxis(s, m, v, Z, dtimeMax, dtime);
    if hit {
      return On(Z), dtime;
    }
    return None, dtime;
  }

  lemma HitsMoves(s: Box, m: Box, v: Vec, limit: real)
    ensures forall a :: Hits(s, m, v, a, limit) ==> v.At(a) != 0.0 && !TooLate(s, m, v, a, limit)
  {
  }

  lemma CollideIs(s: Box, m: Box, v: Vec, limit: real)
    ensures Collide(s, m, v, limit) ==
      if TooLate(s, m, v, Y, limit) then None
      else if Hits(s, m, v, Y, limit) then On(Y)
      else if TooLate(s, m, v, X, limit) then None
      else if Hits(s, m, v, X, limit) then On(X)
      else if Hits(s, m, v, Z, limit) then On(Z)
      else None
  {
  }

  // ---------------------------------------------------------------- what a collision means

  /** The boxes overlap with positive depth along an axis at time `t`. */
  predicate Overlaps(s: Box, m: Box, v: Vec, a: Axis, t: real) {
    Moved(m.min.At(a), v.At(a), t) < s.max.At(a) && s.min.At(a) < Moved(m.max.At(a), v.At(a), t)
  }

  /** The interiors intersect at time `t`. */
  predicate Meets(s: Box, m: Box, v: Vec, t: real) {
    Overlaps(s, m, v, X, t) && Overlaps(s, m, v, Y, t) && Overlaps(s, m, v, Z, t)
  }

  /** The facing edges on an axis touch at time `t`, moving towards each other. */
  predicate Closes(s: Box, m: Box, v: Vec, a: Axis, t: real) {
    || (v.At(a) > 0.0 && Moved(m.max.At(a), v.At(a), t) == s.min.At(a))
    || (v.At(a) < 0.0 && Moved(m.min.At(a), v.At(a), t) == s.max.At(a))
  }

  /** The faces on axis `a` come into contact at time `t`. */
  predicate Contact(s: Box, m: Box, v: Vec, a: Axis, t: real) {
    && Closes(s, m, v, a, t)
    && Overlaps(s, m, v, Others(a).0, t)
    && Overlaps(s, m, v, Others(a).1, t)
  }

  lemma DistanceMeans(s: Box, m: Box, v: Vec, a: Axis, t: real)
    requires Solid(s) && Solid(m)
    ensures Distance(s, m, v, a, t) < 0.0 <==> Overlaps(s, m, v, a, t)
  {
  }

  lemma MovedTwice(c: real, speed: real, t: real, u: real)
    ensures Moved(c, speed, u) == Moved(c, speed, t) + Times(speed, u - t)
    ensures Moved(c, speed, 0.0) == c
  {
  }

  lemma Quotient(d: real, w: real, t: real)
    requires w != 0.0
    ensures t == d / w <==> Times(w, t) == d
  {
  }

  lemma Signs(w: real, t: real)
    ensures w > 0.0 ==> (Times(w, t) > 0.0 <==> t > 0.0) && (Times(w, t) < 0.0 <==> t < 0.0)
    ensures w < 0.0 ==> (Times(w, t) > 0.0 <==> t < 0.0) && (Times(w, t) < 0.0 <==> t > 0.0)
    ensures w == 0.0 ==> Times(w, t) == 0.0
    ensures Times(-w, t) == Times(w, -t) == -Times(w, t)
    ensures Times(Abs(w), t) == if w < 0.0 then -Times(w, t) else Times(w, t)
  {
  }

  /** Before the closing time there is no overlap on the axis, and at that time there is none yet. */
  lemma NoOverlapBefore(s: Box, m: Box, v: Vec, a: Axis, t: real, u: real)
    requires Closes(s, m, v, a, t) && u <= t
    ensures !Overlaps(s, m, v, a, u)
  {
    var w := v.At(a);
    MovedTwice(m.max.At(a), w, t, u);
    MovedTwice(m.min.At(a), w, t, u);
    Signs(w, u - t);
    hide Times;
  }

  /** The gap between two intervals that lie apart, for a move by `p`. */
  lemma Gap(mlo: real, mhi: real, slo: real, shi: real, p: real, inner: real)
    requires mlo < mhi && slo < shi && (shi <= mlo || mhi <= slo)
    requires -0.5 * (shi - slo) <= inner < 0.0
    ensures var gap := Max(mhi, shi) - Min(mlo, slo) - ((mhi - mlo) + (shi - slo));
      && gap >= 0.0
      && (slo - mhi > inner ==> (mhi + p == slo <==> p == gap))
      && (mlo - shi > inner ==> (mlo + p == shi <==> -p == gap))
      && (mhi + p == slo && p >= 0.0 ==> slo - mhi > inner)
      && (mlo + p == shi && p <= 0.0 ==> mlo - shi > inner)
  {
  }

  /** An axis that starts apart and faces closes when it has moved by its gap. */
  lemma GapCloses(s: Box, m: Box, v: Vec, a: Axis, t: real)
    requires Solid(s) && Solid(m) && v.At(a) != 0.0
    requires !Overlaps(s, m, v, a, 0.0)
    ensures Distance(s, m, v, a, 0.0) >= 0.0
    ensures Facing(s, m, v, a) ==> (Closes(s, m, v, a, t) <==> Times(Abs(v.At(a)), t) == Distance(s, m, v, a, 0.0))
    ensures Closes(s, m, v, a, t) && t >= 0.0 ==> Facing(s, m, v, a)
  {
    var w := v.At(a);
    assert Width(s, a) > 0.0 && Width(m, a) > 0.0;
    MovedTwice(m.max.At(a), w, 0.0, 0.0);
    MovedTwice(m.min.At(a), w, 0.0, 0.0);
    Signs(w, t);
    Gap(m.min.At(a), m.max.At(a), s.min.At(a), s.max.At(a), Times(w, t), InnerMargin(s, a));
    hide Abs, InnerMargin, Max, Min, Times;
  }

  /** The time of an axis that starts apart and faces is its closing time, and the other way round. */
  lemma DtimeCloses(s: Box, m: Box, v: Vec, a: Axis, t: real)
    requires Solid(s) && Solid(m) && v.At(a) != 0.0
    requires !Overlaps(s, m, v, a, 0.0)
    ensures Facing(s, m, v, a) && t == Dtime(s, m, v, a) <==> Closes(s, m, v, a, t) && t >= 0.0
  {
    GapCloses(s, m, v, a, t);
    assert Abs(v.At(a)) > 0.0;
    Quotient(Distance(s, m, v, a, 0.0), Abs(v.At(a)), t);
    Signs(Abs(v.At(a)), t);
    hide Distance, Facing, Closes, Overlaps, Abs, Times;
  }

  lemma DistanceGrows(s: Box, m: Box, v: Vec, a: Axis, t: real)
    requires t >= 0.0
    ensures Distance(s, m, v, a, 0.0) <= Distance(s, m, v, a, t) + Times(Abs(v.At(a)), t)
  {
    var w := v.At(a);
    MovedTwice(m.max.At(a), w, 0.0, t);
    MovedTwice(m.min.At(a), w, 0.0, t);
    Signs(w, t);
    hide Times;
  }

  /** An axis that overlaps at time `t` has closed before. */
  lemma DtimeBefore(s: Box, m: Box, v: Vec, a: Axis, t: real)
    requires t >= 0.0 && v.At(a) != 0.0 && Distance(s, m, v, a, t) < 0.0
    ensures Dtime(s, m, v, a) < t
  {
    DistanceGrows(s, m, v, a, t);
    var d, w := Distance(s, m, v, a, 0.0), Abs(v.At(a));
    assert w > 0.0;
    Quotient(d, w, d / w);
    Signs(w, d / w - t);
    TimesMinus(w, d / w, t);
    hide Times, Distance, Abs;
  }

  lemma TimesMinus(w: real, t: real, u: real)
    ensures Times(w, t - u) == Times(w, t) - Times(w, u)
  {
  }

  ghost predicate Reported(s: Box, m: Box, v: Vec, limit: real, a: Axis, t: real) {
    Collide(s, m, v, limit) == On(a) && v.At(a) != 0.0 && t == Dtime(s, m, v, a)
  }

  lemma HitOverlapping(s: Box, m: Box, v: Vec, a: Axis, limit: real)
    requires Solid(s) && Solid(m) && Hits(s, m, v, a, limit) && !Meets(s, m, v, 0.0)
    ensures !Overlaps(s, m, v, a, 0.0) && Dtime(s, m, v, a) >= 0.0
  {
    var t := Dtime(s, m, v, a);
    DistanceMeans(s, m, v, a, 0.0);
    Quotient(Distance(s, m, v, a, 0.0), Abs(v.At(a)), t);
    Signs(Abs(v.At(a)), t);
    hide Times;
    DistanceMeans(s, m, v, Others(a).0, 0.0);
    DistanceMeans(s, m, v, Others(a).1, 0.0);
  }

  lemma HitIsContact(s: Box, m: Box, v: Vec, a: Axis, limit: real)
    requires Solid(s) && Solid(m) && !Meets(s, m, v, 0.0)
    requires Hits(s, m, v, a, limit)
    ensures Contact(s, m, v, a, Dtime(s, m, v, a)) && 0.0 <= Dtime(s, m, v, a) <= limit
  {
    var t := Dtime(s, m, v, a);
    HitOverlapping(s, m, v, a, limit);
    DtimeCloses(s, m, v, a, t);
    DistanceMeans(s, m, v, Others(a).0, t);
    DistanceMeans(s, m, v, Others(a).1, t);
  }

  lemma ContactIsHit(s: Box, m: Box, v: Vec, a: Axis, limit: real, t: real)
    requires Solid(s) && Solid(m)
    requires Contact(s, m, v, a, t) && 0.0 <= t <= limit
    ensures Hits(s, m, v, a, limit) && t == Dtime(s, m, v, a)
  {
    NoOverlapBefore(s, m, v, a, t, 0.0);
    DtimeCloses(s, m, v, a, t);
    DistanceMeans(s, m, v, Others(a).0, t);
    DistanceMeans(s, m, v, Others(a).1, t);
  }

  /** An axis other than the one in contact neither ends the search nor is reported. */
  lemma OthersPass(s: Box, m: Box, v: Vec, a: Axis, limit: real, t: real, b: Axis)
    requires Solid(s) && Solid(m) && a != b
    requires Contact(s, m, v, a, t) && 0.0 <= t <= limit
    ensures !TooLate(s, m, v, b, limit) && !Hits(s, m, v, b, limit)
  {
    assert Overlaps(s, m, v, b, t);
    DistanceMeans(s, m, v, b, t);
    if v.At(b) != 0.0 {
      DtimeBefore(s, m, v, b, t);
      var u := Max(Dtime(s, m, v, b), 0.0);
      NoOverlapBefore(s, m, v, a, t, u);
      DistanceMeans(s, m, v, a, u);
    }
  }

  /**
   For solid boxes that do not intersect at the start, the test reports exactly the contact of two
   facing faces within the time limit, with its axis and time.
   */
  lemma ReportsContact(s: Box, m: Box, v: Vec, limit: real, a: Axis, t: real)
    requires Solid(s) && Solid(m) && !Meets(s, m, v, 0.0)
    ensures Reported(s, m, v, limit, a, t) <==> Contact(s, m, v, a, t) && 0.0 <= t <= limit
  {
    if Reported(s, m, v, limit, a, t) {
      HitIsContact(s, m, v, a, limit);
    }
    if Contact(s, m, v, a, t) && 0.0 <= t <= limit {
      ContactIsHit(s, m, v, a, limit, t);
      var (b, c) := Others(a);
      OthersPass(s, m, v, a, limit, t, b);
      OthersPass(s, m, v, a, limit, t, c);
      HitsMoves(s, m, v, limit);
      hide Hits, TooLate;
    }
  }

  // ---------------------------------------------------------------- contact and intersection

  /** An overlap lasts for a while. */
  lemma Lasts(s: Box, m: Box, v: Vec, a: Axis, t: real) returns (d: real)
    requires Overlaps(s, m, v, a, t)
    ensures d > 0.0 && forall u :: t <= u <= t + d ==> Overlaps(s, m, v, a, u)
  {
    var w := v.At(a);
    var slack := Min(s.max.At(a) - Moved(m.min.At(a), w, t), Moved(m.max.At(a), w, t) - s.min.At(a));
    d := slack / (Abs(w) + 1.0);
    Quotient(slack, Abs(w) + 1.0, d);
    forall u | t <= u <= t + d
      ensures Overlaps(s, m, v, a, u)
    {
      MovedTwice(m.max.At(a), w, t, u);
      MovedTwice(m.min.At(a), w, t, u);
      MovesLess(w, u - t, d, slack);
    }
  }

  lemma MovesLess(w: real, e: real, d: real, slack: real)
    requires 0.0 <= e <= d && Times(Abs(w) + 1.0, d) == slack && slack > 0.0
    ensures -slack < Times(w, e) < slack
  {
    assert d > 0.0;
    assert Abs(w) * e <= Abs(w) * d;
    assert d * (Abs(w) + 1.0) == Abs(w) * d + d;
    assert w * e == Abs(w) * e || w * e == -(Abs(w) * e);
  }

  /** Once the facing edges touch, there is overlap right after. */
  lemma ClosesThenOverlaps(s: Box, m: Box, v: Vec, a: Axis, t: real) returns (d: real)
    requires Solid(s) && Solid(m) && Closes(s, m, v, a, t)
    ensures d > 0.0 && forall u :: t < u <= t + d ==> Overlaps(s, m, v, a, u)
  {
    var w := v.At(a);
    var slack := Width(s, a) + Width(m, a);
    assert Width(s, a) > 0.0 && Width(m, a) > 0.0;
    d := slack / (Abs(w) + 1.0);
    Quotient(slack, Abs(w) + 1.0, d);
    forall u | t < u <= t + d
      ensures Overlaps(s, m, v, a, u)
    {
      MovedTwice(m.max.At(a), w, t, u);
      MovedTwice(m.min.At(a), w, t, u);
      MovesLess(w, u - t, d, slack);
      Signs(w, u - t);
    }
  }

  /** Up to a contact the interiors are apart, and right after it they intersect. */
  lemma ContactIsFirst(s: Box, m: Box, v: Vec, a: Axis, t: real) returns (end: real)
    requires Solid(s) && Solid(m) && Contact(s, m, v, a, t)
    ensures forall u :: u <= t ==> !Meets(s, m, v, u)
    ensures end > t && forall u :: t < u <= end ==> Meets(s, m, v, u)
  {
    forall u | u <= t
      ensures !Meets(s, m, v, u)
    {
      NoOverlapBefore(s, m, v, a, t, u);
    }
    var (b, c) := Others(a);
    var d := ClosesThenOverlaps(s, m, v, a, t);
    var e := Lasts(s, m, v, b, t);
    var f := Lasts(s, m, v, c, t);
    hide Overlaps;
    end := t + Min(d, Min(e, f));
    forall u | t < u <= end
      ensures Meets(s, m, v, u)
    {
      assert Overlaps(s, m, v, a, u) && Overlaps(s, m, v, b, u) && Overlaps(s, m, v, c, u);
    }
  }

  /** When the facing edges of an axis touch. */
  function ClosingTime(s: Box, m: Box, v: Vec, a: Axis): real
    requires v.At(a) != 0.0
  {
    if v.At(a) > 0.0 then (s.min.At(a) - m.max.At(a)) / v.At(a) else (s.max.At(a) - m.min.At(a)) / v.At(a)
  }

  lemma ClosesOn(c: real, target: real, w: real, t: real)
    requires w != 0.0
    ensures Moved(c, w, t) == target <==> t == (target - c) / w
  {
    Quotient(target - c, w, t);
  }

  lemma ClosesAt(s: Box, m: Box, v: Vec, a: Axis, t: real)
    requires v.At(a) != 0.0
    ensures Closes(s, m, v, a, t) <==> t == ClosingTime(s, m, v, a)
  {
    var w := v.At(a);
    ClosesOn(m.max.At(a), s.min.At(a), w, t);
    ClosesOn(m.min.At(a), s.max.At(a), w, t);
    hide Moved;
  }

  /** An axis that overlaps at `t` does so from its closing time on. */
  lemma OverlapsSince(s: Box, m: Box, v: Vec, a: Axis, t: real, u: real)
    requires Overlaps(s, m, v, a, t) && u <= t
    requires v.At(a) != 0.0 ==> ClosingTime(s, m, v, a) < u
    ensures Overlaps(s, m, v, a, u)
  {
    var w := v.At(a);
    MovedTwice(m.max.At(a), w, u, t);
    MovedTwice(m.min.At(a), w, u, t);
    if w != 0.0 {
      var c := ClosingTime(s, m, v, a);
      ClosesAt(s, m, v, a, c);
      MovedTwice(m.max.At(a), w, c, u);
      MovedTwice(m.min.At(a), w, c, u);
      Signs(w, u - c);
    }
    Signs(w, t - u);
    hide Times, ClosingTime;
  }

  lemma ClosesBeforeOverlap(s: Box, m: Box, v: Vec, a: Axis, t: real)
    requires Overlaps(s, m, v, a, t) && v.At(a) != 0.0
    ensures ClosingTime(s, m, v, a) < t
  {
    var c := ClosingTime(s, m, v, a);
    ClosesAt(s, m, v, a, c);
    if t <= c {
      NoOverlapBefore(s, m, v, a, c, t);
    }
  }

  /** Axis `a` is the last one to close. */
  predicate Last(s: Box, m: Box, v: Vec, a: Axis) {
    v.At(a) != 0.0 && forall b: Axis :: v.At(b) != 0.0 ==> ClosingTime(s, m, v, b) <= ClosingTime(s, m, v, a)
  }

  /** Two axes close at the same instant, and none later. */
  predicate Tied(s: Box, m: Box, v: Vec) {
    exists a: Axis, b: Axis :: a != b && Last(s, m, v, a) && Last(s, m, v, b)
  }

  /**
   A sweep that ends in an intersection is reported, no later than that, exactly when the first
   contact is on a single axis.
   */
  lemma ReportedUnlessTied(s: Box, m: Box, v: Vec, limit: real, t: real)
    requires Solid(s) && Solid(m) && !Meets(s, m, v, 0.0)
    requires 0.0 <= t <= limit && Meets(s, m, v, t)
    ensures Collide(s, m, v, limit).On? <==> !Tied(s, m, v)
    ensures forall a, u :: Reported(s, m, v, limit, a, u) ==> 0.0 <= u < t
  {
    var last := SomeLast(s, m, v, t);
    if !Tied(s, m, v) {
      LastIsContact(s, m, v, last, t);
      ReportsContact(s, m, v, limit, last, ClosingTime(s, m, v, last));
    }
    HitsMoves(s, m, v, limit);
    forall a, u | Reported(s, m, v, limit, a, u)
      ensures 0.0 <= u < t && !Tied(s, m, v)
    {
      ReportsContact(s, m, v, limit, a, u);
      ContactIsOnlyLast(s, m, v, a, u);
      ClosesBeforeOverlap(s, m, v, a, t);
    }
    if Collide(s, m, v, limit).On? {
      var a := Collide(s, m, v, limit).axis;
      assert v.At(a) != 0.0;
      assert Reported(s, m, v, limit, a, Dtime(s, m, v, a));
    }
  }

  lemma SomeLast(s: Box, m: Box, v: Vec, t: real) returns (a: Axis)
    requires !Meets(s, m, v, 0.0) && 0.0 <= t && Meets(s, m, v, t)
    ensures Last(s, m, v, a) && ClosingTime(s, m, v, a) >= 0.0
  {
    a := if !Overlaps(s, m, v, X, 0.0) then X else if !Overlaps(s, m, v, Y, 0.0) then Y else Z;
    if v.At(a) == 0.0 || ClosingTime(s, m, v, a) < 0.0 {
      OverlapsSince(s, m, v, a, t, 0.0);
    }
    a := Later(s, m, v, X, a);
    a := Later(s, m, v, Y, a);
    a := Later(s, m, v, Z, a);
  }

  lemma Later(s: Box, m: Box, v: Vec, b: Axis, a: Axis) returns (c: Axis)
    requires v.At(a) != 0.0
    ensures v.At(c) != 0.0 && ClosingTime(s, m, v, c) >= ClosingTime(s, m, v, a)
    ensures v.At(b) != 0.0 ==> ClosingTime(s, m, v, c) >= ClosingTime(s, m, v, b)
  {
    c := if v.At(b) != 0.0 && ClosingTime(s, m, v, b) > ClosingTime(s, m, v, a) then b else a;
  }

  lemma LastIsContact(s: Box, m: Box, v: Vec, a: Axis, t: real)
    requires Last(s, m, v, a) && !Tied(s, m, v) && Meets(s, m, v, t)
    ensures Contact(s, m, v, a, ClosingTime(s, m, v, a)) && ClosingTime(s, m, v, a) < t
  {
    var c := ClosingTime(s, m, v, a);
    ClosesAt(s, m, v, a, c);
    ClosesBeforeOverlap(s, m, v, a, t);
    LastIsAlone(s, m, v, a, Others(a).0, t);
    LastIsAlone(s, m, v, a, Others(a).1, t);
  }

  lemma LastIsAlone(s: Box, m: Box, v: Vec, a: Axis, b: Axis, t: real)
    requires Last(s, m, v, a) && !Tied(s, m, v) && Meets(s, m, v, t) && a != b
    requires ClosingTime(s, m, v, a) < t
    ensures Overlaps(s, m, v, b, ClosingTime(s, m, v, a))
  {
    hide ClosingTime, Overlaps;
    assert v.At(b) != 0.0 && ClosingTime(s, m, v, b) >= ClosingTime(s, m, v, a) ==> Last(s, m, v, b);
    MeetsOn(s, m, v, b, t);
    OverlapsSince(s, m, v, b, t, ClosingTime(s, m, v, a));
  }

  lemma MeetsOn(s: Box, m: Box, v: Vec, a: Axis, t: real)
    requires Meets(s, m, v, t)
    ensures Overlaps(s, m, v, a, t)
  {
  }

  lemma ContactIsOnlyLast(s: Box, m: Box, v: Vec, a: Axis, t: real)
    requires Contact(s, m, v, a, t)
    ensures !Tied(s, m, v) && v.At(a) != 0.0 && t == ClosingTime(s, m, v, a)
  {
    ClosesAt(s, m, v, a, t);
    forall b: Axis | b != a && v.At(b) != 0.0
      ensures ClosingTime(s, m, v, b) < t
    {
      ClosesBeforeOverlap(s, m, v, b, t);
    }
    hide ClosingTime;
  }

  /** A box that moves diagonally into another, edge on. */
  predicate Corner(s: Box, m: Box, v: Vec) {
    && s == Box(Vec(0.0, 0.0, 0.0), Vec(1.0, 1.0, 1.0))
    && m == Box(Vec(-2.0, -2.0, 0.0), Vec(-1.0, -1.0, 1.0))
    && v == Vec(1.0, 1.0, 0.0)
  }

  lemma CornerMeets(s: Box, m: Box, v: Vec)
    requires Corner(s, m, v)
    ensures Solid(s) && Solid(m) && !Meets(s, m, v, 0.0) && Meets(s, m, v, 1.5)
  {
  }

  lemma CornerTies(s: Box, m: Box, v: Vec)
    requires Corner(s, m, v)
    ensures Tied(s, m, v)
  {
    assert ClosingTime(s, m, v, X) == 1.0 && ClosingTime(s, m, v, Y) == 1.0;
    assert v.At(Z) == 0.0;
    hide ClosingTime;
    assert Last(s, m, v, X) && Last(s, m, v, Y);
  }

  /** So the corner is passed without a report, although the boxes intersect. */
  lemma TieIsMissed() returns (s: Box, m: Box, v: Vec)
    ensures Solid(s) && Solid(m) && !Meets(s, m, v, 0.0)
    ensures Meets(s, m, v, 1.5) && Collide(s, m, v, 2.0) == None
  {
    s, m := Box(Vec(0.0, 0.0, 0.0), Vec(1.0, 1.0, 1.0)), Box(Vec(-2.0, -2.0, 0.0), Vec(-1.0, -1.0, 1.0));
    v := Vec(1.0, 1.0, 0.0);
    assert Corner(s, m, v);
    hide *;
    CornerMeets(s, m, v);
    CornerTies(s, m, v);
    ReportedUnlessTied(s, m, v, 2.0, 1.5);
  }

  /** How far the boxes overlap along an axis, seen from the side that the moving one comes from. */
  function Entered(s: Box, m: Box, v: Vec, a: Axis): real {
    if v.At(a) > 0.0 then m.max.At(a) - s.min.At(a) else s.max.At(a) - m.min.At(a)
  }

  /** An axis faces as long as the moving box is less than two units, and less than half of the other box, inside. */
  lemma FacingIff(s: Box, m: Box, v: Vec, a: Axis)
    ensures Facing(s, m, v, a)
       <==> v.At(a) != 0.0 && Entered(s, m, v, a) < 2.0 && Entered(s, m, v, a) < Width(s, a) / 2.0
  {
  }

  /** Boxes that intersect at the start: the first axis, in the order Y, X, Z, that faces is reported. */
  lemma ReportsOverlap(s: Box, m: Box, v: Vec, limit: real)
    requires Solid(s) && Solid(m) && Meets(s, m, v, 0.0) && limit >= 0.0
    ensures Collide(s, m, v, limit) ==
      if Facing(s, m, v, Y) then On(Y) else if Facing(s, m, v, X) then On(X)
      else if Facing(s, m, v, Z) then On(Z) else None
    ensures forall a: Axis :: v.At(a) != 0.0 ==> Dtime(s, m, v, a) < 0.0
  {
    forall a: Axis
      ensures !TooLate(s, m, v, a, limit) && (Hits(s, m, v, a, limit) <==> Facing(s, m, v, a))
      ensures v.At(a) != 0.0 ==> Dtime(s, m, v, a) < 0.0
    {
      DistanceMeans(s, m, v, a, 0.0);
      DistanceMeans(s, m, v, Others(a).0, 0.0);
      DistanceMeans(s, m, v, Others(a).1, 0.0);
      if v.At(a) != 0.0 {
        DtimeBefore(s, m, v, a, 0.0);
      }
    }
    hide Facing, Hits, TooLate;
  }

  // ---------------------------------------------------------------- the nearest of many boxes

  datatype Nearby = Nearby(box: Box, isStepUp: bool)

  /** What the search has found: no box, or the one with this index. */
  datatype Nearest = Nearest(axis: CollisionAxis, dtime: real, index: int)

  /** Box `i` alone would be hit at time `t`, before `dtime` has passed. */
  ghost predicate Candidate(cinfo: seq<Nearby>, m: Box, v: Vec, dtime: real, i: int, a: Axis, t: real) {
    0 <= i < |cinfo| && !cinfo[i].isStepUp && t < dtime && Reported(cinfo[i].box, m, v, dtime, a, t)
  }

  /** A limit at which an axis that is looked at before `a` ends the test. */
  predicate Blocked(s: Box, m: Box, v: Vec, a: Axis, limit: real) {
    (a != Y && TooLate(s, m, v, Y, limit)) || (a == Z && TooLate(s, m, v, X, limit))
  }

  /** Hit `n` comes before a hit of box `i` at time `t`. */
  predicate Before(n: Nearest, i: int, t: real) {
    n.dtime < t || (n.dtime == t && n.index <= i)
  }

  /** Box `j`, hit at time `u`, keeps the earlier hit of a later box `i` from being reported. */
  ghost predicate Hides(cinfo: seq<Nearby>, m: Box, v: Vec, dtime: real, i: int, a: Axis, t: real, j: int, b: Axis,
                        u: real) {
    0 <= i < |cinfo| && Candidate(cinfo, m, v, dtime, j, b, u) && t < u && Blocked(cinfo[i].box, m, v, a, u)
  }

  ghost predicate Hidden(cinfo: seq<Nearby>, m: Box, v: Vec, dtime: real, i: int, a: Axis, t: real) {
    exists j, b, u :: j < i && Hides(cinfo, m, v, dtime, i, a, t, j, b, u)
  }

  /**
   What a search over the first `k` boxes promises: it finds a box if any can be hit, and every box that
   would have been hit before that is hidden behind a box earlier in the list.
   */
  ghost predicate Searched(cinfo: seq<Nearby>, m: Box, v: Vec, dtime: real, k: int, n: Nearest) {
    if n.axis == None then
      n.dtime == dtime && n.index == -1 && forall i, a, t :: i < k ==> !Candidate(cinfo, m, v, dtime, i, a, t)
    else
      && n.index < k
      && Candidate(cinfo, m, v, dtime, n.index, n.axis.axis, n.dtime)
      && forall i, a, t :: i < k && Candidate(cinfo, m, v, dtime, i, a, t) ==>
        Before(n, i, t) || Hidden(cinfo, m, v, dtime, i, a, t)
  }

  /** What is left of the reports of a box when the limit is tightened. */
  lemma PruningExact(s: Box, m: Box, v: Vec, limit: real, tighter: real, a: Axis, t: real)
    requires tighter <= limit
    ensures Reported(s, m, v, tighter, a, t)
       <==> Reported(s, m, v, limit, a, t) && t <= tighter && !Blocked(s, m, v, a, tighter)
  {
    hide Dtime, Distance, Facing;
  }

  /** A tighter limit in the future does not change what is found before it. */
  lemma PruningKeeps(s: Box, m: Box, v: Vec, limit: real, tighter: real, a: Axis, t: real)
    requires Reported(s, m, v, limit, a, t) && t <= tighter <= limit && 0.0 <= tighter
    ensures Reported(s, m, v, tighter, a, t) && !Blocked(s, m, v, a, tighter)
  {
    PruningExact(s, m, v, limit, tighter, a, t);
    assert Hits(s, m, v, a, limit);
    var (b, c) := Others(a);
    if v.At(b) != 0.0 {
      DtimeBefore(s, m, v, b, Max(t, 0.0));
    }
    if v.At(c) != 0.0 {
      DtimeBefore(s, m, v, c, Max(t, 0.0));
    }
    hide Dtime, Distance, Facing;
  }

  /** A hit in the future is the earliest of all, and the first box among equals. */
  lemma {:induction false} FutureIsEarliest(cinfo: seq<Nearby>, m: Box, v: Vec, dtime: real, k: int, n: Nearest, i: int,
                                            a: Axis, t: real)
    requires Searched(cinfo, m, v, dtime, k, n) && n.axis.On? && n.dtime >= 0.0
    requires i < k && Candidate(cinfo, m, v, dtime, i, a, t)
    ensures Before(n, i, t)
    decreases i
  {
    hide Blocked, Reported;
    if !Before(n, i, t) {
      var j, b, u :| j < i && Hides(cinfo, m, v, dtime, i, a, t, j, b, u);
      if u >= 0.0 {
        PruningKeeps(cinfo[i].box, m, v, dtime, u, a, t);
      } else {
        FutureIsEarliest(cinfo, m, v, dtime, k, n, j, b, u);
      }
    }
  }

  /** A box that is leaving another upwards while it moves deeper into it sideways. */
  predicate Leaving(s: Box, m: Box, v: Vec) {
    && s == Box(Vec(0.0, 0.0, 0.0), Vec(2.0, 2.0, 2.0))
    && m == Box(Vec(-0.5, 1.75, 0.5), Vec(0.5, 2.75, 1.5))
    && v == Vec(1.0, 1.0, 0.0)
  }

  lemma LeavingFaces(s: Box, m: Box, v: Vec)
    requires Leaving(s, m, v)
    ensures Solid(s) && Solid(m) && Meets(s, m, v, 0.0)
    ensures !Facing(s, m, v, Y) && Facing(s, m, v, X)
  {
  }

  lemma LeavingDistance(s: Box, m: Box, v: Vec, a: Axis)
    requires Leaving(s, m, v)
    ensures a == X ==> Distance(s, m, v, a, 0.0) == -0.5
    ensures a == Y ==> Distance(s, m, v, a, 0.0) == -0.25
  {
    MovedTwice(m.max.At(a), v.At(a), 0.0, 0.0);
    MovedTwice(m.min.At(a), v.At(a), 0.0, 0.0);
    hide Moved, Times;
  }

  lemma DtimeAtUnitSpeed(s: Box, m: Box, v: Vec, a: Axis)
    requires v.At(a) == 1.0
    ensures Dtime(s, m, v, a) == Distance(s, m, v, a, 0.0)
  {
    var d := Distance(s, m, v, a, 0.0);
    assert Abs(v.At(a)) == 1.0;
    assert Times(1.0, d) == d;
    Quotient(d, 1.0, d);
    hide Distance, Abs, Times;
  }

  lemma LeavingTimes(s: Box, m: Box, v: Vec)
    requires Leaving(s, m, v)
    ensures v.At(X) != 0.0 && Dtime(s, m, v, X) == -0.5
    ensures v.At(Y) != 0.0 && Dtime(s, m, v, Y) == -0.25
  {
    hide Distance, Dtime;
    LeavingDistance(s, m, v, X);
    LeavingDistance(s, m, v, Y);
    DtimeAtUnitSpeed(s, m, v, X);
    DtimeAtUnitSpeed(s, m, v, Y);
  }

  /** What the search over the first `k` boxes finds. */
  function Search(cinfo: seq<Nearby>, m: Box, v: Vec, dtime: real, k: nat): Nearest
    requires k <= |cinfo|
  {
    if k == 0 then Nearest(None, dtime, -1)
    else
      var n, info := Search(cinfo, m, v, dtime, k - 1), cinfo[k - 1];
      var r := Collide(info.box, m, v, n.dtime);
      if info.isStepUp || r == None || TimeOn(info.box, m, v, r.axis) >= n.dtime then n
      else Nearest(r, TimeOn(info.box, m, v, r.axis), k - 1)
  }

  function TimeOn(s: Box, m: Box, v: Vec, a: Axis): real {
    if v.At(a) == 0.0 then 0.0 else Dtime(s, m, v, a)
  }

  lemma SearchSkips(cinfo: seq<Nearby>, m: Box, v: Vec, dtime: real, k: int, n: Nearest)
    requires 0 <= k < |cinfo| && Searched(cinfo, m, v, dtime, k, n) && n.dtime <= dtime
    requires cinfo[k].isStepUp || (forall a, t :: Reported(cinfo[k].box, m, v, n.dtime, a, t) ==> t >= n.dtime)
    ensures Searched(cinfo, m, v, dtime, k + 1, n)
  {
    hide Reported, Blocked;
    forall a, t | Candidate(cinfo, m, v, dtime, k, a, t)
      ensures n.axis.On? && (Before(n, k, t) || Hidden(cinfo, m, v, dtime, k, a, t))
    {
      PruningExact(cinfo[k].box, m, v, dtime, n.dtime, a, t);
      PruningExact(cinfo[k].box, m, v, dtime, dtime, a, t);
      if n.axis.On? && !Before(n, k, t) {
        assert Hides(cinfo, m, v, dtime, k, a, t, n.index, n.axis.axis, n.dtime);
      }
    }
  }

  lemma SearchTakes(cinfo: seq<Nearby>, m: Box, v: Vec, dtime: real, k: int, n: Nearest, a: Axis, t: real)
    requires 0 <= k < |cinfo| && Searched(cinfo, m, v, dtime, k, n) && n.dtime <= dtime
    requires !cinfo[k].isStepUp && t < n.dtime && Reported(cinfo[k].box, m, v, n.dtime, a, t)
    ensures Searched(cinfo, m, v, dtime, k + 1, Nearest(On(a), t, k))
  {
    PruningExact(cinfo[k].box, m, v, dtime, n.dtime, a, t);
    assert Candidate(cinfo, m, v, dtime, k, a, t);
    forall b, u | Candidate(cinfo, m, v, dtime, k, b, u)
      ensures t == u
    {
    }
    hide Reported, Hidden;
  }

  lemma {:induction false} SearchIsSearched(cinfo: seq<Nearby>, m: Box, v: Vec, dtime: real, k: nat)
    requires k <= |cinfo|
    ensures Searched(cinfo, m, v, dtime, k, Search(cinfo, m, v, dtime, k))
    ensures Search(cinfo, m, v, dtime, k).dtime <= dtime
  {
    if k > 0 {
      SearchIsSearched(cinfo, m, v, dtime, k - 1);
      var n, info := Search(cinfo, m, v, dtime, k - 1), cinfo[k - 1];
      ReportedOn(info.box, m, v, n.dtime);
      var r := Collide(info.box, m, v, n.dtime);
      hide Searched, Reported, Collide, TimeOn;
      if info.isStepUp || r == None || TimeOn(info.box, m, v, r.axis) >= n.dtime {
        SearchSkips(cinfo, m, v, dtime, k - 1, n);
      } else {
        SearchTakes(cinfo, m, v, dtime, k - 1, n, r.axis, TimeOn(info.box, m, v, r.axis));
      }
    }
  }

  /** Later boxes only lower the time. */
  lemma {:induction false} SearchLowers(cinfo: seq<Nearby>, m: Box, v: Vec, dtime: real, k: nat, l: nat)
    requires k <= l <= |cinfo|
    ensures var n, n' := Search(cinfo, m, v, dtime, k), Search(cinfo, m, v, dtime, l);
            n' == n || (n'.dtime < n.dtime && k <= n'.index)
  {
    hide Collide, TimeOn;
    if k < l {
      SearchLowers(cinfo, m, v, dtime, k, l - 1);
    }
  }

  /** The first of the earliest hits. */
  ghost predicate Earliest(cinfo: seq<Nearby>, m: Box, v: Vec, dtime: real, i: int, a: Axis, t: real) {
    && Candidate(cinfo, m, v, dtime, i, a, t)
    && forall j, b, u :: Candidate(cinfo, m, v, dtime, j, b, u) ==> t < u || (t == u && i <= j)
  }

  /** The search finds the earliest hit exactly when that is not blocked by what the boxes before it have
      left of the time. */
  lemma EarliestFoundIff(cinfo: seq<Nearby>, m: Box, v: Vec, dtime: real, i: int, a: Axis, t: real)
    requires Earliest(cinfo, m, v, dtime, i, a, t)
    ensures Search(cinfo, m, v, dtime, |cinfo|) == Nearest(On(a), t, i)
       <==> !Blocked(cinfo[i].box, m, v, a, Search(cinfo, m, v, dtime, i).dtime)
  {
    hide *;
    EarliestInReach(cinfo, m, v, dtime, i, a, t);
    var n', last := Search(cinfo, m, v, dtime, i + 1), Search(cinfo, m, v, dtime, |cinfo|);
    FoundAtItsTurn(cinfo, m, v, dtime, i, a, t);
    SearchLowers(cinfo, m, v, dtime, i + 1, |cinfo|);
    if n' == Nearest(On(a), t, i) {
      NoneEarlier(cinfo, m, v, dtime, i, a, t, |cinfo|);
    }
  }

  lemma EarliestInReach(cinfo: seq<Nearby>, m: Box, v: Vec, dtime: real, i: int, a: Axis, t: real)
    requires Earliest(cinfo, m, v, dtime, i, a, t)
    ensures 0 <= i < |cinfo| && Candidate(cinfo, m, v, dtime, i, a, t)
    ensures t < Search(cinfo, m, v, dtime, i).dtime <= dtime
  {
    var n := Search(cinfo, m, v, dtime, i);
    SearchIsSearched(cinfo, m, v, dtime, i);
    hide Reported, Hidden;
    assert n.axis.On? ==> Candidate(cinfo, m, v, dtime, n.index, n.axis.axis, n.dtime);
  }

  lemma NoneEarlier(cinfo: seq<Nearby>, m: Box, v: Vec, dtime: real, i: int, a: Axis, t: real, k: nat)
    requires Earliest(cinfo, m, v, dtime, i, a, t) && k <= |cinfo|
    ensures Search(cinfo, m, v, dtime, k).dtime >= t
  {
    var n := Search(cinfo, m, v, dtime, k);
    SearchIsSearched(cinfo, m, v, dtime, k);
    hide Reported, Hidden;
    assert n.axis.On? ==> Candidate(cinfo, m, v, dtime, n.index, n.axis.axis, n.dtime);
  }

  lemma FoundAtItsTurn(cinfo: seq<Nearby>, m: Box, v: Vec, dtime: real, i: int, a: Axis, t: real)
    requires 0 <= i < |cinfo| && Candidate(cinfo, m, v, dtime, i, a, t)
    requires t < Search(cinfo, m, v, dtime, i).dtime <= dtime
    ensures var n := Search(cinfo, m, v, dtime, i);
            Search(cinfo, m, v, dtime, i + 1) == Nearest(On(a), t, i) <==> !Blocked(cinfo[i].box, m, v, a, n.dtime)
  {
    var n, box := Search(cinfo, m, v, dtime, i), cinfo[i].box;
    PruningExact(box, m, v, dtime, n.dtime, a, t);
    ReportedOn(box, m, v, n.dtime);
    hide Blocked, Reported, Collide, TimeOn;
    if Search(cinfo, m, v, dtime, i + 1) == Nearest(On(a), t, i) {
      SearchLowers(cinfo, m, v, dtime, i, i + 1);
      assert Reported(box, m, v, n.dtime, a, t);
    }
  }

  /** So it is found whenever no box before it hides it. */
  lemma EarliestFound(cinfo: seq<Nearby>, m: Box, v: Vec, dtime: real, i: int, a: Axis, t: real)
    requires Earliest(cinfo, m, v, dtime, i, a, t) && !Hidden(cinfo, m, v, dtime, i, a, t)
    ensures Search(cinfo, m, v, dtime, |cinfo|) == Nearest(On(a), t, i)
  {
    SearchIsSearched(cinfo, m, v, dtime, |cinfo|);
    var last := Search(cinfo, m, v, dtime, |cinfo|);
    assert last.axis.On?;
    assert Candidate(cinfo, m, v, dtime, last.index, last.axis.axis, last.dtime);
    assert Reported(cinfo[i].box, m, v, dtime, a, t);
  }

  /** And a box that hides it does so whenever it comes right before it. */
  lemma HiddenBehind(cinfo: seq<Nearby>, m: Box, v: Vec, dtime: real, i: int, a: Axis, t: real, j: int, b: Axis,
                     u: real)
    requires Candidate(cinfo, m, v, dtime, i, a, t) && Hides(cinfo, m, v, dtime, i, a, t, j, b, u)
    ensures Search([cinfo[j], cinfo[i]], m, v, dtime, 2) == Nearest(On(b), u, 0)
  {
    var both := [cinfo[j], cinfo[i]];
    var first, second := cinfo[j].box, cinfo[i].box;
    assert Search(both, m, v, dtime, 0) == Nearest(None, dtime, -1);
    ReportedOn(first, m, v, dtime);
    ReportedOn(second, m, v, u);
    PruningExact(second, m, v, dtime, u, a, t);
    forall c, w | Reported(second, m, v, u, c, w)
      ensures false
    {
      PruningExact(second, m, v, dtime, u, c, w);
      SameReport(second, m, v, dtime, a, t, c, w);
    }
    hide Reported, Blocked, Collide, TimeOn;
    assert Search(both, m, v, dtime, 1) == Nearest(On(b), u, 0);
  }

  lemma SameReport(s: Box, m: Box, v: Vec, limit: real, a: Axis, t: real, b: Axis, u: real)
    requires Reported(s, m, v, limit, a, t) && Reported(s, m, v, limit, b, u)
    ensures a == b && t == u
  {
  }

  lemma ReportedOn(s: Box, m: Box, v: Vec, limit: real)
    ensures forall a, t ::
              Reported(s, m, v, limit, a, t) <==> Collide(s, m, v, limit) == On(a) && t == TimeOn(s, m, v, a)
  {
    HitsMoves(s, m, v, limit);
    hide Hits, TooLate, Dtime;
  }

  /** The search for the nearest collision in collisionMoveSimple. */
  method NearestCollision(cinfo: seq<Nearby>, m: Box, v: Vec, dtime: real) returns (n: Nearest)
    ensures n == Search(cinfo, m, v, dtime, |cinfo|)
    ensures Searched(cinfo, m, v, dtime, |cinfo|, n)
  {
    hide Collide, Searched, Dtime;
    n := Nearest(None, dtime, -1);
    for boxindex := 0 to |cinfo|
      invariant n == Search(cinfo, m, v, dtime, boxindex)
    {
      if cinfo[boxindex].isStepUp {
        continue;
      }
      var collided, dtimeTmp := AxisAlignedCollision(cinfo[boxindex].box, m, v, n.dtime);
      if collided == None || dtimeTmp >= n.dtime {
        continue;
      }
      n := Nearest(collided, dtimeTmp, boxindex);
    }
    SearchIsSearched(cinfo, m, v, dtime, |cinfo|);
  }

  /** Another box around it that is entered less deep. */
  predicate Surrounding(s: Box) {
    s == Box(Vec(0.125, 1.0, 0.0), Vec(2.125, 4.0, 2.0))
  }

  lemma SurroundingFaces(s: Box, m: Box, v: Vec, t: Box)
    requires Leaving(t, m, v) && Surrounding(s)
    ensures Solid(s) && Meets(s, m, v, 0.0)
    ensures !Facing(s, m, v, Y) && Facing(s, m, v, X)
  {
  }

  lemma SurroundingDistance(s: Box, m: Box, v: Vec, t: Box)
    requires Leaving(t, m, v) && Surrounding(s)
    ensures Distance(s, m, v, X, 0.0) == -0.375
  {
    MovedTwice(m.max.At(X), v.At(X), 0.0, 0.0);
    MovedTwice(m.min.At(X), v.At(X), 0.0, 0.0);
    hide Moved, Times;
  }

  lemma SurroundingTime(s: Box, m: Box, v: Vec, t: Box)
    requires Leaving(t, m, v) && Surrounding(s)
    ensures v.At(X) != 0.0 && Dtime(s, m, v, X) == -0.375
  {
    assert v.At(X) == 1.0;
    hide *;
    SurroundingDistance(s, m, v, t);
    DtimeAtUnitSpeed(s, m, v, X);
  }

  /** A box that faces on X only, entered to some depth. */
  lemma OverlapReported(s: Box, m: Box, v: Vec, t: real)
    requires Solid(s) && Solid(m) && Meets(s, m, v, 0.0) && !Facing(s, m, v, Y) && Facing(s, m, v, X)
    requires v.At(X) != 0.0 && Dtime(s, m, v, X) == t
    ensures Reported(s, m, v, 1.0, X, t)
  {
    hide Collide, Dtime, Facing, Meets, Solid;
    ReportsOverlap(s, m, v, 1.0);
  }

  lemma LeavingReported(s: Box, m: Box, v: Vec)
    requires Leaving(s, m, v)
    ensures Solid(s) && Meets(s, m, v, 0.0) && Reported(s, m, v, 1.0, X, -0.5) && Blocked(s, m, v, X, -0.375)
  {
    hide Reported, Dtime, Facing, Meets, Solid, Leaving;
    LeavingFaces(s, m, v);
    LeavingTimes(s, m, v);
    OverlapReported(s, m, v, -0.5);
  }

  lemma SurroundingReported(s: Box, m: Box, v: Vec, t: Box)
    requires Leaving(t, m, v) && Surrounding(s)
    ensures Solid(s) && Meets(s, m, v, 0.0) && Reported(s, m, v, 1.0, X, -0.375)
  {
    assert Solid(m);
    hide *;
    SurroundingFaces(s, m, v, t);
    SurroundingTime(s, m, v, t);
    OverlapReported(s, m, v, -0.375);
  }

  /** The search misses the earliest hit when a box that intersects already hides one that is entered
      deeper: alone, the second box is hit at -0.5, but the search stays with the first at -0.375. */
  lemma DeepestIsMissed(cinfo: seq<Nearby>, m: Box, v: Vec)
    requires |cinfo| == 2 && !cinfo[0].isStepUp && !cinfo[1].isStepUp
    requires Surrounding(cinfo[0].box) && Leaving(cinfo[1].box, m, v)
    ensures Solid(cinfo[0].box) && Meets(cinfo[0].box, m, v, 0.0) && Solid(cinfo[1].box)
    ensures Meets(cinfo[1].box, m, v, 0.0)
    ensures Candidate(cinfo, m, v, 1.0, 1, X, -0.5)
    ensures Search(cinfo, m, v, 1.0, 2) == Nearest(On(X), -0.375, 0)
  {
    hide Reported, Meets, Solid, Leaving, Surrounding, Search, Blocked;
    LeavingReported(cinfo[1].box, m, v);
    SurroundingReported(cinfo[0].box, m, v, cinfo[1].box);
    assert Hides(cinfo, m, v, 1.0, 1, X, -0.5, 0, X, -0.375);
    HiddenBehind(cinfo, m, v, 1.0, 1, X, -0.5, 0, X, -0.375);
    assert [cinfo[0], cinfo[1]] == cinfo;
  }
}
