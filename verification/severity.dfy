/** `useAISeverity().evaluate`: an SOS report's danger score, summed from
    fixed increments, and the level the score falls in. Readings are reals;
    the clock reference the hook keeps is never read by `evaluate`. */
module Severity {

  import opened Wrappers

  /** The four grades: the report's risk uses the first three, zones and
      levels all four. */
  datatype Grade = Low | Medium | High | Critical

  function Rank(g: Grade): (n: nat)
    ensures n <= 3
  {
    match g
    case Low => 0
    case Medium => 1
    case High => 2
    case Critical => 3
  }

  datatype Input = Input(
    speed: Option<real>,
    accuracy: real,
    risk: Grade,
    stationaryTime: real,
    networkLost: bool,
    hasMedia: bool,
    enteredZones: Option<seq<Grade>>)

  /** The risk baseline. */
  function RiskPoints(risk: Grade): (p: int)
    ensures risk != Critical ==> p >= 50
    ensures Rank(risk) <= 2 ==> p == [50, 200, 400][Rank(risk)]
    ensures risk == Critical ==> p == 0
  {
    match risk
    case Low => 50
    case Medium => 200
    case High => 400
    case Critical => 0
  }

  /** What one entered zone adds. */
  function ZonePoints(z: Grade): (p: int)
    ensures p == [0, 200, 400, 600][Rank(z)]
  {
    match z
    case Low => 0
    case Medium => 200
    case High => 400
    case Critical => 600
  }

  /** The `forEach` over the entered zones. */
  function ZoneSum(zones: seq<Grade>): (s: int)
    ensures 0 <= s <= 600 * |zones|
  {
    if zones == [] then 0 else ZonePoints(zones[0]) + ZoneSum(zones[1..])
  }

  lemma {:induction false} ZoneSumAppend(a: seq<Grade>, b: seq<Grade>)
    ensures ZoneSum(a + b) == ZoneSum(a) + ZoneSum(b)
  {
    if a == [] {
      assert a + b == b;
    } else {
      assert (a + b)[1..] == a[1..] + b;
      ZoneSumAppend(a[1..], b);
    }
  }

  /** Points for a reading above each of two thresholds. */
  function Above(v: real, first: real, p1: int, second: real, p2: int): int {
    (if v > first then p1 else 0) + (if v > second then p2 else 0)
  }

  /** `d.speed && d.speed > t`: an absent or zero speed adds nothing. */
  function SpeedPoints(speed: Option<real>): (p: int)
    ensures speed.None? ==> p == 0
  {
    if speed.Some? && speed.value != 0.0 then Above(speed.value, 8.0, 200, 20.0, 400) else 0
  }

  function Score(d: Input): (s: int)
    ensures d.risk != Critical ==> s >= 50
    ensures s <= 2300 + (if d.enteredZones.Some? then 600 * |d.enteredZones.value| else 0)
  {
    RiskPoints(d.risk)
    + Above(d.accuracy, 200.0, 150, 500.0, 300)
    + SpeedPoints(d.speed)
    + Above(d.stationaryTime, 30.0, 200, 60.0, 400)
    + (if d.enteredZones.Some? && |d.enteredZones.value| > 0 then ZoneSum(d.enteredZones.value) else 0)
    + (if d.networkLost then 150 else 0)
    + (if d.hasMedia then 100 else 0)
  }

  /** What each reading adds on its own: a lost network 150, media 100, an
      accuracy above 200 150 and above 500 a further 300, and each further
      entered zone its grade's points. */
  lemma ScoreIncrements(d: Input, zones: seq<Grade>, z: Grade)
    ensures Score(d.(networkLost := true)) == Score(d.(networkLost := false)) + 150
    ensures Score(d.(hasMedia := true)) == Score(d.(hasMedia := false)) + 100
    ensures 200.0 < d.accuracy <= 500.0 ==> Score(d) == Score(d.(accuracy := 0.0)) + 150
    ensures d.accuracy > 500.0 ==> Score(d) == Score(d.(accuracy := 0.0)) + 450
    ensures Score(d.(enteredZones := Some(zones + [z]))) == Score(d.(enteredZones := Some(zones))) + ZonePoints(z)
  {
    ZoneSumAppend(zones, [z]);
    assert ZoneSum([z]) == ZonePoints(z) by {
      assert [z][1..] == [];
    }
  }

  /** The level ladder: above 300 MEDIUM, above 600 HIGH, above 850 CRITICAL. */
  function LevelOf(s: int): (g: Grade)
    ensures g == Low <==> s <= 300
    ensures g == Medium <==> 300 < s <= 600
    ensures g == High <==> 600 < s <= 850
    ensures g == Critical <==> s > 850
  {
    var g := Low;
    var g := if s > 300 then Medium else g;
    var g := if s > 600 then High else g;
    if s > 850 then Critical else g
  }

  /** `evaluate(d)`: `{ score, level }`. */
  function Evaluate(d: Input): (r: (int, Grade))
    ensures r.1 == LevelOf(r.0) && r.0 == Score(d)
  {
    var s := Score(d);
    (s, LevelOf(s))
  }

  /** A higher score never gets a lower level. */
  lemma LevelMonotone(s: int, t: int)
    requires s <= t
    ensures Rank(LevelOf(s)) <= Rank(LevelOf(t))
  {
  }

  /** `b` reports at least as much danger as `a` in every reading. */
  predicate Dominates(b: Input, a: Input) {
    && b.risk != Critical && Rank(a.risk) <= Rank(b.risk)
    && a.accuracy <= b.accuracy
    && (a.speed.Some? ==> b.speed.Some? && a.speed.value <= b.speed.value)
    && a.stationaryTime <= b.stationaryTime
    && (a.networkLost ==> b.networkLost)
    && (a.hasMedia ==> b.hasMedia)
    && (a.enteredZones.Some? ==> b.enteredZones.Some? && a.enteredZones.value <= b.enteredZones.value)
  }

  /** More danger in every reading never lowers the score or the level. */
  lemma ScoreMonotone(a: Input, b: Input)
    requires Dominates(b, a)
    ensures Score(a) <= Score(b)
    ensures Rank(LevelOf(Score(a))) <= Rank(LevelOf(Score(b)))
  {
    if a.enteredZones.Some? {
      var zs := a.enteredZones.value;
      var more := b.enteredZones.value[|zs|..];
      assert b.enteredZones.value == zs + more;
      ZoneSumAppend(zs, more);
    }
    LevelMonotone(Score(a), Score(b));
  }
}
