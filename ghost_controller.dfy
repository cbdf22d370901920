/**
 * A ghost of the maze (GhostController): its mode flags, the frightened
 * countdown, the eaten -> return-home -> respawn cycle, the Scatter/Chase
 * mode switcher, per-archetype target selection and the four-way
 * direction-choice heuristic.
 *
 * Engine queries become inputs: a `Sight` carries what the ghost can see of
 * the player and of Blinky, the wall query and the distance function; a
 * `Dice` carries the values Random.Range would have produced.
 */
module Ghosts {
  import opened Common

  datatype GhostType = Blinky | Pinky | Inky | Clyde

  datatype Mode = Chase | Scatter | Frightened | Eaten

  /** The maze corner each archetype retreats to in Scatter mode. */
  function ScatterCorner(t: GhostType): Vec
  {
    match t
    case Blinky => Vec(12.0, 14.0)
    case Pinky => Vec(-12.0, 14.0)
    case Inky => Vec(12.0, -14.0)
    case Clyde => Vec(-12.0, -14.0)
  }

  /** Every archetype has its own corner, one per quadrant of the maze. */
  lemma ScatterCornersDistinct(t: GhostType, u: GhostType)
    ensures ScatterCorner(t) == ScatterCorner(u) <==> t == u
    ensures ScatterCorner(t).x * ScatterCorner(t).x == 144.0
    ensures ScatterCorner(t).y * ScatterCorner(t).y == 196.0
  {
  }

  /** What a ghost sees of the player: its position and, when the player
      object carries a PacManController, that controller's current direction. */
  datatype PlayerView = PlayerView(position: Vec, heading: Option<Dir>)

  /** Distance between two points; Vector2.Distance in the source. */
  type Metric = (Vec, Vec) -> real

  /** The random values of one ChooseDirection call: one jitter per cardinal
      direction and the fallback direction. */
  datatype Dice = Dice(jitter: seq<real>, fallback: Dir)

  /** A ghost of the scene as another ghost finds it: its archetype and position. */
  datatype SceneGhost = SceneGhost(kind: GhostType, position: Vec)

  predicate IsOtherBlinky(scene: seq<SceneGhost>, self: nat, k: nat)
    requires k < |scene|
  {
    scene[k].kind == Blinky && k != self
  }

  /** The first ghost of the scene, from index `from` on, that is a Blinky other than `self`. */
  function FindBlinkyFrom(scene: seq<SceneGhost>, self: nat, from: nat): (r: Option<nat>)
    requires from <= |scene|
    decreases |scene| - from
    ensures r.Some? ==> from <= r.value < |scene| && IsOtherBlinky(scene, self, r.value)
    ensures r.Some? ==> forall k :: from <= k < r.value ==> !IsOtherBlinky(scene, self, k)
    ensures r.None? <==> forall k :: from <= k < |scene| ==> !IsOtherBlinky(scene, self, k)
  {
    if from == |scene| then None
    else if IsOtherBlinky(scene, self, from) then Some(from)
    else FindBlinkyFrom(scene, self, from + 1)
  }

  /** FindBlinky: the index of the first Blinky of the scene that is not the asking ghost. */
  function FindBlinky(scene: seq<SceneGhost>, self: nat): (r: Option<nat>)
    ensures r.Some? ==> r.value < |scene| && scene[r.value].kind == Blinky && r.value != self
    ensures r.Some? ==> forall k :: 0 <= k < r.value ==> !IsOtherBlinky(scene, self, k)
    ensures r.None? <==> forall k :: 0 <= k < |scene| ==> !IsOtherBlinky(scene, self, k)
  {
    FindBlinkyFrom(scene, self, 0)
  }

  /** The inputs a ghost's frame reads from the scene. `player` is None when
      no object is tagged "Player"; `scene` lists the ghosts in the order the
      scene enumerates them, the asking ghost at index `me`. */
  datatype Sight = Sight(player: Option<PlayerView>, scene: seq<SceneGhost>, me: nat,
                         blocked: Blocked, distance: Metric)
  {
    /** The position of the ghost FindBlinky returns, or None when it returns null. */
    function BlinkyPosition(): (r: Option<Vec>)
      ensures r.None? <==> forall k :: 0 <= k < |scene| ==> !IsOtherBlinky(scene, me, k)
      ensures r.Some? ==> exists k :: 0 <= k < |scene| && IsOtherBlinky(scene, me, k) &&
                            r.value == scene[k].position &&
                            forall j :: 0 <= j < k ==> !IsOtherBlinky(scene, me, j)
    {
      match FindBlinky(scene, me)
      case None => None
      case Some(k) => Some(scene[k].position)
    }
  }

  /** The point a ghost steers for (GetTargetPosition), checked in the source's priority order. */
  function TargetPosition(kind: GhostType, mode: Mode, isEaten: bool, self: Vec, home: Vec,
                          scatter: Vec, player: Option<PlayerView>, blinky: Option<Vec>): (r: Vec)
    ensures player.None? ==> r == self
    ensures player.Some? && isEaten ==> r == home
    ensures player.Some? && !isEaten && mode == Scatter ==> r == scatter
    // the flee point lies on the ray from the player through the ghost, eleven times as far out
    ensures player.Some? && !isEaten && mode == Frightened ==>
              Sub(r, player.value.position) == Scale(11.0, Sub(self, player.value.position))
    ensures player.Some? && !isEaten && mode in {Chase, Eaten} ==>
              var p := player.value.position;
              && (kind == Blinky ==> r == p)
              && (kind == Pinky && player.value.heading.None? ==> r == p)
              && (kind == Pinky && player.value.heading.Some? ==>
                    var h := player.value.heading.value;
                    r == Add(p, Scale(4.0, (if h == Zero then Right else h).Unit())))
              // Inky: the player is the midpoint between Blinky and the target
              && (kind == Inky && blinky.Some? ==> Add(r, blinky.value) == Scale(2.0, p))
              && (kind == Inky && blinky.None? ==> r == p)
              && (kind == Clyde ==> r == if SqDist(self, p) > 64.0 then p else scatter)
  {
    if player.None? then self
    else
      var p := player.value.position;
      if isEaten then home
      else if mode == Scatter then scatter
      else if mode == Frightened then Add(self, Scale(10.0, Sub(self, p)))
      else
        match kind
        case Blinky => p
        case Pinky =>
          (match player.value.heading
           case None => p
           case Some(h) => Add(p, Scale(4.0, (if h == Zero then Right else h).Unit())))
        case Inky =>
          (match blinky
           case None => p
           case Some(b) => Add(p, Sub(p, b)))
        case Clyde => if SqDist(self, p) > 64.0 then p else scatter
  }

  /** Everything ChooseDirection reads besides randomness. */
  datatype Situation = Situation(mode: Mode, current: Dir, position: Vec, target: Vec,
                                 blocked: Blocked, distance: Metric)

  /** The probe point of cardinal direction i, spelled out per direction. */
  function ProbeAt(pos: Vec, i: nat): Vec
    requires i < 4
  {
    if i == 0 then Probe(pos, Up)
    else if i == 1 then Probe(pos, Down)
    else if i == 2 then Probe(pos, Left)
    else Probe(pos, Right)
  }

  lemma ProbeAtIsProbe(pos: Vec, i: nat)
    requires i < 4
    ensures ProbeAt(pos, i) == Probe(pos, Cardinals[i])
  {
  }

  /** Cardinal direction i is a candidate: not the reversal of the current
      direction (unless Frightened) and not blocked at the 0.5 probe. */
  predicate Allowed(s: Situation, i: nat)
    requires i < 4
  {
    && (s.mode == Frightened || Cardinals[i] != s.current.Reverse())
    && !s.blocked(s.position, ProbeAt(s.position, i))
  }

  predicate SomeAllowed(s: Situation)
  {
    exists i :: 0 <= i < 4 && Allowed(s, i)
  }

  /** The score of direction i: the probe's distance to the target, negated and
      jittered in Frightened mode. Lower is better. */
  function Score(s: Situation, jitter: seq<real>, i: nat): real
    requires i < 4 <= |jitter|
  {
    var d := s.distance(ProbeAt(s.position, i), s.target);
    if s.mode == Frightened then -d + jitter[i] else d
  }

  /** Candidate k beats every candidate below index n: strictly when that
      candidate comes earlier, weakly when it comes later. */
  predicate BestUpTo(s: Situation, jitter: seq<real>, k: nat, n: nat)
    requires k < 4 <= |jitter| && n <= 4
  {
    && Allowed(s, k)
    && forall j :: 0 <= j < n && Allowed(s, j) ==>
         && (j < k ==> Score(s, jitter, k) < Score(s, jitter, j))
         && (k < j ==> Score(s, jitter, k) <= Score(s, jitter, j))
  }

  /** The direction ChooseDirection settles on: the first lowest-scoring
      candidate, or the random fallback when there is no candidate. */
  predicate IsChoice(s: Situation, jitter: seq<real>, fallback: Dir, d: Dir)
    requires |jitter| == 4
  {
    if SomeAllowed(s) then exists k :: 0 <= k < 4 && d == Cardinals[k] && BestUpTo(s, jitter, k, 4)
    else d == fallback
  }

  /** ChooseDirection: scan up, down, left, right, skipping the reversal
      (outside Frightened) and blocked directions, and keep the direction
      whose score is strictly lower than every earlier one. */
  method ChooseDirection(s: Situation, jitter: seq<real>, fallback: Dir) returns (d: Dir)
    requires |jitter| == 4 && fallback != Zero
    ensures IsChoice(s, jitter, fallback, d)
    ensures d != Zero
  {
    d := s.current;
    var best: Option<real> := None;
    var found := false;
    ghost var bestIndex: nat := 0;
    for i := 0 to 4
      invariant found <==> exists j :: 0 <= j < i && Allowed(s, j)
      invariant !found ==> best.None?
      invariant found ==> bestIndex < i && d == Cardinals[bestIndex] &&
                          best == Some(Score(s, jitter, bestIndex)) && BestUpTo(s, jitter, bestIndex, i)
    {
      var dir := Cardinals[i];
      if s.mode != Frightened && dir == s.current.Reverse() {
        SkipKeepsBest(s, jitter, found, bestIndex, i);
        continue;
      }
      var checkPos := Probe(s.position, dir);
      ProbeAtIsProbe(s.position, i);
      if s.blocked(s.position, checkPos) {
        SkipKeepsBest(s, jitter, found, bestIndex, i);
        continue;
      }
      var dist := s.distance(checkPos, s.target);
      var score := if s.mode == Frightened then -dist + jitter[i] else dist;
      assert score == Score(s, jitter, i);
      if best.None? || score < best.value {
        NewBest(s, jitter, found, bestIndex, i);
        best := Some(score);
        d := dir;
        bestIndex := i;
      } else {
        KeepBest(s, jitter, bestIndex, i);
      }
      found := true;
    }
    if !found {
      d := fallback;
    }
  }

  /** Loop step of ChooseDirection for a skipped (reversed or blocked) candidate. */
  lemma SkipKeepsBest(s: Situation, jitter: seq<real>, found: bool, k: nat, i: nat)
    requires i < 4 == |jitter| && !Allowed(s, i)
    requires found <==> exists j :: 0 <= j < i && Allowed(s, j)
    requires found ==> k < i && BestUpTo(s, jitter, k, i)
    ensures found <==> exists j :: 0 <= j < i + 1 && Allowed(s, j)
    ensures found ==> BestUpTo(s, jitter, k, i + 1)
  {
    if found {
      var w :| 0 <= w < i && Allowed(s, w);
      assert 0 <= w < i + 1 && Allowed(s, w);
      forall j | 0 <= j < i + 1 && Allowed(s, j)
        ensures j < k ==> Score(s, jitter, k) < Score(s, jitter, j)
        ensures k < j ==> Score(s, jitter, k) <= Score(s, jitter, j)
      {
        assert j != i;
      }
    } else {
      forall j | 0 <= j < i + 1
        ensures !Allowed(s, j)
      {
        if j < i {
          assert !(0 <= j < i && Allowed(s, j));
        }
      }
    }
  }

  /** Loop step of ChooseDirection when candidate i is the first, or beats the best so far. */
  lemma NewBest(s: Situation, jitter: seq<real>, found: bool, k: nat, i: nat)
    requires i < 4 == |jitter| && Allowed(s, i)
    requires found <==> exists j :: 0 <= j < i && Allowed(s, j)
    requires found ==> k < i && BestUpTo(s, jitter, k, i) && Score(s, jitter, i) < Score(s, jitter, k)
    ensures BestUpTo(s, jitter, i, i + 1)
  {
  }

  /** Loop step of ChooseDirection when candidate i does not beat the best so far. */
  lemma KeepBest(s: Situation, jitter: seq<real>, k: nat, i: nat)
    requires k < i < 4 == |jitter| && Allowed(s, i)
    requires BestUpTo(s, jitter, k, i) && Score(s, jitter, k) <= Score(s, jitter, i)
    ensures BestUpTo(s, jitter, k, i + 1)
  {
  }

  /** At most one direction satisfies IsChoice. */
  lemma ChoiceIsUnique(s: Situation, jitter: seq<real>, fallback: Dir, d1: Dir, d2: Dir)
    requires |jitter| == 4
    requires IsChoice(s, jitter, fallback, d1) && IsChoice(s, jitter, fallback, d2)
    ensures d1 == d2
  {
    if SomeAllowed(s) {
      var k1 :| 0 <= k1 < 4 && d1 == Cardinals[k1] && BestUpTo(s, jitter, k1, 4);
      var k2 :| 0 <= k2 < 4 && d2 == Cardinals[k2] && BestUpTo(s, jitter, k2, 4);
      if k1 < k2 {
        assert false;
      } else if k2 < k1 {
        assert false;
      }
    }
  }

  /** Outside Frightened, a ghost with somewhere to go never turns straight back. */
  lemma ChoiceNeverReverses(s: Situation, jitter: seq<real>, fallback: Dir, d: Dir)
    requires |jitter| == 4 && IsChoice(s, jitter, fallback, d)
    requires s.mode != Frightened && SomeAllowed(s)
    ensures d != s.current.Reverse()
  {
  }

  /** With a candidate available, the choice is unblocked at the probe and is
      the first direction, in the order up, down, left, right, of minimal distance. */
  lemma ChoiceMinimisesDistance(s: Situation, jitter: seq<real>, fallback: Dir, d: Dir)
    requires |jitter| == 4 && IsChoice(s, jitter, fallback, d) && SomeAllowed(s)
    requires s.mode != Frightened
    ensures !s.blocked(s.position, Probe(s.position, d))
    ensures forall j :: 0 <= j < 4 && Allowed(s, j) ==>
              s.distance(Probe(s.position, d), s.target) <= s.distance(ProbeAt(s.position, j), s.target)
    ensures forall j :: 0 <= j < 4 && Allowed(s, j) && s.distance(ProbeAt(s.position, j), s.target) == s.distance(Probe(s.position, d), s.target)
              ==> d in Cardinals[..j + 1]
  {
    var k :| 0 <= k < 4 && d == Cardinals[k] && BestUpTo(s, jitter, k, 4);
    ProbeAtIsProbe(s.position, k);
    var best := s.distance(ProbeAt(s.position, k), s.target);
    forall j | 0 <= j < 4 && Allowed(s, j)
      ensures best <= s.distance(ProbeAt(s.position, j), s.target)
    {
      if j != k {
        assert Score(s, jitter, k) <= Score(s, jitter, j);
      }
    }
    forall j | 0 <= j < 4 && Allowed(s, j) && s.distance(ProbeAt(s.position, j), s.target) == best
      ensures d in Cardinals[..j + 1]
    {
      if j < k {
        assert false;
      }
      assert Cardinals[..j + 1][k] == d;
    }
  }

  /** Frightened with no jitter, the ghost heads for the unblocked probe
      farthest from the flee target (and may turn straight back to do so). */
  lemma FrightenedChoiceMaximisesDistance(s: Situation, jitter: seq<real>, fallback: Dir, d: Dir)
    requires |jitter| == 4 && (forall i :: 0 <= i < 4 ==> jitter[i] == 0.0) && IsChoice(s, jitter, fallback, d) && SomeAllowed(s)
    requires s.mode == Frightened
    ensures !s.blocked(s.position, Probe(s.position, d))
    ensures forall j :: 0 <= j < 4 && !s.blocked(s.position, ProbeAt(s.position, j)) ==>
              s.distance(Probe(s.position, d), s.target) >= s.distance(ProbeAt(s.position, j), s.target)
  {
    var k :| 0 <= k < 4 && d == Cardinals[k] && BestUpTo(s, jitter, k, 4);
    ProbeAtIsProbe(s.position, k);
    forall j | 0 <= j < 4 && !s.blocked(s.position, ProbeAt(s.position, j))
      ensures s.distance(Probe(s.position, d), s.target) >= s.distance(ProbeAt(s.position, j), s.target)
    {
      assert Allowed(s, j);
      assert Score(s, jitter, k) <= Score(s, jitter, j);
    }
  }

  /** With no candidate, the random fallback is taken as it is: it may even be the reversal. */
  lemma ChoiceFallsBack(s: Situation, jitter: seq<real>, fallback: Dir, d: Dir)
    requires |jitter| == 4 && IsChoice(s, jitter, fallback, d) && !SomeAllowed(s)
    ensures d == fallback
  {
  }

  /** GetRandomDirection yields a cardinal, so every choice is a cardinal:
      a scanned candidate or the random fallback. */
  lemma ChoiceIsCardinal(s: Situation, jitter: seq<real>, fallback: Dir, d: Dir)
    requires |jitter| == 4 && IsChoice(s, jitter, fallback, d) && fallback in Cardinals
    ensures d in Cardinals && d != Zero
  {
    if SomeAllowed(s) {
      var k :| 0 <= k < 4 && d == Cardinals[k] && BestUpTo(s, jitter, k, 4);
    }
  }

  /** The state of the ModeSwitcher coroutine: stopped, or suspended in one of
      its three WaitForSeconds with the time still to wait. */
  datatype Switcher = Stopped | ScatterWait(left: real) | ChaseWait(left: real) | IdleWait(left: real)

  /** A snapshot of every field of a ghost that its methods change. */
  datatype GhostState = GhostState(
    position: Vec, direction: Dir, mode: Mode,
    isVulnerable: bool, isEaten: bool, canMove: bool, colliderEnabled: bool,
    vulnerableTimer: real, decisionTimer: real, switcher: Switcher)
  {
    /** The flags agree: an eaten ghost is not vulnerable and has its
        collider off, mode Eaten means eaten and mode Frightened means
        vulnerable (a vulnerable ghost may be in Chase: see ModeSwitcherTick),
        and the heading is one of the four cardinals. */
    predicate Consistent()
    {
      && direction != Zero
      && (isEaten ==> !isVulnerable && !colliderEnabled)
      && (mode == Eaten ==> isEaten)
      && (mode == Frightened ==> isVulnerable)
    }

    /** SetVulnerable: ignored by an eaten ghost; otherwise vulnerable for
        `duration`, Frightened, and turned around. */
    function SetVulnerable(duration: real): (r: GhostState)
      ensures Consistent() ==> r.Consistent()
    {
      if isEaten then this
      else this.(isVulnerable := true, vulnerableTimer := duration, mode := Frightened,
                 direction := direction.Reverse())
    }

    /** GetEaten: eaten, no longer vulnerable, mode Eaten, collider off. */
    function GetEaten(): (r: GhostState)
      ensures r.Consistent() <==> direction != Zero
    {
      this.(isVulnerable := false, isEaten := true, mode := Eaten, colliderEnabled := false)
    }

    /** Respawn: back in Chase, collider on, free to move, heading `dir`. */
    function Respawn(dir: Dir): (r: GhostState)
      ensures Consistent() && dir != Zero ==> r.Consistent()
    {
      this.(isEaten := false, mode := Chase, direction := dir, colliderEnabled := true, canMove := true)
    }

    /** The head of ModeSwitcher's loop: Scatter and a 7-second wait when the
        ghost is free, not vulnerable and not eaten; else a 1-second wait. */
    function ModeLoopHead(): (r: GhostState)
      ensures Consistent() ==> r.Consistent()
    {
      if !isVulnerable && !isEaten && canMove then this.(mode := Scatter, switcher := ScatterWait(7.0))
      else this.(switcher := IdleWait(1.0))
    }

    /** EnableMovement: free to move, and a new ModeSwitcher runs to its first wait. */
    function EnableMovement(): (r: GhostState)
      ensures Consistent() ==> r.Consistent()
    {
      this.(canMove := true).ModeLoopHead()
    }

    /** DisableMovement: frozen, and the ModeSwitcher is stopped. */
    function DisableMovement(): (r: GhostState)
      ensures Consistent() ==> r.Consistent()
    {
      this.(canMove := false, switcher := Stopped)
    }

    /** One frame of the ModeSwitcher coroutine. When the Scatter wait ends the
        mode becomes Chase whatever happened meanwhile, Frightened included. */
    function ModeSwitcherTick(dt: real): (r: GhostState)
      ensures Consistent() ==> r.Consistent()
    {
      match switcher
      case Stopped => this
      case ScatterWait(left) =>
        if left - dt <= 0.0 then this.(mode := Chase, switcher := ChaseWait(20.0))
        else this.(switcher := ScatterWait(left - dt))
      case ChaseWait(left) =>
        if left - dt <= 0.0 then ModeLoopHead() else this.(switcher := ChaseWait(left - dt))
      case IdleWait(left) =>
        if left - dt <= 0.0 then ModeLoopHead() else this.(switcher := IdleWait(left - dt))
    }

    /** The frightened countdown of one frame: when it reaches zero the ghost
        stops being vulnerable and returns to Chase. */
    function VulnerableTick(dt: real): (r: GhostState)
      ensures Consistent() ==> r.Consistent()
    {
      if !isVulnerable then this
      else if vulnerableTimer - dt <= 0.0 then
        this.(vulnerableTimer := vulnerableTimer - dt, isVulnerable := false, mode := Chase)
      else this.(vulnerableTimer := vulnerableTimer - dt)
    }

    /** ReturnToHome: within 0.5 of home the ghost snaps there and respawns;
        otherwise it moves to `step`, the engine's MoveTowards result. */
    function ReturnToHome(home: Vec, step: Vec, dir: Dir): (r: GhostState)
      ensures Consistent() && dir != Zero ==> r.Consistent()
    {
      if SqDist(position, home) < 0.25 then this.(position := home).Respawn(dir)
      else this.(position := step)
    }
  }

  /** SetVulnerable on an eaten ghost changes nothing; on any other ghost it
      sets the flag, restarts the countdown, enters Frightened and negates the
      direction vector, leaving every other field as it was. */
  lemma SetVulnerableEffect(s: GhostState, duration: real)
    ensures s.isEaten ==> s.SetVulnerable(duration) == s
    ensures !s.isEaten ==>
              var r := s.SetVulnerable(duration);
              && r.isVulnerable && r.vulnerableTimer == duration && r.mode == Frightened
              && r.direction.Unit() == Neg(s.direction.Unit())
              && r.(isVulnerable := s.isVulnerable, vulnerableTimer := s.vulnerableTimer,
                    mode := s.mode, direction := s.direction) == s
  {
    ReverseIsNegation(s.direction, s.direction.Reverse());
  }

  /** Two power pellets in a row turn a ghost around twice, back to its old heading. */
  lemma SetVulnerableTwiceRestoresHeading(s: GhostState, d1: real, d2: real)
    ensures s.SetVulnerable(d1).SetVulnerable(d2).direction == s.direction
    ensures !s.isEaten ==> s.SetVulnerable(d1).SetVulnerable(d2).vulnerableTimer == d2
  {
  }

  /** The eaten -> return-home -> respawn cycle: once eaten, a ghost that is
      within 0.5 of home is put there in Chase, collider on, free to move;
      farther away it is still eaten and travelling. */
  lemma EatenCycle(s: GhostState, home: Vec, step: Vec, dir: Dir)
    ensures var e := s.GetEaten();
            e.isEaten && !e.isVulnerable && e.mode == Eaten && !e.colliderEnabled
    ensures var r := s.GetEaten().ReturnToHome(home, step, dir);
            SqDist(s.position, home) < 0.25 ==>
              r.position == home && !r.isEaten && !r.isVulnerable && r.mode == Chase &&
              r.colliderEnabled && r.canMove && r.direction == dir
    ensures var r := s.GetEaten().ReturnToHome(home, step, dir);
            SqDist(s.position, home) >= 0.25 ==>
              r.position == step && r.isEaten && r.mode == Eaten && !r.colliderEnabled
  {
  }

  /** The frightened countdown ends in Chase, not vulnerable, and does not
      touch an eaten or non-vulnerable ghost. */
  lemma VulnerableExpires(s: GhostState, dt: real)
    requires s.isVulnerable && s.vulnerableTimer - dt <= 0.0
    ensures !s.VulnerableTick(dt).isVulnerable && s.VulnerableTick(dt).mode == Chase
  {
  }

  /** ModeSwitcher quirk: a ghost that turned Frightened during the Scatter
      wait is put into Chase when that wait ends, while still vulnerable. */
  lemma ScatterWaitOverridesFrightened(s: GhostState, left: real, dt: real)
    requires s.mode == Frightened && s.isVulnerable && s.switcher == ScatterWait(left) && left - dt <= 0.0
    ensures s.ModeSwitcherTick(dt).mode == Chase && s.ModeSwitcherTick(dt).isVulnerable
    ensures s.ModeSwitcherTick(dt).switcher == ChaseWait(20.0)
  {
  }

  /** Releasing an already released ghost again leaves it as the first release did. */
  lemma EnableMovementIdempotent(s: GhostState)
    ensures s.EnableMovement().EnableMovement() == s.EnableMovement()
  {
  }

  /** A disabled ghost's ModeSwitcher never fires. */
  lemma DisabledSwitcherIsInert(s: GhostState, dt: real)
    ensures s.DisableMovement().ModeSwitcherTick(dt) == s.DisableMovement()
  {
  }

  class Ghost {
    const kind: GhostType
    const moveSpeed: real
    const vulnerableDuration: real
    const decisionInterval: real
    const homePosition: Vec
    const scatterTarget: Vec

    var position: Vec
    var direction: Dir
    var mode: Mode
    var isVulnerable: bool
    var isEaten: bool
    var canMove: bool
    var colliderEnabled: bool
    var vulnerableTimer: real
    var decisionTimer: real
    var switcher: Switcher

    function State(): GhostState
      reads this
    {
      GhostState(position, direction, mode, isVulnerable, isEaten, canMove, colliderEnabled,
                 vulnerableTimer, decisionTimer, switcher)
    }

    /** The scene the ghost sees lists the ghost itself at index `me`. */
    predicate InScene(sight: Sight)
      reads this
    {
      sight.me < |sight.scene| && sight.scene[sight.me] == SceneGhost(kind, position)
    }

    /** What ChooseDirection reads when the ghost is in state s. */
    function SituationIn(s: GhostState, sight: Sight): Situation
    {
      Situation(s.mode, s.direction, s.position,
                TargetPosition(kind, s.mode, s.isEaten, s.position, homePosition, scatterTarget,
                               sight.player, sight.BlinkyPosition()),
                sight.blocked, sight.distance)
    }

    /** Start: the spawn point becomes home, the archetype's corner the scatter
        target; the ghost starts in Chase with a random heading and waits to be released. */
    constructor (kind: GhostType, spawn: Vec, moveSpeed: real, vulnerableDuration: real,
                 decisionInterval: real, initialDirection: Dir)
      requires initialDirection != Zero
      ensures this.kind == kind && this.moveSpeed == moveSpeed
      ensures this.vulnerableDuration == vulnerableDuration && this.decisionInterval == decisionInterval
      ensures homePosition == spawn && scatterTarget == ScatterCorner(kind)
      ensures State() == GhostState(spawn, initialDirection, Chase, false, false, false, true, 0.0, 0.0, Stopped)
      ensures State().Consistent()
    {
      this.kind := kind;
      this.moveSpeed := moveSpeed;
      this.vulnerableDuration := vulnerableDuration;
      this.decisionInterval := decisionInterval;
      homePosition := spawn;
      scatterTarget := ScatterCorner(kind);
      position := spawn;
      direction := initialDirection;
      mode := Chase;
      isVulnerable := false;
      isEaten := false;
      canMove := false;
      colliderEnabled := true;
      vulnerableTimer := 0.0;
      decisionTimer := 0.0;
      switcher := Stopped;
    }

    function IsVulnerable(): bool
      reads this
    {
      isVulnerable
    }

    method SetVulnerable()
      modifies this
      ensures State() == old(State()).SetVulnerable(vulnerableDuration)
    {
      if isEaten {
        return;
      }
      isVulnerable := true;
      vulnerableTimer := vulnerableDuration;
      mode := Frightened;
      direction := direction.Reverse();
    }

    method GetEaten()
      modifies this
      ensures State() == old(State()).GetEaten()
    {
      isVulnerable := false;
      isEaten := true;
      mode := Eaten;
      colliderEnabled := false;
    }

    method Respawn(dir: Dir)
      requires dir != Zero
      modifies this
      ensures State() == old(State()).Respawn(dir)
    {
      isEaten := false;
      mode := Chase;
      direction := dir;
      colliderEnabled := true;
      canMove := true;
    }

    method EnableMovement()
      modifies this
      ensures State() == old(State()).EnableMovement()
    {
      canMove := true;
      ModeLoopHead();
    }

    method DisableMovement()
      modifies this
      ensures State() == old(State()).DisableMovement()
    {
      canMove := false;
      switcher := Stopped;
    }

    method ModeLoopHead()
      modifies this
      ensures State() == old(State()).ModeLoopHead()
    {
      if !isVulnerable && !isEaten && canMove {
        mode := Scatter;
        switcher := ScatterWait(7.0);
      } else {
        switcher := IdleWait(1.0);
      }
    }

    /** Resumes the ModeSwitcher coroutine for one frame of length dt. */
    method AdvanceModeSwitcher(dt: real)
      modifies this
      ensures State() == old(State()).ModeSwitcherTick(dt)
    {
      match switcher {
        case Stopped =>
        case ScatterWait(left) =>
          if left - dt <= 0.0 {
            mode := Chase;
            switcher := ChaseWait(20.0);
          } else {
            switcher := ScatterWait(left - dt);
          }
        case ChaseWait(left) =>
          if left - dt <= 0.0 { ModeLoopHead(); } else { switcher := ChaseWait(left - dt); }
        case IdleWait(left) =>
          if left - dt <= 0.0 { ModeLoopHead(); } else { switcher := IdleWait(left - dt); }
      }
    }

    method ReturnToHome(step: Vec, dir: Dir)
      requires dir != Zero
      modifies this
      ensures State() == old(State()).ReturnToHome(homePosition, step, dir)
    {
      if SqDist(position, homePosition) < 0.25 {
        position := homePosition;
        Respawn(dir);
      } else {
        position := step;
      }
    }

    method ChooseNewDirection(sight: Sight, dice: Dice)
      requires |dice.jitter| == 4 && dice.fallback != Zero
      requires InScene(sight)
      modifies this
      ensures IsChoice(SituationIn(old(State()), sight), dice.jitter, dice.fallback, direction)
      ensures direction != Zero
      ensures State() == old(State()).(direction := direction)
    {
      direction := ChooseDirection(SituationIn(State(), sight), dice.jitter, dice.fallback);
    }

    /** The frightened countdown of one frame (the top of Update). */
    method TickVulnerable(dt: real)
      modifies this
      ensures State() == old(State()).VulnerableTick(dt)
    {
      if isVulnerable {
        vulnerableTimer := vulnerableTimer - dt;
        if vulnerableTimer <= 0.0 {
          isVulnerable := false;
          mode := Chase;
        }
      }
    }

    /** The decision timer of one frame: when it runs out it is rearmed to
        decisionInterval and a new direction is chosen. */
    method Decide(dt: real, sight: Sight, dice: Dice)
      requires |dice.jitter| == 4 && dice.fallback != Zero
      requires InScene(sight)
      modifies this
      ensures old(decisionTimer) - dt <= 0.0 ==>
                && State() == old(State()).(decisionTimer := decisionInterval, direction := direction)
                && IsChoice(SituationIn(old(State()), sight), dice.jitter, dice.fallback, direction)
      ensures old(decisionTimer) - dt > 0.0 ==>
                State() == old(State()).(decisionTimer := old(decisionTimer) - dt)
    {
      decisionTimer := decisionTimer - dt;
      if decisionTimer <= 0.0 {
        decisionTimer := decisionInterval;
        ChooseNewDirection(sight, dice);
      }
    }

    /** The move of one frame: `moveSpeed * dt` along the current direction
        when the segment is clear; otherwise no move and a new direction. */
    method Step(dt: real, sight: Sight, dice: Dice)
      requires |dice.jitter| == 4 && dice.fallback != Zero
      requires InScene(sight)
      modifies this
      ensures var next := Add(old(position), Scale(moveSpeed * dt, old(direction).Unit()));
              && (!sight.blocked(old(position), next) ==> State() == old(State()).(position := next))
              && (sight.blocked(old(position), next) ==>
                    && State() == old(State()).(direction := direction)
                    && IsChoice(SituationIn(old(State()), sight), dice.jitter, dice.fallback, direction))
    {
      var newPosition := Add(position, Scale(moveSpeed * dt, direction.Unit()));
      if !sight.blocked(position, newPosition) {
        position := newPosition;
      } else {
        ChooseNewDirection(sight, dice);
      }
    }

    /** One frame (Update). A frozen ghost that is not eaten does nothing. An
        eaten ghost ticks its countdown and travels home. Otherwise the ghost
        ticks its countdown, re-chooses its direction when the decision timer
        runs out, and steps `moveSpeed * dt` along it, or, when that step is
        blocked, stays put and chooses again. `heading` is the direction it
        tried to step along. */
    method Update(dt: real, sight: Sight, decide: Dice, onWall: Dice, homeStep: Vec, respawnDirection: Dir)
      returns (ghost heading: Dir)
      requires |decide.jitter| == 4 && |onWall.jitter| == 4
      requires decide.fallback != Zero && onWall.fallback != Zero && respawnDirection != Zero
      requires InScene(sight)
      modifies this
      ensures !old(canMove) && !old(isEaten) ==> State() == old(State())
      ensures old(isEaten) ==>
                State() == old(State()).VulnerableTick(dt).ReturnToHome(homePosition, homeStep, respawnDirection)
      ensures old(canMove) && !old(isEaten) ==>
                var s1 := old(State()).VulnerableTick(dt);
                var s2 := s1.(decisionTimer := decisionTimer, direction := heading);
                && (old(decisionTimer) - dt <= 0.0 ==>
                      decisionTimer == decisionInterval &&
                      IsChoice(SituationIn(s1, sight), decide.jitter, decide.fallback, heading))
                && (old(decisionTimer) - dt > 0.0 ==>
                      decisionTimer == old(decisionTimer) - dt && heading == old(direction))
                && var next := Add(old(position), Scale(moveSpeed * dt, heading.Unit()));
                   && (!sight.blocked(old(position), next) ==> State() == s2.(position := next))
                   && (sight.blocked(old(position), next) ==>
                         && State() == s2.(direction := direction)
                         && IsChoice(SituationIn(s2, sight), onWall.jitter, onWall.fallback, direction))
    {
      heading := direction;
      if !canMove && !isEaten {
        return;
      }
      TickVulnerable(dt);
      if isEaten {
        ReturnToHome(homeStep, respawnDirection);
        return;
      }
      Decide(dt, sight, decide);
      heading := direction;
      Step(dt, sight, onWall);
    }
  }
}
