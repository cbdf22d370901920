/**
 * Pac-Man's controller: the queued-turn rule, the move-if-unblocked rule and
 * the reset/enable switches the game coordinator uses. Keyboard polling
 * becomes the set of keys pressed this frame and the wall query becomes a
 * Blocked oracle. The collision dispatch, which calls into the game
 * coordinator, is the module PlayerContact below.
 */
module Player {
  import opened Common

  /** The keys Update polls with GetKeyDown. */
  datatype Key = W | S | A | D | UpArrow | DownArrow | LeftArrow | RightArrow

  /** The turn requested by this frame's keys: up (W or the up arrow) beats
      down (S, down arrow), which beats left (A, left arrow), which beats
      right (D, right arrow); no such key requests nothing. */
  function PressedTurn(keys: set<Key>): (r: Option<Dir>)
    ensures r == None <==> keys == {}
    ensures r == Some(Up) <==> (W in keys || UpArrow in keys)
    ensures r == Some(Down) <==> (S in keys || DownArrow in keys) && !(W in keys || UpArrow in keys)
    ensures r == Some(Left) <==> (A in keys || LeftArrow in keys) &&
                                 !(W in keys || UpArrow in keys || S in keys || DownArrow in keys)
    ensures r == Some(Right) <==> (D in keys || RightArrow in keys) &&
                                  !(W in keys || UpArrow in keys || S in keys || DownArrow in keys ||
                                    A in keys || LeftArrow in keys)
    ensures r != Some(Zero)
  {
    if W in keys || UpArrow in keys then Some(Up)
    else if S in keys || DownArrow in keys then Some(Down)
    else if A in keys || LeftArrow in keys then Some(Left)
    else if D in keys || RightArrow in keys then Some(Right)
    else NoKeyPressed(keys); None
  }

  /** A set of keys holding none of the eight keys is empty. */
  lemma NoKeyPressed(keys: set<Key>)
    requires !(W in keys || UpArrow in keys || S in keys || DownArrow in keys)
    requires !(A in keys || LeftArrow in keys || D in keys || RightArrow in keys)
    ensures keys == {}
  {
    forall k | k in keys
      ensures false
    {
      match k
      case W => case S => case A => case D =>
      case UpArrow => case DownArrow => case LeftArrow => case RightArrow =>
    }
  }

  /** A snapshot of the fields PacManController changes. */
  datatype PlayerState = PlayerState(position: Vec, current: Dir, next: Dir, canMove: bool)
  {
    /** CanMove: the segment from the position to the probe half a unit ahead is clear. */
    predicate Clear(d: Dir, blocked: Blocked)
    {
      !blocked(position, Probe(position, d))
    }

    /** One frame of Update: queue the pressed turn, commit the queued turn
        when it is clear, then advance `speed * dt` along the current
        direction when that is clear. A player that may not move is frozen. */
    function Tick(keys: set<Key>, dt: real, speed: real, blocked: Blocked): PlayerState
    {
      if !canMove then this
      else Queue(keys).Commit(blocked).Advance(dt, speed, blocked)
    }

    /** The key poll: a pressed turn replaces the queued one. */
    function Queue(keys: set<Key>): PlayerState
    {
      match PressedTurn(keys)
      case Some(d) => this.(next := d)
      case None => this
    }

    /** The turn attempt: a non-zero queued direction that is clear becomes current. */
    function Commit(blocked: Blocked): PlayerState
    {
      if next != Zero && Clear(next, blocked) then this.(current := next) else this
    }

    /** The move: `speed * dt` along a non-zero current direction that is clear. */
    function Advance(dt: real, speed: real, blocked: Blocked): PlayerState
    {
      if current != Zero && Clear(current, blocked)
      then this.(position := Add(position, Scale(speed * dt, current.Unit())))
      else this
    }

    /** ResetPlayer (and the first half of OnHit): frozen, no direction, nothing queued. */
    function Reset(): (r: PlayerState)
      ensures !r.canMove && r.current == Zero && r.next == Zero && r.position == position
    {
      this.(canMove := false, current := Zero, next := Zero)
    }
  }

  /** While the player may not move, Update changes nothing, whatever is pressed. */
  lemma FrozenWhileDisabled(p: PlayerState, keys: set<Key>, dt: real, speed: real, blocked: Blocked)
    requires !p.canMove
    ensures p.Tick(keys, dt, speed, blocked) == p
  {
  }

  /** The queued-turn commit rule: the queued direction becomes current
      exactly when it is non-zero and clear; otherwise current is unchanged. */
  lemma TurnCommitRule(p: PlayerState, keys: set<Key>, dt: real, speed: real, blocked: Blocked)
    requires p.canMove
    ensures var r := p.Tick(keys, dt, speed, blocked);
            && r.next == (if PressedTurn(keys).Some? then PressedTurn(keys).value else p.next)
            && (r.next != Zero && p.Clear(r.next, blocked) ==> r.current == r.next)
            && (!(r.next != Zero && p.Clear(r.next, blocked)) ==> r.current == p.current)
  {
  }

  /** The move rule: the player advances by direction * speed * dt exactly
      when its (new) current direction is non-zero and clear; otherwise it stays. */
  lemma MoveRule(p: PlayerState, keys: set<Key>, dt: real, speed: real, blocked: Blocked)
    requires p.canMove
    ensures var r := p.Tick(keys, dt, speed, blocked);
            && (r.current != Zero && p.Clear(r.current, blocked) ==>
                  r.position == Add(p.position, Scale(speed * dt, r.current.Unit())))
            && (!(r.current != Zero && p.Clear(r.current, blocked)) ==> r.position == p.position)
  {
  }

  /** A turn that is committed is always followed by a step along it, and a
      player with nothing queued and no direction never moves. */
  lemma CommittedTurnMoves(p: PlayerState, keys: set<Key>, dt: real, speed: real, blocked: Blocked)
    requires p.canMove
    ensures var r := p.Tick(keys, dt, speed, blocked);
            r.current != p.current ==> r.position == Add(p.position, Scale(speed * dt, r.current.Unit()))
    ensures PressedTurn(keys) == None && p.next == Zero && p.current == Zero ==>
              p.Tick(keys, dt, speed, blocked).position == p.position
  {
  }

  class PacMan {
    const moveSpeed: real

    var position: Vec
    var currentDirection: Dir
    var nextDirection: Dir
    var canMove: bool

    function State(): PlayerState
      reads this
    {
      PlayerState(position, currentDirection, nextDirection, canMove)
    }

    /** A player at `spawn`, not moving and frozen until the game starts. */
    constructor (spawn: Vec, moveSpeed: real)
      ensures this.moveSpeed == moveSpeed
      ensures State() == PlayerState(spawn, Zero, Zero, false)
    {
      this.moveSpeed := moveSpeed;
      position := spawn;
      currentDirection := Zero;
      nextDirection := Zero;
      canMove := false;
    }

    /** CanMove: is the segment to the probe half a unit ahead free of walls? */
    function CanMove(d: Dir, blocked: Blocked): (r: bool)
      reads this
      ensures r <==> State().Clear(d, blocked)
    {
      !blocked(position, Add(position, Scale(0.5, d.Unit())))
    }

    function GetCurrentDirection(): Dir
      reads this
    {
      currentDirection
    }

    /** One frame; `keys` are the keys pressed this frame. */
    method Update(keys: set<Key>, dt: real, blocked: Blocked)
      modifies this
      ensures State() == old(State()).Tick(keys, dt, moveSpeed, blocked)
    {
      if !canMove {
        return;
      }
      PollKeys(keys);
      TryTurn(blocked);
      Move(dt, blocked);
    }

    method PollKeys(keys: set<Key>)
      modifies this
      ensures State() == old(State()).Queue(keys)
    {
      if W in keys || UpArrow in keys {
        nextDirection := Up;
      } else if S in keys || DownArrow in keys {
        nextDirection := Down;
      } else if A in keys || LeftArrow in keys {
        nextDirection := Left;
      } else if D in keys || RightArrow in keys {
        nextDirection := Right;
      }
    }

    method TryTurn(blocked: Blocked)
      modifies this
      ensures State() == old(State()).Commit(blocked)
    {
      if nextDirection != Zero && CanMove(nextDirection, blocked) {
        currentDirection := nextDirection;
      }
    }

    method Move(dt: real, blocked: Blocked)
      modifies this
      ensures State() == old(State()).Advance(dt, moveSpeed, blocked)
    {
      if currentDirection != Zero && CanMove(currentDirection, blocked) {
        var movement := Scale(moveSpeed * dt, currentDirection.Unit());
        position := Add(position, movement);
      }
    }

    method ResetPlayer()
      modifies this
      ensures State() == old(State()).Reset()
    {
      canMove := false;
      currentDirection := Zero;
      nextDirection := Zero;
    }

    method EnableMovement()
      modifies this
      ensures State() == old(State()).(canMove := true)
    {
      canMove := true;
    }
  }
}

/**
 * Pac-Man's trigger handler and OnHit, which call into the game coordinator
 * (a module of their own, because the coordinator itself uses the player).
 * GameManager.Instance becomes the coordinator passed in; the sounds played
 * are presentation.
 */
module PlayerContact {
  import opened Common
  import opened Ghosts
  import opened Player
  import opened Game

  /** A pellet or power pellet object of the scene, live until destroyed. */
  class Pickup {
    var alive: bool

    constructor ()
      ensures alive
    {
      alive := true;
    }

    /** Destroy(other.gameObject): the object leaves the scene. */
    method Destroy()
      modifies this
      ensures !alive
    {
      alive := false;
    }
  }

  /** What Pac-Man's trigger touched, by tag. */
  datatype Contact = PelletContact(item: Pickup) | PowerPelletContact(item: Pickup) | GhostContact(who: Ghost) | OtherContact

  /** The engine reports contacts only with objects still in the scene and
      colliders that are on. */
  predicate Reportable(other: Contact)
    reads if other.PelletContact? || other.PowerPelletContact? then {other.item} else {}
    reads if other.GhostContact? then {other.who} else {}
  {
    && (other.PelletContact? || other.PowerPelletContact? ==> other.item.alive)
    && (other.GhostContact? ==> other.who.colliderEnabled)
  }

  /** What a ghost sees of Pac-Man: its position and GetCurrentDirection. */
  function ViewOf(pac: PacMan): PlayerView
    reads pac
  {
    PlayerView(pac.position, Some(pac.GetCurrentDirection()))
  }

  /** Pinky chasing Pac-Man aims exactly 4 units from it, ahead along its
      current direction, or to its right while it stands still. */
  lemma PinkyAimsAheadOfPacMan(pac: PacMan, self: Vec, home: Vec, scatter: Vec, blinky: Option<Vec>)
    ensures var t := TargetPosition(Pinky, Chase, false, self, home, scatter, Some(ViewOf(pac)), blinky);
            && SqDist(t, pac.position) == 16.0
            && (pac.currentDirection == Zero ==> t == Add(pac.position, Vec(4.0, 0.0)))
            && (pac.currentDirection != Zero ==> t == Add(pac.position, Scale(4.0, pac.currentDirection.Unit())))
  {
    var h := if pac.currentDirection == Zero then Right else pac.currentDirection;
    UnitCoordinates(h);
    assert h.Unit().x * h.Unit().x + h.Unit().y * h.Unit().y == 1.0;
  }

  /** What OnHit leaves behind: Pac-Man reset, one life fewer, every ghost
      stopped, and a restart (no lives left) or a respawn scheduled. */
  twostate predicate Hit(pac: PacMan, gm: GameManager)
    reads pac, gm, gm.session, gm.ghosts, gm.lifeIcons
  {
    && gm.Valid()
    && pac.State() == old(pac.State()).Reset()
    && gm.Board() == old(gm.Board()).LoseLife()
    && (forall j :: 0 <= j < |gm.ghosts| ==>
          gm.ghosts[j].State() == old(gm.ghosts[j].State()).DisableMovement())
    && gm.lifeIcons[..] == Shown(old(gm.lifeIcons[..]), gm.lives)
    && (gm.lives <= 0 ==> gm.restart == Schedule(old(gm.restart), 3.0) && gm.respawn == old(gm.respawn))
    && (gm.lives > 0 ==> gm.respawn == Pending(2.0) && gm.restart == old(gm.restart))
    && gm.intro == old(gm.intro) && gm.nextLevel == old(gm.nextLevel)
    && gm.releaseQueue == old(gm.releaseQueue) && gm.reloadRequested == old(gm.reloadRequested)
  }

  /** A contact that does nothing: Pac-Man, the coordinator and every ghost are as before. */
  twostate predicate Untouched(pac: PacMan, gm: GameManager)
    reads pac, gm, gm.ghosts, gm.lifeIcons
  {
    && pac.State() == old(pac.State())
    && gm.Board() == old(gm.Board())
    && (forall j :: 0 <= j < |gm.ghosts| ==> gm.ghosts[j].State() == old(gm.ghosts[j].State()))
    && gm.lifeIcons[..] == old(gm.lifeIcons[..])
    && gm.intro == old(gm.intro) && gm.respawn == old(gm.respawn)
    && gm.nextLevel == old(gm.nextLevel) && gm.restart == old(gm.restart)
    && gm.releaseQueue == old(gm.releaseQueue) && gm.reloadRequested == old(gm.reloadRequested)
  }

  /** OnHit: Pac-Man stops with no direction and nothing queued, then the
      coordinator is told of the death once. */
  method OnHit(pac: PacMan, gm: GameManager)
    requires gm.Valid()
    modifies pac, gm, gm.ghosts, gm.lifeIcons
    ensures Hit(pac, gm)
  {
    pac.ResetPlayer();
    gm.PlayerDied();
  }

  /** A pellet branch of OnTriggerEnter2D: the pellet is destroyed and its points added. */
  method EatPellet(gm: GameManager, item: Pickup, points: int)
    requires gm.Valid()
    modifies item, gm, gm.session, gm.player, gm.ghosts, gm.lifeIcons
    ensures !item.alive && gm.Scored(points)
    ensures old(gm.Board()).Wins(points) ==> forall j :: 0 <= j < |gm.ghosts| ==>
              gm.ghosts[j].State() == old(gm.ghosts[j].State()).DisableMovement()
    ensures !old(gm.Board()).Wins(points) ==> forall j :: 0 <= j < |gm.ghosts| ==>
              gm.ghosts[j].State() == old(gm.ghosts[j].State())
  {
    item.Destroy();
    gm.AddScore(points);
  }

  /** The vulnerable-ghost branch of OnTriggerEnter2D: the ghost is eaten and 200 points added. */
  method EatGhost(gm: GameManager, g: Ghost)
    requires gm.Valid()
    modifies g, gm, gm.session, gm.player, gm.ghosts, gm.lifeIcons
    ensures g.State() == old(g.State()).GetEaten()
    ensures gm.Scored(200)
    ensures forall j :: 0 <= j < |gm.ghosts| && gm.ghosts[j] != g ==>
              gm.ghosts[j].State() == old(gm.ghosts[j].State())
  {
    g.GetEaten();
    gm.AddScore(200);
  }

  /** OnTriggerEnter2D: a pellet scores 10; a power pellet scores 50 and
      makes every ghost vulnerable; a vulnerable ghost is eaten and scores
      200; any other ghost is a hit, but only while Pac-Man may move. An
      eaten pellet is destroyed, so it cannot be reported, and scored, again.
      The trigger is Pac-Man's own, so `pac` is the coordinator's player; an
      eaten ghost has its collider off, so it never reaches this handler. */
  method OnTriggerEnter2D(pac: PacMan, gm: GameManager, other: Contact)
    requires gm.Valid()
    requires pac == gm.player
    requires Reportable(other)
    modifies pac, gm, gm.session, gm.ghosts, gm.lifeIcons
    modifies if other.GhostContact? then {other.who} else {}
    modifies if other.PelletContact? || other.PowerPelletContact? then {other.item} else {}
    ensures gm.Valid()
    ensures other.PelletContact? || other.PowerPelletContact? ==> !other.item.alive
    ensures other.PelletContact? ==>
              && gm.Scored(10)
              && (old(gm.Board()).Wins(10) ==> forall j :: 0 <= j < |gm.ghosts| ==>
                    gm.ghosts[j].State() == old(gm.ghosts[j].State()).DisableMovement())
              && (!old(gm.Board()).Wins(10) ==> forall j :: 0 <= j < |gm.ghosts| ==>
                    gm.ghosts[j].State() == old(gm.ghosts[j].State()))
    ensures other.PowerPelletContact? ==>
              && gm.Scored(50)
              && forall j :: 0 <= j < |gm.ghosts| ==>
                   var g := old(gm.ghosts[j].State());
                   var h := if old(gm.Board()).Wins(50) then g.DisableMovement() else g;
                   gm.ghosts[j].State() == h.SetVulnerable(gm.ghosts[j].vulnerableDuration)
    ensures other.GhostContact? && old(other.who.IsVulnerable()) ==>
              && other.who.State() == old(other.who.State()).GetEaten()
              && gm.Scored(200)
              && pac.State() == old(pac.State())
              && forall j :: 0 <= j < |gm.ghosts| && gm.ghosts[j] != other.who ==>
                   gm.ghosts[j].State() == old(gm.ghosts[j].State())
    ensures other.GhostContact? && !old(other.who.IsVulnerable()) && old(pac.canMove) ==> Hit(pac, gm)
    ensures other.GhostContact? && !old(other.who.IsVulnerable()) && !old(pac.canMove) ==> Untouched(pac, gm)
    ensures other.OtherContact? ==> Untouched(pac, gm)
  {
    match other {
      case PelletContact(item) =>
        EatPellet(gm, item, 10);
      case PowerPelletContact(item) =>
        EatPellet(gm, item, 50);
        gm.ActivatePowerMode();
      case GhostContact(g) =>
        if g.IsVulnerable() {
          EatGhost(gm, g);
        } else if pac.canMove {
          OnHit(pac, gm);
        }
      case OtherContact =>
    }
  }
}
