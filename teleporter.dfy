/**
 * A teleporter: a trigger that moves a player (and, when allowed, a ghost)
 * to a point beside its destination, and keeps a per-object cooldown table,
 * decremented and pruned each frame, so the object is not sent straight back.
 */
module Teleport {
  import opened Common

  /** The tag a colliding object carries. */
  datatype Tag = PlayerTag | GhostTag | OtherTag

  /** A game object that can enter a teleporter: its tag and its position. */
  class Body {
    const tag: Tag
    var position: Vec

    constructor (tag: Tag, position: Vec)
      ensures this.tag == tag && this.position == position
    {
      this.tag := tag;
      this.position := position;
    }
  }

  /** The destination transform: none, a transform without a Teleporter, or another (or the same) teleporter. */
  datatype Exit = NoExit | PlainExit(at: Vec) | TeleporterExit(target: Teleporter)

  /** The cooldown table after dt seconds: every entry loses dt, and entries
      that reach zero or below are dropped. */
  function Decayed(cooldowns: map<Body, real>, dt: real): (r: map<Body, real>)
    ensures r.Keys <= cooldowns.Keys
    ensures forall b <- cooldowns.Keys :: b in r <==> cooldowns[b] - dt > 0.0
    ensures forall b <- r.Keys :: r[b] == cooldowns[b] - dt && r[b] > 0.0
  {
    map b | b in cooldowns && cooldowns[b] - dt > 0.0 :: cooldowns[b] - dt
  }

  /** Two frames of dt1 and dt2 leave the same table as one frame of dt1 + dt2. */
  lemma DecayComposes(cooldowns: map<Body, real>, dt1: real, dt2: real)
    requires dt1 >= 0.0 && dt2 >= 0.0
    ensures Decayed(Decayed(cooldowns, dt1), dt2) == Decayed(cooldowns, dt1 + dt2)
  {
    var twice := Decayed(Decayed(cooldowns, dt1), dt2);
    var once := Decayed(cooldowns, dt1 + dt2);
    forall b | b in once
      ensures b in twice && twice[b] == once[b]
    {
      assert b in Decayed(cooldowns, dt1);
    }
    assert twice.Keys == once.Keys;
  }

  /** A cooldown entry of the table in the order the dictionary enumerates it.
      Entries are never removed as written, so that order is insertion order. */
  datatype Entry = Entry(obj: Body, left: real)

  /** One frame of Update as written, where overwriting an entry inside the
      enumeration invalidates the enumerator: the first entry loses dt, the
      next step of the enumeration fails, and the removal loop never runs. */
  function UpdateAsWritten(table: seq<Entry>, dt: real): (r: seq<Entry>)
    ensures |r| == |table|
    ensures forall i :: 0 <= i < |table| ==> r[i].obj == table[i].obj
    ensures forall i :: 0 < i < |table| ==> r[i] == table[i]
    ensures |table| > 0 ==> r[0].left == table[0].left - dt
  {
    if |table| == 0 then table else [table[0].(left := table[0].left - dt)] + table[1..]
  }

  /** Successive frames of Update as written. */
  function FramesAsWritten(table: seq<Entry>, dts: seq<real>): (r: seq<Entry>)
    ensures |r| == |table|
    decreases |dts|
  {
    if |dts| == 0 then table else FramesAsWritten(UpdateAsWritten(table, dts[0]), dts[1..])
  }

  /** As written, every entry after the first keeps its value through any
      number of frames: its cooldown never runs down and it is never removed. */
  lemma {:induction false} NonHeadCooldownNeverDecreases(table: seq<Entry>, dts: seq<real>, i: nat)
    requires 0 < i < |table|
    ensures FramesAsWritten(table, dts)[i] == table[i]
    decreases |dts|
  {
    if |dts| > 0 {
      NonHeadCooldownNeverDecreases(UpdateAsWritten(table, dts[0]), dts[1..], i);
    }
  }

  /** The time of a run of frames. */
  function Elapsed(dts: seq<real>): real
  {
    if |dts| == 0 then 0.0 else dts[0] + Elapsed(dts[1..])
  }

  /** Successive frames of the corrected Update. */
  function FramesDecayed(cooldowns: map<Body, real>, dts: seq<real>): map<Body, real>
    decreases |dts|
  {
    if |dts| == 0 then cooldowns else FramesDecayed(Decayed(cooldowns, dts[0]), dts[1..])
  }

  /** As corrected, a run of frames leaves the table exactly as one frame as long
      as the whole run would. */
  lemma {:induction false} CooldownExpiresOverFrames(cooldowns: map<Body, real>, dts: seq<real>)
    requires |dts| > 0 && forall i :: 0 <= i < |dts| ==> dts[i] >= 0.0
    ensures FramesDecayed(cooldowns, dts) == Decayed(cooldowns, Elapsed(dts))
    decreases |dts|
  {
    var rest := dts[1..];
    var first := Decayed(cooldowns, dts[0]);
    assert FramesDecayed(cooldowns, dts) == FramesDecayed(first, rest);
    assert Elapsed(dts) == dts[0] + Elapsed(rest);
    if |rest| == 0 {
      assert Elapsed(dts) == dts[0];
    } else {
      TailNonNegative(dts);
      CooldownExpiresOverFrames(first, rest);
      ElapsedNonNegative(rest);
      DecayComposes(cooldowns, dts[0], Elapsed(rest));
    }
  }

  lemma TailNonNegative(dts: seq<real>)
    requires |dts| > 0 && forall i :: 0 <= i < |dts| ==> dts[i] >= 0.0
    ensures forall i :: 0 <= i < |dts[1..]| ==> dts[1..][i] >= 0.0
  {
  }

  /** As corrected, an entry is gone once a run of frames has lasted its cooldown. */
  lemma CooldownGoneAfterItsTime(cooldowns: map<Body, real>, dts: seq<real>, b: Body)
    requires |dts| > 0 && forall i :: 0 <= i < |dts| ==> dts[i] >= 0.0
    requires b in cooldowns && cooldowns[b] <= Elapsed(dts)
    ensures b !in FramesDecayed(cooldowns, dts)
  {
    CooldownExpiresOverFrames(cooldowns, dts);
  }

  lemma {:induction false} ElapsedNonNegative(dts: seq<real>)
    requires forall i :: 0 <= i < |dts| ==> dts[i] >= 0.0
    ensures Elapsed(dts) >= 0.0
    decreases |dts|
  {
    if |dts| > 0 {
      TailNonNegative(dts);
      ElapsedNonNegative(dts[1..]);
    }
  }

  /** The discrepancy on a concrete run: the player and then a ghost pass a
      teleporter, both with cooldown c. As written the ghost's entry stays at c
      however long the frames run, so the teleporter refuses the ghost for ever;
      as corrected its entry is gone once c seconds have passed. */
  lemma SecondObjectLockedOut(player: Body, other: Body, c: real, dts: seq<real>)
    requires player != other && c > 0.0
    requires |dts| > 0 && (forall i :: 0 <= i < |dts| ==> dts[i] >= 0.0) && Elapsed(dts) >= c
    ensures FramesAsWritten([Entry(player, c), Entry(other, c)], dts)[1] == Entry(other, c)
    ensures other !in FramesDecayed(map[player := c, other := c], dts)
  {
    NonHeadCooldownNeverDecreases([Entry(player, c), Entry(other, c)], dts, 1);
    CooldownGoneAfterItsTime(map[player := c, other := c], dts, other);
  }

  /** The table part-way through Update: entries still pending keep their old value. */
  ghost function Lowered(cooldowns: map<Body, real>, dt: real, pending: set<Body>): map<Body, real>
  {
    map b | b in cooldowns :: if b in pending then cooldowns[b] else cooldowns[b] - dt
  }

  /** The entries Update removes. */
  ghost function Expired(cooldowns: map<Body, real>, dt: real): set<Body>
  {
    set b | b in cooldowns && cooldowns[b] - dt <= 0.0
  }

  lemma LowerOne(cooldowns: map<Body, real>, dt: real, pending: set<Body>, b: Body)
    requires b in pending && pending <= cooldowns.Keys
    ensures Lowered(cooldowns, dt, pending)[b := cooldowns[b] - dt] == Lowered(cooldowns, dt, pending - {b})
  {
    var l := Lowered(cooldowns, dt, pending)[b := cooldowns[b] - dt];
    var r := Lowered(cooldowns, dt, pending - {b});
    assert l.Keys == r.Keys;
  }

  lemma RemoveOne(m: map<Body, real>, removed: set<Body>, b: Body)
    ensures (m - removed) - {b} == m - (removed + {b})
  {
    assert ((m - removed) - {b}).Keys == (m - (removed + {b})).Keys;
  }

  lemma DecayedIsLoweredMinusExpired(cooldowns: map<Body, real>, dt: real)
    ensures Lowered(cooldowns, dt, {}) - Expired(cooldowns, dt) == Decayed(cooldowns, dt)
  {
    assert (Lowered(cooldowns, dt, {}) - Expired(cooldowns, dt)).Keys == Decayed(cooldowns, dt).Keys;
  }

  /** The objects a list names. */
  ghost function Collected(objs: seq<Body>): set<Body>
  {
    set b | b in objs
  }

  /** Update's first loop: every entry loses dt, and the entries that reach
      zero or below are listed for removal. */
  method DecrementAll(table: map<Body, real>, dt: real) returns (lowered: map<Body, real>, toRemove: seq<Body>)
    ensures lowered == Lowered(table, dt, {})
    ensures Collected(toRemove) == Expired(table, dt)
  {
    ghost var expired := Expired(table, dt);
    toRemove := [];
    var pending := table.Keys;
    lowered := table;
    while pending != {}
      invariant pending <= table.Keys
      invariant lowered == Lowered(table, dt, pending)
      invariant forall j :: 0 <= j < |toRemove| ==> toRemove[j] in expired && toRemove[j] !in pending
      invariant forall b <- expired :: b !in pending ==> b in toRemove
      decreases |pending|
    {
      var b :| b in pending;
      LowerOne(table, dt, pending, b);
      lowered := lowered[b := lowered[b] - dt];
      if lowered[b] <= 0.0 {
        toRemove := toRemove + [b];
      }
      pending := pending - {b};
    }
    assert lowered == Lowered(table, dt, {});
  }

  /** Update's second loop: remove every listed entry. */
  method RemoveAll(table: map<Body, real>, toRemove: seq<Body>) returns (pruned: map<Body, real>)
    ensures pruned == table - Collected(toRemove)
  {
    pruned := table;
    ghost var removed: set<Body> := {};
    for i := 0 to |toRemove|
      invariant pruned == table - removed
      invariant removed == Collected(toRemove[..i])
    {
      RemoveOne(table, removed, toRemove[i]);
      assert Collected(toRemove[..i + 1]) == removed + {toRemove[i]};
      pruned := pruned - {toRemove[i]};
      removed := removed + {toRemove[i]};
    }
    assert toRemove[..|toRemove|] == toRemove;
  }

  /** Whether an object touching a teleporter is sent: it must be off cooldown
      there, and be the player, or a ghost when ghosts may teleport. */
  predicate Admits(cooldowns: map<Body, real>, canTeleportGhosts: bool, obj: Body)
  {
    && !(obj in cooldowns && cooldowns[obj] > 0.0)
    && (obj.tag == PlayerTag || (obj.tag == GhostTag && canTeleportGhosts))
  }

  /** An object set to cooldown c is refused by that teleporter for every
      sequence of frames whose total time stays under c, and its entry is gone
      once the total reaches c. */
  lemma CooldownWindow(cooldowns: map<Body, real>, canTeleportGhosts: bool, obj: Body, c: real, elapsed: real)
    requires elapsed >= 0.0
    ensures elapsed < c ==> !Admits(Decayed(cooldowns[obj := c], elapsed), canTeleportGhosts, obj)
    ensures elapsed >= c ==> obj !in Decayed(cooldowns[obj := c], elapsed)
  {
  }

  /** Where an object lands: offset units from the destination, on the side
      facing this teleporter. `normalize` stands for Vector3.normalized. */
  function Landing(self: Vec, dest: Vec, offset: real, normalize: Vec -> Vec): (r: Vec)
    ensures SqDist(r, dest) == offset * offset * SqDist(normalize(Sub(self, dest)), Origin)
  {
    Add(dest, Scale(offset, normalize(Sub(self, dest))))
  }

  /** What Vector3.normalized returns: the zero vector for the zero vector,
      otherwise a vector of length 1 pointing the same way. */
  ghost predicate Normalizes(normalize: Vec -> Vec)
  {
    && normalize(Origin) == Origin
    && forall v :: v != Origin ==>
         && SqDist(normalize(v), Origin) == 1.0
         && exists k :: k > 0.0 && normalize(v) == Scale(k, v)
  }

  /** An object sent from a teleporter lands exactly `offset` units from the
      destination, on the ray from the destination toward this teleporter;
      when the two coincide it lands on the destination itself. */
  lemma LandingBesideDestination(self: Vec, dest: Vec, offset: real, normalize: Vec -> Vec)
    requires Normalizes(normalize)
    ensures self == dest ==> Landing(self, dest, offset, normalize) == dest
    ensures self != dest ==> SqDist(Landing(self, dest, offset, normalize), dest) == offset * offset
    ensures self != dest ==>
              exists k :: k > 0.0 && Sub(Landing(self, dest, offset, normalize), dest) == Scale(offset, Scale(k, Sub(self, dest)))
  {
    var r := Landing(self, dest, offset, normalize);
    var v := Sub(self, dest);
    if self == dest {
      assert v == Origin;
    } else {
      assert v != Origin;
      var n := normalize(v);
      var k :| k > 0.0 && n == Scale(k, v);
      assert r.x - dest.x == offset * n.x && r.y - dest.y == offset * n.y;
      calc {
        SqDist(r, dest);
        (offset * n.x) * (offset * n.x) + (offset * n.y) * (offset * n.y);
        offset * offset * (n.x * n.x + n.y * n.y);
        { assert SqDist(n, Origin) == n.x * n.x + n.y * n.y == 1.0; }
        offset * offset;
      }
      assert k > 0.0 && Sub(r, dest) == Scale(offset, Scale(k, Sub(self, dest)));
    }
  }

  class Teleporter {
    const position: Vec
    const canTeleportGhosts: bool
    const teleportCooldown: real
    const teleportOffset: real
    var destination: Exit
    var cooldowns: map<Body, real>

    constructor (position: Vec, canTeleportGhosts: bool, teleportCooldown: real, teleportOffset: real)
      ensures this.position == position && this.canTeleportGhosts == canTeleportGhosts
      ensures this.teleportCooldown == teleportCooldown && this.teleportOffset == teleportOffset
      ensures destination == NoExit && cooldowns == map[]
    {
      this.position := position;
      this.canTeleportGhosts := canTeleportGhosts;
      this.teleportCooldown := teleportCooldown;
      this.teleportOffset := teleportOffset;
      destination := NoExit;
      cooldowns := map[];
    }

    /** The teleporter at the other end, when the destination has one. */
    function Partner(): set<Teleporter>
      reads this
    {
      if destination.TeleporterExit? then {destination.target} else {}
    }

    /** The destination transform's position. */
    function DestinationAt(): Vec
      reads this, Partner()
      requires !destination.NoExit?
    {
      match destination
      case PlainExit(at) => at
      case TeleporterExit(t) => t.position
    }

    /** Update: decrement every cooldown by dt, collect the expired ones, then remove them. */
    method Update(dt: real)
      modifies this
      ensures cooldowns == Decayed(old(cooldowns), dt)
      ensures destination == old(destination)
    {
      var lowered, toRemove := DecrementAll(cooldowns, dt);
      var pruned := RemoveAll(lowered, toRemove);
      assert Collected(toRemove) == Expired(cooldowns, dt);
      DecayedIsLoweredMinusExpired(cooldowns, dt);
      cooldowns := pruned;
    }

    /** OnTriggerEnter2D: an admitted object is teleported, anything else is ignored. */
    method OnTriggerEnter2D(obj: Body, normalize: Vec -> Vec)
      modifies this, obj, Partner()
      ensures destination == old(destination)
      ensures destination.TeleporterExit? ==> destination.target.destination == old(destination.target.destination)
      ensures !Admits(old(cooldowns), canTeleportGhosts, obj) ==>
                cooldowns == old(cooldowns) && obj.position == old(obj.position)
                && (destination.TeleporterExit? ==> destination.target.cooldowns == old(destination.target.cooldowns))
      ensures Admits(old(cooldowns), canTeleportGhosts, obj) ==> Sent(obj, normalize)
    {
      if obj in cooldowns && cooldowns[obj] > 0.0 {
        return;
      }
      if obj.tag == PlayerTag {
        TeleportObject(obj, normalize);
      } else if obj.tag == GhostTag && canTeleportGhosts {
        TeleportObject(obj, normalize);
      }
    }

    /** What TeleportObject leaves behind, compared with the state before it. */
    twostate predicate Sent(obj: Body, normalize: Vec -> Vec)
      reads this, obj, Partner()
    {
      && destination == old(destination)
      && (destination.TeleporterExit? ==> destination.target.destination == old(destination.target.destination))
      && (old(destination).NoExit? ==>
            cooldowns == old(cooldowns) && obj.position == old(obj.position))
      && (!old(destination).NoExit? ==>
            && obj.position == Landing(position, old(DestinationAt()), teleportOffset, normalize)
            && cooldowns == old(cooldowns)[obj := teleportCooldown]
            && (destination.TeleporterExit? ==>
                  destination.target.cooldowns == old(destination.target.cooldowns)[obj := teleportCooldown]))
    }

    /** TeleportObject: with a destination, move the object beside it and put
        it on cooldown here and at a destination teleporter; without one, nothing. */
    method TeleportObject(obj: Body, normalize: Vec -> Vec)
      modifies this, obj, Partner()
      ensures Sent(obj, normalize)
    {
      if !destination.NoExit? {
        var dest := DestinationAt();
        var direction := normalize(Sub(position, dest));
        var targetPosition := Add(dest, Scale(teleportOffset, direction));
        obj.position := targetPosition;
        cooldowns := cooldowns[obj := teleportCooldown];
        if destination.TeleporterExit? {
          var destinationTeleporter := destination.target;
          destinationTeleporter.cooldowns := destinationTeleporter.cooldowns[obj := teleportCooldown];
        }
      }
    }
  }
}
