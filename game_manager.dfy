/**
 * The game coordinator: score, lives and pellet accounting, the win and
 * game-over triggers, death and respawn, and the staggered ghost release.
 * Coroutines and Invoke become countdown fields that Advance* methods
 * resume frame by frame, and the release coroutine becomes a queue of
 * pending releases; a scene reload becomes the flag `reloadRequested`.
 */
module Game {
  import opened Common
  import opened Ghosts
  import opened Player

  /* ---------------------------------------------------------------- */
  /* Score, lives and pellets                                          */
  /* ---------------------------------------------------------------- */

  const BonusScore: int := 10000
  const MaxLives: int := 5

  /** A pellet is worth 10, a power pellet 50; the 200 for a ghost is no pellet. */
  predicate IsPellet(points: int)
  {
    points == 10 || points == 50
  }

  /** The counters AddScore and PlayerDied change. */
  datatype Scoreboard = Scoreboard(score: int, lives: int, totalPellets: int, collectedPellets: int)
  {
    /** AddScore wins the level: a pellet that brings the collected count up to the total. */
    predicate Wins(points: int)
    {
      IsPellet(points) && collectedPellets + 1 >= totalPellets
    }

    /** AddScore: add the points, count a pellet, then grant a life while the
        score is at least 10000 and there are fewer than 5 lives. The bonus
        is re-tested on every call, not only when the score crosses 10000. */
    function AddScore(points: int): (r: Scoreboard)
      ensures r.score == score + points && r.totalPellets == totalPellets
      ensures r.collectedPellets == collectedPellets + (if IsPellet(points) then 1 else 0)
      ensures r.lives == lives + 1 <==> r.score >= BonusScore && lives < MaxLives
      ensures r.lives == lives <==> !(r.score >= BonusScore && lives < MaxLives)
      ensures lives <= MaxLives ==> r.lives <= MaxLives
    {
      var s := score + points;
      var c := if IsPellet(points) then collectedPellets + 1 else collectedPellets;
      Scoreboard(s, if s >= BonusScore && lives < MaxLives then lives + 1 else lives, totalPellets, c)
    }

    /** PlayerDied's bookkeeping: one life fewer, nothing else. */
    function LoseLife(): (r: Scoreboard)
      ensures r.lives == lives - 1 && r.(lives := lives) == this
    {
      this.(lives := lives - 1)
    }
  }

  /** The score of `n` identical AddScore calls. */
  function Repeated(b: Scoreboard, points: int, n: nat): Scoreboard
  {
    if n == 0 then b else Repeated(b, points, n - 1).AddScore(points)
  }

  /** The bonus life is level-triggered: once the score is at least 10000,
      every further non-negative AddScore grants a life until there are 5,
      so n calls raise the lives to min(5, lives + n). */
  lemma {:induction false} BonusLifeRepeats(b: Scoreboard, points: int, n: nat)
    requires b.score >= BonusScore && points >= 0 && b.lives <= MaxLives
    ensures Repeated(b, points, n).lives == if b.lives + n <= MaxLives then b.lives + n else MaxLives
    ensures Repeated(b, points, n).score == b.score + n * points
  {
    if n > 0 {
      BonusLifeRepeats(b, points, n - 1);
    }
  }

  /** Win is reached exactly when a pellet makes the collected count reach the total. */
  lemma WinsExactlyWhenLastPellet(b: Scoreboard, points: int)
    ensures b.Wins(points) <==> IsPellet(points) && b.AddScore(points).collectedPellets >= b.totalPellets
    ensures points == 200 ==> !b.Wins(points) && b.AddScore(points).collectedPellets == b.collectedPellets
  {
  }

  /* ---------------------------------------------------------------- */
  /* Life icons                                                        */
  /* ---------------------------------------------------------------- */

  /** A slot of the lifeIcons array: an unassigned (null) entry, or an icon and whether it shows. */
  datatype IconSlot = Missing | Icon(active: bool)

  /** UpdateUI's icon rule: every assigned icon i is shown iff i < lives. */
  function Shown(icons: seq<IconSlot>, lives: int): (r: seq<IconSlot>)
    ensures |r| == |icons|
    ensures forall i :: 0 <= i < |r| ==> (r[i].Missing? <==> icons[i].Missing?)
    ensures forall i :: 0 <= i < |r| && r[i].Icon? ==> (r[i].active <==> i < lives)
  {
    seq(|icons|, i requires 0 <= i < |icons| => if icons[i].Missing? then Missing else Icon(i < lives))
  }

  /** Redrawing the icons depends only on the latest number of lives. */
  lemma ShownTwice(icons: seq<IconSlot>, lives1: int, lives2: int)
    ensures Shown(Shown(icons, lives1), lives2) == Shown(icons, lives2)
  {
    var twice := Shown(Shown(icons, lives1), lives2);
    assert forall i :: 0 <= i < |twice| ==> twice[i] == Shown(icons, lives2)[i];
  }

  function ActiveCount(icons: seq<IconSlot>): nat
  {
    if |icons| == 0 then 0
    else ActiveCount(icons[..|icons| - 1]) + (if icons[|icons| - 1] == Icon(true) then 1 else 0)
  }

  /** With every slot assigned, the number of icons shown is the number of
      lives, capped by the number of slots (and zero for no lives). */
  lemma {:induction false} ShownCountsLives(icons: seq<IconSlot>, lives: int)
    requires forall i :: 0 <= i < |icons| ==> icons[i].Icon?
    ensures ActiveCount(Shown(icons, lives)) ==
              if lives <= 0 then 0 else if lives <= |icons| then lives else |icons|
  {
    if |icons| > 0 {
      var n := |icons| - 1;
      assert Shown(icons, lives)[..n] == Shown(icons[..n], lives);
      ShownCountsLives(icons[..n], lives);
    }
  }

  /* ---------------------------------------------------------------- */
  /* Countdowns (WaitForSeconds and Invoke)                            */
  /* ---------------------------------------------------------------- */

  /** A pending WaitForSeconds or Invoke and the time it still has to wait. */
  datatype Countdown = Idle | Pending(left: real)
  {
    /** This frame resumes the waiting code. */
    predicate FiresAfter(dt: real)
    {
      Pending? && left - dt <= 0.0
    }

    /** The countdown after a frame of length dt. */
    function Tick(dt: real): (r: Countdown)
      ensures FiresAfter(dt) ==> r == Idle
      ensures Pending? && !FiresAfter(dt) ==> r == Pending(left - dt)
      ensures Idle? ==> r == Idle
    {
      if !Pending? then Idle else if left - dt <= 0.0 then Idle else Pending(left - dt)
    }
  }

  /** Invoke schedules a call; a second Invoke before the first fires changes
      nothing observable, because the first one reloads the scene. */
  function Schedule(c: Countdown, delay: real): Countdown
  {
    if c.Idle? then Pending(delay) else c
  }

  /* ---------------------------------------------------------------- */
  /* Staggered ghost release                                           */
  /* ---------------------------------------------------------------- */

  /** The configured release delay of each archetype. */
  datatype ReleaseDelays = ReleaseDelays(blinky: real, pinky: real, inky: real, clyde: real)
  {
    function Of(k: GhostType): real
    {
      match k
      case Blinky => blinky
      case Pinky => pinky
      case Inky => inky
      case Clyde => clyde
    }
  }

  /** The position of an archetype in the release order red, pink, cyan, orange. */
  function Rank(k: GhostType): nat
  {
    match k
    case Blinky => 0
    case Pinky => 1
    case Inky => 2
    case Clyde => 3
  }

  /** The index of the last ghost of archetype k: ReleaseGhosts' switch keeps
      overwriting its local, so a later ghost of an archetype replaces an earlier one. */
  function LastOf(kinds: seq<GhostType>, k: GhostType): (r: Option<nat>)
    ensures r.None? <==> k !in kinds
    ensures r.Some? ==> r.value < |kinds| && kinds[r.value] == k
    ensures r.Some? ==> forall j :: r.value < j < |kinds| ==> kinds[j] != k
  {
    if |kinds| == 0 then None
    else if kinds[|kinds| - 1] == k then Some(|kinds| - 1)
    else LastOf(kinds[..|kinds| - 1], k)
  }

  /** Looking at one more ghost: it becomes the last of its archetype. */
  lemma LastOfExtend(kinds: seq<GhostType>, i: nat, k: GhostType)
    requires i < |kinds|
    ensures LastOf(kinds[..i + 1], k) == if kinds[i] == k then Some(i) else LastOf(kinds[..i], k)
  {
    assert kinds[..i + 1][..i] == kinds[..i];
  }

  function Present(o: Option<nat>): seq<nat>
  {
    if o.Some? then [o.value] else []
  }

  /** The sortedGhosts list: the last Blinky, Pinky, Inky and Clyde, in that order, each when present. */
  function ReleaseOrder(kinds: seq<GhostType>): seq<nat>
  {
    Present(LastOf(kinds, Blinky)) + Present(LastOf(kinds, Pinky)) +
    Present(LastOf(kinds, Inky)) + Present(LastOf(kinds, Clyde))
  }

  /** The indices the archetypes ks pick out, in the order of ks. */
  function OrderOf(kinds: seq<GhostType>, ks: seq<GhostType>): seq<nat>
  {
    if |ks| == 0 then [] else Present(LastOf(kinds, ks[0])) + OrderOf(kinds, ks[1..])
  }

  /** Index x is valid, of an archetype of ks, and the last of its archetype. */
  predicate PicksLast(kinds: seq<GhostType>, ks: seq<GhostType>, x: nat)
  {
    x < |kinds| && kinds[x] in ks && LastOf(kinds, kinds[x]) == Some(x)
  }

  /** Every index ks picks out is valid, of an archetype of ks, and the last of its archetype. */
  lemma {:induction false} OrderOfPicksLast(kinds: seq<GhostType>, ks: seq<GhostType>)
    ensures forall i :: 0 <= i < |OrderOf(kinds, ks)| ==> PicksLast(kinds, ks, OrderOf(kinds, ks)[i])
  {
    if |ks| > 0 {
      OrderOfPicksLast(kinds, ks[1..]);
      var head := Present(LastOf(kinds, ks[0]));
      var tail := OrderOf(kinds, ks[1..]);
      var o := OrderOf(kinds, ks);
      assert o == head + tail;
      assert |o| == |head| + |tail|;
      forall i | 0 <= i < |o|
        ensures PicksLast(kinds, ks, o[i])
      {
        if i < |head| {
          assert o[i] == LastOf(kinds, ks[0]).value;
        } else {
          assert o[i] == tail[i - |head|];
          assert PicksLast(kinds, ks[1..], o[i]);
        }
      }
    }
  }

  /** Ghost x is of an archetype released before ghost y's. */
  predicate RankBelow(kinds: seq<GhostType>, x: nat, y: nat)
  {
    x < |kinds| && y < |kinds| && Rank(kinds[x]) < Rank(kinds[y])
  }

  /** When ks is in increasing rank, so are the archetypes OrderOf picks out. */
  lemma {:induction false} OrderOfRanked(kinds: seq<GhostType>, ks: seq<GhostType>)
    requires forall i, j :: 0 <= i < j < |ks| ==> Rank(ks[i]) < Rank(ks[j])
    ensures forall i :: 0 <= i < |OrderOf(kinds, ks)| ==> OrderOf(kinds, ks)[i] < |kinds|
    ensures forall i, j :: 0 <= i < j < |OrderOf(kinds, ks)| ==> RankBelow(kinds, OrderOf(kinds, ks)[i], OrderOf(kinds, ks)[j])
  {
    OrderOfPicksLast(kinds, ks);
    if |ks| > 0 {
      var rest := ks[1..];
      OrderOfRanked(kinds, rest);
      OrderOfPicksLast(kinds, rest);
      var head := Present(LastOf(kinds, ks[0]));
      var tail := OrderOf(kinds, rest);
      var o := OrderOf(kinds, ks);
      assert o == head + tail;
      assert |o| == |head| + |tail|;
      TailRanksAbove(kinds, ks);
      forall i, j | 0 <= i < j < |o|
        ensures RankBelow(kinds, o[i], o[j])
      {
        assert PicksLast(kinds, ks, o[i]) && PicksLast(kinds, ks, o[j]);
        assert o[j] == tail[j - |head|];
        if i >= |head| {
          assert o[i] == tail[i - |head|];
        }
      }
    }
  }

  /** For archetypes in increasing rank, every ghost the tail picks out ranks above the head. */
  lemma TailRanksAbove(kinds: seq<GhostType>, ks: seq<GhostType>)
    requires |ks| > 0
    requires forall i, j :: 0 <= i < j < |ks| ==> Rank(ks[i]) < Rank(ks[j])
    ensures forall i :: 0 <= i < |OrderOf(kinds, ks[1..])| ==>
              OrderOf(kinds, ks[1..])[i] < |kinds| && Rank(ks[0]) < Rank(kinds[OrderOf(kinds, ks[1..])[i]])
  {
    var rest := ks[1..];
    var tail := OrderOf(kinds, rest);
    OrderOfPicksLast(kinds, rest);
    forall i | 0 <= i < |tail|
      ensures tail[i] < |kinds| && Rank(ks[0]) < Rank(kinds[tail[i]])
    {
      assert PicksLast(kinds, rest, tail[i]);
      var m :| 0 <= m < |rest| && rest[m] == kinds[tail[i]];
      assert ks[m + 1] == rest[m];
    }
  }

  /** Some index of o is a ghost of archetype k. */
  predicate Picked(kinds: seq<GhostType>, o: seq<nat>, k: GhostType)
  {
    exists i :: 0 <= i < |o| && o[i] < |kinds| && kinds[o[i]] == k
  }

  /** Every archetype of ks that occurs in kinds is picked out. */
  lemma {:induction false} OrderOfComplete(kinds: seq<GhostType>, ks: seq<GhostType>)
    ensures forall k :: k in ks && k in kinds ==> Picked(kinds, OrderOf(kinds, ks), k)
  {
    if |ks| > 0 {
      var rest := ks[1..];
      OrderOfComplete(kinds, rest);
      var head := Present(LastOf(kinds, ks[0]));
      var tail := OrderOf(kinds, rest);
      var o := OrderOf(kinds, ks);
      assert o == head + tail;
      assert |o| == |head| + |tail|;
      forall k | k in ks && k in kinds
        ensures Picked(kinds, o, k)
      {
        if k == ks[0] {
          assert o[0] == LastOf(kinds, k).value;
        } else {
          assert k in rest;
          assert Picked(kinds, tail, k);
          var i :| 0 <= i < |tail| && tail[i] < |kinds| && kinds[tail[i]] == k;
          assert o[|head| + i] == tail[i];
        }
      }
    }
  }

  /** ReleaseOrder is OrderOf over red, pink, cyan, orange. */
  lemma ReleaseOrderIsOrderOf(kinds: seq<GhostType>)
    ensures ReleaseOrder(kinds) == OrderOf(kinds, [Blinky, Pinky, Inky, Clyde])
  {
    var ks := [Blinky, Pinky, Inky, Clyde];
    assert ks[1..] == [Pinky, Inky, Clyde] && ks[1..][1..] == [Inky, Clyde] && ks[1..][1..][1..] == [Clyde];
    assert ks[1..][1..][1..][1..] == [];
    calc {
      OrderOf(kinds, ks);
      Present(LastOf(kinds, Blinky)) + OrderOf(kinds, [Pinky, Inky, Clyde]);
      Present(LastOf(kinds, Blinky)) + (Present(LastOf(kinds, Pinky)) + OrderOf(kinds, [Inky, Clyde]));
      Present(LastOf(kinds, Blinky)) + (Present(LastOf(kinds, Pinky)) +
        (Present(LastOf(kinds, Inky)) + OrderOf(kinds, [Clyde])));
      Present(LastOf(kinds, Blinky)) + (Present(LastOf(kinds, Pinky)) +
        (Present(LastOf(kinds, Inky)) + (Present(LastOf(kinds, Clyde)) + OrderOf(kinds, []))));
      ReleaseOrder(kinds);
    }
  }

  /** The release order lists valid indices, in strictly increasing archetype
      rank (so each archetype at most once, in the order red, pink, cyan,
      orange); every archetype present is listed, by its last ghost. */
  lemma ReleaseOrderIsRanked(kinds: seq<GhostType>)
    ensures var order := ReleaseOrder(kinds);
            && (forall i :: 0 <= i < |order| ==> order[i] < |kinds|)
            && (forall i, j :: 0 <= i < j < |order| ==> Rank(kinds[order[i]]) < Rank(kinds[order[j]]))
            && (forall k :: k in kinds <==> exists i :: 0 <= i < |order| && kinds[order[i]] == k)
            && (forall i :: 0 <= i < |order| ==> LastOf(kinds, kinds[order[i]]) == Some(order[i]))
  {
    var ks := [Blinky, Pinky, Inky, Clyde];
    ReleaseOrderIsOrderOf(kinds);
    OrderOfPicksLast(kinds, ks);
    OrderOfRanked(kinds, ks);
    OrderOfComplete(kinds, ks);
    forall k | k in kinds
      ensures k in ks
    {
      match k
      case Blinky => case Pinky => case Inky => case Clyde =>
    }
  }

  /** ReleaseOrder lists distinct ghosts. */
  lemma ReleaseOrderDistinct(kinds: seq<GhostType>)
    ensures var order := ReleaseOrder(kinds);
            forall i, j :: 0 <= i < j < |order| ==> order[i] != order[j]
  {
    ReleaseOrderIsRanked(kinds);
  }

  /** The wait ReleaseGhosts yields before release i, given the delays along
      the release order: the first delay when it is positive, afterwards the
      difference to the previous delay when that is positive, else none. */
  function Wait(ds: seq<real>, i: nat): (r: real)
    requires i < |ds|
    ensures r >= 0.0
    ensures i == 0 ==> r >= ds[0]
    ensures i > 0 ==> r >= ds[i] - ds[i - 1]
  {
    var w := if i == 0 then ds[0] else ds[i] - ds[i - 1];
    if w > 0.0 then w else 0.0
  }

  /** The total wait before release i. */
  function Elapsed(ds: seq<real>, i: nat): real
    requires i < |ds|
  {
    if i == 0 then Wait(ds, 0) else Elapsed(ds, i - 1) + Wait(ds, i)
  }

  /** No ghost is released before its configured delay (nor before time 0),
      and releases come in order. */
  lemma {:induction false} ReleaseNeverEarly(ds: seq<real>, i: nat)
    requires i < |ds|
    ensures Elapsed(ds, i) >= ds[i] && Elapsed(ds, i) >= 0.0
    ensures i > 0 ==> Elapsed(ds, i) >= Elapsed(ds, i - 1)
  {
    if i > 0 {
      ReleaseNeverEarly(ds, i - 1);
    }
  }

  /** With non-negative, non-decreasing delays, ghost i is released exactly at its delay. */
  lemma {:induction false} ReleaseOnSchedule(ds: seq<real>, i: nat)
    requires i < |ds|
    requires |ds| > 0 ==> ds[0] >= 0.0
    requires forall j :: 0 < j < |ds| ==> ds[j - 1] <= ds[j]
    ensures Elapsed(ds, i) == ds[i]
  {
    if i > 0 {
      ReleaseOnSchedule(ds, i - 1);
    }
  }

  /** A pending release: the index of the ghost in the ghost list and the wait before it. */
  datatype Release = Release(index: nat, wait: real)

  /** The configured delays along a release order. */
  function DelaysAlong(order: seq<nat>, kinds: seq<GhostType>, delays: ReleaseDelays): (ds: seq<real>)
    ensures |ds| == |order|
    ensures forall i :: 0 <= i < |order| && order[i] < |kinds| ==> ds[i] == delays.Of(kinds[order[i]])
  {
    seq(|order|, i requires 0 <= i < |order| => if order[i] < |kinds| then delays.Of(kinds[order[i]]) else 0.0)
  }

  /** The queue of the release coroutine: each ghost of the order with the wait before it. */
  function ReleasePlan(order: seq<nat>, kinds: seq<GhostType>, delays: ReleaseDelays): (r: seq<Release>)
    ensures |r| == |order|
    ensures forall i :: 0 <= i < |r| ==> r[i].index == order[i] && r[i].wait == Wait(DelaysAlong(order, kinds, delays), i)
  {
    var ds := DelaysAlong(order, kinds, delays);
    seq(|order|, i requires 0 <= i < |order| => Release(order[i], Wait(ds, i)))
  }

  /** The number of releases at the head of the queue that are due without a further wait. */
  function ReadyCount(q: seq<Release>): (r: nat)
    ensures r <= |q|
    ensures forall i :: 0 <= i < r ==> q[i].wait <= 0.0
    ensures r < |q| ==> q[r].wait > 0.0
  {
    if |q| == 0 || q[0].wait > 0.0 then 0 else 1 + ReadyCount(q[1..])
  }

  /** Ghost j is among the releases in q. */
  predicate Releases(q: seq<Release>, j: nat)
  {
    exists i :: 0 <= i < |q| && q[i].index == j
  }

  /** Taking one more release from the queue. */
  lemma ReleasesExtend(q: seq<Release>, k: nat, j: nat)
    requires k < |q|
    ensures Releases(q[..k + 1], j) <==> Releases(q[..k], j) || q[k].index == j
  {
    if Releases(q[..k], j) {
      var i :| 0 <= i < k && q[..k][i].index == j;
      assert q[..k + 1][i] == q[..k][i];
    }
    if q[k].index == j {
      assert q[..k + 1][k].index == j;
    }
  }

  /** One frame of the release coroutine's current wait. */
  function TickHead(q: seq<Release>, dt: real): (r: seq<Release>)
    ensures |r| == |q| && (|q| > 0 ==> r[1..] == q[1..] && r[0] == q[0].(wait := q[0].wait - dt))
  {
    if |q| == 0 then q else [q[0].(wait := q[0].wait - dt)] + q[1..]
  }

  /* ---------------------------------------------------------------- */
  /* The coordinator                                                   */
  /* ---------------------------------------------------------------- */

  /** The static persistentScore, which outlives a scene reload. */
  class Session {
    var persistentScore: int

    constructor ()
      ensures persistentScore == 0
    {
      persistentScore := 0;
    }
  }

  class GameManager {
    const session: Session
    const player: PacMan
    const ghosts: seq<Ghost>
    const lifeIcons: array<IconSlot>
    const delays: ReleaseDelays
    const introDelay: real
    const playerStartPosition: Vec

    var score: int
    var lives: int
    var totalPellets: int
    var collectedPellets: int
    /** IntroSequence, RespawnSequence and the Invokes of NextLevel and RestartGame. */
    var intro: Countdown
    var respawn: Countdown
    var nextLevel: Countdown
    var restart: Countdown
    /** The ReleaseGhosts coroutine: the releases still to come. */
    var releaseQueue: seq<Release>
    var reloadRequested: bool

    function Board(): Scoreboard
      reads this
    {
      Scoreboard(score, lives, totalPellets, collectedPellets)
    }

    /** The score mirrors the persistent score, the ghosts are distinct
        objects, and the release coroutine waits on its head (if any). */
    predicate Valid()
      reads this, session
    {
      && score == session.persistentScore
      && (forall i, j :: 0 <= i < j < |ghosts| ==> ghosts[i] != ghosts[j])
      && (forall r :: r in releaseQueue ==> r.index < |ghosts|)
      && (|releaseQueue| > 0 ==> releaseQueue[0].wait > 0.0)
    }

    function Kinds(): (r: seq<GhostType>)
      ensures |r| == |ghosts| && forall i :: 0 <= i < |ghosts| ==> r[i] == ghosts[i].kind
    {
      seq(|ghosts|, i requires 0 <= i < |ghosts| => ghosts[i].kind)
    }

    /** Awake and Start: load the persistent score, count the pellets in the
        scene, draw the UI and start the intro wait. */
    constructor (session: Session, player: PacMan, ghosts: seq<Ghost>, lifeIcons: array<IconSlot>,
                 delays: ReleaseDelays, introDelay: real, lives: int, pellets: nat, powerPellets: nat)
      requires forall i, j :: 0 <= i < j < |ghosts| ==> ghosts[i] != ghosts[j]
      modifies lifeIcons
      ensures Valid()
      ensures this.session == session && this.player == player && this.ghosts == ghosts
      ensures this.lifeIcons == lifeIcons && this.delays == delays && this.introDelay == introDelay
      ensures playerStartPosition == player.position
      ensures Board() == Scoreboard(session.persistentScore, lives, pellets + powerPellets, 0)
      ensures intro == Pending(introDelay) && respawn == Idle && nextLevel == Idle && restart == Idle
      ensures releaseQueue == [] && !reloadRequested
      ensures lifeIcons[..] == Shown(old(lifeIcons[..]), lives)
    {
      this.session := session;
      this.player := player;
      this.ghosts := ghosts;
      this.lifeIcons := lifeIcons;
      this.delays := delays;
      this.introDelay := introDelay;
      playerStartPosition := player.position;
      score := session.persistentScore;
      this.lives := lives;
      totalPellets := 0;
      collectedPellets := 0;
      intro := Pending(introDelay);
      respawn := Idle;
      nextLevel := Idle;
      restart := Idle;
      releaseQueue := [];
      reloadRequested := false;
      new;
      CountPellets(pellets, powerPellets);
      UpdateUI();
    }

    /** CountPellets: the pellets and power pellets present make up the total; none collected. */
    method CountPellets(pellets: nat, powerPellets: nat)
      modifies this
      ensures Board() == old(Board()).(totalPellets := pellets + powerPellets, collectedPellets := 0)
      ensures intro == old(intro) && respawn == old(respawn) && nextLevel == old(nextLevel)
      ensures restart == old(restart) && releaseQueue == old(releaseQueue)
      ensures reloadRequested == old(reloadRequested)
    {
      totalPellets := pellets + powerPellets;
      collectedPellets := 0;
    }

    /** UpdateUI's icon loop (the score and lives texts are presentation). */
    method UpdateUI()
      modifies lifeIcons
      ensures lifeIcons[..] == Shown(old(lifeIcons[..]), lives)
    {
      for i := 0 to lifeIcons.Length
        invariant forall j :: 0 <= j < i ==> lifeIcons[j] == Shown(old(lifeIcons[..]), lives)[j]
        invariant forall j :: i <= j < lifeIcons.Length ==> lifeIcons[j] == old(lifeIcons[j])
      {
        if lifeIcons[i].Icon? {
          lifeIcons[i] := Icon(i < lives);
        }
      }
    }

    /** The intro wait of one frame; when it ends the game starts. */
    method AdvanceIntro(dt: real)
      requires Valid()
      modifies this, player, ghosts
      ensures Valid()
      ensures intro == old(intro).Tick(dt)
      ensures !old(intro).FiresAfter(dt) ==>
                && releaseQueue == old(releaseQueue) && player.State() == old(player.State())
                && forall j :: 0 <= j < |ghosts| ==> ghosts[j].State() == old(ghosts[j].State())
      ensures old(intro).FiresAfter(dt) ==>
                && player.State() == old(player.State()).(canMove := true)
                && var plan := ReleasePlan(ReleaseOrder(Kinds()), Kinds(), delays);
                   && releaseQueue == plan[ReadyCount(plan)..]
                   && forall j :: 0 <= j < |ghosts| ==>
                        ghosts[j].State() == (if Releases(plan[..ReadyCount(plan)], j)
                                              then old(ghosts[j].State()).EnableMovement()
                                              else old(ghosts[j].State()))
      ensures Board() == old(Board()) && respawn == old(respawn) && nextLevel == old(nextLevel)
      ensures restart == old(restart) && reloadRequested == old(reloadRequested)
    {
      if intro.Pending? {
        if intro.left - dt <= 0.0 {
          intro := Idle;
          StartGame();
        } else {
          intro := Pending(intro.left - dt);
        }
      }
    }

    /** StartGame: Pac-Man may move, and the ghost release begins. */
    method StartGame()
      requires Valid()
      modifies this, player, ghosts
      ensures Valid()
      ensures player.State() == old(player.State()).(canMove := true)
      ensures var plan := ReleasePlan(ReleaseOrder(Kinds()), Kinds(), delays);
              && releaseQueue == plan[ReadyCount(plan)..]
              && forall j :: 0 <= j < |ghosts| ==>
                   ghosts[j].State() == (if Releases(plan[..ReadyCount(plan)], j)
                                         then old(ghosts[j].State()).EnableMovement()
                                         else old(ghosts[j].State()))
      ensures Board() == old(Board()) && intro == old(intro) && respawn == old(respawn)
      ensures nextLevel == old(nextLevel) && restart == old(restart)
      ensures reloadRequested == old(reloadRequested)
    {
      player.EnableMovement();
      ReleaseGhosts();
    }

    /** SortForRelease: ReleaseGhosts' first loop, keeping the last ghost of each archetype. */
    method SortForRelease() returns (sorted: seq<nat>)
      ensures sorted == ReleaseOrder(Kinds())
    {
      var kinds := Kinds();
      var blinky, pinky, inky, clyde: Option<nat> := None, None, None, None;
      for i := 0 to |ghosts|
        invariant blinky == LastOf(kinds[..i], Blinky) && pinky == LastOf(kinds[..i], Pinky)
        invariant inky == LastOf(kinds[..i], Inky) && clyde == LastOf(kinds[..i], Clyde)
      {
        LastOfExtend(kinds, i, Blinky);
        LastOfExtend(kinds, i, Pinky);
        LastOfExtend(kinds, i, Inky);
        LastOfExtend(kinds, i, Clyde);
        match kinds[i] {
          case Blinky => blinky := Some(i);
          case Pinky => pinky := Some(i);
          case Inky => inky := Some(i);
          case Clyde => clyde := Some(i);
        }
      }
      assert kinds[..|ghosts|] == kinds;
      sorted := [];
      if blinky.Some? { sorted := sorted + [blinky.value]; }
      assert sorted == Present(blinky);
      if pinky.Some? { sorted := sorted + [pinky.value]; }
      assert sorted == Present(blinky) + Present(pinky);
      if inky.Some? { sorted := sorted + [inky.value]; }
      assert sorted == Present(blinky) + Present(pinky) + Present(inky);
      if clyde.Some? { sorted := sorted + [clyde.value]; }
      assert sorted == Present(blinky) + Present(pinky) + Present(inky) + Present(clyde);
    }

    /** ReleaseGhosts: build the release plan and release at once every ghost
        that needs no wait; the rest wait in releaseQueue. */
    method ReleaseGhosts()
      requires Valid()
      modifies this, ghosts
      ensures Valid()
      ensures var plan := ReleasePlan(ReleaseOrder(Kinds()), Kinds(), delays);
              && releaseQueue == plan[ReadyCount(plan)..]
              && forall j :: 0 <= j < |ghosts| ==>
                   ghosts[j].State() == (if Releases(plan[..ReadyCount(plan)], j)
                                         then old(ghosts[j].State()).EnableMovement()
                                         else old(ghosts[j].State()))
      ensures Board() == old(Board()) && intro == old(intro) && respawn == old(respawn)
      ensures nextLevel == old(nextLevel) && restart == old(restart)
      ensures reloadRequested == old(reloadRequested)
    {
      var sorted := SortForRelease();
      ReleaseOrderIsRanked(Kinds());
      releaseQueue := ReleasePlan(sorted, Kinds(), delays);
      PumpReleases();
    }

    /** Resume the release coroutine: release every ghost at the head of
        the queue whose wait is over, up to the next real wait. */
    method PumpReleases()
      requires forall i, j :: 0 <= i < j < |ghosts| ==> ghosts[i] != ghosts[j]
      requires forall r :: r in releaseQueue ==> r.index < |ghosts|
      modifies this, ghosts
      ensures releaseQueue == old(releaseQueue)[ReadyCount(old(releaseQueue))..]
      ensures forall j :: 0 <= j < |ghosts| ==>
                ghosts[j].State() == (if Releases(old(releaseQueue)[..ReadyCount(old(releaseQueue))], j)
                                      then old(ghosts[j].State()).EnableMovement()
                                      else old(ghosts[j].State()))
      ensures Board() == old(Board()) && intro == old(intro) && respawn == old(respawn)
      ensures nextLevel == old(nextLevel) && restart == old(restart)
      ensures reloadRequested == old(reloadRequested)
    {
      ghost var q := releaseQueue;
      ghost var n := ReadyCount(q);
      ghost var k := 0;
      while |releaseQueue| > 0 && releaseQueue[0].wait <= 0.0
        invariant k <= n && releaseQueue == q[k..]
        invariant ReadyCount(releaseQueue) == n - k
        invariant forall j :: 0 <= j < |ghosts| ==>
                    ghosts[j].State() == (if Releases(q[..k], j) then old(ghosts[j].State()).EnableMovement()
                                          else old(ghosts[j].State()))
        invariant Board() == old(Board()) && intro == old(intro) && respawn == old(respawn)
        invariant nextLevel == old(nextLevel) && restart == old(restart)
        invariant reloadRequested == old(reloadRequested)
        decreases |releaseQueue|
      {
        var h := releaseQueue[0].index;
        assert q[k] == releaseQueue[0];
        ghosts[h].EnableMovement();
        EnableMovementIdempotent(old(ghosts[h].State()));
        forall j | 0 <= j < |ghosts|
          ensures Releases(q[..k + 1], j) <==> Releases(q[..k], j) || j == h
        {
          ReleasesExtend(q, k, j);
        }
        releaseQueue := releaseQueue[1..];
        k := k + 1;
      }
      assert k == n;
    }

    /** The release coroutine for one frame: the head's wait shrinks by dt,
        and when it is over the ghosts due are released. */
    method AdvanceRelease(dt: real)
      requires Valid()
      modifies this, ghosts
      ensures Valid()
      ensures var q := TickHead(old(releaseQueue), dt);
              && releaseQueue == q[ReadyCount(q)..]
              && forall j :: 0 <= j < |ghosts| ==>
                   ghosts[j].State() == (if Releases(q[..ReadyCount(q)], j)
                                         then old(ghosts[j].State()).EnableMovement()
                                         else old(ghosts[j].State()))
      ensures Board() == old(Board()) && intro == old(intro) && respawn == old(respawn)
      ensures nextLevel == old(nextLevel) && restart == old(restart)
      ensures reloadRequested == old(reloadRequested)
    {
      if |releaseQueue| > 0 {
        releaseQueue := [releaseQueue[0].(wait := releaseQueue[0].wait - dt)] + releaseQueue[1..];
      }
      assert releaseQueue == TickHead(old(releaseQueue), dt);
      PumpReleases();
    }

    /** What AddScore leaves behind apart from the ghosts: the counters follow
        Scoreboard.AddScore, the icons show the lives, and the winning pellet
        resets Pac-Man and schedules the next level; nothing else changes. */
    twostate predicate Scored(points: int)
      reads this, session, player, lifeIcons
    {
      && Valid()
      && Board() == old(Board()).AddScore(points)
      && session.persistentScore == score
      && (old(Board()).Wins(points) ==>
            player.State() == old(player.State()).Reset() && nextLevel == Schedule(old(nextLevel), 5.0))
      && (!old(Board()).Wins(points) ==>
            player.State() == old(player.State()) && nextLevel == old(nextLevel))
      && lifeIcons[..] == Shown(old(lifeIcons[..]), lives)
      && intro == old(intro) && respawn == old(respawn) && restart == old(restart)
      && releaseQueue == old(releaseQueue) && reloadRequested == old(reloadRequested)
    }

    /** AddScore: count the points (and the pellet), win when the last pellet
        is eaten, redraw the icons, and grant the bonus life. */
    method AddScore(points: int)
      requires Valid()
      modifies this, session, player, ghosts, lifeIcons
      ensures Scored(points)
      ensures old(Board()).Wins(points) ==>
                forall j :: 0 <= j < |ghosts| ==> ghosts[j].State() == old(ghosts[j].State()).DisableMovement()
      ensures !old(Board()).Wins(points) ==>
                forall j :: 0 <= j < |ghosts| ==> ghosts[j].State() == old(ghosts[j].State())
    {
      CollectPoints(points);
      ghost var icons := lifeIcons[..];
      UpdateUI();
      if score >= BonusScore && lives < MaxLives {
        lives := lives + 1;
        UpdateUI();
        ShownTwice(icons, lives - 1, lives);
      }
    }

    /** The first half of AddScore: the score and the persistent score grow
        by the points, a pellet is counted, and the last pellet wins. */
    method CollectPoints(points: int)
      requires Valid()
      modifies this, session, player, ghosts
      ensures Valid()
      ensures Board() == old(Board()).(score := old(score) + points,
                                       collectedPellets := old(Board()).AddScore(points).collectedPellets)
      ensures session.persistentScore == score
      ensures old(Board()).Wins(points) ==>
                && player.State() == old(player.State()).Reset()
                && (forall j :: 0 <= j < |ghosts| ==> ghosts[j].State() == old(ghosts[j].State()).DisableMovement())
                && nextLevel == Schedule(old(nextLevel), 5.0)
      ensures !old(Board()).Wins(points) ==>
                && player.State() == old(player.State())
                && (forall j :: 0 <= j < |ghosts| ==> ghosts[j].State() == old(ghosts[j].State()))
                && nextLevel == old(nextLevel)
      ensures intro == old(intro) && respawn == old(respawn) && restart == old(restart)
      ensures releaseQueue == old(releaseQueue) && reloadRequested == old(reloadRequested)
    {
      score := score + points;
      session.persistentScore := score;
      if points == 10 || points == 50 {
        collectedPellets := collectedPellets + 1;
        if collectedPellets >= totalPellets {
          Win();
        }
      }
    }

    /** ActivatePowerMode: every ghost becomes vulnerable (eaten ghosts ignore it). */
    method ActivatePowerMode()
      requires Valid()
      modifies ghosts
      ensures forall j :: 0 <= j < |ghosts| ==>
                ghosts[j].State() == old(ghosts[j].State()).SetVulnerable(ghosts[j].vulnerableDuration)
    {
      for i := 0 to |ghosts|
        invariant forall j :: 0 <= j < i ==>
                    ghosts[j].State() == old(ghosts[j].State()).SetVulnerable(ghosts[j].vulnerableDuration)
        invariant forall j :: i <= j < |ghosts| ==> ghosts[j].State() == old(ghosts[j].State())
      {
        ghosts[i].SetVulnerable();
      }
    }

    /** The loop shared by PlayerDied and Win: every ghost stops. */
    method DisableAllGhosts()
      requires forall i, j :: 0 <= i < j < |ghosts| ==> ghosts[i] != ghosts[j]
      modifies ghosts
      ensures forall j :: 0 <= j < |ghosts| ==> ghosts[j].State() == old(ghosts[j].State()).DisableMovement()
    {
      for i := 0 to |ghosts|
        invariant forall j :: 0 <= j < i ==> ghosts[j].State() == old(ghosts[j].State()).DisableMovement()
        invariant forall j :: i <= j < |ghosts| ==> ghosts[j].State() == old(ghosts[j].State())
      {
        ghosts[i].DisableMovement();
      }
    }

    /** PlayerDied: one life fewer, every ghost stops, then game over when no
        life is left, otherwise the 2-second respawn wait. */
    method PlayerDied()
      requires Valid()
      modifies this, ghosts, lifeIcons
      ensures Valid()
      ensures Board() == old(Board()).LoseLife()
      ensures forall j :: 0 <= j < |ghosts| ==> ghosts[j].State() == old(ghosts[j].State()).DisableMovement()
      ensures lifeIcons[..] == Shown(old(lifeIcons[..]), lives)
      ensures lives <= 0 ==> restart == Schedule(old(restart), 3.0) && respawn == old(respawn)
      ensures lives > 0 ==> respawn == Pending(2.0) && restart == old(restart)
      ensures intro == old(intro) && nextLevel == old(nextLevel)
      ensures releaseQueue == old(releaseQueue) && reloadRequested == old(reloadRequested)
    {
      lives := lives - 1;
      UpdateUI();
      DisableAllGhosts();
      if lives <= 0 {
        GameOver();
      } else {
        respawn := Pending(2.0);
      }
    }

    /** The respawn wait of one frame; when it ends Pac-Man is put back at
        its start, reset and enabled, and the ghosts are released again. */
    method AdvanceRespawn(dt: real)
      requires Valid()
      modifies this, player, ghosts
      ensures Valid()
      ensures respawn == old(respawn).Tick(dt)
      ensures !old(respawn).FiresAfter(dt) ==>
                && releaseQueue == old(releaseQueue) && player.State() == old(player.State())
                && forall j :: 0 <= j < |ghosts| ==> ghosts[j].State() == old(ghosts[j].State())
      ensures old(respawn).FiresAfter(dt) ==>
                && player.State() == PlayerState(playerStartPosition, Zero, Zero, true)
                && var plan := ReleasePlan(ReleaseOrder(Kinds()), Kinds(), delays);
                   && releaseQueue == plan[ReadyCount(plan)..]
                   && forall j :: 0 <= j < |ghosts| ==>
                        ghosts[j].State() == (if Releases(plan[..ReadyCount(plan)], j)
                                              then old(ghosts[j].State()).EnableMovement()
                                              else old(ghosts[j].State()))
      ensures Board() == old(Board()) && intro == old(intro) && nextLevel == old(nextLevel)
      ensures restart == old(restart) && reloadRequested == old(reloadRequested)
    {
      if respawn.Pending? {
        if respawn.left - dt <= 0.0 {
          respawn := Idle;
          FinishRespawn();
        } else {
          respawn := Pending(respawn.left - dt);
        }
      }
    }

    /** The rest of RespawnSequence after its wait: Pac-Man is put back at its
        start, reset and enabled, and the ghosts are released again. */
    method FinishRespawn()
      requires Valid()
      modifies this, player, ghosts
      ensures Valid()
      ensures player.State() == PlayerState(playerStartPosition, Zero, Zero, true)
      ensures var plan := ReleasePlan(ReleaseOrder(Kinds()), Kinds(), delays);
              && releaseQueue == plan[ReadyCount(plan)..]
              && forall j :: 0 <= j < |ghosts| ==>
                   ghosts[j].State() == (if Releases(plan[..ReadyCount(plan)], j)
                                         then old(ghosts[j].State()).EnableMovement()
                                         else old(ghosts[j].State()))
      ensures Board() == old(Board()) && intro == old(intro) && respawn == old(respawn)
      ensures nextLevel == old(nextLevel) && restart == old(restart)
      ensures reloadRequested == old(reloadRequested)
    {
      player.position := playerStartPosition;
      player.ResetPlayer();
      player.EnableMovement();
      ReleaseGhosts();
    }

    /** Win: Pac-Man and every ghost stop, and the next level is loaded in 5 seconds. */
    method Win()
      requires forall i, j :: 0 <= i < j < |ghosts| ==> ghosts[i] != ghosts[j]
      modifies this, player, ghosts
      ensures player.State() == old(player.State()).Reset()
      ensures forall j :: 0 <= j < |ghosts| ==> ghosts[j].State() == old(ghosts[j].State()).DisableMovement()
      ensures nextLevel == Schedule(old(nextLevel), 5.0)
      ensures Board() == old(Board()) && intro == old(intro) && respawn == old(respawn)
      ensures restart == old(restart) && releaseQueue == old(releaseQueue)
      ensures reloadRequested == old(reloadRequested)
    {
      player.ResetPlayer();
      DisableAllGhosts();
      nextLevel := Schedule(nextLevel, 5.0);
    }

    /** GameOver: the game restarts in 3 seconds. */
    method GameOver()
      modifies this
      ensures restart == Schedule(old(restart), 3.0)
      ensures Board() == old(Board()) && intro == old(intro) && respawn == old(respawn)
      ensures nextLevel == old(nextLevel) && releaseQueue == old(releaseQueue)
      ensures reloadRequested == old(reloadRequested)
    {
      restart := Schedule(restart, 3.0);
    }

    /** The Invoke of NextLevel for one frame. */
    method AdvanceNextLevel(dt: real)
      requires Valid()
      modifies this
      ensures Valid()
      ensures nextLevel == old(nextLevel).Tick(dt)
      ensures reloadRequested == (old(reloadRequested) || old(nextLevel).FiresAfter(dt))
      ensures Board() == old(Board()) && intro == old(intro) && respawn == old(respawn)
      ensures restart == old(restart) && releaseQueue == old(releaseQueue)
    {
      if nextLevel.Pending? {
        if nextLevel.left - dt <= 0.0 {
          nextLevel := Idle;
          NextLevel();
        } else {
          nextLevel := Pending(nextLevel.left - dt);
        }
      }
    }

    /** NextLevel: reload the scene; the score survives in the session. */
    method NextLevel()
      requires Valid()
      modifies this
      ensures Valid()
      ensures reloadRequested && session.persistentScore == old(score)
      ensures Board() == old(Board()) && intro == old(intro) && respawn == old(respawn)
      ensures nextLevel == old(nextLevel) && restart == old(restart) && releaseQueue == old(releaseQueue)
    {
      reloadRequested := true;
    }

    /** The Invoke of RestartGame for one frame. */
    method AdvanceRestart(dt: real)
      requires Valid()
      modifies this, session
      ensures Valid()
      ensures restart == old(restart).Tick(dt)
      ensures old(restart).FiresAfter(dt) ==> reloadRequested && score == 0 && session.persistentScore == 0
      ensures !old(restart).FiresAfter(dt) ==> reloadRequested == old(reloadRequested) && score == old(score)
      ensures lives == old(lives) && totalPellets == old(totalPellets) && collectedPellets == old(collectedPellets)
      ensures intro == old(intro) && respawn == old(respawn) && nextLevel == old(nextLevel)
      ensures releaseQueue == old(releaseQueue)
    {
      if restart.Pending? {
        if restart.left - dt <= 0.0 {
          restart := Idle;
          RestartGame();
        } else {
          restart := Pending(restart.left - dt);
        }
      }
    }

    /** RestartGame: the score and the persistent score go back to 0 and the scene reloads. */
    method RestartGame()
      requires Valid()
      modifies this, session
      ensures Valid()
      ensures reloadRequested && score == 0 && session.persistentScore == 0
      ensures lives == old(lives) && totalPellets == old(totalPellets) && collectedPellets == old(collectedPellets)
      ensures intro == old(intro) && respawn == old(respawn) && nextLevel == old(nextLevel)
      ensures restart == old(restart) && releaseQueue == old(releaseQueue)
    {
      score := 0;
      session.persistentScore := 0;
      reloadRequested := true;
    }
  }
}
