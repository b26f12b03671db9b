/**
 * The Flappy mini-game of src/flappyBook.js: a bird that falls under gravity,
 * flaps upward on input, and must dodge pipes that scroll in from the right.
 *
 * Units: every length and velocity is in thousandths of a scene unit (the
 * source's 0.002 is 2 here), and time is in milliseconds. The random gap
 * offset of a spawned pair is a parameter `gapY` in [-250, 250).
 */
module Flappy {

  const Gravity := 2
  const FlapPower := 40
  const PipeSpeed := 15
  const FloorLimit := -700
  const CeilingLimit := 700
  /** The bird's fixed horizontal position. */
  const BirdX := -400
  /** Collision needs a horizontal distance strictly below HitWidth ... */
  const HitWidth := 120
  /** ... and a vertical distance strictly below HitHeight. */
  const HitHeight := 300
  const SpawnX := 1200
  /** A pair's pipes sit this far above and below the gap centre. */
  const GapOffset := 600
  /** A pipe whose x drops strictly below RemovalX is removed and scored. */
  const RemovalX := -1500
  /** A new pair spawns when strictly more than this many ms have passed. */
  const SpawnInterval := 1800

  /** One pipe mesh: the centre of its box. */
  datatype Pipe = Pipe(x: int, y: int)

  /** What the HTML overlay shows. */
  datatype Overlay = Hidden | Prompt | FinalScore(score: nat)

  /**
   * The closure state of createFlappyBook: the game variables, whether the
   * click/keydown flap listeners are attached, whether the game group is
   * visible, and the overlay.
   */
  datatype Game = Game(
    running: bool,
    velocity: int,
    birdY: int,
    score: nat,
    lastPipeTime: int,
    pipes: seq<Pipe>,
    listening: bool,
    visible: bool,
    overlay: Overlay)

  /** The state right after createFlappyBook returns. */
  const Initial := Game(false, 0, 0, 0, 0, [], false, false, Hidden)

  /** The state right after startFlappy from a stopped game. */
  const Fresh := Game(true, 0, 0, 0, 0, [], true, true, Hidden)

  /** The range of `(Math.random() - 0.5) * 0.5`, in thousandths. */
  predicate GapInRange(gapY: int) {
    -250 <= gapY < 250
  }

  function Abs(n: int): nat {
    if n < 0 then -n else n
  }

  predicate InBounds(birdY: int) {
    FloorLimit <= birdY <= CeilingLimit
  }

  /** One tick of scrolling. */
  function Move(p: Pipe): Pipe {
    p.(x := p.x - PipeSpeed)
  }

  /** Both distances strictly below their thresholds. */
  predicate Collides(p: Pipe, birdY: int) {
    Abs(p.x - BirdX) < HitWidth && Abs(p.y - birdY) < HitHeight
  }

  predicate Gone(p: Pipe) {
    p.x < RemovalX
  }

  /** The two meshes spawnPipes pushes, top first. */
  function SpawnedPair(gapY: int): seq<Pipe> {
    [Pipe(SpawnX, gapY + GapOffset), Pipe(SpawnX, gapY - GapOffset)]
  }

  /* ---------------------------- the pipe loop ---------------------------- */

  datatype SweepResult = SweepResult(kept: seq<Pipe>, removed: nat, hit: bool)

  /**
   * The reverse-index loop of animate over `ps`: it visits ps[|ps|-1] first
   * and ps[0] last. Each visited pipe moves left; a collision stops the loop
   * at once (the pipes not yet visited keep their place and position); a pipe
   * past RemovalX is dropped and counted. Recursing on ps[1..] first gives
   * exactly that visiting order.
   */
  function Sweep(ps: seq<Pipe>, birdY: int): SweepResult {
    if ps == [] then SweepResult([], 0, false)
    else
      var rest := Sweep(ps[1..], birdY);
      if rest.hit then SweepResult([ps[0]] + rest.kept, rest.removed, true)
      else
        var q := Move(ps[0]);
        if Collides(q, birdY) then SweepResult([q] + rest.kept, rest.removed, true)
        else if Gone(q) then SweepResult(rest.kept, rest.removed + 1, false)
        else SweepResult([q] + rest.kept, rest.removed, false)
  }

  /** One step of the reverse-index loop: visiting ps[i] after ps[i+1..] without a hit. */
  lemma SweepStep(ps: seq<Pipe>, i: nat, birdY: int)
    requires i < |ps| && !Sweep(ps[i + 1..], birdY).hit
    ensures var q := Move(ps[i]);
      var rest := Sweep(ps[i + 1..], birdY);
      Sweep(ps[i..], birdY) ==
        if Collides(q, birdY) then SweepResult([q] + rest.kept, rest.removed, true)
        else if Gone(q) then SweepResult(rest.kept, rest.removed + 1, false)
        else SweepResult([q] + rest.kept, rest.removed, false)
  {
    assert ps[i..][1..] == ps[i + 1..];
  }

  /** Reference: move every pipe, then keep those not past RemovalX, in order. */
  function Survivors(ps: seq<Pipe>): seq<Pipe> {
    if ps == [] then []
    else (if Gone(Move(ps[0])) then [] else [Move(ps[0])]) + Survivors(ps[1..])
  }

  /** Reference: how many pipes one move takes past RemovalX. */
  function CountGone(ps: seq<Pipe>): nat {
    if ps == [] then 0
    else (if Gone(Move(ps[0])) then 1 else 0) + CountGone(ps[1..])
  }

  /** Every pipe of `ps` moved one step left, in the same order. */
  function MoveAll(ps: seq<Pipe>): seq<Pipe> {
    seq(|ps|, i requires 0 <= i < |ps| => Move(ps[i]))
  }

  /** Every pipe is either still in the list or has been scored. */
  lemma {:induction false} SweepConserves(ps: seq<Pipe>, birdY: int)
    ensures |Sweep(ps, birdY).kept| + Sweep(ps, birdY).removed == |ps|
  {
    if ps != [] {
      SweepConserves(ps[1..], birdY);
    }
  }

  /**
   * Later pipes are visited first: the loop over P + Q finishes Q, and goes
   * on into P only if Q produced no collision.
   */
  lemma {:induction false} SweepAppend(p: seq<Pipe>, q: seq<Pipe>, birdY: int)
    ensures Sweep(p + q, birdY) ==
      var b := Sweep(q, birdY);
      if b.hit then SweepResult(p + b.kept, b.removed, true)
      else
        var a := Sweep(p, birdY);
        SweepResult(a.kept + b.kept, a.removed + b.removed, a.hit)
  {
    if p == [] {
      assert p + q == q;
    } else {
      assert (p + q)[1..] == p[1..] + q;
      SweepAppend(p[1..], q, birdY);
      var b := Sweep(q, birdY);
      if b.hit {
        assert [p[0]] + (p[1..] + b.kept) == p + b.kept;
      } else {
        var a := Sweep(p[1..], birdY);
        assert [p[0]] + (a.kept + b.kept) == ([p[0]] + a.kept) + b.kept;
        assert [Move(p[0])] + (a.kept + b.kept) == ([Move(p[0])] + a.kept) + b.kept;
      }
    }
  }

  /** The loop stops on a collision if and only if some moved pipe collides. */
  lemma {:induction false} SweepHitIff(ps: seq<Pipe>, birdY: int)
    ensures Sweep(ps, birdY).hit <==> exists i :: 0 <= i < |ps| && Collides(Move(ps[i]), birdY)
  {
    if ps != [] {
      SweepHitIff(ps[1..], birdY);
      if Sweep(ps[1..], birdY).hit {
        var i :| 0 <= i < |ps[1..]| && Collides(Move(ps[1..][i]), birdY);
        assert Collides(Move(ps[i + 1]), birdY);
      } else if Sweep(ps, birdY).hit {
        assert Collides(Move(ps[0]), birdY);
      } else {
        forall i | 0 <= i < |ps|
          ensures !Collides(Move(ps[i]), birdY)
        {
          if i > 0 {
            assert ps[i] == ps[1..][i - 1];
          }
        }
      }
    }
  }

  /** Without a collision the loop is "move all, drop the departed, score each". */
  lemma {:induction false} SweepNoHit(ps: seq<Pipe>, birdY: int)
    requires forall i :: 0 <= i < |ps| ==> !Collides(Move(ps[i]), birdY)
    ensures Sweep(ps, birdY) == SweepResult(Survivors(ps), CountGone(ps), false)
  {
    if ps != [] {
      forall i | 0 <= i < |ps[1..]|
        ensures !Collides(Move(ps[1..][i]), birdY)
      {
        assert ps[1..][i] == ps[i + 1];
      }
      SweepNoHit(ps[1..], birdY);
      assert !Collides(Move(ps[0]), birdY);
    }
  }

  /**
   * With a collision, the highest colliding index j ends the loop: the pipes
   * above j moved and were scored as usual, pipe j moved but stays, and the
   * pipes below j are untouched.
   */
  lemma {:induction false} SweepHitAt(ps: seq<Pipe>, birdY: int, j: nat)
    requires j < |ps| && Collides(Move(ps[j]), birdY)
    requires forall k :: j < k < |ps| ==> !Collides(Move(ps[k]), birdY)
    ensures Sweep(ps, birdY) ==
      SweepResult(ps[..j] + [Move(ps[j])] + Survivors(ps[j + 1..]), CountGone(ps[j + 1..]), true)
  {
    if j == 0 {
      forall k | 0 <= k < |ps[1..]|
        ensures !Collides(Move(ps[1..][k]), birdY)
      {
        assert ps[1..][k] == ps[k + 1];
      }
      SweepNoHit(ps[1..], birdY);
    } else {
      var tail := ps[1..];
      forall k | j - 1 < k < |tail|
        ensures !Collides(Move(tail[k]), birdY)
      {
        assert tail[k] == ps[k + 1];
      }
      SweepHitAt(tail, birdY, j - 1);
      assert tail[j - 1 + 1..] == ps[j + 1..];
      assert [ps[0]] + tail[..j - 1] == ps[..j];
      assert [ps[0]] + (tail[..j - 1] + [Move(ps[j])] + Survivors(ps[j + 1..]))
        == ps[..j] + [Move(ps[j])] + Survivors(ps[j + 1..]);
    }
  }

  /** Survivors and departed pipes account for every pipe; no survivor is past RemovalX. */
  lemma {:induction false} SurvivorsPartition(ps: seq<Pipe>)
    ensures |Survivors(ps)| + CountGone(ps) == |ps|
    ensures forall i :: 0 <= i < |Survivors(ps)| ==> !Gone(Survivors(ps)[i])
  {
    if ps != [] {
      SurvivorsPartition(ps[1..]);
    }
  }

  /** Pipes between RemovalX and SpawnX stay between them. */
  lemma {:induction false} SweepInRange(ps: seq<Pipe>, birdY: int)
    requires forall i :: 0 <= i < |ps| ==> RemovalX <= ps[i].x <= SpawnX
    ensures forall i :: 0 <= i < |Sweep(ps, birdY).kept| ==>
      RemovalX <= Sweep(ps, birdY).kept[i].x <= SpawnX
  {
    if ps != [] {
      SweepInRange(ps[1..], birdY);
      var rest := Sweep(ps[1..], birdY);
      var r := Sweep(ps, birdY);
      forall i | 0 <= i < |r.kept|
        ensures RemovalX <= r.kept[i].x <= SpawnX
      {
        if r.kept != rest.kept && i > 0 {
          assert r.kept[i] == rest.kept[i - 1];
        }
      }
    }
  }

  /**
   * Pipes that are all at or beyond `bound`, far enough right that one move
   * cannot bring any into the bird's column, produce no collision and no
   * removal: every pipe is kept, moved exactly once, in order, and all end at
   * or beyond bound - PipeSpeed.
   */
  lemma {:induction false} SweepFarAhead(ps: seq<Pipe>, birdY: int, bound: int)
    requires BirdX + HitWidth + PipeSpeed <= bound
    requires forall i :: 0 <= i < |ps| ==> bound <= ps[i].x
    ensures !Sweep(ps, birdY).hit
    ensures forall i :: 0 <= i < |Sweep(ps, birdY).kept| ==>
      bound - PipeSpeed <= Sweep(ps, birdY).kept[i].x
    ensures Sweep(ps, birdY) == SweepResult(MoveAll(ps), 0, false)
  {
    if ps != [] {
      SweepFarAhead(ps[1..], birdY, bound);
      var rest := Sweep(ps[1..], birdY);
      var r := Sweep(ps, birdY);
      assert !Collides(Move(ps[0]), birdY) && !Gone(Move(ps[0]));
      assert [Move(ps[0])] + MoveAll(ps[1..]) == MoveAll(ps);
      forall i | 0 <= i < |r.kept|
        ensures bound - PipeSpeed <= r.kept[i].x
      {
        if r.kept != rest.kept && i > 0 {
          assert r.kept[i] == rest.kept[i - 1];
        }
      }
    }
  }

  /* --------------------------- the state machine -------------------------- */

  /** flap: only while running, and it overwrites the velocity. */
  function AfterFlap(g: Game): Game {
    if !g.running then g else g.(velocity := FlapPower)
  }

  /** keyDownHandler: the Space key flaps; every other key is ignored. */
  function AfterKeyDown(g: Game, code: string): Game {
    if code == "Space" then AfterFlap(g) else g
  }

  /** resetGame. */
  function AfterReset(g: Game): Game {
    g.(birdY := 0, velocity := 0, pipes := [], score := 0, lastPipeTime := 0)
  }

  /** gameOver: stop, detach the flap listeners, hide the game, show the score. */
  function AfterGameOver(g: Game): Game {
    g.(running := false, overlay := FinalScore(g.score), visible := false, listening := false)
  }

  /** startFlappy: ignored while running. */
  function AfterStart(g: Game): Game {
    if g.running then g
    else AfterReset(g).(running := true, overlay := Hidden, visible := true, listening := true)
  }

  /** stopFlappy: from any state. */
  function AfterStop(g: Game): Game {
    AfterReset(g).(running := false, visible := false, overlay := Hidden, listening := false)
  }

  /** book.onClick: show the instructions. */
  function AfterBookClick(g: Game): Game {
    g.(overlay := Prompt)
  }

  /**
   * A click on START: the button's listener runs startFlappy, then the same
   * click bubbles up to the window, where the flap listener is attached
   * exactly while the game listens for input.
   */
  function AfterStartClick(g: Game): Game {
    var started := AfterStart(g);
    if started.listening then AfterFlap(started) else started
  }

  /** The pipe list after the spawn test of one tick. */
  function SpawnedPipes(g: Game, time: int, gapY: int): seq<Pipe> {
    if time - g.lastPipeTime > SpawnInterval then g.pipes + SpawnedPair(gapY) else g.pipes
  }

  /**
   * The pipe loop of animate applied to `g`, whose birdY is already updated;
   * a collision calls gameOver with the score as it stands at that moment.
   */
  function AfterSweep(g: Game): Game {
    var sweep := Sweep(g.pipes, g.birdY);
    var swept := g.(pipes := sweep.kept, score := g.score + sweep.removed);
    if sweep.hit then AfterGameOver(swept) else swept
  }

  /** One call of animate(time), with `gapY` standing for the random draw. */
  function AfterAnimate(g: Game, time: int, gapY: int): Game {
    if !g.running then g
    else
      var velocity := g.velocity - Gravity;
      var birdY := g.birdY + velocity;
      var fallen := g.(velocity := velocity, birdY := birdY);
      if !InBounds(birdY) then AfterGameOver(fallen)
      else if time - g.lastPipeTime > SpawnInterval
      then AfterSweep(fallen.(pipes := g.pipes + SpawnedPair(gapY), lastPipeTime := time))
      else AfterSweep(fallen)
  }

  /** One animation frame: its timestamp and the gap offset a spawn would draw. */
  datatype Frame = Frame(time: int, gapY: int)

  /** A run of animation frames, oldest first. */
  function Run(g: Game, frames: seq<Frame>): Game {
    if frames == [] then g
    else
      var last := frames[|frames| - 1];
      AfterAnimate(Run(g, frames[..|frames| - 1]), last.time, last.gapY)
  }

  /* ------------------------------ properties ------------------------------ */

  /**
   * The game's invariant: pipes lie between RemovalX and SpawnX, a running
   * bird is inside the band and has its listeners and visuals on, and score
   * plus pipe count is even (pipes arrive in twos and each leaves as one
   * point).
   */
  ghost predicate Inv(g: Game) {
    && (forall i :: 0 <= i < |g.pipes| ==> RemovalX <= g.pipes[i].x <= SpawnX)
    && (g.running ==> InBounds(g.birdY) && g.listening && g.visible)
    && (g.score + |g.pipes|) % 2 == 0
  }

  lemma InitialInv()
    ensures Inv(Initial) && !Initial.running && Initial.pipes == [] && Initial.score == 0
  {
  }

  /** Flapping overwrites rather than accumulates, and only while running. */
  lemma FlapOverwrites(g: Game)
    ensures AfterFlap(AfterFlap(g)) == AfterFlap(g)
    ensures g.running ==> AfterFlap(g) == g.(velocity := FlapPower)
    ensures !g.running ==> AfterFlap(g) == g
    ensures AfterKeyDown(g, "Space") == AfterFlap(g)
    ensures forall code :: code != "Space" ==> AfterKeyDown(g, code) == g
  {
  }

  /** Starting is ignored while running; otherwise every start looks the same. */
  lemma StartIsCanonical(g: Game)
    ensures g.running ==> AfterStart(g) == g
    ensures !g.running ==> AfterStart(g) == Fresh
    ensures AfterStart(Initial) == Fresh
  {
  }

  /** Stopping from any state gives back the state the game was created in. */
  lemma StopRestoresInitial(g: Game)
    ensures AfterStop(g) == Initial
    ensures AfterStop(AfterStop(g)) == AfterStop(g)
    ensures AfterStart(AfterStop(g)) == Fresh
  {
  }

  /** After gameOver, animate and flap do nothing, and the overlay shows the score. */
  lemma GameOverFreezes(g: Game, time: int, gapY: int)
    ensures !AfterGameOver(g).running && AfterGameOver(g).overlay == FinalScore(g.score)
    ensures AfterAnimate(AfterGameOver(g), time, gapY) == AfterGameOver(g)
    ensures AfterFlap(AfterGameOver(g)) == AfterGameOver(g)
    ensures AfterGameOver(g).pipes == g.pipes && AfterGameOver(g).score == g.score
  {
  }

  /** Animate does nothing unless running; when running, gravity acts first. */
  lemma AnimatePhysics(g: Game, time: int, gapY: int)
    ensures !g.running ==> AfterAnimate(g, time, gapY) == g
    ensures g.running ==>
      AfterAnimate(g, time, gapY).velocity == g.velocity - Gravity &&
      AfterAnimate(g, time, gapY).birdY == g.birdY + g.velocity - Gravity
  {
  }

  /**
   * Leaving the band (strictly) ends the game before any spawn, move or
   * removal; a bird landing exactly on a limit keeps running unless a pipe
   * collides.
   */
  lemma AnimateOutOfBounds(g: Game, time: int, gapY: int)
    requires g.running
    ensures var r := AfterAnimate(g, time, gapY);
      !InBounds(r.birdY) ==>
        !r.running && r.pipes == g.pipes && r.score == g.score &&
        r.lastPipeTime == g.lastPipeTime && r.overlay == FinalScore(g.score)
    ensures var y := g.birdY + g.velocity - Gravity;
      (y == FloorLimit || y == CeilingLimit) &&
      (forall i :: 0 <= i < |g.pipes| ==> !Collides(Move(g.pipes[i]), y)) ==>
        AfterAnimate(g, time, gapY).running
  {
    AnimateEndsIff(g, time, gapY);
  }

  /** A freshly spawned pair is far right of the bird: it never collides on its first move. */
  lemma SpawnedPairSafe(pipes: seq<Pipe>, gapY: int, birdY: int)
    ensures var ps := pipes + SpawnedPair(gapY);
      forall k :: |pipes| <= k < |ps| ==> !Collides(Move(ps[k]), birdY) && !Gone(Move(ps[k]))
  {
  }

  /** The first move of a new pair neither collides nor removes anything. */
  lemma SweepSpawnedPair(gapY: int, birdY: int)
    ensures Sweep(SpawnedPair(gapY), birdY) ==
      SweepResult([Move(SpawnedPair(gapY)[0]), Move(SpawnedPair(gapY)[1])], 0, false)
  {
    var pair := SpawnedPair(gapY);
    assert pair[1..][1..] == [];
    assert Sweep(pair[1..], birdY) == SweepResult([Move(pair[1])], 0, false);
  }

  /** A running step ends the game if and only if the bird leaves the band or a moved pipe collides. */
  lemma AnimateEndsIff(g: Game, time: int, gapY: int)
    requires g.running
    ensures var y := g.birdY + g.velocity - Gravity;
      !AfterAnimate(g, time, gapY).running <==>
        !InBounds(y) || exists i :: 0 <= i < |g.pipes| && Collides(Move(g.pipes[i]), y)
  {
    var y := g.birdY + g.velocity - Gravity;
    if InBounds(y) {
      var ps := SpawnedPipes(g, time, gapY);
      SweepHitIff(ps, y);
      SpawnedPairSafe(g.pipes, gapY, y);
      if exists i :: 0 <= i < |ps| && Collides(Move(ps[i]), y) {
        var i :| 0 <= i < |ps| && Collides(Move(ps[i]), y);
        assert i < |g.pipes| && ps[i] == g.pipes[i];
      }
      if exists i :: 0 <= i < |g.pipes| && Collides(Move(g.pipes[i]), y) {
        var i :| 0 <= i < |g.pipes| && Collides(Move(g.pipes[i]), y);
        assert ps[i] == g.pipes[i];
      }
    }
  }

  /**
   * Spawning: strictly more than SpawnInterval ms after the last spawn, a
   * running in-band step records the time and ends the pipe list with the new
   * pair, already moved once; otherwise lastPipeTime stays. Either way the
   * pipes present plus the score grow by exactly the number of spawned meshes.
   */
  lemma AnimateSpawns(g: Game, time: int, gapY: int)
    requires g.running && InBounds(g.birdY + g.velocity - Gravity)
    ensures var r := AfterAnimate(g, time, gapY);
      time - g.lastPipeTime > SpawnInterval ==>
        r.lastPipeTime == time && |r.pipes| >= 2 &&
        r.pipes[|r.pipes| - 2..] ==
          [Pipe(SpawnX - PipeSpeed, gapY + GapOffset), Pipe(SpawnX - PipeSpeed, gapY - GapOffset)] &&
        |r.pipes| + r.score == |g.pipes| + g.score + 2
    ensures var r := AfterAnimate(g, time, gapY);
      time - g.lastPipeTime <= SpawnInterval ==>
        r.lastPipeTime == g.lastPipeTime && |r.pipes| + r.score == |g.pipes| + g.score
  {
    var y := g.birdY + g.velocity - Gravity;
    var ps := SpawnedPipes(g, time, gapY);
    SweepConserves(ps, y);
    if time - g.lastPipeTime > SpawnInterval {
      SweepAppend(g.pipes, SpawnedPair(gapY), y);
      SweepSpawnedPair(gapY, y);
    }
  }

  /** A step in which no pipe collides: every pipe moves, the departed ones are scored. */
  lemma AnimateNoCollision(g: Game, time: int, gapY: int)
    requires g.running
    requires InBounds(g.birdY + g.velocity - Gravity)
    requires forall i :: 0 <= i < |g.pipes| ==> !Collides(Move(g.pipes[i]), g.birdY + g.velocity - Gravity)
    ensures var r := AfterAnimate(g, time, gapY);
      var ps := SpawnedPipes(g, time, gapY);
      r.running && r.pipes == Survivors(ps) && r.score == g.score + CountGone(ps)
  {
    var y := g.birdY + g.velocity - Gravity;
    var ps := SpawnedPipes(g, time, gapY);
    SpawnedPairSafe(g.pipes, gapY, y);
    forall i | 0 <= i < |ps|
      ensures !Collides(Move(ps[i]), y)
    {
      if i < |g.pipes| {
        assert ps[i] == g.pipes[i];
      }
    }
    SweepNoHit(ps, y);
  }

  /**
   * A step in which pipe j is the last pipe (highest index) to collide: the
   * game ends there, the pipes above j have moved and the departed among them
   * are scored, pipe j has moved, and the pipes below j are left as they were.
   */
  lemma AnimateCollision(g: Game, time: int, gapY: int, j: nat)
    requires g.running
    requires InBounds(g.birdY + g.velocity - Gravity)
    requires j < |g.pipes| && Collides(Move(g.pipes[j]), g.birdY + g.velocity - Gravity)
    requires forall k :: j < k < |g.pipes| ==> !Collides(Move(g.pipes[k]), g.birdY + g.velocity - Gravity)
    ensures var r := AfterAnimate(g, time, gapY);
      var ps := SpawnedPipes(g, time, gapY);
      !r.running &&
      r.pipes == g.pipes[..j] + [Move(g.pipes[j])] + Survivors(ps[j + 1..]) &&
      r.score == g.score + CountGone(ps[j + 1..]) &&
      r.overlay == FinalScore(r.score)
  {
    var y := g.birdY + g.velocity - Gravity;
    var ps := SpawnedPipes(g, time, gapY);
    SpawnedPairSafe(g.pipes, gapY, y);
    assert ps[..j] == g.pipes[..j] && ps[j] == g.pipes[j];
    forall k | j < k < |ps|
      ensures !Collides(Move(ps[k]), y)
    {
      if k < |g.pipes| {
        assert ps[k] == g.pipes[k];
      }
    }
    SweepHitAt(ps, y, j);
  }

  /** Score never goes down during a step. */
  lemma AnimateScoreMonotone(g: Game, time: int, gapY: int)
    ensures AfterAnimate(g, time, gapY).score >= g.score
  {
  }

  /** animate keeps the invariant. */
  lemma AnimateKeepsInv(g: Game, time: int, gapY: int)
    requires Inv(g)
    ensures Inv(AfterAnimate(g, time, gapY))
  {
    var y := g.birdY + g.velocity - Gravity;
    if g.running && InBounds(y) {
      var ps := SpawnedPipes(g, time, gapY);
      assert forall i :: 0 <= i < |ps| ==> RemovalX <= ps[i].x <= SpawnX by {
        forall i | 0 <= i < |ps|
          ensures RemovalX <= ps[i].x <= SpawnX
        {
          if i < |g.pipes| {
            assert ps[i] == g.pipes[i];
          }
        }
      }
      SweepInRange(ps, y);
      SweepConserves(ps, y);
    }
  }

  /** The other operations keep the invariant too. */
  lemma OperationsKeepInv(g: Game, code: string)
    requires Inv(g)
    ensures Inv(AfterFlap(g)) && Inv(AfterKeyDown(g, code))
    ensures Inv(AfterStart(g)) && Inv(AfterStop(g))
    ensures Inv(AfterBookClick(g)) && Inv(AfterGameOver(g))
  {
  }

  /** The closed form n(n+1) of 2 + 4 + ... + 2n, around the limit 700. */
  lemma FallArithmetic(n: nat)
    requires 1 <= n <= 26
    ensures (n - 1) * n + 2 * n == n * (n + 1)
    ensures n <= 25 ==> n * (n + 1) <= 650
    ensures n == 26 ==> n * (n + 1) == 702
  {
    if n <= 25 {
      assert n * (n + 1) <= 25 * (n + 1);
    }
  }

  /**
   * A running, in-band step whose pipes are all far right of the bird keeps
   * running, scores nothing, and moves every pipe (the new pair included)
   * exactly one step left, so every pipe ends at or beyond bound - PipeSpeed.
   */
  lemma FarAheadStep(g: Game, time: int, gapY: int, bound: int)
    requires g.running && InBounds(g.birdY + g.velocity - Gravity)
    requires BirdX + HitWidth + PipeSpeed <= bound <= SpawnX
    requires forall i :: 0 <= i < |g.pipes| ==> bound <= g.pipes[i].x
    ensures var r := AfterAnimate(g, time, gapY);
      r.running && forall i :: 0 <= i < |r.pipes| ==> bound - PipeSpeed <= r.pipes[i].x
    ensures var r := AfterAnimate(g, time, gapY);
      r.pipes == MoveAll(SpawnedPipes(g, time, gapY)) && r.score == g.score
  {
    var y := g.birdY + g.velocity - Gravity;
    var ps := SpawnedPipes(g, time, gapY);
    forall i | 0 <= i < |ps|
      ensures bound <= ps[i].x
    {
      if i < |g.pipes| {
        assert ps[i] == g.pipes[i];
      }
    }
    SweepFarAhead(ps, y, bound);
  }

  /**
   * Free fall from a fresh start with no flaps: after n frames the velocity is
   * -2n and the bird is at -n(n+1) (the sum 2 + 4 + ... + 2n), every pipe is
   * at or beyond 1200 - 15n, and the game is still running exactly while
   * n <= 25: at frame 26 the bird reaches -702, strictly below -700.
   */
  lemma {:induction false} FreeFall(frames: seq<Frame>)
    requires |frames| <= 26
    ensures var r := Run(Fresh, frames);
      var n := |frames|;
      && r.velocity == -Gravity * n
      && r.birdY == -(n * (n + 1))
      && (r.running <==> n <= 25)
      && (forall i :: 0 <= i < |r.pipes| ==> SpawnX - PipeSpeed * n <= r.pipes[i].x)
  {
    var n := |frames|;
    if n > 0 {
      var prefix := frames[..n - 1];
      var last := frames[n - 1];
      FreeFall(prefix);
      var g := Run(Fresh, prefix);
      assert Run(Fresh, frames) == AfterAnimate(g, last.time, last.gapY);
      FallArithmetic(n);
      AnimatePhysics(g, last.time, last.gapY);
      if n <= 25 {
        FarAheadStep(g, last.time, last.gapY, SpawnX - PipeSpeed * (n - 1));
      } else {
        AnimateOutOfBounds(g, last.time, last.gapY);
      }
    }
  }

  /** The game a START click launches: fresh, with one flap already applied. */
  const Launched := Fresh.(velocity := FlapPower)

  /**
   * A START click while stopped launches the game with one flap, because the
   * flap listener startFlappy attaches also hears the click; while running,
   * the click only flaps.
   */
  lemma StartClickFlaps(g: Game)
    ensures !g.running ==> AfterStartClick(g) == Launched
    ensures Inv(g) && g.running ==> AfterStartClick(g) == AfterFlap(g)
    ensures Inv(g) ==> Inv(AfterStartClick(g))
  {
  }

  /** The closed form n(39 - n) of 38 + 36 + ... + (40 - 2n), around the limit 700. */
  lemma LaunchArithmetic(n: nat)
    requires 1 <= n <= 53
    ensures (n - 1) * (40 - n) + FlapPower - Gravity * n == n * (39 - n)
    ensures n <= 52 ==> FloorLimit <= n * (39 - n) <= CeilingLimit
    ensures n == 53 ==> n * (39 - n) == -742
  {
    if n <= 17 {
      assert n * (39 - n) <= 17 * (39 - n);
    } else if n <= 22 {
      assert n * (39 - n) <= 22 * (39 - n);
    } else if n <= 39 {
      assert n * (39 - n) <= 39 * (39 - n);
    } else if n <= 52 {
      assert n * (n - 39) <= 52 * (n - 39);
    }
  }

  /**
   * The fall of a game launched by a START click, with no further flap: after
   * n frames the velocity is 40 - 2n and the bird is at n(39 - n), every pipe
   * is at or beyond 1200 - 15n, and the game runs exactly while n <= 52: at
   * frame 53 the bird reaches -742, strictly below -700.
   */
  lemma {:induction false} LaunchedFall(frames: seq<Frame>)
    requires |frames| <= 53
    ensures var r := Run(Launched, frames);
      var n := |frames|;
      && r.velocity == FlapPower - Gravity * n
      && r.birdY == n * (39 - n)
      && (r.running <==> n <= 52)
      && (forall i :: 0 <= i < |r.pipes| ==> SpawnX - PipeSpeed * n <= r.pipes[i].x)
  {
    var n := |frames|;
    if n > 0 {
      var prefix := frames[..n - 1];
      var last := frames[n - 1];
      LaunchedFall(prefix);
      var g := Run(Launched, prefix);
      assert Run(Launched, frames) == AfterAnimate(g, last.time, last.gapY);
      LaunchArithmetic(n);
      AnimatePhysics(g, last.time, last.gapY);
      if n <= 52 {
        FarAheadStep(g, last.time, last.gapY, SpawnX - PipeSpeed * (n - 1));
      } else {
        AnimateOutOfBounds(g, last.time, last.gapY);
      }
    }
  }

  /** From frame 53 on a launched game with no flap is over with the bird at -742. */
  lemma {:induction false} LaunchedFallEnds(frames: seq<Frame>)
    requires |frames| >= 53
    ensures !Run(Launched, frames).running
    ensures Run(Launched, frames).birdY == -742
  {
    if |frames| == 53 {
      LaunchedFall(frames);
    } else {
      LaunchedFallEnds(frames[..|frames| - 1]);
    }
  }

  /** From frame 26 on the game is over and frozen with the bird at -702. */
  lemma {:induction false} FreeFallEnds(frames: seq<Frame>)
    requires |frames| >= 26
    ensures !Run(Fresh, frames).running
    ensures Run(Fresh, frames).birdY == -702
  {
    if |frames| == 26 {
      FreeFall(frames);
    } else {
      FreeFallEnds(frames[..|frames| - 1]);
    }
  }

  /* ------------------------ the closure, in place ------------------------- */

  /** The closure of createFlappyBook; each function of the source is a method. */
  class FlappyBook {
    var running: bool
    var velocity: int
    var birdY: int
    var score: nat
    var lastPipeTime: int
    var pipes: seq<Pipe>
    var listening: bool
    var visible: bool
    var overlay: Overlay

    function State(): Game
      reads this
    {
      Game(running, velocity, birdY, score, lastPipeTime, pipes, listening, visible, overlay)
    }

    /** createFlappyBook: stopped, hidden, nothing on the overlay. */
    constructor ()
      ensures State() == Initial
    {
      running, velocity, birdY, score, lastPipeTime := false, 0, 0, 0, 0;
      pipes := [];
      listening, visible, overlay := false, false, Hidden;
    }

    method Flap()
      modifies this
      ensures State() == AfterFlap(old(State()))
    {
      if !running {
        return;
      }
      velocity := FlapPower;
    }

    method KeyDown(code: string)
      modifies this
      ensures State() == AfterKeyDown(old(State()), code)
    {
      if code == "Space" {
        Flap();
      }
    }

    method SpawnPipes(gapY: int)
      requires GapInRange(gapY)
      modifies this
      ensures State() == old(State()).(pipes := old(pipes) + SpawnedPair(gapY))
    {
      var top := Pipe(SpawnX, gapY + GapOffset);
      var bottom := Pipe(SpawnX, gapY - GapOffset);
      pipes := pipes + [top, bottom];
    }

    method ResetGame()
      modifies this
      ensures State() == AfterReset(old(State()))
    {
      birdY := 0;
      velocity := 0;
      pipes := [];
      score := 0;
      lastPipeTime := 0;
    }

    method GameOver()
      modifies this
      ensures State() == AfterGameOver(old(State()))
    {
      running := false;
      overlay := FinalScore(score);
      visible := false;
      listening := false;
    }

    method StartFlappy()
      modifies this
      ensures State() == AfterStart(old(State()))
    {
      if running {
        return;
      }
      running := true;
      overlay := Hidden;
      ResetGame();
      visible := true;
      listening := true;
    }

    method StopFlappy()
      modifies this
      ensures State() == AfterStop(old(State()))
    {
      running := false;
      ResetGame();
      visible := false;
      overlay := Hidden;
      listening := false;
    }

    /** A click on START: startFlappy, then the window's flap listener if attached. */
    method ClickStart()
      modifies this
      ensures State() == AfterStartClick(old(State()))
    {
      StartFlappy();
      if listening {
        Flap();
      }
    }

    method ClickBook()
      modifies this
      ensures State() == AfterBookClick(old(State()))
    {
      overlay := Prompt;
    }

    /** animate(time): one frame; the pipe loop runs from the last index down. */
    method Animate(time: int, gapY: int)
      requires GapInRange(gapY)
      modifies this
      ensures State() == AfterAnimate(old(State()), time, gapY)
    {
      if !running {
        return;
      }
      velocity := velocity - Gravity;
      birdY := birdY + velocity;
      if birdY < FloorLimit || birdY > CeilingLimit {
        GameOver();
        return;
      }
      if time - lastPipeTime > SpawnInterval {
        SpawnPipes(gapY);
        lastPipeTime := time;
      }
      MovePipes();
    }

    /**
     * The pipe loop of animate, from the last index down; a collision calls
     * gameOver and ends the frame at once.
     */
    method MovePipes()
      modifies this
      ensures State() == AfterSweep(old(State()))
    {
      ghost var before := pipes;
      var i := |pipes| - 1;
      while i >= 0
        invariant -1 <= i < |before|
        invariant pipes == before[..i + 1] + Sweep(before[i + 1..], birdY).kept
        invariant score == old(score) + Sweep(before[i + 1..], birdY).removed
        invariant !Sweep(before[i + 1..], birdY).hit
        invariant running == old(running) && velocity == old(velocity) && birdY == old(birdY)
        invariant lastPipeTime == old(lastPipeTime) && listening == old(listening)
        invariant visible == old(visible) && overlay == old(overlay)
      {
        ghost var done := Sweep(before[i + 1..], birdY);
        SweepStep(before, i, birdY);
        assert pipes[i] == before[i];
        var p := Move(pipes[i]);
        pipes := pipes[i := p];
        assert pipes == before[..i] + ([p] + done.kept);
        if Collides(p, birdY) {
          SweepAppend(before[..i], before[i..], birdY);
          assert before[..i] + before[i..] == before;
          GameOver();
          return;
        }
        if Gone(p) {
          pipes := pipes[..i] + pipes[i + 1..];
          score := score + 1;
        }
        i := i - 1;
      }
      assert before[0..] == before;
    }
  }
}
