/**
 * The custom cursor and its particle trail (client/src/components/CustomCursor.tsx).
 *
 * Opacity and scale are integers in hundredths: a particle is born at 100/100,
 * and every animation frame takes 2 from its opacity and 1 from its scale.
 * A particle's on-screen element is identified by the particle's id (the
 * element carries the id in its test id); the container's children are the
 * set `attached` of those ids.
 */
module Cursor {

  datatype Point = Point(x: int, y: int)

  /** Where the cursor ring sits before the first move and after the pointer leaves. */
  const OffScreen := Point(-100, -100)

  const FullOpacity := 100
  const FullScale := 100
  const OpacityStep := 2
  const ScaleStep := 1
  /** Squared emission threshold: a particle needs a displacement of more than 5 px. */
  const MinDistance2 := 25

  datatype Particle = Particle(id: nat, at: Point, opacity: int, scale: int, hasElement: bool)

  function NewParticle(id: nat, at: Point): Particle {
    Particle(id, at, FullOpacity, FullScale, true)
  }

  function Distance2(a: Point, b: Point): int {
    (b.x - a.x) * (b.x - a.x) + (b.y - a.y) * (b.y - a.y)
  }

  /** The emission test `sqrt(dx*dx + dy*dy) > 5`, squared. */
  predicate FarEnough(last: Point, p: Point) {
    Distance2(last, p) > MinDistance2
  }

  /** One frame's decay of one particle. */
  function Decay(p: Particle): Particle {
    p.(opacity := p.opacity - OpacityStep, scale := p.scale - ScaleStep)
  }

  /** A decayed particle is kept when it is still visible and still has its element. */
  predicate Survives(p: Particle) {
    p.opacity > 0 && p.hasElement
  }

  /** One animation frame over the whole list: decay everything, keep the survivors in order. */
  function Step(ps: seq<Particle>): (r: seq<Particle>)
    ensures |r| <= |ps|
  {
    if ps == [] then []
    else
      var last := Decay(ps[|ps| - 1]);
      Step(ps[..|ps| - 1]) + (if Survives(last) then [last] else [])
  }

  /** `k` animation frames. */
  function Ticks(ps: seq<Particle>, k: nat): seq<Particle> {
    if k == 0 then ps else Step(Ticks(ps, k - 1))
  }

  /** A particle after `k` decays. */
  function Aged(p: Particle, k: int): Particle {
    p.(opacity := p.opacity - OpacityStep * k, scale := p.scale - ScaleStep * k)
  }

  /** True when the particle is still in the list after `k` frames. */
  predicate LivesThrough(p: Particle, k: nat) {
    k == 0 || (p.hasElement && p.opacity - OpacityStep * k > 0)
  }

  /** Ids of the particles whose element is in the container. */
  function ElementIds(ps: seq<Particle>): set<nat> {
    set p | p in ps && p.hasElement :: p.id
  }

  predicate IdsIncreasing(ps: seq<Particle>) {
    forall i, j :: 0 <= i < j < |ps| ==> ps[i].id < ps[j].id
  }

  /** Decay state reachable from a fresh particle: opacity in (0, 100] and 2·scale − opacity = 100. */
  predicate Live(p: Particle) {
    0 < p.opacity <= FullOpacity && 2 * p.scale - p.opacity == 2 * FullScale - FullOpacity
  }

  /** The particle list as the cursor keeps it: ids in increasing order, below the counter, all live. */
  predicate WellFormed(ps: seq<Particle>, nextId: nat) {
    IdsIncreasing(ps) && forall i :: 0 <= i < |ps| ==> ps[i].id < nextId && Live(ps[i])
  }

  // ----- properties of one frame -----

  /** A particle is in the next frame's list iff it is the decay of a particle that survives it. */
  lemma {:induction false} StepMembers(ps: seq<Particle>, x: Particle)
    ensures x in Step(ps) <==> exists q :: q in ps && x == Decay(q) && Survives(Decay(q))
  {
    if ps != [] {
      var init := ps[..|ps| - 1];
      StepMembers(init, x);
      assert ps == init + [ps[|ps| - 1]];
      if x in Step(ps) && x !in Step(init) {
        assert x == Decay(ps[|ps| - 1]);
      }
      if exists q :: q in ps && x == Decay(q) && Survives(Decay(q)) {
        var q :| q in ps && x == Decay(q) && Survives(Decay(q));
        if q !in init {
          assert q == ps[|ps| - 1];
        }
      }
    }
  }

  /** A frame keeps the survivors in their relative order. */
  lemma {:induction false} StepKeepsOrder(ps: seq<Particle>)
    requires IdsIncreasing(ps)
    ensures IdsIncreasing(Step(ps))
  {
    if ps != [] {
      var init, last := ps[..|ps| - 1], Decay(ps[|ps| - 1]);
      StepKeepsOrder(init);
      forall x | x in Step(init) ensures x.id < last.id {
        StepMembers(init, x);
        var q :| q in init && x == Decay(q) && Survives(Decay(q));
        var i :| 0 <= i < |init| && init[i] == q;
      }
    }
  }

  /** A frame keeps the list well formed. */
  lemma {:induction false} StepWellFormed(ps: seq<Particle>, nextId: nat)
    requires WellFormed(ps, nextId)
    ensures WellFormed(Step(ps), nextId)
  {
    StepKeepsOrder(ps);
    var r := Step(ps);
    forall i | 0 <= i < |r| ensures r[i].id < nextId && Live(r[i]) {
      StepMembers(ps, r[i]);
      var q :| q in ps && r[i] == Decay(q) && Survives(Decay(q));
    }
  }

  /**
   * With distinct ids, a particle's id is still present after a frame exactly
   * when its decayed opacity is positive and it still has its element.
   */
  lemma RemovedIffExpired(ps: seq<Particle>, i: nat)
    requires IdsIncreasing(ps) && i < |ps|
    ensures Decay(ps[i]) in Step(ps) <==> Survives(Decay(ps[i]))
    ensures (exists x :: x in Step(ps) && x.id == ps[i].id) <==> Survives(Decay(ps[i]))
  {
    StepMembers(ps, Decay(ps[i]));
    if exists x :: x in Step(ps) && x.id == ps[i].id {
      var x :| x in Step(ps) && x.id == ps[i].id;
      StepMembers(ps, x);
      var q :| q in ps && x == Decay(q) && Survives(Decay(q));
      var j :| 0 <= j < |ps| && ps[j] == q;
      assert j == i;
    }
  }

  /** Two particles of a list with increasing ids and the same id are the same particle. */
  lemma SameIdSameParticle(ps: seq<Particle>, a: Particle, b: Particle)
    requires IdsIncreasing(ps) && a in ps && b in ps && a.id == b.id
    ensures a == b
  {
    var i :| 0 <= i < |ps| && ps[i] == a;
    var j :| 0 <= j < |ps| && ps[j] == b;
    assert !(i < j) && !(j < i);
  }

  /** Ids whose element a frame releases: particles with an element that do not survive it. */
  function ExpiredIds(ps: seq<Particle>): set<nat> {
    set p | p in ps && p.hasElement && !Survives(Decay(p)) :: p.id
  }

  /** With distinct ids, the elements left after a frame are the old ones minus the released ones. */
  lemma StepElementIds(ps: seq<Particle>)
    requires IdsIncreasing(ps)
    ensures ElementIds(Step(ps)) == ElementIds(ps) - ExpiredIds(ps)
  {
    forall n | n in ElementIds(Step(ps)) ensures n in ElementIds(ps) - ExpiredIds(ps) {
      var x :| x in Step(ps) && x.hasElement && x.id == n;
      StepMembers(ps, x);
      var q :| q in ps && x == Decay(q) && Survives(Decay(q));
      forall q' | q' in ps && q'.id == n ensures Survives(Decay(q')) {
        SameIdSameParticle(ps, q, q');
      }
    }
    forall n | n in ElementIds(ps) - ExpiredIds(ps) ensures n in ElementIds(Step(ps)) {
      var q :| q in ps && q.hasElement && q.id == n;
      StepMembers(ps, Decay(q));
    }
  }

  // ----- properties of many frames -----

  /** One more decay of a particle aged `k` times, and whether it lives through it. */
  lemma AgedStep(q: Particle, k: nat)
    ensures Decay(Aged(q, k)) == Aged(q, k + 1)
    ensures LivesThrough(q, k + 1) <==> LivesThrough(q, k) && Survives(Aged(q, k + 1))
  {
  }

  /** After `k` frames the list holds exactly the particles that lived through them, aged `k` times. */
  lemma {:induction false} TicksMembers(ps: seq<Particle>, k: nat, x: Particle)
    ensures x in Ticks(ps, k) <==> exists q :: q in ps && x == Aged(q, k) && LivesThrough(q, k)
  {
    if k == 0 {
      if x in ps {
        assert x == Aged(x, 0);
      }
    } else {
      var prev := Ticks(ps, k - 1);
      assert Ticks(ps, k) == Step(prev);
      StepMembers(prev, x);
      if x in Ticks(ps, k) {
        var y :| y in prev && x == Decay(y) && Survives(Decay(y));
        TicksMembers(ps, k - 1, y);
        var q :| q in ps && y == Aged(q, k - 1) && LivesThrough(q, k - 1);
        AgedStep(q, k - 1);
      }
      if exists q :: q in ps && x == Aged(q, k) && LivesThrough(q, k) {
        var q :| q in ps && x == Aged(q, k) && LivesThrough(q, k);
        AgedStep(q, k - 1);
        TicksMembers(ps, k - 1, Aged(q, k - 1));
      }
    }
  }

  /**
   * A particle emitted at full opacity is still in the list after frames
   * 0 to 49 and gone after frame 50: no particle with its id remains.
   */
  lemma FreshLifetime(ps: seq<Particle>, p: Particle, k: nat)
    requires p in ps && p.opacity == FullOpacity && p.hasElement
    ensures Aged(p, k) in Ticks(ps, k) <==> k < 50
    ensures IdsIncreasing(ps) && k >= 50 ==> forall x :: x in Ticks(ps, k) ==> x.id != p.id
  {
    TicksMembers(ps, k, Aged(p, k));
    if IdsIncreasing(ps) && k >= 50 {
      forall x | x in Ticks(ps, k) ensures x.id != p.id {
        TicksMembers(ps, k, x);
        var q :| q in ps && x == Aged(q, k) && LivesThrough(q, k);
        assert q != p;
        if q.id == p.id {
          SameIdSameParticle(ps, q, p);
        }
      }
    }
  }

  /** A lone fresh particle, frame by frame: itself aged `k` times while `k < 50`, then nothing. */
  lemma {:induction false} FreshTicks(p: Particle, k: nat)
    requires p.opacity == FullOpacity && p.hasElement
    ensures Ticks([p], k) == if k < 50 then [Aged(p, k)] else []
  {
    if k == 0 {
      assert Aged(p, 0) == p;
    } else {
      FreshTicks(p, k - 1);
      if k - 1 < 50 {
        var a := Aged(p, k - 1);
        AgedStep(p, k - 1);
        assert [a][..0] == [];
        assert Step([a]) == Step([]) + (if Survives(Decay(a)) then [Decay(a)] else []);
      }
    }
  }

  // ----- one frame and the teardown, as loops -----

  /**
   * The body of the animation frame: `filter` over the list, decaying each
   * particle and releasing the element of each one that expires.
   */
  method Frame(ps: seq<Particle>, attached: set<nat>) returns (kept: seq<Particle>, remaining: set<nat>)
    ensures kept == Step(ps)
    ensures remaining == attached - ExpiredIds(ps)
  {
    kept := [];
    remaining := attached;
    var i := 0;
    while i < |ps|
      invariant 0 <= i <= |ps|
      invariant kept == Step(ps[..i])
      invariant remaining == attached - ExpiredIds(ps[..i])
    {
      assert ps[..i + 1][..i] == ps[..i];
      ExpiredIdsSnoc(ps[..i], ps[i]);
      assert ps[..i + 1] == ps[..i] + [ps[i]];
      var p := Decay(ps[i]);
      if p.opacity <= 0 || !p.hasElement {
        if p.hasElement {
          remaining := remaining - {p.id};
        }
      } else {
        kept := kept + [p];
      }
      i := i + 1;
    }
    assert ps[..|ps|] == ps;
  }

  lemma ExpiredIdsSnoc(s: seq<Particle>, x: Particle)
    ensures ExpiredIds(s + [x]) == ExpiredIds(s) + (if x.hasElement && !Survives(Decay(x)) then {x.id} else {})
  {
    forall q | q in s + [x] ensures q in s || q == x { }
  }

  lemma ElementIdsSnoc(s: seq<Particle>, x: Particle)
    ensures ElementIds(s + [x]) == ElementIds(s) + (if x.hasElement then {x.id} else {})
  {
    forall q | q in s + [x] ensures q in s || q == x { }
  }

  /** The teardown's `forEach`: release the element of every particle in the list. */
  method ReleaseAll(ps: seq<Particle>, attached: set<nat>) returns (remaining: set<nat>)
    ensures remaining == attached - ElementIds(ps)
  {
    remaining := attached;
    var i := 0;
    while i < |ps|
      invariant 0 <= i <= |ps|
      invariant remaining == attached - ElementIds(ps[..i])
    {
      ElementIdsSnoc(ps[..i], ps[i]);
      assert ps[..i + 1] == ps[..i] + [ps[i]];
      if ps[i].hasElement {
        remaining := remaining - {ps[i].id};
      }
      i := i + 1;
    }
    assert ps[..|ps|] == ps;
  }

  // ----- the component -----

  /** The cursor component's state: the ring's position and the particle trail. */
  class CursorTrail {
    var position: Point
    var isPointer: bool
    var particles: seq<Particle>
    var nextId: nat
    var lastPos: Point
    /** Ids of the particle elements currently in the container. */
    var attached: set<nat>
    /** The mouse-move and mouse-leave listeners are registered. */
    var listening: bool
    /** An animation frame is scheduled. */
    var frameRequested: bool

    ghost predicate Valid()
      reads this
    {
      WellFormed(particles, nextId) && attached == ElementIds(particles)
    }

    /** Mounting: initial state and both effects' registrations. */
    constructor ()
      ensures Valid()
      ensures position == OffScreen && !isPointer && lastPos == Point(0, 0)
      ensures particles == [] && nextId == 0 && attached == {}
      ensures listening && frameRequested
    {
      position := OffScreen;
      isPointer := false;
      particles := [];
      nextId := 0;
      lastPos := Point(0, 0);
      attached := {};
      listening := true;
      frameRequested := true;
    }

    /**
     * A mouse-move event at (x, y). `clickable` is the host's classification
     * of the event target; `containerMounted` says whether the particle
     * container element exists.
     */
    method OnMove(x: int, y: int, clickable: bool, containerMounted: bool)
      requires Valid() && listening
      modifies this
      ensures Valid()
      ensures position == Point(x, y) && isPointer == clickable
      ensures listening == old(listening) && frameRequested == old(frameRequested)
      ensures containerMounted && FarEnough(old(lastPos), Point(x, y)) ==>
        && particles == old(particles) + [NewParticle(old(nextId), Point(x, y))]
        && nextId == old(nextId) + 1
        && lastPos == Point(x, y)
        && attached == old(attached) + {old(nextId)}
      ensures !(containerMounted && FarEnough(old(lastPos), Point(x, y))) ==>
        && particles == old(particles)
        && nextId == old(nextId)
        && lastPos == old(lastPos)
        && attached == old(attached)
    {
      position := Point(x, y);
      isPointer := clickable;
      var dx := x - lastPos.x;
      var dy := y - lastPos.y;
      if dx * dx + dy * dy > MinDistance2 && containerMounted {
        var p := NewParticle(nextId, Point(x, y));
        ElementIdsSnoc(particles, p);
        attached := attached + {nextId};
        particles := particles + [p];
        nextId := nextId + 1;
        lastPos := Point(x, y);
      }
    }

    /** The pointer leaves the document: only the ring moves off screen. */
    method OnLeave()
      requires Valid() && listening
      modifies this
      ensures Valid()
      ensures position == OffScreen
      ensures isPointer == old(isPointer) && particles == old(particles) && nextId == old(nextId)
      ensures lastPos == old(lastPos) && attached == old(attached)
      ensures listening == old(listening) && frameRequested == old(frameRequested)
    {
      position := OffScreen;
    }

    /**
     * One animation frame: decay every particle, release the element of
     * each one that expired, keep the rest in order, schedule the next frame.
     */
    method Tick()
      requires Valid() && frameRequested
      modifies this
      ensures Valid()
      ensures particles == Step(old(particles))
      ensures attached == old(attached) - ExpiredIds(old(particles))
      ensures forall i :: 0 <= i < |particles| ==> particles[i].scale > FullScale / 2
      ensures position == old(position) && isPointer == old(isPointer)
      ensures nextId == old(nextId) && lastPos == old(lastPos)
      ensures listening == old(listening) && frameRequested
    {
      StepWellFormed(particles, nextId);
      StepElementIds(particles);
      if |particles| > 0 {
        particles, attached := Frame(particles, attached);
      }
    }

    /** Unmounting: both effects' clean-ups run and every element is released. */
    method Teardown()
      requires Valid()
      modifies this
      ensures Valid()
      ensures particles == [] && attached == {}
      ensures !listening && !frameRequested
      ensures position == old(position) && isPointer == old(isPointer)
      ensures nextId == old(nextId) && lastPos == old(lastPos)
    {
      listening := false;
      frameRequested := false;
      attached := ReleaseAll(particles, attached);
      particles := [];
    }
  }

  /** A walk-through: moves to (10,0), (10,0), (20,0) emit ids 0 and 1. */
  method EmissionScenario() returns (ids: seq<nat>, last: Point)
    ensures ids == [0, 1] && last == Point(20, 0)
  {
    var c := new CursorTrail();
    assert Distance2(Point(0, 0), Point(10, 0)) == 100;
    c.OnMove(10, 0, false, true);
    assert c.lastPos == Point(10, 0) && c.nextId == 1;
    assert c.particles == [NewParticle(0, Point(10, 0))];
    assert !FarEnough(c.lastPos, Point(10, 0));
    c.OnMove(10, 0, false, true);
    assert c.lastPos == Point(10, 0) && c.nextId == 1;
    assert FarEnough(c.lastPos, Point(20, 0));
    c.OnMove(20, 0, false, true);
    assert c.particles == [NewParticle(0, Point(10, 0)), NewParticle(1, Point(20, 0))];
    ids := [c.particles[0].id, c.particles[1].id];
    last := c.lastPos;
  }

  /** A single particle, ticked frame by frame: present after 49 frames, gone after 50. */
  method LifetimeScenario() returns (after49: nat, after50: nat)
    ensures after49 == 1 && after50 == 0
  {
    var c := new CursorTrail();
    c.OnMove(10, 0, false, true);
    var p := NewParticle(0, Point(10, 0));
    assert c.particles == [p];
    var k := 0;
    while k < 49
      invariant 0 <= k <= 49
      invariant c.Valid() && c.frameRequested && c.particles == Ticks([p], k)
    {
      c.Tick();
      k := k + 1;
    }
    FreshTicks(p, 49);
    after49 := |c.particles|;
    c.Tick();
    FreshTicks(p, 50);
    after50 := |c.particles|;
  }
}
