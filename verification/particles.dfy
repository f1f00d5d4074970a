/** The ambient particle field of the landing page (script.js, classes
    `ParticleSystem` and `Particle`).

    Numbers are reals rather than IEEE doubles. The transcendental functions the
    source calls (`Math.cos`, `Math.sin`, `Math.sqrt`, `Math.atan2`) are not
    computed here: they arrive as a `MathLib` of arbitrary total functions, and a
    lemma that needs some geometry from them says exactly which facts it needs.
    `Math.random` is a stream of draws handed to the constructor. */
module Particles {
  import opened Optional

  /** `mouse.radius`: repulsion acts strictly inside this distance. */
  const MouseRadius: real := 250.0
  /** `particleCount`: the number of particles the system creates. */
  const ParticleCount: nat := 200
  /** Amplitude of the cos/sin float added to the drift each frame. */
  const FloatAmplitude: real := 0.1
  /** Gain of the pointer push (`force * 1.0`). */
  const PushGain: real := 1.0
  /** `Math.PI`: the shortest decimal that rounds to the double nearest π. */
  const Pi: real := 3.141592653589793

  /** The host's transcendental functions, as opaque total functions. */
  datatype MathLib = MathLib(
    cos: real -> real,
    sin: real -> real,
    sqrt: real -> real,
    atan2: (real, real) -> real)

  /** The fill colour `rgba(212, 175, 55, opacity)`, kept structured. */
  datatype Rgba = Rgba(red: nat, green: nat, blue: nat, alpha: real)

  datatype Particle = Particle(
    canvasWidth: real,     // field size recorded at construction; update ignores it
    canvasHeight: real,
    x: real,
    y: real,
    size: real,
    vx: real,              // `velocity.x`
    vy: real,              // `velocity.y`
    opacity: real,
    color: Rgba,
    angle: real,
    angularVelocity: real)

  /** `this.mouse`: both coordinates are `null` until the pointer moves over the
      window, and again after it leaves. */
  datatype Pointer = Pointer(x: Option<real>, y: Option<real>)

  /** The eight `Math.random()` results one particle constructor consumes, in
      source order. */
  datatype Draws = Draws(
    x: real, y: real, size: real, vx: real, vy: real,
    opacity: real, angle: real, angularVelocity: real)

  /** What `Math.random()` promises: a value in [0, 1). */
  predicate Unit(r: real) { 0.0 <= r < 1.0 }

  predicate ValidDraws(d: Draws)
  {
    && Unit(d.x) && Unit(d.y) && Unit(d.size) && Unit(d.vx) && Unit(d.vy)
    && Unit(d.opacity) && Unit(d.angle) && Unit(d.angularVelocity)
  }

  /** The wrap invariant: a particle lies in the closed field rectangle. */
  predicate InField(p: Particle, width: real, height: real)
  {
    0.0 <= p.x <= width && 0.0 <= p.y <= height
  }

  /** Everything `update` must leave alone: all fields except angle, x and y. */
  predicate SameTraits(p: Particle, q: Particle)
  {
    && p.canvasWidth == q.canvasWidth && p.canvasHeight == q.canvasHeight
    && p.size == q.size && p.vx == q.vx && p.vy == q.vy
    && p.opacity == q.opacity && p.color == q.color
    && p.angularVelocity == q.angularVelocity
  }

  // ---------------------------------------------------------------------------
  // Construction

  /** `new Particle(canvasWidth, canvasHeight)` fed with the draws `d`. */
  function NewParticle(width: real, height: real, d: Draws): (p: Particle)
    ensures Unit(d.x) && 0.0 <= width ==> 0.0 <= p.x <= width && (0.0 < width ==> p.x < width)
    ensures Unit(d.y) && 0.0 <= height ==> 0.0 <= p.y <= height && (0.0 < height ==> p.y < height)
    ensures Unit(d.size) ==> 0.1 <= p.size < 0.6
    ensures Unit(d.vx) ==> -0.075 <= p.vx < 0.075
    ensures Unit(d.vy) ==> -0.075 <= p.vy < 0.075
    ensures Unit(d.opacity) ==> 0.02 <= p.opacity < 0.17
    ensures Unit(d.angle) ==> 0.0 <= p.angle < 2.0 * Pi
    ensures Unit(d.angularVelocity) ==> -0.01 <= p.angularVelocity < 0.01
    ensures p.color == Rgba(212, 175, 55, p.opacity)
  {
    var x := Scale(d.x, width);
    var y := Scale(d.y, height);
    var opacity := d.opacity * 0.15 + 0.02;
    Particle(
      canvasWidth := width,
      canvasHeight := height,
      x := x,
      y := y,
      size := d.size * 0.5 + 0.1,
      vx := (d.vx - 0.5) * 0.15,
      vy := (d.vy - 0.5) * 0.15,
      opacity := opacity,
      color := Rgba(212, 175, 55, opacity),
      angle := d.angle * Pi * 2.0,
      angularVelocity := (d.angularVelocity - 0.5) * 0.02)
  }

  /** `Math.random() * w`: a uniform position along an axis of length w. */
  function Scale(r: real, w: real): (v: real)
    ensures Unit(r) && 0.0 <= w ==> 0.0 <= v <= w && (0.0 < w ==> v < w)
  {
    assert Unit(r) && 0.0 <= w ==> r * w <= 1.0 * w;
    assert Unit(r) && 0.0 < w ==> r * w < 1.0 * w;
    r * w
  }

  // ---------------------------------------------------------------------------
  // One call of `Particle.update`, in its three source phases

  /** Phase 1: advance the phase, then drift plus a small cos/sin float. */
  function Drift(p: Particle, m: MathLib): (q: Particle)
    ensures SameTraits(q, p)
    ensures q.angle == p.angle + p.angularVelocity
  {
    var angle := p.angle + p.angularVelocity;
    p.(angle := angle,
       x := p.x + (p.vx + m.cos(angle) * FloatAmplitude),
       y := p.y + (p.vy + m.sin(angle) * FloatAmplitude))
  }

  /** Both pointer coordinates are non-null. */
  predicate Engaged(mouse: Pointer)
  {
    mouse.x.Some? && mouse.y.Some?
  }

  /** `Math.sqrt(dx * dx + dy * dy)`. */
  function Distance(m: MathLib, dx: real, dy: real): real
  {
    m.sqrt(dx * dx + dy * dy)
  }

  /** The distance from the particle to the pointer. */
  function PointerDistance(p: Particle, mouse: Pointer, m: MathLib): real
    requires Engaged(mouse)
  {
    Distance(m, mouse.x.value - p.x, mouse.y.value - p.y)
  }

  /** Repulsion applies only to an engaged pointer strictly inside the radius. */
  predicate Repels(p: Particle, mouse: Pointer, m: MathLib)
  {
    Engaged(mouse) && PointerDistance(p, mouse, m) < MouseRadius
  }

  /** `(mouse.radius - distance) / mouse.radius`. */
  function Force(distance: real): (f: real)
    ensures 0.0 <= distance < MouseRadius ==> 0.0 < f <= 1.0
    ensures distance == 0.0 ==> f == 1.0
    ensures distance == MouseRadius ==> f == 0.0
  {
    (MouseRadius - distance) / MouseRadius
  }

  /** Phase 2: the pointer pushes the particle along the line away from it. */
  function Repel(p: Particle, mouse: Pointer, m: MathLib): (q: Particle)
    ensures q == p.(x := q.x, y := q.y)
    ensures !Repels(p, mouse, m) ==> q == p
  {
    if Engaged(mouse) then
      var dx := mouse.x.value - p.x;
      var dy := mouse.y.value - p.y;
      var distance := PointerDistance(p, mouse, m);
      if distance < MouseRadius then
        var force := Force(distance);
        var angle := m.atan2(dy, dx);
        p.(x := p.x - m.cos(angle) * force * PushGain,
           y := p.y - m.sin(angle) * force * PushGain)
      else
        p
    else
      p
  }

  /** Phase 3 on one axis: the two sequential `if`s of the source. */
  function WrapAxis(v: real, bound: real): (r: real)
    ensures 0.0 <= bound ==> 0.0 <= r <= bound
    ensures v < 0.0 ==> r == bound
    ensures 0.0 <= v && bound < v ==> r == 0.0
    ensures 0.0 <= v <= bound ==> r == v
  {
    var afterLow := if v < 0.0 then bound else v;
    if afterLow > bound then 0.0 else afterLow
  }

  /** Phase 3: wrap each axis independently against the current canvas size. */
  function WrapEdges(p: Particle, width: real, height: real): (q: Particle)
    ensures SameTraits(q, p) && q.angle == p.angle
    ensures 0.0 <= width && 0.0 <= height ==> InField(q, width, height)
    ensures InField(p, width, height) ==> q == p
  {
    p.(x := WrapAxis(p.x, width), y := WrapAxis(p.y, height))
  }

  /** `particle.update(mouse, canvasWidth, canvasHeight, time)`; `time` is unused
      by the source and so is not a parameter. */
  function Update(p: Particle, mouse: Pointer, width: real, height: real, m: MathLib): (q: Particle)
    ensures SameTraits(q, p)
    ensures q.angle == p.angle + p.angularVelocity
    ensures 0.0 <= width && 0.0 <= height ==> InField(q, width, height)
  {
    WrapEdges(Repel(Drift(p, m), mouse, m), width, height)
  }

  // ---------------------------------------------------------------------------
  // Properties of the update step

  /** Wrapping is a reset to the opposite edge, never a clamp: a coordinate is
      left alone exactly when it is already inside the field. */
  lemma WrapFixesExactlyInRange(v: real, bound: real)
    requires 0.0 <= bound
    ensures WrapAxis(v, bound) == v <==> 0.0 <= v <= bound
  {
  }

  /** A second wrap changes nothing, whatever the bound. */
  lemma WrapIdempotent(v: real, bound: real)
    ensures WrapAxis(WrapAxis(v, bound), bound) == WrapAxis(v, bound)
  {
  }

  /** The force falls strictly as the distance grows inside the radius. */
  lemma ForceStrictlyDecreasing(d1: real, d2: real)
    requires 0.0 <= d1 < d2 < MouseRadius
    ensures 0.0 < Force(d2) < Force(d1) <= 1.0
  {
  }

  /** The push moves the particle by exactly `force` when the direction the host
      returns is a unit vector; at distance 0 that is a full unit push. */
  lemma PushLength(p: Particle, mouse: Pointer, m: MathLib)
    requires Repels(p, mouse, m)
    requires UnitDirection(p, mouse, m)
    ensures var q := Repel(p, mouse, m);
            var f := Force(PointerDistance(p, mouse, m));
            (p.x - q.x) * (p.x - q.x) + (p.y - q.y) * (p.y - q.y) == f * f
  {
    var dx := mouse.x.value - p.x;
    var dy := mouse.y.value - p.y;
    var a := m.atan2(dy, dx);
    var c, s := m.cos(a), m.sin(a);
    var f := Force(PointerDistance(p, mouse, m));
    assert (c * f) * (c * f) + (s * f) * (s * f) == (c * c + s * s) * (f * f);
  }

  /** `cos` and `sin` of the push direction lie on the unit circle. */
  predicate UnitDirection(p: Particle, mouse: Pointer, m: MathLib)
    requires Engaged(mouse)
  {
    var a := m.atan2(mouse.y.value - p.y, mouse.x.value - p.x);
    m.cos(a) * m.cos(a) + m.sin(a) * m.sin(a) == 1.0
  }

  /** The host's `sqrt`, `atan2`, `cos` and `sin` agree at this particle: the
      direction is a unit vector and the distance times it is the vector from
      the particle to the pointer (the polar form of that vector). */
  predicate Polar(p: Particle, mouse: Pointer, m: MathLib)
    requires Engaged(mouse)
  {
    var dx := mouse.x.value - p.x;
    var dy := mouse.y.value - p.y;
    var d := Distance(m, dx, dy);
    var a := m.atan2(dy, dx);
    && 0.0 <= d
    && m.cos(a) * m.cos(a) + m.sin(a) * m.sin(a) == 1.0
    && m.cos(a) * d == dx && m.sin(a) * d == dy
  }

  /** With consistent geometry the push is directly away from the pointer: the
      distance after the push is the old distance plus the force. */
  lemma PushIsAway(p: Particle, mouse: Pointer, m: MathLib)
    requires Repels(p, mouse, m)
    requires Polar(p, mouse, m)
    ensures var q := Repel(p, mouse, m);
            var d := PointerDistance(p, mouse, m);
            var ex := mouse.x.value - q.x;
            var ey := mouse.y.value - q.y;
            ex * ex + ey * ey == (d + Force(d)) * (d + Force(d))
  {
    var dx := mouse.x.value - p.x;
    var dy := mouse.y.value - p.y;
    var d := PointerDistance(p, mouse, m);
    var a := m.atan2(dy, dx);
    var c, s := m.cos(a), m.sin(a);
    var f := Force(d);
    var q := Repel(p, mouse, m);
    assert mouse.x.value - q.x == c * (d + f);
    assert mouse.y.value - q.y == s * (d + f);
    assert (c * (d + f)) * (c * (d + f)) + (s * (d + f)) * (s * (d + f))
        == (c * c + s * s) * ((d + f) * (d + f));
  }

  /** When either pointer coordinate is null, or the drifted particle is at or
      beyond the radius, the frame is exactly the frame without a pointer. */
  lemma InertPointer(p: Particle, mouse: Pointer, width: real, height: real, m: MathLib)
    requires !Engaged(mouse) || MouseRadius <= PointerDistance(Drift(p, m), mouse, m)
    ensures Update(p, mouse, width, height, m) == Update(p, Pointer(None, None), width, height, m)
  {
    var q := Drift(p, m);
    assert Repel(q, mouse, m) == q;
    assert Repel(q, Pointer(None, None), m) == q;
  }

  // ---------------------------------------------------------------------------
  // The particle system and its handlers

  datatype System = System(
    width: nat,              // `canvas.width`, from `window.innerWidth`
    height: nat,             // `canvas.height`, from `scrollHeight`
    particles: seq<Particle>,
    mouse: Pointer)

  /** Every particle lies inside the current canvas. */
  predicate AllInField(ps: seq<Particle>, width: nat, height: nat)
  {
    forall i :: 0 <= i < |ps| ==> InField(ps[i], width as real, height as real)
  }

  /** The constructor up to `init()`: size the canvas, then create
      `ParticleCount` particles, particle i from the draws `draws(i)`. */
  function NewSystem(innerWidth: nat, scrollHeight: nat, draws: nat -> Draws): (sys: System)
    ensures |sys.particles| == ParticleCount
    ensures sys.width == innerWidth && sys.height == scrollHeight
    ensures forall i :: 0 <= i < ParticleCount ==>
              sys.particles[i] == NewParticle(innerWidth as real, scrollHeight as real, draws(i))
    ensures sys.mouse == Pointer(None, None)
    ensures (forall i :: 0 <= i < ParticleCount ==> ValidDraws(draws(i)))
            ==> AllInField(sys.particles, sys.width, sys.height)
  {
    var ps := seq(ParticleCount, i requires 0 <= i < ParticleCount =>
                    NewParticle(innerWidth as real, scrollHeight as real, draws(i)));
    System(innerWidth, scrollHeight, ps, Pointer(None, None))
  }

  /** `resize()`: only the canvas size changes; particles stay where they are,
      so some may sit outside the new canvas until the next frame. */
  function Resize(sys: System, innerWidth: nat, scrollHeight: nat): (r: System)
    ensures r.width == innerWidth && r.height == scrollHeight
    ensures r.particles == sys.particles && r.mouse == sys.mouse
  {
    sys.(width := innerWidth, height := scrollHeight)
  }

  /** The `mousemove` handler: the pointer in page coordinates. */
  function MouseMove(sys: System, clientX: real, clientY: real, scrollY: real): (r: System)
    ensures Engaged(r.mouse)
    ensures r.mouse == Pointer(Some(clientX), Some(clientY + scrollY))
    ensures r.particles == sys.particles && r.width == sys.width && r.height == sys.height
  {
    sys.(mouse := Pointer(Some(clientX), Some(clientY + scrollY)))
  }

  /** The `mouseleave` handler: both coordinates back to null. */
  function MouseLeave(sys: System): (r: System)
    ensures r.mouse == Pointer(None, None)
    ensures r.particles == sys.particles && r.width == sys.width && r.height == sys.height
  {
    sys.(mouse := Pointer(None, None))
  }

  /** After the pointer leaves, no particle is pushed. */
  lemma LeaveStopsRepulsion(sys: System, p: Particle, m: MathLib)
    ensures Repel(p, MouseLeave(sys).mouse, m) == p
  {
  }

  /** After a move, a particle is pushed exactly when its distance to the
      page-coordinate pointer is below the radius. */
  lemma MoveRepelsWithinRadius(sys: System, clientX: real, clientY: real, scrollY: real,
                               p: Particle, m: MathLib)
    ensures Repels(p, MouseMove(sys, clientX, clientY, scrollY).mouse, m)
        <==> Distance(m, clientX - p.x, (clientY + scrollY) - p.y) < MouseRadius
  {
  }

  /** One `animate` frame: `update` every particle in order against the
      current canvas size and pointer snapshot. Drawing is not modelled. */
  method Animate(sys: System, m: MathLib) returns (r: System)
    ensures r.width == sys.width && r.height == sys.height && r.mouse == sys.mouse
    ensures |r.particles| == |sys.particles|
    ensures forall i :: 0 <= i < |r.particles| ==>
              r.particles[i] == Update(sys.particles[i], sys.mouse, sys.width as real, sys.height as real, m)
    ensures forall i :: 0 <= i < |r.particles| ==> SameTraits(r.particles[i], sys.particles[i])
    ensures AllInField(r.particles, r.width, r.height)
  {
    var w, h := sys.width as real, sys.height as real;
    var done: seq<Particle> := [];
    var i := 0;
    while i < |sys.particles|
      invariant 0 <= i <= |sys.particles| && |done| == i
      invariant forall j :: 0 <= j < i ==> done[j] == Update(sys.particles[j], sys.mouse, w, h, m)
      invariant forall j :: 0 <= j < i ==> SameTraits(done[j], sys.particles[j])
      invariant forall j :: 0 <= j < i ==> InField(done[j], w, h)
    {
      done := done + [Update(sys.particles[i], sys.mouse, w, h, m)];
      i := i + 1;
    }
    r := sys.(particles := done);
  }
}
