/** The wave-impulse pool as values: one slot per pre-allocated mesh, the
    pointer state, the ring cursor, and the per-frame operations on them.
    The class `Sketch` in module Animation runs these operations in place on an array;
    the functions here are its specification, and the lemmas here are what
    the sketch promises about its waves. Opacity, scale, rotation and
    positions are `real`, an idealisation of the JavaScript doubles. */
module Waves {
  import opened Geometry

  /** Number of slots in the pool (`this.max`). */
  const Max: nat := 100
  /** Per-axis pointer travel below which no wave is spawned. */
  const DeadZone: real := 4.0
  const RotationStep: real := 0.02
  const OpacityDecay: real := 0.93
  /** A decayed opacity below this hides the slot. */
  const OpacityEpsilon: real := 0.002
  const ScaleSmoothing: real := 0.98
  const ScaleOffset: real := 0.1
  const ScaleYGain: real := 1.01

  /** The state of one mesh of the pool that the sketch reads or writes. */
  datatype Slot = Slot(visible: bool, position: Vec2, rotation: real,
                       opacity: real, scaleX: real, scaleY: real)

  /** The state of a mesh right after the pool is built: hidden, at the
      origin, unit scale, full material opacity, a given rotation. */
  function Fresh(rotation: real): Slot
  {
    Slot(false, Vec2(0.0, 0.0), rotation, 1.0, 1.0, 1.0)
  }

  /** setNewWave on one slot. The rotation is kept. */
  function Respawn(s: Slot, at: Vec2): Slot
  {
    s.(visible := true, position := at, scaleX := 1.0, scaleY := 1.0, opacity := 1.0)
  }

  /** One step of the decay loop on one slot. */
  function Decay(s: Slot): Slot
  {
    if !s.visible then s
    else
      var opacity := s.opacity * OpacityDecay;
      var sx := ScaleSmoothing * s.scaleX + ScaleOffset;
      Slot(!(opacity < OpacityEpsilon), s.position, s.rotation + RotationStep,
           opacity, sx, ScaleYGain * sx)
  }

  /** The decay loop over the whole pool, slot by slot. */
  function DecayAll(slots: seq<Slot>): seq<Slot>
  {
    seq(|slots|, i requires 0 <= i < |slots| => Decay(slots[i]))
  }

  function Abs(x: real): real
  {
    if x < 0.0 then -x else x
  }

  /** The pointer has moved less than the dead zone on both axes. */
  predicate InDeadZone(mouse: Vec2, prevMouse: Vec2)
  {
    Abs(mouse.x - prevMouse.x) < DeadZone && Abs(mouse.y - prevMouse.y) < DeadZone
  }

  /** The whole state the pool logic touches: pointer, previous pointer,
      ring cursor (`currentWave`) and the slots. */
  datatype Pool = Pool(mouse: Vec2, prevMouse: Vec2, cursor: int, slots: seq<Slot>)

  /** Every slot keeps its scale in [1, 5), a positive opacity of at most 1,
      an opacity not below the threshold while visible, and either the reset
      scale (1, 1) or `scaleY == 1.01 * scaleX`. */
  predicate SlotOk(s: Slot)
  {
    1.0 <= s.scaleX < 5.0 && 0.0 < s.opacity <= 1.0 &&
    (s.visible ==> OpacityEpsilon <= s.opacity) &&
    ((s.scaleX == 1.0 && s.scaleY == 1.0) || s.scaleY == ScaleYGain * s.scaleX)
  }

  predicate Valid(p: Pool)
  {
    |p.slots| == Max && 0 <= p.cursor < Max &&
    forall i :: 0 <= i < |p.slots| ==> SlotOk(p.slots[i])
  }

  /** The pool as the sketch builds it: pointer at the origin, cursor 0,
      every slot fresh with its own initial rotation. */
  function Initial(rotations: seq<real>): (p: Pool)
    requires |rotations| == Max
    ensures Valid(p)
    ensures p.cursor == 0 && p.mouse == Vec2(0.0, 0.0) && p.prevMouse == Vec2(0.0, 0.0)
    ensures forall i :: 0 <= i < Max ==>
              p.slots[i] == Fresh(rotations[i]) && !p.slots[i].visible && p.slots[i].rotation == rotations[i] &&
              p.slots[i].position == Vec2(0.0, 0.0) && p.slots[i].opacity == 1.0 &&
              p.slots[i].scaleX == 1.0 && p.slots[i].scaleY == 1.0
  {
    Pool(Vec2(0.0, 0.0), Vec2(0.0, 0.0), 0, seq(Max, i requires 0 <= i < Max => Fresh(rotations[i])))
  }

  /** The mouse-move listener: only the current pointer changes. */
  function MouseMove(p: Pool, at: Vec2): Pool
  {
    p.(mouse := at)
  }

  /** trackMousePos: spawn a wave at the cursor slot unless the pointer is in
      the dead zone, then remember the pointer. */
  function Track(p: Pool): (r: Pool)
    requires Valid(p)
    ensures Valid(r)
  {
    var spawned :=
      if InDeadZone(p.mouse, p.prevMouse) then p
      else p.(slots := p.slots[p.cursor := Respawn(p.slots[p.cursor], p.mouse)],
              cursor := (p.cursor + 1) % Max);
    spawned.(prevMouse := p.mouse)
  }

  /** The decay loop at the end of a frame. */
  function Advance(p: Pool): (r: Pool)
    requires Valid(p)
    ensures Valid(r)
  {
    assert forall i :: 0 <= i < |p.slots| ==> SlotOk(Decay(p.slots[i])) by {
      forall i | 0 <= i < |p.slots| ensures SlotOk(Decay(p.slots[i])) {
        DecayKeepsSlotOk(p.slots[i]);
      }
    }
    p.(slots := DecayAll(p.slots))
  }

  /** One animation frame: track the pointer, render, then decay. The
      first component is the pool as the render calls see it. */
  function Frame(p: Pool): (r: (seq<Slot>, Pool))
    requires Valid(p)
    ensures Valid(r.1)
  {
    var tracked := Track(p);
    (tracked.slots, Advance(tracked))
  }

  lemma DecayKeepsSlotOk(s: Slot)
    requires SlotOk(s)
    ensures SlotOk(Decay(s))
    ensures s.visible ==> Decay(s).scaleY == 1.01 * Decay(s).scaleX
  {
  }

  // ---------------------------------------------------------------------
  // One tick of the pointer tracker

  /** A tick spawns exactly when the pointer moved by at least 4 on some
      axis; the spawn writes only the cursor slot, resetting everything but
      its rotation, and moves the cursor one step around the ring. Without a
      spawn nothing but the previous pointer changes. Either way the previous
      pointer becomes the current one. */
  lemma TrackEffect(p: Pool)
    requires Valid(p)
    ensures var r := Track(p);
            var moved := Abs(p.mouse.x - p.prevMouse.x) >= 4.0 || Abs(p.mouse.y - p.prevMouse.y) >= 4.0;
            r.mouse == p.mouse && r.prevMouse == p.mouse &&
            |r.slots| == |p.slots| &&
            r.cursor == (if moved then (p.cursor + 1) % Max else p.cursor) &&
            (forall i :: 0 <= i < |p.slots| && i != p.cursor ==> r.slots[i] == p.slots[i]) &&
            (moved ==> r.slots[p.cursor] == Respawn(p.slots[p.cursor], p.mouse)) &&
            (!moved ==> r.slots == p.slots)
  {
  }

  /** What setNewWave leaves in the slot: visible, at the pointer, unit
      scale, full opacity, and the rotation it had before. */
  lemma RespawnResets(s: Slot, at: Vec2)
    ensures var r := Respawn(s, at);
            r.visible && r.position == at && r.scaleX == 1.0 && r.scaleY == 1.0 &&
            r.opacity == 1.0 && r.rotation == s.rotation
  {
  }

  // ---------------------------------------------------------------------
  // A run of pointer samples, one per frame

  /** Feeds one pointer sample per tick: the listener stores it, then the
      tracker runs. */
  function TrackAll(p: Pool, samples: seq<Vec2>): (r: Pool)
    requires Valid(p)
    ensures Valid(r)
    decreases |samples|
  {
    if samples == [] then p
    else TrackAll(Track(MouseMove(p, samples[0])), samples[1..])
  }

  /** The number of samples that leave the dead zone around the sample before
      them (the first is compared with `prev`). */
  function Spawns(prev: Vec2, samples: seq<Vec2>): nat
    decreases |samples|
  {
    if samples == [] then 0
    else (if InDeadZone(samples[0], prev) then 0 else 1) + Spawns(samples[0], samples[1..])
  }

  lemma ModStep(c: int, k: nat)
    requires 0 <= c < Max
    ensures ((c + 1) % Max + k) % Max == (c + 1 + k) % Max
  {
  }

  /** The cursor advances once per qualifying sample, modulo the pool size,
      and the previous pointer ends as the last sample. */
  lemma {:induction false} TrackAllCursor(p: Pool, samples: seq<Vec2>)
    requires Valid(p)
    ensures TrackAll(p, samples).cursor == (p.cursor + Spawns(p.prevMouse, samples)) % Max
    ensures samples != [] ==> TrackAll(p, samples).prevMouse == samples[|samples| - 1]
    ensures samples == [] ==> TrackAll(p, samples) == p
    decreases |samples|
  {
    if samples != [] {
      var q := Track(MouseMove(p, samples[0]));
      TrackAllCursor(q, samples[1..]);
      var k := Spawns(samples[0], samples[1..]);
      if InDeadZone(samples[0], p.prevMouse) {
        assert q.cursor == p.cursor;
      } else {
        assert q.cursor == (p.cursor + 1) % Max;
        ModStep(p.cursor, k);
      }
      if samples[1..] != [] {
        assert samples[1..][|samples[1..]| - 1] == samples[|samples| - 1];
      }
    }
  }

  /** Ring wrap-around: after exactly 100 spawns from cursor 0 the cursor is
      back at 0, so spawn number 101 overwrites slot 0, and the pool still
      has 100 slots. */
  lemma WrapAround(p: Pool, samples: seq<Vec2>, next: Vec2)
    requires Valid(p) && p.cursor == 0
    requires Spawns(p.prevMouse, samples) == Max
    requires !InDeadZone(next, TrackAll(p, samples).prevMouse)
    ensures var q := TrackAll(p, samples);
            var r := TrackAll(p, samples + [next]);
            q.cursor == 0 && |r.slots| == Max &&
            r.slots[0] == Respawn(q.slots[0], next) &&
            r.cursor == 1
  {
    TrackAllCursor(p, samples);
    TrackAllAppend(p, samples, next);
  }

  lemma {:induction false} TrackAllAppend(p: Pool, samples: seq<Vec2>, next: Vec2)
    requires Valid(p)
    ensures TrackAll(p, samples + [next]) == Track(MouseMove(TrackAll(p, samples), next))
    decreases |samples|
  {
    if samples == [] {
      assert [] + [next] == [next];
      assert [next][1..] == [];
    } else {
      assert (samples + [next])[0] == samples[0];
      assert (samples + [next])[1..] == samples[1..] + [next];
      TrackAllAppend(Track(MouseMove(p, samples[0])), samples[1..], next);
    }
  }

  // ---------------------------------------------------------------------
  // The decay loop

  /** The decay loop touches only visible slots. A visible slot turns 0.02
      further, keeps 93% of its opacity, is hidden exactly when that opacity
      is below 0.002, gets `scaleX = 0.98 * scaleX + 0.1` and then
      `scaleY = 1.01` times the new `scaleX`. */
  lemma DecayAllEffect(slots: seq<Slot>)
    ensures var r := DecayAll(slots);
            |r| == |slots| &&
            forall i :: 0 <= i < |slots| ==>
              (!slots[i].visible ==> r[i] == slots[i]) &&
              (slots[i].visible ==>
                 r[i].position == slots[i].position &&
                 r[i].rotation == slots[i].rotation + 0.02 &&
                 r[i].opacity == 0.93 * slots[i].opacity &&
                 (r[i].visible <==> r[i].opacity >= 0.002) &&
                 r[i].scaleX == 0.98 * slots[i].scaleX + 0.1 &&
                 r[i].scaleY == 1.01 * r[i].scaleX)
  {
  }

  /** The decay loop changes only the slots: the cursor and both pointers
      stay as they were, so a frame's cursor is the tracker's cursor. */
  lemma AdvanceKeepsRest(p: Pool)
    requires Valid(p)
    ensures Advance(p).cursor == p.cursor
    ensures Advance(p).mouse == p.mouse && Advance(p).prevMouse == p.prevMouse
    ensures Frame(p).1.cursor == Track(p).cursor
  {
  }

  /** With no visible slot the decay loop changes nothing. */
  lemma AdvanceIdleIsNoOp(p: Pool)
    requires Valid(p)
    requires forall i :: 0 <= i < |p.slots| ==> !p.slots[i].visible
    ensures Advance(p) == p
  {
  }

  /** While visible, opacity strictly drops and `scaleX` strictly grows
      without reaching 5. */
  lemma DecayMonotone(s: Slot)
    requires SlotOk(s) && s.visible
    ensures Decay(s).opacity < s.opacity
    ensures s.scaleX < Decay(s).scaleX < 5.0
  {
  }

  // ---------------------------------------------------------------------
  // The life of one wave

  /** `x^n`; the proofs below use it with the literal bases 0.93 and 0.98,
      which keeps their arithmetic linear. */
  function Pow(x: real, n: nat): real
  {
    if n == 0 then 1.0 else x * Pow(x, n - 1)
  }

  /** `n` decay steps of one slot. */
  function DecayN(s: Slot, n: nat): Slot
  {
    if n == 0 then s else Decay(DecayN(s, n - 1))
  }

  lemma {:induction false} PowShift(x: real, k: nat, n: nat)
    ensures Pow(x, n + k) == Pow(x, k) * Pow(x, n)
  {
    if n > 0 {
      PowShift(x, k, n - 1);
      assert Pow(x, n + k) == x * Pow(x, n - 1 + k);
      assert x * (Pow(x, k) * Pow(x, n - 1)) == Pow(x, k) * (x * Pow(x, n - 1));
    }
  }

  /** The opacity factor `0.93^n` is positive, at most 1 and strictly
      decreasing in `n`. */
  lemma {:induction false} OpacityFactorDecreasing(m: nat, n: nat)
    requires m < n
    ensures 0.0 < Pow(0.93, n) < Pow(0.93, m) <= 1.0
    decreases n
  {
    if n - 1 > m {
      OpacityFactorDecreasing(m, n - 1);
    } else if m > 0 {
      OpacityFactorDecreasing(0, m);
    }
  }

  /** `0.93^85 >= 0.002 > 0.93^86`. */
  lemma OpacityThreshold()
    ensures Pow(0.93, 85) >= 0.002
    ensures Pow(0.93, 86) < 0.002
  {
    assert Pow(0.93, 1) == 0.93;
    assert Pow(0.93, 2) == 0.8649;
    assert Pow(0.93, 3) == 0.804357;
    assert Pow(0.93, 4) == 0.74805201;
    assert Pow(0.93, 5) == 0.6956883693;
    assert Pow(0.93, 6) == 0.646990183449;
    PowShift(0.93, 5, 5);
    assert Pow(0.93, 10) == 0.48398230717929318249;
    PowShift(0.93, 10, 10);
    PowShift(0.93, 10, 20);
    PowShift(0.93, 10, 30);
    PowShift(0.93, 10, 40);
    PowShift(0.93, 10, 50);
    PowShift(0.93, 10, 60);
    PowShift(0.93, 10, 70);
    PowShift(0.93, 5, 80);
    PowShift(0.93, 6, 80);
  }

  /** The `scaleX` of a wave `n` decay steps after its reset to 1. */
  function ScaleXAfter(n: nat): real
  {
    if n == 0 then 1.0 else ScaleSmoothing * ScaleXAfter(n - 1) + ScaleOffset
  }

  /** The recurrence `sx := 0.98 * sx + 0.1` started at 1 has the closed form
      `5 - 4 * 0.98^n`: it converges to 5, not to 1. */
  lemma {:induction false} ScaleXClosedForm(n: nat)
    ensures ScaleXAfter(n) == 5.0 - 4.0 * Pow(0.98, n)
  {
    if n > 0 {
      ScaleXClosedForm(n - 1);
    }
  }

  /** The wave's `scaleX` starts at 1 and grows strictly, staying below 5. */
  lemma {:induction false} ScaleXAfterIncreasing(m: nat, n: nat)
    requires m < n
    ensures 1.0 <= ScaleXAfter(m) < ScaleXAfter(n) < 5.0
    decreases n
  {
    if n - 1 > m {
      ScaleXAfterIncreasing(m, n - 1);
    } else if m > 0 {
      ScaleXAfterIncreasing(0, m);
    }
  }

  /** A wave respawned with opacity 1 stays visible for its first 85 decay
      steps: after `n <= 85` steps its opacity is `0.93^n`, it has turned by
      `0.02 * n`, it has not moved, and its scale follows the closed form. */
  lemma {:induction false} YoungWave(s: Slot, at: Vec2, n: nat)
    requires n <= 85
    ensures var w := DecayN(Respawn(s, at), n);
            w.visible && w.position == at &&
            w.opacity == Pow(0.93, n) &&
            w.rotation == s.rotation + 0.02 * n as real &&
            w.scaleX == ScaleXAfter(n) &&
            w.scaleY == (if n == 0 then 1.0 else 1.01 * ScaleXAfter(n))
  {
    if n > 0 {
      YoungWave(s, at, n - 1);
      OpacityThreshold();
      if n < 85 {
        OpacityFactorDecreasing(n, 85);
      }
    }
  }

  /** The 86th decay step hides the wave, and after that decay leaves it
      alone: it is not visible for any `n >= 86`. */
  lemma {:induction false} FadedWave(s: Slot, at: Vec2, n: nat)
    requires n >= 86
    ensures !DecayN(Respawn(s, at), n).visible
    ensures DecayN(Respawn(s, at), n) == DecayN(Respawn(s, at), 86)
  {
    if n == 86 {
      YoungWave(s, at, 85);
      OpacityThreshold();
    } else {
      FadedWave(s, at, n - 1);
    }
  }

  /** Ten frames after a wave is spawned its opacity is `0.93^10`, about
      0.484, and it has turned by 0.2. */
  lemma TenFrames(s: Slot, at: Vec2)
    ensures var w := DecayN(Respawn(s, at), 10);
            w.visible && 0.4839 < w.opacity < 0.4840 && w.rotation == s.rotation + 0.2
  {
    YoungWave(s, at, 10);
    PowShift(0.93, 5, 5);
    assert Pow(0.93, 5) == 0.6956883693;
  }

  // ---------------------------------------------------------------------
  // Frame order

  /** Spawning runs before the render and decay after it: a wave spawned in
      a frame is drawn at full opacity and unit scale in that same frame,
      and leaves the frame with one decay step applied. */
  lemma SpawnedWaveIsDrawnFresh(p: Pool)
    requires Valid(p)
    requires !InDeadZone(p.mouse, p.prevMouse)
    ensures var (drawn, next) := Frame(p);
            var w := Respawn(p.slots[p.cursor], p.mouse);
            drawn[p.cursor] == w && w.opacity == 1.0 && w.visible &&
            next.slots[p.cursor] == Decay(w) && next.slots[p.cursor].opacity == 0.93
  {
  }
}
