/** The `Sketch` object of the source, reduced to the state its pool logic
    reads and writes: the pointer, the previous pointer, the ring cursor
    `currentWave` and the array of meshes. Each method updates that state in
    place and is proved against the function of module Waves that specifies
    it. The renderer, scenes, camera object, GUI and page capture are not
    part of this model. */
module Animation {
  import opened Geometry
  import opened Waves

  class Sketch {
    var mouse: Vec2
    var prevMouse: Vec2
    var currentWave: int
    var meshes: array<Slot>

    /** The state as a value. */
    function Model(): Pool
      reads this, meshes
    {
      Pool(mouse, prevMouse, currentWave, meshes[..])
    }

    ghost predicate Valid()
      reads this, meshes
    {
      Waves.Valid(Model())
    }

    /** Builds the sketch and its pool of 100 hidden meshes at once; the
        initial rotation of each mesh (random in the source) is a parameter. */
    constructor (rotations: seq<real>)
      requires |rotations| == Max
      ensures Valid() && fresh(meshes)
      ensures Model() == Initial(rotations)
    {
      mouse := Vec2(0.0, 0.0);
      prevMouse := Vec2(0.0, 0.0);
      currentWave := 0;
      var pool := new Slot[Max];
      for i := 0 to Max
        invariant forall j :: 0 <= j < i ==> pool[j] == Fresh(rotations[j])
      {
        pool[i] := Fresh(rotations[i]);
      }
      meshes := pool;
      assert pool[..] == Initial(rotations).slots;
    }

    /** The mouse-move listener: stores the pointer in viewport space. */
    method OnMouseMove(clientX: real, clientY: real, innerWidth: nat, innerHeight: nat)
      requires Valid()
      modifies this
      ensures Valid() && meshes == old(meshes)
      ensures Model() == MouseMove(old(Model()), ToViewport(clientX, clientY, innerWidth, innerHeight))
    {
      mouse := ToViewport(clientX, clientY, innerWidth, innerHeight);
    }

    /** setNewWave: rewrites the one mesh at `index` as a new wave at (x, y). */
    method SetNewWave(x: real, y: real, index: int)
      requires Valid() && 0 <= index < meshes.Length
      modifies meshes
      ensures Valid()
      ensures meshes[..] == old(meshes[..])[index := Respawn(old(meshes[index]), Vec2(x, y))]
    {
      var mesh := meshes[index];
      mesh := mesh.(visible := true);
      mesh := mesh.(position := Vec2(x, y));
      mesh := mesh.(scaleX := 1.0, scaleY := 1.0);
      mesh := mesh.(opacity := 1.0);
      meshes[index] := mesh;
      assert Waves.Valid(old(Model()));
      assert Model() == old(Model()).(slots := old(meshes[..])[index := Respawn(old(meshes[index]), Vec2(x, y))]);
    }

    /** trackMousePos: spawns a wave at the cursor unless the pointer stayed
        inside the dead zone, then remembers the pointer. */
    method TrackMousePos()
      requires Valid()
      modifies this, meshes
      ensures Valid() && meshes == old(meshes)
      ensures Model() == Track(old(Model()))
    {
      if Abs(mouse.x - prevMouse.x) < 4.0 && Abs(mouse.y - prevMouse.y) < 4.0 {
      } else {
        SetNewWave(mouse.x, mouse.y, currentWave);
        currentWave := (currentWave + 1) % Max;
      }
      prevMouse := Vec2(mouse.x, mouse.y);
    }

    /** The decay loop at the end of `animate`, one mesh at a time. */
    method DecayWaves()
      requires Valid()
      modifies meshes
      ensures Valid()
      ensures Model() == Advance(old(Model()))
    {
      for i := 0 to meshes.Length
        invariant forall j :: 0 <= j < i ==> meshes[j] == Decay(old(meshes[j]))
        invariant forall j :: i <= j < meshes.Length ==> meshes[j] == old(meshes[j])
      {
        var mesh := meshes[i];
        if mesh.visible {
          mesh := mesh.(rotation := mesh.rotation + 0.02);
          mesh := mesh.(opacity := mesh.opacity * 0.93);
          if mesh.opacity < 0.002 {
            mesh := mesh.(visible := false);
          }
          mesh := mesh.(scaleX := 0.98 * mesh.scaleX + 0.1);
          mesh := mesh.(scaleY := 1.01 * mesh.scaleX);
          meshes[i] := mesh;
        }
      }
      assert meshes[..] == DecayAll(old(meshes[..]));
    }

    /** One frame of `animate`: track the pointer, render (the returned
        slots are what the render-to-texture pass draws), then decay. */
    method Animate() returns (drawn: seq<Slot>)
      requires Valid()
      modifies this, meshes
      ensures Valid() && meshes == old(meshes)
      ensures (drawn, Model()) == Frame(old(Model()))
    {
      TrackMousePos();
      drawn := meshes[..];
      DecayWaves();
    }
  }
}
