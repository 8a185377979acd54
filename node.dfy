/** The Ball class: one node of the layout, with its position and velocity, its three
    neighbour lists (held as references, as the ArrayLists are) and its flags. */
module Node {
  import opened Vectors
  import opened Walls

  /** DEFAULT_BALL_SIZE: the radius used for hit tests. */
  const DefaultBallSize: real := 10.0

  class Ball {
    var desiredEquilibriumDistance: real
    var position: Vec
    var velocity: Vec
    var ballSize: real
    var attractiveBalls: seq<Ball>
    var children: seq<Ball>
    var repulsiveBalls: seq<Ball>
    var name: string
    var isHoveredOver: bool
    var isSelected: bool
    var applyUniformForce: bool
    // Assigned only by the constructor.
    const mass: real
    const springConstant: real
    const nomSpringDistance: real
    const repulsiveConstant: real
    const dampingConstant: real
    const playbackSpeed: real

    /** The physical constants as the constructor leaves them. The repulsive constant is 0:
        it is computed from desiredEquilibriumDistance before that field is given its value,
        while the field still holds Java's default 0. */
    predicate Constants() {
      && springConstant == 2.0 && nomSpringDistance == 1.0 && repulsiveConstant == 0.0
      && dampingConstant == 1.0 && playbackSpeed == 5.0 && mass == 1.0
    }

    /** Ball(_position, _velocity), with the fields in the order the source assigns them. */
    constructor (position: Vec, velocity: Vec)
      ensures Constants()
      ensures this.position == position && this.velocity == velocity
      ensures ballSize == DefaultBallSize && desiredEquilibriumDistance == 4.0 * DefaultBallSize
      ensures attractiveBalls == [] && children == [] && repulsiveBalls == []
      ensures name == "" && !isHoveredOver && !isSelected && !applyUniformForce
    {
      var equilibrium := 0.0;
      var spring := 2.0;
      springConstant := spring;
      nomSpringDistance := 1.0;
      repulsiveConstant := spring * (equilibrium * equilibrium);
      dampingConstant := 0.5 * spring;
      playbackSpeed := 5.0;
      mass := 1.0;
      isHoveredOver := false;
      isSelected := false;
      ballSize := DefaultBallSize;
      equilibrium := DefaultBallSize * 4.0;
      desiredEquilibriumDistance := equilibrium;
      this.position := position;
      this.velocity := velocity;
      attractiveBalls := [];
      repulsiveBalls := [];
      children := [];
      applyUniformForce := false;
      name := "";
    }

    method SetName(name: string)
      modifies this`name
      ensures this.name == name
    {
      this.name := name;
    }

    method Select()
      modifies this`isSelected
      ensures isSelected
    {
      isSelected := true;
    }

    method DeSelect()
      modifies this`isSelected
      ensures !isSelected
    {
      isSelected := false;
    }

    method AddChild(b: Ball)
      modifies this`children
      ensures children == old(children) + [b]
    {
      children := children + [b];
    }

    method AddAttractiveBall(b: Ball)
      modifies this`attractiveBalls
      ensures attractiveBalls == old(attractiveBalls) + [b]
    {
      attractiveBalls := attractiveBalls + [b];
    }

    method AddRepulsiveBall(b: Ball)
      modifies this`repulsiveBalls
      ensures repulsiveBalls == old(repulsiveBalls) + [b]
    {
      repulsiveBalls := repulsiveBalls + [b];
    }

    /** checkWalls, one axis after the other. */
    method CheckWalls(width: real, height: real)
      modifies this`position, this`velocity
      ensures (position, velocity) == Collide(old(position), old(velocity), width, height)
      ensures width >= Eps && height >= Eps ==> InCanvas(position, width, height)
    {
      var eps := Eps;
      if position.x < 0.0 || position.x > width {
        velocity := velocity.(x := -Restitution * velocity.x);
        if position.x < 0.0 {
          position := position.(x := eps);
        } else {
          position := position.(x := width - eps);
        }
      }
      if position.y < 0.0 || position.y > height {
        velocity := velocity.(y := -Restitution * velocity.y);
        if position.y < 0.0 {
          position := position.(y := eps);
        } else {
          position := position.(y := height - eps);
        }
      }
      if width >= Eps && height >= Eps {
        CollideLandsInside(old(position), old(velocity), width, height);
      }
    }

    /** update(framerate) once computeForce has produced `force`: semi-implicit (symplectic)
        Euler with the time step playbackSpeed / framerate: the position moves by the new
        velocity times the step. */
    method Update(framerate: real, force: Vec)
      requires framerate != 0.0 && mass != 0.0
      modifies this`position, this`velocity
      ensures (position, velocity) == Integrate(old(position), old(velocity), force, mass, playbackSpeed * (1.0 / framerate))
    {
      var dt := playbackSpeed * (1.0 / framerate);
      var acceleration := Div(force, mass);
      velocity := Add(velocity, Scale(acceleration, dt));
      position := Add(position, Scale(velocity, dt));
    }
  }

  /** One semi-implicit Euler step: the new velocity, then the position moved by it times
      the step `dt`. */
  function Integrate(pos: Vec, vel: Vec, force: Vec, mass: real, dt: real): (Vec, Vec)
    requires mass != 0.0
  {
    var v := Add(vel, Scale(Div(force, mass), dt));
    (Add(pos, Scale(v, dt)), v)
  }
}
