/** entity_state_t and packet_entities_t. */
module Entities {
  import opened Geometry

  datatype EntityState = EntityState(
    number: nat,
    solid: bool,
    origin: Vec,
    angles: Vec,
    modelindex: int,
    frame: int,
    colormap: int,
    skinnum: int,
    effects: int)

  /** The entities of one packet. */
  type Frame = seq<EntityState>

  /** Strictly increasing entity numbers. */
  predicate Sorted(f: Frame) {
    forall i, j :: 0 <= i < j < |f| ==> f[i].number < f[j].number
  }

  class PacketEntities {
    const entities: array<EntityState>
    var numEntities: nat

    ghost predicate Valid()
      reads this
    {
      numEntities <= entities.Length
    }

    ghost function Value(): Frame
      requires Valid()
      reads this, entities
    {
      entities[..numEntities]
    }

    constructor (capacity: nat, blank: EntityState)
      ensures Valid() && fresh(entities) && entities.Length == capacity && Value() == []
    {
      entities := new EntityState[capacity](_ => blank);
      numEntities := 0;
    }
  }
}
