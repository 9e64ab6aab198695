/** The bytes of one record of a packet of entities. */
module EntityRecords {
  import opened Bytes
  import opened DeltaEntities
  import opened Entities
  import opened EntityHeaders

  /** The fields of a record: of those that changed, the model, the frame, the colors, the skin and the effects, each
      modulo 256, and then the coordinates and angles in turn. */
  function FieldBytes(c: Client, from: EntityState, to: EntityState): seq<seq<byte>>
  {
    [Chose(to.modelindex != from.modelindex, [to.modelindex % 256]),
     Chose(to.frame != from.frame, [to.frame % 256]),
     Chose(to.colormap != from.colormap, [to.colormap % 256]),
     Chose(to.skinnum != from.skinnum, [to.skinnum % 256]),
     Chose(to.effects != from.effects, [to.effects % 256]),
     Chose(to.origin.x != from.origin.x, c.coord(to.origin.x)),
     Chose(to.angles.x != from.angles.x, c.angle(to.angles.x)),
     Chose(to.origin.y != from.origin.y, c.coord(to.origin.y)),
     Chose(to.angles.y != from.angles.y, c.angle(to.angles.y)),
     Chose(to.origin.z != from.origin.z, c.coord(to.origin.z)),
     Chose(to.angles.z != from.angles.z, c.angle(to.angles.z))]
  }

  function Chose(on: bool, bytes: seq<byte>): seq<byte> {
    if on then bytes else []
  }

  function Chosen(flags: seq<bool>, values: seq<seq<byte>>): seq<seq<byte>>
    requires |flags| == |values|
  {
    seq(|flags|, i requires 0 <= i < |flags| => Chose(flags[i], values[i]))
  }

  /** A record is its header and its fields. */
  lemma RecordLayout(c: Client, from: EntityState, to: EntityState, force: bool)
    requires Proper(c)
    requires var h := HeaderFor(from, to); !Refused(c, h) && (force || !Silent(h, to.solid))
    ensures Delta(c, from, to, true, force).bytes
            == HeaderBytes(HeaderFor(from, to), Clamped(c, to).number, to.solid) + Concat(FieldBytes(c, from, to))
  {
    hide HeaderBytes, Concat, Packed, Chosen, FieldBytes, Values, InOrder;
    PackedIsConcat(InOrder(HeaderFor(from, to).changes), Values(c, to));
    ChosenFields(c, from, to);
  }

  lemma ChosenFields(c: Client, from: EntityState, to: EntityState)
    ensures Chosen(InOrder(Differences(from, to)), Values(c, to)) == FieldBytes(c, from, to)
  {
    ElevenChosen(InOrder(Differences(from, to)), Values(c, to));
    hide Chosen, Chose;
  }

  lemma ElevenChosen(f: seq<bool>, v: seq<seq<byte>>)
    requires |f| == |v| == 11
    ensures Chosen(f, v) == [Chose(f[0], v[0]), Chose(f[1], v[1]), Chose(f[2], v[2]), Chose(f[3], v[3]),
                             Chose(f[4], v[4]), Chose(f[5], v[5]), Chose(f[6], v[6]), Chose(f[7], v[7]),
                             Chose(f[8], v[8]), Chose(f[9], v[9]), Chose(f[10], v[10])]
  {
    hide Chose;
  }

  lemma {:induction false} PackedIsConcat(flags: seq<bool>, values: seq<seq<byte>>)
    requires |flags| == |values|
    ensures Packed(flags, values) == Concat(Chosen(flags, values))
    decreases |flags|
  {
    if flags != [] {
      PackedIsConcat(flags[1..], values[1..]);
      ConcatFromFront(Chosen(flags, values));
      assert Chosen(flags, values)[1..] == Chosen(flags[1..], values[1..]);
    }
  }
}
