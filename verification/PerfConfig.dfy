/** Packing a perf event's fields into its configuration word. */
module PerfConfig {

  import opened Bits
  import opened Options

  /** A field's value and its place in the word. */
  datatype Field = Field(start: nat, size: nat, value: nat)

  /** The place of a field described as `start-end`; a description that does not fit in bytes is
      refused. */
  function ParseFieldConfig(startBit: nat, endBit: nat): (place: Option<(nat, nat)>)
    ensures place.Some? <==> startBit <= endBit <= 255 && !(startBit == 0 && endBit == 255)
    ensures place.Some? ==> place.value.0 < 256 && 0 < place.value.1 < 256
    ensures place.Some? ==> place.value.0 == startBit && place.value.0 + place.value.1 == endBit + 1
  {
    if startBit > endBit || startBit > 0xFF || endBit > 0xFF || endBit - startBit + 1 > 0xFF then None
    else Some((startBit, endBit - startBit + 1))
  }

  /** A field's value, moved to its place in a word of 64 bits. */
  function Placed(f: Field): nat {
    Low(Shl(f.value, f.start), 64)
  }

  /** The fields together, the last one last. */
  function Config(fields: seq<Field>): nat {
    if fields == [] then 0 else Or(Config(fields[..|fields| - 1]), Placed(fields[|fields| - 1]))
  }

  method GetPerfAttrConfig(evInfo: seq<Field>) returns (config: nat)
    ensures config == Config(evInfo)
  {
    config := 0;
    for i := 0 to |evInfo|
      invariant config == Config(evInfo[..i])
    {
      assert evInfo[..i + 1][..i] == evInfo[..i];
      config := Or(config, Low(Shl(evInfo[i].value, evInfo[i].start), 64));
    }
    assert evInfo[..|evInfo|] == evInfo;
  }

  /** The value at a field's place. */
  function Extract(config: nat, f: Field): nat {
    Low(Shr(config, f.start), f.size)
  }

  predicate Fits(f: Field) {
    f.start + f.size <= 64 && f.value < Pow2(f.size)
  }

  predicate Apart(f: Field, g: Field) {
    f.start + f.size <= g.start || g.start + g.size <= f.start
  }

  /** Every field fits its place, and different fields have places without a bit in common. */
  predicate WellPlaced(fields: seq<Field>) {
    && (forall f :: f in fields ==> Fits(f))
    && (forall f, g :: f in fields && g in fields && f != g ==> Apart(f, g))
  }

  lemma PlacedBits(f: Field, i: nat)
    ensures Bit(Placed(f), i) <==> f.start <= i < 64 && Bit(f.value, i - f.start)
  {
    LowBits(Shl(f.value, f.start), 64, i);
    ShlBits(f.value, f.start, i);
  }

  /** A bit of the word is set just when some field sets it. */
  ghost predicate SomeSets(fields: seq<Field>, i: nat) {
    exists f :: f in fields && Bit(Placed(f), i)
  }

  lemma {:induction false} ConfigBits(fields: seq<Field>, i: nat)
    ensures Bit(Config(fields), i) <==> SomeSets(fields, i)
  {
    if fields == [] {
      NoBits(i);
    } else {
      var front, last := fields[..|fields| - 1], fields[|fields| - 1];
      ConfigBits(front, i);
      OrBits(Config(front), Placed(last), i);
      assert fields == front + [last];
    }
  }

  /** The order of the fields does not matter, nor how often a field is listed: reading the same
      description again after a failed open changes nothing. */
  lemma ConfigIsOfASet(a: seq<Field>, b: seq<Field>)
    requires forall f :: f in a <==> f in b
    ensures Config(a) == Config(b)
  {
    forall i: nat
      ensures Bit(Config(a), i) <==> Bit(Config(b), i)
    {
      ConfigBits(a, i);
      ConfigBits(b, i);
    }
    SameBits(Config(a), Config(b));
  }

  /** Reading a field's place gives its value exactly when the value fits the field and no other
      field sets a bit there that the value does not have. */
  ghost predicate Undisturbed(fields: seq<Field>, f: Field) {
    f.value < Pow2(f.size) && forall g, i: nat ::
      g in fields && f.start <= i < f.start + f.size && Bit(Placed(g), i) ==> Bit(Placed(f), i)
  }

  lemma ExtractBits(fields: seq<Field>, f: Field, i: nat)
    ensures Bit(Extract(Config(fields), f), i) <==> i < f.size && SomeSets(fields, f.start + i)
  {
    var config := Config(fields);
    LowBits(Shr(config, f.start), f.size, i);
    ShrBits(config, f.start, i);
    ConfigBits(fields, f.start + i);
  }

  lemma ReadsBack(fields: seq<Field>, f: Field)
    requires f in fields && f.start + f.size <= 64
    ensures Extract(Config(fields), f) == f.value <==> Undisturbed(fields, f)
  {
    var read := Extract(Config(fields), f);
    if Undisturbed(fields, f) {
      forall i: nat
        ensures Bit(read, i) <==> Bit(f.value, i)
      {
        ExtractBits(fields, f, i);
        PlacedBits(f, f.start + i);
        if i >= f.size {
          BitsBelow(f.value, f.size, i);
        }
      }
      SameBits(read, f.value);
    } else if read == f.value {
      if f.value >= Pow2(f.size) {
        var i := HighBit(f.value, f.size);
        ExtractBits(fields, f, i);
      } else {
        var g, i: nat :| g in fields && f.start <= i < f.start + f.size && Bit(Placed(g), i) && !Bit(Placed(f), i);
        ExtractBits(fields, f, i - f.start);
        PlacedBits(f, i);
      }
    }
  }

  /** Well placed fields all read back. */
  lemma WellPlacedReadBack(fields: seq<Field>, f: Field)
    requires WellPlaced(fields) && f in fields
    ensures Extract(Config(fields), f) == f.value
  {
    assert Undisturbed(fields, f) by {
      assert Fits(f);
      forall g, i: nat | g in fields && f.start <= i < f.start + f.size && Bit(Placed(g), i)
        ensures Bit(Placed(f), i)
      {
        PlacedBits(g, i);
        if g != f {
          assert Apart(f, g) && Fits(g);
          BitsBelow(g.value, g.size, i - g.start);
        }
      }
    }
    ReadsBack(fields, f);
  }

  /** A value wider than its field spills over: nothing masks it. */
  lemma WideValueSpills()
    ensures var narrow, next := Field(0, 1, 3), Field(1, 1, 0);
      && Apart(narrow, next) && Fits(next)
      && Extract(Config([narrow, next]), next) != next.value
  {
    var narrow, next := Field(0, 1, 3), Field(1, 1, 0);
    var fields := [narrow, next];
    assert narrow == fields[0] && next == fields[1];
    PlacedBits(narrow, 1);
    PlacedBits(next, 1);
    assert Bit(3, 1);
    assert !Undisturbed(fields, next);
    ReadsBack(fields, next);
  }
}
