/**
 * The generated bitmap converters, for any schema: each bitmap type has one named field per
 * mask. A bitmap is the set of its bits that are set, a mask a set of bits.
 */
module BitmapCodec {
  import opened Text

  type Bits = set<nat>

  datatype Field = Field(name: string, mask: Bits)

  type Schema = seq<Field>

  /** A member of a JSON object: a boolean, or anything else. */
  datatype Json = Bool(b: bool) | Other

  type Object = map<string, Json>

  ghost predicate IsSchema(schema: Schema) {
    && (forall i :: 0 <= i < |schema| ==> schema[i].mask != {})
    && (forall i, j :: 0 <= i < j < |schema| ==> schema[i].name != schema[j].name && schema[i].mask !! schema[j].mask)
  }

  predicate IsLowest(mask: Bits, bit: nat) {
    bit in mask && forall b :: b in mask ==> bit <= b
  }

  lemma {:induction false} LowestExists(mask: Bits, n: nat)
    requires exists b :: b in mask && b < n
    ensures exists b :: IsLowest(mask, b)
  {
    var b :| b in mask && b < n;
    if !IsLowest(mask, b) {
      LowestExists(mask, b);
    }
  }

  function Lowest(mask: Bits): (bit: nat)
    requires mask != {}
    ensures IsLowest(mask, bit)
  {
    assert exists b :: IsLowest(mask, b) by {
      var b :| b in mask;
      LowestExists(mask, b + 1);
    }
    var bit :| IsLowest(mask, bit);
    bit
  }

  // ---- One field -------------------------------------------------------------------

  /** The field's bits are cleared; a boolean goes to its lowest bit. */
  function SetField(v: Bits, mask: Bits, on: bool): Bits
    requires mask != {}
  {
    v - mask + if on then {Lowest(mask)} else {}
  }

  function GetField(v: Bits, mask: Bits): bool {
    v * mask != {}
  }

  /** `obj.value(name, false)`: a missing member is false, one of another type is an error. */
  function Member(j: Object, name: string): Option<bool> {
    if name !in j then Some(false) else if j[name].Bool? then Some(j[name].b) else None
  }

  // ---- The converters --------------------------------------------------------------

  /** None when a member of the wrong type makes the converter throw. */
  function Decode(schema: Schema, j: Object): Option<Bits>
    requires forall i :: 0 <= i < |schema| ==> schema[i].mask != {}
  {
    if schema == [] then Some({})
    else
      var last := schema[|schema| - 1];
      match Decode(schema[..|schema| - 1], j)
      case None => None
      case Some(v) =>
        match Member(j, last.name) { case None => None case Some(on) => Some(SetField(v, last.mask, on)) }
  }

  function Encode(schema: Schema, v: Bits): Object {
    if schema == [] then map[]
    else
      var last := schema[|schema| - 1];
      Encode(schema[..|schema| - 1], v)[last.name := Bool(GetField(v, last.mask))]
  }

  function Covered(schema: Schema): Bits {
    set i, b | 0 <= i < |schema| && b in schema[i].mask :: b
  }

  /** Bit b is the lowest bit of a field that the object switches on. */
  ghost predicate SwitchedOn(schema: Schema, j: Object, b: nat) {
    exists i :: 0 <= i < |schema| && IsLowest(schema[i].mask, b) && Member(j, schema[i].name) == Some(true)
  }

  lemma SchemaFront(schema: Schema)
    requires IsSchema(schema) && schema != []
    ensures IsSchema(schema[..|schema| - 1])
  {}

  lemma SwitchedOnSnoc(schema: Schema, j: Object, b: nat)
    requires schema != []
    ensures SwitchedOn(schema, j, b) <==>
      SwitchedOn(schema[..|schema| - 1], j, b)
      || (IsLowest(schema[|schema| - 1].mask, b) && Member(j, schema[|schema| - 1].name) == Some(true))
  {
    var front := schema[..|schema| - 1];
    if SwitchedOn(front, j, b) {
      var i :| 0 <= i < |front| && IsLowest(front[i].mask, b) && Member(j, front[i].name) == Some(true);
      assert schema[i] == front[i];
    }
    if SwitchedOn(schema, j, b) {
      var i :| 0 <= i < |schema| && IsLowest(schema[i].mask, b) && Member(j, schema[i].name) == Some(true);
      if i < |front| {
        assert front[i] == schema[i];
      }
    }
  }

  /** Decoding fails only on a field's member of another type, and sets exactly the lowest bits switched on. */
  lemma {:induction false} DecodeSpec(schema: Schema, j: Object)
    requires IsSchema(schema)
    ensures Decode(schema, j).Some? <==> forall i :: 0 <= i < |schema| ==> Member(j, schema[i].name).Some?
    ensures Decode(schema, j).Some? ==> forall b :: b in Decode(schema, j).value <==> SwitchedOn(schema, j, b)
  {
    if schema == [] {
    } else {
      var front, last := schema[..|schema| - 1], schema[|schema| - 1];
      SchemaFront(schema);
      DecodeSpec(front, j);
      assert forall i :: 0 <= i < |front| ==> front[i] == schema[i];
      if Decode(schema, j).Some? {
        forall b
          ensures b in Decode(schema, j).value <==> SwitchedOn(schema, j, b)
        {
          SwitchedOnSnoc(schema, j, b);
          if SwitchedOn(front, j, b) {
            var i :| 0 <= i < |front| && IsLowest(front[i].mask, b) && Member(j, front[i].name) == Some(true);
            assert schema[i].mask !! last.mask;
          }
        }
      }
    }
  }

  lemma {:induction false} EncodeSpec(schema: Schema, v: Bits)
    requires IsSchema(schema)
    ensures forall i :: 0 <= i < |schema| ==>
      Member(Encode(schema, v), schema[i].name) == Some(GetField(v, schema[i].mask))
    ensures forall name :: name in Encode(schema, v) ==> Encode(schema, v)[name].Bool?
  {
    if schema == [] {
    } else {
      var front, last := schema[..|schema| - 1], schema[|schema| - 1];
      SchemaFront(schema);
      EncodeSpec(front, v);
      forall i | 0 <= i < |schema|
        ensures Member(Encode(schema, v), schema[i].name) == Some(GetField(v, schema[i].mask))
      {
        if i < |front| {
          assert front[i] == schema[i] && schema[i].name != last.name;
        }
      }
    }
  }

  /**
   * Decoding in terms of the object: a member that is missing counts as false, one that is no
   * boolean makes it fail; otherwise exactly the lowest bits of the fields that are true are set.
   */
  lemma DecodeMeans(schema: Schema, j: Object)
    requires IsSchema(schema)
    ensures Decode(schema, j).None? <==> exists i :: 0 <= i < |schema| && schema[i].name in j && j[schema[i].name].Other?
    ensures Decode(schema, j).Some? ==> forall b :: b in Decode(schema, j).value <==>
      exists i :: 0 <= i < |schema| && schema[i].name in j && j[schema[i].name] == Bool(true)
        && b in schema[i].mask && forall c :: c in schema[i].mask ==> b <= c
  {
    DecodeSpec(schema, j);
    forall b
      ensures SwitchedOn(schema, j, b) <==>
        exists i :: 0 <= i < |schema| && schema[i].name in j && j[schema[i].name] == Bool(true)
          && b in schema[i].mask && forall c :: c in schema[i].mask ==> b <= c
    {
      if SwitchedOn(schema, j, b) {
        var i :| 0 <= i < |schema| && IsLowest(schema[i].mask, b) && Member(j, schema[i].name) == Some(true);
        assert schema[i].name in j && j[schema[i].name] == Bool(true);
      }
      if i: int :| 0 <= i < |schema| && schema[i].name in j && j[schema[i].name] == Bool(true)
                   && b in schema[i].mask && forall c :: c in schema[i].mask ==> b <= c {
        assert IsLowest(schema[i].mask, b) && Member(j, schema[i].name) == Some(true);
      }
    }
  }

  lemma {:induction false} EncodeKeys(schema: Schema, v: Bits, name: string)
    ensures name in Encode(schema, v) <==> exists i :: 0 <= i < |schema| && schema[i].name == name
  {
    if schema == [] {
    } else {
      var front, last := schema[..|schema| - 1], schema[|schema| - 1];
      EncodeKeys(front, v, name);
      if i: int :| 0 <= i < |front| && front[i].name == name {
        assert schema[i].name == name;
      }
      if i: int :| 0 <= i < |front| && schema[i].name == name {
        assert front[i].name == name;
      }
    }
  }

  /** Encoding in terms of the bits: a member for exactly the fields, true where any bit of the field is set. */
  lemma EncodeMeans(schema: Schema, v: Bits)
    requires IsSchema(schema)
    ensures forall name :: name in Encode(schema, v) <==> exists i :: 0 <= i < |schema| && schema[i].name == name
    ensures forall i :: 0 <= i < |schema| ==>
      schema[i].name in Encode(schema, v)
      && Encode(schema, v)[schema[i].name] == Bool(exists b :: b in v && b in schema[i].mask)
  {
    EncodeSpec(schema, v);
    forall name
      ensures name in Encode(schema, v) <==> exists i :: 0 <= i < |schema| && schema[i].name == name
    {
      EncodeKeys(schema, v, name);
    }
    forall i | 0 <= i < |schema|
      ensures schema[i].name in Encode(schema, v)
      ensures Encode(schema, v)[schema[i].name] == Bool(exists b :: b in v && b in schema[i].mask)
    {
      assert Member(Encode(schema, v), schema[i].name) == Some(GetField(v, schema[i].mask));
      if GetField(v, schema[i].mask) {
        var b :| b in v * schema[i].mask;
        assert b in v && b in schema[i].mask;
      } else {
        assert forall b :: b in v && b in schema[i].mask ==> b in v * schema[i].mask;
      }
    }
  }

  /** Of every field, at most the lowest bit is set. */
  ghost predicate LowestOnly(schema: Schema, v: Bits) {
    forall i, b :: 0 <= i < |schema| && b in v && b in schema[i].mask ==> IsLowest(schema[i].mask, b)
  }

  lemma FieldOf(schema: Schema, b: nat, i: nat, k: nat)
    requires IsSchema(schema) && i < |schema| && k < |schema| && b in schema[i].mask && b in schema[k].mask
    ensures i == k
  {}

  /**
   * Decoding what was encoded gives back the bitmap, restricted to the masks, exactly when it
   * has no bit set above the lowest of a field; with single-bit masks that is every bitmap.
   */
  lemma DecodeEncode(schema: Schema, v: Bits)
    requires IsSchema(schema)
    ensures Decode(schema, Encode(schema, v)).Some?
    ensures Decode(schema, Encode(schema, v)) == Some(v * Covered(schema)) <==> LowestOnly(schema, v)
  {
    var j := Encode(schema, v);
    EncodeSpec(schema, v);
    DecodeSpec(schema, j);
    var d := Decode(schema, j).value;
    if LowestOnly(schema, v) {
      forall b
        ensures b in d <==> b in v * Covered(schema)
      {
        if SwitchedOn(schema, j, b) {
          var i :| 0 <= i < |schema| && IsLowest(schema[i].mask, b) && Member(j, schema[i].name) == Some(true);
          var c :| c in v * schema[i].mask;
          assert IsLowest(schema[i].mask, c) && c == b;
        }
        if b in v * Covered(schema) {
          var i :| 0 <= i < |schema| && b in schema[i].mask;
          assert b in v * schema[i].mask && IsLowest(schema[i].mask, b);
        }
      }
      assert d == v * Covered(schema);
    }
    if d == v * Covered(schema) {
      forall i, b | 0 <= i < |schema| && b in v && b in schema[i].mask
        ensures IsLowest(schema[i].mask, b)
      {
        assert b in Covered(schema) && b in d;
        var k :| 0 <= k < |schema| && IsLowest(schema[k].mask, b) && Member(j, schema[k].name) == Some(true);
        FieldOf(schema, b, i, k);
      }
    }
  }

  lemma SingleBitMasks(schema: Schema, v: Bits)
    requires IsSchema(schema) && forall i :: 0 <= i < |schema| ==> |schema[i].mask| == 1
    ensures Decode(schema, Encode(schema, v)) == Some(v * Covered(schema))
  {
    forall i, b | 0 <= i < |schema| && b in v && b in schema[i].mask
      ensures IsLowest(schema[i].mask, b)
    {
      assert |schema[i].mask - {b}| == 0;
      assert forall c :: c in schema[i].mask ==> c == b || c in schema[i].mask - {b};
    }
    DecodeEncode(schema, v);
  }

  /** What was decoded once survives encoding and decoding unchanged, whatever the masks. */
  lemma DecodeIsStable(schema: Schema, j: Object)
    requires IsSchema(schema) && Decode(schema, j).Some?
    ensures Decode(schema, Encode(schema, Decode(schema, j).value)) == Decode(schema, j)
  {
    var d := Decode(schema, j).value;
    DecodeSpec(schema, j);
    forall i, b | 0 <= i < |schema| && b in d && b in schema[i].mask
      ensures IsLowest(schema[i].mask, b)
    {
      var k :| 0 <= k < |schema| && IsLowest(schema[k].mask, b) && Member(j, schema[k].name) == Some(true);
      FieldOf(schema, b, i, k);
    }
    DecodeEncode(schema, d);
    forall b | b in d
      ensures b in Covered(schema)
    {
      var k :| 0 <= k < |schema| && IsLowest(schema[k].mask, b) && Member(j, schema[k].name) == Some(true);
    }
    assert d * Covered(schema) == d;
  }
}
