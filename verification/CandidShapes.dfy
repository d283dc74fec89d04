/**
 * What the adapter makes of every JavaScript value, whether or not it spells a value of the type: the
 * shape of each visitor's result, and what passes through unchanged.
 */
module CandidShapes {
  import opened Prelude
  import Decimal
  import opened CandidAdapter

  /// Numbers, principals and bytes

  /** Numbers become big, text that is no number becomes zero, a fraction throws, and the rest is kept. */
  lemma BigNumberShape(h: Host, d: Defs, v: JS)
    requires Productive(d)
    ensures var r := Normalize(h, d, PrimitiveType(BigNumber), v);
            && (r == None <==> v.Fraction?)
            && (forall n :: v == Num(n) || v == BigInt(n) ==> r == Some(BigInt(n)))
            && (v.Str? ==> r == Some(BigInt(if h.bigIntOf(v.s).Some? then h.bigIntOf(v.s).value else 0)))
            && (!v.Num? && !v.Str? && !v.Fraction? ==> r == Some(v))
  {}

  /** The other primitive types take every value as it is. */
  lemma OtherPrimitivesKeep(h: Host, d: Defs, p: Primitive, v: JS)
    requires Productive(d) && p != BigNumber
    ensures Normalize(h, d, PrimitiveType(p), v) == Some(v)
  {}

  /** Text that names a principal becomes that principal; text that does not, and anything else, is kept. */
  lemma PrincipalShape(h: Host, d: Defs, v: JS)
    requires Productive(d)
    ensures var r := Normalize(h, d, PrincipalType, v);
            && (v.Str? && h.principalOf(v.s).Some? ==> r == Some(PrincipalObj(h.principalOf(v.s).value)))
            && (v.Str? && h.principalOf(v.s).None? ==> r == Some(v))
            && (!v.Str? ==> r == Some(v))
  {}

  /** Bytes are kept, whatever they come in; an array of numbers wraps around at 256; the rest is kept. */
  lemma BlobShape(h: Host, d: Defs, v: JS)
    requires Productive(d)
    ensures var r := Normalize(h, d, VecType(PrimitiveType(Nat8)), v);
            && (forall bytes :: v == Bytes(bytes) || v == Buffer(bytes) ==> r == Some(Bytes(bytes)))
            && (!v.Bytes? && !v.Buffer? && !v.Arr? ==> r == Some(v))
            && (v.Arr? && (forall i | 0 <= i < |v.items| :: v.items[i].Num?) ==>
                  && r.Some? && r.value.Bytes? && |r.value.bytes| == |v.items|
                  && forall i | 0 <= i < |v.items| :: (v.items[i].n - r.value.bytes[i]) % 256 == 0)
  {
    if v.Arr? && forall i | 0 <= i < |v.items| :: v.items[i].Num? {
      var rs := seq(|v.items|, i requires 0 <= i < |v.items| => ToByte(h, v.items[i]));
      assert forall i | 0 <= i < |rs| :: rs[i] == Some(v.items[i].n % 256);
      var bytes := All(rs).value;
      assert forall i | 0 <= i < |rs| :: rs[i] == Some(bytes[i]);
    }
  }

  /// Options, vecs and tuples

  /** The result is an array of at most one, and empty exactly for undefined, null and the empty array. */
  lemma OptShape(h: Host, d: Defs, u: Type, v: JS)
    requires Productive(d) && Normalize(h, d, OptType(u), v).Some?
    ensures var r := Normalize(h, d, OptType(u), v).value;
            r.Arr? && |r.items| <= 1 && (r.items == [] <==> v == Undefined || v == Null || v == Arr([]))
  {}

  /** The result is an array; one that is missing or no array at all becomes empty, others keep their length. */
  lemma VecShape(h: Host, d: Defs, u: Type, v: JS)
    requires Productive(d) && u != PrimitiveType(Nat8) && Normalize(h, d, VecType(u), v).Some?
    ensures var r := Normalize(h, d, VecType(u), v).value;
            && r.Arr?
            && |r.items| == (if v.Arr? then |v.items| else 0)
            && (v.Arr? ==> forall i | 0 <= i < |v.items| :: Normalize(h, d, u, v.items[i]) == Some(r.items[i]))
  {}

  /** An array stays as long as it is, and its surplus items as they are; anything else is kept. */
  lemma TupleShape(h: Host, d: Defs, components: seq<Type>, v: JS)
    requires Productive(d) && Normalize(h, d, TupleType(components), v).Some?
    ensures var r := Normalize(h, d, TupleType(components), v).value;
            if v.Arr?
            then r.Arr? && |r.items| == |v.items| && forall i | 0 <= i < |v.items| ::
                   if i < |components| then Normalize(h, d, components[i], v.items[i]) == Some(r.items[i])
                   else r.items[i] == v.items[i]
            else r == v
  {}

  /// Records and variants

  /** What `typeof` calls an object becomes one with exactly the fields of the type, in order; the rest is kept. */
  lemma RecordShape(h: Host, d: Defs, fields: seq<Field>, v: JS)
    requires Productive(d) && Normalize(h, d, RecordType(fields), v).Some?
    ensures var r := Normalize(h, d, RecordType(fields), v).value;
            if v.Arr? || v.Obj? || v.Bytes? || v.Buffer? || v.PrincipalObj?
            then r.Obj? && |r.props| == |fields| && forall i | 0 <= i < |fields| ::
                   && r.props[i].key == fields[i].key
                   && Normalize(h, d, fields[i].ty, GetProp(v, fields[i].key)) == Some(r.props[i].value)
            else r == v
  {}

  /** The keys that `Object.keys` gives. */
  function OwnKeys(v: JS): seq<string> {
    match v
    case Obj(props) => seq(|props|, i requires 0 <= i < |props| => props[i].key)
    case Arr(items) => seq(|items|, i requires 0 <= i => Decimal.Show(i))
    case Bytes(bytes) => seq(|bytes|, i requires 0 <= i => Decimal.Show(i))
    case _ => []
  }

  lemma {:induction false} ElementAtItsIndex(items: seq<JS>, i: nat, from: nat)
    requires from <= i < |items|
    ensures ElementAt(items, Decimal.Show(i), from) == items[i]
    decreases i - from
  {
    if from < i {
      if Decimal.Show(from) == Decimal.Show(i) {
        Decimal.ShowInjective(from, i);
      }
      ElementAtItsIndex(items, i, from + 1);
    }
  }

  lemma {:induction false} NoElementElsewhere(items: seq<JS>, key: string, from: nat)
    requires from <= |items| && forall i | from <= i < |items| :: Decimal.Show(i) != key
    ensures ElementAt(items, key, from) == Undefined
    decreases |items| - from
  {
    if from < |items| {
      NoElementElsewhere(items, key, from + 1);
    }
  }

  lemma NumeralIsNotLength(i: nat)
    ensures Decimal.Show(i) != "length"
  {
    assert Decimal.Show(i)[0] != 'l';
  }

  /** An array has its items and its length as properties, and no others. */
  lemma ArrayProperties(items: seq<JS>, key: string)
    ensures GetProp(Arr(items), "length") == Num(|items|)
    ensures forall i | 0 <= i < |items| :: GetProp(Arr(items), Decimal.Show(i)) == items[i]
    ensures key != "length" && (forall i | 0 <= i < |items| :: Decimal.Show(i) != key) ==>
              GetProp(Arr(items), key) == Undefined
  {
    forall i | 0 <= i < |items| ensures GetProp(Arr(items), Decimal.Show(i)) == items[i] {
      NumeralIsNotLength(i);
      ElementAtItsIndex(items, i, 0);
    }
    if key != "length" && forall i | 0 <= i < |items| :: Decimal.Show(i) != key {
      NoElementElsewhere(items, key, 0);
    }
  }

  /** Bytes have the properties of the array of their numbers. */
  lemma BytesProperties(bytes: seq<Byte>, key: string)
    ensures GetProp(Bytes(bytes), key) == GetProp(Arr(AsNumbers(bytes)), key)
    ensures forall i | 0 <= i < |bytes| :: AsNumbers(bytes)[i] == Num(bytes[i])
  {}

  /** Buffers and principals show no properties, and an object those it has. */
  lemma OtherProperties(v: JS, key: string)
    requires v.Buffer? || v.PrincipalObj? || v.Obj?
    ensures !v.Obj? ==> GetProp(v, key) == Undefined
    ensures v.Obj? && (forall p | p in v.props :: p.key != key) ==> GetProp(v, key) == Undefined
  {}

  lemma {:induction false} FirstProperty(props: seq<Prop>, i: nat)
    requires i < |props| && forall j | 0 <= j < i :: props[j].key != props[i].key
    ensures GetProp(Obj(props), props[i].key) == props[i].value
  {
    if i > 0 {
      assert props[1..][i - 1] == props[i];
      FirstProperty(props[1..], i - 1);
    }
  }

  /** The variant visitor looks at the one own property, if there is exactly one. */
  lemma OnlyPropExactly(v: JS)
    ensures OnlyProp(v).Some? <==> |OwnKeys(v)| == 1
    ensures OnlyProp(v).Some? ==>
              OnlyProp(v).value.key == OwnKeys(v)[0] && OnlyProp(v).value.value == GetProp(v, OwnKeys(v)[0])
  {
    if OnlyProp(v).Some? {
      match v
      case Obj(props) => FirstProperty(props, 0);
      case Arr(items) =>
        ArrayProperties(items, "");
        assert Decimal.Show(0) == "0";
      case Bytes(bytes) =>
        ArrayProperties(AsNumbers(bytes), "");
        BytesProperties(bytes, "0");
        assert Decimal.Show(0) == "0";
    }
  }

  /** The name of a null case stands for it; one property that is a case is visited; the rest is kept. */
  lemma VariantShape(h: Host, d: Defs, fields: seq<Field>, v: JS)
    requires Productive(d) && Normalize(h, d, VariantType(fields), v).Some?
    ensures var r := Normalize(h, d, VariantType(fields), v).value;
            if v.Str? && FindField(fields, v.s) == Some(PrimitiveType(NullType)) then r == Obj([Prop(v.s, Null)])
            else if |OwnKeys(v)| == 1 && FindField(fields, OwnKeys(v)[0]).Some? then
              && r.Obj? && |r.props| == 1 && r.props[0].key == OwnKeys(v)[0]
              && Normalize(h, d, FindField(fields, OwnKeys(v)[0]).value, OnlyProp(v).value.value) ==
                 Some(r.props[0].value)
            else r == v
  {
    OnlyPropExactly(v);
  }

  /// Calls

  /** The arguments of a method that the interface does not have are kept. */
  lemma UnknownMethodKeeps(h: Host, d: Defs, methods: map<string, seq<Type>>, name: string, args: seq<JS>)
    requires Productive(d) && name !in methods
    ensures NormalizeArgs(h, d, methods, name, args) == Some(args)
  {}

  /** Plain values spell themselves: null, truth values, text and the small numbers. */
  lemma PlainValuesSpellThemselves(h: Host, d: Defs, b: bool, s: string, n: int, r: real, style: Style)
    requires Productive(d)
    ensures Spells(h, d, PrimitiveType(NullType), Atom(Null), Null, style)
    ensures Spells(h, d, PrimitiveType(BoolType), Atom(Bool(b)), Bool(b), style)
    ensures Spells(h, d, PrimitiveType(TextType), Atom(Str(s)), Str(s), style)
    ensures Spells(h, d, PrimitiveType(Nat8), Atom(Num(n)), Num(n), style)
    ensures Spells(h, d, PrimitiveType(SmallNumber), Atom(Num(n)), Num(n), style)
    ensures Spells(h, d, PrimitiveType(SmallNumber), Atom(Fraction(r)), Fraction(r), style)
  {}
}
