/**
 * `AutoCandidAdapter`: reshaping a frontend value into what the Candid serializer expects, directed
 * by the IDL type.
 */
module CandidAdapter {
  import opened Prelude
  import Decimal

  type Byte = b: int | 0 <= b < 256

  /// JavaScript values and IDL types

  /** `Num` is an integral number and `Fraction` any other number. Object properties are in creation order. */
  datatype JS =
    | Undefined | Null | Bool(b: bool) | Num(n: int) | Fraction(r: real) | Str(s: string) | BigInt(big: int)
    | Arr(items: seq<JS>) | Obj(props: seq<Prop>)
    | Bytes(bytes: seq<Byte>) | Buffer(raw: seq<Byte>) | PrincipalObj(id: nat)

  datatype Prop = Prop(key: string, value: JS)

  /** `BigNumber` stands for int, int64, nat and nat64; `SmallNumber` for the other number types but nat8. */
  datatype Primitive = NullType | BoolType | TextType | BigNumber | Nat8 | SmallNumber

  datatype Type =
    | PrimitiveType(primitive: Primitive)
    | PrincipalType
    | OptType(inner: Type)
    | VecType(elem: Type)
    | RecordType(fields: seq<Field>)
    | TupleType(components: seq<Type>)
    | VariantType(fields: seq<Field>)
    | RecType(name: string)

  datatype Field = Field(key: string, ty: Type)

  /** The definitions behind recursive types. `rank` bounds how many opt and name steps head a definition. */
  datatype Defs = Defs(types: map<string, Type>, rank: map<string, nat>)

  /** Library calls: `BigInt(text)`, `Principal.fromText`, and the element conversion of `Uint8Array`. */
  datatype Host = Host(bigIntOf: string -> Option<int>, principalOf: string -> Option<nat>, byteOf: JS -> Option<Byte>)

  function HeadRank(d: Defs, t: Type): nat {
    match t
    case OptType(u) => 1 + HeadRank(d, u)
    case RecType(n) => 1 + (if n in d.rank then d.rank[n] else 0)
    case _ => 0
  }

  /** No definition reaches itself through opts and names alone. */
  ghost predicate Productive(d: Defs) {
    forall n | n in d.types :: n in d.rank && HeadRank(d, d.types[n]) <= d.rank[n]
  }

  /** `typeof v === "object" && v !== null` */
  predicate IsObject(v: JS) {
    v.Arr? || v.Obj? || v.Bytes? || v.Buffer? || v.PrincipalObj?
  }

  predicate IsNullish(v: JS) {
    v.Undefined? || v.Null?
  }

  function FindProp(props: seq<Prop>, key: string): (r: Option<JS>)
    ensures r.Some? ==> exists i :: 0 <= i < |props| && props[i] == Prop(key, r.value)
  {
    if props == [] then None
    else if props[0].key == key then
      assert props[0] == Prop(key, props[0].value);
      Some(props[0].value)
    else
      var r := FindProp(props[1..], key);
      assert r.Some? ==> forall i | 0 <= i < |props[1..]| :: props[1..][i] == props[i + 1];
      r
  }

  function FindField(fields: seq<Field>, key: string): (r: Option<Type>)
    ensures r.Some? ==> exists i :: 0 <= i < |fields| && fields[i] == Field(key, r.value)
  {
    if fields == [] then None
    else if fields[0].key == key then
      assert fields[0] == Field(key, fields[0].ty);
      Some(fields[0].ty)
    else
      var r := FindField(fields[1..], key);
      assert r.Some? ==> forall i | 0 <= i < |fields[1..]| :: fields[1..][i] == fields[i + 1];
      r
  }

  /** The array element that `key` indexes, if any. */
  function ElementAt(items: seq<JS>, key: string, i: nat): (r: JS)
    requires i <= |items|
    ensures r == Undefined || r in items
    decreases |items| - i
  {
    if i == |items| then Undefined
    else if Decimal.Show(i) == key then items[i]
    else ElementAt(items, key, i + 1)
  }

  function AsNumbers(bytes: seq<Byte>): seq<JS> {
    seq(|bytes|, i requires 0 <= i < |bytes| => Num(bytes[i]))
  }

  /** `v[key]` on an object: its own properties. */
  function GetProp(v: JS, key: string): (r: JS)
    requires IsObject(v)
    ensures IsObject(r) ==> r < v
  {
    match v
    case Obj(props) => (match FindProp(props, key) case Some(x) => x case None => Undefined)
    case Arr(items) => if key == "length" then Num(|items|) else ElementAt(items, key, 0)
    case Bytes(bytes) => if key == "length" then Num(|bytes|) else ElementAt(AsNumbers(bytes), key, 0)
    case _ => Undefined
  }

  /** The only enumerable property of an object that has exactly one. */
  function OnlyProp(v: JS): (r: Option<Prop>)
    ensures r.Some? ==> IsObject(v) && (IsObject(r.value.value) ==> r.value.value < v)
  {
    match v
    case Obj(props) => if |props| == 1 then Some(props[0]) else None
    case Arr(items) => if |items| == 1 then Some(Prop("0", items[0])) else None
    case Bytes(bytes) => if |bytes| == 1 then Some(Prop("0", Num(bytes[0]))) else None
    case _ => None
  }

  /// The visitors. `None` means that an exception leaves the call.

  function All<T>(rs: seq<Option<T>>): (r: Option<seq<T>>)
    ensures r.Some? <==> forall i | 0 <= i < |rs| :: rs[i].Some?
    ensures r.Some? ==> |r.value| == |rs| && forall i | 0 <= i < |rs| :: rs[i] == Some(r.value[i])
  {
    if forall i | 0 <= i < |rs| :: rs[i].Some?
    then Some(seq(|rs|, i requires 0 <= i < |rs| && rs[i].Some? => rs[i].value))
    else None
  }

  function VisitPrimitive(h: Host, p: Primitive, v: JS): Option<JS> {
    if p == BigNumber then
      match v
      case Num(n) => Some(BigInt(n))
      case Fraction(_) => None
      case Str(s) => (match h.bigIntOf(s) case Some(n) => Some(BigInt(n)) case None => Some(BigInt(0)))
      case _ => Some(v)
    else Some(v)
  }

  function VisitPrincipal(h: Host, v: JS): JS {
    if v.Str? then
      match h.principalOf(v.s) case Some(p) => PrincipalObj(p) case None => v
    else v
  }

  /** One element of `new Uint8Array(array)`. */
  function ToByte(h: Host, v: JS): Option<Byte> {
    if v.Num? then Some(v.n % 256) else h.byteOf(v)
  }

  function VisitBlob(h: Host, v: JS): Option<JS> {
    match v
    case Bytes(bytes) => Some(Bytes(bytes))
    case Buffer(raw) => Some(Bytes(raw))
    case Arr(items) =>
      (match All(seq(|items|, i requires 0 <= i < |items| => ToByte(h, items[i])))
       case Some(bytes) => Some(Bytes(bytes))
       case None => None)
    case _ => Some(v)
  }

  function Wrap(r: Option<JS>): Option<JS> {
    match r case Some(x) => Some(Arr([x])) case None => None
  }

  function AsArray(r: Option<seq<JS>>): Option<JS> {
    match r case Some(xs) => Some(Arr(xs)) case None => None
  }

  function AsRecord(fields: seq<Field>, r: Option<seq<JS>>): Option<JS>
    requires r.Some? ==> |r.value| == |fields|
  {
    match r
    case Some(xs) => Some(Obj(seq(|fields|, i requires 0 <= i < |fields| => Prop(fields[i].key, xs[i]))))
    case None => None
  }

  function AsVariant(key: string, r: Option<JS>): Option<JS> {
    match r case Some(x) => Some(Obj([Prop(key, x)])) case None => None
  }

  /** `type.accept(adapter, v)` */
  function Normalize(h: Host, d: Defs, t: Type, v: JS): Option<JS>
    requires Productive(d)
    decreases IsObject(v), v, HeadRank(d, t)
  {
    match t
    case PrimitiveType(p) => VisitPrimitive(h, p, v)
    case PrincipalType => Some(VisitPrincipal(h, v))
    case OptType(u) =>
      if IsNullish(v) || v == Arr([]) then Some(Arr([]))
      else if v.Arr? && !u.VecType? then Wrap(Normalize(h, d, u, v.items[0]))
      else Wrap(Normalize(h, d, u, v))
    case VecType(u) =>
      if u == PrimitiveType(Nat8) then VisitBlob(h, v)
      else if !v.Arr? then Some(Arr([]))
      else AsArray(All(seq(|v.items|, i requires 0 <= i < |v.items| => Normalize(h, d, u, v.items[i]))))
    case RecordType(fields) =>
      if !IsObject(v) then Some(v)
      else AsRecord(fields, All(seq(|fields|, i requires 0 <= i < |fields| =>
                                    Normalize(h, d, fields[i].ty, GetProp(v, fields[i].key)))))
    case TupleType(components) =>
      if !v.Arr? then Some(v)
      else AsArray(All(seq(|v.items|, i requires 0 <= i < |v.items| =>
                           if i < |components| then Normalize(h, d, components[i], v.items[i]) else Some(v.items[i]))))
    case VariantType(fields) =>
      if v.Str? && FindField(fields, v.s) == Some(PrimitiveType(NullType)) then Some(Obj([Prop(v.s, Null)]))
      else
        (match OnlyProp(v)
         case None => Some(v)
         case Some(prop) =>
           (match FindField(fields, prop.key)
            case None => Some(v)
            case Some(ty) => AsVariant(prop.key, Normalize(h, d, ty, prop.value))))
    case RecType(n) => if n in d.types then Normalize(h, d, d.types[n], v) else None
  }

  /// The record visitor as the code runs it: a result object filled property by property

  function Assign(props: seq<Prop>, key: string, value: JS): seq<Prop> {
    if props == [] then [Prop(key, value)]
    else if props[0].key == key then [Prop(key, value)] + props[1..]
    else [props[0]] + Assign(props[1..], key, value)
  }

  lemma {:induction false} AssignNew(props: seq<Prop>, key: string, value: JS)
    requires forall i | 0 <= i < |props| :: props[i].key != key
    ensures Assign(props, key, value) == props + [Prop(key, value)]
  {
    if props != [] {
      AssignNew(props[1..], key, value);
    }
  }

  /** An assignment is read back, and leaves the other properties as they are. */
  lemma {:induction false} AssignedIsRead(props: seq<Prop>, key: string, value: JS, other: string)
    ensures FindProp(Assign(props, key, value), key) == Some(value)
    ensures other != key ==> FindProp(Assign(props, key, value), other) == FindProp(props, other)
    ensures |Assign(props, key, value)| == if FindProp(props, key).Some? then |props| else |props| + 1
  {
    if props != [] && props[0].key != key {
      AssignedIsRead(props[1..], key, value, other);
      assert Assign(props, key, value)[1..] == Assign(props[1..], key, value);
    } else if props != [] {
      assert Assign(props, key, value)[1..] == props[1..];
    }
  }

  ghost predicate DistinctNames(fields: seq<Field>) {
    forall i, j | 0 <= i < j < |fields| :: fields[i].key != fields[j].key
  }

  method VisitRecord(h: Host, d: Defs, fields: seq<Field>, data: JS) returns (r: Option<JS>)
    requires Productive(d) && DistinctNames(fields)
    ensures r == Normalize(h, d, RecordType(fields), data)
  {
    if !IsObject(data) {
      return Some(data);
    }
    var result: seq<Prop> := [];
    ghost var parts := seq(|fields|, i requires 0 <= i < |fields| =>
                           Normalize(h, d, fields[i].ty, GetProp(data, fields[i].key)));
    for k := 0 to |fields|
      invariant |result| == k
      invariant forall i | 0 <= i < k :: parts[i].Some? && result[i] == Prop(fields[i].key, parts[i].value)
    {
      var value := GetProp(data, fields[k].key);
      var normalized := Normalize(h, d, fields[k].ty, value);
      assert normalized == parts[k];
      if normalized.None? {
        return None;
      }
      AssignNew(result, fields[k].key, normalized.value);
      result := Assign(result, fields[k].key, normalized.value);
    }
    r := Some(Obj(result));
    ObjExt(result, AsRecord(fields, All(parts)).value.props);
  }

  /** The arguments of a call; arguments without a declared type, or of an unknown method, pass through. */
  function NormalizeArgs(h: Host, d: Defs, methods: map<string, seq<Type>>, name: string, args: seq<JS>)
    : Option<seq<JS>>
    requires Productive(d)
  {
    if name !in methods then Some(args)
    else
      var types := methods[name];
      All(seq(|args|, i requires 0 <= i < |args| =>
              if i < |types| then Normalize(h, d, types[i], args[i]) else Some(args[i])))
  }

  /// Typed values, their frontend spellings, and their Candid form

  datatype Value =
    | Atom(js: JS)                        // null, bool, text and the small number types
    | Integer(n: int)                     // int, int64, nat, nat64
    | PrincipalId(p: nat)
    | OptV(content: Option<Value>)
    | Blob(bytes: seq<Byte>)
    | VecV(items: seq<Value>)
    | RecordV(fields: seq<FieldValue>)
    | TupleV(items: seq<Value>)
    | VariantV(tag: string, payload: Value)

  datatype FieldValue = FieldValue(key: string, value: Value)

  /** The JavaScript value the Candid serializer expects for `v`. */
  function Wire(v: Value): JS {
    match v
    case Atom(js) => js
    case Integer(n) => BigInt(n)
    case PrincipalId(p) => PrincipalObj(p)
    case OptV(None) => Arr([])
    case OptV(Some(x)) => Arr([Wire(x)])
    case Blob(bytes) => Bytes(bytes)
    case VecV(items) => Arr(seq(|items|, i requires 0 <= i < |items| => Wire(items[i])))
    case TupleV(items) => Arr(seq(|items|, i requires 0 <= i < |items| => Wire(items[i])))
    case RecordV(fields) =>
      Obj(seq(|fields|, i requires 0 <= i < |fields| => Prop(fields[i].key, Wire(fields[i].value))))
    case VariantV(tag, payload) => Obj([Prop(tag, Wire(payload))])
  }

  predicate IsAtomOf(p: Primitive, js: JS) {
    match p
    case NullType => js == Null
    case BoolType => js.Bool?
    case TextType => js.Str?
    case Nat8 => js.Num?
    case SmallNumber => js.Num? || js.Fraction?
    case BigNumber => false
  }

  /** A bare `js` under an opt over `u` is neither taken for None nor for a wrapped value. */
  predicate IsPlain(u: Type, js: JS) {
    !IsNullish(js) && js != Arr([]) && (js.Arr? ==> u.VecType?)
  }

  /**
   * How optional values are written. Erased: every present one bare, whatever it looks like. ErasedPlain:
   * bare, and every one of them plain. AnyForm: bare and plain, or the older one-element array. A blob may
   * be an array of numbers in AnyForm only.
   */
  datatype Style = AnyForm | Erased | ErasedPlain

  /** `js` is a way to write the value `v` of type `t` in the frontend. */
  ghost predicate Spells(h: Host, d: Defs, t: Type, v: Value, js: JS, style: Style)
    requires Productive(d)
    decreases v, HeadRank(d, t)
  {
    match t
    case PrimitiveType(BigNumber) =>
      v.Integer? && (js == Num(v.n) || js == BigInt(v.n) || (js.Str? && h.bigIntOf(js.s) == Some(v.n)))
    case PrimitiveType(p) => v.Atom? && v.js == js && IsAtomOf(p, js)
    case PrincipalType =>
      v.PrincipalId? && (js == PrincipalObj(v.p) || (js.Str? && h.principalOf(js.s) == Some(v.p)))
    case OptType(u) =>
      v.OptV? &&
      (match v.content
       case None => IsNullish(js) || js == Arr([])
       case Some(x) =>
         || ((style == Erased || IsPlain(u, js)) && Spells(h, d, u, x, js, style))
         || (style == AnyForm && !u.VecType? && js.Arr? && |js.items| == 1 && Spells(h, d, u, x, js.items[0], style)))
    case VecType(PrimitiveType(Nat8)) =>
      v.Blob? && (js == Bytes(v.bytes) || js == Buffer(v.bytes) || (style == AnyForm && js == Arr(AsNumbers(v.bytes))))
    case VecType(u) =>
      v.VecV? && js.Arr? && |js.items| == |v.items| &&
      forall i | 0 <= i < |v.items| :: Spells(h, d, u, v.items[i], js.items[i], style)
    case RecordType(fields) =>
      v.RecordV? && js.Obj? && |v.fields| == |fields| &&
      forall i | 0 <= i < |fields| ::
        v.fields[i].key == fields[i].key &&
        Spells(h, d, fields[i].ty, v.fields[i].value, GetProp(js, fields[i].key), style)
    case TupleType(components) =>
      v.TupleV? && js.Arr? && |js.items| == |v.items| == |components| &&
      forall i | 0 <= i < |components| :: Spells(h, d, components[i], v.items[i], js.items[i], style)
    case VariantType(fields) =>
      v.VariantV? && FindField(fields, v.tag).Some? &&
      (var ty := FindField(fields, v.tag).value;
       || (js == Str(v.tag) && ty == PrimitiveType(NullType) && v.payload == Atom(Null))
       || (js.Obj? && |js.props| == 1 && js.props[0].key == v.tag &&
           Spells(h, d, ty, v.payload, js.props[0].value, style)))
    case RecType(n) => n in d.types && Spells(h, d, d.types[n], v, js, style)
  }

  lemma ArrExt(a: seq<JS>, b: seq<JS>)
    requires |a| == |b| && forall i | 0 <= i < |a| :: a[i] == b[i]
    ensures Arr(a) == Arr(b)
  {
    assert a == b;
  }

  lemma ObjExt(a: seq<Prop>, b: seq<Prop>)
    requires |a| == |b| && forall i | 0 <= i < |a| :: a[i] == b[i]
    ensures Obj(a) == Obj(b)
  {
    assert a == b;
  }

  /** Every spelling of a value whose bare options are plain is normalized to the value's Candid form. */
  lemma {:induction false} SpellingsNormalize(h: Host, d: Defs, t: Type, v: Value, js: JS, style: Style)
    requires Productive(d) && Spells(h, d, t, v, js, style) && style != Erased
    ensures Normalize(h, d, t, js) == Some(Wire(v))
    decreases v, HeadRank(d, t), 1
  {
    match t
    case PrimitiveType(_) =>
    case PrincipalType =>
    case OptType(u) => OptNormalizes(h, d, u, v, js, style);
    case VecType(u) =>
      if u == PrimitiveType(Nat8) {
        BlobNormalizes(h, v, js);
      } else {
        VecNormalizes(h, d, u, v, js, style);
      }
    case RecordType(fields) => RecordNormalizes(h, d, fields, v, js, style);
    case TupleType(components) => TupleNormalizes(h, d, components, v, js, style);
    case VariantType(fields) => VariantNormalizes(h, d, fields, v, js, style);
    case RecType(n) => SpellingsNormalize(h, d, d.types[n], v, js, style);
  }

  lemma OptNormalizes(h: Host, d: Defs, u: Type, v: Value, js: JS, style: Style)
    requires Productive(d) && Spells(h, d, OptType(u), v, js, style) && style != Erased
    ensures Normalize(h, d, OptType(u), js) == Some(Wire(v))
    decreases v, 0, 0
  {
    match v.content
    case None =>
    case Some(x) =>
      if IsPlain(u, js) && Spells(h, d, u, x, js, style) {
        SpellingsNormalize(h, d, u, x, js, style);
      } else {
        SpellingsNormalize(h, d, u, x, js.items[0], style);
      }
  }

  lemma VariantNormalizes(h: Host, d: Defs, fields: seq<Field>, v: Value, js: JS, style: Style)
    requires Productive(d) && Spells(h, d, VariantType(fields), v, js, style) && style != Erased
    ensures Normalize(h, d, VariantType(fields), js) == Some(Wire(v))
    decreases v, 0, 0
  {
    var ty := FindField(fields, v.tag).value;
    if !(js == Str(v.tag) && ty == PrimitiveType(NullType) && v.payload == Atom(Null)) {
      SpellingsNormalize(h, d, ty, v.payload, js.props[0].value, style);
    }
  }

  lemma BlobNormalizes(h: Host, v: Value, js: JS)
    requires v.Blob? && (js == Bytes(v.bytes) || js == Buffer(v.bytes) || js == Arr(AsNumbers(v.bytes)))
    ensures VisitBlob(h, js) == Some(Wire(v))
  {
    if js.Arr? {
      var rs := seq(|js.items|, i requires 0 <= i < |js.items| => ToByte(h, js.items[i]));
      assert forall i | 0 <= i < |rs| :: rs[i] == Some(v.bytes[i]);
      assert All(rs).value == v.bytes;
    }
  }

  lemma VecNormalizes(h: Host, d: Defs, u: Type, v: Value, js: JS, style: Style)
    requires Productive(d) && u != PrimitiveType(Nat8) && Spells(h, d, VecType(u), v, js, style) && style != Erased
    ensures Normalize(h, d, VecType(u), js) == Some(Wire(v))
    decreases v, 0, 0
  {
    var rs := seq(|js.items|, i requires 0 <= i < |js.items| => Normalize(h, d, u, js.items[i]));
    forall i | 0 <= i < |rs| ensures rs[i] == Some(Wire(v.items[i])) {
      SpellingsNormalize(h, d, u, v.items[i], js.items[i], style);
    }
    ArrExt(All(rs).value, Wire(v).items);
  }

  lemma RecordNormalizes(h: Host, d: Defs, fields: seq<Field>, v: Value, js: JS, style: Style)
    requires Productive(d) && Spells(h, d, RecordType(fields), v, js, style) && style != Erased
    ensures Normalize(h, d, RecordType(fields), js) == Some(Wire(v))
    decreases v, 0, 0
  {
    var rs := seq(|fields|, i requires 0 <= i < |fields| => Normalize(h, d, fields[i].ty, GetProp(js, fields[i].key)));
    forall i | 0 <= i < |rs| ensures rs[i] == Some(Wire(v.fields[i].value)) {
      SpellingsNormalize(h, d, fields[i].ty, v.fields[i].value, GetProp(js, fields[i].key), style);
    }
    ObjExt(AsRecord(fields, All(rs)).value.props, Wire(v).props);
  }

  lemma TupleNormalizes(h: Host, d: Defs, components: seq<Type>, v: Value, js: JS, style: Style)
    requires Productive(d) && Spells(h, d, TupleType(components), v, js, style) && style != Erased
    ensures Normalize(h, d, TupleType(components), js) == Some(Wire(v))
    decreases v, 0, 0
  {
    var rs := seq(|js.items|, i requires 0 <= i < |js.items| =>
                  if i < |components| then Normalize(h, d, components[i], js.items[i]) else Some(js.items[i]));
    forall i | 0 <= i < |rs| ensures rs[i] == Some(Wire(v.items[i])) {
      SpellingsNormalize(h, d, components[i], v.items[i], js.items[i], style);
    }
    ArrExt(All(rs).value, Wire(v).items);
  }

  /** One spelling never stands for two values with different Candid forms. */
  lemma SpellingsAreUnambiguous(h: Host, d: Defs, t: Type, v: Value, w: Value, js: JS)
    requires Productive(d) && Spells(h, d, t, v, js, AnyForm) && Spells(h, d, t, w, js, AnyForm)
    ensures Wire(v) == Wire(w)
  {
    SpellingsNormalize(h, d, t, v, js, AnyForm);
    SpellingsNormalize(h, d, t, w, js, AnyForm);
  }

  /** A whole argument list is normalized argument by argument; surplus arguments pass through. */
  lemma PayloadNormalizes(h: Host, d: Defs, methods: map<string, seq<Type>>, name: string,
                          values: seq<Value>, args: seq<JS>)
    requires Productive(d) && name in methods && |values| == |args|
    requires forall i | 0 <= i < |args| && i < |methods[name]| ::
               Spells(h, d, methods[name][i], values[i], args[i], AnyForm)
    ensures NormalizeArgs(h, d, methods, name, args) ==
            Some(seq(|args|, i requires 0 <= i < |args| => if i < |methods[name]| then Wire(values[i]) else args[i]))
  {
    var types := methods[name];
    var rs := seq(|args|, i requires 0 <= i < |args| =>
                  if i < |types| then Normalize(h, d, types[i], args[i]) else Some(args[i]));
    var wires := seq(|args|, i requires 0 <= i < |args| => if i < |types| then Wire(values[i]) else args[i]);
    forall i | 0 <= i < |rs| ensures rs[i] == Some(wires[i]) {
      if i < |types| {
        SpellingsNormalize(h, d, types[i], values[i], args[i], AnyForm);
      }
    }
    assert All(rs).value == wires;
  }

  /// Erased values: which bare options survive

  /** `j` is `js[0]`, `js[0][0]`, and so on. */
  predicate IsHead(js: JS, j: JS) {
    js.Arr? && js.items != [] && (j == js.items[0] || IsHead(js.items[0], j))
  }

  lemma {:induction false} HeadOfHead(js: JS, j: JS)
    requires IsHead(js, j) && j.Arr? && j.items != []
    ensures IsHead(js, j.items[0])
  {
    if j != js.items[0] {
      HeadOfHead(js.items[0], j);
    }
  }

  /** What an array begins with never arrives as the value that the whole array spells. */
  lemma {:induction false} HeadDiffers(h: Host, d: Defs, t: Type, v: Value, js: JS, j: JS)
    requires Productive(d) && Spells(h, d, t, v, js, Erased) && IsHead(js, j)
    ensures Normalize(h, d, t, j) != Some(Wire(v))
    decreases v, HeadRank(d, t), 1
  {
    match t
    case OptType(u) => OptHeadDiffers(h, d, u, v, js, j);
    case VecType(u) =>
      if Normalize(h, d, t, j) == Some(Wire(v)) {
        assert |Wire(v).items| == |v.items| > 0;
        FirstOfWire(h, d, t, j, v);
        HeadOfFirst(js, j);
        HeadDiffers(h, d, u, v.items[0], js.items[0], j.items[0]);
      }
    case TupleType(components) =>
      if Normalize(h, d, t, j) == Some(Wire(v)) {
        assert |Wire(v).items| == |v.items| > 0;
        FirstOfWire(h, d, t, j, v);
        HeadOfFirst(js, j);
        HeadDiffers(h, d, components[0], v.items[0], js.items[0], j.items[0]);
      }
    case RecType(n) => HeadDiffers(h, d, d.types[n], v, js, j);
    case _ =>
  }

  lemma OptHeadDiffers(h: Host, d: Defs, u: Type, v: Value, js: JS, j: JS)
    requires Productive(d) && Spells(h, d, OptType(u), v, js, Erased) && IsHead(js, j)
    ensures Normalize(h, d, OptType(u), j) != Some(Wire(v))
    decreases v, 0, 0
  {
    var x := v.content.value;
    if IsNullish(j) || j == Arr([]) {
      assert |Wire(v).items| == 1;
    } else if j.Arr? && !u.VecType? {
      HeadOfHead(js, j);
      HeadDiffers(h, d, u, x, js, j.items[0]);
    } else {
      HeadDiffers(h, d, u, x, js, j);
    }
  }

  lemma HeadOfFirst(js: JS, j: JS)
    requires IsHead(js, j) && j.Arr? && j.items != []
    ensures IsHead(js.items[0], j.items[0])
  {
    if j != js.items[0] {
      HeadOfHead(js.items[0], j);
    }
  }

  function FirstType(t: Type): Option<Type> {
    match t
    case VecType(u) => Some(u)
    case TupleType(components) => if components == [] then None else Some(components[0])
    case _ => None
  }

  lemma FirstOfWire(h: Host, d: Defs, t: Type, j: JS, v: Value)
    requires Productive(d) && FirstType(t).Some? && t != VecType(PrimitiveType(Nat8))
    requires (v.VecV? || v.TupleV?) && v.items != [] && Normalize(h, d, t, j) == Some(Wire(v))
    ensures j.Arr? && j.items != [] && Normalize(h, d, FirstType(t).value, j.items[0]) == Some(Wire(v.items[0]))
  {
    assert |Wire(v).items| == |v.items|;
    assert Wire(v).items[0] == Wire(v.items[0]);
  }

  /** An erased form that arrives as its value has nothing but plain bare options. */
  lemma {:induction false} NormalizedIsPlain(h: Host, d: Defs, t: Type, v: Value, js: JS)
    requires Productive(d) && Spells(h, d, t, v, js, Erased) && Normalize(h, d, t, js) == Some(Wire(v))
    ensures Spells(h, d, t, v, js, ErasedPlain)
    decreases v, HeadRank(d, t), 1
  {
    match t
    case OptType(u) =>
      if v.content.Some? {
        BareIsPlain(h, d, u, v, js);
      }
    case VecType(u) =>
      if u != PrimitiveType(Nat8) {
        VecIsPlain(h, d, u, v, js);
      }
    case RecordType(fields) => RecordIsPlain(h, d, fields, v, js);
    case TupleType(components) => TupleIsPlain(h, d, components, v, js);
    case VariantType(fields) => VariantIsPlain(h, d, fields, v, js);
    case RecType(n) => NormalizedIsPlain(h, d, d.types[n], v, js);
    case _ =>
  }

  lemma OptIsPlain(h: Host, d: Defs, u: Type, x: Value, js: JS)
    requires Productive(d) && Spells(h, d, u, x, js, Erased)
    requires Normalize(h, d, OptType(u), js) == Some(Wire(OptV(Some(x))))
    ensures IsPlain(u, js) && Normalize(h, d, u, js) == Some(Wire(x))
  {
    assert Wire(OptV(Some(x))) == Arr([Wire(x)]);
    assert |[Wire(x)]| == 1;
    if js.Arr? && js.items != [] && !u.VecType? {
      HeadDiffers(h, d, u, x, js, js.items[0]);
    }
  }

  lemma BareIsPlain(h: Host, d: Defs, u: Type, v: Value, js: JS)
    requires Productive(d) && Spells(h, d, OptType(u), v, js, Erased) && v.content.Some?
    requires Normalize(h, d, OptType(u), js) == Some(Wire(v))
    ensures Spells(h, d, OptType(u), v, js, ErasedPlain)
    decreases v, 0, 0
  {
    OptIsPlain(h, d, u, v.content.value, js);
    NormalizedIsPlain(h, d, u, v.content.value, js);
  }

  lemma VecIsPlain(h: Host, d: Defs, u: Type, v: Value, js: JS)
    requires Productive(d) && u != PrimitiveType(Nat8) && Spells(h, d, VecType(u), v, js, Erased)
    requires Normalize(h, d, VecType(u), js) == Some(Wire(v))
    ensures Spells(h, d, VecType(u), v, js, ErasedPlain)
    decreases v, 0, 0
  {
    forall i | 0 <= i < |v.items| ensures Spells(h, d, u, v.items[i], js.items[i], ErasedPlain) {
      assert Wire(v).items[i] == Wire(v.items[i]);
      NormalizedIsPlain(h, d, u, v.items[i], js.items[i]);
    }
  }

  lemma RecordIsPlain(h: Host, d: Defs, fields: seq<Field>, v: Value, js: JS)
    requires Productive(d) && Spells(h, d, RecordType(fields), v, js, Erased)
    requires Normalize(h, d, RecordType(fields), js) == Some(Wire(v))
    ensures Spells(h, d, RecordType(fields), v, js, ErasedPlain)
    decreases v, 0, 0
  {
    forall i | 0 <= i < |fields|
      ensures Spells(h, d, fields[i].ty, v.fields[i].value, GetProp(js, fields[i].key), ErasedPlain)
    {
      assert Wire(v).props[i].value == Wire(v.fields[i].value);
      NormalizedIsPlain(h, d, fields[i].ty, v.fields[i].value, GetProp(js, fields[i].key));
    }
  }

  lemma TupleIsPlain(h: Host, d: Defs, components: seq<Type>, v: Value, js: JS)
    requires Productive(d) && Spells(h, d, TupleType(components), v, js, Erased)
    requires Normalize(h, d, TupleType(components), js) == Some(Wire(v))
    ensures Spells(h, d, TupleType(components), v, js, ErasedPlain)
    decreases v, 0, 0
  {
    forall i | 0 <= i < |components| ensures Spells(h, d, components[i], v.items[i], js.items[i], ErasedPlain) {
      assert Wire(v).items[i] == Wire(v.items[i]);
      NormalizedIsPlain(h, d, components[i], v.items[i], js.items[i]);
    }
  }

  lemma VariantIsPlain(h: Host, d: Defs, fields: seq<Field>, v: Value, js: JS)
    requires Productive(d) && Spells(h, d, VariantType(fields), v, js, Erased)
    requires Normalize(h, d, VariantType(fields), js) == Some(Wire(v))
    ensures Spells(h, d, VariantType(fields), v, js, ErasedPlain)
    decreases v, 0, 0
  {
    if js.Obj? {
      assert Wire(v).props[0] == Prop(v.tag, Wire(v.payload));
      NormalizedIsPlain(h, d, FindField(fields, v.tag).value, v.payload, js.props[0].value);
    }
  }

  lemma ErasedNormalizesIf(h: Host, d: Defs, t: Type, v: Value, js: JS)
    requires Productive(d)
    ensures Spells(h, d, t, v, js, ErasedPlain) ==> Normalize(h, d, t, js) == Some(Wire(v))
  {
    if Spells(h, d, t, v, js, ErasedPlain) {
      SpellingsNormalize(h, d, t, v, js, ErasedPlain);
    }
  }

  lemma ErasedNormalizesOnlyIf(h: Host, d: Defs, t: Type, v: Value, js: JS)
    requires Productive(d) && Spells(h, d, t, v, js, Erased)
    ensures Normalize(h, d, t, js) == Some(Wire(v)) ==> Spells(h, d, t, v, js, ErasedPlain)
  {
    if Normalize(h, d, t, js) == Some(Wire(v)) {
      NormalizedIsPlain(h, d, t, v, js);
    }
  }

  /** An erased form arrives as its value exactly when every bare option in it is plain. */
  lemma ErasedNormalizesIff(h: Host, d: Defs, t: Type, v: Value, js: JS)
    requires Productive(d) && Spells(h, d, t, v, js, Erased)
    ensures Normalize(h, d, t, js) == Some(Wire(v)) <==> Spells(h, d, t, v, js, ErasedPlain)
  {
    ErasedNormalizesIf(h, d, t, v, js);
    ErasedNormalizesOnlyIf(h, d, t, v, js);
  }

  /** A value that survives by itself survives bare under an opt exactly when it is plain there. */
  lemma BareOptIff(h: Host, d: Defs, u: Type, x: Value, js: JS)
    requires Productive(d) && Spells(h, d, u, x, js, Erased) && Normalize(h, d, u, js) == Some(Wire(x))
    ensures Normalize(h, d, OptType(u), js) == Some(Wire(OptV(Some(x)))) <==> IsPlain(u, js)
  {
    if Normalize(h, d, OptType(u), js) == Some(Wire(OptV(Some(x)))) {
      OptIsPlain(h, d, u, x, js);
    }
  }

  /** A present value whose bare spelling is missing or an empty array always arrives as None. */
  lemma MissingArrivesAsNone(h: Host, d: Defs, u: Type, x: Value, js: JS)
    requires Productive(d) && (IsNullish(js) || js == Arr([]))
    ensures Normalize(h, d, OptType(u), js) == Some(Wire(OptV(None)))
    ensures Normalize(h, d, OptType(u), js) != Some(Wire(OptV(Some(x))))
  {
    assert |Wire(OptV(Some(x))).items| == 1;
  }

  /** A present tuple written bare is taken for its first component and never arrives as itself. */
  lemma BareTupleIsCut(h: Host, d: Defs, components: seq<Type>, v: Value, js: JS)
    requires Productive(d) && components != []
    requires Spells(h, d, TupleType(components), v, js, Erased)
    ensures Normalize(h, d, OptType(TupleType(components)), js) ==
            Wrap(Normalize(h, d, TupleType(components), js.items[0]))
    ensures Normalize(h, d, OptType(TupleType(components)), js) != Some(Wire(OptV(Some(v))))
  {
    if Normalize(h, d, OptType(TupleType(components)), js) == Some(Wire(OptV(Some(v)))) {
      OptIsPlain(h, d, TupleType(components), v, js);
    }
  }

  /// Values whose every erased form survives

  /** A bare present value of type `u` cannot be mistaken for None or for a wrapped value. */
  predicate Presentable(d: Defs, u: Type, x: Value)
    requires Productive(d)
    decreases HeadRank(d, u)
  {
    match u
    case PrimitiveType(p) => p != NullType
    case PrincipalType => true
    case OptType(_) => false
    case TupleType(_) => false
    case VecType(e) => e == PrimitiveType(Nat8) || (x.VecV? && x.items != [])
    case RecordType(_) => true
    case VariantType(_) => true
    case RecType(n) => n in d.types && !d.types[n].VecType? && Presentable(d, d.types[n], x)
  }

  /** No opt over opt, null or tuple, and no present empty vec under an opt, anywhere in `v`. */
  predicate InFragment(d: Defs, t: Type, v: Value)
    requires Productive(d)
    decreases v, HeadRank(d, t)
  {
    match t
    case OptType(u) =>
      v.OptV? && (v.content.Some? ==> Presentable(d, u, v.content.value) && InFragment(d, u, v.content.value))
    case VecType(u) =>
      u == PrimitiveType(Nat8) || (v.VecV? && forall i | 0 <= i < |v.items| :: InFragment(d, u, v.items[i]))
    case RecordType(fields) =>
      v.RecordV? && |v.fields| == |fields| &&
      forall i | 0 <= i < |fields| :: InFragment(d, fields[i].ty, v.fields[i].value)
    case TupleType(components) =>
      v.TupleV? && |v.items| == |components| &&
      forall i | 0 <= i < |components| :: InFragment(d, components[i], v.items[i])
    case VariantType(fields) =>
      v.VariantV? && FindField(fields, v.tag).Some? && InFragment(d, FindField(fields, v.tag).value, v.payload)
    case RecType(n) => n in d.types && InFragment(d, d.types[n], v)
    case _ => true
  }

  lemma {:induction false} PresentableIsPlain(h: Host, d: Defs, u: Type, x: Value, js: JS)
    requires Productive(d) && Spells(h, d, u, x, js, Erased) && Presentable(d, u, x)
    ensures IsPlain(u, js)
    decreases HeadRank(d, u)
  {
    match u
    case RecType(n) => PresentableIsPlain(h, d, d.types[n], x, js);
    case _ =>
  }

  lemma {:induction false} FragmentIsPlain(h: Host, d: Defs, t: Type, v: Value, js: JS)
    requires Productive(d) && Spells(h, d, t, v, js, Erased) && InFragment(d, t, v)
    ensures Spells(h, d, t, v, js, ErasedPlain)
    decreases v, HeadRank(d, t), 1
  {
    match t
    case OptType(u) =>
      if v.content.Some? {
        PresentableIsPlain(h, d, u, v.content.value, js);
        FragmentIsPlain(h, d, u, v.content.value, js);
      }
    case VecType(u) =>
      if u != PrimitiveType(Nat8) {
        FragmentVec(h, d, u, v, js);
      }
    case RecordType(fields) => FragmentRecord(h, d, fields, v, js);
    case TupleType(components) => FragmentTuple(h, d, components, v, js);
    case VariantType(fields) => FragmentVariant(h, d, fields, v, js);
    case RecType(n) => FragmentIsPlain(h, d, d.types[n], v, js);
    case _ =>
  }

  lemma FragmentVec(h: Host, d: Defs, u: Type, v: Value, js: JS)
    requires Productive(d) && u != PrimitiveType(Nat8)
    requires Spells(h, d, VecType(u), v, js, Erased) && InFragment(d, VecType(u), v)
    ensures Spells(h, d, VecType(u), v, js, ErasedPlain)
    decreases v, 0, 0
  {
    forall i | 0 <= i < |v.items| ensures Spells(h, d, u, v.items[i], js.items[i], ErasedPlain) {
      FragmentIsPlain(h, d, u, v.items[i], js.items[i]);
    }
  }

  lemma FragmentVariant(h: Host, d: Defs, fields: seq<Field>, v: Value, js: JS)
    requires Productive(d)
    requires Spells(h, d, VariantType(fields), v, js, Erased) && InFragment(d, VariantType(fields), v)
    ensures Spells(h, d, VariantType(fields), v, js, ErasedPlain)
    decreases v, 0, 0
  {
    if js.Obj? {
      FragmentIsPlain(h, d, FindField(fields, v.tag).value, v.payload, js.props[0].value);
    }
  }

  lemma FragmentRecord(h: Host, d: Defs, fields: seq<Field>, v: Value, js: JS)
    requires Productive(d)
    requires Spells(h, d, RecordType(fields), v, js, Erased) && InFragment(d, RecordType(fields), v)
    ensures Spells(h, d, RecordType(fields), v, js, ErasedPlain)
    decreases v, 0, 0
  {
    forall i | 0 <= i < |fields|
      ensures Spells(h, d, fields[i].ty, v.fields[i].value, GetProp(js, fields[i].key), ErasedPlain)
    {
      FragmentIsPlain(h, d, fields[i].ty, v.fields[i].value, GetProp(js, fields[i].key));
    }
  }

  lemma FragmentTuple(h: Host, d: Defs, components: seq<Type>, v: Value, js: JS)
    requires Productive(d)
    requires Spells(h, d, TupleType(components), v, js, Erased) && InFragment(d, TupleType(components), v)
    ensures Spells(h, d, TupleType(components), v, js, ErasedPlain)
    decreases v, 0, 0
  {
    forall i | 0 <= i < |components| ensures Spells(h, d, components[i], v.items[i], js.items[i], ErasedPlain) {
      FragmentIsPlain(h, d, components[i], v.items[i], js.items[i]);
    }
  }

  /** On the fragment, every erased form of a value is normalized to its Candid form. */
  lemma ErasedNormalizes(h: Host, d: Defs, t: Type, v: Value, js: JS)
    requires Productive(d) && Spells(h, d, t, v, js, Erased) && InFragment(d, t, v)
    ensures Normalize(h, d, t, js) == Some(Wire(v))
  {
    FragmentIsPlain(h, d, t, v, js);
    ErasedNormalizesIff(h, d, t, v, js);
  }
}
