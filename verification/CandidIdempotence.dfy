/**
 * Normalizing twice: for which IDL types the second pass of the adapter changes nothing.
 */
module CandidIdempotence {
  import opened Prelude
  import opened CandidAdapter

  /// The types that occur in a type, through recursive names too

  function Components(d: Defs, t: Type): seq<Type> {
    match t
    case OptType(u) => [u]
    case VecType(u) => [u]
    case RecordType(fields) => seq(|fields|, i requires 0 <= i < |fields| => fields[i].ty)
    case TupleType(components) => components
    case VariantType(fields) => seq(|fields|, i requires 0 <= i < |fields| => fields[i].ty)
    case RecType(n) => if n in d.types then [d.types[n]] else []
    case _ => []
  }

  /** `s` is `t` or a component of it, at most `k` levels down. */
  ghost predicate OccursWithin(d: Defs, t: Type, s: Type, k: nat)
    decreases k
  {
    t == s || (k > 0 && exists i | 0 <= i < |Components(d, t)| :: OccursWithin(d, Components(d, t)[i], s, k - 1))
  }

  ghost predicate Occurs(d: Defs, t: Type, s: Type) {
    exists k: nat :: OccursWithin(d, t, s, k)
  }

  predicate OptOverVec(t: Type) {
    t.OptType? && t.inner.VecType?
  }

  ghost predicate HasOptOverVec(d: Defs, t: Type) {
    exists s :: Occurs(d, t, s) && OptOverVec(s)
  }

  /** Fields have distinct names, and names have definitions. */
  ghost predicate WellFormed(d: Defs, t: Type) {
    && (t.RecordType? || t.VariantType? ==> DistinctNames(t.fields))
    && (t.RecType? ==> t.name in d.types)
  }

  ghost predicate WellFormedType(d: Defs, t: Type) {
    forall s | Occurs(d, t, s) :: WellFormed(d, s)
  }

  /** No opt directly over a vec and no repeated record field, at any depth. */
  ghost predicate NeverRewraps(d: Defs, t: Type) {
    forall s | Occurs(d, t, s) :: !OptOverVec(s) && (s.RecordType? ==> DistinctNames(s.fields))
  }

  lemma OccursItself(d: Defs, t: Type)
    ensures Occurs(d, t, t)
  {
    assert OccursWithin(d, t, t, 0);
  }

  lemma OccursBelow(d: Defs, t: Type, i: nat, s: Type)
    requires i < |Components(d, t)| && Occurs(d, Components(d, t)[i], s)
    ensures Occurs(d, t, s)
  {
    var k: nat :| OccursWithin(d, Components(d, t)[i], s, k);
    assert OccursWithin(d, t, s, k + 1);
  }

  /** What holds of a type at every depth holds of its components. */
  lemma ComponentKeeps(d: Defs, t: Type, i: nat)
    requires i < |Components(d, t)|
    ensures NeverRewraps(d, t) ==> NeverRewraps(d, Components(d, t)[i])
    ensures WellFormedType(d, t) ==> WellFormedType(d, Components(d, t)[i])
  {
    forall s | Occurs(d, Components(d, t)[i], s) ensures Occurs(d, t, s) {
      OccursBelow(d, t, i, s);
    }
  }

  /// Idempotence

  ghost predicate IdempotentAt(h: Host, d: Defs, t: Type, v: JS)
    requires Productive(d)
  {
    Normalize(h, d, t, v).Some? ==> Normalize(h, d, t, Normalize(h, d, t, v).value) == Normalize(h, d, t, v)
  }

  lemma {:induction false} FindPropAt(props: seq<Prop>, i: nat)
    requires i < |props| && forall j | 0 <= j < i :: props[j].key != props[i].key
    ensures FindProp(props, props[i].key) == Some(props[i].value)
  {
    if i > 0 {
      assert props[1..][i - 1] == props[i];
      FindPropAt(props[1..], i - 1);
    }
  }

  /** Normalizing what is already normalized changes nothing, for every JavaScript value. */
  lemma {:induction false} NormalizeIdempotent(h: Host, d: Defs, t: Type, v: JS)
    requires Productive(d) && NeverRewraps(d, t)
    ensures IdempotentAt(h, d, t, v)
    decreases IsObject(v), v, HeadRank(d, t), 1
  {
    OccursItself(d, t);
    var r := Normalize(h, d, t, v);
    if r.Some? {
      match t
      case OptType(u) =>
        ComponentKeeps(d, t, 0);
        if !IsNullish(v) && v != Arr([]) {
          if v.Arr? {
            NormalizeIdempotent(h, d, u, v.items[0]);
          } else {
            NormalizeIdempotent(h, d, u, v);
          }
        }
      case VecType(u) =>
        if v.Arr? && u != PrimitiveType(Nat8) {
          VecIdempotent(h, d, u, v);
        }
      case RecordType(fields) =>
        if IsObject(v) {
          RecordIdempotent(h, d, fields, v);
        }
      case TupleType(components) =>
        if v.Arr? {
          TupleIdempotent(h, d, components, v);
        }
      case VariantType(fields) => VariantIdempotent(h, d, fields, v);
      case RecType(n) =>
        ComponentKeeps(d, t, 0);
        NormalizeIdempotent(h, d, d.types[n], v);
      case _ =>
    }
  }

  lemma VecIdempotent(h: Host, d: Defs, u: Type, v: JS)
    requires Productive(d) && NeverRewraps(d, VecType(u)) && v.Arr? && u != PrimitiveType(Nat8)
    ensures IdempotentAt(h, d, VecType(u), v)
    decreases true, v, 0, 0
  {
    var r := Normalize(h, d, VecType(u), v);
    if r.Some? {
      ComponentKeeps(d, VecType(u), 0);
      var w := r.value.items;
      var rs := seq(|w|, i requires 0 <= i < |w| => Normalize(h, d, u, w[i]));
      forall i | 0 <= i < |w| ensures rs[i] == Some(w[i]) {
        NormalizeIdempotent(h, d, u, v.items[i]);
      }
      ArrExt(All(rs).value, w);
    }
  }

  lemma TupleIdempotent(h: Host, d: Defs, components: seq<Type>, v: JS)
    requires Productive(d) && NeverRewraps(d, TupleType(components)) && v.Arr?
    ensures IdempotentAt(h, d, TupleType(components), v)
    decreases true, v, 0, 0
  {
    var r := Normalize(h, d, TupleType(components), v);
    if r.Some? {
      var w := r.value.items;
      var rs := seq(|w|, i requires 0 <= i < |w| =>
                    if i < |components| then Normalize(h, d, components[i], w[i]) else Some(w[i]));
      forall i | 0 <= i < |w| ensures rs[i] == Some(w[i]) {
        if i < |components| {
          ComponentKeeps(d, TupleType(components), i);
          NormalizeIdempotent(h, d, components[i], v.items[i]);
        }
      }
      ArrExt(All(rs).value, w);
    }
  }

  lemma RecordIdempotent(h: Host, d: Defs, fields: seq<Field>, v: JS)
    requires Productive(d) && NeverRewraps(d, RecordType(fields)) && IsObject(v)
    ensures IdempotentAt(h, d, RecordType(fields), v)
    decreases true, v, 0, 0
  {
    OccursItself(d, RecordType(fields));
    var r := Normalize(h, d, RecordType(fields), v);
    if r.Some? {
      var w := r.value;
      var rs := seq(|fields|, i requires 0 <= i < |fields| => Normalize(h, d, fields[i].ty, GetProp(w, fields[i].key)));
      forall i | 0 <= i < |fields| ensures rs[i] == Some(w.props[i].value) {
        FindPropAt(w.props, i);
        assert GetProp(w, fields[i].key) == w.props[i].value;
        ComponentKeeps(d, RecordType(fields), i);
        NormalizeIdempotent(h, d, fields[i].ty, GetProp(v, fields[i].key));
      }
      ObjExt(AsRecord(fields, All(rs)).value.props, w.props);
    }
  }

  lemma VariantIdempotent(h: Host, d: Defs, fields: seq<Field>, v: JS)
    requires Productive(d) && NeverRewraps(d, VariantType(fields))
    ensures IdempotentAt(h, d, VariantType(fields), v)
    decreases IsObject(v), v, 0, 0
  {
    var prop := OnlyProp(v);
    if prop.Some? {
      var ty := FindField(fields, prop.value.key);
      if ty.Some? {
        var i :| 0 <= i < |fields| && fields[i] == Field(prop.value.key, ty.value);
        ComponentKeeps(d, VariantType(fields), i);
        NormalizeIdempotent(h, d, ty.value, prop.value.value);
      }
    }
  }

  /// An opt over a vec anywhere breaks it

  lemma {:induction false} WrappedDiffers(h: Host, d: Defs, e: Type, x: JS)
    requires Productive(d) && Normalize(h, d, e, Undefined) == Some(x)
    ensures Normalize(h, d, e, Arr([x])) != Some(x)
    decreases HeadRank(d, e)
  {
    match e
    case RecType(n) => WrappedDiffers(h, d, d.types[n], x);
    case _ =>
  }

  /** Written over a vec, an opt adds one more level of wrapping at every pass. */
  lemma OptOverVecGrows(h: Host, d: Defs, e: Type)
    requires Productive(d) && Normalize(h, d, e, Undefined).Some?
    ensures exists v :: !IdempotentAt(h, d, OptType(VecType(e)), v)
  {
    var t := OptType(VecType(e));
    if e == PrimitiveType(Nat8) {
      var v := Arr([Num(0), Num(0)]);
      var bytes: seq<Byte> := [0, 0];
      assert AsNumbers(bytes) == [Num(0), Num(0)];
      BlobNormalizes(h, Blob(bytes), v);
      var w := Arr([Bytes(bytes)]);
      assert Normalize(h, d, t, v) == Some(w);
      var second := VisitBlob(h, w);
      assert second.Some? ==> |second.value.bytes| == 1;
      assert Normalize(h, d, t, w) == Wrap(second);
      assert Normalize(h, d, t, w) != Some(w);
      assert !IdempotentAt(h, d, t, v);
    } else {
      var x := Normalize(h, d, e, Undefined).value;
      var v := Arr([Undefined]);
      VecOfOne(h, d, e, Undefined);
      assert Normalize(h, d, t, v) == Some(Arr([Arr([x])]));
      VecOfOne(h, d, e, Arr([x]));
      WrappedDiffers(h, d, e, x);
      assert !IdempotentAt(h, d, t, v);
    }
  }

  lemma VecOfOne(h: Host, d: Defs, e: Type, x: JS)
    requires Productive(d) && e != PrimitiveType(Nat8)
    ensures Normalize(h, d, VecType(e), Arr([x])) == Wrap(Normalize(h, d, e, x))
  {
    var items := [x];
    var rs := seq(|items|, i requires 0 <= i < |items| => Normalize(h, d, e, items[i]));
    assert rs[0] == Normalize(h, d, e, x);
    if rs[0].Some? {
      ArrExt(All(rs).value, [rs[0].value]);
    }
  }

  lemma {:induction false} UndefinedNormalizes(h: Host, d: Defs, t: Type)
    requires Productive(d) && WellFormedType(d, t)
    ensures Normalize(h, d, t, Undefined).Some?
    decreases HeadRank(d, t)
  {
    OccursItself(d, t);
    if t.RecType? {
      ComponentKeeps(d, t, 0);
      UndefinedNormalizes(h, d, d.types[t.name]);
    }
  }

  /** A value on which a component fails to be idempotent extends to one on which the whole type does. */
  lemma FailureLifts(h: Host, d: Defs, t: Type, i: nat, w: JS)
    requires Productive(d) && WellFormedType(d, t) && !OptOverVec(t) && i < |Components(d, t)|
    requires !IdempotentAt(h, d, Components(d, t)[i], w)
    ensures exists v :: !IdempotentAt(h, d, t, v)
  {
    OccursItself(d, t);
    match t
    case OptType(u) => assert !IdempotentAt(h, d, t, Arr([w]));
    case VecType(u) =>
      VecOfOne(h, d, u, w);
      VecOfOne(h, d, u, Normalize(h, d, u, w).value);
      assert !IdempotentAt(h, d, t, Arr([w]));
    case RecordType(fields) => RecordFails(h, d, fields, i, w);
    case TupleType(components) => TupleFails(h, d, components, i, w);
    case VariantType(fields) => VariantFails(h, d, fields, i, w);
    case RecType(n) => assert !IdempotentAt(h, d, t, w);
  }

  lemma RecordFails(h: Host, d: Defs, fields: seq<Field>, k: nat, w: JS)
    requires Productive(d) && WellFormedType(d, RecordType(fields)) && DistinctNames(fields)
    requires k < |fields| && !IdempotentAt(h, d, fields[k].ty, w)
    ensures exists v :: !IdempotentAt(h, d, RecordType(fields), v)
  {
    var t := RecordType(fields);
    var v := Obj([Prop(fields[k].key, w)]);
    var rs := seq(|fields|, i requires 0 <= i < |fields| => Normalize(h, d, fields[i].ty, GetProp(v, fields[i].key)));
    forall i | 0 <= i < |fields| ensures rs[i].Some? {
      if i != k {
        ComponentKeeps(d, t, i);
        UndefinedNormalizes(h, d, fields[i].ty);
      }
    }
    var first := AsRecord(fields, All(rs)).value;
    assert first.props[k] == Prop(fields[k].key, rs[k].value);
    FindPropAt(first.props, k);
    var second := Normalize(h, d, t, first);
    assert second.Some? ==> Normalize(h, d, fields[k].ty, rs[k].value) == Some(second.value.props[k].value);
    assert !IdempotentAt(h, d, t, v);
  }

  lemma TupleFails(h: Host, d: Defs, components: seq<Type>, k: nat, w: JS)
    requires Productive(d) && WellFormedType(d, TupleType(components))
    requires k < |components| && !IdempotentAt(h, d, components[k], w)
    ensures exists v :: !IdempotentAt(h, d, TupleType(components), v)
  {
    var t := TupleType(components);
    var v := Arr(seq(k + 1, i requires 0 <= i < k + 1 => if i == k then w else Undefined));
    var rs := seq(|v.items|, i requires 0 <= i < |v.items| =>
                  if i < |components| then Normalize(h, d, components[i], v.items[i]) else Some(v.items[i]));
    forall i | 0 <= i < |rs| ensures rs[i].Some? {
      if i != k {
        ComponentKeeps(d, t, i);
        UndefinedNormalizes(h, d, components[i]);
      }
    }
    var first := Arr(All(rs).value);
    var second := Normalize(h, d, t, first);
    assert second.Some? ==> Normalize(h, d, components[k], rs[k].value) == Some(second.value.items[k]);
    assert !IdempotentAt(h, d, t, v);
  }

  lemma VariantFails(h: Host, d: Defs, fields: seq<Field>, k: nat, w: JS)
    requires Productive(d) && DistinctNames(fields)
    requires k < |fields| && !IdempotentAt(h, d, fields[k].ty, w)
    ensures exists v :: !IdempotentAt(h, d, VariantType(fields), v)
  {
    FindFieldAt(fields, k);
    assert !IdempotentAt(h, d, VariantType(fields), Obj([Prop(fields[k].key, w)]));
  }

  lemma {:induction false} FindFieldAt(fields: seq<Field>, i: nat)
    requires i < |fields| && forall j | 0 <= j < i :: fields[j].key != fields[i].key
    ensures FindField(fields, fields[i].key) == Some(fields[i].ty)
  {
    if i > 0 {
      assert fields[1..][i - 1] == fields[i];
      FindFieldAt(fields[1..], i - 1);
    }
  }

  lemma {:induction false} OccurrenceFails(h: Host, d: Defs, t: Type, s: Type, k: nat)
    requires Productive(d) && WellFormedType(d, t) && OccursWithin(d, t, s, k) && OptOverVec(s)
    ensures exists v :: !IdempotentAt(h, d, t, v)
    decreases k
  {
    if OptOverVec(t) {
      ComponentKeeps(d, t, 0);
      ComponentKeeps(d, t.inner, 0);
      UndefinedNormalizes(h, d, t.inner.elem);
      OptOverVecGrows(h, d, t.inner.elem);
    } else {
      var i :| 0 <= i < |Components(d, t)| && OccursWithin(d, Components(d, t)[i], s, k - 1);
      ComponentKeeps(d, t, i);
      OccurrenceFails(h, d, Components(d, t)[i], s, k - 1);
      var w :| !IdempotentAt(h, d, Components(d, t)[i], w);
      FailureLifts(h, d, t, i, w);
    }
  }

  /** Normalizing is idempotent on all values of a type exactly when no opt over a vec occurs in the type. */
  lemma IdempotentIff(h: Host, d: Defs, t: Type)
    requires Productive(d) && WellFormedType(d, t)
    ensures (forall v :: IdempotentAt(h, d, t, v)) <==> !HasOptOverVec(d, t)
  {
    if HasOptOverVec(d, t) {
      var s :| Occurs(d, t, s) && OptOverVec(s);
      var k: nat :| OccursWithin(d, t, s, k);
      OccurrenceFails(h, d, t, s, k);
    } else {
      assert NeverRewraps(d, t);
      forall v ensures IdempotentAt(h, d, t, v) {
        NormalizeIdempotent(h, d, t, v);
      }
    }
  }
}
