/** The schema-directed archives of the compact serializer, and the integrity envelope around them. */
module Serializer {
  import opened Options
  import opened Checksum

  datatype Kind = Vector | HashSet | HashMap

  /** The shape of a serializable type. A `Record` is a tuple, or a struct through the members it
      reflects; a hash map holds pairs, archived as two-element tuples. */
  datatype Schema =
    | Arith(size: nat)
    | Nillable(inner: Schema)
    | Record(fields: seq<Schema>)
    | Container(kind: Kind, elem: Schema)

  datatype Value =
    | Num(n: nat)
    | Nil
    | Just(v: Value)
    | Fields(vs: seq<Value>)
    | List(elems: seq<Value>)
    | Hashed(members: set<Value>)

  const SIZE_T: nat := 8

  /** The values of a type; containers have fewer than `2^64` elements, hash maps have distinct keys. */
  ghost predicate HasSchema(t: Schema, v: Value)
    decreases t, 1
  {
    match t
    case Arith(size) => v.Num? && v.n < Pow256(size)
    case Nillable(inner) => v.Nil? || (v.Just? && HasSchema(inner, v.v))
    case Record(fields) => v.Fields? && HaveSchemas(fields, v.vs)
    case Container(kind, elem) =>
      && Contained(kind, v)
      && (v.List? ==> forall x :: x in v.elems ==> HasSchema(elem, x))
      && (v.Hashed? ==> forall x :: x in v.members ==> HasSchema(elem, x))
  }

  ghost predicate HaveSchemas(ts: seq<Schema>, vs: seq<Value>)
    decreases ts, 0
  {
    |ts| == |vs| && (ts != [] ==> HasSchema(ts[0], vs[0]) && HaveSchemas(ts[1..], vs[1..]))
  }

  ghost predicate Contained(kind: Kind, v: Value)
  {
    && (kind.Vector? ==> v.List? && |v.elems| < Pow256(SIZE_T))
    && (!kind.Vector? ==> v.Hashed? && |v.members| < Pow256(SIZE_T))
    && (kind.HashMap? ==> forall x, y {:trigger SameKey(x, y)} :: x in v.members && y in v.members && x != y ==> !SameKey(x, y))
  }

  predicate SameKey(x: Value, y: Value)
  {
    x.Fields? && y.Fields? && x.vs != [] && y.vs != [] && x.vs[0] == y.vs[0]
  }

  /** The order in which a hashed container at a place in the value is visited. A place is the path of indices that leads
      there, so two equal containers in one value need not be visited alike. */
  type Order = (seq<nat>, set<Value>) -> seq<Value>

  /** It lists the members of every hashed container, each once. */
  ghost predicate Enumerates(order: Order)
  {
    forall at: seq<nat>, s: set<Value> {:trigger Lists(order(at, s), s)} :: Lists(order(at, s), s)
  }

  ghost predicate Lists(xs: seq<Value>, s: set<Value>)
  {
    && (forall x :: x in s <==> x in xs)
    && (forall i, j :: 0 <= i < j < |xs| ==> xs[i] != xs[j])
  }

  lemma {:induction false} ListsSize(xs: seq<Value>, s: set<Value>)
    requires Lists(xs, s)
    ensures |xs| == |s|
  {
    if xs == [] {
      assert s == {};
    } else {
      var n := |xs| - 1;
      assert xs == xs[..n] + [xs[n]];
      ListsSize(xs[..n], s - {xs[n]});
    }
  }

  /** The elements of a container in the order a range-for visits them. */
  function Elements(order: Order, at: seq<nat>, kind: Kind, v: Value): (xs: seq<Value>)
    requires Contained(kind, v)
  {
    if kind.Vector? then v.elems else order(at, v.members)
  }

  ghost predicate AllHave(t: Schema, vs: seq<Value>)
  {
    forall i :: 0 <= i < |vs| ==> HasSchema(t, vs[i])
  }

  lemma ElementsHave(order: Order, at: seq<nat>, kind: Kind, elem: Schema, v: Value)
    requires HasSchema(Container(kind, elem), v) && Enumerates(order)
    ensures AllHave(elem, Elements(order, at, kind, v)) && |Elements(order, at, kind, v)| < Pow256(SIZE_T)
  {
    if !kind.Vector? {
      assert Lists(order(at, v.members), v.members);
      ListsSize(order(at, v.members), v.members);
    }
  }

  // ----- Forward: what is written -----

  /** The bytes `Forward` writes for `v`. */
  ghost function Bytes(order: Order, at: seq<nat>, t: Schema, v: Value): seq<byte>
    requires HasSchema(t, v) && Enumerates(order)
    decreases t, 2
  {
    match t
    case Arith(size) => LittleEndian(v.n, size)
    case Nillable(inner) => if v.Nil? then [0] else [1] + Bytes(order, at + [0], inner, v.v)
    case Record(fields) => BytesOfFields(order, at, 0, fields, v.vs)
    case Container(kind, elem) =>
      ElementsHave(order, at, kind, elem, v);
      var xs := Elements(order, at, kind, v);
      LittleEndian(|xs|, SIZE_T) + BytesOfAll(order, at, 0, elem, xs)
  }

  ghost function BytesOfFields(order: Order, at: seq<nat>, from: nat, ts: seq<Schema>, vs: seq<Value>): seq<byte>
    requires HaveSchemas(ts, vs) && Enumerates(order)
    decreases ts, 1
  {
    if ts == [] then [] else Bytes(order, at + [from], ts[0], vs[0]) + BytesOfFields(order, at, from + 1, ts[1..], vs[1..])
  }

  ghost function BytesOfAll(order: Order, at: seq<nat>, from: nat, t: Schema, vs: seq<Value>): seq<byte>
    requires AllHave(t, vs) && Enumerates(order)
    decreases t, 3, |vs|
  {
    if vs == [] then [] else Bytes(order, at + [from], t, vs[0]) + BytesOfAll(order, at, from + 1, t, vs[1..])
  }

  // ----- Backward: what is read -----

  /** `T{}`: what a default-constructed object of the type holds. */
  function Fresh(t: Schema): Value
    decreases t, 1
  {
    match t
    case Arith(_) => Num(0)
    case Nillable(_) => Nil
    case Record(fields) => Fields(FreshFields(fields))
    case Container(kind, _) => Empty(kind)
  }

  function FreshFields(ts: seq<Schema>): seq<Value>
    decreases ts, 0
  {
    if ts == [] then [] else [Fresh(ts[0])] + FreshFields(ts[1..])
  }

  lemma {:induction false} FreshHas(t: Schema)
    ensures HasSchema(t, Fresh(t))
    decreases t, 1
  {
    match t
    case Arith(size) =>
    case Nillable(_) =>
    case Record(fields) => FreshFieldsHave(fields);
    case Container(_, _) => Pow256Values();
  }

  lemma {:induction false} FreshFieldsHave(ts: seq<Schema>)
    ensures HaveSchemas(ts, FreshFields(ts))
    decreases ts, 0
  {
    if ts != [] {
      FreshHas(ts[0]);
      FreshFieldsHave(ts[1..]);
      assert FreshFields(ts)[1..] == FreshFields(ts[1..]);
    }
  }

  /** What `Backward` makes of the object `o` from the bytes at `pos`; `None` where it would read past the end of the
      buffer. Numbers and optionals are replaced, members of records read in turn, and containers added to. */
  ghost function Parse(t: Schema, o: Value, buf: seq<byte>, pos: nat): Option<(Value, nat)>
    decreases t, 2
  {
    match t
    case Arith(size) =>
      if pos + size <= |buf| then Some((Num(Load(buf[pos..pos + size])), pos + size)) else None
    case Nillable(inner) =>
      if pos >= |buf| then None
      else if buf[pos] == 0 then Some((Nil, pos + 1))
      else
        var r := Parse(inner, Fresh(inner), buf, pos + 1);
        if r.None? then None else Some((Just(r.value.0), r.value.1))
    case Record(fields) =>
      var r := ParseFields(fields, if o.Fields? then o.vs else [], buf, pos);
      if r.None? then None else Some((Fields(r.value.0), r.value.1))
    case Container(kind, elem) =>
      if pos + SIZE_T > |buf| then None
      else ParseInto(kind, elem, buf, pos + SIZE_T, Load(buf[pos..pos + SIZE_T]), o)
  }

  /** The members in turn; one that the object lacks is fresh. */
  ghost function ParseFields(ts: seq<Schema>, os: seq<Value>, buf: seq<byte>, pos: nat): Option<(seq<Value>, nat)>
    decreases ts, 1
  {
    if ts == [] then Some(([], pos)) else
      var r := Parse(ts[0], if os == [] then Fresh(ts[0]) else os[0], buf, pos);
      if r.None? then None else
        var rest := ParseFields(ts[1..], if os == [] then [] else os[1..], buf, r.value.1);
        if rest.None? then None else Some(([r.value.0] + rest.value.0, rest.value.1))
  }

  /** `n` more elements read and inserted into `data`. */
  ghost function ParseInto(kind: Kind, elem: Schema, buf: seq<byte>, pos: nat, n: nat, data: Value): Option<(Value, nat)>
    decreases elem, 3, n
  {
    if n == 0 then Some((data, pos)) else
      var r := Parse(elem, Fresh(elem), buf, pos);
      if r.None? then None else ParseInto(kind, elem, buf, r.value.1, n - 1, Inserted(kind, data, r.value.0))
  }

  function Empty(kind: Kind): Value
  {
    if kind.Vector? then List([]) else Hashed({})
  }

  /** `push_back` for a vector; `insert` for the hashed ones, where a map ignores a key it holds. */
  function Inserted(kind: Kind, data: Value, e: Value): Value
  {
    match data
    case List(elems) => List(elems + [e])
    case Hashed(members) =>
      if kind.HashMap? && exists x :: x in members && SameKey(x, e) then data else Hashed(members + {e})
    case _ => data
  }

  /** Inserting one by one. */
  ghost function InsertAll(kind: Kind, data: Value, vs: seq<Value>): Value
    decreases |vs|
  {
    if vs == [] then data else InsertAll(kind, Inserted(kind, data, vs[0]), vs[1..])
  }

  lemma {:induction false} PushAll(data: seq<Value>, vs: seq<Value>)
    ensures InsertAll(Vector, List(data), vs) == List(data + vs)
    decreases |vs|
  {
    if vs == [] {
      assert data + vs == data;
    } else {
      PushAll(data + [vs[0]], vs[1..]);
      assert data + [vs[0]] + vs[1..] == data + vs;
    }
  }

  lemma {:induction false} InsertAllIsUnion(s: set<Value>, vs: seq<Value>)
    ensures InsertAll(HashSet, Hashed(s), vs) == Hashed(s + set x | x in vs)
    decreases |vs|
  {
    if vs == [] {
      assert s + (set x | x in vs) == s;
    } else {
      InsertAllIsUnion(s + {vs[0]}, vs[1..]);
      assert vs == [vs[0]] + vs[1..];
      assert s + {vs[0]} + (set x | x in vs[1..]) == s + set x | x in vs;
    }
  }

  predicate Holds(s: set<Value>, x: Value)
  {
    exists y :: y in s && SameKey(y, x)
  }

  /** The pairs whose key the map does not hold. */
  function Lacked(s: set<Value>, vs: seq<Value>): set<Value>
  {
    set x | x in vs && !Holds(s, x)
  }

  /** Pairs inserted into a map: those whose key it did not hold. */
  lemma {:induction false} InsertAllIsMerge(s: set<Value>, vs: seq<Value>)
    requires forall i, j :: 0 <= i < j < |vs| ==> !SameKey(vs[i], vs[j])
    ensures InsertAll(HashMap, Hashed(s), vs) == Hashed(s + Lacked(s, vs))
    decreases |vs|
  {
    if vs == [] {
      assert s + Lacked(s, vs) == s;
    } else {
      var e, rest := vs[0], vs[1..];
      var s' := if Holds(s, e) then s else s + {e};
      assert Inserted(HashMap, Hashed(s), e) == Hashed(s');
      InsertAllIsMerge(s', rest);
      LackedRest(s, vs);
    }
  }

  lemma {:induction false} LackedRest(s: set<Value>, vs: seq<Value>)
    requires vs != [] && forall i, j :: 0 <= i < j < |vs| ==> !SameKey(vs[i], vs[j])
    ensures var s' := if Holds(s, vs[0]) then s else s + {vs[0]};
      s' + Lacked(s', vs[1..]) == s + Lacked(s, vs)
  {
    var e, rest := vs[0], vs[1..];
    var s' := if Holds(s, e) then s else s + {e};
    assert vs == [e] + rest;
    forall x | x in rest ensures Holds(s', x) <==> Holds(s, x) {
      var i :| 0 <= i < |rest| && rest[i] == x;
      assert vs[i + 1] == x && !SameKey(e, x);
    }
  }

  /** A container `o` with the elements of `v` added: a vector goes on, a set takes the union, a map keeps what it has
      for a key and takes what it has not. */
  ghost function Joined(kind: Kind, o: Value, v: Value): Value
    requires Contained(kind, o) && Contained(kind, v)
  {
    match kind
    case Vector => List(o.elems + v.elems)
    case HashSet => Hashed(o.members + v.members)
    case HashMap => Hashed(o.members + set x | x in v.members && !Holds(o.members, x))
  }

  /** Whatever the iteration order was, inserting the visited elements joins the two containers. */
  lemma {:induction false} Rejoined(order: Order, at: seq<nat>, kind: Kind, o: Value, v: Value)
    requires Contained(kind, o) && Contained(kind, v) && Enumerates(order)
    ensures InsertAll(kind, o, Elements(order, at, kind, v)) == Joined(kind, o, v)
  {
    if kind.Vector? {
      PushAll(o.elems, v.elems);
    } else {
      var xs := order(at, v.members);
      assert Lists(xs, v.members);
      if kind.HashSet? {
        InsertAllIsUnion(o.members, xs);
        assert v.members == set x | x in xs;
      } else {
        forall i, j | 0 <= i < j < |xs| ensures !SameKey(xs[i], xs[j]) {
          assert xs[i] in v.members && xs[j] in v.members;
        }
        InsertAllIsMerge(o.members, xs);
        assert Lacked(o.members, xs) == set x | x in v.members && !Holds(o.members, x);
      }
    }
  }

  /** The object that comes of reading `v` into `o`. */
  ghost function Merged(t: Schema, o: Value, v: Value): Value
    requires HasSchema(t, o) && HasSchema(t, v)
    decreases t, 1
  {
    match t
    case Arith(_) => v
    case Nillable(_) => v
    case Record(fields) => Fields(MergedFields(fields, o.vs, v.vs))
    case Container(kind, _) => Joined(kind, o, v)
  }

  ghost function MergedFields(ts: seq<Schema>, os: seq<Value>, vs: seq<Value>): seq<Value>
    requires HaveSchemas(ts, os) && HaveSchemas(ts, vs)
    decreases ts, 0
  {
    if ts == [] then [] else [Merged(ts[0], os[0], vs[0])] + MergedFields(ts[1..], os[1..], vs[1..])
  }

  /** Read into a default-constructed object, a value is itself again. */
  lemma {:induction false} MergedFresh(t: Schema, v: Value)
    requires HasSchema(t, v)
    ensures HasSchema(t, Fresh(t)) && Merged(t, Fresh(t), v) == v
    decreases t, 1
  {
    FreshHas(t);
    match t
    case Arith(_) =>
    case Nillable(_) =>
    case Record(fields) => MergedFreshFields(fields, v.vs);
    case Container(kind, _) =>
      if kind.Vector? {
        assert [] + v.elems == v.elems;
      } else {
        assert {} + v.members == v.members;
        assert (set x | x in v.members && !Holds({}, x)) == v.members;
      }
  }

  lemma {:induction false} MergedFreshFields(ts: seq<Schema>, vs: seq<Value>)
    requires HaveSchemas(ts, vs)
    ensures HaveSchemas(ts, FreshFields(ts)) && MergedFields(ts, FreshFields(ts), vs) == vs
    decreases ts, 0
  {
    FreshFieldsHave(ts);
    if ts != [] {
      MergedFresh(ts[0], vs[0]);
      MergedFreshFields(ts[1..], vs[1..]);
      assert FreshFields(ts)[1..] == FreshFields(ts[1..]);
      assert vs == [vs[0]] + vs[1..];
    }
  }

  // ----- reading back what was written -----

  lemma AtSplit(buf: seq<byte>, pos: nat, bs: seq<byte>, cs: seq<byte>)
    requires At(buf, pos, bs + cs)
    ensures At(buf, pos, bs) && At(buf, pos + |bs|, cs)
  {
    var all := bs + cs;
    assert buf[pos..pos + |bs|] == buf[pos..pos + |all|][..|bs|] == all[..|bs|] == bs;
    assert buf[pos + |bs|..pos + |all|] == buf[pos..pos + |all|][|bs|..] == all[|bs|..] == cs;
  }

  lemma SizeAt(n: nat, bs: seq<byte>, buf: seq<byte>, pos: nat)
    requires n < Pow256(SIZE_T) && At(buf, pos, LittleEndian(n, SIZE_T) + bs)
    ensures pos + SIZE_T <= |buf| && Load(buf[pos..pos + SIZE_T]) == n && At(buf, pos + SIZE_T, bs)
  {
    AtSplit(buf, pos, LittleEndian(n, SIZE_T), bs);
    LoadDump(n, SIZE_T);
  }

  /** Reading at the place of the bytes of `v`, in any buffer, into any object, adds `v` to it and ends right after them. */
  lemma {:induction false} ParseBytes(order: Order, at: seq<nat>, t: Schema, o: Value, v: Value, buf: seq<byte>, pos: nat)
    requires HasSchema(t, o) && HasSchema(t, v) && Enumerates(order) && At(buf, pos, Bytes(order, at, t, v))
    ensures Parse(t, o, buf, pos) == Some((Merged(t, o, v), pos + |Bytes(order, at, t, v)|))
    decreases t, 2
  {
    match t
    case Arith(size) =>
      ParseBytesOfNumber(order, at, size, o, v, buf, pos);
    case Nillable(inner) =>
      ParseBytesOfNillable(order, at, inner, o, v, buf, pos);
    case Record(fields) =>
      ParseBytesOfRecord(order, at, fields, o, v, buf, pos);
    case Container(kind, elem) =>
      ParseBytesOfContainer(order, at, kind, elem, o, v, buf, pos);
  }

  /** Into a default-constructed object a value is read as it was. */
  lemma {:induction false} ParseFresh(order: Order, at: seq<nat>, t: Schema, v: Value, buf: seq<byte>, pos: nat)
    requires HasSchema(t, v) && Enumerates(order) && At(buf, pos, Bytes(order, at, t, v))
    ensures Parse(t, Fresh(t), buf, pos) == Some((v, pos + |Bytes(order, at, t, v)|))
    decreases t, 3
  {
    MergedFresh(t, v);
    ParseBytes(order, at, t, Fresh(t), v, buf, pos);
  }

  lemma {:induction false} ParseBytesOfNumber(order: Order, at: seq<nat>, size: nat, o: Value, v: Value, buf: seq<byte>, pos: nat)
    requires HasSchema(Arith(size), o) && HasSchema(Arith(size), v) && Enumerates(order) && At(buf, pos, Bytes(order, at, Arith(size), v))
    ensures Parse(Arith(size), o, buf, pos) == Some((Merged(Arith(size), o, v), pos + |Bytes(order, at, Arith(size), v)|))
  {
    LoadDump(v.n, size);
  }

  lemma {:induction false} ParseBytesOfNillable(order: Order, at: seq<nat>, inner: Schema, o: Value, v: Value, buf: seq<byte>, pos: nat)
    requires HasSchema(Nillable(inner), o) && HasSchema(Nillable(inner), v) && Enumerates(order)
    requires At(buf, pos, Bytes(order, at, Nillable(inner), v))
    ensures Parse(Nillable(inner), o, buf, pos) == Some((Merged(Nillable(inner), o, v), pos + |Bytes(order, at, Nillable(inner), v)|))
    decreases inner, 4
  {
    if v.Nil? {
      assert buf[pos] == buf[pos..pos + 1][0];
    } else {
      AtSplit(buf, pos, [1], Bytes(order, at + [0], inner, v.v));
      assert buf[pos] == buf[pos..pos + 1][0];
      ParseFresh(order, at + [0], inner, v.v, buf, pos + 1);
    }
  }

  lemma {:induction false} ParseBytesOfRecord(order: Order, at: seq<nat>, ts: seq<Schema>, o: Value, v: Value, buf: seq<byte>, pos: nat)
    requires HasSchema(Record(ts), o) && HasSchema(Record(ts), v) && Enumerates(order)
    requires At(buf, pos, Bytes(order, at, Record(ts), v))
    ensures Parse(Record(ts), o, buf, pos) == Some((Merged(Record(ts), o, v), pos + |Bytes(order, at, Record(ts), v)|))
    decreases ts, 2
  {
    ParseBytesOfFields(order, at, 0, ts, o.vs, v.vs, buf, pos);
  }

  lemma {:induction false} ParseBytesOfContainer(order: Order, at: seq<nat>, kind: Kind, elem: Schema, o: Value, v: Value,
                                                 buf: seq<byte>, pos: nat)
    requires HasSchema(Container(kind, elem), o) && HasSchema(Container(kind, elem), v) && Enumerates(order)
    requires At(buf, pos, Bytes(order, at, Container(kind, elem), v))
    ensures Parse(Container(kind, elem), o, buf, pos)
         == Some((Merged(Container(kind, elem), o, v), pos + |Bytes(order, at, Container(kind, elem), v)|))
    decreases elem, 6
  {
    ContainerAt(order, at, kind, elem, v, buf, pos);
    ParseElements(order, at, kind, elem, o, Elements(order, at, kind, v), buf, pos);
    MergedElements(order, at, kind, elem, o, v);
  }

  lemma MergedElements(order: Order, at: seq<nat>, kind: Kind, elem: Schema, o: Value, v: Value)
    requires HasSchema(Container(kind, elem), o) && HasSchema(Container(kind, elem), v) && Enumerates(order) && Contained(kind, v)
    ensures InsertAll(kind, o, Elements(order, at, kind, v)) == Merged(Container(kind, elem), o, v)
  {
    Rejoined(order, at, kind, o, v);
  }

  /** Where a container's bytes stand, its size stands first and then its elements. */
  lemma {:induction false} ContainerAt(order: Order, at: seq<nat>, kind: Kind, elem: Schema, v: Value, buf: seq<byte>, pos: nat)
    requires HasSchema(Container(kind, elem), v) && Enumerates(order) && At(buf, pos, Bytes(order, at, Container(kind, elem), v))
    ensures Contained(kind, v) && AllHave(elem, Elements(order, at, kind, v))
    ensures var xs := Elements(order, at, kind, v); var bs := BytesOfAll(order, at, 0, elem, xs);
      && pos + SIZE_T <= |buf| && Load(buf[pos..pos + SIZE_T]) == |xs| && At(buf, pos + SIZE_T, bs)
      && |Bytes(order, at, Container(kind, elem), v)| == SIZE_T + |bs|
  {
    ContainerBytes(order, at, kind, elem, v);
    var xs := Elements(order, at, kind, v);
    SizeAt(|xs|, BytesOfAll(order, at, 0, elem, xs), buf, pos);
  }

  lemma {:induction false} ParseElements(order: Order, at: seq<nat>, kind: Kind, elem: Schema, o: Value, xs: seq<Value>,
                                         buf: seq<byte>, pos: nat)
    requires AllHave(elem, xs) && Enumerates(order)
    requires pos + SIZE_T <= |buf| && Load(buf[pos..pos + SIZE_T]) == |xs| && At(buf, pos + SIZE_T, BytesOfAll(order, at, 0, elem, xs))
    ensures Parse(Container(kind, elem), o, buf, pos) == Some((InsertAll(kind, o, xs), pos + SIZE_T + |BytesOfAll(order, at, 0, elem, xs)|))
    decreases elem, 5
  {
    ParseBytesOfAll(order, at, 0, kind, elem, xs, buf, pos + SIZE_T, o);
    ParseContainerStep(kind, elem, o, buf, pos, |xs|, InsertAll(kind, o, xs), pos + SIZE_T + |BytesOfAll(order, at, 0, elem, xs)|);
  }

  lemma ParseContainerStep(kind: Kind, elem: Schema, o: Value, buf: seq<byte>, pos: nat, n: nat, v: Value, end: nat)
    requires pos + SIZE_T <= |buf| && Load(buf[pos..pos + SIZE_T]) == n
    requires ParseInto(kind, elem, buf, pos + SIZE_T, n, o) == Some((v, end))
    ensures Parse(Container(kind, elem), o, buf, pos) == Some((v, end))
  {}

  lemma {:induction false} ParseBytesOfFields(order: Order, at: seq<nat>, from: nat, ts: seq<Schema>, os: seq<Value>, vs: seq<Value>,
                                              buf: seq<byte>, pos: nat)
    requires HaveSchemas(ts, os) && HaveSchemas(ts, vs) && Enumerates(order) && At(buf, pos, BytesOfFields(order, at, from, ts, vs))
    ensures FieldsBack(ts, os, vs, buf, pos, pos + |BytesOfFields(order, at, from, ts, vs)|)
    decreases ts, 1
  {
    if ts != [] {
      FieldsAt(order, at, from, ts, vs, buf, pos);
      var mid := pos + |Bytes(order, at + [from], ts[0], vs[0])|;
      ParseBytesOfField(order, at + [from], ts[0], os[0], vs[0], buf, pos);
      ParseBytesOfFields(order, at, from + 1, ts[1..], os[1..], vs[1..], buf, mid);
      FieldsBackStep(ts, os, vs, buf, pos, mid, pos + |BytesOfFields(order, at, from, ts, vs)|);
    }
  }

  lemma ParseBytesOfField(order: Order, at: seq<nat>, t: Schema, o: Value, v: Value, buf: seq<byte>, pos: nat)
    requires HasSchema(t, o) && HasSchema(t, v) && Enumerates(order) && At(buf, pos, Bytes(order, at, t, v))
    ensures FieldBack(t, o, v, buf, pos, pos + |Bytes(order, at, t, v)|)
    decreases t, 3
  {
    ParseBytes(order, at, t, o, v, buf, pos);
  }

  ghost predicate FieldBack(t: Schema, o: Value, v: Value, buf: seq<byte>, pos: nat, end: nat)
  {
    HasSchema(t, o) && HasSchema(t, v) && Parse(t, o, buf, pos) == Some((Merged(t, o, v), end))
  }

  ghost predicate FieldsBack(ts: seq<Schema>, os: seq<Value>, vs: seq<Value>, buf: seq<byte>, pos: nat, end: nat)
  {
    HaveSchemas(ts, os) && HaveSchemas(ts, vs) && ParseFields(ts, os, buf, pos) == Some((MergedFields(ts, os, vs), end))
  }

  lemma FieldsBackStep(ts: seq<Schema>, os: seq<Value>, vs: seq<Value>, buf: seq<byte>, pos: nat, mid: nat, end: nat)
    requires HaveSchemas(ts, os) && HaveSchemas(ts, vs) && ts != []
    requires FieldBack(ts[0], os[0], vs[0], buf, pos, mid) && FieldsBack(ts[1..], os[1..], vs[1..], buf, mid, end)
    ensures FieldsBack(ts, os, vs, buf, pos, end)
  {
    ParseFieldsStep(ts, os, buf, pos, Merged(ts[0], os[0], vs[0]), mid, MergedFields(ts[1..], os[1..], vs[1..]), end);
  }

  lemma FieldsBytes(order: Order, at: seq<nat>, from: nat, ts: seq<Schema>, vs: seq<Value>)
    requires HaveSchemas(ts, vs) && Enumerates(order) && ts != []
    ensures HasSchema(ts[0], vs[0]) && HaveSchemas(ts[1..], vs[1..])
    ensures BytesOfFields(order, at, from, ts, vs) == Bytes(order, at + [from], ts[0], vs[0]) + BytesOfFields(order, at, from + 1, ts[1..], vs[1..])
  {}

  lemma {:induction false} FieldsAt(order: Order, at: seq<nat>, from: nat, ts: seq<Schema>, vs: seq<Value>, buf: seq<byte>, pos: nat)
    requires HaveSchemas(ts, vs) && Enumerates(order) && ts != [] && At(buf, pos, BytesOfFields(order, at, from, ts, vs))
    ensures HasSchema(ts[0], vs[0]) && HaveSchemas(ts[1..], vs[1..])
    ensures var bs, rest := Bytes(order, at + [from], ts[0], vs[0]), BytesOfFields(order, at, from + 1, ts[1..], vs[1..]);
      At(buf, pos, bs) && At(buf, pos + |bs|, rest) && |BytesOfFields(order, at, from, ts, vs)| == |bs| + |rest|
  {
    AtSplit(buf, pos, Bytes(order, at + [from], ts[0], vs[0]), BytesOfFields(order, at, from + 1, ts[1..], vs[1..]));
  }

  lemma ParseFieldsStep(ts: seq<Schema>, os: seq<Value>, buf: seq<byte>, pos: nat, v: Value, mid: nat, vs: seq<Value>, end: nat)
    requires ts != [] && os != []
    requires Parse(ts[0], os[0], buf, pos) == Some((v, mid)) && ParseFields(ts[1..], os[1..], buf, mid) == Some((vs, end))
    ensures ParseFields(ts, os, buf, pos) == Some(([v] + vs, end))
  {}

  lemma ContainerBytes(order: Order, at: seq<nat>, kind: Kind, elem: Schema, v: Value)
    requires HasSchema(Container(kind, elem), v) && Enumerates(order)
    ensures Contained(kind, v) && AllHave(elem, Elements(order, at, kind, v)) && |Elements(order, at, kind, v)| < Pow256(SIZE_T)
    ensures var xs := Elements(order, at, kind, v);
      && Bytes(order, at, Container(kind, elem), v) == LittleEndian(|xs|, SIZE_T) + BytesOfAll(order, at, 0, elem, xs)
      && |Bytes(order, at, Container(kind, elem), v)| == SIZE_T + |BytesOfAll(order, at, 0, elem, xs)|
  {
    ElementsHave(order, at, kind, elem, v);
  }

  lemma ParseIntoStep(kind: Kind, elem: Schema, buf: seq<byte>, pos: nat, n: nat, data: Value, e: Value, mid: nat)
    requires n > 0 && Parse(elem, Fresh(elem), buf, pos) == Some((e, mid))
    ensures ParseInto(kind, elem, buf, pos, n, data) == ParseInto(kind, elem, buf, mid, n - 1, Inserted(kind, data, e))
  {}

  lemma {:induction false} AllAt(order: Order, at: seq<nat>, from: nat, t: Schema, vs: seq<Value>, buf: seq<byte>, pos: nat)
    requires AllHave(t, vs) && Enumerates(order) && vs != [] && At(buf, pos, BytesOfAll(order, at, from, t, vs))
    ensures HasSchema(t, vs[0]) && AllHave(t, vs[1..])
    ensures var bs, rest := Bytes(order, at + [from], t, vs[0]), BytesOfAll(order, at, from + 1, t, vs[1..]);
      At(buf, pos, bs) && At(buf, pos + |bs|, rest) && |BytesOfAll(order, at, from, t, vs)| == |bs| + |rest|
  {
    AtSplit(buf, pos, Bytes(order, at + [from], t, vs[0]), BytesOfAll(order, at, from + 1, t, vs[1..]));
  }

  lemma {:induction false} ParseBytesOfAll(order: Order, at: seq<nat>, from: nat, kind: Kind, t: Schema, vs: seq<Value>,
                                           buf: seq<byte>, pos: nat, data: Value)
    requires AllHave(t, vs) && Enumerates(order) && At(buf, pos, BytesOfAll(order, at, from, t, vs))
    ensures ParseInto(kind, t, buf, pos, |vs|, data) == Some((InsertAll(kind, data, vs), pos + |BytesOfAll(order, at, from, t, vs)|))
    decreases t, 4, |vs|
  {
    if vs != [] {
      AllAt(order, at, from, t, vs, buf, pos);
      var bs := Bytes(order, at + [from], t, vs[0]);
      ParseFresh(order, at + [from], t, vs[0], buf, pos);
      ParseBytesOfAll(order, at, from + 1, kind, t, vs[1..], buf, pos + |bs|, Inserted(kind, data, vs[0]));
      ParseIntoStep(kind, t, buf, pos, |vs|, data, vs[0], pos + |bs|);
    }
  }

  // ----- the wire format -----

  /** No value's bytes are another's, or start another's: an archive can be read in one way only, whatever the iteration
      orders it was written in. */
  lemma UniquelyDecodable(order: Order, order': Order, at: seq<nat>, at': seq<nat>, t: Schema, v: Value, w: Value)
    requires HasSchema(t, v) && HasSchema(t, w) && Enumerates(order) && Enumerates(order')
    requires Bytes(order, at, t, v) <= Bytes(order', at', t, w)
    ensures v == w
  {
    var buf := Bytes(order', at', t, w);
    ParseFresh(order, at, t, v, buf, 0);
    ParseFresh(order', at', t, w, buf, 0);
  }

  /** The format by example: numbers are little-endian in their width. */
  lemma NumberFormat(order: Order, at: seq<nat>)
    requires Enumerates(order)
    ensures HasSchema(Arith(2), Num(0x1234)) && Bytes(order, at, Arith(2), Num(0x1234)) == [0x34, 0x12]
  {
    assert Pow256(2) == 256 * Pow256(1) && Pow256(1) == 256 * Pow256(0);
    assert LittleEndian(0x12, 1) == [0x12] + LittleEndian(0, 0);
  }

  /** A value that is there has the presence byte one in front, one that is not is the byte zero. */
  lemma NillableFormat(order: Order, at: seq<nat>, inner: Schema, v: Value)
    requires Enumerates(order) && HasSchema(inner, v)
    ensures Bytes(order, at, Nillable(inner), Nil) == [0]
    ensures Bytes(order, at, Nillable(inner), Just(v)) == [1] + Bytes(order, at + [0], inner, v)
  {}

  /** Members follow each other in order, without padding. */
  lemma RecordFormat(order: Order, at: seq<nat>, t: Schema, u: Schema, v: Value, w: Value)
    requires Enumerates(order) && HasSchema(t, v) && HasSchema(u, w)
    ensures HasSchema(Record([t, u]), Fields([v, w]))
    ensures Bytes(order, at, Record([t, u]), Fields([v, w])) == Bytes(order, at + [0], t, v) + Bytes(order, at + [1], u, w)
  {
    var ts, vs := [t, u], [v, w];
    assert ts[1..] == [u] && vs[1..] == [w] && ts[1..][1..] == [] && vs[1..][1..] == [];
    assert HaveSchemas([], []) && HaveSchemas(ts[1..], vs[1..]) && HaveSchemas(ts, vs);
    assert BytesOfFields(order, at, 2, [], []) == [];
    assert BytesOfFields(order, at, 1, [u], [w]) == Bytes(order, at + [1], u, w) + [];
  }

  /** Eight bytes of length stand in front of the elements, which follow in order. */
  lemma VectorFormat(order: Order, at: seq<nat>, t: Schema, v: Value, w: Value)
    requires Enumerates(order) && HasSchema(t, v) && HasSchema(t, w)
    ensures HasSchema(Container(Vector, t), List([v, w]))
    ensures Bytes(order, at, Container(Vector, t), List([v, w]))
         == [2, 0, 0, 0, 0, 0, 0, 0] + (Bytes(order, at + [0], t, v) + Bytes(order, at + [1], t, w))
  {
    Pow256Values();
    SmallLittleEndian(2);
    var vs := [v, w];
    assert vs[1..] == [w] && [w][1..] == [];
    assert BytesOfAll(order, at, 1, t, [w]) == Bytes(order, at + [1], t, w) + [];
  }

  lemma SmallLittleEndian(n: nat)
    requires n < 256
    ensures LittleEndian(n, 8) == [n, 0, 0, 0, 0, 0, 0, 0]
  {
    assert LittleEndian(0, 1) == [0] + LittleEndian(0, 0);
    assert LittleEndian(0, 2) == [0] + LittleEndian(0, 1);
    assert LittleEndian(0, 3) == [0] + LittleEndian(0, 2);
    assert LittleEndian(0, 4) == [0] + LittleEndian(0, 3);
    assert LittleEndian(0, 5) == [0] + LittleEndian(0, 4);
    assert LittleEndian(0, 6) == [0] + LittleEndian(0, 5);
    assert LittleEndian(0, 7) == [0] + LittleEndian(0, 6);
  }

  // ----- Forward -----

  /** `bs` was written at `pos`, and nothing else changed. */
  ghost predicate Wrote(before: seq<byte>, after: seq<byte>, pos: nat, bs: seq<byte>)
  {
    && pos + |bs| <= |before| == |after| && after[pos..pos + |bs|] == bs
    && forall k :: 0 <= k < |after| && !(pos <= k < pos + |bs|) ==> after[k] == before[k]
  }

  lemma WroteThen(a: seq<byte>, b: seq<byte>, c: seq<byte>, pos: nat, bs: seq<byte>, cs: seq<byte>)
    requires Wrote(a, b, pos, bs) && Wrote(b, c, pos + |bs|, cs)
    ensures Wrote(a, c, pos, bs + cs)
  {
    assert c[pos..pos + |bs|] == b[pos..pos + |bs|];
    assert c[pos..pos + |bs + cs|] == c[pos..pos + |bs|] + c[pos + |bs|..pos + |bs| + |cs|];
  }

  lemma {:induction false} BytesOfOneMore(order: Order, at: seq<nat>, from: nat, t: Schema, vs: seq<Value>, i: nat)
    requires i < |vs| && AllHave(t, vs) && Enumerates(order)
    ensures BytesOfAll(order, at, from, t, vs[..i + 1]) == BytesOfAll(order, at, from, t, vs[..i]) + Bytes(order, at + [from + i], t, vs[i])
    decreases i
  {
    if i == 0 {
      BytesOfFirst(order, at, from, t, vs);
    } else {
      BytesOfOneMore(order, at, from + 1, t, vs[1..], i - 1);
      assert vs[..i + 1][1..] == vs[1..][..i] && vs[..i][1..] == vs[1..][..i - 1];
      Regrouped(Bytes(order, at + [from], t, vs[0]), BytesOfAll(order, at, from + 1, t, vs[1..][..i - 1]),
                Bytes(order, at + [from + i], t, vs[i]));
    }
  }

  lemma BytesOfFirst(order: Order, at: seq<nat>, from: nat, t: Schema, vs: seq<Value>)
    requires vs != [] && AllHave(t, vs) && Enumerates(order)
    ensures BytesOfAll(order, at, from, t, vs[..1]) == BytesOfAll(order, at, from, t, vs[..0]) + Bytes(order, at + [from], t, vs[0])
  {
    var bs := Bytes(order, at + [from], t, vs[0]);
    assert vs[..1][1..] == [] && vs[..0] == [];
    assert bs + [] == bs && [] + bs == bs;
  }

  lemma Regrouped<A>(xs: seq<A>, ys: seq<A>, zs: seq<A>)
    ensures xs + (ys + zs) == (xs + ys) + zs
  {}

  lemma {:induction false} BytesOfPrefix(order: Order, at: seq<nat>, from: nat, t: Schema, vs: seq<Value>, i: nat)
    requires i <= |vs| && AllHave(t, vs) && Enumerates(order)
    ensures |BytesOfAll(order, at, from, t, vs[..i])| <= |BytesOfAll(order, at, from, t, vs)|
    decreases |vs| - i
  {
    if i == |vs| {
      assert vs[..i] == vs;
    } else {
      BytesOfOneMore(order, at, from, t, vs, i);
      BytesOfPrefix(order, at, from, t, vs, i + 1);
    }
  }

  lemma {:induction false} NextFits(order: Order, at: seq<nat>, from: nat, t: Schema, vs: seq<Value>, i: nat)
    requires i < |vs| && AllHave(t, vs) && Enumerates(order)
    ensures |BytesOfAll(order, at, from, t, vs[..i])| + |Bytes(order, at + [from + i], t, vs[i])|
         == |BytesOfAll(order, at, from, t, vs[..i + 1])| <= |BytesOfAll(order, at, from, t, vs)|
  {
    BytesOfOneMore(order, at, from, t, vs, i);
    BytesOfPrefix(order, at, from, t, vs, i + 1);
  }

  /** The first `i` elements are written, up to `end`. */
  ghost predicate WroteUpTo(order: Order, at: seq<nat>, t: Schema, vs: seq<Value>, i: nat, a: seq<byte>, b: seq<byte>, pos: nat, end: nat)
    requires i <= |vs| && AllHave(t, vs) && Enumerates(order)
  {
    var bs := BytesOfAll(order, at, 0, t, vs[..i]);
    end == pos + |bs| && Wrote(a, b, pos, bs)
  }

  lemma {:induction false} WroteOneMore(order: Order, at: seq<nat>, t: Schema, vs: seq<Value>, i: nat,
                                        a: seq<byte>, b: seq<byte>, c: seq<byte>, pos: nat, end: nat)
    requires i < |vs| && AllHave(t, vs) && Enumerates(order) && WroteUpTo(order, at, t, vs, i, a, b, pos, end)
    requires Wrote(b, c, end, Bytes(order, at + [i], t, vs[i]))
    ensures WroteUpTo(order, at, t, vs, i + 1, a, c, pos, end + |Bytes(order, at + [i], t, vs[i])|)
  {
    WroteThen(a, b, c, pos, BytesOfAll(order, at, 0, t, vs[..i]), Bytes(order, at + [i], t, vs[i]));
    BytesOfOneMore(order, at, 0, t, vs, i);
  }

  lemma {:induction false} WroteNothing(order: Order, at: seq<nat>, t: Schema, vs: seq<Value>, a: seq<byte>, pos: nat)
    requires AllHave(t, vs) && Enumerates(order) && pos <= |a|
    ensures WroteUpTo(order, at, t, vs, 0, a, a, pos, pos)
  {}

  /** Native-endian dump of a number. */
  method Dump(n: nat, size: nat, buf: array<byte>, pos: nat) returns (end: nat)
    requires pos + size <= buf.Length
    modifies buf
    ensures end == pos + size
    ensures Wrote(old(buf[..]), buf[..], pos, LittleEndian(n, size))
  {
    var bs := LittleEndian(n, size);
    for i := 0 to size
      invariant forall k :: 0 <= k < buf.Length ==> buf[k] == if pos <= k < pos + i then bs[k - pos] else old(buf[k])
    {
      buf[pos + i] := bs[i];
    }
    end := pos + size;
    assert buf[..][pos..pos + |bs|] == bs;
  }

  method Put(order: Order, at: seq<nat>, t: Schema, v: Value, buf: array<byte>, pos: nat) returns (end: nat)
    requires HasSchema(t, v) && Enumerates(order)
    requires pos + |Bytes(order, at, t, v)| <= buf.Length
    modifies buf
    ensures end == pos + |Bytes(order, at, t, v)|
    ensures Wrote(old(buf[..]), buf[..], pos, Bytes(order, at, t, v))
    decreases t, 2
  {
    match t {
      case Arith(size) =>
        end := Dump(v.n, size, buf, pos);
      case Nillable(inner) =>
        end := PutNillable(order, at, inner, v, buf, pos);
      case Record(fields) =>
        end := PutFields(order, at, 0, fields, v.vs, buf, pos);
      case Container(kind, elem) =>
        ElementsHave(order, at, kind, elem, v);
        ghost var a := buf[..];
        var xs := Elements(order, at, kind, v);
        end := Dump(|xs|, SIZE_T, buf, pos);
        ghost var b := buf[..];
        end := PutAll(order, at, elem, xs, buf, end);
        WroteThen(a, b, buf[..], pos, LittleEndian(|xs|, SIZE_T), BytesOfAll(order, at, 0, elem, xs));
    }
  }

  method PutNillable(order: Order, at: seq<nat>, inner: Schema, v: Value, buf: array<byte>, pos: nat) returns (end: nat)
    requires HasSchema(Nillable(inner), v) && Enumerates(order)
    requires pos + |Bytes(order, at, Nillable(inner), v)| <= buf.Length
    modifies buf
    ensures end == pos + |Bytes(order, at, Nillable(inner), v)|
    ensures Wrote(old(buf[..]), buf[..], pos, Bytes(order, at, Nillable(inner), v))
    decreases inner, 3
  {
    ghost var a := buf[..];
    buf[pos] := if v.Nil? then 0 else 1;
    end := pos + 1;
    ghost var b := buf[..];
    assert Wrote(a, b, pos, [if v.Nil? then 0 else 1]);
    if !v.Nil? {
      end := Put(order, at + [0], inner, v.v, buf, end);
      WroteThen(a, b, buf[..], pos, [1], Bytes(order, at + [0], inner, v.v));
    }
  }

  method PutFields(order: Order, at: seq<nat>, from: nat, ts: seq<Schema>, vs: seq<Value>, buf: array<byte>, pos: nat) returns (end: nat)
    requires HaveSchemas(ts, vs) && Enumerates(order)
    requires pos + |BytesOfFields(order, at, from, ts, vs)| <= buf.Length
    modifies buf
    ensures end == pos + |BytesOfFields(order, at, from, ts, vs)|
    ensures Wrote(old(buf[..]), buf[..], pos, BytesOfFields(order, at, from, ts, vs))
    decreases ts, 1
  {
    end := pos;
    if ts != [] {
      FieldsBytes(order, at, from, ts, vs);
      ghost var a := buf[..];
      end := Put(order, at + [from], ts[0], vs[0], buf, end);
      ghost var b := buf[..];
      end := PutFields(order, at, from + 1, ts[1..], vs[1..], buf, end);
      WroteThen(a, b, buf[..], pos, Bytes(order, at + [from], ts[0], vs[0]), BytesOfFields(order, at, from + 1, ts[1..], vs[1..]));
    }
  }

  method PutAll(order: Order, at: seq<nat>, t: Schema, vs: seq<Value>, buf: array<byte>, pos: nat) returns (end: nat)
    requires AllHave(t, vs) && Enumerates(order)
    requires pos + |BytesOfAll(order, at, 0, t, vs)| <= buf.Length
    modifies buf
    ensures end == pos + |BytesOfAll(order, at, 0, t, vs)|
    ensures Wrote(old(buf[..]), buf[..], pos, BytesOfAll(order, at, 0, t, vs))
    decreases t, 3, |vs|
  {
    end := pos;
    ghost var a := buf[..];
    WroteNothing(order, at, t, vs, a, pos);
    for i := 0 to |vs|
      invariant WroteUpTo(order, at, t, vs, i, a, buf[..], pos, end)
    {
      ghost var b, mid := buf[..], end;
      NextFits(order, at, 0, t, vs, i);
      end := Put(order, at + [i], t, vs[i], buf, end);
      WroteOneMore(order, at, t, vs, i, a, b, buf[..], pos, mid);
    }
    assert vs[..|vs|] == vs;
  }

  // ----- Backward -----

  method Get(t: Schema, o: Value, buf: array<byte>, pos: nat) returns (r: Option<(Value, nat)>)
    requires HasSchema(t, o)
    ensures r == Parse(t, o, buf[..], pos)
    decreases t, 2
  {
    match t {
      case Arith(size) =>
        if pos + size > buf.Length { return None; }
        return Some((Num(Load(buf[pos..pos + size])), pos + size));
      case Nillable(inner) =>
        if pos >= buf.Length { return None; }
        if buf[pos] == 0 { return Some((Nil, pos + 1)); }
        FreshHas(inner);
        var obj := Get(inner, Fresh(inner), buf, pos + 1);
        return if obj.None? then None else Some((Just(obj.value.0), obj.value.1));
      case Record(fields) =>
        var got := GetFields(fields, o.vs, buf, pos);
        return if got.None? then None else Some((Fields(got.value.0), got.value.1));
      case Container(kind, elem) =>
        if pos + SIZE_T > buf.Length { return None; }
        assert buf[..][pos..pos + SIZE_T] == buf[pos..pos + SIZE_T];
        r := GetAll(kind, elem, o, buf, pos + SIZE_T, Load(buf[pos..pos + SIZE_T]));
    }
  }

  method GetFields(ts: seq<Schema>, os: seq<Value>, buf: array<byte>, pos: nat) returns (r: Option<(seq<Value>, nat)>)
    requires HaveSchemas(ts, os)
    ensures r == ParseFields(ts, os, buf[..], pos)
    decreases ts, 1
  {
    if ts == [] { return Some(([], pos)); }
    var first := Get(ts[0], os[0], buf, pos);
    if first.None? { return None; }
    var rest := GetFields(ts[1..], os[1..], buf, first.value.1);
    return if rest.None? then None else Some(([first.value.0] + rest.value.0, rest.value.1));
  }

  method GetAll(kind: Kind, elem: Schema, o: Value, buf: array<byte>, pos: nat, n: nat) returns (r: Option<(Value, nat)>)
    ensures r == ParseInto(kind, elem, buf[..], pos, n, o)
    decreases elem, 3, n
  {
    var data, cur := o, pos;
    FreshHas(elem);
    for i := 0 to n
      invariant ParseInto(kind, elem, buf[..], pos, n, o) == ParseInto(kind, elem, buf[..], cur, n - i, data)
    {
      var e := Get(elem, Fresh(elem), buf, cur);
      if e.None? { return None; }
      data, cur := Inserted(kind, data, e.value.0), e.value.1;
    }
    return Some((data, cur));
  }

  /** Whatever was in the buffer, reading what `Put` wrote into an object adds the value to it, gives the value back if
      the object was default-constructed, and stops where `Put` stopped. */
  method RoundTrip(order: Order, t: Schema, o: Value, v: Value, buf: array<byte>, pos: nat)
    returns (r: Option<(Value, nat)>, end: nat)
    requires HasSchema(t, o) && HasSchema(t, v) && Enumerates(order)
    requires pos + |Bytes(order, [], t, v)| <= buf.Length
    modifies buf
    ensures r == Some((Merged(t, o, v), end)) && end == pos + |Bytes(order, [], t, v)|
    ensures o == Fresh(t) ==> r == Some((v, end))
  {
    end := Put(order, [], t, v, buf, pos);
    ghost var bs := Bytes(order, [], t, v);
    assert buf[..][pos..pos + |bs|] == bs;
    r := Get(t, o, buf, pos);
    ParseBytes(order, [], t, o, v, buf[..], pos);
    MergedFresh(t, v);
  }

  // ----- count -----

  /** `count`: the walk of `Forward`, adding up sizes instead of writing. */
  method CountOf(order: Order, at: seq<nat>, t: Schema, v: Value) returns (bcount: nat)
    requires HasSchema(t, v) && Enumerates(order)
    ensures bcount == |Bytes(order, at, t, v)|
    decreases t, 2
  {
    match t {
      case Arith(size) =>
        bcount := size;
      case Nillable(inner) =>
        if v.Nil? { return 1; }
        bcount := CountOf(order, at + [0], inner, v.v);
        bcount := 1 + bcount;
      case Record(fields) =>
        bcount := CountOfFields(order, at, 0, fields, v.vs);
      case Container(kind, elem) =>
        ElementsHave(order, at, kind, elem, v);
        bcount := CountOfAll(order, at, elem, Elements(order, at, kind, v));
        bcount := SIZE_T + bcount;
    }
  }

  method CountOfFields(order: Order, at: seq<nat>, from: nat, ts: seq<Schema>, vs: seq<Value>) returns (bcount: nat)
    requires HaveSchemas(ts, vs) && Enumerates(order)
    ensures bcount == |BytesOfFields(order, at, from, ts, vs)|
    decreases ts, 1
  {
    if ts == [] { return 0; }
    var first := CountOf(order, at + [from], ts[0], vs[0]);
    var rest := CountOfFields(order, at, from + 1, ts[1..], vs[1..]);
    bcount := first + rest;
  }

  method CountOfAll(order: Order, at: seq<nat>, t: Schema, vs: seq<Value>) returns (bcount: nat)
    requires AllHave(t, vs) && Enumerates(order)
    ensures bcount == |BytesOfAll(order, at, 0, t, vs)|
    decreases t, 3, |vs|
  {
    bcount := 0;
    for i := 0 to |vs|
      invariant bcount == |BytesOfAll(order, at, 0, t, vs[..i])|
    {
      BytesOfOneMore(order, at, 0, t, vs, i);
      var sz := CountOf(order, at + [i], t, vs[i]);
      bcount := bcount + sz;
    }
    assert vs[..|vs|] == vs;
  }

  // ----- the integrity envelope -----

  const HASH_SZ: nat := 8

  /** A hash in front of the data it was computed from. */
  function Sealed(data: seq<byte>): (bs: seq<byte>)
    ensures |bs| == HASH_SZ + |data|
  {
    LittleEndian(Hash(data), HASH_SZ) + data
  }

  /** What `integrity_deserialize` checks before it reads the data. */
  predicate Intact(bs: seq<byte>)
  {
    |bs| >= HASH_SZ && Hash(bs[HASH_SZ..]) == Load(bs[..HASH_SZ])
  }

  lemma SealedIsIntact(data: seq<byte>)
    ensures Intact(Sealed(data))
  {
    var bs := Sealed(data);
    HashFits(data);
    Pow256Values();
    LoadDump(Hash(data), HASH_SZ);
    assert bs[..HASH_SZ] == LittleEndian(Hash(data), HASH_SZ) && bs[HASH_SZ..] == data;
  }

  lemma SealedHolds(data: seq<byte>)
    ensures At(Sealed(data), HASH_SZ, data)
  {
    assert Sealed(data)[HASH_SZ..HASH_SZ + |data|] == data;
  }

  /** Any one byte of a sealed buffer changed, in the hash or in the data, is noticed. */
  lemma ChangedByteIsNoticed(data: seq<byte>, i: nat, b: byte)
    requires i < |Sealed(data)| && Sealed(data)[i] != b
    ensures !Intact(Sealed(data)[i := b])
  {
    var bs := Sealed(data);
    var cs := bs[i := b];
    SealedIsIntact(data);
    if i < HASH_SZ {
      assert cs[HASH_SZ..] == bs[HASH_SZ..];
      assert cs[..HASH_SZ][i] != bs[..HASH_SZ][i];
      if Load(cs[..HASH_SZ]) == Load(bs[..HASH_SZ]) {
        LoadInjective(cs[..HASH_SZ], bs[..HASH_SZ]);
      }
    } else {
      assert cs[..HASH_SZ] == bs[..HASH_SZ];
      assert bs[HASH_SZ..] == data && cs[HASH_SZ..] == data[i - HASH_SZ := b];
      HashDetectsByteChange(data, i - HASH_SZ, b);
    }
  }

  datatype Outcome = Corrupted | PastEnd | Read(v: Value, end: nat)

  lemma WroteBefore(a: seq<byte>, b: seq<byte>, c: seq<byte>, bs: seq<byte>, hs: seq<byte>)
    requires Wrote(a, b, |hs|, bs) && Wrote(b, c, 0, hs)
    ensures Wrote(a, c, 0, hs + bs)
  {
    assert b[|hs|..] == bs + a[|hs| + |bs|..];
    assert b[..0] + hs + (bs + a[|hs| + |bs|..]) == a[..0] + (hs + bs) + a[|hs| + |bs|..];
  }

  method IntegritySerialize(order: Order, t: Schema, v: Value, buf: array<byte>) returns (ebuf: nat)
    requires HasSchema(t, v) && Enumerates(order)
    requires HASH_SZ + |Bytes(order, [], t, v)| <= buf.Length
    modifies buf
    ensures ebuf == HASH_SZ + |Bytes(order, [], t, v)|
    ensures Wrote(old(buf[..]), buf[..], 0, Sealed(Bytes(order, [], t, v)))
  {
    ghost var a := buf[..];
    ghost var bs := Bytes(order, [], t, v);
    ebuf := Put(order, [], t, v, buf, HASH_SZ);
    ghost var b := buf[..];
    var hashed := ComputeHash(buf, HASH_SZ, ebuf - HASH_SZ);
    assert buf[HASH_SZ..ebuf] == bs;
    var _ := Dump(hashed, HASH_SZ, buf, 0);
    WroteBefore(a, b, buf[..], bs, LittleEndian(hashed, HASH_SZ));
  }

  method IntegrityDeserialize(t: Schema, o: Value, buf: array<byte>) returns (r: Outcome)
    requires HasSchema(t, o)
    ensures r == Corrupted <==> !Intact(buf[..])
    ensures Intact(buf[..]) ==>
      match Parse(t, o, buf[..], HASH_SZ)
      case None => r == PastEnd
      case Some(got) => r == Read(got.0, got.1)
  {
    if buf.Length < HASH_SZ { return Corrupted; }
    assert buf[..][HASH_SZ..] == buf[HASH_SZ..buf.Length] && buf[..][..HASH_SZ] == buf[..HASH_SZ];
    var hash := ComputeHash(buf, HASH_SZ, buf.Length - HASH_SZ);
    if hash != Load(buf[..HASH_SZ]) { return Corrupted; }
    var got := Get(t, o, buf, HASH_SZ);
    return if got.None? then PastEnd else Read(got.value.0, got.value.1);
  }

  /** A sealed value is read back whole; with one byte of the buffer changed it is reported corrupt. */
  lemma IntegrityRoundTrip(order: Order, t: Schema, o: Value, v: Value)
    requires HasSchema(t, o) && HasSchema(t, v) && Enumerates(order)
    ensures Intact(Sealed(Bytes(order, [], t, v)))
    ensures Parse(t, o, Sealed(Bytes(order, [], t, v)), HASH_SZ) == Some((Merged(t, o, v), |Sealed(Bytes(order, [], t, v))|))
  {
    var data := Bytes(order, [], t, v);
    SealedIsIntact(data);
    SealedHolds(data);
    ParseBytes(order, [], t, o, v, Sealed(data), HASH_SZ);
  }
}
