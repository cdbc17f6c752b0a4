/** The type-indexed marshalling table of luna2d/lua/luastack.h: for every
    native type the engine exchanges with scripts, how a value of that type
    is pushed onto the Lua stack and how one is read back ("popped") from a
    stack index. The C++ template argument `T` of `LuaStack<T>` is the
    `NativeType` descriptor here; `Push` and `Pop` dispatch on it. */
module LuaStack {
  import opened Wrappers
  import opened LuaValues
  import opened CInts

  /** The conversion of a Lua integer to a 32-bit C `int` (modular). */
  function WrapInt32(i: int): (r: int)
    ensures IsInt32(r)
    ensures (i - r) % UINT32_LIMIT == 0
    ensures IsInt32(i) ==> r == i
  {
    (i - INT32_MIN) % UINT32_LIMIT + INT32_MIN
  }

  /** The conversion of a Lua integer to a 32-bit C `unsigned int`. */
  function WrapUint32(i: int): (r: int)
    ensures 0 <= r < UINT32_LIMIT
    ensures (i - r) % UINT32_LIMIT == 0
    ensures 0 <= i < UINT32_LIMIT ==> r == i
  {
    i % UINT32_LIMIT
  }

  /** The kinds a Qt `QVariant` can hold, as far as the bridge cares. */
  datatype QVariant =
    | QInvalid
    | QBool(b: bool)
    | QInt(i: int)
    | QDouble(x: real)
    | QFloat(x: real)
    | QText(s: string)
    | QOther(typeId: nat)

  /** The native types with a `LuaStack<T>` specialisation. */
  datatype NativeType =
    | IntT
    | UnsignedT
    | FloatT
    | BoolT
    | StringT
    | CharPtrT
    | CFunctionT
    | LightUserdataT
    | ConstRefT(base: NativeType)
    | VectorT(elem: NativeType)
    | MapT(elem: NativeType)
    | SetT(elem: NativeType)
    | QStringT
    | QVariantT

  /** Native values. A `const char*` may be null (`None`). An unordered set
      is given by its iteration order, which the container fixes and the
      bridge does not choose. */
  datatype NativeValue =
    | IntV(i: int)
    | UnsignedV(u: int)
    | FloatV(x: real)
    | BoolV(b: bool)
    | StringV(s: string)
    | CharPtrV(p: Option<string>)
    | CFunctionV(fn: nat)
    | LightUserdataV(address: nat)
    | VectorV(items: seq<NativeValue>)
    | MapV(entries: map<string, NativeValue>)
    | SetV(items: seq<NativeValue>)
    | QStringV(s: string)
    | QVariantV(q: QVariant)

  predicate Distinct<T(==)>(s: seq<T>) {
    forall i, j :: 0 <= i < j < |s| ==> s[i] != s[j]
  }

  /** A native value inhabits a native type (C++ typing, including the
      32-bit ranges of `int` and `unsigned int`). */
  predicate HasType(v: NativeValue, t: NativeType)
    decreases t
  {
    match t
    case IntT => v.IntV? && IsInt32(v.i)
    case UnsignedT => v.UnsignedV? && 0 <= v.u < UINT32_LIMIT
    case FloatT => v.FloatV?
    case BoolT => v.BoolV?
    case StringT => v.StringV?
    case CharPtrT => v.CharPtrV?
    case CFunctionT => v.CFunctionV?
    case LightUserdataT => v.LightUserdataV?
    case ConstRefT(b) => HasType(v, b)
    case VectorT(e) => v.VectorV? && forall i :: 0 <= i < |v.items| ==> HasType(v.items[i], e)
    case MapT(e) => v.MapV? && forall k :: k in v.entries ==> HasType(v.entries[k], e)
    case SetT(e) => v.SetV? && Distinct(v.items) && forall i :: 0 <= i < |v.items| ==> HasType(v.items[i], e)
    case QStringT => v.QStringV?
    case QVariantT => v.QVariantV? && (v.q.QInt? ==> IsInt32(v.q.i))
  }

  /** The types whose specialisation has a `Pop` (the others only push). */
  predicate Poppable(t: NativeType) {
    match t
    case IntT => true
    case UnsignedT => true
    case FloatT => true
    case BoolT => true
    case StringT => true
    case QStringT => true
    case QVariantT => true
    case ConstRefT(b) => Poppable(b)
    case VectorT(e) => Poppable(e)
    case MapT(e) => Poppable(e)
    case _ => false
  }

  /** The types whose values survive a push followed by a pop unchanged. */
  predicate RoundTrips(t: NativeType) {
    match t
    case IntT => true
    case UnsignedT => true
    case FloatT => true
    case BoolT => true
    case StringT => true
    case QStringT => true
    case ConstRefT(b) => RoundTrips(b)
    case VectorT(e) => RoundTrips(e)
    case MapT(e) => RoundTrips(e)
    case _ => false
  }

  lemma {:induction false} RoundTripsIsPoppable(t: NativeType)
    requires RoundTrips(t)
    ensures Poppable(t)
  {
    match t
    case ConstRefT(b) => RoundTripsIsPoppable(b);
    case VectorT(e) => RoundTripsIsPoppable(e);
    case MapT(e) => RoundTripsIsPoppable(e);
    case _ =>
  }

  // ---------------------------------------------------------------------
  // Push

  /** The table a sequence of pushed values is stored into: value `i` at
      integer key `i + 1`; a nil value stores nothing. */
  function SeqFields(vals: seq<LuaValue>): (f: map<LuaValue, LuaValue>)
    ensures forall i :: 1 <= i <= |vals| ==> RawGet(f, IntKey(i)) == vals[i - 1]
    ensures forall k :: k in f ==> exists i :: 1 <= i <= |vals| && k == IntKey(i)
    ensures Nil !in f.Values
  {
    map i | 1 <= i <= |vals| && vals[i - 1] != Nil :: IntKey(i) := vals[i - 1]
  }

  /** What a sequence table holds under any key. */
  lemma SeqFieldsGet(vals: seq<LuaValue>, k: LuaValue)
    ensures RawGet(SeqFields(vals), k)
         == if k.Number? && k.n.Floor as real == k.n && 1 <= k.n.Floor <= |vals| then vals[k.n.Floor - 1] else Nil
  {
    var f := SeqFields(vals);
    if k in f {
      var i :| 1 <= i <= |vals| && k == IntKey(i);
      assert k.n.Floor == i;
    } else if k.Number? && k.n.Floor as real == k.n && 1 <= k.n.Floor <= |vals| {
      assert k == IntKey(k.n.Floor);
    }
  }

  /** Native string keys as Lua keys. */
  function StrKeys(keys: set<string>): (r: set<LuaValue>)
    ensures forall k :: k in r <==> k.Str? && k.s in keys
  {
    set s | s in keys :: Str(s)
  }

  /** The one Lua value `LuaStack<T>::Push` leaves on the stack. */
  function ToLua(t: NativeType, v: NativeValue): (r: LuaValue)
    requires HasType(v, t)
    ensures t.IntT? ==> r == Number(v.i as real)
    ensures t.UnsignedT? ==> r == Number(v.u as real)
    ensures t.FloatT? ==> r == Number(v.x)
    ensures t.CharPtrT? && v.p.Some? ==> r == Str(v.p.value)
    ensures t.CFunctionT? ==> r == CFunction(v.fn)
    ensures t.LightUserdataT? ==> r == LightUserdata(v.address)
    ensures t.BoolT? ==> r == Boolean(v.b)
    ensures t.StringT? || t.QStringT? ==> r == Str(v.s)
    ensures t.VectorT? || t.SetT? || t.MapT? ==> r.Table? && WellFormed(r.fields)
    ensures r == Nil <==> PushesNil(v)
    decreases t
  {
    match t
    case IntT => Number(v.i as real)
    case UnsignedT => Number(v.u as real)
    case FloatT => Number(v.x)
    case BoolT => Boolean(v.b)
    case StringT => Str(v.s)
    case CharPtrT => if v.p.None? then Nil else Str(v.p.value)
    case CFunctionT => CFunction(v.fn)
    case LightUserdataT => LightUserdata(v.address)
    case ConstRefT(b) => ToLua(b, v)
    case VectorT(e) => Table(SeqFields(seq(|v.items|, i requires 0 <= i < |v.items| => ToLua(e, v.items[i]))))
    case SetT(e) => Table(SeqFields(seq(|v.items|, i requires 0 <= i < |v.items| => ToLua(e, v.items[i]))))
    case MapT(e) =>
      Table(map k | k in StrKeys(v.entries.Keys) && ToLua(e, v.entries[k.s]) != Nil :: ToLua(e, v.entries[k.s]))
    case QStringT => Str(v.s)
    case QVariantT =>
      match v.q
      case QBool(b) => Boolean(b)
      case QInt(i) => Number(i as real)
      case QDouble(x) => Number(x)
      case QText(s) => Str(s)
      case _ => Nil
  }

  /** The native values with no Lua counterpart: a null `const char*` and
      a QVariant of a kind the bridge does not handle. */
  predicate PushesNil(v: NativeValue) {
    || (v.CharPtrV? && v.p.None?)
    || (v.QVariantV? && !(v.q.QBool? || v.q.QInt? || v.q.QDouble? || v.q.QText?))
  }

  /** The values the elements of a sequence push as, in order. */
  function ToLuaAll(e: NativeType, items: seq<NativeValue>): (r: seq<LuaValue>)
    requires forall i :: 0 <= i < |items| ==> HasType(items[i], e)
    ensures |r| == |items|
    ensures forall i :: 0 <= i < |items| ==> r[i] == ToLua(e, items[i])
  {
    seq(|items|, i requires 0 <= i < |items| => ToLua(e, items[i]))
  }

  /** The values the entries of a map push as, key by key. */
  function PushedEntries(e: NativeType, entries: map<string, NativeValue>): (r: map<string, LuaValue>)
    requires forall k :: k in entries ==> HasType(entries[k], e)
    ensures r.Keys == entries.Keys
    ensures forall k :: k in entries ==> r[k] == ToLua(e, entries[k])
  {
    map k | k in entries :: ToLua(e, entries[k])
  }

  /** The table that string-keyed values under the given keys are stored
      into: each key bound to its value, nil storing nothing. */
  function StrFields(vals: map<string, LuaValue>, keys: set<string>): (r: map<LuaValue, LuaValue>)
    requires keys <= vals.Keys
    ensures forall s :: s in keys ==> RawGet(r, Str(s)) == vals[s]
    ensures forall k :: k in r ==> k.Str? && k.s in keys
  {
    map k | k in StrKeys(keys) && vals[k.s] != Nil :: vals[k.s]
  }

  /** The table the entries of a map under the given keys are stored
      into: each string key bound to its pushed value, nil storing nothing. */
  function MapFields(e: NativeType, entries: map<string, NativeValue>, keys: set<string>): (r: map<LuaValue, LuaValue>)
    requires keys <= entries.Keys
    requires forall k :: k in entries ==> HasType(entries[k], e)
    ensures forall s :: s in keys ==> RawGet(r, Str(s)) == ToLua(e, entries[s])
    ensures forall k :: k in r ==> k.Str? && k.s in keys
  {
    StrFields(PushedEntries(e, entries), keys)
  }

  /** `LuaStack<T>::Push`: exactly one value is added on top, nothing
      below it changes. */
  function Push(st: Stack, t: NativeType, v: NativeValue): (r: Stack)
    requires HasType(v, t)
    ensures |r| == |st| + 1
    ensures r[..|st|] == st
    ensures r[|st|] == ToLua(t, v)
    ensures At(r, -1) == Some(ToLua(t, v))
  {
    st + [ToLua(t, v)]
  }

  // ---------------------------------------------------------------------
  // Scalar pops

  /** `LuaStack<int>::Pop`. */
  function PopInt(c: Coercion, v: Option<LuaValue>): (r: int)
    ensures IsInt32(r)
    ensures !IsNumber(c, v) ==> r == 0
    ensures IsNumber(c, v) ==> (r - Truncate(ToNumber(c, v))) % UINT32_LIMIT == 0
    ensures forall i :: IsInt32(i) && v == Some(IntKey(i)) ==> r == i
  {
    if !IsNumber(c, v) then 0 else WrapInt32(ToInteger(c, v))
  }

  /** `LuaStack<unsigned int>::Pop`. */
  function PopUnsigned(c: Coercion, v: Option<LuaValue>): (r: int)
    ensures 0 <= r < UINT32_LIMIT
    ensures !IsNumber(c, v) ==> r == 0
    ensures IsNumber(c, v) ==> (r - Truncate(ToNumber(c, v))) % UINT32_LIMIT == 0
    ensures forall u :: 0 <= u < UINT32_LIMIT && v == Some(IntKey(u)) ==> r == u
  {
    if !IsNumber(c, v) then 0 else WrapUint32(ToInteger(c, v))
  }

  /** `LuaStack<float>::Pop`. */
  function PopFloat(c: Coercion, v: Option<LuaValue>): (r: real)
    ensures !IsNumber(c, v) ==> r == 0.0
    ensures forall x :: v == Some(Number(x)) ==> r == x
    ensures forall s :: v == Some(Str(s)) && c.stringToNumber(s).Some? ==> r == c.stringToNumber(s).value
  {
    if !IsNumber(c, v) then 0.0 else ToNumber(c, v)
  }

  /** `LuaStack<bool>::Pop`: strict, only the boolean `true` reads as true. */
  function PopBool(v: Option<LuaValue>): (r: bool)
    ensures r <==> v == Some(Boolean(true))
  {
    if !IsBoolean(v) then false else ToBoolean(v)
  }

  /** `LuaStack<std::string>::Pop` (and the QString one): strings and
      numbers convert, everything else reads as the empty string. */
  function PopText(c: Coercion, v: Option<LuaValue>): (r: string)
    ensures !IsString(v) ==> r == ""
    ensures forall s :: v == Some(Str(s)) ==> r == s
    ensures forall x :: v == Some(Number(x)) ==> r == c.numberToString(x)
  {
    if !IsString(v) then "" else ToText(c, v)
  }

  // ---------------------------------------------------------------------
  // Pop

  /** The keys of a table that are strings, as native strings. */
  function StringKeys(f: map<LuaValue, LuaValue>): (r: set<string>)
    ensures forall s :: s in r <==> Str(s) in f
  {
    set k | k in f && k.Str? :: k.s
  }

  /** The values no pop accepts: an unacceptable index, nil, light
      userdata and functions. */
  predicate NoneAccept(v: Option<LuaValue>) {
    v.None? || v.value.Nil? || v.value.LightUserdata? || v.value.CFunction?
  }

  /** The value each pop falls back to on a mismatch: zero, false, the
      empty string, the empty container, the invalid QVariant. */
  function DefaultOf(t: NativeType): NativeValue
    requires Poppable(t)
  {
    match t
    case IntT => IntV(0)
    case UnsignedT => UnsignedV(0)
    case FloatT => FloatV(0.0)
    case BoolT => BoolV(false)
    case StringT => StringV("")
    case QStringT => QStringV("")
    case ConstRefT(b) => DefaultOf(b)
    case VectorT(_) => VectorV([])
    case MapT(_) => MapV(map[])
    case QVariantT => QVariantV(QInvalid)
  }

  /** The value `LuaStack<T>::Pop` returns for the Lua value at the index
      (None for an unacceptable index). It never fails: a mismatch gives
      the type's default. */
  function Decode(c: Coercion, t: NativeType, v: Option<LuaValue>): (r: NativeValue)
    requires Poppable(t)
    ensures HasType(r, t)
    ensures NoneAccept(v) ==> r == DefaultOf(t)
    ensures t.QVariantT? && !(v.Some? && (v.value.Boolean? || v.value.Number? || v.value.Str?)) ==> r == QVariantV(QInvalid)
    decreases t
  {
    match t
    case IntT => IntV(PopInt(c, v))
    case UnsignedT => UnsignedV(PopUnsigned(c, v))
    case FloatT => FloatV(PopFloat(c, v))
    case BoolT => BoolV(PopBool(v))
    case StringT => StringV(PopText(c, v))
    case QStringT => QStringV(PopText(c, v))
    case ConstRefT(b) => Decode(c, b, v)
    case VectorT(e) =>
      if !IsTable(v) then VectorV([])
      else
        var f := v.value.fields;
        var n := Border(f);
        VectorV(seq(n, i requires 0 <= i < n => Decode(c, e, Some(RawGet(f, IntKey(i + 1))))))
    case MapT(e) =>
      if !IsTable(v) then MapV(map[])
      else
        var f := v.value.fields;
        MapV(map k | k in StringKeys(f) :: Decode(c, e, Some(f[Str(k)])))
    case QVariantT =>
      match TypeOf(v)
      case TBoolean => QVariantV(QBool(PopBool(v)))
      case TNumber => QVariantV(QFloat(PopFloat(c, v)))
      case TString => QVariantV(QText(PopText(c, v)))
      case _ => QVariantV(QInvalid)
  }

  /** The elements read from keys 1..n of a table, in key order. */
  function DecodeRange(c: Coercion, e: NativeType, f: map<LuaValue, LuaValue>, n: nat): (r: seq<NativeValue>)
    requires Poppable(e)
    ensures |r| == n
    ensures forall i :: 0 <= i < n ==> r[i] == Decode(c, e, Some(RawGet(f, IntKey(i + 1))))
    ensures forall i :: 0 <= i < n ==> HasType(r[i], e)
  {
    seq(n, i requires 0 <= i < n => Decode(c, e, Some(RawGet(f, IntKey(i + 1)))))
  }

  /** Whether popping a `t` converts a number in place (`lua_tostring`). */
  predicate ConvertsInPlace(t: NativeType) {
    match t
    case StringT => true
    case QStringT => true
    case ConstRefT(b) => ConvertsInPlace(b)
    case _ => false
  }

  /** The result of `LuaStack<T>::Pop`: the value and the stack after it. */
  datatype Popped = Popped(value: NativeValue, stack: Stack)

  /** `LuaStack<T>::Pop`. Despite the name nothing is removed: the stack
      keeps its height, and only a string pop of a number changes anything,
      by turning that one slot into the string it read. */
  function Pop(c: Coercion, st: Stack, t: NativeType, index: int): (r: Popped)
    requires Poppable(t)
    ensures HasType(r.value, t)
    ensures |r.stack| == |st|
    ensures forall p :: 0 <= p < |st| && Slot(st, index) != Some(p) ==> r.stack[p] == st[p]
    ensures !ConvertsInPlace(t) ==> r.stack == st
    ensures ConvertsInPlace(t) && IsString(At(st, index)) ==> r.stack == AfterToText(c, st, index)
  {
    var v := At(st, index);
    Popped(Decode(c, t, v), if ConvertsInPlace(t) && IsString(v) then AfterToText(c, st, index) else st)
  }

  // ---------------------------------------------------------------------
  // Container push and pop, key by key

  /** The table pushed for a vector, set or map, in terms of its parts. */
  lemma ContainerPushFields(t: NativeType, v: NativeValue)
    requires HasType(v, t)
    ensures t.VectorT? || t.SetT? ==> ToLua(t, v) == Table(SeqFields(ToLuaAll(t.elem, v.items)))
    ensures t.MapT? ==> ToLua(t, v) == Table(MapFields(t.elem, v.entries, v.entries.Keys))
  {
    if t.MapT? {
      MapsAgree(ToLua(t, v).fields, MapFields(t.elem, v.entries, v.entries.Keys));
    }
  }

  /** Pushing a vector creates one table holding element `i` at key `i + 1`
      and nothing else (an element that pushes nil leaves a hole). */
  lemma VectorPushTable(e: NativeType, items: seq<NativeValue>)
    requires HasType(VectorV(items), VectorT(e))
    ensures ToLua(VectorT(e), VectorV(items)).Table?
    ensures var f := ToLua(VectorT(e), VectorV(items)).fields;
      && (forall i :: 1 <= i <= |items| ==> RawGet(f, IntKey(i)) == ToLua(e, items[i - 1]))
      && (forall k :: k in f ==> exists i :: 1 <= i <= |items| && k == IntKey(i))
  {
    ContainerPushFields(VectorT(e), VectorV(items));
  }

  /** Pushing a map creates one table whose keys are exactly the map's
      string keys (bar those whose value pushes nil), each bound to its
      pushed value. */
  lemma MapPushTable(e: NativeType, entries: map<string, NativeValue>)
    requires HasType(MapV(entries), MapT(e))
    ensures ToLua(MapT(e), MapV(entries)).Table?
    ensures var f := ToLua(MapT(e), MapV(entries)).fields;
      && (forall k :: k in f ==> k.Str? && k.s in entries)
      && (forall s :: s in entries ==> RawGet(f, Str(s)) == ToLua(e, entries[s]))
  {
    ContainerPushFields(MapT(e), MapV(entries));
    var f := ToLua(MapT(e), MapV(entries)).fields;
    forall s | s in entries
      ensures RawGet(f, Str(s)) == ToLua(e, entries[s])
    {
      if ToLua(e, entries[s]) != Nil {
        assert Str(s) in f;
      }
    }
  }

  /** Popping a vector: a non-table gives the empty vector; a table gives
      the elements read from keys 1..rawlen, in key order. */
  lemma VectorPopSpec(c: Coercion, e: NativeType, v: Option<LuaValue>)
    requires Poppable(e)
    ensures !IsTable(v) ==> Decode(c, VectorT(e), v) == VectorV([])
    ensures IsTable(v) ==> var f := v.value.fields;
      && |Decode(c, VectorT(e), v).items| == Border(f)
      && forall i :: 1 <= i <= Border(f) ==>
           Decode(c, VectorT(e), v).items[i - 1] == Decode(c, e, Some(RawGet(f, IntKey(i))))
  {
  }

  /** The vector popped from a table, in terms of its element reader. */
  lemma DecodeVectorRange(c: Coercion, e: NativeType, f: map<LuaValue, LuaValue>)
    requires Poppable(e)
    ensures Decode(c, VectorT(e), Some(Table(f))) == VectorV(DecodeRange(c, e, f, Border(f)))
  {
  }

  /** Popping a map: a non-table gives the empty map; a table gives exactly
      its string-keyed entries, each value read as an element. */
  lemma MapPopSpec(c: Coercion, e: NativeType, v: Option<LuaValue>)
    requires Poppable(e)
    ensures !IsTable(v) ==> Decode(c, MapT(e), v) == MapV(map[])
    ensures IsTable(v) ==> var f := v.value.fields; var m := Decode(c, MapT(e), v).entries;
      && (forall s :: s in m <==> Str(s) in f)
      && (forall s :: s in m ==> m[s] == Decode(c, e, Some(f[Str(s)])))
  {
  }

  // ---------------------------------------------------------------------
  // Properties

  /** A round-tripping type never pushes nil. */
  lemma {:induction false} RoundTripNeverNil(t: NativeType, v: NativeValue)
    requires RoundTrips(t) && HasType(v, t)
    ensures ToLua(t, v) != Nil
  {
    match t
    case ConstRefT(b) => RoundTripNeverNil(b, v);
    case _ =>
  }

  lemma SeqFieldsAt(vals: seq<LuaValue>, i: nat)
    requires i < |vals|
    ensures RawGet(SeqFields(vals), IntKey(i + 1)) == vals[i]
  {
  }

  /** A pushed sequence table reports exactly its length. */
  lemma SeqFieldsBorder(vals: seq<LuaValue>)
    requires forall i :: 0 <= i < |vals| ==> vals[i] != Nil
    ensures Border(SeqFields(vals)) == |vals|
  {
    var f := SeqFields(vals);
    var n := Border(f);
    assert IntKey(|vals| + 1) !in f;
    assert IntKey(n + 1) !in f;
    assert n >= |vals|;
    assert n <= |vals|;
  }

  /** Reading back what was pushed gives the original value. */
  lemma {:induction false} DecodeToLua(c: Coercion, t: NativeType, v: NativeValue)
    requires RoundTrips(t) && HasType(v, t)
    ensures Poppable(t)
    ensures Decode(c, t, Some(ToLua(t, v))) == v
    decreases t, 2
  {
    RoundTripsIsPoppable(t);
    match t
    case IntT =>
      assert Truncate(v.i as real) == v.i;
    case UnsignedT =>
      assert Truncate(v.u as real) == v.u;
    case ConstRefT(b) =>
      DecodeToLua(c, b, v);
    case VectorT(e) =>
      DecodeToLuaVector(c, e, v.items);
    case MapT(e) =>
      DecodeToLuaMap(c, e, v.entries);
    case _ =>
  }

  lemma {:induction false} DecodeToLuaVector(c: Coercion, e: NativeType, items: seq<NativeValue>)
    requires RoundTrips(e) && HasType(VectorV(items), VectorT(e))
    ensures Poppable(VectorT(e))
    ensures Decode(c, VectorT(e), Some(ToLua(VectorT(e), VectorV(items)))) == VectorV(items)
    decreases VectorT(e), 1
  {
    RoundTripsIsPoppable(e);
    var vals := ToLuaAll(e, items);
    var f := SeqFields(vals);
    ContainerPushFields(VectorT(e), VectorV(items));
    forall i | 0 <= i < |vals|
      ensures vals[i] != Nil
    {
      RoundTripNeverNil(e, items[i]);
    }
    SeqFieldsBorder(vals);
    DecodeVectorRange(c, e, f);
    DecodeRangeOfPushed(c, e, items);
  }

  lemma {:induction false} DecodeRangeOfPushed(c: Coercion, e: NativeType, items: seq<NativeValue>)
    requires RoundTrips(e) && HasType(VectorV(items), VectorT(e))
    ensures Poppable(e)
    ensures DecodeRange(c, e, SeqFields(ToLuaAll(e, items)), |items|) == items
    decreases VectorT(e), 0
  {
    RoundTripsIsPoppable(e);
    var vals := ToLuaAll(e, items);
    var d := DecodeRange(c, e, SeqFields(vals), |items|);
    forall i | 0 <= i < |items|
      ensures d[i] == items[i]
    {
      SeqFieldsAt(vals, i);
      DecodeToLua(c, e, items[i]);
    }
  }

  lemma {:induction false} DecodeToLuaMap(c: Coercion, e: NativeType, entries: map<string, NativeValue>)
    requires RoundTrips(e) && HasType(MapV(entries), MapT(e))
    ensures Poppable(MapT(e))
    ensures Decode(c, MapT(e), Some(ToLua(MapT(e), MapV(entries)))) == MapV(entries)
    decreases MapT(e), 1
  {
    RoundTripsIsPoppable(e);
    var m := Decode(c, MapT(e), Some(ToLua(MapT(e), MapV(entries)))).entries;
    MapRoundTripKeys(c, e, entries);
    forall k | k in entries
      ensures m[k] == entries[k]
    {
      DecodeToLuaMapEntry(c, e, entries, k);
    }
    MapsAgree(m, entries);
  }

  lemma MapsAgree<K, V>(m: map<K, V>, m': map<K, V>)
    requires m.Keys == m'.Keys
    requires forall k :: k in m' ==> m[k] == m'[k]
    ensures m == m'
  {
  }

  lemma MapRoundTripKeys(c: Coercion, e: NativeType, entries: map<string, NativeValue>)
    requires RoundTrips(e) && HasType(MapV(entries), MapT(e))
    ensures Poppable(MapT(e))
    ensures Decode(c, MapT(e), Some(ToLua(MapT(e), MapV(entries)))).entries.Keys == entries.Keys
  {
    RoundTripsIsPoppable(e);
    var f := ToLua(MapT(e), MapV(entries)).fields;
    MapPushTable(e, entries);
    forall k | k in entries
      ensures RawGet(f, Str(k)) != Nil
    {
      RoundTripNeverNil(e, entries[k]);
    }
    DecodedKeys(c, e, f, entries.Keys);
  }

  /** A table whose keys are exactly the given strings pops as a map with
      exactly those keys. */
  lemma DecodedKeys(c: Coercion, e: NativeType, f: map<LuaValue, LuaValue>, keys: set<string>)
    requires Poppable(e)
    requires forall k :: k in f ==> k.Str? && k.s in keys
    requires forall s :: s in keys ==> RawGet(f, Str(s)) != Nil
    ensures Decode(c, MapT(e), Some(Table(f))).entries.Keys == keys
  {
    MapPopSpec(c, e, Some(Table(f)));
    var m := Decode(c, MapT(e), Some(Table(f))).entries;
    forall s | s in keys
      ensures s in m
    {
      assert Str(s) in f;
    }
  }

  lemma {:induction false} DecodeToLuaMapEntry(c: Coercion, e: NativeType, entries: map<string, NativeValue>, k: string)
    requires RoundTrips(e) && HasType(MapV(entries), MapT(e))
    requires k in entries
    ensures Poppable(MapT(e))
    ensures var m := Decode(c, MapT(e), Some(ToLua(MapT(e), MapV(entries)))).entries;
      k in m && m[k] == entries[k]
    decreases MapT(e), 0
  {
    RoundTripsIsPoppable(e);
    var f := ToLua(MapT(e), MapV(entries)).fields;
    MapPushTable(e, entries);
    MapPopSpec(c, e, Some(Table(f)));
    RoundTripNeverNil(e, entries[k]);
    assert RawGet(f, Str(k)) == ToLua(e, entries[k]);
    DecodeToLua(c, e, entries[k]);
  }

  /** `Pop(Push(v)) == v` for every type that round-trips, with the stack
      left exactly as the push made it. */
  lemma PushPopRoundTrip(c: Coercion, st: Stack, t: NativeType, v: NativeValue)
    requires RoundTrips(t) && HasType(v, t)
    ensures Poppable(t)
    ensures Pop(c, Push(st, t, v), t, -1) == Popped(v, Push(st, t, v))
  {
    DecodeToLua(c, t, v);
    var s := Push(st, t, v);
    if ConvertsInPlace(t) {
      RoundTripNeverNil(t, v);
      StringKindPushesString(t, v);
      assert AfterToText(c, s, -1) == s;
    }
  }

  lemma {:induction false} StringKindPushesString(t: NativeType, v: NativeValue)
    requires ConvertsInPlace(t) && HasType(v, t)
    ensures ToLua(t, v).Str?
  {
    match t
    case ConstRefT(b) => StringKindPushesString(b, v);
    case _ =>
  }

  /** A `const T&` marshals exactly like `T`. */
  lemma ConstRefTransparent(c: Coercion, st: Stack, t: NativeType, v: NativeValue, index: int)
    ensures HasType(v, ConstRefT(t)) <==> HasType(v, t)
    ensures HasType(v, t) ==> Push(st, ConstRefT(t), v) == Push(st, t, v)
    ensures Poppable(ConstRefT(t)) <==> Poppable(t)
    ensures Poppable(t) ==> Pop(c, st, ConstRefT(t), index) == Pop(c, st, t, index)
  {
  }

  /** Vector and map pops hand the stack back untouched, whatever the
      value at the index is. */
  lemma ContainerPopRestoresStack(c: Coercion, st: Stack, e: NativeType, index: int)
    requires Poppable(e)
    ensures Pop(c, st, VectorT(e), index).stack == st
    ensures Pop(c, st, MapT(e), index).stack == st
  {
  }

  /** Popping a map keeps exactly the string-keyed entries of the table:
      a string key comes back with its decoded value, and any other key is
      dropped as if it were not there, however the table was built. */
  lemma MapPopKeepsStringKeys(c: Coercion, e: NativeType, f: map<LuaValue, LuaValue>, k: LuaValue)
    requires Poppable(e)
    requires k in f
    ensures k.Str? ==> k.s in Decode(c, MapT(e), Some(Table(f))).entries
    ensures k.Str? ==> Decode(c, MapT(e), Some(Table(f))).entries[k.s] == Decode(c, e, Some(f[k]))
    ensures !k.Str? ==> Decode(c, MapT(e), Some(Table(f))) == Decode(c, MapT(e), Some(Table(f - {k})))
  {
    MapPopSpec(c, e, Some(Table(f)));
    if !k.Str? {
      MapPopSpec(c, e, Some(Table(f - {k})));
      var r := Decode(c, MapT(e), Some(Table(f)));
      var r' := Decode(c, MapT(e), Some(Table(f - {k})));
      MapsAgree(r.entries, r'.entries);
    }
  }

  /** An unordered set is pushed like the vector of its iteration order:
      keys 1..n, each element of the set stored under exactly one of them. */
  lemma SetPushIsVectorPush(t: NativeType, items: seq<NativeValue>)
    requires HasType(SetV(items), SetT(t))
    ensures HasType(VectorV(items), VectorT(t))
    ensures ToLua(SetT(t), SetV(items)) == ToLua(VectorT(t), VectorV(items))
  {
    ContainerPushFields(SetT(t), SetV(items));
    ContainerPushFields(VectorT(t), VectorV(items));
  }

  /** The QVariant bridge: booleans and strings come back as they went in,
      an `Int` or a `Double` comes back as the `Float` kind, and every
      other kind is pushed as nil and comes back invalid. */
  lemma QVariantPushPop(c: Coercion, q: QVariant)
    requires HasType(QVariantV(q), QVariantT)
    ensures q.QBool? ==> Decode(c, QVariantT, Some(ToLua(QVariantT, QVariantV(q)))) == QVariantV(q)
    ensures q.QText? ==> Decode(c, QVariantT, Some(ToLua(QVariantT, QVariantV(q)))) == QVariantV(q)
    ensures q.QInt? ==> Decode(c, QVariantT, Some(ToLua(QVariantT, QVariantV(q)))) == QVariantV(QFloat(q.i as real))
    ensures q.QDouble? ==> Decode(c, QVariantT, Some(ToLua(QVariantT, QVariantV(q)))) == QVariantV(QFloat(q.x))
    ensures !(q.QBool? || q.QText? || q.QInt? || q.QDouble?) ==>
      Decode(c, QVariantT, Some(ToLua(QVariantT, QVariantV(q)))) == QVariantV(QInvalid)
  {
  }

  /** A number read into a QVariant has the `Float` kind, which the push
      side does not handle: pushing it back pushes nil. */
  lemma QVariantNumberDoesNotSurvive(c: Coercion, x: real)
    ensures Decode(c, QVariantT, Some(Number(x))) == QVariantV(QFloat(x))
    ensures ToLua(QVariantT, Decode(c, QVariantT, Some(Number(x)))) == Nil
  {
  }

  /** The strict boolean read and the lenient numeric read disagree on
      strings: a string is never true, a numeric string is its number. */
  lemma StrictBoolLenientNumber(c: Coercion, s: string)
    ensures PopBool(Some(Str(s))) == false
    ensures c.stringToNumber(s).None? ==> PopInt(c, Some(Str(s))) == 0 && PopUnsigned(c, Some(Str(s))) == 0 && PopFloat(c, Some(Str(s))) == 0.0
    ensures c.stringToNumber(s).Some? ==> PopFloat(c, Some(Str(s))) == c.stringToNumber(s).value
    ensures c.stringToNumber(s).Some? ==> PopInt(c, Some(Str(s))) == WrapInt32(Truncate(c.stringToNumber(s).value))
    ensures c.stringToNumber(s).Some? ==> PopUnsigned(c, Some(Str(s))) == WrapUint32(Truncate(c.stringToNumber(s).value))
  {
  }
}
