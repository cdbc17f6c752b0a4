/** The dynamic side of the scripting bridge: the values the embedded Lua
    runtime keeps on its stack, and the handful of C-API primitives that the
    marshalling templates of luna2d/lua/luastack.h rely on (type tests,
    conversions, raw table access, raw length). */
module LuaValues {
  import opened Wrappers

  /** A Lua value. Tables are modelled structurally by their raw contents,
      and an absent key reads as nil. The map type itself admits a nil key
      or a key bound to nil, which no table the runtime builds has (see
      `WellFormed`); the reads below are defined for every map all the same.
      Light userdata and C functions are opaque tokens. */
  datatype LuaValue =
    | Nil
    | Boolean(b: bool)
    | Number(n: real)
    | Str(s: string)
    | Table(fields: map<LuaValue, LuaValue>)
    | LightUserdata(address: nat)
    | CFunction(fn: nat)

  /** The raw contents of a table the runtime can build: nil is neither a
      key nor a value, since assigning nil removes the key. */
  predicate WellFormed(f: map<LuaValue, LuaValue>) {
    Nil !in f && Nil !in f.Values
  }

  /** The runtime's value stack, bottom first. */
  type Stack = seq<LuaValue>

  /** What `lua_type` reports; `TNone` is the type of an unacceptable index. */
  datatype LuaType = TNone | TNil | TBoolean | TLightUserdata | TNumber | TString | TTable | TFunction

  /** The runtime's own coercions between numbers and strings, which this
      model does not re-derive: which strings `lua_isnumber` accepts and what
      they convert to, and how `lua_tostring` renders a number. */
  datatype Coercion = Coercion(stringToNumber: string -> Option<real>, numberToString: real -> string)

  /** The integer key `i` of a table (Lua normalises integral float keys). */
  function IntKey(i: int): LuaValue {
    Number(i as real)
  }

  /** The stack position an index refers to: positive indices count from the
      bottom starting at 1, negative ones from the top starting at -1; 0 and
      indices beyond the stack refer to no value. */
  function Slot(st: Stack, index: int): (r: Option<nat>)
    ensures r.Some? <==> (1 <= index <= |st| || -|st| <= index <= -1)
    ensures r.Some? ==> r.value < |st|
  {
    if 1 <= index <= |st| then Some(index - 1)
    else if -|st| <= index <= -1 then Some(|st| + index)
    else None
  }

  /** The value at an index, or None for an unacceptable index. */
  function At(st: Stack, index: int): (r: Option<LuaValue>)
    ensures r.Some? <==> Slot(st, index).Some?
    ensures index == -1 && |st| > 0 ==> r == Some(st[|st| - 1])
  {
    match Slot(st, index)
    case Some(p) => Some(st[p])
    case None => None
  }

  /** `lua_type`. */
  function TypeOf(v: Option<LuaValue>): LuaType {
    match v
    case None => TNone
    case Some(x) =>
      match x
      case Nil => TNil
      case Boolean(_) => TBoolean
      case Number(_) => TNumber
      case Str(_) => TString
      case Table(_) => TTable
      case LightUserdata(_) => TLightUserdata
      case CFunction(_) => TFunction
  }

  /** `lua_isnumber`: a number, or a string the runtime can convert to one. */
  predicate IsNumber(c: Coercion, v: Option<LuaValue>) {
    v.Some? && (v.value.Number? || (v.value.Str? && c.stringToNumber(v.value.s).Some?))
  }

  /** `lua_tonumber`: the numeric value, 0 when there is none. */
  function ToNumber(c: Coercion, v: Option<LuaValue>): real {
    if !IsNumber(c, v) then 0.0
    else if v.value.Number? then v.value.n
    else c.stringToNumber(v.value.s).value
  }

  /** Truncation of a real toward zero. */
  function Truncate(x: real): (r: int)
    ensures 0.0 <= x ==> r as real <= x < r as real + 1.0
    ensures x < 0.0 ==> r as real - 1.0 < x <= r as real
  {
    if 0.0 <= x then x.Floor else -((-x).Floor)
  }

  /** `lua_tointeger`: the number truncated toward zero, 0 when there is none. */
  function ToInteger(c: Coercion, v: Option<LuaValue>): int {
    Truncate(ToNumber(c, v))
  }

  /** `lua_isboolean`. */
  predicate IsBoolean(v: Option<LuaValue>) {
    v.Some? && v.value.Boolean?
  }

  /** `lua_toboolean`: Lua truthiness, false only for nil and false. */
  predicate ToBoolean(v: Option<LuaValue>) {
    v.Some? && !v.value.Nil? && v.value != Boolean(false)
  }

  /** `lua_isstring`: a string, or a number (which converts to one). */
  predicate IsString(v: Option<LuaValue>) {
    v.Some? && (v.value.Str? || v.value.Number?)
  }

  /** The text `lua_tostring` returns for a string-convertible value. */
  function ToText(c: Coercion, v: Option<LuaValue>): string
    requires IsString(v)
  {
    if v.value.Str? then v.value.s else c.numberToString(v.value.n)
  }

  /** The stack after `lua_tostring`: converting a number replaces that slot
      by the string it was rendered to; every other value is left alone. */
  function AfterToText(c: Coercion, st: Stack, index: int): (r: Stack)
    ensures |r| == |st|
    ensures forall p :: 0 <= p < |st| && Slot(st, index) != Some(p) ==> r[p] == st[p]
    ensures At(st, index).Some? && !At(st, index).value.Number? ==> r == st
    ensures At(st, index).Some? && At(st, index).value.Number? ==>
      r[Slot(st, index).value] == Str(c.numberToString(At(st, index).value.n))
  {
    match Slot(st, index)
    case Some(p) =>
      if st[p].Number? then st[p := Str(c.numberToString(st[p].n))] else st
    case None => st
  }

  /** `lua_istable`. */
  predicate IsTable(v: Option<LuaValue>) {
    v.Some? && v.value.Table?
  }

  /** `lua_rawgeti` / raw read: the value bound to a key, nil when absent. */
  function RawGet(t: map<LuaValue, LuaValue>, key: LuaValue): LuaValue {
    if key in t then t[key] else Nil
  }

  /** `lua_rawset` / `lua_rawseti`: binding nil removes the key. */
  function RawSet(t: map<LuaValue, LuaValue>, key: LuaValue, value: LuaValue): (r: map<LuaValue, LuaValue>)
    ensures RawGet(r, key) == value
    ensures forall k :: k != key ==> RawGet(r, k) == RawGet(t, k)
    ensures Nil !in r.Values || Nil in t.Values
  {
    if value == Nil then t - {key} else t[key := value]
  }

  /** Two tables that read alike under every key are the same table. */
  lemma RawGetExt(a: map<LuaValue, LuaValue>, b: map<LuaValue, LuaValue>)
    requires Nil !in a.Values && Nil !in b.Values
    requires forall k :: RawGet(a, k) == RawGet(b, k)
    ensures a == b
  {
    forall k | k in a
      ensures k in b && a[k] == b[k]
    {
      assert a[k] in a.Values;
      assert RawGet(a, k) == a[k];
    }
    forall k | k in b
      ensures k in a
    {
      assert b[k] in b.Values;
      assert RawGet(b, k) == b[k];
    }
    assert a.Keys == b.Keys;
  }

  /** `lua_rawlen` of a table: a border, here the smallest one (1..n are all
      keys, n + 1 is not). A proper sequence has exactly one border. */
  function Border(t: map<LuaValue, LuaValue>): (n: nat)
    ensures forall j :: 1 <= j <= n ==> IntKey(j) in t
    ensures IntKey(n + 1) !in t
  {
    BorderFrom(t, 0, t.Keys)
  }

  function BorderFrom(t: map<LuaValue, LuaValue>, n: nat, unseen: set<LuaValue>): (r: nat)
    requires forall j :: 1 <= j <= n ==> IntKey(j) in t
    requires forall k :: k in t && k !in unseen ==> k.Number? && k.n <= n as real
    ensures n <= r
    ensures forall j :: 1 <= j <= r ==> IntKey(j) in t
    ensures IntKey(r + 1) !in t
    decreases unseen
  {
    if IntKey(n + 1) in t then
      assert IntKey(n + 1) in unseen;
      BorderFrom(t, n + 1, unseen - {IntKey(n + 1)})
    else n
  }
}
