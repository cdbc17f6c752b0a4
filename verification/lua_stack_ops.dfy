/** The container specialisations of luna2d/lua/luastack.h replayed step by
    step on the raw stack primitives they call (`lua_createtable`,
    `lua_rawseti`, `lua_rawset`, `lua_rawgeti`, `lua_remove`,
    `lua_pushvalue`, `lua_pushnil`, `lua_next`, `lua_pop`), each proved to
    have exactly the net effect the functional `Push` / `Pop` describe. */
module LuaStackOps {
  import opened Wrappers
  import opened LuaValues
  import opened LuaStack

  // ---------------------------------------------------------------------
  // Raw stack primitives

  /** `lua_createtable`: pushes a new empty table. */
  function CreateTable(st: Stack): (r: Stack)
    ensures r == st + [Table(map[])]
  {
    st + [Table(map[])]
  }

  /** The index refers to a table below the top `above` slots. */
  predicate TableBelow(st: Stack, index: int, above: nat) {
    && Slot(st, index).Some?
    && Slot(st, index).value + above < |st|
    && st[Slot(st, index).value].Table?
  }

  /** `lua_rawseti(L, index, n)`: stores the top value at integer key `n`
      of the table at `index`, and pops the value. */
  function RawSetI(st: Stack, index: int, n: int): (r: Stack)
    requires TableBelow(st, index, 1)
    ensures |r| == |st| - 1
  {
    var p := Slot(st, index).value;
    var rest := st[..|st| - 1];
    rest[p := Table(RawSet(st[p].fields, IntKey(n), st[|st| - 1]))]
  }

  /** `lua_rawset(L, index)`: stores the top value under the key just below
      it in the table at `index`, and pops both. */
  function RawSetTop(st: Stack, index: int): (r: Stack)
    requires TableBelow(st, index, 2)
    ensures |r| == |st| - 2
  {
    var p := Slot(st, index).value;
    var rest := st[..|st| - 2];
    rest[p := Table(RawSet(st[p].fields, st[|st| - 2], st[|st| - 1]))]
  }

  /** `lua_rawgeti(L, index, n)`: pushes the value at integer key `n`. */
  function RawGetI(st: Stack, index: int, n: int): (r: Stack)
    requires IsTable(At(st, index))
    ensures r == st + [RawGet(At(st, index).value.fields, IntKey(n))]
  {
    st + [RawGet(At(st, index).value.fields, IntKey(n))]
  }

  /** `lua_pop(L, n)`, and `lua_remove(L, -1)` for one value. */
  function PopTop(st: Stack, n: nat): (r: Stack)
    requires n <= |st|
    ensures r == st[..|st| - n]
  {
    st[..|st| - n]
  }

  // ---------------------------------------------------------------------
  // lua_next

  /** The position of a key in a traversal order. */
  function IndexOf(order: seq<LuaValue>, key: LuaValue): (i: nat)
    requires key in order
    ensures i < |order| && order[i] == key
    ensures forall j :: 0 <= j < i ==> order[j] != key
  {
    if order[0] == key then 0 else 1 + IndexOf(order[1..], key)
  }

  /** `order` lists every key of the table exactly once: the order in which
      `lua_next` visits them, which the runtime fixes and callers cannot
      rely on. (Lua tables never have a nil key.) */
  ghost predicate IsTraversal(order: seq<LuaValue>, f: map<LuaValue, LuaValue>) {
    && Nil !in f
    && Distinct(order)
    && forall k :: k in f <==> k in order
  }

  /** The key `lua_next` moves to from the given one: nil starts the
      traversal, None ends it. */
  function NextKey(order: seq<LuaValue>, key: LuaValue): Option<LuaValue> {
    if key == Nil then (if |order| == 0 then None else Some(order[0]))
    else if key !in order then None
    else
      var i := IndexOf(order, key);
      if i + 1 < |order| then Some(order[i + 1]) else None
  }

  /** The key visited after the first `j` keys of a traversal. */
  lemma NextKeyAt(order: seq<LuaValue>, f: map<LuaValue, LuaValue>, j: nat)
    requires IsTraversal(order, f)
    requires j <= |order|
    ensures var key := if j == 0 then Nil else order[j - 1];
      NextKey(order, key) == if j < |order| then Some(order[j]) else None
  {
    if j > 0 {
      var i := IndexOf(order, order[j - 1]);
      assert i == j - 1;
    }
  }

  // ---------------------------------------------------------------------
  // LuaStack<std::vector<T>>

  lemma SeqFieldsSnoc(vals: seq<LuaValue>, x: LuaValue)
    ensures SeqFields(vals + [x]) == RawSet(SeqFields(vals), IntKey(|vals| + 1), x)
  {
    var a := SeqFields(vals + [x]);
    var b := RawSet(SeqFields(vals), IntKey(|vals| + 1), x);
    forall k
      ensures RawGet(a, k) == RawGet(b, k)
    {
      SeqFieldsGet(vals + [x], k);
      SeqFieldsGet(vals, k);
    }
    RawGetExt(a, b);
  }

  /** `rawseti` into the table just below the top. */
  lemma RawSetIBelowTop(st: Stack, t: map<LuaValue, LuaValue>, x: LuaValue, n: int)
    ensures TableBelow(st + [Table(t), x], -2, 1)
    ensures RawSetI(st + [Table(t), x], -2, n) == st + [Table(RawSet(t, IntKey(n), x))]
  {
    var s := st + [Table(t), x];
    assert s[..|s| - 1] == st + [Table(t)];
  }

  /** One round of the vector push loop stores the next element. */
  lemma VectorPushStep(st: Stack, vals: seq<LuaValue>, i: nat)
    requires i < |vals|
    ensures TableBelow(st + [Table(SeqFields(vals[..i])), vals[i]], -2, 1)
    ensures RawSetI(st + [Table(SeqFields(vals[..i])), vals[i]], -2, i + 1) == st + [Table(SeqFields(vals[..i + 1]))]
  {
    RawSetIBelowTop(st, SeqFields(vals[..i]), vals[i], i + 1);
    SeqFieldsSnoc(vals[..i], vals[i]);
    assert vals[..i + 1] == vals[..i] + [vals[i]];
  }

  /** One round of the vector push loop: push element `i` and `rawseti` it
      into the table below it at index `i + 1`. */
  method StoreElement(st: Stack, e: NativeType, items: seq<NativeValue>, i: nat, r0: Stack) returns (r: Stack)
    requires HasType(VectorV(items), VectorT(e)) && i < |items|
    requires r0 == st + [Table(SeqFields(ToLuaAll(e, items)[..i]))]
    ensures r == st + [Table(SeqFields(ToLuaAll(e, items)[..i + 1]))]
  {
    r := Push(r0, e, items[i]);
    assert r == st + [Table(SeqFields(ToLuaAll(e, items)[..i])), ToLuaAll(e, items)[i]];
    VectorPushStep(st, ToLuaAll(e, items), i);
    r := RawSetI(r, -2, i + 1);
  }

  /** After the last round the table is the pushed vector. */
  lemma VectorPushDone(st: Stack, e: NativeType, items: seq<NativeValue>)
    requires HasType(VectorV(items), VectorT(e))
    ensures st + [Table(SeqFields(ToLuaAll(e, items)[..|items|]))] == Push(st, VectorT(e), VectorV(items))
  {
    assert ToLuaAll(e, items)[..|items|] == ToLuaAll(e, items);
    ContainerPushFields(VectorT(e), VectorV(items));
  }

  /** `LuaStack<std::vector<T>>::Push` as written: create the table, then
      for each element push it and `rawseti` it at index `i + 1`. */
  method PushVector(st: Stack, e: NativeType, items: seq<NativeValue>) returns (r: Stack)
    requires HasType(VectorV(items), VectorT(e))
    ensures r == Push(st, VectorT(e), VectorV(items))
  {
    var count := |items|;
    r := CreateTable(st);
    assert ToLuaAll(e, items)[..0] == [];
    var i := 0;
    while i < count
      invariant 0 <= i <= count
      invariant r == st + [Table(SeqFields(ToLuaAll(e, items)[..i]))]
    {
      r := StoreElement(st, e, items, i, r);
      i := i + 1;
    }
    VectorPushDone(st, e, items);
  }

  /** One round of the vector pop loop: `rawgeti` element `i + 1` of the
      table at `index`, pop it from the top and `remove` it again. */
  method ReadElement(c: Coercion, st: Stack, e: NativeType, index: int, i: nat) returns (s: Stack, x: NativeValue)
    requires Poppable(e) && IsTable(At(st, index))
    ensures s == st
    ensures x == Decode(c, e, Some(RawGet(At(st, index).value.fields, IntKey(i + 1))))
  {
    s := RawGetI(st, index, i + 1);
    var p := Pop(c, s, e, -1);
    x := p.value;
    assert p.stack[..|st|] == st;
    s := PopTop(p.stack, 1);
  }

  /** A table at the index pops as the elements at keys 1..rawlen. */
  lemma VectorPopTable(c: Coercion, st: Stack, e: NativeType, index: int)
    requires Poppable(e) && IsTable(At(st, index))
    ensures Pop(c, st, VectorT(e), index)
         == Popped(VectorV(DecodeRange(c, e, At(st, index).value.fields, Border(At(st, index).value.fields))), st)
  {
    ContainerPopRestoresStack(c, st, e, index);
    DecodeVectorRange(c, e, At(st, index).value.fields);
  }

  /** `LuaStack<std::vector<T>>::Pop` as written: check for a table, take
      its raw length, then read each element with `ReadElement`. The stack
      ends as it started. */
  method PopVector(c: Coercion, st: Stack, e: NativeType, index: int) returns (r: Popped)
    requires Poppable(e)
    ensures r == Pop(c, st, VectorT(e), index)
    ensures r.stack == st
  {
    var v := At(st, index);
    if !IsTable(v) {
      return Popped(VectorV([]), st);
    }
    var f := v.value.fields;
    var count := Border(f);
    var items: seq<NativeValue> := [];
    var s := st;
    var i := 0;
    while i < count
      invariant 0 <= i <= count
      invariant s == st
      invariant items == DecodeRange(c, e, f, count)[..i]
    {
      var x;
      s, x := ReadElement(c, s, e, index, i);
      assert DecodeRange(c, e, f, count)[..i + 1] == DecodeRange(c, e, f, count)[..i] + [x];
      items := items + [x];
      i := i + 1;
    }
    assert items == DecodeRange(c, e, f, count);
    VectorPopTable(c, st, e, index);
    r := Popped(VectorV(items), s);
  }

  // ---------------------------------------------------------------------
  // LuaStack<std::unordered_map<std::string, T>>

  /** The keys visited in the first `j` rounds of a walk over `order`. */
  function Visited<K(!new)>(order: seq<K>, j: nat): (r: set<K>)
    requires j <= |order|
    ensures forall k :: k in r <==> exists i :: 0 <= i < j && order[i] == k
  {
    set i | 0 <= i < j :: order[i]
  }

  lemma StrFieldsStep(vals: map<string, LuaValue>, keys: set<string>, k: string)
    requires keys <= vals.Keys && k in vals
    ensures StrFields(vals, keys + {k}) == RawSet(StrFields(vals, keys), Str(k), vals[k])
  {
    var a := StrFields(vals, keys + {k});
    var b := RawSet(StrFields(vals, keys), Str(k), vals[k]);
    forall x | x in a
      ensures x in b && a[x] == b[x]
    {
      assert RawGet(a, x) == RawGet(b, x);
    }
    forall x | x in b
      ensures x in a
    {
      assert RawGet(a, x) == RawGet(b, x);
    }
    MapsAgree(a, b);
  }

  /** `rawset` into the table just below a key and a value. */
  lemma RawSetTopBelow(st: Stack, t: map<LuaValue, LuaValue>, key: LuaValue, x: LuaValue)
    ensures TableBelow(st + [Table(t), key, x], -3, 2)
    ensures RawSetTop(st + [Table(t), key, x], -3) == st + [Table(RawSet(t, key, x))]
  {
    var s := st + [Table(t), key, x];
    assert s[..|s| - 2] == st + [Table(t)];
  }

  /** One round of the map push loop stores the next entry. */
  lemma MapPushStep(st: Stack, vals: map<string, LuaValue>, order: seq<string>, j: nat)
    requires j < |order|
    requires forall i :: 0 <= i < |order| ==> order[i] in vals
    ensures Visited(order, j) <= vals.Keys
    ensures TableBelow(st + [Table(StrFields(vals, Visited(order, j))), Str(order[j]), vals[order[j]]], -3, 2)
    ensures RawSetTop(st + [Table(StrFields(vals, Visited(order, j))), Str(order[j]), vals[order[j]]], -3)
         == st + [Table(StrFields(vals, Visited(order, j + 1)))]
  {
    var visited := Visited(order, j);
    var k := order[j];
    RawSetTopBelow(st, StrFields(vals, visited), Str(k), vals[k]);
    StrFieldsStep(vals, visited, k);
    assert Visited(order, j + 1) == visited + {k};
  }

  /** One round of the map push loop: push key `order[j]` and its value
      and `rawset` them into the table below them. */
  method StoreEntry(st: Stack, e: NativeType, entries: map<string, NativeValue>, order: seq<string>, j: nat, r0: Stack)
    returns (r: Stack)
    requires HasType(MapV(entries), MapT(e))
    requires forall k :: k in entries <==> k in order
    requires j < |order|
    requires Visited(order, j) <= entries.Keys
    requires r0 == st + [Table(StrFields(PushedEntries(e, entries), Visited(order, j)))]
    ensures Visited(order, j + 1) <= entries.Keys
    ensures r == st + [Table(StrFields(PushedEntries(e, entries), Visited(order, j + 1)))]
  {
    var vals := PushedEntries(e, entries);
    var k := order[j];
    r := r0 + [Str(k)];
    r := Push(r, e, entries[k]);
    assert r == st + [Table(StrFields(vals, Visited(order, j))), Str(k), vals[k]];
    MapPushStep(st, vals, order, j);
    r := RawSetTop(r, -3);
  }

  /** After the last round of the map push loop the table is the pushed map. */
  lemma MapPushDone(st: Stack, e: NativeType, entries: map<string, NativeValue>, order: seq<string>)
    requires HasType(MapV(entries), MapT(e))
    requires forall k :: k in entries <==> k in order
    ensures Visited(order, |order|) <= PushedEntries(e, entries).Keys
    ensures st + [Table(StrFields(PushedEntries(e, entries), Visited(order, |order|)))]
         == Push(st, MapT(e), MapV(entries))
  {
    assert Visited(order, |order|) == entries.Keys;
    ContainerPushFields(MapT(e), MapV(entries));
  }

  /** `LuaStack<std::unordered_map<std::string, T>>::Push` as written: create
      the table, then for each entry, in the container's iteration order,
      push the key and the value and `rawset` them. Any order gives the
      same table. */
  method PushMap(st: Stack, e: NativeType, entries: map<string, NativeValue>, order: seq<string>) returns (r: Stack)
    requires HasType(MapV(entries), MapT(e))
    requires forall k :: k in entries <==> k in order
    ensures r == Push(st, MapT(e), MapV(entries))
  {
    var vals := PushedEntries(e, entries);
    r := CreateTable(st);
    assert StrFields(vals, Visited(order, 0)) == map[];
    var j := 0;
    while j < |order|
      invariant 0 <= j <= |order|
      invariant Visited(order, j) <= entries.Keys
      invariant r == st + [Table(StrFields(vals, Visited(order, j)))]
    {
      r := StoreEntry(st, e, entries, order, j, r);
      j := j + 1;
    }
    MapPushDone(st, e, entries, order);
  }

  /** The value each key of a table pops as. */
  function Decoded(c: Coercion, e: NativeType, f: map<LuaValue, LuaValue>): (d: map<LuaValue, NativeValue>)
    requires Poppable(e)
    ensures d.Keys == f.Keys
    ensures forall k :: k in f ==> d[k] == Decode(c, e, Some(f[k]))
  {
    map k | k in f :: Decode(c, e, Some(f[k]))
  }

  /** The entries read so far: the string keys among the visited ones,
      each with its popped value. */
  function ReadEntries(d: map<LuaValue, NativeValue>, visited: set<LuaValue>): (m: map<string, NativeValue>)
    ensures forall s :: s in m <==> Str(s) in d && Str(s) in visited
    ensures forall s :: s in m ==> m[s] == d[Str(s)]
  {
    map s | s in (set k | k in d && k.Str? :: k.s) && Str(s) in visited :: d[Str(s)]
  }

  lemma ReadEntriesStep(d: map<LuaValue, NativeValue>, visited: set<LuaValue>, k: LuaValue)
    requires k in d
    ensures k.Str? ==> ReadEntries(d, visited + {k}) == ReadEntries(d, visited)[k.s := d[k]]
    ensures !k.Str? ==> ReadEntries(d, visited + {k}) == ReadEntries(d, visited)
  {
    var a := ReadEntries(d, visited + {k});
    var b := ReadEntries(d, visited);
    if k.Str? {
      MapsAgree(a, b[k.s := d[k]]);
    } else {
      MapsAgree(a, b);
    }
  }

  /** One round of the map pop loop, with `lua_next` having pushed `key`
      and its value above the table copy: only a string key is read, the
      value from the top and the key from just below it; popping the value
      leaves the key for the next `lua_next`. */
  lemma MapPopRound(c: Coercion, st: Stack, e: NativeType, f: map<LuaValue, LuaValue>, key: LuaValue)
    requires Poppable(e) && key in f
    ensures var s := st + [Table(f), key, f[key]];
      && (TypeOf(At(s, -2)) == TString <==> key.Str?)
      && PopTop(s, 1) == st + [Table(f), key]
      && (key.Str? ==>
            var pv := Pop(c, s, e, -1);
            var pk := Pop(c, pv.stack, StringT, -2);
            && pv.value == Decode(c, e, Some(f[key]))
            && pk.value == StringV(key.s)
            && PopTop(pk.stack, 1) == st + [Table(f), key])
  {
    var s := st + [Table(f), key, f[key]];
    assert s[..|s| - 1] == st + [Table(f), key];
    if key.Str? {
      var pv := Pop(c, s, e, -1);
      var pk := Pop(c, pv.stack, StringT, -2);
      assert pv.stack[|s| - 2] == key;
      assert pk.stack[..|s| - 1] == pv.stack[..|s| - 1] == st + [Table(f), key];
    }
  }

  /** Round `j` of the map pop loop adds the entry of the `j`-th key when
      that key is a string, and nothing otherwise. */
  lemma ReadEntriesRound(d: map<LuaValue, NativeValue>, f: map<LuaValue, LuaValue>, order: seq<LuaValue>, j: nat)
    requires IsTraversal(order, f) && d.Keys == f.Keys && j < |order|
    ensures order[j] in d
    ensures ReadEntries(d, Visited(order, j + 1))
         == if order[j].Str? then ReadEntries(d, Visited(order, j))[order[j].s := d[order[j]]]
            else ReadEntries(d, Visited(order, j))
  {
    assert Visited(order, j + 1) == Visited(order, j) + {order[j]};
    ReadEntriesStep(d, Visited(order, j), order[j]);
  }

  /** Once every key has been visited the entries read are the popped map. */
  lemma MapPopDone(c: Coercion, e: NativeType, f: map<LuaValue, LuaValue>, order: seq<LuaValue>)
    requires Poppable(e) && IsTraversal(order, f)
    ensures ReadEntries(Decoded(c, e, f), Visited(order, |order|)) == Decode(c, MapT(e), Some(Table(f))).entries
  {
    assert Visited(order, |order|) == f.Keys;
    var m := ReadEntries(Decoded(c, e, f), f.Keys);
    var m' := Decode(c, MapT(e), Some(Table(f))).entries;
    MapPopSpec(c, e, Some(Table(f)));
    MapsAgree(m, m');
  }

  /** The body of the map pop loop, once `lua_next` has pushed `key` and
      its value above the table copy: a string key is read (the value from
      the top, the key from just below it) and stored, then the value is
      popped, leaving the key for the next `lua_next`. */
  method ReadPair(c: Coercion, st: Stack, e: NativeType, f: map<LuaValue, LuaValue>, key: LuaValue,
                  s0: Stack, ret0: map<string, NativeValue>)
    returns (s: Stack, ret: map<string, NativeValue>)
    requires Poppable(e) && key in f
    requires s0 == st + [Table(f), key, f[key]]
    ensures s == st + [Table(f), key]
    ensures ret == if key.Str? then ret0[key.s := Decode(c, e, Some(f[key]))] else ret0
  {
    MapPopRound(c, st, e, f, key);
    s, ret := s0, ret0;
    if TypeOf(At(s, -2)) == TString {
      var pv := Pop(c, s, e, -1);
      var pk := Pop(c, pv.stack, StringT, -2);
      ret := ret[pk.value.s := pv.value];
      s := pk.stack;
    }
    s := PopTop(s, 1);   // lua_pop(luaVm, 1)
  }

  /** One round of the `lua_next` loop of the map pop: `lua_next` replaces
      the previous key by the next one and its value, and `ReadPair`
      handles the pair. */
  method ReadRound(c: Coercion, st: Stack, e: NativeType, f: map<LuaValue, LuaValue>, order: seq<LuaValue>, j: nat,
                   s0: Stack, ret0: map<string, NativeValue>)
    returns (s: Stack, ret: map<string, NativeValue>)
    requires Poppable(e) && IsTraversal(order, f) && j < |order|
    requires s0 == st + [Table(f), if j == 0 then Nil else order[j - 1]]
    requires ret0 == ReadEntries(Decoded(c, e, f), Visited(order, j))
    ensures s == st + [Table(f), order[j]]
    ensures ret == ReadEntries(Decoded(c, e, f), Visited(order, j + 1))
  {
    NextKeyAt(order, f, j);
    var key := NextKey(order, s0[|s0| - 1]).value;
    assert key == order[j] && key in f;
    s := PopTop(s0, 1) + [key, f[key]];   // lua_next pops the key, pushes key and value
    s, ret := ReadPair(c, st, e, f, key, s, ret0);
    ReadEntriesRound(Decoded(c, e, f), f, order, j);
  }

  /** The `lua_next` loop of the map pop, started with a copy of the table
      and a nil key above the original stack: it visits every key once and
      ends with the copy alone above the original stack, having read the
      entries of all string keys. */
  method TraverseTable(c: Coercion, st: Stack, e: NativeType, f: map<LuaValue, LuaValue>, order: seq<LuaValue>)
    returns (s: Stack, ret: map<string, NativeValue>)
    requires Poppable(e) && IsTraversal(order, f)
    ensures s == st + [Table(f)]
    ensures ret == ReadEntries(Decoded(c, e, f), Visited(order, |order|))
  {
    ret := map[];
    s := st + [Table(f), Nil];
    var j := 0;
    assert ReadEntries(Decoded(c, e, f), Visited(order, 0)) == map[];
    NextKeyAt(order, f, 0);
    while NextKey(order, s[|s| - 1]).Some?
      invariant 0 <= j <= |order|
      invariant s == st + [Table(f), if j == 0 then Nil else order[j - 1]]
      invariant ret == ReadEntries(Decoded(c, e, f), Visited(order, j))
      invariant NextKey(order, s[|s| - 1]) == if j < |order| then Some(order[j]) else None
      decreases |order| - j
    {
      s, ret := ReadRound(c, st, e, f, order, j, s, ret);
      j := j + 1;
      NextKeyAt(order, f, j);
    }
    s := PopTop(s, 1);                     // the final lua_next pops the key
  }

  /** What the functional pop of a map gives, by the value at the index. */
  lemma MapPopTable(c: Coercion, st: Stack, e: NativeType, index: int)
    requires Poppable(e)
    ensures !IsTable(At(st, index)) ==> Pop(c, st, MapT(e), index) == Popped(MapV(map[]), st)
    ensures IsTable(At(st, index)) ==>
      Pop(c, st, MapT(e), index) == Popped(MapV(Decode(c, MapT(e), Some(Table(At(st, index).value.fields))).entries), st)
  {
    ContainerPopRestoresStack(c, st, e, index);
    MapPopSpec(c, e, At(st, index));
  }

  /** `LuaStack<std::unordered_map<std::string, T>>::Pop` as written: check
      for a table, push a copy of it and a nil key, walk it with
      `TraverseTable`, and pop the copy. Whatever order the traversal
      takes, the result is the functional pop and the stack ends as it
      started. */
  method PopMap(c: Coercion, st: Stack, e: NativeType, index: int, order: seq<LuaValue>) returns (r: Popped)
    requires Poppable(e)
    requires IsTable(At(st, index)) ==> IsTraversal(order, At(st, index).value.fields)
    ensures r == Pop(c, st, MapT(e), index)
    ensures r.stack == st
  {
    MapPopTable(c, st, e, index);
    var v := At(st, index);
    if !IsTable(v) {
      return Popped(MapV(map[]), st);
    }
    var f := v.value.fields;
    var s, ret := TraverseTable(c, st, e, f, order);   // lua_pushvalue, lua_pushnil, the lua_next loop
    s := PopTop(s, 1);                                 // lua_pop(luaVm, 1): the table copy
    assert s == st;
    MapPopDone(c, e, f, order);
    r := Popped(MapV(ret), s);
  }
}
