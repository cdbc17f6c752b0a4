# luna2d core, modelled in Dafny

This project models four pieces of the luna2d engine and its deploy tool:

- **Script bridge marshalling** (`luna2d/lua/luastack.h`). Every native type the engine hands to Lua scripts has a `LuaStack<T>` specialisation. It says how a value of that type is pushed onto the Lua stack and how one is read back ("popped") from a stack index. Popping never removes anything, and a mismatch yields the type's default value.
  - `lua_value.dfy` (module `LuaValues`) gives the Lua values, the stack and the few C-API primitives the templates use.
  - `lua_stack.dfy` (module `LuaStack`) gives the type-indexed push and pop as pure functions, and their round-trip properties.
  - `lua_stack_ops.dfy` (module `LuaStackOps`) gives the loops of the container specialisations, written step by step over the C-API primitives, as methods. They are proved equal to the pure functions, whatever order `lua_next` and the native containers visit keys in.
- **Colours** (`luna2d/graphics/lunacolor.cpp`, module `LunaColor`). Float channels convert to bytes and back, and pack to 0xRRGGBBAA words. The module also covers 0xRRGGBB integers, the "#RRGGBB" strings read through `strtol`, and the named colours.
- **Texture reload after a lost GL context** (the Android block of `luna2d/graphics/lunatexture.h`, module `LunaTexture`). This covers the state `(reloadPath, cacheId, reloadable)`, the operations `SetReloadPath`, `Reload` and `Cache`, and the generated reload path `".luna2d_gentexture_<id>"`. The engine services the texture calls are an oracle parameter: the compressed-file reader, the extension getter, the image decoder and the texture-cache registry.
- **SDK-module config edit of the deploy tool** (`tools/DeployTool/python/update_android.py`, module `UpdateAndroid`). `apply_sdk_module` adds a `"<type>-<classpath>"` entry to the game config, and `get_module_type` derives the type from the module name.

`wrappers.dfy` holds the shared `Option` type.

Lua's number/string coercions are a parameter, `Coercion`, and are not derived. They decide which strings `lua_isnumber` accepts and how `lua_tostring` prints a number.

Two behaviours of the code are worth stating plainly:
- A numeric pop of a numeric *string* yields its number, not 0, because `lua_isnumber` accepts such strings.
- A generated texture reloads by reading the compressed file its reload path names from the application folder. It does not ask the cache registry by id.

## Model

| member | source | states |
|---|---|---|
| LuaValues.Border | luna2d/lua/luastack.h:170 | the length read for a sequence table is a border: keys 1..n are all present and n+1 is absent |
| LuaValues.AfterToText | luna2d/lua/luastack.h:115-119 | reading a string from a number slot rewrites that one slot to the string `lua_tostring` renders the number as; every other slot, and every non-number slot, is left as it was |
| LuaStack.WrapInt32 | luna2d/lua/luastack.h:55-59 | the C `int` a Lua integer converts to lies in the 32-bit range, is congruent to it modulo 2^32, and equals it when it already fits |
| LuaStack.WrapUint32 | luna2d/lua/luastack.h:70-74 | the `unsigned int` a Lua integer converts to lies in [0, 2^32), is congruent to it modulo 2^32, and equals it when it already fits |
| LuaStack.ToLua | luna2d/lua/luastack.h:50-298 | each specialisation pushes the argument itself: the number of the same value for `int`, `unsigned` and `float`, the boolean for `bool`, the string for `std::string`, `QString` and a non-null `const char*`, the same C function and the same light userdata address, a table without nil keys or nil values for the containers; nil is pushed exactly for a null `const char*` and a QVariant kind the switch does not handle |
| LuaStack.Decode | luna2d/lua/luastack.h:55-297 | every pop yields a value of the requested type, and an unacceptable index, nil, light userdata or a function reads as the type's default: 0, false, "", the empty container or the invalid QVariant; a QVariant pop of anything but a boolean, number or string, tables included, gives the invalid QVariant |
| LuaStack.Push | luna2d/lua/luastack.h:36-39 | a push adds exactly one value on top, the one the type's mapping gives, and leaves every value below untouched |
| LuaStack.PopInt | luna2d/lua/luastack.h:55-59 | a non-number reads as 0; a number reads as its truncation wrapped to 32 bits; a pushed `int` reads back as itself |
| LuaStack.PopUnsigned | luna2d/lua/luastack.h:70-74 | a non-number reads as 0; a number reads as its truncation wrapped to 32 unsigned bits; a pushed `unsigned` reads back as itself |
| LuaStack.PopFloat | luna2d/lua/luastack.h:85-89 | a non-number reads as 0; a number reads as itself; a numeric string reads as the number it denotes |
| LuaStack.PopBool | luna2d/lua/luastack.h:100-104 | the read is true exactly for the boolean true; every other value, truthy ones included, reads as false |
| LuaStack.PopText | luna2d/lua/luastack.h:115-119 | a non-string, non-number reads as ""; a string reads as itself; a number reads as its Lua text |
| LuaStack.Pop | luna2d/lua/luastack.h:36-39 | a pop yields a value of the requested type, keeps the stack height, changes no slot but the one read, and changes nothing at all unless the type reads strings; a string pop of a string-convertible slot leaves that slot as `lua_tostring` rewrites it |
| LuaStack.VectorPushTable | luna2d/lua/luastack.h:154-164 | a pushed vector is a table holding element i at key i+1 and no other keys |
| LuaStack.MapPushTable | luna2d/lua/luastack.h:188-198 | a pushed map is a table keyed exactly by (a subset of) its string keys, each holding the pushed value of its entry |
| LuaStack.VectorPopSpec | luna2d/lua/luastack.h:166-182 | a non-table pops as the empty vector; a table pops as its first border-many integer-keyed values, each popped as the element type, in key order |
| LuaStack.MapPopSpec | luna2d/lua/luastack.h:200-222 | a non-table pops as the empty map; a table pops as exactly its string-keyed entries, each value popped as the element type |
| LuaStack.SeqFieldsBorder | luna2d/lua/luastack.h:157-170 | a table filled from a sequence without nils has exactly that sequence's length as its border, so the pop reads every pushed element |
| LuaStack.RoundTripNeverNil | luna2d/lua/luastack.h:50-119 | a value of a round-tripping type never pushes as nil |
| LuaStack.DecodeToLua | luna2d/lua/luastack.h:47-222 | reading back the Lua value a round-tripping native value pushes as gives that native value again |
| LuaStack.DecodeToLuaVector | luna2d/lua/luastack.h:152-183 | a vector of round-tripping elements survives push then pop |
| LuaStack.DecodeToLuaMap | luna2d/lua/luastack.h:185-223 | a string-keyed map of round-tripping values survives push then pop |
| LuaStack.MapRoundTripKeys | luna2d/lua/luastack.h:188-222 | push then pop of a map keeps its key set exactly |
| LuaStack.DecodeToLuaMapEntry | luna2d/lua/luastack.h:188-222 | every entry of a pushed map is found, with its value, in the popped map |
| LuaStack.PushPopRoundTrip | luna2d/lua/luastack.h:36-39 | pushing a round-tripping value and popping the top gives the value back and leaves the pushed stack as it was |
| LuaStack.StringKindPushesString | luna2d/lua/luastack.h:110-119 | the types whose pop may rewrite a slot always push a string |
| LuaStack.ConstRefTransparent | luna2d/lua/luastack.h:44-45 | `const T&` has the same values, pushes the same and pops the same as `T` |
| LuaStack.ContainerPopRestoresStack | luna2d/lua/luastack.h:166-222 | popping a vector or a map leaves the whole stack exactly as it was |
| LuaStack.MapPopKeepsStringKeys | luna2d/lua/luastack.h:209-217 | a string key of the table is in the popped map with its popped value; any other key can be removed from the table without changing the result |
| LuaStack.SetPushIsVectorPush | luna2d/lua/luastack.h:228-240 | a set pushes as the vector of its items in iteration order, at keys 1, 2, ... |
| LuaStack.QVariantPushPop | luna2d/lua/luastack.h:262-298 | booleans and strings in a QVariant survive push then pop; ints and doubles come back as the float kind; every other kind comes back invalid |
| LuaStack.QVariantNumberDoesNotSurvive | luna2d/lua/luastack.h:269-292 | a number pops into a QVariant of the float kind, which pushes back as nil |
| LuaStack.StrictBoolLenientNumber | luna2d/lua/luastack.h:55-104 | a string never reads as true; it reads as 0 for the numeric types unless it is numeric; a numeric string reads as its number for `float`, and as that number truncated and wrapped to 32 bits for `int` and `unsigned` |
| LuaStackOps.StoreElement | luna2d/lua/luastack.h:159-163 | one round of the vector push loop extends the table under construction by the next element at the next key |
| LuaStackOps.PushVector | luna2d/lua/luastack.h:154-164 | the createtable/push/rawseti loop leaves exactly the stack the vector push mapping describes |
| LuaStackOps.ReadElement | luna2d/lua/luastack.h:176-178 | one round of the vector pop loop reads element i from key i+1 and leaves the stack as it found it |
| LuaStackOps.PopVector | luna2d/lua/luastack.h:166-182 | the rawlen/rawgeti loop yields the vector pop's value and leaves the stack unchanged |
| LuaStackOps.StoreEntry | luna2d/lua/luastack.h:192-197 | one round of the map push loop adds the next entry's string key and pushed value to the table under construction |
| LuaStackOps.PushMap | luna2d/lua/luastack.h:188-198 | for every iteration order of the map, the pushstring/push/rawset loop leaves exactly the stack the map push mapping describes |
| LuaStackOps.MapPopDone | luna2d/lua/luastack.h:206-221 | collecting the string-keyed entries along any complete traversal order gives the map pop's value |
| LuaStackOps.ReadPair | luna2d/lua/luastack.h:211-216 | a string key adds its popped value under that key and a non-string key adds nothing; the value is then removed and the key stays for `lua_next` |
| LuaStackOps.ReadRound | luna2d/lua/luastack.h:209-217 | one `lua_next` round advances the traversal by one key and extends the result by that key's entry when the key is a string |
| LuaStackOps.TraverseTable | luna2d/lua/luastack.h:206-219 | the whole `lua_next` loop visits every key once, gathers every string-keyed entry, and leaves only the copied table above the original stack |
| LuaStackOps.PopMap | luna2d/lua/luastack.h:200-222 | for every traversal order, the map pop loop yields the map pop's value and leaves the stack unchanged |
| LunaColor.Default | luna2d/graphics/lunacolor.cpp:36-42 | the default colour has all four channels zero |
| LunaColor.ByteToFloat | luna2d/graphics/lunacolor.cpp:78-81 | a byte becomes a channel in [0, 1] that is exactly the byte divided by 255 |
| LunaColor.ChannelToByte | luna2d/graphics/lunacolor.cpp:44-62 | a channel reads as the byte `channel * 255` truncates to, and a negative channel above -1/255 reads as 0 |
| LunaColor.ByteRoundTrip | luna2d/graphics/lunacolor.cpp:44-81 | a byte turned into a channel and read back is the same byte |
| LunaColor.GetR | luna2d/graphics/lunacolor.cpp:44-47 | red reads as the byte that `r * 255` truncates to, and as 0 for a negative channel above -1/255 |
| LunaColor.GetG | luna2d/graphics/lunacolor.cpp:49-52 | green reads as the byte that `g * 255` truncates to, and as 0 for a negative channel above -1/255 |
| LunaColor.GetB | luna2d/graphics/lunacolor.cpp:54-57 | blue reads as the byte that `b * 255` truncates to, and as 0 for a negative channel above -1/255 |
| LunaColor.GetA | luna2d/graphics/lunacolor.cpp:59-62 | alpha reads as the byte that `a * 255` truncates to, and as 0 for a negative channel above -1/255 |
| LunaColor.RgbFloat | luna2d/graphics/lunacolor.cpp:90-93 | the four float channels are stored unchanged, without clamping |
| LunaColor.Rgb | luna2d/graphics/lunacolor.cpp:84-87 | each channel is stored as its byte divided by 255, so the getters read back those four bytes |
| LunaColor.RgbInjective | luna2d/graphics/lunacolor.cpp:84-87 | different byte quadruples build different colours |
| LunaColor.Pack | luna2d/graphics/lunacolor.cpp:69-72 | OR-ing the shifted bytes gives a word whose bytes, from the top, are red, green, blue, alpha |
| LunaColor.PackOfBytes | luna2d/graphics/lunacolor.cpp:65-75 | every 32-bit word is the packing of its own four bytes |
| LunaColor.GetUint32 | luna2d/graphics/lunacolor.cpp:65-75 | the packed word of a colour holds its red, green, blue and alpha bytes, most significant first |
| LunaColor.Uint32 | luna2d/graphics/lunacolor.cpp:122-130 | each channel is the word's byte at shift 24, 16, 8 or 0 divided by 255, so the getters read back the word's four bytes |
| LunaColor.Uint32RoundTrip | luna2d/graphics/lunacolor.cpp:122-130 | building a colour from a word and packing it gives the word back |
| LunaColor.GetUint32RoundTrip | luna2d/graphics/lunacolor.cpp:65-87 | packing a byte-built colour and rebuilding it from the word gives the same colour |
| LunaColor.Hex | luna2d/graphics/lunacolor.cpp:96-103 | red, green and blue read back as bytes 2, 1 and 0 of the `int`'s 32-bit two's-complement pattern, and alpha is stored as given |
| LunaColor.HexOfBytes | luna2d/graphics/lunacolor.cpp:96-103 | the integer 0xRRGGBB gives exactly the colour of bytes RR, GG, BB with the given alpha |
| LunaColor.HexIgnoresHighBits | luna2d/graphics/lunacolor.cpp:96-103 | bits above the low 24, the sign included, do not affect the colour, and alpha passes through unchanged |
| LunaColor.Strtol16 | luna2d/graphics/lunacolor.cpp:118 | the base-16 `strtol` of a string of at most six characters stays strictly within ±0x1000000 |
| LunaColor.Strtol16Digits | luna2d/graphics/lunacolor.cpp:118 | on a string of hex digits `strtol` in base 16 gives the digits' value |
| LunaColor.HexString | luna2d/graphics/lunacolor.cpp:106-119 | a string whose UTF-8 size is neither 6 nor 7 bytes, or a 7-byte one without a leading '#', gives the default colour; otherwise what follows the optional '#' is parsed in base 16 |
| LunaColor.HexStringDigits | luna2d/graphics/lunacolor.cpp:110-118 | "#" followed by six hex digits gives the colour of the digits' value |
| LunaColor.HexStringRoundTrip | luna2d/graphics/lunacolor.cpp:106-119 | writing three bytes as "#RRGGBB" and reading the string back gives the colour of those bytes with the given alpha |
| LunaColor.HexStringOfBytes | luna2d/graphics/lunacolor.cpp:106-119 | any "#" plus six hex digits denoting 0xRRGGBB reads as the colour of bytes RR, GG, BB |
| LunaColor.HexStringHashOptional | luna2d/graphics/lunacolor.cpp:108-118 | with or without the leading '#', six bytes give the same colour |
| LunaColor.Utf8LengthAscii | luna2d/graphics/lunacolor.cpp:108-112 | `size()` counts one byte per character exactly when the string is ASCII, so the size test and the character count agree on hex text |
| LunaColor.HexStringCountsBytes | luna2d/graphics/lunacolor.cpp:108-118 | three two-byte characters pass the size test and read as black with the given alpha, not as the default colour |
| LunaColor.FormatHexValue | luna2d/graphics/lunacolor.cpp:110-118 | the six digits of "#RRGGBB" written from three bytes denote 0xRRGGBB |
| LunaColor.ChannelBytes | luna2d/graphics/lunacolor.cpp:44-62 | channels 0, 0.5 and 1 read as bytes 0, 127 and 255 |
| LunaColor.NamedColorBytes | luna2d/graphics/lunacolor.cpp:133-142 | every named colour reads as the expected bytes, e.g. gray as 0x7F in each colour channel and transparent with alpha 0 |
| LunaColor.DefaultWord | luna2d/graphics/lunacolor.cpp:36-75 | the default colour packs to the word 0 |
| LunaTexture.SetReloadPath | luna2d/graphics/lunatexture.h:85-89 | the texture gets the new path and becomes reloadable, and its cache id is kept |
| LunaTexture.Reload | luna2d/graphics/lunatexture.h:91-128 | an empty path does nothing; a cached texture reads its path from the app folder once and is rebuilt from those bytes exactly when they are non-empty, else it logs; an asset texture is decoded once, as png, exactly when its extension is "png", and otherwise nothing is accessed; a rebuild uses non-empty data from that one source; any other outcome logs the fixed error message naming the path |
| LunaTexture.Cache | luna2d/graphics/lunatexture.h:130-135 | the cache id becomes the registry's answer, the path becomes the generated path for that id, and the texture is reloadable when it was or when asked to be |
| LunaTexture.GenTexturePath | luna2d/graphics/lunatexture.h:133 | the generated path is ".luna2d_gentexture_" followed by a canonical decimal numeral (no leading zero, no "-0") that reads back as the cache id |
| LunaTexture.FormatFor | luna2d/graphics/lunatexture.h:109-113 | a decoder is selected exactly for the extension "png" |
| LunaTexture.IntToDecimal | luna2d/graphics/lunatexture.h:133 | `std::to_string` of an int is a canonical numeral: digits after an optional '-', no leading zero and no "-0", with '-' exactly for negative numbers |
| LunaTexture.ParseIntToDecimal | luna2d/graphics/lunatexture.h:133 | reading the decimal text of a cache id gives the id back |
| LunaTexture.CanonicalIsToString | luna2d/graphics/lunatexture.h:133 | every canonical numeral is the `std::to_string` text of its value, so the generated name is determined by the id |
| LunaTexture.GenTexturePathInjective | luna2d/graphics/lunatexture.h:133 | two cache ids give the same generated path exactly when they are equal |
| LunaTexture.ReloadRebuildsOrLogs | luna2d/graphics/lunatexture.h:93-127 | with a reload path, exactly one of rebuild and error log happens |
| LunaTexture.GeneratedNeverDecodes | luna2d/graphics/lunatexture.h:96-127 | a cached texture whose bytes are gone logs the error after one app-folder read and never falls back to decoding an asset |
| LunaTexture.AssetReloadCondition | luna2d/graphics/lunatexture.h:106-127 | an asset texture is rebuilt exactly when its extension is png and the decoded image is non-empty |
| LunaTexture.CacheThenReload | luna2d/graphics/lunatexture.h:91-135 | if the registry answers a non-zero id and stores the bytes under its generated path, a reload after caching rebuilds from exactly the cached bytes with one app-folder read |
| LunaTexture.SetReloadPathKeepsCacheBranch | luna2d/graphics/lunatexture.h:85-104 | setting a new path on a cached texture keeps it on the cached-bytes branch, which then reads the new path |
| LunaTexture.SetReloadPathLastWins | luna2d/graphics/lunatexture.h:85-89 | setting two paths in a row is the same as setting only the last |
| LunaTexture.NewTextureSkipped | luna2d/graphics/lunatexture.h:76-93 | a texture that never got a path is skipped on reload, with no file access |
| LunaTexture.CacheWithoutReloadable | luna2d/graphics/lunatexture.h:130-135 | caching with `makeReloadable` false leaves the reloadable registration as it was; the default registers the texture |
| UpdateAndroid.PyFind | tools/DeployTool/python/update_android.py:36 | `find` of one character gives its first index, or -1 exactly when it does not occur |
| UpdateAndroid.PySliceTo | tools/DeployTool/python/update_android.py:40 | `s[:k]` counts a negative bound from the end and clamps the bound to the string |
| UpdateAndroid.GetModuleTypeAsWritten | tools/DeployTool/python/update_android.py:35-40 | a name with a dash gives the dash-free text before its first dash; a name without one loses its last character |
| UpdateAndroid.GetModuleType | tools/DeployTool/python/update_android.py:35-40 | the type never contains a dash; it is the text before the first dash, and "" for a name without a dash |
| UpdateAndroid.ModuleTypeAgreesWithDash | tools/DeployTool/python/update_android.py:35-40 | on names with a dash the script's result is the intended one |
| UpdateAndroid.ModuleTypeDashless | tools/DeployTool/python/update_android.py:36-40 | the module name "admob" gives the type "admo" as written and "" as intended |
| UpdateAndroid.ModuleTypeDiffersWithoutDash | tools/DeployTool/python/update_android.py:36-40 | a dashless name of two or more characters gives a wrong type, and a one-character name does not |
| UpdateAndroid.Entry | tools/DeployTool/python/update_android.py:33 | an entry is the module type, one dash and the classpath, each recoverable by position |
| UpdateAndroid.WithClasspaths | tools/DeployTool/python/update_android.py:28-29 | the classpath list exists afterwards: an existing entry is kept as it was, a missing one is created empty, and nothing else changes |
| UpdateAndroid.AppendClasspath | tools/DeployTool/python/update_android.py:28-33 | no key other than the classpath list changes; the call fails exactly when the list is not a list or the module's classpath is missing or not a string; a failure keeps only the created list; a success appends exactly the "<type>-<classpath>" entry after the existing ones |
| UpdateAndroid.ApplySdkModuleAsWritten | tools/DeployTool/python/update_android.py:26-33 | the script's call changes only the classpath list, fails under exactly the same conditions, and on success appends the entry built from the script's module type |
| UpdateAndroid.ApplySdkModule | tools/DeployTool/python/update_android.py:26-33 | the same call with the intended module type, appending that type's entry |
| UpdateAndroid.AppendKeepsEntries | tools/DeployTool/python/update_android.py:32-33 | on an existing list, a success grows the list by one and keeps the old entries, in order, in front |
| UpdateAndroid.ApplyTwiceOrder | tools/DeployTool/python/update_android.py:26-33 | two modules applied to a config without the list leave exactly their two entries, in application order |
| UpdateAndroid.FailureKeepsCreatedList | tools/DeployTool/python/update_android.py:28-33 | a module config without a classpath raises KeyError, and the list created before the error stays in the config |
| UpdateAndroid.EntryTypeRecoverable | tools/DeployTool/python/update_android.py:33-40 | splitting an entry at its first dash recovers the module type it was built from |

## Left out

- NUL bytes. `lua_pushstring` of `c_str()` cuts a string at its first NUL on a push, and turning the `const char*` of `lua_tostring` into a `std::string` or `QString` cuts it there on a pop (so map keys "a\0b" and "a\0c" would collide). Strings here carry no such truncation.
- Lua's own internals stay abstract: number/string coercion (`Coercion`), `lua_checkstack` and stack overflow, the registry, metatables. `lua_rawlen` is taken as the smallest border of the table, which is the only border of a proper sequence.
- The Lua number model is one real-valued number type, with `lua_Integer` wider than 32 bits. Lua 5.3's separate integer and float subtypes are not modelled, so the text `lua_tostring` gives ("3" or "3.0") is left to `Coercion`. A build with a 32-bit `lua_Integer` would push an `unsigned` of 2^31 or more as a negative number, and that is not modelled either.
- LuaStack.PopInt: `lua_tointeger` of a non-integral number is modelled as truncation toward zero, wrapped to 32 bits. The Lua 5.1 and 5.2 manuals only say such a number is truncated "in some non-specified way", and Lua 5.3 reports 0, so the truncation is an assumption.
- LuaStack.PopUnsigned: the same truncation assumption as PopInt.
- Strings are taken to be valid Unicode that converts losslessly between Lua's bytes and QString's UTF-16. `QString::toUtf8` on an unpaired surrogate and `QString(const char*)` on bytes that are not UTF-8 (which gives U+FFFD) are not modelled. The QString round trip in `LuaStack.DecodeToLua` holds only under this assumption.
- Floating point. Channels and Lua numbers are exact reals, so there is no IEEE rounding.
  - `ByteToFloat` divides exactly, and `value / 255.0f` rounding is not modelled.
  - The `float` a QVariant double is narrowed to before pushing is not modelled.
- LunaColor.ChannelToByte: a channel whose `* 255` falls outside (-1, 256) has an undefined float-to-byte conversion in C++. The getters require the channel to be in that range rather than guessing a result.
- LunaColor.Pack: `GetR() << 24` shifts into the sign bit of an `int` for red above 127. The model keeps the bit pattern the `uint32_t` receives.
- LunaColor.Strtol16: only strings of at most six characters are parsed, which is all `HexString` passes. `strtol`'s overflow clamping and `errno` are therefore not modelled.
- The default alpha of `LunaColor.RgbFloat` called with three arguments is declared in `lunacolor.h`, which is not part of this model. The named colours use the constant `DEFAULT_ALPHA`, taken to be 1.
- The `LUNAColor` member functions are modelled as functions over a `Color` value; there is no class or mutation.
- The rest of `lunatexture.h`, which the Android block does not need, is not part of this model:
  - the GL calls and constructors;
  - `InitFromImageData` (modelled only as the outcome `Reinit(data)` naming the bytes it receives);
  - `IsValid`, `Bind` and the filters;
  - `GetReloadPath`, a plain getter.
- The engine singletons are the `Engine` oracle:
  - `SharedFiles` is the compressed-file reader and the extension getter;
  - `SharedAssets` is the texture-cache registry;
  - `LUNAImage` with the png format is the image decoder.
  The texture's reloadable registration is a field of the texture.
- LunaTexture.CacheThenReload: how the registry stores bytes is not visible here. The lemma assumes the registry answers a non-zero id and stores the bytes under that id's generated path.
- LunaTexture.Cache: the registry's choice of id is an oracle, so the registry's promise to reuse a prior id is not stated.
- The logging call and its formatting are reduced to the message string.
- `update_android.py`:
  - The `args` parameter of `apply_sdk_module` is unused and omitted.
  - `module_name` is taken to be a string.
  - Python object aliasing (the list shared with other references) is not modelled.
- Other parts of the repository are not modelled: the framebuffer, the font generator, the platform shells and service adapters, and the platform utilities.

## Findings

| source | as written | input that shows it | evidently intended | confidence | as-written member | corrected member |
|---|---|---|---|---|---|---|
| tools/DeployTool/python/update_android.py:36-40 | `find` answers -1 (never None) for a name without "-", so the `is None` branch is dead and the slice `[:-1]` drops the last character | module name "admob" gives the type "admo" and the entry "admo-<classpath>" (`UpdateAndroid.ModuleTypeDashless`) | a name without "-" has the empty type, as the `is None` branch returns "" | not executed; the dead branch is certain, the intended value is inferred from it | UpdateAndroid.GetModuleTypeAsWritten | UpdateAndroid.GetModuleType |
