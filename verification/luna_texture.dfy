/** The Android-only part of luna2d/graphics/lunatexture.h: when the GL
    context is lost every reloadable texture is rebuilt, either from the
    compressed bytes an earlier `Cache` call stored in the application folder
    (a generated texture) or by decoding its image asset again. The texture's
    Android state is the triple (reloadPath, cacheId, reloadable); the engine
    singletons it talks to are an oracle. */
module LunaTexture {
  import opened Wrappers

  type Bytes = seq<bv8>

  /** The Android fields of a texture. `reloadable` stands for membership in
      the asset manager's set of reloadable assets. */
  datatype Texture = Texture(reloadPath: string, cacheId: int, reloadable: bool)

  /** A freshly constructed texture: no path, no cache entry, not reloadable. */
  const NEW_TEXTURE := Texture("", 0, false)

  /** Image formats the engine can decode. */
  datatype ImageFormat = Png

  /** The engine services the texture calls; none of them is modelled here.
      `decodeImage` answers None for an empty image. `cacheTexture` is the
      asset manager's registry: given the bytes and the previous cache id it
      answers the id the bytes are now cached under. */
  datatype Engine = Engine(
    readCompressedFile: string -> Bytes,
    getExtension: string -> string,
    decodeImage: (string, ImageFormat) -> Option<Bytes>,
    cacheTexture: (Bytes, int) -> int)

  /** Where a reload looked for data. */
  datatype Access = ReadAppFolder(path: string) | DecodeAsset(path: string, format: ImageFormat)

  /** How a reload ended: nothing to do, the texture was rebuilt from the
      given pixel data, or an error was logged. */
  datatype Outcome = Skipped | Reinit(data: Bytes) | LogError(message: string)

  datatype Reloaded = Reloaded(accesses: seq<Access>, outcome: Outcome)

  /** The only extension that selects a decoder. */
  function FormatFor(ext: string): (r: Option<ImageFormat>)
    ensures r.Some? <==> ext == "png"
  {
    if ext == "png" then Some(Png) else None
  }

  /** The message logged when neither source yields data. */
  function ReloadError(path: string): string {
    "Cannot reload texture from path \"" + path + "\""
  }

  /** `SetReloadPath`: remember the path and register the texture as
      reloadable; the cache id is kept. */
  function SetReloadPath(t: Texture, path: string): (r: Texture)
    ensures r.reloadPath == path && r.reloadable
    ensures r.cacheId == t.cacheId
  {
    t.(reloadPath := path, reloadable := true)
  }

  /** `Reload`. A texture with a cache id is rebuilt only from its cached
      bytes; one without is rebuilt only by decoding a png asset. */
  function Reload(eng: Engine, t: Texture): (r: Reloaded)
    ensures r.outcome.Skipped? <==> t.reloadPath == ""
    ensures r.outcome.Skipped? ==> r.accesses == []
    ensures t.cacheId != 0 ==> forall a :: a in r.accesses ==> a == ReadAppFolder(t.reloadPath)
    ensures t.cacheId == 0 ==> forall a :: a in r.accesses ==> a == DecodeAsset(t.reloadPath, Png)
    ensures r.outcome.Reinit? ==> |r.outcome.data| > 0
    ensures r.outcome.Reinit? && t.cacheId != 0 ==>
      r.outcome.data == eng.readCompressedFile(t.reloadPath)
    ensures r.outcome.Reinit? && t.cacheId == 0 ==>
      eng.getExtension(t.reloadPath) == "png" && eng.decodeImage(t.reloadPath, Png) == Some(r.outcome.data)
    ensures r.outcome.LogError? ==> r.outcome.message == ReloadError(t.reloadPath)
    ensures t.reloadPath != "" && t.cacheId == 0 ==>
      r.accesses == if eng.getExtension(t.reloadPath) == "png" then [DecodeAsset(t.reloadPath, Png)] else []
    ensures t.reloadPath != "" && t.cacheId != 0 ==>
      var data := eng.readCompressedFile(t.reloadPath);
      r == Reloaded([ReadAppFolder(t.reloadPath)], if |data| > 0 then Reinit(data) else LogError(ReloadError(t.reloadPath)))
  {
    var path := t.reloadPath;
    if path == "" then Reloaded([], Skipped)
    else if t.cacheId != 0 then
      var data := eng.readCompressedFile(path);
      Reloaded([ReadAppFolder(path)], if |data| > 0 then Reinit(data) else LogError(ReloadError(path)))
    else
      match FormatFor(eng.getExtension(path))
      case None => Reloaded([], LogError(ReloadError(path)))
      case Some(format) =>
        var image := eng.decodeImage(path, format);
        var outcome := if image.Some? && |image.value| > 0 then Reinit(image.value) else LogError(ReloadError(path));
        Reloaded([DecodeAsset(path, format)], outcome)
  }

  /** `Cache`: register the bytes with the asset manager, point the reload
      path at the generated name for the returned id and, unless asked not
      to, register the texture as reloadable. */
  function Cache(eng: Engine, t: Texture, data: Bytes, makeReloadable: bool := true): (r: Texture)
    ensures r.cacheId == eng.cacheTexture(data, t.cacheId)
    ensures r.reloadPath == GenTexturePath(r.cacheId)
    ensures r.reloadable <==> t.reloadable || makeReloadable
  {
    var id := eng.cacheTexture(data, t.cacheId);
    Texture(GenTexturePath(id), id, t.reloadable || makeReloadable)
  }

  /** The file-name prefix of a cached texture's bytes. */
  const GEN_TEXTURE_PREFIX := ".luna2d_gentexture_"

  /** The reload path of the texture cached under `id`: the prefix followed
      by the decimal text of the id, which reads back as the id. */
  function GenTexturePath(id: int): (p: string)
    ensures |p| > |GEN_TEXTURE_PREFIX| && p[..|GEN_TEXTURE_PREFIX|] == GEN_TEXTURE_PREFIX
    ensures CanonicalNumeral(p[|GEN_TEXTURE_PREFIX|..]) && ParseInt(p[|GEN_TEXTURE_PREFIX|..]) == id
  {
    ParseIntToDecimal(id);
    GEN_TEXTURE_PREFIX + IntToDecimal(id)
  }

  // ---------------------------------------------------------------------
  // std::to_string on an int and its inverse

  predicate IsDigit(c: char) {
    '0' <= c <= '9'
  }

  function DigitChar(d: nat): (c: char)
    requires d < 10
    ensures IsDigit(c)
  {
    ('0' as int + d) as char
  }

  /** The decimal digits of a natural number, without leading zeros. */
  function NatToDecimal(n: nat): (s: string)
    ensures |s| > 0 && forall i :: 0 <= i < |s| ==> IsDigit(s[i])
    ensures |s| > 1 ==> s[0] != '0'
  {
    if n < 10 then [DigitChar(n)] else NatToDecimal(n / 10) + [DigitChar(n % 10)]
  }

  /** `std::to_string(int)`: a minus sign before the magnitude's digits. */
  function IntToDecimal(n: int): (s: string)
    ensures CanonicalNumeral(s)
    ensures s[0] == '-' <==> n < 0
  {
    if n < 0 then "-" + NatToDecimal(-n) else NatToDecimal(n)
  }

  /** The value of a string of decimal digits. */
  function ParseNat(s: string): nat
    requires forall i :: 0 <= i < |s| ==> IsDigit(s[i])
  {
    if |s| == 0 then 0
    else
      assert IsDigit(s[|s| - 1]);
      ParseNat(s[..|s| - 1]) * 10 + (s[|s| - 1] as int - '0' as int)
  }

  /** Decimal digits, optionally after a leading minus sign. */
  predicate DecimalNumeral(s: string) {
    |s| > 0 && forall i :: 0 <= i < |s| ==> IsDigit(s[i]) || (i == 0 && s[i] == '-')
  }

  /** The form `std::to_string` writes: no leading zero, and no "-0". */
  predicate CanonicalNumeral(s: string) {
    && DecimalNumeral(s)
    && (s[0] == '-' ==> |s| > 1 && s[1] != '0')
    && (s[0] != '-' && |s| > 1 ==> s[0] != '0')
  }

  /** The value of an optionally negative decimal numeral. */
  function ParseInt(s: string): int
    requires DecimalNumeral(s)
  {
    var magnitude: int := if s[0] == '-' then ParseNat(s[1..]) else ParseNat(s);
    if s[0] == '-' then -magnitude else magnitude
  }

  lemma {:induction false} ParseNatToDecimal(n: nat)
    ensures ParseNat(NatToDecimal(n)) == n
  {
    var s := NatToDecimal(n);
    if n >= 10 {
      ParseNatToDecimal(n / 10);
      assert s[..|s| - 1] == NatToDecimal(n / 10);
    }
  }

  /** Parsing undoes `IntToDecimal`. */
  lemma ParseIntToDecimal(n: int)
    ensures ParseInt(IntToDecimal(n)) == n
  {
    if n < 0 {
      ParseNatToDecimal(-n);
      assert IntToDecimal(n)[1..] == NatToDecimal(-n);
    } else {
      ParseNatToDecimal(n);
    }
  }

  /** A numeral of zeros only reads as 0. */
  lemma {:induction false} ParseNatZero(s: string)
    requires forall i :: 0 <= i < |s| ==> IsDigit(s[i])
    requires ParseNat(s) == 0
    ensures forall i :: 0 <= i < |s| ==> s[i] == '0'
  {
    if |s| > 0 {
      ParseNatZero(s[..|s| - 1]);
    }
  }

  /** Digits without a leading zero are the decimal text of their value. */
  lemma {:induction false} NatDecimalUnique(s: string)
    requires |s| > 0 && forall i :: 0 <= i < |s| ==> IsDigit(s[i])
    requires |s| > 1 ==> s[0] != '0'
    ensures NatToDecimal(ParseNat(s)) == s
  {
    var n := ParseNat(s);
    var init := s[..|s| - 1];
    var d := s[|s| - 1] as int - '0' as int;
    if |s| == 1 {
      assert init == [];
      assert ParseNat(init) == 0;
      assert n == ParseNat(init) * 10 + d;
      assert DigitChar(d) == s[0];
    } else {
      assert init[0] == s[0];
      if ParseNat(init) == 0 {
        ParseNatZero(init);
        assert false;
      }
      NatDecimalUnique(init);
      assert n / 10 == ParseNat(init) && n % 10 == d;
      assert DigitChar(d) == s[|s| - 1];
      assert s == init + [s[|s| - 1]];
    }
  }

  /** A canonical numeral is the `std::to_string` text of its value, so the
      suffix of a generated path is determined by the cache id. */
  lemma CanonicalIsToString(s: string)
    requires CanonicalNumeral(s)
    ensures IntToDecimal(ParseInt(s)) == s
  {
    if s[0] == '-' {
      var m := s[1..];
      assert m[0] == s[1];
      NatDecimalUnique(m);
      assert ParseNat(m) > 0 by {
        if ParseNat(m) == 0 {
          ParseNatZero(m);
          assert false;
        }
      }
      assert s == "-" + m;
    } else {
      NatDecimalUnique(s);
    }
  }

  /** Distinct cache ids give distinct generated paths, so two generated
      textures never reload each other's bytes. */
  lemma GenTexturePathInjective(a: int, b: int)
    ensures GenTexturePath(a) == GenTexturePath(b) <==> a == b
  {
  }

  // ---------------------------------------------------------------------
  // Properties relating the operations

  /** Exactly one of rebuild and error log happens for a texture that has a
      reload path. */
  lemma ReloadRebuildsOrLogs(eng: Engine, t: Texture)
    requires t.reloadPath != ""
    ensures Reload(eng, t).outcome.Reinit? != Reload(eng, t).outcome.LogError?
  {
  }

  /** A generated texture never falls back to its assets: when its cached
      bytes are gone the error is logged even if a png decoder could read
      the path. */
  lemma GeneratedNeverDecodes(eng: Engine, t: Texture)
    requires t.reloadPath != "" && t.cacheId != 0
    requires eng.readCompressedFile(t.reloadPath) == []
    ensures Reload(eng, t) == Reloaded([ReadAppFolder(t.reloadPath)], LogError(ReloadError(t.reloadPath)))
  {
  }

  /** An asset texture is rebuilt exactly when its extension is png and the
      decoded image is non-empty. */
  lemma AssetReloadCondition(eng: Engine, t: Texture)
    requires t.reloadPath != "" && t.cacheId == 0
    ensures Reload(eng, t).outcome.Reinit? <==>
      eng.getExtension(t.reloadPath) == "png" &&
      var image := eng.decodeImage(t.reloadPath, Png); image.Some? && |image.value| > 0
  {
  }

  /** Caching and then losing the context gives back the cached pixels,
      provided the registry hands out a non-zero id and stores the bytes
      under that id's generated path. */
  lemma CacheThenReload(eng: Engine, t: Texture, data: Bytes, makeReloadable: bool)
    requires |data| > 0
    requires eng.cacheTexture(data, t.cacheId) != 0
    requires eng.readCompressedFile(GenTexturePath(eng.cacheTexture(data, t.cacheId))) == data
    ensures Reload(eng, Cache(eng, t, data, makeReloadable)).outcome == Reinit(data)
    ensures Reload(eng, Cache(eng, t, data, makeReloadable)).accesses ==
      [ReadAppFolder(GenTexturePath(eng.cacheTexture(data, t.cacheId)))]
  {
    var c := Cache(eng, t, data, makeReloadable);
    assert c.reloadPath != "" by {
      assert c.reloadPath[0] == '.';
    }
  }

  /** Pointing a cached texture at another path keeps it on the cached-bytes
      branch: it then reads the new path from the application folder. */
  lemma SetReloadPathKeepsCacheBranch(eng: Engine, t: Texture, path: string)
    requires t.cacheId != 0 && path != ""
    ensures Reload(eng, SetReloadPath(t, path)).accesses == [ReadAppFolder(path)]
  {
  }

  /** Setting the same path twice is the same as setting it once, and the
      last path set wins. */
  lemma SetReloadPathLastWins(t: Texture, p: string, q: string)
    ensures SetReloadPath(SetReloadPath(t, p), q) == SetReloadPath(t, q)
  {
  }

  /** A texture that was never given a path is skipped on reload. */
  lemma NewTextureSkipped(eng: Engine)
    ensures Reload(eng, NEW_TEXTURE) == Reloaded([], Skipped)
  {
  }

  /** `Cache(data, false)` leaves the reloadable registration as it was. */
  lemma CacheWithoutReloadable(eng: Engine, t: Texture, data: Bytes)
    ensures Cache(eng, t, data, false).reloadable == t.reloadable
    ensures Cache(eng, t, data).reloadable
  {
  }
}
