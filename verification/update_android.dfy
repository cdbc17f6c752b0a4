/** The Android step of the deploy tool's SDK-module handling
    (tools/DeployTool/python/update_android.py): every SDK module a game uses
    contributes one "<type>-<classpath>" entry to the "sdkmodules-classpath"
    list of the game config, where the type is the part of the module's name
    before its first dash. Python's dictionaries, lists, `str.find` and
    slicing are modelled as far as the script uses them. */
module UpdateAndroid {
  import opened Wrappers

  /** The JSON-like values a game config holds. */
  datatype PyValue =
    | PyNone
    | PyBool(b: bool)
    | PyInt(i: int)
    | PyStr(s: string)
    | PyList(items: seq<PyValue>)
    | PyDict(entries: map<string, PyValue>)

  type Config = map<string, PyValue>

  /** The exceptions the script can raise: a missing key, concatenating a
      string with a non-string, calling `append` on a non-list. */
  datatype PyError = KeyError(key: string) | TypeError | AttributeError

  /** The config after the call (the script edits it in place, so changes
      made before an exception remain) and the exception raised, if any. */
  datatype Applied = Applied(config: Config, error: Option<PyError>)

  const CLASSPATHS := "sdkmodules-classpath"
  const CLASSPATH := "classpath"

  // ---------------------------------------------------------------------
  // Python string primitives

  /** `s.find(c)` for a one-character needle: the first index of `c`, or -1. */
  function PyFind(s: string, c: char): (r: int)
    ensures r == -1 <==> c !in s
    ensures r != -1 ==> 0 <= r < |s| && s[r] == c && c !in s[..r]
  {
    if |s| == 0 then -1
    else if s[0] == c then 0
    else
      var rest := PyFind(s[1..], c);
      if rest == -1 then -1
      else
        assert s[..rest + 1] == [s[0]] + s[1..][..rest];
        rest + 1
  }

  /** `s[:k]`: a negative bound counts from the end, and the bound is then
      clamped to the string. */
  function PySliceTo(s: string, k: int): (r: string)
    ensures 0 <= k <= |s| ==> r == s[..k]
    ensures -|s| <= k < 0 ==> r == s[..|s| + k]
    ensures k > |s| ==> r == s
    ensures k < -|s| ==> r == ""
  {
    var end := if k < 0 then |s| + k else k;
    if end < 0 then "" else if end > |s| then s else s[..end]
  }

  // ---------------------------------------------------------------------
  // get_module_type

  /** `get_module_type` as written. `find` answers -1, never None, for a
      name without a dash, so the `is None` test never holds and such a name
      loses its last character to the slice `[:-1]`. */
  function GetModuleTypeAsWritten(name: string): (r: string)
    ensures '-' in name ==> '-' !in r && |r| < |name| && name[..|r| + 1] == r + "-"
    ensures '-' !in name && |name| > 0 ==> r == name[..|name| - 1]
    ensures name == "" ==> r == ""
  {
    var dashPos := PyFind(name, '-');
    PySliceTo(name, dashPos)
  }

  /** `get_module_type` as its `is None` branch shows it was meant: the part
      of the name before its first dash, and "" when there is no dash. */
  function GetModuleType(name: string): (r: string)
    ensures '-' !in r
    ensures '-' in name ==> |r| < |name| && name[..|r| + 1] == r + "-"
    ensures '-' !in name ==> r == ""
  {
    var dashPos := PyFind(name, '-');
    if dashPos == -1 then "" else name[..dashPos]
  }

  /** The two agree on every name that has a dash. */
  lemma ModuleTypeAgreesWithDash(name: string)
    requires '-' in name
    ensures GetModuleTypeAsWritten(name) == GetModuleType(name)
  {
  }

  /** The discrepancy: a dashless module name keeps all but its last
      character instead of yielding the empty type. */
  lemma ModuleTypeDashless()
    ensures GetModuleTypeAsWritten("admob") == "admo"
    ensures GetModuleType("admob") == ""
  {
    assert '-' !in "admob";
  }

  /** Without a dash the as-written type is never the intended one unless
      the name is empty. */
  lemma ModuleTypeDiffersWithoutDash(name: string)
    requires '-' !in name && name != ""
    ensures GetModuleTypeAsWritten(name) != GetModuleType(name) <==> |name| > 1
  {
  }

  // ---------------------------------------------------------------------
  // apply_sdk_module

  /** The entry a module of the given type contributes: the type, a dash,
      and the classpath. */
  function Entry(moduleType: string, classpath: string): (e: string)
    ensures |e| == |moduleType| + 1 + |classpath|
    ensures e[..|moduleType|] == moduleType && e[|moduleType|] == '-' && e[|moduleType| + 1..] == classpath
  {
    moduleType + "-" + classpath
  }

  /** The config once the classpath list is guaranteed to exist. */
  function WithClasspaths(config: Config): (r: Config)
    ensures CLASSPATHS in r
    ensures r.Keys == config.Keys + {CLASSPATHS}
    ensures CLASSPATHS in config ==> r == config
    ensures CLASSPATHS !in config ==> r[CLASSPATHS] == PyList([])
    ensures forall k :: k in config && k != CLASSPATHS ==> r[k] == config[k]
  {
    if CLASSPATHS !in config then config[CLASSPATHS := PyList([])] else config
  }

  /** The call goes through: the classpath list is absent or a list, and
      the module config has a string classpath. */
  predicate Appendable(config: Config, moduleConfig: map<string, PyValue>) {
    (CLASSPATHS !in config || config[CLASSPATHS].PyList?) &&
    CLASSPATH in moduleConfig && moduleConfig[CLASSPATH].PyStr?
  }

  /** The entries already listed, none when the list is absent. */
  function Existing(config: Config): seq<PyValue>
    requires CLASSPATHS !in config || config[CLASSPATHS].PyList?
  {
    if CLASSPATHS in config then config[CLASSPATHS].items else []
  }

  /** The body of `apply_sdk_module` once the module type is known: make
      sure the list exists, then append the module's entry. Python looks up
      `append` before it evaluates the argument, so a non-list fails before
      the module config is consulted. */
  function AppendClasspath(config: Config, moduleType: string, moduleConfig: map<string, PyValue>): (r: Applied)
    ensures r.config.Keys == config.Keys + {CLASSPATHS}
    ensures forall k :: k in config && k != CLASSPATHS ==> r.config[k] == config[k]
    ensures r.error.None? <==> Appendable(config, moduleConfig)
    ensures r.error.Some? ==> r.config == WithClasspaths(config)
    ensures r.error.None? ==>
      r.config[CLASSPATHS] == PyList(Existing(config) + [PyStr(Entry(moduleType, moduleConfig[CLASSPATH].s))])
  {
    var prepared := WithClasspaths(config);
    var target := prepared[CLASSPATHS];
    if !target.PyList? then Applied(prepared, Some(AttributeError))
    else if CLASSPATH !in moduleConfig then Applied(prepared, Some(KeyError(CLASSPATH)))
    else if !moduleConfig[CLASSPATH].PyStr? then Applied(prepared, Some(TypeError))
    else
      var entry := PyStr(Entry(moduleType, moduleConfig[CLASSPATH].s));
      Applied(prepared[CLASSPATHS := PyList(target.items + [entry])], None)
  }

  /** `apply_sdk_module` with the module type the script computes. The
      `args` parameter is unused by the script and omitted. */
  function ApplySdkModuleAsWritten(moduleName: string, config: Config, moduleConfig: map<string, PyValue>): (r: Applied)
    ensures r.config.Keys == config.Keys + {CLASSPATHS}
    ensures forall k :: k in config && k != CLASSPATHS ==> r.config[k] == config[k]
    ensures r.error.None? <==> Appendable(config, moduleConfig)
    ensures r.error.None? ==>
      r.config[CLASSPATHS] == PyList(Existing(config) + [PyStr(Entry(GetModuleTypeAsWritten(moduleName), moduleConfig[CLASSPATH].s))])
    ensures r.error.Some? ==> r.config == WithClasspaths(config)
  {
    AppendClasspath(config, GetModuleTypeAsWritten(moduleName), moduleConfig)
  }

  /** `apply_sdk_module` with the intended module type. */
  function ApplySdkModule(moduleName: string, config: Config, moduleConfig: map<string, PyValue>): (r: Applied)
    ensures r.config.Keys == config.Keys + {CLASSPATHS}
    ensures forall k :: k in config && k != CLASSPATHS ==> r.config[k] == config[k]
    ensures r.error.None? <==> Appendable(config, moduleConfig)
    ensures r.error.None? ==>
      r.config[CLASSPATHS] == PyList(Existing(config) + [PyStr(Entry(GetModuleType(moduleName), moduleConfig[CLASSPATH].s))])
    ensures r.error.Some? ==> r.config == WithClasspaths(config)
  {
    AppendClasspath(config, GetModuleType(moduleName), moduleConfig)
  }

  // ---------------------------------------------------------------------
  // Properties

  /** A successful call grows the list by exactly one entry and keeps the
      existing entries, in order, in front of it. */
  lemma AppendKeepsEntries(moduleName: string, config: Config, moduleConfig: map<string, PyValue>)
    requires CLASSPATHS in config && config[CLASSPATHS].PyList?
    requires CLASSPATH in moduleConfig && moduleConfig[CLASSPATH].PyStr?
    ensures var r := ApplySdkModule(moduleName, config, moduleConfig);
      r.error.None? && r.config[CLASSPATHS].PyList? &&
      |r.config[CLASSPATHS].items| == |config[CLASSPATHS].items| + 1 &&
      r.config[CLASSPATHS].items[..|config[CLASSPATHS].items|] == config[CLASSPATHS].items
  {
    var r := ApplySdkModule(moduleName, config, moduleConfig);
    var before := config[CLASSPATHS].items;
    assert r.config[CLASSPATHS].items == before + [PyStr(Entry(GetModuleType(moduleName), moduleConfig[CLASSPATH].s))];
  }

  /** Two modules applied one after the other leave their entries in the
      order they were applied. */
  lemma ApplyTwiceOrder(a: string, b: string, config: Config, ca: map<string, PyValue>, cb: map<string, PyValue>)
    requires CLASSPATHS !in config
    requires CLASSPATH in ca && ca[CLASSPATH].PyStr?
    requires CLASSPATH in cb && cb[CLASSPATH].PyStr?
    ensures var first := ApplySdkModule(a, config, ca);
      var second := ApplySdkModule(b, first.config, cb);
      second.error.None? &&
      second.config[CLASSPATHS] == PyList([PyStr(Entry(GetModuleType(a), ca[CLASSPATH].s)),
                                            PyStr(Entry(GetModuleType(b), cb[CLASSPATH].s))])
  {
    var first := ApplySdkModule(a, config, ca);
    assert first.config[CLASSPATHS] == PyList([PyStr(Entry(GetModuleType(a), ca[CLASSPATH].s))]);
  }

  /** A failed call still leaves the list it created behind. */
  lemma FailureKeepsCreatedList(moduleName: string, config: Config, moduleConfig: map<string, PyValue>)
    requires CLASSPATHS !in config && CLASSPATH !in moduleConfig
    ensures ApplySdkModule(moduleName, config, moduleConfig) ==
      Applied(config[CLASSPATHS := PyList([])], Some(KeyError(CLASSPATH)))
  {
  }

  /** With the intended type, the entry's own type is the module's type: a
      reader splitting the entry at its first dash recovers it. */
  lemma EntryTypeRecoverable(moduleName: string, classpath: string)
    ensures GetModuleType(Entry(GetModuleType(moduleName), classpath)) == GetModuleType(moduleName)
  {
    var t := GetModuleType(moduleName);
    var e := Entry(t, classpath);
    assert e[..|t| + 1] == t + "-";
  }
}
