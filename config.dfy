/** app/config.py: generation settings read from the process environment,
    which is modelled as a map from variable name to value. */
module Config {
  import opened Text

  type Env = map<string, string>

  predicate IsDigit(c: char) { '0' <= c <= '9' }

  /** The digits of a Python integer literal: decimal digits, with single
      underscores allowed between two digits ("1_000"). */
  predicate IsDigitGroup(d: string)
  {
    && |d| > 0
    && IsDigit(d[0])
    && IsDigit(d[|d| - 1])
    && forall i :: 0 <= i < |d| ==> IsDigit(d[i]) || (d[i] == '_' && i + 1 < |d| && IsDigit(d[i + 1]))
  }

  /** The value of a digit group, underscores ignored. */
  function DigitsValue(d: string): nat
  {
    if d == [] then 0
    else
      var last := d[|d| - 1];
      if IsDigit(last) then 10 * DigitsValue(d[..|d| - 1]) + (last as int - '0' as int)
      else DigitsValue(d[..|d| - 1])
  }

  /** An optional sign, then a digit group. */
  predicate IsIntLiteral(t: string)
  {
    IsDigitGroup(t) || (|t| > 0 && (t[0] == '-' || t[0] == '+') && IsDigitGroup(t[1..]))
  }

  /** The sign and digits of a Python integer with no surrounding
      whitespace; `None` where Python raises ValueError. */
  function ParseTrimmedInt(t: string): (r: Option<int>)
    ensures r.Some? <==> IsIntLiteral(t)
    ensures r.Some? && r.value < 0 ==> t[0] == '-'
  {
    if |t| > 0 && (t[0] == '-' || t[0] == '+') then
      var d := t[1..];
      if IsDigitGroup(d) then Some(if t[0] == '-' then -(DigitsValue(d) as int) else DigitsValue(d))
      else None
    else if IsDigitGroup(t) then Some(DigitsValue(t))
    else None
  }

  /** The whitespace `int()` skips around a number: CPython first turns
      each non-ASCII whitespace character into a space, then skips only
      " \t\n\v\f\r". The ASCII separators U+001C..U+001F, which
      `str.isspace` accepts, are therefore not skipped. */
  predicate IsIntSpace(c: char)
  {
    IsSpace(c) && !('\U{1C}' <= c <= '\U{1F}')
  }

  /** Python's `int(s)` on a string. */
  function ParseInt(s: string): (r: Option<int>)
    ensures r.Some? <==> IsIntLiteral(StripBy(s, IsIntSpace))
    ensures |s| > 0 && '\U{1C}' <= s[0] <= '\U{1F}' ==> r.None?
  {
    var t := StripBy(s, IsIntSpace);
    assert |s| > 0 && '\U{1C}' <= s[0] <= '\U{1F}' ==> |t| > 0 && t[0] == s[0] by {
      var b := StripBounds(s, IsIntSpace);
      assert |s| > 0 && '\U{1C}' <= s[0] <= '\U{1F}' ==> b.0 == 0 && b.1 > 0;
    }
    ParseTrimmedInt(t)
  }

  /** The value of digits separated by one underscore is the value of the
      digits alone. */
  lemma {:induction false} DigitsValueUnderscore(a: string, b: string)
    ensures DigitsValue(a + "_" + b) == DigitsValue(a + b)
    decreases |b|
  {
    var s, t := a + "_" + b, a + b;
    if b == [] {
      assert s[..|s| - 1] == a && t == a;
    } else {
      var init := b[..|b| - 1];
      DigitsValueUnderscore(a, init);
      assert s[..|s| - 1] == a + "_" + init && s[|s| - 1] == b[|b| - 1];
      assert t[..|t| - 1] == a + init && t[|t| - 1] == b[|b| - 1];
    }
  }

  /** Two digit groups joined directly or by one underscore form a digit
      group. */
  lemma DigitGroupJoin(a: string, u: string, b: string)
    requires IsDigitGroup(a) && IsDigitGroup(b) && (u == "" || u == "_")
    ensures IsDigitGroup(a + u + b)
  {
    var s := a + u + b;
    forall i | 0 <= i < |s|
      ensures IsDigit(s[i]) || (s[i] == '_' && i + 1 < |s| && IsDigit(s[i + 1]))
    {
      if i < |a| {
        assert s[i] == a[i];
        if i + 1 < |a| {
          assert s[i + 1] == a[i + 1];
        }
      } else if i < |a| + |u| {
        assert s[i] == '_' && s[i + 1] == b[0];
      } else {
        var k := i - |a| - |u|;
        assert s[i] == b[k];
        if k + 1 < |b| {
          assert s[i + 1] == b[k + 1];
        }
      }
    }
    assert s[0] == a[0] && s[|s| - 1] == b[|b| - 1];
  }

  /** A single underscore between two digit groups is accepted and
      ignored. */
  lemma UnderscoreAccepted(a: string, b: string)
    requires IsDigitGroup(a) && IsDigitGroup(b)
    ensures ParseTrimmedInt(a + "_" + b) == ParseTrimmedInt(a + b) == Some(DigitsValue(a + b))
  {
    DigitGroupJoin(a, "_", b);
    DigitGroupJoin(a, "", b);
    assert a + "" + b == a + b;
    DigitsValueUnderscore(a, b);
    assert (a + "_" + b)[0] == a[0] && (a + b)[0] == a[0];
  }

  /** A doubled, leading or trailing underscore is rejected. */
  lemma UnderscoreRejected(a: string, b: string)
    requires IsDigitGroup(a)
    ensures ParseTrimmedInt(a + "__" + b) == None
    ensures ParseTrimmedInt("_" + a) == None && ParseTrimmedInt(a + "_") == None
  {
    var d := a + "__" + b;
    assert d[0] == a[0] && d[|a|] == '_' && d[|a| + 1] == '_';
    assert !IsDigitGroup(d);
    var e := a + "_";
    assert e[0] == a[0] && e[|e| - 1] == '_';
    assert ("_" + a)[0] == '_';
  }

  function DigitChar(n: nat): char
    requires n < 10
  {
    ('0' as int + n) as char
  }

  /** Python's `str(n)` for a natural number. */
  function ShowNat(n: nat): (r: string)
    ensures |r| > 0 && forall i :: 0 <= i < |r| ==> IsDigit(r[i])
  {
    if n < 10 then [DigitChar(n)] else ShowNat(n / 10) + [DigitChar(n % 10)]
  }

  /** Python's `str(n)`. */
  function ShowInt(n: int): string
  {
    if n < 0 then "-" + ShowNat(-n) else ShowNat(n)
  }

  /** Reading back the digits of `str(n)` gives `n`. */
  lemma {:induction false} ShowNatValue(n: nat)
    ensures IsDigitGroup(ShowNat(n)) && DigitsValue(ShowNat(n)) == n
  {
    var r := ShowNat(n);
    if n >= 10 {
      ShowNatValue(n / 10);
      assert r[..|r| - 1] == ShowNat(n / 10);
    }
  }

  /** `int(str(n)) == n`. */
  lemma ParseShowInt(n: int)
    ensures ParseInt(ShowInt(n)) == Some(n)
  {
    var s := ShowInt(n);
    var m := if n < 0 then -n else n;
    ShowNatValue(m);
    var d := ShowNat(m);
    assert s[|s| - 1] == d[|d| - 1];
    StripByStripped(s, IsIntSpace);
    if n < 0 {
      assert s[1..] == d;
      assert ParseTrimmedInt(s) == Some(n);
    } else {
      assert ParseTrimmedInt(s) == Some(n);
    }
  }

  /** `_get_env_int`: the default when the variable is absent or is not an
      integer. */
  function GetEnvInt(env: Env, name: string, default: int): (r: int)
    ensures name !in env ==> r == default
    ensures name in env && ParseInt(env[name]).None? ==> r == default
    ensures name in env && ParseInt(env[name]).Some? ==> r == ParseInt(env[name]).value
  {
    if name !in env then default
    else match ParseInt(env[name])
      case Some(v) => v
      case None => default
  }

  /** A variable set to `str(n)` is read back as `n`. */
  lemma GetEnvIntShown(env: Env, name: string, n: int, default: int)
    ensures GetEnvInt(env[name := ShowInt(n)], name, default) == n
  {
    ParseShowInt(n);
  }

  /** ASCII lower-casing. Among non-ASCII characters Python's `str.lower`
      takes the Kelvin sign to "k" and U+0130 to "i" followed by U+0307; no
      accepted word contains "k" or U+0307, so this decides membership in
      `TrueWords` as `str.lower` does. */
  function Lower(s: string): (r: string)
    ensures |r| == |s|
    ensures forall i :: 0 <= i < |s| ==> r[i] == if 'A' <= s[i] <= 'Z' then (s[i] as int + 32) as char else s[i]
  {
    if s == [] then []
    else [if 'A' <= s[0] <= 'Z' then (s[0] as int + 32) as char else s[0]] + Lower(s[1..])
  }

  const TrueWords: set<string> := {"1", "true", "t", "yes", "y", "on"}

  /** `_get_env_bool`: absent gives the default; present gives true exactly
      for an accepted word, whatever the default. */
  function GetEnvBool(env: Env, name: string, default: bool): (r: bool)
    ensures name !in env ==> r == default
    ensures name in env ==> (r <==> Lower(Strip(env[name])) in TrueWords)
  {
    if name !in env then default else Lower(Strip(env[name])) in TrueWords
  }

  /** Lower-casing neither adds nor hides whitespace at the ends: a string
      whose lower-cased form is stripped is stripped itself. */
  lemma LowerStripped(s: string)
    requires IsStripped(Lower(s))
    ensures IsStripped(s)
  {
    if |s| > 0 {
      var w := Lower(s);
      assert 'A' <= s[0] <= 'Z' || w[0] == s[0];
      assert 'A' <= s[|s| - 1] <= 'Z' || w[|w| - 1] == s[|s| - 1];
    }
  }

  /** No accepted word starts or ends with whitespace. */
  lemma TrueWordsStripped(t: string)
    requires t in TrueWords
    ensures IsStripped(t)
  {
    assert t == "1" || t == "true" || t == "t" || t == "yes" || t == "y" || t == "on";
    assert t[0] in "1tyo" && t[|t| - 1] in "1etsyn";
  }

  /** An accepted word, whatever its letter case, has no whitespace at
      either end. */
  lemma AcceptedWordStripped(word: string)
    requires Lower(word) in TrueWords
    ensures IsStripped(word)
  {
    TrueWordsStripped(Lower(word));
    LowerStripped(word);
  }

  /** An accepted word, in any letter case and with any surrounding
      whitespace, reads as true. */
  lemma GetEnvBoolAccepts(env: Env, name: string, pre: string, word: string, post: string, default: bool)
    requires AllSpace(pre) && AllSpace(post)
    requires Lower(word) in TrueWords
    ensures GetEnvBool(env[name := pre + word + post], name, default)
  {
    AcceptedWordStripped(word);
    StripPadded(pre, word, post);
  }

  /** A value that is present but not an accepted word reads as false even
      when the default is true. */
  lemma GetEnvBoolRejects(env: Env, name: string, value: string)
    requires Lower(Strip(value)) !in TrueWords
    ensures !GetEnvBool(env[name := value], name, true)
  {
  }

  /** `_get_env_str`: the value whenever present, the empty string too;
      the default only when absent. */
  function GetEnvStr(env: Env, name: string, default: string): (r: string)
    ensures name in env ==> r == env[name]
    ensures name !in env ==> r == default
  {
    if name in env then env[name] else default
  }

  /** `GenerationConfig` without its two floating-point fields. */
  datatype GenerationConfig = GenerationConfig(
    maxNewTokens: int,
    topK: int,
    maxInputTokens: int,
    useFp16IfAvailable: bool,
    modelLocalDir: string,
    modelId: string,
    trustRemoteCode: bool)

  /** The dataclass defaults. */
  const Defaults: GenerationConfig :=
    GenerationConfig(512, 50, 1024, true, "replit-code-v1-3b", "replit/replit-code-v1-3b", true)

  /** `load_config`. */
  function LoadConfig(env: Env): (c: GenerationConfig)
    ensures c.maxNewTokens == GetEnvInt(env, "GEN_MAX_NEW_TOKENS", Defaults.maxNewTokens)
    ensures c.topK == GetEnvInt(env, "GEN_TOP_K", Defaults.topK)
    ensures c.maxInputTokens == GetEnvInt(env, "GEN_MAX_INPUT_TOKENS", Defaults.maxInputTokens)
    ensures c.useFp16IfAvailable == GetEnvBool(env, "USE_FP16", Defaults.useFp16IfAvailable)
    ensures c.modelLocalDir == GetEnvStr(env, "MODEL_LOCAL_DIR", Defaults.modelLocalDir)
    ensures c.modelId == GetEnvStr(env, "MODEL_ID", Defaults.modelId)
    ensures c.trustRemoteCode == GetEnvBool(env, "TRUST_REMOTE_CODE", Defaults.trustRemoteCode)
  {
    GenerationConfig(
      maxNewTokens := GetEnvInt(env, "GEN_MAX_NEW_TOKENS", 512),
      topK := GetEnvInt(env, "GEN_TOP_K", 50),
      maxInputTokens := GetEnvInt(env, "GEN_MAX_INPUT_TOKENS", 1024),
      useFp16IfAvailable := GetEnvBool(env, "USE_FP16", true),
      modelLocalDir := GetEnvStr(env, "MODEL_LOCAL_DIR", "replit-code-v1-3b"),
      modelId := GetEnvStr(env, "MODEL_ID", "replit/replit-code-v1-3b"),
      trustRemoteCode := GetEnvBool(env, "TRUST_REMOTE_CODE", true))
  }

  /** The names `load_config` reads (the two float settings among them). */
  const ConfigNames: set<string> :=
    {"GEN_MAX_NEW_TOKENS", "GEN_TEMPERATURE", "GEN_TOP_P", "GEN_TOP_K", "GEN_MAX_INPUT_TOKENS",
     "USE_FP16", "MODEL_LOCAL_DIR", "MODEL_ID", "TRUST_REMOTE_CODE"}

  /** An environment that sets none of the names yields the dataclass
      defaults. */
  lemma LoadConfigDefaults(env: Env)
    requires forall n :: n in ConfigNames ==> n !in env
    ensures LoadConfig(env) == Defaults
  {
  }

  /** Only the names `load_config` reads matter. */
  lemma LoadConfigReadsOnlyItsNames(env: Env, name: string, value: string)
    requires name !in ConfigNames
    ensures LoadConfig(env[name := value]) == LoadConfig(env)
  {
  }
}
