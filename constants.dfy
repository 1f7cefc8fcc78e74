/**
 * Settings lookup of cowbird/constants.py: the setting name that stands
 * for an environment-style name, the ordered search of `get_constant`
 * through settings, module definitions and the environment, and the
 * check that the mandatory settings are given.
 */
module Constants {
  import opened Common

  /** A setting value as configuration files and the environment provide them. */
  datatype SettingValue = Text(text: string) | Number(number: int) | Flag(flag: bool)

  /** Python truthiness of a setting value. */
  predicate Truthy(v: SettingValue)
  {
    match v
    case Text(t) => t != ""
    case Number(n) => n != 0
    case Flag(b) => b
  }

  /** `COWBIRD_CONSTANTS`: names always read from the module itself. */
  const CowbirdConstants: seq<string> := ["COWBIRD_CONSTANTS", "COWBIRD_MODULE_DIR", "COWBIRD_ROOT",
                                          "COWBIRD_ADMIN_PERMISSION"]

  /** `_SETTINGS_REQUIRED`. */
  const SettingsRequired: seq<string> := ["COWBIRD_URL", "COWBIRD_CONFIG_PATH"]

  // ---------------------------------------------------------------------
  // Setting name
  // ---------------------------------------------------------------------

  predicate IsDigit(c: char)
  {
    '0' <= c <= '9'
  }

  /** `\w` restricted to ASCII: letters, digits and underscore. */
  predicate IsWord(c: char)
  {
    'a' <= c <= 'z' || 'A' <= c <= 'Z' || IsDigit(c) || c == '_'
  }

  /** Every non-word character written as `_`. */
  function WordsOnly(s: string): (r: string)
    ensures |r| == |s|
    ensures forall i :: 0 <= i < |s| ==> r[i] == (if IsWord(s[i]) then s[i] else '_')
  {
    if s == [] then [] else [if IsWord(s[0]) then s[0] else '_'] + WordsOnly(s[1..])
  }

  /** `re.sub(r"\W|^(?=\d)", "_", s)`: non-word characters become `_`, and a leading digit gets `_` in front. */
  function AsciiOnly(s: string): (r: string)
  {
    if s != [] && IsDigit(s[0]) then "_" + WordsOnly(s) else WordsOnly(s)
  }

  /** The one entry of `_SETTING_SECTION_PREFIXES`, as it starts an environment-style name and a setting name. */
  const KnownPrefix: string := "cowbird_"
  const DottedPrefix: string := "cowbird."

  /** A name starting with the known prefix gets the dotted prefix in its place. */
  function Dotted(s: string): string
  {
    if StartsWith(s, KnownPrefix) then DottedPrefix + s[|KnownPrefix|..] else s
  }

  /**
   * `get_constant_setting_name`: stripped, lower-cased, reduced to word
   * characters, and the `cowbird_` prefix written as `cowbird.`.
   */
  function SettingName(name: string): string
  {
    Dotted(AsciiOnly(Lower(Strip(name))))
  }

  /**
   * Characters are replaced one for one: only a leading digit adds a `_`
   * in front, and the prefix rewrite keeps the length.
   */
  lemma {:induction false} SettingNameLength(name: string)
    ensures var l := Lower(Strip(name));
      |SettingName(name)| == |l| + (if l != [] && IsDigit(l[0]) then 1 else 0)
  {
  }

  predicate IsUpper(c: char)
  {
    'A' <= c <= 'Z'
  }

  /** Word characters only, none of them an upper-case letter. */
  predicate WordText(s: string)
  {
    forall i :: 0 <= i < |s| ==> IsWord(s[i]) && !IsUpper(s[i])
  }

  /**
   * The shape of every setting name: lower-case word characters not
   * starting with a digit, where a `cowbird_` prefix has become `cowbird.`.
   */
  predicate IsSettingName(r: string)
  {
    (r != [] ==> !IsDigit(r[0])) &&
    ((WordText(r) && !StartsWith(r, KnownPrefix)) || (StartsWith(r, DottedPrefix) && WordText(r[8..])))
  }

  lemma {:induction false} AsciiOnlyShape(l: string)
    requires forall i :: 0 <= i < |l| ==> !IsUpper(l[i])
    ensures WordText(AsciiOnly(l))
    ensures AsciiOnly(l) != [] ==> !IsDigit(AsciiOnly(l)[0])
  {
  }

  lemma {:induction false} LowerHasNoUpper(s: string)
    ensures forall i :: 0 <= i < |Lower(s)| ==> !IsUpper(Lower(s)[i])
  {
  }

  lemma {:induction false} DottedShape(s: string)
    requires WordText(s) && (s != [] ==> !IsDigit(s[0]))
    ensures IsSettingName(Dotted(s))
  {
    if StartsWith(s, KnownPrefix) {
      var r := DottedPrefix + s[8..];
      assert r[8..] == s[8..];
      assert r[..8] == DottedPrefix;
    }
  }

  /** Every result of `get_constant_setting_name` has the setting-name shape. */
  lemma {:induction false} SettingNameShape(name: string)
    ensures IsSettingName(SettingName(name))
  {
    var l := Lower(Strip(name));
    LowerHasNoUpper(Strip(name));
    AsciiOnlyShape(l);
    DottedShape(AsciiOnly(l));
  }

  lemma {:induction false} StripKeepsWords(s: string)
    requires forall i :: 0 <= i < |s| ==> !IsSpace(s[i])
    ensures Strip(s) == s
  {
  }

  lemma {:induction false} SettingNameOfUnspaced(n: string)
    requires forall i :: 0 <= i < |n| ==> IsWord(n[i])
    ensures SettingName(n) == Dotted(AsciiOnly(Lower(n)))
  {
    StripKeepsWords(n);
  }

  lemma {:induction false} LowerOfLower(s: string)
    requires forall i :: 0 <= i < |s| ==> !IsUpper(s[i])
    ensures Lower(s) == s
  {
  }

  lemma {:induction false} WordsOnlyOfWords(s: string)
    requires forall i :: 0 <= i < |s| ==> IsWord(s[i])
    ensures WordsOnly(s) == s
  {
  }

  lemma {:induction false} PlainNameFixed(r: string)
    requires WordText(r) && !StartsWith(r, KnownPrefix) && (r != [] ==> !IsDigit(r[0]))
    ensures SettingName(r) == r
  {
    assert forall i :: 0 <= i < |r| ==> !IsSpace(r[i]) && !IsUpper(r[i]) && IsWord(r[i]);
    StripKeepsWords(r);
    LowerOfLower(r);
    WordsOnlyOfWords(r);
    assert AsciiOnly(Lower(Strip(r))) == r;
  }

  lemma {:induction false} DottedChars(t: string)
    requires WordText(t)
    ensures forall i :: 0 <= i < |DottedPrefix + t| ==>
      !IsSpace((DottedPrefix + t)[i]) && !IsUpper((DottedPrefix + t)[i])
  {
    var r := DottedPrefix + t;
    forall i | 0 <= i < |r| ensures !IsSpace(r[i]) && !IsUpper(r[i]) {
      if i >= 8 {
        assert r[i] == t[i - 8];
      }
    }
  }

  lemma {:induction false} CleanLowered(r: string)
    requires forall i :: 0 <= i < |r| ==> !IsSpace(r[i]) && !IsUpper(r[i])
    ensures Lower(Strip(r)) == r
  {
    StripKeepsWords(r);
    LowerOfLower(r);
  }

  lemma {:induction false} DottedAscii(t: string)
    requires WordText(t)
    ensures AsciiOnly(DottedPrefix + t) == KnownPrefix + t
  {
    var s := DottedPrefix + t;
    var w := WordsOnly(s);
    forall i | 0 <= i < |s| ensures w[i] == (KnownPrefix + t)[i] {
      if i >= 8 {
        assert s[i] == t[i - 8];
      }
    }
  }

  lemma {:induction false} DottedOfKnown(t: string)
    ensures Dotted(KnownPrefix + t) == DottedPrefix + t
  {
    assert (KnownPrefix + t)[8..] == t;
  }

  lemma {:induction false} DottedNameFixed(t: string)
    requires WordText(t)
    ensures SettingName(DottedPrefix + t) == DottedPrefix + t
  {
    DottedChars(t);
    CleanLowered(DottedPrefix + t);
    DottedAscii(t);
    DottedOfKnown(t);
  }

  /**
   * A setting name is its own setting name: looking up the alternate name
   * of a name that is already in setting form finds the same key.
   */
  lemma {:induction false} SettingNameIdempotent(name: string)
    ensures SettingName(SettingName(name)) == SettingName(name)
  {
    SettingNameShape(name);
    SettingNameFixed(SettingName(name));
  }

  /** A name already in setting form is left as it is. */
  lemma {:induction false} SettingNameFixed(r: string)
    requires IsSettingName(r)
    ensures SettingName(r) == r
  {
    if StartsWith(r, DottedPrefix) && WordText(r[8..]) {
      assert r == DottedPrefix + r[8..];
      DottedNameFixed(r[8..]);
    } else {
      PlainNameFixed(r);
    }
  }

  lemma {:induction false} UpperNameChars(rest: string)
    requires forall i :: 0 <= i < |rest| ==> IsWord(rest[i])
    ensures forall i :: 0 <= i < |"COWBIRD_" + rest| ==> IsWord(("COWBIRD_" + rest)[i])
  {
    var n := "COWBIRD_" + rest;
    forall i | 0 <= i < |n| ensures IsWord(n[i]) {
      if i >= 8 {
        assert n[i] == rest[i - 8];
      }
    }
  }

  lemma {:induction false} LowerOfUpperName(rest: string)
    ensures Lower("COWBIRD_" + rest) == KnownPrefix + Lower(rest)
  {
    var n := "COWBIRD_" + rest;
    var l := Lower(n);
    forall i | 0 <= i < |l| ensures l[i] == (KnownPrefix + Lower(rest))[i] {
      if i >= 8 {
        assert n[i] == rest[i - 8];
      }
    }
  }

  /** An environment-style name `COWBIRD_...` becomes `cowbird.` followed by the rest in lower case. */
  lemma {:induction false} SettingNameOfCowbirdName(rest: string)
    requires forall i :: 0 <= i < |rest| ==> IsWord(rest[i])
    ensures SettingName("COWBIRD_" + rest) == DottedPrefix + Lower(rest)
  {
    var n := "COWBIRD_" + rest;
    UpperNameChars(rest);
    SettingNameOfUnspaced(n);
    LowerOfUpperName(rest);
    var l := KnownPrefix + Lower(rest);
    PrefixedLowerWords(rest);
    WordsOnlyOfWords(l);
    DottedOfKnown(Lower(rest));
  }

  lemma {:induction false} PrefixedLowerWords(rest: string)
    requires forall i :: 0 <= i < |rest| ==> IsWord(rest[i])
    ensures forall i :: 0 <= i < |KnownPrefix + Lower(rest)| ==> IsWord((KnownPrefix + Lower(rest))[i])
  {
    var l := KnownPrefix + Lower(rest);
    forall i | 0 <= i < |l| ensures IsWord(l[i]) {
      if i >= 8 {
        assert l[i] == LowerChar(rest[i - 8]);
      }
    }
  }

  // ---------------------------------------------------------------------
  // get_constant
  // ---------------------------------------------------------------------

  /** What one place says about a key: absent, or present with a value that may be None. */
  type Lookup = Option<Option<SettingValue>>

  function Find(m: map<string, Option<SettingValue>>, key: string): Lookup
  {
    if key in m then Some(m[key]) else None
  }

  /** The alternate name searched in the settings: the given one, or the setting name of the constant. */
  function AltName(name: string, settingsName: Option<string>): string
  {
    if settingsName.None? || settingsName.value == "" then SettingName(name) else settingsName.value
  }

  /**
   * The places `get_constant` searches, in order: the settings under the
   * name, the settings under the alternate name (when it is not empty),
   * the module definitions, the environment.
   */
  function Places(name: string, settings: Option<map<string, Option<SettingValue>>>, settingsName: Option<string>,
                  definitions: map<string, Option<SettingValue>>, environment: map<string, string>): (r: seq<Lookup>)
    ensures |r| == 4
  {
    var s := if settings.Some? then settings.value else map[];
    var alt := AltName(name, settingsName);
    [Find(s, name), if alt == "" then None else Find(s, alt), Find(definitions, name),
     if name in environment then Some(Some(Text(environment[name]))) else None]
  }

  /** The first value that is present and not None. */
  function FirstSet(places: seq<Lookup>): (r: Option<SettingValue>)
    ensures r.Some? <==> exists i :: 0 <= i < |places| && places[i].Some? && places[i].value.Some?
    ensures r.Some? ==> exists i :: 0 <= i < |places| && places[i] == Some(r)
  {
    if places == [] then None
    else if places[0].Some? && places[0].value.Some? then places[0].value
    else FirstSet(places[1..])
  }

  /** Whether the key is present somewhere, None or not. */
  predicate Present(places: seq<Lookup>)
  {
    exists i :: 0 <= i < |places| && places[i].Some?
  }

  predicate IsSetAt(l: Lookup)
  {
    l.Some? && l.value.Some?
  }

  lemma {:induction false} FirstSetOfFour(places: seq<Lookup>)
    requires |places| == 4
    ensures FirstSet(places) ==
      if IsSetAt(places[0]) then places[0].value
      else if IsSetAt(places[1]) then places[1].value
      else if IsSetAt(places[2]) then places[2].value
      else if IsSetAt(places[3]) then places[3].value
      else None
    ensures Present(places) <==> places[0].Some? || places[1].Some? || places[2].Some? || places[3].Some?
  {
    var p1 := places[1..];
    var p2 := p1[1..];
    var p3 := p2[1..];
    assert p3[1..] == [];
    assert FirstSet(p3) == if IsSetAt(places[3]) then places[3].value else None;
    assert FirstSet(p2) == if IsSetAt(places[2]) then places[2].value else FirstSet(p3);
    assert FirstSet(p1) == if IsSetAt(places[1]) then places[1].value else FirstSet(p2);
    if places[3].Some? {
      assert Present(places) by { assert places[3].Some?; }
    }
  }

  /**
   * `get_constant`. A protected constant is read from the module alone.
   * Otherwise the first value present and not None is returned as is (even
   * a falsy one). When none is: a key present somewhere raises ValueError
   * with `raise_not_set`, a key absent everywhere raises LookupError with
   * `raise_missing`, and the default is returned otherwise.
   */
  method GetConstant(name: string, settings: Option<map<string, Option<SettingValue>>>,
                     settingsName: Option<string>, default: Option<SettingValue>,
                     raiseMissing: bool, raiseNotSet: bool,
                     definitions: map<string, Option<SettingValue>>, environment: map<string, string>)
    returns (r: Result<Option<SettingValue>>)
    ensures name in CowbirdConstants ==>
      r == (if name in definitions then Success(definitions[name]) else Failure(KeyError))
    ensures name !in CowbirdConstants ==>
      var places := Places(name, settings, settingsName, definitions, environment);
      (FirstSet(places).Some? ==> r == Success(FirstSet(places))) &&
      (FirstSet(places).None? && Present(places) && raiseNotSet ==> r == Failure(ValueError)) &&
      (!Present(places) && raiseMissing ==> r == Failure(LookupError)) &&
      (FirstSet(places).None? && !(Present(places) && raiseNotSet) && !(!Present(places) && raiseMissing) ==>
         r == Success(default))
    ensures name !in CowbirdConstants && r.Failure? ==> r.error == ValueError || r.error == LookupError
    ensures name !in CowbirdConstants && raiseMissing && raiseNotSet ==>
      (r.Success? <==> FirstSet(Places(name, settings, settingsName, definitions, environment)).Some?)
  {
    if name in CowbirdConstants {
      if name in definitions {
        return Success(definitions[name]);
      }
      return Failure(KeyError);
    }
    ghost var places := Places(name, settings, settingsName, definitions, environment);
    FirstSetOfFour(places);
    var missing := true;
    var found: Option<SettingValue> := None;
    if settings.Some? && name in settings.value {
      missing := false;
      found := settings.value[name];
      if found.Some? {
        return Success(found);
      }
    }
    var alt := if settingsName.None? || settingsName.value == "" then SettingName(name) else settingsName.value;
    if settings.Some? && alt != "" && alt in settings.value {
      missing := false;
      found := settings.value[alt];
      if found.Some? {
        return Success(found);
      }
    }
    if name in definitions {
      missing := false;
      found := definitions[name];
      if found.Some? {
        return Success(found);
      }
    }
    if name in environment {
      missing := false;
      found := Some(Text(environment[name]));
      if found.Some? {
        return Success(found);
      }
    }
    if !missing && raiseNotSet {
      return Failure(ValueError);
    }
    if missing && raiseMissing {
      return Failure(LookupError);
    }
    // Every place found so far held None, so `cowbird_value or default_value` is the default.
    assert found.None?;
    r := Success(default);
  }

  /** A value in the settings under the exact name wins over every other place. */
  lemma SettingsFirst(name: string, settings: map<string, Option<SettingValue>>, settingsName: Option<string>,
                      definitions: map<string, Option<SettingValue>>, environment: map<string, string>)
    requires name in settings && settings[name].Some?
    ensures FirstSet(Places(name, Some(settings), settingsName, definitions, environment)) == settings[name]
  {
  }

  /** The environment is read only when no setting and no definition gives a value. */
  lemma {:induction false} EnvironmentLast(name: string, settings: Option<map<string, Option<SettingValue>>>,
                                           settingsName: Option<string>,
                                           definitions: map<string, Option<SettingValue>>,
                                           environment: map<string, string>)
    ensures var places := Places(name, settings, settingsName, definitions, environment);
      (name in environment && forall i :: 0 <= i < 3 ==> !IsSetAt(places[i])) ==>
        FirstSet(places) == Some(Text(environment[name]))
  {
    var places := Places(name, settings, settingsName, definitions, environment);
    FirstSetOfFour(places);
  }

  // ---------------------------------------------------------------------
  // validate_required
  // ---------------------------------------------------------------------

  /** Whether `get_constant` with both raise options finds a value for the key. */
  predicate IsSet(name: string, settings: Option<map<string, Option<SettingValue>>>,
                  definitions: map<string, Option<SettingValue>>, environment: map<string, string>)
  {
    name !in CowbirdConstants && FirstSet(Places(name, settings, None, definitions, environment)).Some?
  }

  /**
   * `validate_required`: every mandatory setting must have a value; the
   * first one without raises, as `get_constant` does.
   */
  method ValidateRequired(settings: Option<map<string, Option<SettingValue>>>,
                          definitions: map<string, Option<SettingValue>>, environment: map<string, string>)
    returns (err: Option<Error>)
    ensures err.None? <==> forall i :: 0 <= i < |SettingsRequired| ==>
      IsSet(SettingsRequired[i], settings, definitions, environment)
    ensures err.Some? ==> err.value == ValueError || err.value == LookupError
  {
    for i := 0 to |SettingsRequired|
      invariant forall j :: 0 <= j < i ==> IsSet(SettingsRequired[j], settings, definitions, environment)
    {
      var name := SettingsRequired[i];
      assert name !in CowbirdConstants;
      err := CheckRequired(name, settings, definitions, environment);
      if err.Some? {
        return;
      }
    }
    return None;
  }

  /** One required setting: looked up with both raise flags set. */
  method CheckRequired(name: string, settings: Option<map<string, Option<SettingValue>>>,
                       definitions: map<string, Option<SettingValue>>, environment: map<string, string>)
    returns (err: Option<Error>)
    requires name !in CowbirdConstants
    ensures err.None? <==> IsSet(name, settings, definitions, environment)
    ensures err.Some? ==> err.value == ValueError || err.value == LookupError
  {
    var r := GetConstant(name, settings, None, None, true, true, definitions, environment);
    if r.Failure? {
      return Some(r.error);
    }
    return None;
  }
}
