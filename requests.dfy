/**
 * Request helpers of the REST API: the case-insensitive query-string lookup
 * and the choice of checks that `check_value` asks of the parameter
 * verifier.
 *
 * Request parameters are the ordered items of a multi-dictionary: a name may
 * occur several times, and reading a name gives its last value.
 */
module Requests {
  import opened Common

  /** One request parameter: its name and value, in request order. */
  type Param = (string, string)

  /** `case_insensitive_key`: a single name or a list of names. */
  datatype Keys = One(key: string) | Many(keys: seq<string>)

  /** A single name is handled as a one-element list. */
  function KeyList(keys: Keys): (r: seq<string>)
    ensures keys.One? ==> r == [keys.key]
    ensures keys.Many? ==> r == keys.keys
  {
    match keys
    case One(k) => [k]
    case Many(ks) => ks
  }

  /** A parameter name equals one of the keys once both are lower-cased. */
  predicate NameMatches(name: string, keys: seq<string>)
  {
    exists k :: k in keys && Lower(name) == Lower(k)
  }

  /** Index of the first parameter whose name matches a key. */
  function FirstMatch(params: seq<Param>, keys: seq<string>): (r: Option<nat>)
    ensures r.Some? ==> r.value < |params| && NameMatches(params[r.value].0, keys)
    ensures r.Some? ==> forall i :: 0 <= i < r.value ==> !NameMatches(params[i].0, keys)
    ensures r.None? <==> forall i :: 0 <= i < |params| ==> !NameMatches(params[i].0, keys)
  {
    if params == [] then None
    else if NameMatches(params[0].0, keys) then Some(0)
    else match FirstMatch(params[1..], keys)
      case None => None
      case Some(i) => Some(i + 1)
  }

  /** Index of the last parameter carrying `name`. */
  function LastIndex(params: seq<Param>, name: string): (r: Option<nat>)
    ensures r.None? <==> forall i :: 0 <= i < |params| ==> params[i].0 != name
    ensures r.Some? ==> r.value < |params| && params[r.value].0 == name
    ensures r.Some? ==> forall j :: r.value < j < |params| ==> params[j].0 != name
  {
    if params == [] then None
    else if params[|params| - 1].0 == name then Some(|params| - 1)
    else LastIndex(params[..|params| - 1], name)
  }

  /** Reading a name from the multi-dictionary: the value of its last occurrence. */
  function LastValue(params: seq<Param>, name: string): (r: Option<string>)
  {
    match LastIndex(params, name)
    case None => None
    case Some(i) => Some(params[i].1)
  }

  /**
   * `get_query_param`: scan the parameters in order and, for each, the keys
   * in order; the first parameter whose name matches a key, ignoring case,
   * gives the value read under that name. Nothing matching gives `default`.
   */
  method GetQueryParam(params: seq<Param>, keys: Keys, default: Option<string>) returns (r: Option<string>)
    ensures FirstMatch(params, KeyList(keys)).None? ==> r == default
    ensures FirstMatch(params, KeyList(keys)).Some? ==>
      r == LastValue(params, params[FirstMatch(params, KeyList(keys)).value].0) && r.Some?
  {
    var ks := KeyList(keys);
    var i := 0;
    while i < |params|
      invariant 0 <= i <= |params|
      invariant forall p :: 0 <= p < i ==> !NameMatches(params[p].0, ks)
    {
      var j := 0;
      while j < |ks|
        invariant 0 <= j <= |ks|
        invariant forall q :: 0 <= q < j ==> Lower(params[i].0) != Lower(ks[q])
      {
        if Lower(params[i].0) == Lower(ks[j]) {
          assert NameMatches(params[i].0, ks) by { assert ks[j] in ks; }
          r := LastValue(params, params[i].0);
          return;
        }
        j := j + 1;
      }
      i := i + 1;
    }
    r := default;
  }

  /** Keys that agree once lower-cased select the same parameter. */
  lemma {:induction false} FirstMatchIgnoresKeyCase(params: seq<Param>, keys: seq<string>, other: seq<string>)
    requires |keys| == |other| && forall j :: 0 <= j < |keys| ==> Lower(keys[j]) == Lower(other[j])
    ensures FirstMatch(params, keys) == FirstMatch(params, other)
  {
    forall name
      ensures NameMatches(name, keys) <==> NameMatches(name, other)
    {
      if NameMatches(name, keys) {
        var k :| k in keys && Lower(name) == Lower(k);
        var j :| 0 <= j < |keys| && keys[j] == k;
        assert other[j] in other;
      }
      if NameMatches(name, other) {
        var k :| k in other && Lower(name) == Lower(k);
        var j :| 0 <= j < |other| && other[j] == k;
        assert keys[j] in keys;
      }
    }
    FirstMatchSameNames(params, keys, other);
  }

  lemma {:induction false} FirstMatchSameNames(params: seq<Param>, keys: seq<string>, other: seq<string>)
    requires forall name :: NameMatches(name, keys) <==> NameMatches(name, other)
    ensures FirstMatch(params, keys) == FirstMatch(params, other)
  {
    if params != [] {
      FirstMatchSameNames(params[1..], keys, other);
    }
  }

  // ---------------------------------------------------------------------
  // check_value: which checks are asked of the parameter verifier
  // ---------------------------------------------------------------------

  /** The Python types a parameter is checked against. */
  datatype PyType = StrType | IntType | BoolType | FloatType | NoneType

  /** `check_type`: `None` (checks disabled), one type, or a tuple of types. */
  datatype CheckType = Disabled | Single(t: PyType) | Several(ts: seq<PyType>)

  /** `pattern`: absent, a regular expression, or a boolean. */
  datatype Pattern = NoPattern | Regex(text: string) | Flag(b: bool)

  /** A parameter value as decoded from the request body. */
  datatype Value = NoneValue | Str(s: string) | Int(i: int) | Bool(b: bool) | Float(f: real)

  /** The three checks `check_value` requests. */
  datatype Checks = Checks(notNone: bool, isType: bool, notEmptyAndMatches: bool)

  predicate Truthy(p: Pattern)
  {
    match p
    case NoPattern => false
    case Regex(text) => text != ""
    case Flag(b) => b
  }

  /**
   * `check_value`'s selection: `not_none` unless the check type is a tuple
   * holding `NoneType` or is `None` itself; `is_type` when the check type is
   * truthy; the non-empty/pattern check only for exactly `str` with a truthy
   * pattern.
   */
  function CheckSelection(checkType: CheckType, pattern: Pattern): (c: Checks)
  {
    Checks(
      if checkType.Several? then NoneType !in checkType.ts else !checkType.Disabled?,
      (match checkType
       case Disabled => false
       case Single(_) => true
       case Several(ts) => ts != []),
      Truthy(pattern) && checkType == Single(StrType))
  }

  /** Python's `isinstance`, where a bool is also an int. */
  predicate IsInstance(v: Value, t: PyType)
  {
    match v
    case NoneValue => t == NoneType
    case Str(_) => t == StrType
    case Int(_) => t == IntType
    case Bool(_) => t == BoolType || t == IntType
    case Float(_) => t == FloatType
  }

  predicate HasType(v: Value, checkType: CheckType)
  {
    match checkType
    case Disabled => true
    case Single(t) => IsInstance(v, t)
    case Several(ts) => exists t :: t in ts && IsInstance(v, t)
  }

  /**
   * Whether `check_value` lets `v` through, taking the verifier to reject a
   * value for each requested check it fails: first the `None` and type
   * checks, then the non-empty/pattern check. `matches` stands for the
   * regular-expression match of the pattern against the text.
   */
  function CheckValue(v: Value, checkType: CheckType, pattern: Pattern, matches: (Pattern, string) -> bool): (accepted: bool)
    ensures v == NoneValue ==>
      (accepted <==> checkType.Disabled? || (checkType.Several? && NoneType in checkType.ts))
    ensures checkType.Disabled? ==> accepted
    ensures checkType == Single(StrType) && pattern.Regex? && pattern.text != "" ==>
      (accepted <==> v.Str? && v.s != "" && matches(pattern, v.s))
    ensures checkType == Single(StrType) && !Truthy(pattern) ==> (accepted <==> v.Str?)
    ensures checkType == Single(IntType) ==> (accepted <==> v.Int? || v.Bool?)
    ensures accepted && checkType != Several([]) ==> HasType(v, checkType)
  {
    var checks := CheckSelection(checkType, pattern);
    if checks.notNone && v == NoneValue then false
    else if checks.isType && !HasType(v, checkType) then false
    else if checks.notEmptyAndMatches then v.Str? && v.s != "" && matches(pattern, v.s)
    else true
  }

  /** The pattern is consulted only for the type `str` itself and a truthy pattern. */
  lemma PatternOnlyForStr(checkType: CheckType, pattern: Pattern)
    ensures CheckSelection(checkType, pattern).notEmptyAndMatches <==>
      checkType == Single(StrType) && ((pattern.Regex? && pattern.text != "") || pattern == Flag(true))
  {
  }
}
