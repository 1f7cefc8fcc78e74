/**
 * The requirement-string helpers of setup.py: `_split_requirement`, which
 * takes a pip requirement such as `pkg>=1.0; python_version < "3.8"` apart,
 * and `_extra_requirements`, which keeps the additional requirements that
 * the base ones do not already pin the same way.
 */
module Setup {
  import opened Common

  /** Python's `s.split(pat)` for a non-empty separator: cut at each occurrence found from left to right. */
  function SplitOn(s: string, pat: string): (r: seq<string>)
    requires pat != ""
    ensures |r| >= 1
    decreases |s|
  {
    if s == [] then [""]
    else if At(s, 0, pat) then [""] + SplitOn(s[|pat|..], pat)
    else
      var rest := SplitOn(s[1..], pat);
      [[s[0]] + rest[0]] + rest[1..]
  }

  /** A string without the separator is not cut. */
  lemma {:induction false} SplitOnAbsent(s: string, pat: string)
    requires pat != "" && !Contains(s, pat)
    ensures SplitOn(s, pat) == [s]
    decreases |s|
  {
    if s != [] {
      assert !At(s, 0, pat);
      assert !Contains(s[1..], pat) by {
        forall i | 0 <= i <= |s[1..]| - |pat|
          ensures !At(s[1..], i, pat)
        {
          assert !At(s, i + 1, pat);
          assert s[1..][i..i + |pat|] == s[i + 1..i + 1 + |pat|];
        }
      }
      SplitOnAbsent(s[1..], pat);
      assert [s[0]] + s[1..] == s;
    }
  }

  /** The first position at or after `from` where `pat` occurs. */
  function FindFrom(s: string, pat: string, from: nat): (i: nat)
    requires exists k :: from <= k && At(s, k, pat)
    ensures from <= i && At(s, i, pat)
    ensures forall k :: from <= k < i ==> !At(s, k, pat)
    decreases |s| - from
  {
    if At(s, from, pat) then from else FindFrom(s, pat, from + 1)
  }

  /** The first position where `pat` occurs, as `str.split(pat, 1)` uses it. */
  function Find(s: string, pat: string): (i: nat)
    requires Contains(s, pat)
    ensures At(s, i, pat) && forall k :: 0 <= k < i ==> !At(s, k, pat)
  {
    FindFrom(s, pat, 0)
  }

  /** `s.replace(c, "")` for one character. */
  function Remove(s: string, c: char): (r: string)
    ensures c !in r
    ensures c !in s ==> r == s
  {
    if s == [] then [] else (if s[0] == c then [] else [s[0]]) + Remove(s[1..], c)
  }

  /** The comparison operators, in the order `_split_requirement` tries them. */
  const Operators: seq<string> := [">=", ">", "<=", "<", "!=", "==", "="]

  /** The index of the first operator of the list that occurs in `s`, if any. */
  function FirstOperator(s: string): (r: Option<nat>)
    ensures r.Some? ==> r.value < |Operators| && Contains(s, Operators[r.value])
    ensures r.Some? ==> forall j :: 0 <= j < r.value ==> !Contains(s, Operators[j])
    ensures r.None? ==> forall j :: 0 <= j < |Operators| ==> !Contains(s, Operators[j])
  {
    FirstOperatorFrom(s, 0)
  }

  function FirstOperatorFrom(s: string, k: nat): (r: Option<nat>)
    requires k <= |Operators|
    ensures r.Some? ==> k <= r.value < |Operators| && Contains(s, Operators[r.value])
    ensures r.Some? ==> forall j :: k <= j < r.value ==> !Contains(s, Operators[j])
    ensures r.None? ==> forall j :: k <= j < |Operators| ==> !Contains(s, Operators[j])
    decreases |Operators| - k
  {
    if k == |Operators| then None
    else if Contains(s, Operators[k]) then Some(k)
    else FirstOperatorFrom(s, k + 1)
  }

  /** What `_split_requirement` returns: a string, or an (operator, version) pair. */
  datatype Requirement = Text(text: string) | Parts(op: string, version: string)

  const PythonVersion: string := "python_version"

  /** The requirement once its python part is chosen and the ';' and '"' are removed. */
  function Cleaned(requirement: string, python: bool): string
  {
    var pieces := SplitOn(requirement, PythonVersion);
    Remove(Remove(if python then pieces[|pieces| - 1] else pieces[0], ';'), '"')
  }

  /** The package name and the text after the first occurrence of operator `op` (both the whole string without one). */
  function CutAt(req: string, op: Option<nat>): (string, string)
    requires op.Some? ==> op.value < |Operators| && Contains(req, Operators[op.value])
  {
    if op.None? then (req, req)
    else
      var at := Find(req, Operators[op.value]);
      (req[..at], req[at + |Operators[op.value]|..])
  }

  /**
   * The end of `_split_requirement` once the operator is known: without
   * `version` the stripped package name; with it the (operator, stripped
   * version) pair, where a requirement without operator has the empty
   * pair; merged back into `name+op+ver`, or into
   * `python_version OP "VER"` when `python` is also set.
   */
  function Assemble(op: Option<nat>, pkgName: string, rest: string, version: bool, python: bool, merge: bool)
    : (r: Requirement)
    requires op.Some? ==> op.value < |Operators|
    ensures r.Parts? <==> version && !merge
    ensures r.Parts? ==> r.op == "" || r.op in Operators
  {
    var opStr := if op.None? then "" else Operators[op.value];
    if !version then Text(Strip(pkgName))
    else
      var name := if op.None? then rest else pkgName;
      var ver := Strip(if op.None? then "" else rest);
      if merge && python then Text(PythonVersion + " " + opStr + " \"" + ver + "\"")
      else if merge then Text(name + opStr + ver)
      else Parts(opStr, ver)
  }

  /**
   * The meaning of `_split_requirement(requirement, version, python, merge)`:
   * with `python` and no "python_version" in the requirement, the empty
   * answer; otherwise the python part of the requirement (after
   * "python_version") or its package part (before it), without ';' and
   * '"', cut at the first occurrence of the first operator found.
   */
  function RequirementParts(requirement: string, version: bool, python: bool, merge: bool): (r: Requirement)
    ensures r.Parts? <==> version && !merge
    ensures r.Parts? ==> r.op == "" || r.op in Operators
  {
    if python && !Contains(requirement, PythonVersion) then
      (if version && !merge then Parts("", "") else Text(""))
    else
      var req := Cleaned(requirement, python);
      var op := FirstOperator(req);
      var cut := CutAt(req, op);
      Assemble(op, cut.0, cut.1, version, python, merge)
  }

  /**
   * The operator loop of `_split_requirement`: the operators are tried in
   * their fixed order and the first one found stops the loop, cutting the
   * requirement at its first occurrence.
   */
  method FindOperator(req: string) returns (op: Option<nat>, pkgName: string, rest: string)
    ensures op == FirstOperator(req)
    ensures (pkgName, rest) == CutAt(req, op)
  {
    op, pkgName, rest := None, req, req;
    var k := 0;
    while k < |Operators|
      invariant 0 <= k <= |Operators|
      invariant forall j :: 0 <= j < k ==> !Contains(req, Operators[j])
    {
      if Contains(req, Operators[k]) {
        op := Some(k);
        var at := Find(req, Operators[k]);
        pkgName, rest := req[..at], req[at + |Operators[k]|..];
        FirstOperatorSkips(req, k);
        return;
      }
      k := k + 1;
    }
  }

  /** The end of `_split_requirement`, after the operator loop. */
  method AssembleParts(op: Option<nat>, pkgName: string, rest: string, version: bool, python: bool, merge: bool)
    returns (r: Requirement)
    requires op.Some? ==> op.value < |Operators|
    ensures r == Assemble(op, pkgName, rest, version, python, merge)
  {
    var opStr := if op.None? then "" else Operators[op.value];
    var name, requirement := pkgName, rest;
    if !version {
      return Text(Strip(name));
    }
    if opStr == "" {
      name := requirement;
      requirement := "";
    }
    var ver := Strip(requirement);
    if merge && python {
      return Text(PythonVersion + " " + opStr + " \"" + ver + "\"");
    }
    if merge && version {
      return Text(name + opStr + ver);
    }
    return Parts(opStr, ver);
  }

  /** `_split_requirement`. */
  method SplitRequirement(requirement: string, version: bool, python: bool, merge: bool) returns (r: Requirement)
    ensures r == RequirementParts(requirement, version, python, merge)
  {
    if python && !Contains(requirement, PythonVersion) {
      return if version && !merge then Parts("", "") else Text("");
    }
    var req := Cleaned(requirement, python);
    var op, pkgName, rest := FindOperator(req);
    r := AssembleParts(op, pkgName, rest, version, python, merge);
  }

  /** With `python` and no "python_version" in the requirement, the answer is empty. */
  lemma PythonPartAbsent(requirement: string, version: bool, merge: bool)
    requires !Contains(requirement, PythonVersion)
    ensures RequirementParts(requirement, version, true, merge) == (if version && !merge then Parts("", "") else Text(""))
  {
  }

  /** The merged form `_extra_requirements` compares requirements by. */
  function Merged(requirement: string): string
  {
    RequirementParts(requirement, true, false, true).text
  }

  /** A character that occurs in some operator. */
  predicate OperatorChar(c: char)
  {
    c == '>' || c == '<' || c == '!' || c == '='
  }

  /** Text without operator characters. */
  predicate NoOperatorChar(t: string)
  {
    forall k :: 0 <= k < |t| ==> !OperatorChar(t[k])
  }

  /** A piece made of operator characters cannot reach into text that has none. */
  lemma OccurrenceInOperator(name: string, op: string, ver: string, o: string, i: int)
    requires NoOperatorChar(name) && NoOperatorChar(ver)
    requires o != [] && forall k :: 0 <= k < |o| ==> OperatorChar(o[k])
    requires At(name + op + ver, i, o)
    ensures |name| <= i && i + |o| <= |name| + |op| && At(op, i - |name|, o)
  {
    var s := name + op + ver;
    assert s[i] == o[0];
    var last := i + |o| - 1;
    assert s[last] == o[|o| - 1];
    assert s[i..i + |o|] == op[i - |name|..i - |name| + |o|];
  }

  /** So an operator occurs in `name + op + ver` only inside `op`. */
  lemma ContainsOnlyInOperator(name: string, op: string, ver: string, j: nat)
    requires j < |Operators|
    requires NoOperatorChar(name) && NoOperatorChar(ver)
    ensures Contains(name + op + ver, Operators[j]) ==> Contains(op, Operators[j])
  {
    var o := Operators[j];
    assert forall k :: 0 <= k < |o| ==> OperatorChar(o[k]);
    if Contains(name + op + ver, o) {
      var i :| 0 <= i <= |name + op + ver| - |o| && At(name + op + ver, i, o);
      OccurrenceInOperator(name, op, ver, o, i);
    }
  }

  /** Occurrence in a string of at most two characters, character by character. */
  lemma ContainsShort(p: string, o: string)
    requires 1 <= |p| <= 2 && 1 <= |o|
    ensures Contains(p, o) <==>
      |o| <= |p| && ((p[0] == o[0] && (|o| == 2 ==> p[1] == o[1])) || (|p| - |o| == 1 && p[1] == o[0]))
  {
    if Contains(p, o) {
      var i :| 0 <= i <= |p| - |o| && At(p, i, o);
      assert p[i..i + |o|][0] == o[0];
      if |o| == 2 {
        assert p[i..i + |o|][1] == o[1];
      }
    }
    if |o| <= |p| && p[0] == o[0] && (|o| == 2 ==> p[1] == o[1]) {
      assert p[0..|o|] == o;
      assert At(p, 0, o);
    }
    if |o| <= |p| && |p| - |o| == 1 && p[1] == o[0] {
      assert p[1..1 + |o|] == o;
      assert At(p, 1, o);
    }
  }

  /** No operator of the list occurs in one listed before it. */
  lemma EarlierOperatorsAbsent(k: nat, j: nat)
    requires j < k < |Operators|
    ensures !Contains(Operators[k], Operators[j])
  {
    ContainsShort(Operators[k], Operators[j]);
  }

  /** A requirement without "python_version", ';' or '"' is its own cleaned form. */
  lemma CleanedUnchanged(s: string)
    requires !Contains(s, PythonVersion) && ';' !in s && '"' !in s
    ensures Cleaned(s, false) == s
  {
    SplitOnAbsent(s, PythonVersion);
  }

  /** In `name + op + ver`, the operator loop stops at `op`, at the end of the name. */
  lemma OperatorOfJoined(name: string, k: nat, ver: string)
    requires k < |Operators|
    requires NoOperatorChar(name) && NoOperatorChar(ver)
    ensures var s := name + Operators[k] + ver;
      FirstOperator(s) == Some(k) && Find(s, Operators[k]) == |name|
  {
    var op := Operators[k];
    var s := name + op + ver;
    assert forall m :: 0 <= m < |op| ==> OperatorChar(op[m]);
    forall j | 0 <= j < k
      ensures !Contains(s, Operators[j])
    {
      ContainsOnlyInOperator(name, op, ver, j);
      EarlierOperatorsAbsent(k, j);
    }
    assert At(s, |name|, op) by {
      assert s[|name|..|name| + |op|] == op;
    }
    assert FirstOperatorFrom(s, k) == Some(k);
    FirstOperatorSkips(s, k);
    var at := Find(s, op);
    if at < |name| {
      OccurrenceInOperator(name, op, ver, op, at);
    }
  }

  /** `name + op + ver` is cut into `name` and `ver` at `op`. */
  lemma PartsOfJoined(name: string, k: nat, ver: string)
    requires k < |Operators|
    requires NoOperatorChar(name) && NoOperatorChar(ver)
    requires ';' !in name + ver && '"' !in name + ver
    requires !Contains(name + Operators[k] + ver, PythonVersion)
    ensures forall python: bool, merge: bool :: !python ==>
      RequirementParts(name + Operators[k] + ver, true, python, merge) ==
        Assemble(Some(k), name, ver, true, python, merge)
  {
    var op := Operators[k];
    var s := name + op + ver;
    assert Cleaned(s, false) == s by {
      assert ';' !in op && '"' !in op;
      assert ';' !in s && '"' !in s;
      CleanedUnchanged(s);
    }
    OperatorOfJoined(name, k, ver);
    assert CutAt(s, Some(k)) == (name, ver) by {
      assert s[..|name|] == name && s[|name| + |op|..] == ver;
    }
  }

  /**
   * Round trip of `_split_requirement(..., version=True, merge=True)`: a
   * requirement `name + op + ver` whose name and version hold no operator
   * character, no ';', no '"' and no "python_version", and whose version
   * has no surrounding white space, is merged back into itself.
   */
  lemma MergedRoundTrip(name: string, k: nat, ver: string)
    requires k < |Operators|
    requires NoOperatorChar(name) && NoOperatorChar(ver)
    requires ';' !in name + ver && '"' !in name + ver
    requires !Contains(name + Operators[k] + ver, PythonVersion)
    requires ver == [] || (!IsSpace(ver[0]) && !IsSpace(ver[|ver| - 1]))
    ensures Merged(name + Operators[k] + ver) == name + Operators[k] + ver
  {
    PartsOfJoined(name, k, ver);
    assert Strip(ver) == ver;
  }

  /** Splitting `a + pat + b` where `pat` first occurs right after `a` and never in `b` gives `a` and `b`. */
  lemma {:induction false} SplitOnOnce(a: string, pat: string, b: string)
    requires pat != "" && !Contains(b, pat)
    requires forall i :: 0 <= i < |a| ==> !At(a + pat + b, i, pat)
    ensures SplitOn(a + pat + b, pat) == [a, b]
    decreases |a|
  {
    var s := a + pat + b;
    if a == [] {
      assert s == pat + b && At(s, 0, pat);
      assert s[|pat|..] == b;
      SplitOnAbsent(b, pat);
    } else {
      assert !At(s, 0, pat);
      assert s[1..] == a[1..] + pat + b;
      forall i | 0 <= i < |a[1..]|
        ensures !At(a[1..] + pat + b, i, pat)
      {
        assert !At(s, i + 1, pat);
        assert s[i + 1..i + 1 + |pat|] == s[1..][i..i + |pat|];
      }
      SplitOnOnce(a[1..], pat, b);
      assert [a[0]] + a[1..] == a;
    }
  }

  /** Removing a character piece by piece. */
  lemma {:induction false} RemoveAppend(a: string, b: string, c: char)
    ensures Remove(a + b, c) == Remove(a, c) + Remove(b, c)
    decreases |a|
  {
    if a != [] {
      assert (a + b)[1..] == a[1..] + b;
      RemoveAppend(a[1..], b, c);
    } else {
      assert a + b == b;
    }
  }

  /** The text of an environment marker: `python_version OP "VER"`. */
  function PythonMarker(k: nat, ver: string): string
    requires k < |Operators|
  {
    PythonVersion + " " + Operators[k] + " \"" + ver + "\""
  }

  /** A word none of whose characters occur in `x` or `y` can occur in `x + mid + y` only inside `mid`. */
  lemma OccurrenceInside(x: string, mid: string, y: string, w: string, i: int)
    requires w != []
    requires forall k :: 0 <= k < |x| ==> x[k] !in w
    requires forall k :: 0 <= k < |y| ==> y[k] !in w
    requires At(x + mid + y, i, w)
    ensures |x| <= i && i + |w| <= |x| + |mid| && At(mid, i - |x|, w)
  {
    var s := x + mid + y;
    assert s[i] == s[i..i + |w|][0] == w[0];
    var last := i + |w| - 1;
    assert s[last] == s[i..i + |w|][|w| - 1] == w[|w| - 1];
    assert s[i..i + |w|] == mid[i - |x|..i - |x| + |w|];
  }

  /** "python_version" does not occur in the ` OP "VER"` that follows it in a marker. */
  lemma MarkerTailClean(k: nat, ver: string)
    requires k < |Operators| && !Contains(ver, PythonVersion)
    ensures !Contains(" " + Operators[k] + " \"" + ver + "\"", PythonVersion)
  {
    var x := " " + Operators[k] + " \"";
    assert " " + Operators[k] + " \"" + ver + "\"" == x + ver + "\"";
    assert forall c :: c in x ==> c == ' ' || c == '"' || OperatorChar(c);
    assert forall c :: c in PythonVersion ==> c != ' ' && c != '"' && !OperatorChar(c);
    if Contains(x + ver + "\"", PythonVersion) {
      var i :| 0 <= i <= |x + ver + "\""| - |PythonVersion| && At(x + ver + "\"", i, PythonVersion);
      OccurrenceInside(x, ver, "\"", PythonVersion, i);
    }
  }

  /** In `pkg; python_version...`, "python_version" starts nowhere before the marker. */
  lemma MarkerFirst(pkg: string, post: string, i: int)
    requires !Contains(pkg, PythonVersion) && 0 <= i < |pkg| + 2
    ensures !At(pkg + "; " + PythonVersion + post, i, PythonVersion)
  {
    var t := pkg + "; " + PythonVersion + post;
    if i + |PythonVersion| <= |pkg| {
      assert pkg[i..i + |PythonVersion|] == t[i..i + |PythonVersion|];
      assert !At(pkg, i, PythonVersion);
    } else if i + |PythonVersion| <= |t| {
      var j := if i <= |pkg| then |pkg| else |pkg| + 1;
      assert t[i..i + |PythonVersion|][j - i] == t[j];
      assert t[j] == ';' || t[j] == ' ';
      assert PythonVersion[j - i] != ';' && PythonVersion[j - i] != ' ';
    }
  }

  /** Removing ';' and '"' from `p"VER"` leaves `pVER` when only the quotes are such characters. */
  lemma RemoveMarkerQuotes(p: string, ver: string)
    requires ';' !in p && '"' !in p && ';' !in ver && '"' !in ver
    ensures Remove(Remove(p + QuotedRemoved(ver), ';'), '"') == p + ver
  {
    var q := QuotedRemoved(ver);
    RemoveAppend(p, q, ';');
    RemoveAppend(p, q, '"');
  }

  /** `"VER"`, whose quotes `Remove` takes away. */
  function QuotedRemoved(ver: string): (q: string)
    ensures ';' !in ver ==> Remove(q, ';') == q
    ensures '"' !in ver ==> Remove(q, '"') == ver
  {
    RemoveAppend("\"", ver + "\"", '"');
    RemoveAppend(ver, "\"", '"');
    assert Remove("\"", '"') == [];
    assert ("\"" + ver + "\"") == "\"" + (ver + "\"");
    "\"" + ver + "\""
  }

  /** The python part of `pkg; python_version OP "VER"`, cleaned, is ` OP VER`. */
  lemma CleanedMarker(pkg: string, k: nat, ver: string)
    requires k < |Operators|
    requires ';' !in ver && '"' !in ver && !Contains(ver, PythonVersion)
    requires !Contains(pkg, PythonVersion)
    ensures Cleaned(pkg + "; " + PythonMarker(k, ver), true) == " " + Operators[k] + " " + ver
  {
    var a := pkg + "; ";
    var post := " " + Operators[k] + " \"" + ver + "\"";
    assert pkg + "; " + PythonMarker(k, ver) == a + PythonVersion + post;
    MarkerTailClean(k, ver);
    forall i | 0 <= i < |a|
      ensures !At(a + PythonVersion + post, i, PythonVersion)
    {
      MarkerFirst(pkg, post, i);
    }
    SplitOnOnce(a, PythonVersion, post);
    var p := " " + Operators[k] + " ";
    assert post == p + QuotedRemoved(ver);
    assert ';' !in p && '"' !in p;
    RemoveMarkerQuotes(p, ver);
  }

  /** Cutting ` OP VER` at its operator, and stripping the version. */
  lemma CutMarker(k: nat, ver: string)
    requires k < |Operators|
    requires NoOperatorChar(ver) && (ver == [] || (!IsSpace(ver[0]) && !IsSpace(ver[|ver| - 1])))
    ensures var req := " " + Operators[k] + " " + ver;
      FirstOperator(req) == Some(k) && CutAt(req, Some(k)) == (" ", " " + ver) && Strip(" " + ver) == ver
  {
    var req := " " + Operators[k] + " " + ver;
    assert NoOperatorChar(" ") && NoOperatorChar(" " + ver);
    assert req == " " + Operators[k] + (" " + ver);
    OperatorOfJoined(" ", k, " " + ver);
    assert req[..1] == " " && req[1 + |Operators[k]|..] == " " + ver;
    assert (" " + ver)[1..] == ver;
  }

  /**
   * `_split_requirement("pkg; python_version OP \"VER\"", version=True,
   * python=True)` reads the marker back: the (OP, VER) pair, and with
   * `merge` the marker itself, for a version without white space at its
   * ends, operator characters, ';', '"' or "python_version".
   */
  lemma PythonMarkerRoundTrip(pkg: string, k: nat, ver: string)
    requires k < |Operators|
    requires NoOperatorChar(ver) && ';' !in ver && '"' !in ver && !Contains(ver, PythonVersion)
    requires ver == [] || (!IsSpace(ver[0]) && !IsSpace(ver[|ver| - 1]))
    requires !Contains(pkg, PythonVersion)
    ensures RequirementParts(pkg + "; " + PythonMarker(k, ver), true, true, false) == Parts(Operators[k], ver)
    ensures RequirementParts(pkg + "; " + PythonMarker(k, ver), true, true, true) == Text(PythonMarker(k, ver))
  {
    var requirement := pkg + "; " + PythonMarker(k, ver);
    assert At(requirement, |pkg| + 2, PythonVersion) by {
      assert requirement[|pkg| + 2..|pkg| + 2 + |PythonVersion|] == PythonVersion;
    }
    CleanedMarker(pkg, k, ver);
    CutMarker(k, ver);
  }

  /** When none of the first `k` operators occurs, the search starts over at `k`. */
  lemma {:induction false} FirstOperatorSkips(s: string, k: nat)
    requires k <= |Operators|
    requires forall j :: 0 <= j < k ==> !Contains(s, Operators[j])
    ensures FirstOperator(s) == FirstOperatorFrom(s, k)
  {
    var m := 0;
    while m < k
      invariant 0 <= m <= k
      invariant FirstOperatorFrom(s, 0) == FirstOperatorFrom(s, m)
    {
      m := m + 1;
    }
  }

  /** Without flags the stripped package name before the first operator is returned. */
  lemma NameOnly(requirement: string)
    ensures var req := Cleaned(requirement, false);
      RequirementParts(requirement, false, false, false) ==
        Text(Strip(if FirstOperator(req).None? then req else req[..Find(req, Operators[FirstOperator(req).value])]))
  {
  }

  /** With `version` and no operator the pair is empty, whatever the package. */
  lemma VersionWithoutOperator(requirement: string, python: bool)
    requires python ==> Contains(requirement, PythonVersion)
    requires FirstOperator(Cleaned(requirement, python)) == None
    ensures RequirementParts(requirement, true, python, false) == Parts("", "")
  {
  }

  /** `_split_requirement(requirement, version=True, merge=True)`, as `_extra_requirements` calls it. */
  method MergedForm(requirement: string) returns (m: string)
    ensures m == Merged(requirement)
  {
    var r := SplitRequirement(requirement, true, false, true);
    m := r.text;
  }

  /** The merged forms of a list of requirements, in order. */
  ghost function MergedAll(reqs: seq<string>): (r: seq<string>)
    ensures |r| == |reqs|
  {
    if reqs == [] then [] else MergedAll(reqs[..|reqs| - 1]) + [Merged(reqs[|reqs| - 1])]
  }

  /** Each merged form is that of the requirement at the same place. */
  lemma {:induction false} MergedAllAt(reqs: seq<string>, j: nat)
    requires j < |reqs|
    ensures MergedAll(reqs)[j] == Merged(reqs[j])
    decreases |reqs|
  {
    if j < |reqs| - 1 {
      MergedAllAt(reqs[..|reqs| - 1], j);
    }
  }

  /** Extending the list extends its merged forms. */
  lemma MergedAllSnoc(reqs: seq<string>, i: nat, m: string)
    requires i < |reqs| && m == Merged(reqs[i])
    ensures MergedAll(reqs[..i + 1]) == MergedAll(reqs[..i]) + [m]
  {
    assert reqs[..i + 1][..i] == reqs[..i];
  }

  /** The first loop of `_extra_requirements`: the merged forms of the base requirements. */
  method RawRequirements(base: seq<string>) returns (raw: set<string>)
    ensures forall m :: m in raw <==> m in MergedAll(base)
  {
    raw := {};
    ghost var forms: seq<string> := [];
    var i := 0;
    while i < |base|
      invariant 0 <= i <= |base| && forms == MergedAll(base[..i])
      invariant forall m :: m in raw <==> m in forms
    {
      var m := MergedForm(base[i]);
      MergedAllSnoc(base, i, m);
      raw := raw + {m};
      forms := forms + [m];
      i := i + 1;
    }
    assert base[..i] == base;
  }

  /** The second loop of `_extra_requirements`: the other requirements whose merged form is new and non-empty. */
  method FilterExtra(other: seq<string>, raw: set<string>) returns (extra: set<string>)
    ensures forall q :: q in extra <==>
      exists j :: 0 <= j < |other| && other[j] == q && MergedAll(other)[j] != "" && MergedAll(other)[j] !in raw
  {
    extra := {};
    ghost var forms: seq<string> := [];
    var i := 0;
    while i < |other|
      invariant 0 <= i <= |other| && forms == MergedAll(other[..i])
      invariant forall q :: q in extra <==> exists j :: 0 <= j < i && other[j] == q && forms[j] != "" && forms[j] !in raw
    {
      var m := MergedForm(other[i]);
      MergedAllSnoc(other, i, m);
      if m != "" && m !in raw {
        extra := extra + {other[i]};
      }
      forms := forms + [m];
      i := i + 1;
    }
    assert other[..i] == other;
  }

  /**
   * `_extra_requirements`: the other requirements whose merged form is
   * non-empty and is not the merged form of any base requirement.
   */
  method ExtraRequirements(base: seq<string>, other: seq<string>) returns (extra: set<string>)
    ensures forall q :: q in extra <==>
      q in other && Merged(q) != "" && forall b :: b in base ==> Merged(b) != Merged(q)
  {
    var raw := RawRequirements(base);
    extra := FilterExtra(other, raw);
    ExtraMeaning(base, other, raw, extra);
  }

  /** The sets the two loops build, read back in terms of `Merged`. */
  lemma ExtraMeaning(base: seq<string>, other: seq<string>, raw: set<string>, extra: set<string>)
    requires forall m :: m in raw <==> m in MergedAll(base)
    requires forall q :: q in extra <==>
      exists j :: 0 <= j < |other| && other[j] == q && MergedAll(other)[j] != "" && MergedAll(other)[j] !in raw
    ensures forall q :: q in extra <==>
      q in other && Merged(q) != "" && forall b :: b in base ==> Merged(b) != Merged(q)
  {
    var baseForms := MergedAll(base);
    var forms := MergedAll(other);
    forall j | 0 <= j < |base|
      ensures baseForms[j] == Merged(base[j])
    {
      MergedAllAt(base, j);
    }
    forall j | 0 <= j < |other|
      ensures forms[j] == Merged(other[j])
    {
      MergedAllAt(other, j);
    }
    forall q
      ensures q in extra <==> q in other && Merged(q) != "" && forall b :: b in base ==> Merged(b) != Merged(q)
    {
      if q in other {
        var j :| 0 <= j < |other| && other[j] == q;
        assert Merged(q) in raw <==> exists b :: b in base && Merged(b) == Merged(q) by {
          if Merged(q) in raw {
            var k :| 0 <= k < |baseForms| && baseForms[k] == Merged(q);
            assert base[k] in base;
          }
          if exists b :: b in base && Merged(b) == Merged(q) {
            var b :| b in base && Merged(b) == Merged(q);
            var k :| 0 <= k < |base| && base[k] == b;
            assert baseForms[k] == Merged(q);
          }
        }
      }
    }
  }
}
