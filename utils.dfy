/**
 * Helpers of cowbird/utils.py: the "others" permission bits written on the
 * filesystem, the fuzzy header lookup, the extended enum lookup and the
 * per-class instance cache of the singleton metaclass.
 */
module Utils {
  import opened Common

  // ---------------------------------------------------------------------
  // Filesystem permission bits
  // ---------------------------------------------------------------------

  /** `stat.S_IROTH`, `stat.S_IWOTH`, `stat.S_IXOTH`. */
  const OthersRead := 4
  const OthersWrite := 2
  const OthersExecute := 1

  /**
   * The "others" digit of a mode: its value modulo 8, which is what
   * Python's bitwise operators see in two's complement for any integer.
   */
  function Digit(p: int): int
  {
    p % 8
  }

  /** Whether the bit `m` (4, 2 or 1) of the others digit is set. */
  predicate HasBit(p: int, m: int)
  {
    var d := Digit(p);
    if m == OthersRead then d >= 4 else if m == OthersWrite then d in {2, 3, 6, 7} else d in {1, 3, 5, 7}
  }

  /** `p | m` for one bit `m` of the others digit. */
  function SetBit(p: int, m: int): int
  {
    if HasBit(p, m) then p else p + m
  }

  /** `p & ~m` for one bit `m` of the others digit. */
  function ClearBit(p: int, m: int): int
  {
    if HasBit(p, m) then p - m else p
  }

  /** The others digit the three flags ask for. */
  function Others(readable: bool, writable: bool, executable: bool): int
  {
    (if readable then OthersRead else 0) + (if writable then OthersWrite else 0)
      + (if executable then OthersExecute else 0)
  }

  /** The mode `update_filesystem_permissions` computes: the user and group digits kept, the others digit from the flags. */
  function OthersMode(p: int, readable: bool, writable: bool, executable: bool): int
  {
    (p / 8) % 64 * 8 + Others(readable, writable, executable)
  }

  lemma StepBit(p: int, m: int, on: bool)
    requires m == OthersRead || m == OthersWrite || m == OthersExecute
    ensures var q := if on then SetBit(p, m) else ClearBit(p, m);
      q / 8 == p / 8 && (HasBit(q, m) <==> on) &&
      (m != OthersRead ==> (HasBit(q, OthersRead) <==> HasBit(p, OthersRead))) &&
      (m != OthersWrite ==> (HasBit(q, OthersWrite) <==> HasBit(p, OthersWrite))) &&
      (m != OthersExecute ==> (HasBit(q, OthersExecute) <==> HasBit(p, OthersExecute)))
  {
    var q := if on then SetBit(p, m) else ClearBit(p, m);
    assert p == p / 8 * 8 + Digit(p);
    assert q == p / 8 * 8 + (Digit(p) + (q - p));
    assert 0 <= Digit(p) + (q - p) < 8;
  }

  lemma DigitOfBits(p: int, readable: bool, writable: bool, executable: bool)
    requires HasBit(p, OthersRead) <==> readable
    requires HasBit(p, OthersWrite) <==> writable
    requires HasBit(p, OthersExecute) <==> executable
    ensures Digit(p) == Others(readable, writable, executable)
  {
  }

  /** `p & 0o777`: the two octal digits above the others digit, then the others digit. */
  lemma LowNine(p: int)
    ensures p % 0x200 == (p / 8) % 64 * 8 + Digit(p)
  {
    var a := (p / 8) % 64;
    var b := (p / 8) / 64;
    assert p == 512 * b + (8 * a + Digit(p));
    assert 0 <= 8 * a + Digit(p) < 512;
  }

  /**
   * `update_filesystem_permissions`: each of the read, write and execute
   * bits of "others" is set or cleared according to its flag, then only
   * the three last octal digits are kept.
   */
  method UpdateFilesystemPermissions(permission: int, readable: bool, writable: bool, executable: bool)
    returns (r: int)
    ensures r == OthersMode(permission, readable, writable, executable)
  {
    var steps := [(readable, OthersRead), (writable, OthersWrite), (executable, OthersExecute)];
    var p := permission;
    for i := 0 to 3
      invariant p / 8 == permission / 8
      invariant if i > 0 then (HasBit(p, OthersRead) <==> readable)
                else HasBit(p, OthersRead) == HasBit(permission, OthersRead)
      invariant if i > 1 then (HasBit(p, OthersWrite) <==> writable)
                else HasBit(p, OthersWrite) == HasBit(permission, OthersWrite)
      invariant if i > 2 then (HasBit(p, OthersExecute) <==> executable)
                else HasBit(p, OthersExecute) == HasBit(permission, OthersExecute)
    {
      var (enabled, mode) := steps[i];
      StepBit(p, mode, enabled);
      p := if enabled then SetBit(p, mode) else ClearBit(p, mode);
    }
    DigitOfBits(p, readable, writable, executable);
    LowNine(p);
    r := p % 0x200;
  }

  /**
   * The new mode is within `0o777`, its read, write and execute bits for
   * "others" are the three flags, and its user and group digits are those
   * of the input's three last octal digits.
   */
  lemma {:induction false} OthersModeBits(p: int, readable: bool, writable: bool, executable: bool)
    ensures var r := OthersMode(p, readable, writable, executable);
      0 <= r <= 0x1FF &&
      (HasBit(r, OthersRead) <==> readable) &&
      (HasBit(r, OthersWrite) <==> writable) &&
      (HasBit(r, OthersExecute) <==> executable) &&
      r / 8 == (p % 0x200) / 8
  {
    var r := OthersMode(p, readable, writable, executable);
    var a := (p / 8) % 64;
    var o := Others(readable, writable, executable);
    assert r == 8 * a + o && 0 <= o < 8;
    assert r / 8 == a && Digit(r) == o;
    LowNine(p);
    assert p % 0x200 == 8 * a + Digit(p);
  }

  /** Applying the same flags a second time changes nothing. */
  lemma {:induction false} OthersModeIdempotent(p: int, readable: bool, writable: bool, executable: bool)
    ensures var once := OthersMode(p, readable, writable, executable);
            OthersMode(once, readable, writable, executable) == once
  {
    var once := OthersMode(p, readable, writable, executable);
    OthersModeBits(p, readable, writable, executable);
    assert once / 8 == (p / 8) % 64;
    LowNine(p);
  }

  /**
   * The decision of `apply_new_path_permissions`: from the current mode of
   * the path, a chmod (to the new mode) only when the new mode differs
   * from the previous three octal digits.
   */
  method NewPathPermissions(mode: int, readable: bool, writable: bool, executable: bool)
    returns (chmod: Option<int>)
    ensures chmod.Some? <==> OthersMode(mode, readable, writable, executable) != mode % 0x200
    ensures chmod.Some? ==> chmod.value == OthersMode(mode, readable, writable, executable)
  {
    var previous := mode % 0x200;
    var updated := UpdateFilesystemPermissions(previous, readable, writable, executable);
    assert previous / 8 % 64 == mode / 8 % 64 by {
      LowNine(mode);
      OthersModeBits(mode, readable, writable, executable);
    }
    if updated != previous {
      chmod := Some(updated);
    } else {
      chmod := None;
    }
  }

  /**
   * Once a path has been given its new mode, the same event asks for no
   * further chmod: this is what keeps Magpie and Cowbird from echoing each
   * other's changes.
   */
  lemma {:induction false} ChmodSettles(mode: int, readable: bool, writable: bool, executable: bool)
    ensures var updated := OthersMode(mode, readable, writable, executable);
            OthersMode(updated, readable, writable, executable) == updated % 0x200
  {
    var updated := OthersMode(mode, readable, writable, executable);
    OthersModeIdempotent(mode, readable, writable, executable);
    OthersModeBits(mode, readable, writable, executable);
  }

  // ---------------------------------------------------------------------
  // Header lookup
  // ---------------------------------------------------------------------

  /** `fuzzy_name`: lower case, with `-` written as `_`. */
  function Fuzzy(name: string): (r: string)
    ensures |r| == |name|
    ensures forall i :: 0 <= i < |r| ==> r[i] != '-'
  {
    ReplaceChar(Lower(name), '-', '_')
  }

  lemma FuzzyIgnoresCaseAndDash(a: string, b: string)
    requires |a| == |b|
    requires forall i :: 0 <= i < |a| ==>
      LowerChar(a[i]) == LowerChar(b[i]) || (a[i] in "-_" && b[i] in "-_")
    ensures Fuzzy(a) == Fuzzy(b)
  {
  }

  /** Python's `str.replace(old, new)`, including the empty `old` that inserts `new` around every character. */
  function Replace(s: string, pat: string, repl: string): (r: string)
    decreases |s|
  {
    if pat == [] then
      (if s == [] then repl else repl + [s[0]] + Replace(s[1..], pat, repl))
    else if StartsWith(s, pat) then repl + Replace(s[|pat|..], pat, repl)
    else if s == [] then []
    else [s[0]] + Replace(s[1..], pat, repl)
  }

  lemma ReplaceOneChar(s: string, a: char, b: char)
    ensures Replace(s, [a], [b]) == ReplaceChar(s, a, b)
  {
    if s != [] {
      ReplaceOneChar(s[1..], a, b);
    }
  }

  /** The first element of `str.split(sep)` for a non-empty separator. */
  function FirstPiece(s: string, sep: string): (r: string)
    requires sep != []
    ensures |r| <= |s| && r == s[..|r|]
  {
    if s == [] || StartsWith(s, sep) then [] else [s[0]] + FirstPiece(s[1..], sep)
  }

  lemma FirstPieceOneChar(s: string, c: char)
    ensures FirstPiece(s, [c]) == BeforeChar(s, c)
  {
    if s != [] {
      FirstPieceOneChar(s[1..], c);
    }
  }

  /** The `split` argument of `get_header`: absent, a string, or a list of separators. */
  datatype SplitArg = NoSplit | SplitText(text: string) | SplitList(seps: seq<string>)

  /** Every separator of the list replaced, in order, by the first one. */
  function ReplaceEach(v: string, seps: seq<string>, target: string): string
    decreases |seps|
  {
    if seps == [] then v else ReplaceEach(Replace(v, seps[0], target), seps[1..], target)
  }

  /** The separators a string names: each of its characters. */
  function CharSeps(t: string): (r: seq<string>)
    ensures |r| == |t|
    ensures forall i :: 0 <= i < |t| ==> r[i] == [t[i]]
  {
    seq(|t|, i requires 0 <= i < |t| => [t[i]])
  }

  /** What `get_header` returns for a matched value `v` cut with a list of separators. */
  function CutList(v: string, seps: seq<string>): Result<string>
  {
    if seps == [] then Failure(IndexError)
    else
      var w := ReplaceEach(v, seps, seps[0]);
      Success(Strip(if seps[0] == [] then w else FirstPiece(w, seps[0])))
  }

  /** What `get_header` returns for a matched value `v`. */
  function Cut(v: string, split: SplitArg): Result<string>
  {
    match split
    case NoSplit => Success(Strip(v))
    case SplitText(t) =>
      if |t| > 1 then CutList(v, CharSeps(t))
      else if t == [] then Success(Strip(v))
      else Success(Strip(FirstPiece(v, t)))
    case SplitList(seps) => CutList(v, seps)
  }

  /** Index of the first header whose fuzzy name equals the fuzzy `name`. */
  function FirstFuzzy(headers: seq<(string, string)>, name: string): (r: Option<nat>)
    ensures r.Some? ==> r.value < |headers| && Fuzzy(headers[r.value].0) == Fuzzy(name)
    ensures r.Some? ==> forall j :: 0 <= j < r.value ==> Fuzzy(headers[j].0) != Fuzzy(name)
    ensures r.None? <==> forall j :: 0 <= j < |headers| ==> Fuzzy(headers[j].0) != Fuzzy(name)
  {
    if headers == [] then None
    else if Fuzzy(headers[0].0) == Fuzzy(name) then Some(0)
    else match FirstFuzzy(headers[1..], name)
      case None => None
      case Some(i) => Some(i + 1)
  }

  /**
   * `get_header`: the first header whose name matches `name` up to case and
   * `-`/`_`, cut at the first separator when `split` is given; `default`
   * when there is no container or no match. An empty separator list makes
   * `split[0]` raise IndexError.
   */
  method GetHeader(name: string, container: Option<seq<(string, string)>>, default: Option<string>,
                   split: SplitArg)
    returns (r: Result<Option<string>>)
    ensures container.None? ==> r == Success(default)
    ensures container.Some? && FirstFuzzy(container.value, name).None? ==> r == Success(default)
    ensures container.Some? && FirstFuzzy(container.value, name).Some? ==>
      var v := container.value[FirstFuzzy(container.value, name).value].1;
      (r.Success? <==> Cut(v, split).Success?) &&
      (r.Success? ==> r.value == Some(Cut(v, split).value))
  {
    if container.None? {
      return Success(default);
    }
    var headers := container.value;
    var wanted := Fuzzy(name);
    var i := 0;
    while i < |headers|
      invariant 0 <= i <= |headers|
      invariant forall j :: 0 <= j < i ==> Fuzzy(headers[j].0) != wanted
    {
      var (h, v) := headers[i];
      if Fuzzy(h) == wanted {
        assert FirstFuzzy(headers, name) == Some(i);
        var cut := CutValue(v, split);
        match cut {
          case Success(s) => return Success(Some(s));
          case Failure(e) => return Failure(e);
        }
      }
      i := i + 1;
    }
    return Success(default);
  }

  /** The separator handling of `get_header`, step by step. */
  method CutValue(v0: string, split0: SplitArg) returns (r: Result<string>)
    ensures r == Cut(v0, split0)
  {
    var v := v0;
    var split := split0;
    if split.SplitText? && |split.text| > 1 {
      var t := split.text;
      split := SplitList(CharSeps(t));
    }
    if split.SplitList? {
      var seps := split.seps;
      if seps == [] {
        return Failure(IndexError);
      }
      for i := 0 to |seps|
        invariant ReplaceEach(v0, seps, seps[0]) == ReplaceEach(v, seps[i..], seps[0])
      {
        assert seps[i..][1..] == seps[i + 1..];
        v := Replace(v, seps[i], seps[0]);
      }
      assert seps[|seps|..] == [];
      if seps[0] == [] {
        return Success(Strip(v));
      }
      return Success(Strip(FirstPiece(v, seps[0])));
    }
    if split.NoSplit? || split.text == [] {
      return Success(Strip(v));
    }
    return Success(Strip(FirstPiece(v, split.text)));
  }

  /** The prefix of `s` before the first character of `cs`. */
  function BeforeAny(s: string, cs: set<char>): (r: string)
    ensures |r| <= |s| && r == s[..|r|]
    ensures forall i :: 0 <= i < |r| ==> r[i] !in cs
    ensures |r| < |s| ==> s[|r|] in cs
  {
    if s == [] || s[0] in cs then [] else [s[0]] + BeforeAny(s[1..], cs)
  }

  /** Characters of a list of one-character separators. */
  function SepChars(seps: seq<string>): set<char>
  {
    set i | 0 <= i < |seps| && |seps[i]| == 1 :: seps[i][0]
  }

  /** After replacing single characters by `c`, every one of them reads as `c`. */
  lemma {:induction false} ReplaceEachChars(v: string, seps: seq<string>, c: char)
    requires forall i :: 0 <= i < |seps| ==> |seps[i]| == 1
    ensures var w := ReplaceEach(v, seps, [c]);
            |w| == |v| && forall k :: 0 <= k < |v| ==> w[k] == (if v[k] in SepChars(seps) then c else v[k])
    decreases |seps|
  {
    if seps != [] {
      var a := seps[0][0];
      assert seps[0] == [a];
      ReplaceOneChar(v, a, c);
      var v1 := Replace(v, seps[0], [c]);
      ReplaceEachChars(v1, seps[1..], c);
      assert SepChars(seps) == {a} + SepChars(seps[1..]) by {
        forall x | x in SepChars(seps) ensures x in {a} + SepChars(seps[1..]) {
          var i :| 0 <= i < |seps| && |seps[i]| == 1 && seps[i][0] == x;
          if i > 0 {
            assert seps[1..][i - 1] == seps[i];
          }
        }
        forall x | x in SepChars(seps[1..]) ensures x in SepChars(seps) {
          var i :| 0 <= i < |seps[1..]| && |seps[1..][i]| == 1 && seps[1..][i][0] == x;
          assert seps[i + 1] == seps[1..][i];
        }
      }
    } else {
      assert SepChars(seps) == {};
    }
  }

  lemma {:induction false} BeforeCharOfReplaced(v: string, w: string, cs: set<char>, c: char)
    requires c in cs
    requires |w| == |v| && forall k :: 0 <= k < |v| ==> w[k] == (if v[k] in cs then c else v[k])
    ensures BeforeChar(w, c) == BeforeAny(v, cs)
    decreases |v|
  {
    if v != [] {
      BeforeCharOfReplaced(v[1..], w[1..], cs, c);
    }
  }

  /**
   * With one-character separators (a string of several characters, or a
   * list of single characters), all of them are normalised to the first
   * and the value is cut before the first of any of them: every way of
   * naming the same separators yields the same header value.
   */
  lemma {:induction false} CutAtAnySeparator(v: string, seps: seq<string>)
    requires seps != []
    requires forall i :: 0 <= i < |seps| ==> |seps[i]| == 1
    ensures CutList(v, seps) == Success(Strip(BeforeAny(v, SepChars(seps))))
  {
    var c := seps[0][0];
    assert seps[0] == [c];
    assert c in SepChars(seps);
    ReplaceEachChars(v, seps, c);
    var w := ReplaceEach(v, seps, seps[0]);
    FirstPieceOneChar(w, c);
    BeforeCharOfReplaced(v, w, SepChars(seps), c);
  }

  lemma {:induction false} CutAtAnyTextSeparator(v: string, t: string)
    requires t != []
    ensures Cut(v, SplitText(t)) == Success(Strip(BeforeAny(v, SepChars(CharSeps(t)))))
  {
    if |t| > 1 {
      CutAtAnySeparator(v, CharSeps(t));
    } else {
      var c := t[0];
      assert t == [c];
      FirstPieceOneChar(v, c);
      BeforeCharOfReplaced(v, v, {c}, c);
      assert SepChars(CharSeps(t)) == {c} by {
        assert CharSeps(t)[0] == [c];
      }
    }
  }

  /** The characters a separator string names are exactly its own. */
  lemma CharSepsChars(t: string)
    ensures SepChars(CharSeps(t)) == set i | 0 <= i < |t| :: t[i]
  {
    forall x | x in set i | 0 <= i < |t| :: t[i] ensures x in SepChars(CharSeps(t)) {
      var i :| 0 <= i < |t| && t[i] == x;
      assert CharSeps(t)[i][0] == x;
    }
  }

  // ---------------------------------------------------------------------
  // Extended enum
  // ---------------------------------------------------------------------

  /**
   * One member of an enum: the enum class it belongs to, its name and its
   * (string) value. Members of a plain `Enum` compare by identity, so two
   * classes defining the same name and value still have different members.
   */
  datatype EnumMember = EnumMember(owner: string, name: string, value: string)

  /** The members of the enum class `owner` (`[member for member in cls]`). */
  predicate OwnedBy(owner: string, members: seq<EnumMember>)
  {
    forall i :: 0 <= i < |members| ==> members[i].owner == owner
  }

  /** The argument of `ExtendedEnum.get`: an enum member, or a name or value to look up. */
  datatype EnumKey = MemberKey(member: EnumMember) | TextKey(text: string)

  /** `ExtendedEnum.names`. */
  function Names(members: seq<EnumMember>): (r: seq<string>)
    ensures |r| == |members|
    ensures forall i :: 0 <= i < |r| ==> r[i] == members[i].name
  {
    seq(|members|, i requires 0 <= i < |members| => members[i].name)
  }

  /** `ExtendedEnum.values`. */
  function Values(members: seq<EnumMember>): (r: seq<string>)
    ensures |r| == |members|
    ensures forall i :: 0 <= i < |r| ==> r[i] == members[i].value
  {
    seq(|members|, i requires 0 <= i < |members| => members[i].value)
  }

  /** The first member, from index `from` on, whose name or value equals `text`. */
  function FindByText(members: seq<EnumMember>, text: string, from: nat): (r: Option<nat>)
    requires from <= |members|
    ensures r.Some? ==> from <= r.value < |members| &&
                        (members[r.value].name == text || members[r.value].value == text)
    ensures r.Some? ==> forall j :: from <= j < r.value ==> members[j].name != text && members[j].value != text
    ensures r.None? ==> forall j :: from <= j < |members| ==> members[j].name != text && members[j].value != text
    decreases |members| - from
  {
    if from == |members| then None
    else if members[from].name == text || members[from].value == text then Some(from)
    else FindByText(members, text, from + 1)
  }

  /**
   * `ExtendedEnum.get`: a member is returned as is, otherwise the first
   * member whose name or value equals the key; `None` stands for `default`.
   * A member equals no name or value, and a member of another enum class is
   * not among this one's members.
   */
  function EnumGet(owner: string, members: seq<EnumMember>, key: EnumKey): (r: Option<EnumMember>)
    requires OwnedBy(owner, members)
    ensures r.Some? ==> r.value in members && r.value.owner == owner
    ensures key.MemberKey? ==> (r.Some? <==> key.member in members)
    ensures key.MemberKey? && key.member.owner != owner ==> r.None?
    ensures key.MemberKey? && r.Some? ==> r.value == key.member
    ensures key.TextKey? ==>
      (r.Some? <==> exists i :: 0 <= i < |members| && (members[i].name == key.text || members[i].value == key.text))
    ensures key.TextKey? && r.Some? ==> r.value.name == key.text || r.value.value == key.text
    ensures key.TextKey? && r.Some? ==>
      exists i :: 0 <= i < |members| && members[i] == r.value &&
        forall j :: 0 <= j < i ==> members[j].name != key.text && members[j].value != key.text
    ensures key.TextKey? && r.None? ==>
      forall j :: 0 <= j < |members| ==> members[j].name != key.text && members[j].value != key.text
  {
    match key
    case MemberKey(m) => if m in members then Some(m) else None
    case TextKey(t) =>
      match FindByText(members, t, 0)
      case None => None
      case Some(i) => Some(members[i])
  }

  /** Each name listed by `names` leads back to its own member when no earlier member has it as name or value. */
  lemma NamesLeadBack(owner: string, members: seq<EnumMember>, i: nat)
    requires OwnedBy(owner, members) && i < |members|
    requires forall j :: 0 <= j < i ==> members[j].name != members[i].name && members[j].value != members[i].name
    ensures EnumGet(owner, members, TextKey(Names(members)[i])) == Some(members[i])
  {
  }

  /** The same for every value listed by `values`. */
  lemma ValuesLeadBack(owner: string, members: seq<EnumMember>, i: nat)
    requires OwnedBy(owner, members) && i < |members|
    requires forall j :: 0 <= j < i ==> members[j].name != members[i].value && members[j].value != members[i].value
    ensures EnumGet(owner, members, TextKey(Values(members)[i])) == Some(members[i])
  {
  }

  /**
   * A member of another enum class is not found, even when this class
   * defines the same name with the same value; looking up its name or its
   * value finds this class's own member instead.
   */
  lemma OtherEnumMemberNotFound(owner: string, other: string, members: seq<EnumMember>, i: nat)
    requires OwnedBy(owner, members) && other != owner && i < |members|
    requires forall j :: 0 <= j < i ==> members[j].name != members[i].name && members[j].value != members[i].name
    ensures EnumGet(owner, members, MemberKey(EnumMember(other, members[i].name, members[i].value))) == None
    ensures EnumGet(owner, members, TextKey(EnumMember(other, members[i].name, members[i].value).name)) == Some(members[i])
  {
  }

  // ---------------------------------------------------------------------
  // Singleton metaclass
  // ---------------------------------------------------------------------

  /** An object created through the singleton metaclass, tagged with its class. */
  class Instance {
    const cls: string
    constructor(cls: string)
      ensures this.cls == cls
    {
      this.cls := cls;
    }
  }

  /** `SingletonMeta._instances`: one cached instance per class. */
  class SingletonRegistry {
    var instances: map<string, Instance>

    ghost predicate Valid()
      reads this, instances.Values
    {
      forall c :: c in instances ==> instances[c].cls == c
    }

    constructor()
      ensures instances == map[]
      ensures Valid()
    {
      instances := map[];
    }

    /** `SingletonMeta.__call__`: builds the instance on the first call for a class, returns the cached one after. */
    method Call(cls: string) returns (inst: Instance)
      requires Valid()
      modifies this
      ensures Valid()
      ensures inst.cls == cls
      ensures cls in old(instances) ==> inst == old(instances)[cls] && instances == old(instances)
      ensures cls !in old(instances) ==> fresh(inst) && instances == old(instances)[cls := inst]
    {
      if cls !in instances {
        var made := new Instance(cls);
        instances := instances[cls := made];
      }
      inst := instances[cls];
    }
  }
}
