/**
 * Resource paths of a sync point: the typed path built from a resource tree,
 * the templates of the sync configuration (literal segments, `{var}` named
 * tokens and the multi-token), the matcher that stands in for the regular
 * expression generated from a template, and the generator that substitutes
 * the matched groups into a target template.
 */
module ResourcePath {
  import opened Common

  /** One segment of a resource tree: its name and its resource type. */
  datatype Segment = Segment(name: string, rtype: string)

  /**
   * One segment of a configured resource key. The configuration grammar
   * decides which names are tokens; here that decision is already made.
   */
  datatype TemplateSegment =
    | Literal(name: string, rtype: string)
    | Named(token: string, rtype: string)
    | Multi(rtype: string)

  type Template = seq<TemplateSegment>

  /** The group dictionary of a successful match, keyed by group name. */
  type Groups = map<string, string>

  /** Name of the group that the multi-token captures. */
  const MultiTokenGroup: string := "multi_token"

  /** The character class `\w` restricted to ASCII. */
  predicate IsWordChar(c: char)
  {
    ('a' <= c <= 'z') || ('A' <= c <= 'Z') || ('0' <= c <= '9') || c == '_'
  }

  /** A name accepted by the segment-name class `[\w:-]+`. */
  predicate SegmentNameOk(n: string)
  {
    |n| > 0 && forall i :: 0 <= i < |n| ==> IsWordChar(n[i]) || n[i] == ':' || n[i] == '-'
  }

  /** `"/" + p0 + "/" + p1 + ...`: a path made of the given pieces. */
  function Join(ps: seq<string>): (r: string)
    ensures ps == [] <==> r == ""
  {
    if ps == [] then "" else "/" + ps[0] + Join(ps[1..])
  }

  function Label(s: Segment): string
  {
    s.name + "::" + s.rtype
  }

  function Labels(tree: seq<Segment>): (r: seq<string>)
    ensures |r| == |tree|
    ensures forall i :: 0 <= i < |tree| ==> r[i] == Label(tree[i])
  {
    if tree == [] then [] else [Label(tree[0])] + Labels(tree[1..])
  }

  function Names(tree: seq<Segment>): (r: seq<string>)
    ensures |r| == |tree|
    ensures forall i :: 0 <= i < |tree| ==> r[i] == tree[i].name
  {
    if tree == [] then [] else [tree[0].name] + Names(tree[1..])
  }

  /** The typed path `/name1::type1/name2::type2` of a resource tree. */
  function NametypePath(tree: seq<Segment>): string
  {
    Join(Labels(tree))
  }

  /** `s.split("::")[0]`: the part before the first name/type separator. */
  function BeforeSeparator(s: string): (r: string)
    ensures StartsWith(s, r)
  {
    if |s| < 2 then s
    else if s[0] == ':' && s[1] == ':' then ""
    else [s[0]] + BeforeSeparator(s[1..])
  }

  function RemoveTypeFromPieces(ps: seq<string>): string
  {
    if ps == [] then ""
    else (if ps[0] != "" then "/" + BeforeSeparator(ps[0]) else "") + RemoveTypeFromPieces(ps[1..])
  }

  /** Drops the `::type` part of every non-empty piece of a typed path. */
  function RemoveType(path: string): string
  {
    RemoveTypeFromPieces(Split(path, '/'))
  }

  lemma {:induction false} BeforeSeparatorOfLabel(n: string, t: string)
    requires ':' !in n
    ensures BeforeSeparator(n + "::" + t) == n
  {
    if n == [] {
      assert n + "::" + t == "::" + t;
    } else {
      assert (n + "::" + t)[1..] == n[1..] + "::" + t;
      BeforeSeparatorOfLabel(n[1..], t);
      assert [n[0]] + n[1..] == n;
    }
  }

  lemma {:induction false} SplitJoinAfter(p: string, ps: seq<string>)
    requires '/' !in p
    requires forall i :: 0 <= i < |ps| ==> '/' !in ps[i]
    ensures Split(p + Join(ps), '/') == [p] + ps
    decreases |ps|
  {
    if ps == [] {
      assert p + Join(ps) == p;
      SplitNoSep(p, '/');
    } else {
      assert p + Join(ps) == p + ['/'] + (ps[0] + Join(ps[1..]));
      SplitCons(p, ps[0] + Join(ps[1..]), '/');
      SplitJoinAfter(ps[0], ps[1..]);
      assert [ps[0]] + ps[1..] == ps;
    }
  }

  /** Splitting a joined path at '/' gives back its pieces after a leading empty piece. */
  lemma {:induction false} SplitJoin(ps: seq<string>)
    requires forall i :: 0 <= i < |ps| ==> '/' !in ps[i]
    ensures ps != [] ==> Split(Join(ps), '/') == [""] + ps
    ensures NonEmpty(Split(Join(ps), '/')) == NonEmpty(ps)
  {
    if ps == [] {
      assert Split("", '/') == [""];
    } else {
      var rest := ps[0] + Join(ps[1..]);
      assert Join(ps) == ['/'] + rest;
      assert Split(['/'] + rest, '/') == [""] + Split(rest, '/') by {
        assert (['/'] + rest)[1..] == rest;
      }
      SplitJoinAfter(ps[0], ps[1..]);
      assert [ps[0]] + ps[1..] == ps;
      NonEmptyAppend([""], ps);
    }
  }

  lemma {:induction false} RemoveTypeFromLabels(tree: seq<Segment>)
    requires forall i :: 0 <= i < |tree| ==> ':' !in tree[i].name
    ensures RemoveTypeFromPieces(Labels(tree)) == Join(Names(tree))
  {
    if tree != [] {
      BeforeSeparatorOfLabel(tree[0].name, tree[0].rtype);
      assert Labels(tree)[1..] == Labels(tree[1..]);
      assert Names(tree)[1..] == Names(tree[1..]);
      RemoveTypeFromLabels(tree[1..]);
    }
  }

  /**
   * Removing the types from a typed path leaves `/name1/name2...` whenever no
   * name holds ':' and no name or type holds '/'.
   */
  lemma {:induction false} RemoveTypeOfNametypePath(tree: seq<Segment>)
    requires forall i :: 0 <= i < |tree| ==> ':' !in tree[i].name && '/' !in tree[i].name && '/' !in tree[i].rtype
    ensures RemoveType(NametypePath(tree)) == Join(Names(tree))
  {
    var ls := Labels(tree);
    forall i | 0 <= i < |ls|
      ensures '/' !in ls[i]
    {
      assert ls[i] == tree[i].name + "::" + tree[i].rtype;
    }
    SplitJoin(ls);
    RemoveTypeFromLabels(tree);
    if ls != [] {
      var ps := [""] + ls;
      assert Split(Join(ls), '/') == ps;
      assert ps[1..] == ls;
      assert RemoveTypeFromPieces(ps) == RemoveTypeFromPieces(ls);
    }
  }

  /** Number of literal segments: the length a match is ranked by. */
  function LiteralCount(tmpl: Template): (n: nat)
    ensures n <= |tmpl|
  {
    if tmpl == [] then 0 else (if tmpl[0].Literal? then 1 else 0) + LiteralCount(tmpl[1..])
  }

  /** Names of the groups a template's expression defines. */
  function GroupNames(tmpl: Template): set<string>
  {
    if tmpl == [] then {}
    else
      match tmpl[0]
      case Literal(_, _) => GroupNames(tmpl[1..])
      case Named(v, _) => {v} + GroupNames(tmpl[1..])
      case Multi(_) => {MultiTokenGroup} + GroupNames(tmpl[1..])
  }

  predicate HasMulti(tmpl: Template)
  {
    exists i :: 0 <= i < |tmpl| && tmpl[i].Multi?
  }

  /**
   * A template whose expression compiles: at most one multi-token and no
   * group name defined twice.
   */
  predicate ValidTemplate(tmpl: Template)
  {
    (forall i, j :: 0 <= i < j < |tmpl| && tmpl[i].Multi? ==> !tmpl[j].Multi?) &&
    (forall i, j :: 0 <= i < j < |tmpl| && tmpl[i].Named? && tmpl[j].Named? ==> tmpl[i].token != tmpl[j].token) &&
    (HasMulti(tmpl) ==> forall i :: 0 <= i < |tmpl| && tmpl[i].Named? ==> tmpl[i].token != MultiTokenGroup)
  }

  /**
   * The match of a resource tree against a template, with the raw group
   * dictionary: a literal takes one segment with that exact name and type, a
   * named token one segment of its type whose name is in the segment-name
   * class, and the multi-token every segment left over by the rest of the
   * template, each of its type and with a name in the class; it captures the
   * typed path of what it absorbs.
   */
  function Match(tmpl: Template, tree: seq<Segment>): (r: Option<Groups>)
    ensures r.Some? ==> r.value.Keys == GroupNames(tmpl)
    decreases |tmpl|
  {
    if tmpl == [] then (if tree == [] then Some(map[]) else None)
    else
      match tmpl[0]
      case Literal(n, t) =>
        if tree != [] && tree[0] == Segment(n, t) then Match(tmpl[1..], tree[1..]) else None
      case Named(v, t) =>
        if tree != [] && tree[0].rtype == t && SegmentNameOk(tree[0].name) then
          match Match(tmpl[1..], tree[1..])
          case Some(g) => Some(g[v := tree[0].name])
          case None => None
        else None
      case Multi(t) =>
        if |tree| + 1 < |tmpl| then None
        else
          var k := |tree| + 1 - |tmpl|;
          if forall i :: 0 <= i < k ==> tree[i].rtype == t && SegmentNameOk(tree[i].name) then
            match Match(tmpl[1..], tree[k..])
            case Some(g) => Some(g[MultiTokenGroup := NametypePath(tree[..k])])
            case None => None
          else None
  }

  /** The group dictionary the matcher hands on: the multi-token group loses its types. */
  function MatchedGroups(tmpl: Template, tree: seq<Segment>): (r: Option<Groups>)
    ensures r.Some? <==> Match(tmpl, tree).Some?
    ensures r.Some? ==> r.value.Keys == GroupNames(tmpl)
  {
    match Match(tmpl, tree)
    case None => None
    case Some(g) =>
      Some(if MultiTokenGroup in g then g[MultiTokenGroup := RemoveType(g[MultiTokenGroup])] else g)
  }

  function SegmentsOfType(names: seq<string>, t: string): (r: seq<Segment>)
    ensures |r| == |names|
    ensures forall i :: 0 <= i < |names| ==> r[i] == Segment(names[i], t)
  {
    if names == [] then [] else [Segment(names[0], t)] + SegmentsOfType(names[1..], t)
  }

  /** The groups a template segment reads when it is generated. */
  predicate Bound(ts: TemplateSegment, g: Groups)
  {
    match ts
    case Literal(_, _) => true
    case Named(v, _) => v in g
    case Multi(_) => MultiTokenGroup in g
  }

  /**
   * The resource data generated from a target template: literals are copied,
   * a named token takes its group's value, and the multi-token expands to one
   * segment per non-empty piece of its group. None stands for the KeyError of
   * a group that the match did not define.
   */
  function CreateResData(tmpl: Template, g: Groups): (r: Option<seq<Segment>>)
    ensures r.Some? <==> forall i :: 0 <= i < |tmpl| ==> Bound(tmpl[i], g)
    ensures r.Some? && !HasMulti(tmpl) ==> |r.value| == |tmpl|
  {
    if tmpl == [] then Some([])
    else
      var head: Option<seq<Segment>> :=
        match tmpl[0]
        case Literal(n, t) => Some([Segment(n, t)])
        case Named(v, t) => if v in g then Some([Segment(g[v], t)]) else None
        case Multi(t) =>
          if MultiTokenGroup in g then Some(SegmentsOfType(NonEmpty(Split(g[MultiTokenGroup], '/')), t)) else None;
      match (head, CreateResData(tmpl[1..], g))
      case (Some(h), Some(rest)) => Some(h + rest)
      case _ => None
  }

  lemma {:induction false} GroupNamesHas(tmpl: Template, i: int)
    requires 0 <= i < |tmpl|
    ensures tmpl[i].Named? ==> tmpl[i].token in GroupNames(tmpl)
    ensures tmpl[i].Multi? ==> MultiTokenGroup in GroupNames(tmpl)
  {
    if i > 0 {
      GroupNamesHas(tmpl[1..], i - 1);
    }
  }

  lemma {:induction false} TailTemplate(tmpl: Template)
    requires ValidTemplate(tmpl) && tmpl != []
    ensures ValidTemplate(tmpl[1..])
    ensures HasMulti(tmpl[1..]) ==> HasMulti(tmpl) && !tmpl[0].Multi?
    ensures tmpl[0].Named? ==> forall i :: 0 <= i < |tmpl| - 1 && tmpl[1..][i].Named? ==>
      tmpl[1..][i].token != tmpl[0].token
    ensures tmpl[0].Multi? ==> forall i :: 0 <= i < |tmpl| - 1 && tmpl[1..][i].Named? ==>
      tmpl[1..][i].token != MultiTokenGroup
  {
    var rest := tmpl[1..];
    assert forall i :: 0 <= i < |rest| ==> rest[i] == tmpl[i + 1];
    if HasMulti(rest) {
      var j :| 0 <= j < |rest| && rest[j].Multi?;
      assert tmpl[j + 1].Multi?;
    }
    if tmpl[0].Multi? {
      assert HasMulti(tmpl);
    }
  }

  /** What the generator needs from the groups to reproduce a match. */
  predicate GroupsAgree(tmpl: Template, raw: Groups, g: Groups)
  {
    (forall i :: 0 <= i < |tmpl| && tmpl[i].Named? ==>
      tmpl[i].token in raw && tmpl[i].token in g && g[tmpl[i].token] == raw[tmpl[i].token]) &&
    (HasMulti(tmpl) ==>
      MultiTokenGroup in raw && MultiTokenGroup in g && g[MultiTokenGroup] == RemoveType(raw[MultiTokenGroup]))
  }

  predicate CleanTree(tree: seq<Segment>)
  {
    forall i :: 0 <= i < |tree| ==> ':' !in tree[i].name && '/' !in tree[i].rtype
  }

  lemma {:induction false} GenerateFromMatch(tmpl: Template, tree: seq<Segment>, raw: Groups, g: Groups)
    requires ValidTemplate(tmpl) && CleanTree(tree)
    requires Match(tmpl, tree) == Some(raw)
    requires GroupsAgree(tmpl, raw, g)
    ensures CreateResData(tmpl, g) == Some(tree)
    decreases |tmpl|, 1
  {
    if tmpl != [] {
      TailTemplate(tmpl);
      match tmpl[0]
      case Literal(n, t) =>
        assert GroupsAgree(tmpl[1..], raw, g) by {
          assert forall i :: 0 <= i < |tmpl| - 1 ==> tmpl[1..][i] == tmpl[i + 1];
        }
        GenerateFromMatch(tmpl[1..], tree[1..], raw, g);
        assert [tree[0]] + tree[1..] == tree;
      case Named(v, t) =>
        GenerateNamed(tmpl, tree, raw, g);
      case Multi(t) =>
        GenerateMulti(tmpl, tree, raw, g);
    }
  }

  lemma {:induction false} GenerateNamed(tmpl: Template, tree: seq<Segment>, raw: Groups, g: Groups)
    requires ValidTemplate(tmpl) && CleanTree(tree)
    requires tmpl != [] && tmpl[0].Named?
    requires Match(tmpl, tree) == Some(raw)
    requires GroupsAgree(tmpl, raw, g)
    ensures CreateResData(tmpl, g) == Some(tree)
    decreases |tmpl|, 0
  {
    TailTemplate(tmpl);
    var rest := tmpl[1..];
    var v := tmpl[0].token;
    var raw' := Match(rest, tree[1..]).value;
    assert raw == raw'[v := tree[0].name];
    forall i | 0 <= i < |rest| && rest[i].Named?
      ensures rest[i].token in raw' && rest[i].token in g && g[rest[i].token] == raw'[rest[i].token]
    {
      assert rest[i] == tmpl[i + 1];
      GroupNamesHas(rest, i);
    }
    if HasMulti(rest) {
      var j :| 0 <= j < |rest| && rest[j].Multi?;
      assert tmpl[0] == tmpl[..|tmpl|][0];
      assert v != MultiTokenGroup;
      GroupNamesHas(rest, j);
    }
    assert GroupsAgree(rest, raw', g);
    GenerateFromMatch(rest, tree[1..], raw', g);
    assert CleanTree(tree[1..]);
    assert [tree[0]] + tree[1..] == tree;
  }

  lemma {:induction false} GenerateMulti(tmpl: Template, tree: seq<Segment>, raw: Groups, g: Groups)
    requires ValidTemplate(tmpl) && CleanTree(tree)
    requires tmpl != [] && tmpl[0].Multi?
    requires Match(tmpl, tree) == Some(raw)
    requires GroupsAgree(tmpl, raw, g)
    ensures CreateResData(tmpl, g) == Some(tree)
    decreases |tmpl|, 0
  {
    TailTemplate(tmpl);
    var rest := tmpl[1..];
    var t := tmpl[0].rtype;
    var k := |tree| + 1 - |tmpl|;
    var absorbed := tree[..k];
    var raw' := Match(rest, tree[k..]).value;
    assert raw == raw'[MultiTokenGroup := NametypePath(absorbed)];
    forall i | 0 <= i < |rest| && rest[i].Named?
      ensures rest[i].token in raw' && rest[i].token in g && g[rest[i].token] == raw'[rest[i].token]
    {
      assert rest[i] == tmpl[i + 1];
      GroupNamesHas(rest, i);
    }
    assert GroupsAgree(rest, raw', g);
    assert CleanTree(tree[k..]);
    GenerateFromMatch(rest, tree[k..], raw', g);
    AbsorbedComeBack(absorbed, t, g);
    assert absorbed + tree[k..] == tree;
  }

  lemma {:induction false} AbsorbedComeBack(absorbed: seq<Segment>, t: string, g: Groups)
    requires CleanTree(absorbed)
    requires forall i :: 0 <= i < |absorbed| ==> absorbed[i].rtype == t && SegmentNameOk(absorbed[i].name)
    requires MultiTokenGroup in g && g[MultiTokenGroup] == RemoveType(NametypePath(absorbed))
    ensures SegmentsOfType(NonEmpty(Split(g[MultiTokenGroup], '/')), t) == absorbed
  {
    forall i | 0 <= i < |absorbed|
      ensures '/' !in absorbed[i].name
    {
      assert SegmentNameOk(absorbed[i].name);
    }
    RemoveTypeOfNametypePath(absorbed);
    SplitJoin(Names(absorbed));
    NonEmptyId(Names(absorbed));
  }

  /**
   * Generating from the template that matched, with the groups the match
   * produced, gives back the matched tree: literals are copied, each named
   * token returns its segment and the multi-token re-expands what it absorbed.
   */
  lemma GenerateReproducesMatchedTree(tmpl: Template, tree: seq<Segment>)
    requires ValidTemplate(tmpl)
    requires forall i :: 0 <= i < |tmpl| && tmpl[i].Named? ==> tmpl[i].token != MultiTokenGroup
    requires CleanTree(tree)
    requires Match(tmpl, tree).Some?
    ensures MatchedGroups(tmpl, tree).Some?
    ensures CreateResData(tmpl, MatchedGroups(tmpl, tree).value) == Some(tree)
  {
    var raw := Match(tmpl, tree).value;
    var g := MatchedGroups(tmpl, tree).value;
    forall i | 0 <= i < |tmpl| && tmpl[i].Named?
      ensures tmpl[i].token in raw && tmpl[i].token in g && g[tmpl[i].token] == raw[tmpl[i].token]
    {
      GroupNamesHas(tmpl, i);
    }
    if HasMulti(tmpl) {
      var j :| 0 <= j < |tmpl| && tmpl[j].Multi?;
      GroupNamesHas(tmpl, j);
    }
    assert GroupsAgree(tmpl, raw, g);
    GenerateFromMatch(tmpl, tree, raw, g);
  }
}
