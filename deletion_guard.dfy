/**
 * The deletion guard of a sync point (`_filter_used_targets`): before the
 * target permissions of a removed source permission are deleted, every
 * target permission that another mapping still needs is withheld, separately
 * for the user and for the group of the removed permission.
 *
 * This module holds the specification (which permissions are withheld) and
 * the two inner loops, over the target keys of one source permission and over
 * the permissions of one target key; the outer loop over the source
 * permissions of the table is `Synchronizer.SyncPoint.FilterUsedTargets`.
 */
module DeletionGuard {
  import opened Common
  import opened ResourcePath
  import opened SyncConfig
  import opened PermissionTree

  /** Target key to target permissions, as in one entry of the mapping table. */
  type TargetPerms = map<ResKey, seq<PermName>>

  /** The list without the elements of `w`, order kept. */
  function Without(s: seq<PermName>, w: set<PermName>): (r: seq<PermName>)
    ensures |r| <= |s|
  {
    if s == [] then [] else (if s[0] in w then [] else [s[0]]) + Without(s[1..], w)
  }

  lemma {:induction false} InWithout(s: seq<PermName>, w: set<PermName>, x: PermName)
    ensures x in Without(s, w) <==> x in s && x !in w
  {
    if s != [] {
      InWithout(s[1..], w, x);
      assert s == [s[0]] + s[1..];
    }
  }

  /** `list.remove(p)`: drops the first occurrence. */
  function RemoveFirst(s: seq<PermName>, p: PermName): (r: seq<PermName>)
    ensures p in s ==> |r| == |s| - 1
    ensures p !in s ==> r == s
  {
    if s == [] then [] else if s[0] == p then s[1..] else [s[0]] + RemoveFirst(s[1..], p)
  }

  function Sub(a: nat, b: nat): nat
  {
    if a > b then a - b else 0
  }

  lemma {:induction false} CountRemoveFirst(s: seq<PermName>, p: PermName, x: PermName)
    ensures Count(RemoveFirst(s, p), x) == if x == p then Sub(Count(s, x), 1) else Count(s, x)
  {
    if s != [] && s[0] != p {
      CountRemoveFirst(s[1..], p, x);
      assert ([s[0]] + RemoveFirst(s[1..], p))[1..] == RemoveFirst(s[1..], p);
    }
  }

  lemma {:induction false} WithoutRemoveFirst(s: seq<PermName>, p: PermName, w: set<PermName>)
    requires p in w
    ensures Without(RemoveFirst(s, p), w) == Without(s, w)
  {
    if s != [] && s[0] != p {
      WithoutRemoveFirst(s[1..], p, w);
      assert ([s[0]] + RemoveFirst(s[1..], p))[1..] == RemoveFirst(s[1..], p);
    }
  }

  lemma {:induction false} WithoutIdentity(s: seq<PermName>, w: set<PermName>)
    requires forall x :: x in w ==> Count(s, x) == 0
    ensures Without(s, w) == s
  {
    if s != [] {
      assert Count(s, s[0]) > 0;
      forall x | x in w
        ensures Count(s[1..], x) == 0
      {
        assert Count(s, x) == 0;
      }
      WithoutIdentity(s[1..], w);
      assert [s[0]] + s[1..] == s;
    }
  }

  lemma {:induction false} WithoutWithout(s: seq<PermName>, a: set<PermName>, b: set<PermName>)
    ensures Without(Without(s, a), b) == Without(s, a + b)
  {
    if s != [] {
      var t := s[1..];
      WithoutWithout(t, a, b);
      if s[0] in a {
        assert Without(s, a) == Without(t, a);
        assert Without(s, a + b) == Without(t, a + b);
      } else {
        var wa := Without(s, a);
        assert wa == [s[0]] + Without(t, a);
        assert wa[0] == s[0] && wa[1..] == Without(t, a);
        assert Without(wa, b) == (if s[0] in b then [] else [s[0]]) + Without(Without(t, a), b);
      }
    }
  }

  lemma {:induction false} CountWithout(s: seq<PermName>, w: set<PermName>, x: PermName)
    ensures Count(Without(s, w), x) <= Count(s, x)
  {
    if s != [] {
      var t := s[1..];
      CountWithout(t, w, x);
      if s[0] in w {
        assert Without(s, w) == Without(t, w);
      } else {
        var ws := Without(s, w);
        assert ws == [s[0]] + Without(t, w);
        assert ws[0] == s[0] && ws[1..] == Without(t, w);
      }
    }
  }

  lemma CountPrefix(s: seq<PermName>, j: nat, x: PermName)
    requires j < |s|
    ensures Count(s[..j + 1], x) == Count(s[..j], x) + (if s[j] == x then 1 else 0)
  {
    assert s[..j + 1] == s[..j] + [s[j]];
    CountAppend(s[..j], [s[j]], x);
  }

  /** The entry of one target key in the user (or group) copy: present or deleted, and its list. */
  datatype Entry = Entry(present: bool, perms: seq<PermName>)

  function EntryOf(t: TargetPerms, key: ResKey): Entry
  {
    Entry(key in t, if key in t then t[key] else [])
  }

  /** Remove one occurrence and delete the key once the list is empty. */
  function Withdraw(e: Entry, p: PermName): Entry
  {
    var l := RemoveFirst(e.perms, p);
    Entry(l != [], l)
  }

  /**
   * The entry after one source permission whose target list is `ls` has been
   * checked: if the principal holds that source permission, every listed
   * permission is removed, and a key that lost permissions and became empty
   * is deleted.
   */
  function AfterPair(e: Entry, ls: set<PermName>, held: bool): Entry
  {
    var w := Without(e.perms, ls);
    if held && e.present && w != e.perms then Entry(w != [], w) else e
  }

  /**
   * The entry of a key whose original list is `o` once the permissions `w`
   * are withheld: the list filtered, the key kept when the original list was
   * already empty or something is left.
   */
  function Expected(o: seq<PermName>, w: set<PermName>): Entry
  {
    Entry(o == [] || Without(o, w) != [], Without(o, w))
  }

  lemma AfterPairExpected(o: seq<PermName>, w: set<PermName>, ls: set<PermName>, held: bool)
    ensures AfterPair(Expected(o, w), ls, held) == Expected(o, if held then w + ls else w)
  {
    WithoutWithout(o, w, ls);
  }

  /** One step of the inner loop on one side, as the code takes it. */
  function StepSide(e: Entry, p: PermName, ls: set<PermName>, held: bool): Entry
  {
    if held && p in ls && e.present && p in e.perms then Withdraw(e, p) else e
  }

  /** What the inner loop keeps track of on one side after visiting `done`. */
  predicate Tracks(e0: Entry, e: Entry, ls: set<PermName>, held: bool, done: seq<PermName>)
  {
    if held && e0.present then
      |e.perms| <= |e0.perms| &&
      Without(e.perms, ls) == Without(e0.perms, ls) &&
      (forall x :: x in ls ==> Count(e.perms, x) == Sub(Count(e0.perms, x), Count(done, x))) &&
      (e.present <==> e.perms != [] || e.perms == e0.perms)
    else e == e0
  }

  lemma TracksStart(e0: Entry, ls: set<PermName>, held: bool)
    ensures Tracks(e0, e0, ls, held, [])
  {
  }

  lemma {:induction false} TracksStep(e0: Entry, e: Entry, ls: set<PermName>, held: bool, o: seq<PermName>, j: nat)
    requires j < |o|
    requires Tracks(e0, e, ls, held, o[..j])
    requires !e.present ==> o[j] !in ls
    ensures Tracks(e0, StepSide(e, o[j], ls, held), ls, held, o[..j + 1])
  {
    var p := o[j];
    var e' := StepSide(e, p, ls, held);
    if held && e0.present {
      forall x | x in ls
        ensures Count(e'.perms, x) == Sub(Count(e0.perms, x), Count(o[..j + 1], x))
      {
        CountPrefix(o, j, x);
        if e' != e {
          CountRemoveFirst(e.perms, p, x);
        }
      }
      if e' != e {
        WithoutRemoveFirst(e.perms, p, ls);
      }
    }
  }

  lemma {:induction false} TracksEnd(e0: Entry, e: Entry, ls: set<PermName>, held: bool, o: seq<PermName>)
    requires Tracks(e0, e, ls, held, o[..|o|])
    requires forall x :: Count(e0.perms, x) <= Count(o, x)
    ensures e == AfterPair(e0, ls, held)
  {
    if held && e0.present {
      assert o[..|o|] == o;
      WithoutIdentity(e.perms, ls);
    }
  }

  /** Whether the principal holds the source permission on the resource the source key generates. */
  predicate Held(services: seq<ServiceConfig>, groups: Groups, src: ResKey, srcPerm: PermName,
                 perms: Option<PermissionsReport>)
  {
    HeldBy(ResourceData(services, src, groups), srcPerm, perms)
  }

  /** The same, once the resource data of the source key has been generated (or failed to). */
  predicate HeldBy(resData: Result<(string, seq<Segment>)>, srcPerm: PermName, perms: Option<PermissionsReport>)
  {
    resData.Success? && IsInSpec(srcPerm, resData.value.0, resData.value.1, perms) == Success(true)
  }

  function SetOf(l: seq<PermName>): (r: set<PermName>)
    ensures forall x :: x in r <==> x in l
  {
    set x | x in l
  }

  /**
   * Lines 320-329 on one side: when the permission is still listed, ask the
   * report whether the principal holds the source permission and withdraw the
   * target permission if so.
   */
  method CheckSide(e: Entry, p: PermName, svc: string, data: seq<Segment>, srcPerm: PermName,
                   perms: Option<PermissionsReport>) returns (r: Result<Entry>)
    ensures p !in e.perms ==> r == Success(e)
    ensures p in e.perms ==> r == match IsInSpec(srcPerm, svc, data, perms)
      case Failure(err) => Failure(err)
      case Success(held) => Success(if held then Withdraw(e, p) else e)
    ensures r.Failure? ==> LookupCrash(r.error)
  {
    if p !in e.perms {
      return Success(e);
    }
    var held := IsInPermissions(srcPerm, svc, data, perms);
    if held.Failure? {
      return Failure(held.error);
    }
    return Success(if held.value then Withdraw(e, p) else e);
  }

  /**
   * One turn of the permissions loop of a target key (lines 310-329): `ls`
   * holds what the checked source permission maps to on that key. A key the
   * user copy has lost, or that both copies have lost, is the KeyError of the
   * subscript.
   */
  method VisitPermission(p: PermName, ls: set<PermName>, resData: Result<(string, seq<Segment>)>, srcPerm: PermName,
                         userPerms: Option<PermissionsReport>, groupPerms: Option<PermissionsReport>, u: Entry, g: Entry)
    returns (r: Result<(Entry, Entry)>)
    ensures p !in ls ==> r == Success((u, g))
    ensures r.Success? && p in ls ==> u.present && g.present
    ensures r.Success? ==> r.value == (StepSide(u, p, ls, HeldBy(resData, srcPerm, userPerms)),
                                       StepSide(g, p, ls, HeldBy(resData, srcPerm, groupPerms)))
    ensures r.Failure? ==> LookupCrash(r.error) || (resData.Failure? && r.error == resData.error)
  {
    if p !in ls {
      return Success((u, g));
    }
    if !u.present || (p !in u.perms && !g.present) {
      return Failure(KeyError);
    }
    if p !in u.perms && p !in g.perms {
      return Success((u, g));
    }
    if resData.Failure? {
      return Failure(resData.error);
    }
    var (svc, data) := resData.value;
    var u' := CheckSide(u, p, svc, data, srcPerm, userPerms);
    if u'.Failure? {
      return Failure(u'.error);
    }
    if !g.present {
      return Failure(KeyError);
    }
    var g' := CheckSide(g, p, svc, data, srcPerm, groupPerms);
    if g'.Failure? {
      return Failure(g'.error);
    }
    return Success((u'.value, g'.value));
  }

  /**
   * The permissions loop of one target key (lines 309-329): `o` is the key's
   * original list, `l` what the checked source permission maps to on that key,
   * `u0` and `g0` the key's entries in the user and group copies.
   */
  method ProcessKey(o: seq<PermName>, l: seq<PermName>, resData: Result<(string, seq<Segment>)>, srcPerm: PermName,
                    userPerms: Option<PermissionsReport>, groupPerms: Option<PermissionsReport>, u0: Entry, g0: Entry)
    returns (r: Result<(Entry, Entry)>)
    requires forall x :: Count(u0.perms, x) <= Count(o, x)
    requires forall x :: Count(g0.perms, x) <= Count(o, x)
    ensures r.Success? ==> r.value == (AfterPair(u0, SetOf(l), HeldBy(resData, srcPerm, userPerms)),
                                       AfterPair(g0, SetOf(l), HeldBy(resData, srcPerm, groupPerms)))
    ensures r.Failure? ==> exists j :: 0 <= j < |o| && o[j] in l
    ensures (forall j :: 0 <= j < |o| ==> o[j] !in l) ==> r == Success((u0, g0))
    ensures r.Failure? ==> LookupCrash(r.error) || (resData.Failure? && r.error == resData.error)
  {
    var ls := SetOf(l);
    var heldU := HeldBy(resData, srcPerm, userPerms);
    var heldG := HeldBy(resData, srcPerm, groupPerms);
    var u, g := u0, g0;
    var j := 0;
    while j < |o|
      invariant 0 <= j <= |o|
      invariant Tracks(u0, u, ls, heldU, o[..j])
      invariant Tracks(g0, g, ls, heldG, o[..j])
      invariant (forall k :: 0 <= k < |o| ==> o[k] !in l) ==> u == u0 && g == g0
    {
      var step := VisitPermission(o[j], ls, resData, srcPerm, userPerms, groupPerms, u, g);
      if step.Failure? {
        return Failure(step.error);
      }
      TracksStep(u0, u, ls, heldU, o, j);
      TracksStep(g0, g, ls, heldG, o, j);
      u, g := step.value.0, step.value.1;
      j := j + 1;
    }
    TracksEnd(u0, u, ls, heldU, o);
    TracksEnd(g0, g, ls, heldG, o);
    return Success((u, g));
  }

  /** A copy after the entry of `key` is written back: kept with its list, or deleted. */
  function Put(t: TargetPerms, key: ResKey, e: Entry): TargetPerms
  {
    if e.present then t[key := e.perms] else t - {key}
  }

  lemma PutEntryOf(t: TargetPerms, key: ResKey)
    ensures Put(t, key, EntryOf(t, key)) == t
  {
  }

  lemma PutEffect(t: TargetPerms, key: ResKey, e: Entry)
    requires e.present || e.perms == []
    ensures forall k :: EntryOf(Put(t, key, e), k) == if k == key then e else EntryOf(t, k)
  {
  }

  /** Some permission of the key's original list is also mapped to by `mp` on that key. */
  predicate KeyOverlaps(t: TargetPerms, mp: TargetPerms, key: ResKey)
  {
    key in t && key in mp && exists j :: 0 <= j < |t[key]| && t[key][j] in mp[key]
  }

  /** Some target key of `t` lists a permission that `mp` also maps to on that key. */
  predicate Overlaps(t: TargetPerms, mp: TargetPerms)
  {
    exists key :: key in t && KeyOverlaps(t, mp, key)
  }

  /** A copy whose lists only ever lost permissions of the original. */
  ghost predicate Within(t: TargetPerms, u: TargetPerms)
  {
    forall key, x :: key in t ==> Count(EntryOf(u, key).perms, x) <= Count(t[key], x)
  }

  /** The entry of a key after one source permission: changed only where that permission maps the key. */
  function PairEffect(e: Entry, mp: TargetPerms, key: ResKey, held: bool): Entry
  {
    if key in mp then AfterPair(e, SetOf(mp[key]), held) else e
  }

  /** One turn of the target-key loop (lines 307-329) on the key `key`. */
  method VisitKey(t: TargetPerms, mp: TargetPerms, key: ResKey, resData: Result<(string, seq<Segment>)>, srcPerm: PermName,
                  userPerms: Option<PermissionsReport>, groupPerms: Option<PermissionsReport>,
                  u: TargetPerms, g: TargetPerms)
    returns (r: Result<(TargetPerms, TargetPerms)>)
    requires key in t
    requires forall x :: Count(EntryOf(u, key).perms, x) <= Count(t[key], x)
    requires forall x :: Count(EntryOf(g, key).perms, x) <= Count(t[key], x)
    ensures r.Success? ==> forall k :: (EntryOf(r.value.0, k) ==
      if k == key then PairEffect(EntryOf(u, key), mp, key, HeldBy(resData, srcPerm, userPerms)) else EntryOf(u, k))
    ensures r.Success? ==> forall k :: (EntryOf(r.value.1, k) ==
      if k == key then PairEffect(EntryOf(g, key), mp, key, HeldBy(resData, srcPerm, groupPerms)) else EntryOf(g, k))
    ensures r.Failure? ==> KeyOverlaps(t, mp, key)
    ensures !KeyOverlaps(t, mp, key) ==> r == Success((u, g))
    ensures r.Failure? ==> LookupCrash(r.error) || (resData.Failure? && r.error == resData.error)
  {
    if key !in mp || (key !in u && key !in g) {
      return Success((u, g));
    }
    var step := ProcessKey(t[key], mp[key], resData, srcPerm, userPerms, groupPerms, EntryOf(u, key), EntryOf(g, key));
    if step.Failure? {
      return Failure(step.error);
    }
    if !KeyOverlaps(t, mp, key) {
      PutEntryOf(u, key);
      PutEntryOf(g, key);
    }
    PutEffect(u, key, step.value.0);
    PutEffect(g, key, step.value.1);
    return Success((Put(u, key, step.value.0), Put(g, key, step.value.1)));
  }

  /** The copy `u'` once the keys of `t` outside `keys` have been visited for `mp`, starting from `u`. */
  ghost predicate Progress(t: TargetPerms, mp: TargetPerms, u: TargetPerms, u': TargetPerms, held: bool, keys: set<ResKey>)
  {
    forall k :: EntryOf(u', k) == if k in t && k !in keys then PairEffect(EntryOf(u, k), mp, k, held) else EntryOf(u, k)
  }

  lemma ProgressStep(t: TargetPerms, mp: TargetPerms, u: TargetPerms, uPrev: TargetPerms, u': TargetPerms, held: bool,
                     keys: set<ResKey>, key: ResKey)
    requires key in keys && keys <= t.Keys
    requires Progress(t, mp, u, uPrev, held, keys)
    requires forall k :: EntryOf(u', k) == if k == key then PairEffect(EntryOf(uPrev, key), mp, key, held) else EntryOf(uPrev, k)
    ensures Progress(t, mp, u, u', held, keys - {key})
  {
    forall k
      ensures EntryOf(u', k) == if k in t && k !in keys - {key} then PairEffect(EntryOf(u, k), mp, k, held) else EntryOf(u, k)
    {
      if k == key {
        assert EntryOf(uPrev, key) == EntryOf(u, key);
      } else {
        assert EntryOf(u', k) == EntryOf(uPrev, k);
      }
    }
  }

  /**
   * The target-key loop of one source permission (lines 306-329): `t` is the
   * original target dictionary, `mp` what the source permission maps to, `u`
   * and `g` the user and group copies so far. A key that neither copy still
   * has is skipped.
   */
  method ProcessPair(t: TargetPerms, mp: TargetPerms, resData: Result<(string, seq<Segment>)>, srcPerm: PermName,
                     userPerms: Option<PermissionsReport>, groupPerms: Option<PermissionsReport>,
                     u: TargetPerms, g: TargetPerms)
    returns (r: Result<(TargetPerms, TargetPerms)>)
    requires Within(t, u) && Within(t, g)
    ensures r.Success? ==> Progress(t, mp, u, r.value.0, HeldBy(resData, srcPerm, userPerms), {})
    ensures r.Success? ==> Progress(t, mp, g, r.value.1, HeldBy(resData, srcPerm, groupPerms), {})
    ensures r.Failure? ==> Overlaps(t, mp)
    ensures !Overlaps(t, mp) ==> r == Success((u, g))
    ensures r.Failure? ==> LookupCrash(r.error) || (resData.Failure? && r.error == resData.error)
  {
    var heldU := HeldBy(resData, srcPerm, userPerms);
    var heldG := HeldBy(resData, srcPerm, groupPerms);
    var u', g' := u, g;
    var keys := t.Keys;
    while keys != {}
      invariant keys <= t.Keys
      invariant Progress(t, mp, u, u', heldU, keys)
      invariant Progress(t, mp, g, g', heldG, keys)
      invariant !Overlaps(t, mp) ==> u' == u && g' == g
      decreases |keys|
    {
      var key :| key in keys;
      assert EntryOf(u', key) == EntryOf(u, key) && EntryOf(g', key) == EntryOf(g, key);
      var step := VisitKey(t, mp, key, resData, srcPerm, userPerms, groupPerms, u', g');
      if step.Failure? {
        assert KeyOverlaps(t, mp, key);
        return Failure(step.error);
      }
      ProgressStep(t, mp, u, u', step.value.0, heldU, keys, key);
      ProgressStep(t, mp, g, g', step.value.1, heldG, keys, key);
      u', g' := step.value.0, step.value.1;
      keys := keys - {key};
    }
    return Success((u', g'));
  }

  /** The (source key, source permission) pairs of the table (`_get_src_permissions`). */
  function SrcPermissions(m: Mapping): (r: set<(ResKey, PermName)>)
    ensures forall s, p :: (s, p) in r <==> s in m && p in m[s]
  {
    set s, p | s in m && p in m[s] :: (s, p)
  }

  /**
   * What one other source permission withholds on a target key: all it maps
   * to there, when the principal holds it. The source key of the removed
   * permission itself withholds nothing.
   */
  function Contribution(m: Mapping, services: seq<ServiceConfig>, groups: Groups, inputSrc: ResKey,
                        pr: (ResKey, PermName), key: ResKey, perms: Option<PermissionsReport>): set<PermName>
  {
    if pr.0 != inputSrc && pr.0 in m && pr.1 in m[pr.0] && key in m[pr.0][pr.1] &&
       Held(services, groups, pr.0, pr.1, perms)
    then SetOf(m[pr.0][pr.1][key]) else {}
  }

  /** The permissions of a target key withheld by the source permissions in `done`. */
  function Withheld(m: Mapping, services: seq<ServiceConfig>, groups: Groups, inputSrc: ResKey,
                    done: set<(ResKey, PermName)>, key: ResKey, perms: Option<PermissionsReport>): set<PermName>
  {
    set pr, x | pr in done && x in Contribution(m, services, groups, inputSrc, pr, key, perms) :: x
  }

  /**
   * The copy of the target dictionary that is left for one principal: every
   * key with its withheld permissions removed, a key dropped once it lost
   * every permission.
   */
  function Kept(m: Mapping, services: seq<ServiceConfig>, groups: Groups, inputSrc: ResKey,
                t: TargetPerms, perms: Option<PermissionsReport>): TargetPerms
  {
    map key | key in t && Expected(t[key], Withheld(m, services, groups, inputSrc, SrcPermissions(m), key, perms)).present
      :: Without(t[key], Withheld(m, services, groups, inputSrc, SrcPermissions(m), key, perms))
  }

  /** Some other source permission maps a permission of the target dictionary to the same place. */
  predicate AnyOverlap(m: Mapping, inputSrc: ResKey, t: TargetPerms)
  {
    exists pr :: pr in SrcPermissions(m) && pr.0 != inputSrc && Overlaps(t, m[pr.0][pr.1])
  }

  lemma WithheldStep(m: Mapping, services: seq<ServiceConfig>, groups: Groups, inputSrc: ResKey,
                     done: set<(ResKey, PermName)>, pr: (ResKey, PermName), key: ResKey, perms: Option<PermissionsReport>)
    ensures Withheld(m, services, groups, inputSrc, done + {pr}, key, perms) ==
      Withheld(m, services, groups, inputSrc, done, key, perms) + Contribution(m, services, groups, inputSrc, pr, key, perms)
  {
  }

  lemma ExpectedNone(o: seq<PermName>)
    ensures Expected(o, {}) == Entry(true, o)
  {
    WithoutIdentity(o, {});
  }

  lemma ExpectedWithin(o: seq<PermName>, w: set<PermName>)
    ensures forall x :: Count(Expected(o, w).perms, x) <= Count(o, x)
  {
    forall x {
      CountWithout(o, w, x);
    }
  }

  lemma {:induction false} EntryOfExtensional(a: TargetPerms, b: TargetPerms)
    requires forall k :: EntryOf(a, k) == EntryOf(b, k)
    ensures a == b
  {
    forall k | k in a
      ensures k in b && a[k] == b[k]
    {
      assert EntryOf(a, k) == EntryOf(b, k);
    }
    forall k | k in b
      ensures k in a
    {
      assert EntryOf(a, k) == EntryOf(b, k);
    }
  }

  /**
   * The user (or group) copy once the source permissions in `done` have been
   * checked: every original key holds what those source permissions leave of
   * it, and no other key is present.
   */
  ghost predicate Filtered(m: Mapping, services: seq<ServiceConfig>, groups: Groups, inputSrc: ResKey,
                           t: TargetPerms, done: set<(ResKey, PermName)>, u: TargetPerms, perms: Option<PermissionsReport>)
  {
    forall key :: EntryOf(u, key) ==
      if key in t then Expected(t[key], Withheld(m, services, groups, inputSrc, done, key, perms)) else Entry(false, [])
  }

  lemma FilteredStart(m: Mapping, services: seq<ServiceConfig>, groups: Groups, inputSrc: ResKey,
                      t: TargetPerms, perms: Option<PermissionsReport>)
    ensures Filtered(m, services, groups, inputSrc, t, {}, t, perms)
  {
    forall key | key in t
      ensures EntryOf(t, key) == Expected(t[key], Withheld(m, services, groups, inputSrc, {}, key, perms))
    {
      assert Withheld(m, services, groups, inputSrc, {}, key, perms) == {};
      ExpectedNone(t[key]);
    }
  }

  lemma FilteredWithin(m: Mapping, services: seq<ServiceConfig>, groups: Groups, inputSrc: ResKey,
                       t: TargetPerms, done: set<(ResKey, PermName)>, u: TargetPerms, perms: Option<PermissionsReport>)
    requires Filtered(m, services, groups, inputSrc, t, done, u, perms)
    ensures Within(t, u)
  {
    forall key | key in t
      ensures forall x :: Count(EntryOf(u, key).perms, x) <= Count(t[key], x)
    {
      ExpectedWithin(t[key], Withheld(m, services, groups, inputSrc, done, key, perms));
    }
  }

  /** Checking one more source permission extends what is withheld by its contribution. */
  lemma FilteredStep(m: Mapping, services: seq<ServiceConfig>, groups: Groups, inputSrc: ResKey, t: TargetPerms,
                     done: set<(ResKey, PermName)>, pr: (ResKey, PermName), u: TargetPerms, u': TargetPerms,
                     perms: Option<PermissionsReport>)
    requires Filtered(m, services, groups, inputSrc, t, done, u, perms)
    requires pr in SrcPermissions(m)
    requires pr.0 != inputSrc ==>
      Progress(t, m[pr.0][pr.1], u, u', HeldBy(ResourceData(services, pr.0, groups), pr.1, perms), {})
    requires pr.0 == inputSrc ==> u' == u
    ensures Filtered(m, services, groups, inputSrc, t, done + {pr}, u', perms)
  {
    forall key
      ensures EntryOf(u', key) == if key in t then
        Expected(t[key], Withheld(m, services, groups, inputSrc, done + {pr}, key, perms)) else Entry(false, [])
    {
      var w := Withheld(m, services, groups, inputSrc, done, key, perms);
      var c := Contribution(m, services, groups, inputSrc, pr, key, perms);
      WithheldStep(m, services, groups, inputSrc, done, pr, key, perms);
      if key in t {
        KeyStep(m, services, groups, inputSrc, t, pr, key, w, EntryOf(u, key), EntryOf(u', key), perms);
      }
    }
  }

  lemma KeyStep(m: Mapping, services: seq<ServiceConfig>, groups: Groups, inputSrc: ResKey, t: TargetPerms,
                pr: (ResKey, PermName), key: ResKey, w: set<PermName>, e: Entry, e': Entry, perms: Option<PermissionsReport>)
    requires pr in SrcPermissions(m) && key in t
    requires e == Expected(t[key], w)
    requires pr.0 != inputSrc ==>
      e' == PairEffect(e, m[pr.0][pr.1], key, HeldBy(ResourceData(services, pr.0, groups), pr.1, perms))
    requires pr.0 == inputSrc ==> e' == e
    ensures e' == Expected(t[key], w + Contribution(m, services, groups, inputSrc, pr, key, perms))
  {
    var c := Contribution(m, services, groups, inputSrc, pr, key, perms);
    if pr.0 == inputSrc {
      assert c == {} && w + c == w;
    } else {
      var mp := m[pr.0][pr.1];
      var held := HeldBy(ResourceData(services, pr.0, groups), pr.1, perms);
      if key in mp {
        AfterPairExpected(t[key], w, SetOf(mp[key]), held);
        assert (if held then w + SetOf(mp[key]) else w) == w + c;
      } else {
        assert c == {} && w + c == w;
      }
    }
  }

  lemma FilteredEnd(m: Mapping, services: seq<ServiceConfig>, groups: Groups, inputSrc: ResKey,
                    t: TargetPerms, u: TargetPerms, perms: Option<PermissionsReport>)
    requires Filtered(m, services, groups, inputSrc, t, SrcPermissions(m), u, perms)
    ensures u == Kept(m, services, groups, inputSrc, t, perms)
  {
    var k := Kept(m, services, groups, inputSrc, t, perms);
    forall key
      ensures EntryOf(u, key) == EntryOf(k, key)
    {
    }
    EntryOfExtensional(u, k);
  }

  /**
   * The rule of the deletion guard for one principal: a target permission of
   * the removed source permission survives in that principal's copy, and is
   * therefore deleted, exactly when no source permission of another source
   * key that maps to it on the same target key is held by the principal.
   */
  lemma KeptIffNoOtherHeldSource(m: Mapping, services: seq<ServiceConfig>, groups: Groups, inputSrc: ResKey,
                                 t: TargetPerms, perms: Option<PermissionsReport>, key: ResKey, p: PermName)
    requires key in t && p in t[key]
    ensures (key in Kept(m, services, groups, inputSrc, t, perms) && p in Kept(m, services, groups, inputSrc, t, perms)[key])
      <==> !exists s, sp :: (s in m && sp in m[s] && s != inputSrc && key in m[s][sp] && p in m[s][sp][key] &&
                             Held(services, groups, s, sp, perms))
  {
    var w := Withheld(m, services, groups, inputSrc, SrcPermissions(m), key, perms);
    InWithout(t[key], w, p);
    if p in w {
      var pr :| pr in SrcPermissions(m) && p in Contribution(m, services, groups, inputSrc, pr, key, perms);
      assert pr.0 in m && pr.1 in m[pr.0];
    } else {
      forall s, sp | s in m && sp in m[s] && s != inputSrc && key in m[s][sp] && Held(services, groups, s, sp, perms)
        ensures p !in m[s][sp][key]
      {
        assert (s, sp) in SrcPermissions(m);
        assert Contribution(m, services, groups, inputSrc, (s, sp), key, perms) == SetOf(m[s][sp][key]);
      }
    }
  }

  /** With no overlapping mapping, the guard keeps the whole target dictionary for both principals. */
  lemma NoOverlapKeepsAll(m: Mapping, services: seq<ServiceConfig>, groups: Groups, inputSrc: ResKey,
                          t: TargetPerms, perms: Option<PermissionsReport>)
    requires !AnyOverlap(m, inputSrc, t)
    ensures Kept(m, services, groups, inputSrc, t, perms) == t
  {
    var kept := Kept(m, services, groups, inputSrc, t, perms);
    forall key | key in t
      ensures key in kept && kept[key] == t[key]
    {
      var w := Withheld(m, services, groups, inputSrc, SrcPermissions(m), key, perms);
      forall x | x in w
        ensures Count(t[key], x) == 0
      {
        var pr :| pr in SrcPermissions(m) && x in Contribution(m, services, groups, inputSrc, pr, key, perms);
      }
      WithoutIdentity(t[key], w);
    }
  }

  /** A source permission contributes the same whatever the table holds under the removed permission's source key. */
  lemma ContributionIgnoresOwnSource(m: Mapping, own: map<PermName, TargetPerms>, services: seq<ServiceConfig>,
                                     groups: Groups, inputSrc: ResKey, pr: (ResKey, PermName), key: ResKey,
                                     perms: Option<PermissionsReport>)
    ensures Contribution(m[inputSrc := own], services, groups, inputSrc, pr, key, perms) ==
            Contribution(m, services, groups, inputSrc, pr, key, perms)
  {
    if pr.0 != inputSrc && pr.0 in m {
      assert m[inputSrc := own][pr.0] == m[pr.0];
    }
  }

  /** What the table withholds under `m[inputSrc := own]` is withheld under `m` as well. */
  lemma WithheldIgnoresOwnSource(m: Mapping, own: map<PermName, TargetPerms>, services: seq<ServiceConfig>, groups: Groups,
                                 inputSrc: ResKey, key: ResKey, perms: Option<PermissionsReport>, x: PermName)
    requires x in Withheld(m[inputSrc := own], services, groups, inputSrc, SrcPermissions(m[inputSrc := own]), key, perms)
    ensures x in Withheld(m, services, groups, inputSrc, SrcPermissions(m), key, perms)
  {
    var m' := m[inputSrc := own];
    var pr :| pr in SrcPermissions(m') && x in Contribution(m', services, groups, inputSrc, pr, key, perms);
    ContributionIgnoresOwnSource(m, own, services, groups, inputSrc, pr, key, perms);
    assert pr in SrcPermissions(m);
  }

  /** What the table withholds under `m` is withheld under `m[inputSrc := own]` as well. */
  lemma WithheldKeepsOtherSources(m: Mapping, own: map<PermName, TargetPerms>, services: seq<ServiceConfig>, groups: Groups,
                                  inputSrc: ResKey, key: ResKey, perms: Option<PermissionsReport>, x: PermName)
    requires x in Withheld(m, services, groups, inputSrc, SrcPermissions(m), key, perms)
    ensures x in Withheld(m[inputSrc := own], services, groups, inputSrc, SrcPermissions(m[inputSrc := own]), key, perms)
  {
    var m' := m[inputSrc := own];
    var pr :| pr in SrcPermissions(m) && x in Contribution(m, services, groups, inputSrc, pr, key, perms);
    ContributionIgnoresOwnSource(m, own, services, groups, inputSrc, pr, key, perms);
    assert pr in SrcPermissions(m');
  }

  /** The removed permission's own source key never matters: replacing its entry of the table changes nothing. */
  lemma KeptIgnoresOwnSource(m: Mapping, own: map<PermName, TargetPerms>, services: seq<ServiceConfig>, groups: Groups,
                             inputSrc: ResKey, t: TargetPerms, perms: Option<PermissionsReport>)
    ensures Kept(m[inputSrc := own], services, groups, inputSrc, t, perms) == Kept(m, services, groups, inputSrc, t, perms)
  {
    var m' := m[inputSrc := own];
    forall key | key in t
      ensures Withheld(m', services, groups, inputSrc, SrcPermissions(m'), key, perms) ==
              Withheld(m, services, groups, inputSrc, SrcPermissions(m), key, perms)
    {
      forall x | x in Withheld(m', services, groups, inputSrc, SrcPermissions(m'), key, perms)
        ensures x in Withheld(m, services, groups, inputSrc, SrcPermissions(m), key, perms)
      {
        WithheldIgnoresOwnSource(m, own, services, groups, inputSrc, key, perms, x);
      }
      forall x | x in Withheld(m, services, groups, inputSrc, SrcPermissions(m), key, perms)
        ensures x in Withheld(m', services, groups, inputSrc, SrcPermissions(m'), key, perms)
      {
        WithheldKeepsOtherSources(m, own, services, groups, inputSrc, key, perms, x);
      }
    }
  }
}
