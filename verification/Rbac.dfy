/**
 Role-based permissions: the registry that maps models to resources, the backend that answers Django's permission
 questions from it, and the per-request cache of the permission check.
 */
module Rbac {
  import opened Wrappers

  // ---------------------------------------------------------------- the registry

  function LowerChar(c: char): char {
    if 'A' <= c <= 'Z' then ((c as int) + 32) as char else c
  }

  /** `str.lower`, character by character, for ASCII letters. */
  function Lower(s: string): (r: string)
    ensures |r| == |s| && forall k :: 0 <= k < |s| ==> r[k] == LowerChar(s[k])
  {
    seq(|s|, k requires 0 <= k < |s| => LowerChar(s[k]))
  }

  /** Each of the 26 capitals becomes its small letter, and nothing else changes. */
  lemma LowerLetters(k: nat, c: char)
    ensures k < 26 ==> LowerChar(('A' as int + k) as char) == ('a' as int + k) as char
    ensures c as int < 'A' as int || 'Z' as int < c as int ==> LowerChar(c) == c
  {
  }

  /** Registering under one spelling answers under every other. */
  lemma CaseDoesNotMatter(m: Mapping, app: string, model: string, app': string, model': string)
    requires Lower(app) == Lower(app') && Lower(model) == Lower(model')
    ensures ResourceFor(m, app, model) == ResourceFor(m, app', model')
  {
    LowerOfConcat(app + ".", model);
    LowerOfConcat(app' + ".", model');
    LowerOfConcat(app, ".");
    LowerOfConcat(app', ".");
  }

  lemma LowerOfConcat(a: string, b: string)
    ensures Lower(a + b) == Lower(a) + Lower(b)
  {
  }

  lemma LowerTwice(s: string)
    ensures Lower(Lower(s)) == Lower(s)
  {
  }

  type Mapping = map<string, string>

  predicate Conflicts(m: Mapping, name: string, resource: string) {
    Lower(name) in m && m[Lower(name)] != resource
  }

  function Registered(m: Mapping, name: string, resource: string): Mapping {
    if Lower(name) in m then m else m[Lower(name) := resource]
  }

  ghost predicate KeysAreLower(m: Mapping) {
    forall key :: key in m ==> Lower(key) == key
  }

  class Registry {
    var mapping: Mapping

    constructor ()
      ensures mapping == map[]
    {
      mapping := map[];
    }

    /** `register_resource`; `ok` is false where it raises `ValueError`. */
    method Register(name: string, resource: string) returns (ok: bool)
      modifies this
      ensures ok <==> !Conflicts(old(mapping), name, resource)
      ensures mapping == Registered(old(mapping), name, resource)
    {
      var key := Lower(name);
      if key !in mapping {
        mapping := mapping[key := resource];
        return true;
      }
      return mapping[key] == resource;
    }
  }

  datatype Registration = Registration(name: string, resource: string)

  function AfterAll(m: Mapping, calls: seq<Registration>): Mapping {
    if calls == [] then m
    else
      var last := calls[|calls| - 1];
      Registered(AfterAll(m, calls[..|calls| - 1]), last.name, last.resource)
  }

  /** Over any registrations, refused ones included, a key keeps its resource and keys stay in lower case. */
  lemma {:induction false} KeysKeepTheirResource(m: Mapping, calls: seq<Registration>)
    ensures forall key :: key in m ==> key in AfterAll(m, calls) && AfterAll(m, calls)[key] == m[key]
    ensures KeysAreLower(m) ==> KeysAreLower(AfterAll(m, calls))
  {
    if calls != [] {
      KeysKeepTheirResource(m, calls[..|calls| - 1]);
      LowerTwice(calls[|calls| - 1].name);
    }
  }

  /** The first registration of a key is the one that counts, whatever comes after. */
  lemma FirstRegistrationWins(m: Mapping, name: string, resource: string, more: seq<Registration>)
    requires Lower(name) !in m
    ensures Lower(name) in AfterAll(Registered(m, name, resource), more)
    ensures AfterAll(Registered(m, name, resource), more)[Lower(name)] == resource
  {
    KeysKeepTheirResource(Registered(m, name, resource), more);
  }

  function Get(m: Mapping, key: string): Option<string> {
    if key in m then Some(m[key]) else None
  }

  function ResourceFor(m: Mapping, app: string, model: string): Option<string> {
    Get(m, Lower(app + "." + model))
  }

  function AppResources(m: Mapping, app: string): set<string> {
    set key | key in m && Lower(app + ".") <= key :: m[key]
  }

  /** The two read APIs agree: an app's resources are those of its models. */
  lemma AppResourcesAreItsModels(m: Mapping, app: string, resource: string)
    requires KeysAreLower(m)
    ensures resource in AppResources(m, app) <==> exists model :: ResourceFor(m, app, model) == Some(resource)
  {
    var prefix := app + ".";
    if resource in AppResources(m, app) {
      var key :| key in m && Lower(prefix) <= key && m[key] == resource;
      var model := key[|prefix|..];
      assert key == Lower(prefix) + model;
      assert Lower(model) == model by {
        assert forall k :: 0 <= k < |model| ==> model[k] == key[|prefix| + k] == Lower(key)[|prefix| + k];
      }
      LowerOfConcat(prefix, model);
      assert ResourceFor(m, app, model) == Some(resource);
    }
    if exists model :: ResourceFor(m, app, model) == Some(resource) {
      var model :| ResourceFor(m, app, model) == Some(resource);
      LowerOfConcat(prefix, model);
      assert Lower(prefix) <= Lower(prefix + model) && Lower(prefix + model) in m;
    }
  }

  // ---------------------------------------------------------------- permission strings

  datatype Parts = Parts(app: string, prefix: string, model: string)

  function Before(s: string, c: char): (i: nat)
    ensures i <= |s| && c !in s[..i] && (i < |s| ==> s[i] == c)
    ensures i == |s| <==> c !in s
  {
    if s == "" then 0
    else if s[0] == c then 0
    else
      var i := Before(s[1..], c);
      assert s[..i + 1] == [s[0]] + s[1..][..i];
      assert s == [s[0]] + s[1..];
      i + 1
  }

  /** `perm.split(".")` into exactly two, then the second by its first underscore; None where unpacking raises. */
  function Parse(perm: string): Option<Parts> {
    var dot := Before(perm, '.');
    if dot == |perm| || '.' in perm[dot + 1..] then None
    else
      var codename := perm[dot + 1..];
      var bar := Before(codename, '_');
      if bar == |codename| then None
      else Some(Parts(perm[..dot], codename[..bar], codename[bar + 1..]))
  }

  function Unparse(p: Parts): string {
    p.app + "." + p.prefix + "_" + p.model
  }

  predicate WellFormed(p: Parts) {
    '.' !in p.app && '.' !in p.prefix && '.' !in p.model && '_' !in p.prefix
  }

  lemma BeforeIsUnique(a: string, c: char, b: string)
    requires c !in a
    ensures Before(a + [c] + b, c) == |a|
  {
    var s := a + [c] + b;
    var i := Before(s, c);
    assert s[|a|] == c;
    assert forall k :: 0 <= k < |a| ==> s[k] == a[k];
    assert forall k :: 0 <= k < i ==> s[k] == s[..i][k];
  }

  lemma SplitAtFirst(s: string, c: char)
    requires c in s
    ensures var i := Before(s, c); i < |s| && s == s[..i] + [c] + s[i + 1..] && c !in s[..i]
  {
  }

  lemma NotInParts(a: string, c: char, b: string, d: char)
    requires d !in a + [c] + b
    ensures d !in a && d !in b
  {
    var s := a + [c] + b;
    assert forall k :: 0 <= k < |a| ==> a[k] == s[k];
    assert forall k :: 0 <= k < |b| ==> b[k] == s[|a| + 1 + k];
  }

  lemma UnparseInTwo(p: Parts)
    ensures Unparse(p) == p.app + ['.'] + (p.prefix + ['_'] + p.model)
  {
  }

  lemma ParseSound(perm: string, p: Parts)
    requires Parse(perm) == Some(p)
    ensures perm == Unparse(p) && WellFormed(p)
  {
    hide Before, Unparse;
    var dot := Before(perm, '.');
    var codename := perm[dot + 1..];
    var bar := Before(codename, '_');
    assert p == Parts(perm[..dot], codename[..bar], codename[bar + 1..]);
    SplitAtFirst(perm, '.');
    SplitAtFirst(codename, '_');
    hide Parse;
    NotInParts(p.prefix, '_', p.model, '.');
    UnparseInTwo(p);
  }

  lemma SliceAround(a: string, c: char, b: string)
    ensures var s := a + [c] + b;
            s[..|a|] == a && s[|a| + 1..] == b && |s| == |a| + 1 + |b|
  {
  }

  lemma ParseComplete(p: Parts)
    requires WellFormed(p)
    ensures Parse(Unparse(p)) == Some(p)
  {
    hide Before, Unparse;
    var codename, perm := p.prefix + ['_'] + p.model, Unparse(p);
    UnparseInTwo(p);
    NoDotInCodename(p);
    BeforeIsUnique(p.app, '.', codename);
    BeforeIsUnique(p.prefix, '_', p.model);
    SliceAround(p.app, '.', codename);
    SliceAround(p.prefix, '_', p.model);
  }

  lemma NoDotInCodename(p: Parts)
    requires WellFormed(p)
    ensures '.' !in p.prefix + ['_'] + p.model
  {
  }

  /** A permission string parses to three parts exactly when it is those parts, with no dot in them and no underscore in the prefix. */
  lemma ParseIff(perm: string, p: Parts)
    ensures Parse(perm) == Some(p) <==> perm == Unparse(p) && WellFormed(p)
  {
    hide Parse, Unparse, WellFormed;
    if Parse(perm) == Some(p) {
      ParseSound(perm, p);
    }
    if WellFormed(p) {
      ParseComplete(p);
    }
  }

  // ---------------------------------------------------------------- users and the backend

  datatype Action = CREATE | READ | UPDATE | DELETE

  datatype Permission = Permission(resource: string, action: Action)

  datatype Role = Role(isSuperuser: bool, permissions: set<Permission>)

  datatype User = User(isActive: bool, isAuthenticated: bool, roles: set<Role>)

  /** `has_superuser_role`. */
  predicate IsSuper(u: User) {
    exists role :: role in u.roles && role.isSuperuser
  }

  /** `roles.filter(permissions__resource=..., permissions__action=...).exists()`. */
  predicate Holds(u: User, p: Permission) {
    exists role :: role in u.roles && p in role.permissions
  }

  function ActionFor(prefix: string): Option<Action> {
    if prefix == "view" then Some(READ)
    else if prefix == "add" then Some(CREATE)
    else if prefix == "change" then Some(UPDATE)
    else if prefix == "delete" then Some(DELETE)
    else None
  }

  predicate HasPerm(m: Mapping, u: User, perm: string) {
    if !u.isActive then false
    else if IsSuper(u) then true
    else
      match Parse(perm)
      case None => false
      case Some(p) =>
        var action, resource := ActionFor(p.prefix), ResourceFor(m, p.app, p.model);
        action.Some? && resource.Some? && resource.value != "" && Holds(u, Permission(resource.value, action.value))
  }

  predicate HoldsAny(u: User, resources: set<string>) {
    exists role, p :: role in u.roles && p in role.permissions && p.resource in resources
  }

  predicate HasModulePerms(m: Mapping, u: User, app: string) {
    if !u.isActive then false
    else if IsSuper(u) then true
    else
      var resources := AppResources(m, app);
      resources != {} && HoldsAny(u, resources)
  }

  ghost predicate HoldsOnModel(m: Mapping, u: User, app: string, model: string, action: Action) {
    var resource := ResourceFor(m, app, model);
    resource.Some? && Holds(u, Permission(resource.value, action))
  }

  /** The sidebar shows an app exactly when the user may do something to one of its models. */
  lemma ModulePermsIff(m: Mapping, u: User, app: string)
    requires KeysAreLower(m)
    ensures HasModulePerms(m, u, app) <==>
            u.isActive && (IsSuper(u) || exists model, action :: HoldsOnModel(m, u, app, model, action))
  {
    hide AppResources, ResourceFor, KeysAreLower, IsSuper;
    var resources := AppResources(m, app);
    if HoldsAny(u, resources) {
      var role, p :| role in u.roles && p in role.permissions && p.resource in resources;
      AppResourcesAreItsModels(m, app, p.resource);
      var model :| ResourceFor(m, app, model) == Some(p.resource);
      assert Permission(p.resource, p.action) == p;
      assert HoldsOnModel(m, u, app, model, p.action);
    }
    if exists model, action :: HoldsOnModel(m, u, app, model, action) {
      var model, action :| HoldsOnModel(m, u, app, model, action);
      var p := Permission(ResourceFor(m, app, model).value, action);
      AppResourcesAreItsModels(m, app, p.resource);
      var role :| role in u.roles && p in role.permissions;
      assert p.resource in resources;
    }
  }

  /** A granted permission shows its app in the sidebar. */
  lemma PermImpliesModulePerms(m: Mapping, u: User, perm: string, p: Parts)
    requires KeysAreLower(m) && HasPerm(m, u, perm) && Parse(perm) == Some(p)
    ensures HasModulePerms(m, u, p.app)
  {
    hide Parse, Holds, ResourceFor, IsSuper, KeysAreLower, HasModulePerms;
    ModulePermsIff(m, u, p.app);
    if !IsSuper(u) {
      assert HoldsOnModel(m, u, p.app, p.model, ActionFor(p.prefix).value);
    }
  }

  /** Granting one action on a model answers that action's permission string and no other. */
  lemma OneGrantOneString(m: Mapping, app: string, prefix: string, model: string, resource: string, action: Action)
    requires WellFormed(Parts(app, prefix, model)) && ResourceFor(m, app, model) == Some(resource) && resource != ""
    ensures var u := User(true, true, {Role(false, {Permission(resource, action)})});
            HasPerm(m, u, app + "." + prefix + "_" + model) <==>
            || (prefix == "view" && action == READ) || (prefix == "add" && action == CREATE)
            || (prefix == "change" && action == UPDATE) || (prefix == "delete" && action == DELETE)
  {
    var role := Role(false, {Permission(resource, action)});
    var u := User(true, true, {role});
    ParseIff(app + "." + prefix + "_" + model, Parts(app, prefix, model));
    assert !IsSuper(u) && role in u.roles;
    hide Parse, ResourceFor;
    assert forall p :: Holds(u, p) <==> p == Permission(resource, action);
  }

  // ---------------------------------------------------------------- the permission check and its cache

  predicate UserHasPermission(u: User, p: Permission) {
    u.isAuthenticated && (IsSuper(u) || Holds(u, p))
  }

  /** Django's question and the view's question have one answer, for an active authenticated user and a mapped model. */
  lemma BackendAgreesWithViews(m: Mapping, u: User, p: Parts)
    requires WellFormed(p) && u.isActive && u.isAuthenticated
    requires ActionFor(p.prefix).Some? && ResourceFor(m, p.app, p.model).Some? && ResourceFor(m, p.app, p.model).value != ""
    ensures HasPerm(m, u, Unparse(p)) <==>
            UserHasPermission(u, Permission(ResourceFor(m, p.app, p.model).value, ActionFor(p.prefix).value))
  {
    hide Parse, Holds, IsSuper;
    ParseIff(Unparse(p), p);
  }

  datatype Call = Call(user: User, permission: Permission)

  /** Does the call get as far as the cache? */
  predicate Consults(c: Call) {
    c.user.isAuthenticated && !IsSuper(c.user)
  }

  class Request {
    /** `_permission_cache`; None while the attribute does not exist. */
    var cache: Option<map<Permission, bool>>

    constructor ()
      ensures cache == None
    {
      cache := None;
    }

    /** `user_has_permission` with this request. */
    method Check(c: Call) returns (granted: bool)
      modifies this
      ensures granted == Answer(old(cache), c)
      ensures cache == AfterCall(old(cache), c)
    {
      if !c.user.isAuthenticated {
        return false;
      }
      if IsSuper(c.user) {
        return true;
      }
      if cache.None? {
        cache := Some(map[]);
      }
      if c.permission in cache.value {
        return cache.value[c.permission];
      }
      var result := Holds(c.user, c.permission);
      cache := Some(cache.value[c.permission := result]);
      return result;
    }
  }

  type Cache = Option<map<Permission, bool>>

  predicate IsCached(cache: Cache, p: Permission) {
    cache.Some? && p in cache.value
  }

  predicate Answer(cache: Cache, c: Call) {
    if !Consults(c) then UserHasPermission(c.user, c.permission)
    else if IsCached(cache, c.permission) then cache.value[c.permission]
    else Holds(c.user, c.permission)
  }

  function AfterCall(cache: Cache, c: Call): Cache {
    if !Consults(c) || IsCached(cache, c.permission) then cache
    else Some((if cache.Some? then cache.value else map[])[c.permission := Holds(c.user, c.permission)])
  }

  function CacheAfter(calls: seq<Call>): Cache {
    if calls == [] then None else AfterCall(CacheAfter(calls[..|calls| - 1]), calls[|calls| - 1])
  }

  predicate Asks(c: Call, p: Permission) {
    Consults(c) && c.permission == p
  }

  predicate AsksFirst(calls: seq<Call>, i: nat, p: Permission) {
    i < |calls| && Asks(calls[i], p) && forall j :: 0 <= j < i ==> !Asks(calls[j], p)
  }

  /** An entry holds the answer for whoever asked for it first, since the key does not name the user. */
  lemma {:induction false} EntryIsFirstAskers(calls: seq<Call>, p: Permission)
    ensures IsCached(CacheAfter(calls), p) <==> exists j :: 0 <= j < |calls| && Asks(calls[j], p)
    ensures IsCached(CacheAfter(calls), p) ==>
              exists i: nat :: AsksFirst(calls, i, p) && CacheAfter(calls).value[p] == Holds(calls[i].user, p)
  {
    hide Holds, IsSuper;
    if calls != [] {
      var front, last := calls[..|calls| - 1], calls[|calls| - 1];
      EntryIsFirstAskers(front, p);
      assert forall j :: 0 <= j < |front| ==> front[j] == calls[j];
      assert forall i: nat :: AsksFirst(front, i, p) ==> AsksFirst(calls, i, p);
      if IsCached(CacheAfter(front), p) {
        var i: nat :| AsksFirst(front, i, p) && CacheAfter(front).value[p] == Holds(front[i].user, p);
        assert AsksFirst(calls, i, p);
      } else if Asks(last, p) {
        assert AsksFirst(calls, |front|, p);
      }
    }
  }

  /** For one user whose roles do not change, the cached check answers every call as the uncached one does. */
  lemma CacheIsTransparent(calls: seq<Call>, user: User, p: Permission)
    requires forall i :: 0 <= i < |calls| ==> calls[i].user == user
    ensures Answer(CacheAfter(calls), Call(user, p)) == UserHasPermission(user, p)
  {
    hide Holds, IsSuper, CacheAfter;
    EntryIsFirstAskers(calls, p);
  }

  // Which calls the cache may get wrong can be told without the roles: from who asked, in which order.

  type UserId = nat

  type RoleTable = UserId -> set<Role>

  datatype Ask = Ask(user: UserId, permission: Permission)

  /** The call, with the user as the role table has it; `known` holds the authenticated users. */
  function Resolve(known: set<UserId>, roles: RoleTable, a: Ask): Call {
    Call(User(true, a.user in known, roles(a.user)), a.permission)
  }

  function ResolveAll(known: set<UserId>, roles: RoleTable, asks: seq<Ask>): (calls: seq<Call>)
    ensures |calls| == |asks| && forall i :: 0 <= i < |asks| ==> calls[i] == Resolve(known, roles, asks[i])
  {
    seq(|asks|, i requires 0 <= i < |asks| => Resolve(known, roles, asks[i]))
  }

  predicate AnsweredAsUncached(known: set<UserId>, roles: RoleTable, asks: seq<Ask>, a: Ask) {
    var c := Resolve(known, roles, a);
    Answer(CacheAfter(ResolveAll(known, roles, asks)), c) == UserHasPermission(c.user, c.permission)
  }

  /** The first authenticated user to ask for this permission is another one. */
  predicate AnotherAskedFirst(known: set<UserId>, asks: seq<Ask>, a: Ask, i: nat) {
    && i < |asks| && asks[i].user in known && asks[i].permission == a.permission && asks[i].user != a.user
    && forall j :: 0 <= j < i ==> !(asks[j].user in known && asks[j].permission == a.permission)
  }

  /**
   Whatever the roles, a call on a shared request is answered as without the cache exactly when its user is not
   authenticated, or no authenticated user has asked for the permission before, or the first who did is the same user.
   */
  lemma CacheIsRightIff(known: set<UserId>, asks: seq<Ask>, a: Ask)
    ensures (forall roles: RoleTable :: AnsweredAsUncached(known, roles, asks, a))
            <==> a.user !in known || !exists i: nat :: AnotherAskedFirst(known, asks, a, i)
  {
    if a.user in known {
      if i: nat :| AnotherAskedFirst(known, asks, a, i) {
        SomeRolesGiveAnotherAnswer(known, asks, a, i);
      } else {
        forall roles: RoleTable ensures AnsweredAsUncached(known, roles, asks, a) {
          OwnEntryIsRight(known, roles, asks, a);
        }
      }
    }
  }

  /** A second user who asks after the first does not disturb the first one's answers. */
  lemma LaterAskersDoNotDisturb(p: Permission, roles: RoleTable)
    ensures AnsweredAsUncached({0, 1}, roles, [Ask(0, p), Ask(1, p)], Ask(0, p))
  {
    var asks, a := [Ask(0, p), Ask(1, p)], Ask(0, p);
    CacheIsRightIff({0, 1}, asks, a);
    assert forall i: nat :: !AnotherAskedFirst({0, 1}, asks, a, i) by {
      assert asks[0].user in {0, 1} && asks[0].permission == p;
    }
  }

  lemma OwnEntryIsRight(known: set<UserId>, roles: RoleTable, asks: seq<Ask>, a: Ask)
    requires a.user in known && !exists i: nat :: AnotherAskedFirst(known, asks, a, i)
    ensures AnsweredAsUncached(known, roles, asks, a)
  {
    hide Holds, IsSuper, CacheAfter, ResolveAll;
    var calls, c, p := ResolveAll(known, roles, asks), Resolve(known, roles, a), a.permission;
    EntryIsFirstAskers(calls, p);
    if Consults(c) && IsCached(CacheAfter(calls), p) {
      var i: nat :| AsksFirst(calls, i, p) && CacheAfter(calls).value[p] == Holds(calls[i].user, p);
      assert asks[i].user in known && asks[i].permission == p;
      var f := FirstKnown(known, asks, p, i);
      assert asks[f].user == a.user by { assert !AnotherAskedFirst(known, asks, a, f); }
      assert calls[f].user == c.user;
      assert Asks(calls[f], p);
      assert f == i;
    }
  }

  lemma {:induction false} FirstKnown(known: set<UserId>, asks: seq<Ask>, p: Permission, i: nat) returns (f: nat)
    requires i < |asks| && asks[i].user in known && asks[i].permission == p
    ensures f <= i && asks[f].user in known && asks[f].permission == p
    ensures forall j :: 0 <= j < f ==> !(asks[j].user in known && asks[j].permission == p)
  {
    f := 0;
    while !(asks[f].user in known && asks[f].permission == p)
      invariant f <= i && forall j :: 0 <= j < f ==> !(asks[j].user in known && asks[j].permission == p)
      decreases i - f
    {
      f := f + 1;
    }
  }

  /** If only the first one to ask has the permission, the entry grants it to everybody after. */
  lemma SomeRolesGiveAnotherAnswer(known: set<UserId>, asks: seq<Ask>, a: Ask, i: nat)
    requires a.user in known && AnotherAskedFirst(known, asks, a, i)
    ensures exists roles: RoleTable :: !AnsweredAsUncached(known, roles, asks, a)
  {
    var p, first := a.permission, asks[i].user;
    var role := Role(false, {p});
    var roles: RoleTable := (u: UserId) => if u == first then {role} else {};
    var calls, c := ResolveAll(known, roles, asks), Resolve(known, roles, a);
    hide CacheAfter, ResolveAll;
    assert !IsSuper(c.user) && !Holds(c.user, p);
    assert role in calls[i].user.roles && Holds(calls[i].user, p) && !IsSuper(calls[i].user);
    hide Holds, IsSuper;
    assert Asks(calls[i], p);
    forall j | 0 <= j < i ensures !Asks(calls[j], p) {
      assert calls[j] == Resolve(known, roles, asks[j]);
    }
    assert AsksFirst(calls, i, p);
    EntryIsFirstAskers(calls, p);
    var k: nat :| AsksFirst(calls, k, p) && CacheAfter(calls).value[p] == Holds(calls[k].user, p);
    assert k == i;
    assert !AnsweredAsUncached(known, roles, asks, a);
  }

  /** So two users sharing a request may be confused: the second is answered with the first one's permission. */
  lemma CacheMixesUsers(p: Permission)
    ensures var first, second := User(true, true, {Role(false, {p})}), User(true, true, {});
            Answer(CacheAfter([Call(first, p)]), Call(second, p)) && !UserHasPermission(second, p)
  {
    var role := Role(false, {p});
    var first, second := User(true, true, {role}), User(true, true, {});
    assert role in first.roles;
    assert Holds(first, p) && !IsSuper(first) && !IsSuper(second);
    assert [Call(first, p)][..0] == [];
    assert CacheAfter([Call(first, p)]) == AfterCall(None, Call(first, p));
  }
}
