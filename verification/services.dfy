/** The per-user service registry of server/services/index.js: one map per
    service kind, keyed by `user._id`, with lazy get-or-create and a teardown
    that removes the user from every map. The five maps are one map keyed by
    (kind, user id); object identity of a constructed service is a serial
    number handed out by the registry. */
module Services {

  datatype Kind = FeedKind | HistoryKind | NotificationKind | TaxonomyKind | TorrentKind

  /** The order of `allServiceMaps`, in which teardown visits the maps. */
  const ServiceMapOrder: seq<Kind> := [FeedKind, HistoryKind, NotificationKind, TaxonomyKind, TorrentKind]

  /** A user; only `_id` takes part in the registry. */
  datatype User = User(id: string, username: string)

  /** A constructed service: `new service(user)`. */
  datatype Instance = Instance(serial: nat, kind: Kind, owner: string)

  datatype Registry = Registry(instances: map<(Kind, string), Instance>, nextSerial: nat)

  /** The registry at process start: all five maps empty. */
  const EmptyRegistry: Registry := Registry(map[], 0)

  /** Every stored instance sits under its own kind and owner, was handed out
      before `nextSerial`, and no instance is stored twice. */
  predicate Valid(reg: Registry)
  {
    && (forall key :: key in reg.instances ==>
         var inst := reg.instances[key];
         inst.serial < reg.nextSerial && inst.kind == key.0 && inst.owner == key.1)
    && (forall k1, k2 :: k1 in reg.instances && k2 in reg.instances && k1 != k2 ==>
         reg.instances[k1].serial != reg.instances[k2].serial)
  }

  datatype Got = Got(registry: Registry, instance: Instance)

  /** `getService` for one kind (the accessors `getFeedService` ...
      `getTorrentService` fix `kind`). The stored instance is returned
      unchanged; otherwise a new one, distinct from every instance ever
      created, is stored and returned. Nothing under another key changes. */
  function GetService(reg: Registry, kind: Kind, user: User): (g: Got)
    ensures (kind, user.id) in reg.instances ==> g == Got(reg, reg.instances[(kind, user.id)])
    ensures (kind, user.id) !in reg.instances ==>
      g.instance.kind == kind && g.instance.owner == user.id &&
      g.instance.serial == reg.nextSerial && g.registry.nextSerial > reg.nextSerial &&
      (Valid(reg) ==> forall key :: key in reg.instances ==> reg.instances[key].serial != g.instance.serial)
    ensures (kind, user.id) in g.registry.instances && g.registry.instances[(kind, user.id)] == g.instance
    ensures forall key :: key != (kind, user.id) ==>
      (key in g.registry.instances <==> key in reg.instances) &&
      (key in reg.instances ==> g.registry.instances[key] == reg.instances[key])
    ensures Valid(reg) ==> Valid(g.registry)
  {
    var key := (kind, user.id);
    if key in reg.instances then Got(reg, reg.instances[key])
    else
      var inst := Instance(reg.nextSerial, kind, user.id);
      Got(Registry(reg.instances[key := inst], reg.nextSerial + 1), inst)
  }

  /** Two consecutive gets return the same instance and the second one
      changes nothing. */
  lemma GetTwiceSameInstance(reg: Registry, kind: Kind, user: User)
    ensures var first := GetService(reg, kind, user);
      GetService(first.registry, kind, user) == first
  {
  }

  /** The registry key is the user id: distinct user objects with equal ids
      share one instance. */
  lemma UsersWithSameIdShare(reg: Registry, kind: Kind, u: User, v: User)
    requires u.id == v.id
    ensures GetService(GetService(reg, kind, u).registry, kind, v).instance == GetService(reg, kind, u).instance
  {
  }

  datatype Destroyed = Destroyed(registry: Registry, hooksRun: seq<Instance>)

  /** The teardown loop from the map of `kinds[0]` on: when the user has an
      instance there and its kind has a `destroy` hook, the hook runs; then the
      user's entry is deleted. */
  function DestroyIn(reg: Registry, user: User, hasDestroy: set<Kind>, kinds: seq<Kind>): (d: Destroyed)
    ensures d.registry.nextSerial == reg.nextSerial
    ensures forall key :: key in d.registry.instances <==>
      key in reg.instances && !(key.1 == user.id && key.0 in kinds)
    ensures forall key :: key in d.registry.instances ==> d.registry.instances[key] == reg.instances[key]
    ensures forall x :: x in d.hooksRun ==>
      exists k :: k in kinds && k in hasDestroy && (k, user.id) in reg.instances && reg.instances[(k, user.id)] == x
    ensures forall k :: k in kinds && k in hasDestroy && (k, user.id) in reg.instances ==>
      reg.instances[(k, user.id)] in d.hooksRun
    ensures |d.hooksRun| <= |kinds|
    ensures (forall k :: k in kinds ==> (k, user.id) !in reg.instances) ==> d == Destroyed(reg, [])
    decreases |kinds|
  {
    if |kinds| == 0 then Destroyed(reg, [])
    else
      var key := (kinds[0], user.id);
      var hook := if key in reg.instances && kinds[0] in hasDestroy then [reg.instances[key]] else [];
      var rest := DestroyIn(Registry(reg.instances - {key}, reg.nextSerial), user, hasDestroy, kinds[1..]);
      assert forall k :: k in kinds <==> k == kinds[0] || k in kinds[1..];
      assert key !in reg.instances ==> reg.instances - {key} == reg.instances;
      Destroyed(rest.registry, hook + rest.hooksRun)
  }

  /** No instance appears twice in `s`. */
  predicate RunOnce(s: seq<Instance>)
  {
    forall i, j :: 0 <= i < j < |s| ==> s[i] != s[j]
  }

  lemma RunOnceCons(x: Instance, rest: seq<Instance>)
    requires RunOnce(rest) && x !in rest
    ensures RunOnce([x] + rest)
  {
    var all := [x] + rest;
    forall i, j | 0 <= i < j < |all| ensures all[i] != all[j] {
      assert all[j] == rest[j - 1];
      if i > 0 {
        assert all[i] == rest[i - 1];
      }
    }
  }

  /** The user's instance under the first visited key is not run again for
      a later map: every later hook is an instance stored under another key,
      and distinct keys hold distinct serials. */
  lemma FirstHookNotRepeated(reg: Registry, user: User, hasDestroy: set<Kind>, kinds: seq<Kind>)
    requires Valid(reg) && |kinds| > 0 && (kinds[0], user.id) in reg.instances
    ensures reg.instances[(kinds[0], user.id)] !in
      DestroyIn(Registry(reg.instances - {(kinds[0], user.id)}, reg.nextSerial), user, hasDestroy, kinds[1..]).hooksRun
  {
    var key := (kinds[0], user.id);
    var smaller := Registry(reg.instances - {key}, reg.nextSerial);
    var rest := DestroyIn(smaller, user, hasDestroy, kinds[1..]).hooksRun;
    forall y | y in rest ensures y != reg.instances[key] {
      var k :| k in kinds[1..] && k in hasDestroy && (k, user.id) in smaller.instances &&
        smaller.instances[(k, user.id)] == y;
      assert reg.instances[(k, user.id)].serial != reg.instances[key].serial;
    }
  }

  /** Each visited map holds the user at most once and is left without the
      user, so no `destroy` hook runs twice. */
  lemma {:induction false} DestroyInRunsEachHookOnce(reg: Registry, user: User, hasDestroy: set<Kind>, kinds: seq<Kind>)
    ensures Valid(reg) ==> RunOnce(DestroyIn(reg, user, hasDestroy, kinds).hooksRun)
    decreases |kinds|
  {
    if Valid(reg) && |kinds| > 0 {
      var key := (kinds[0], user.id);
      var smaller := Registry(reg.instances - {key}, reg.nextSerial);
      assert Valid(smaller);
      DestroyInRunsEachHookOnce(smaller, user, hasDestroy, kinds[1..]);
      var rest := DestroyIn(smaller, user, hasDestroy, kinds[1..]).hooksRun;
      if key in reg.instances && kinds[0] in hasDestroy {
        FirstHookNotRepeated(reg, user, hasDestroy, kinds);
        RunOnceCons(reg.instances[key], rest);
      }
    }
  }

  /** `allServiceMaps` lists the map of every kind. */
  lemma AllKindsVisited()
    ensures forall k: Kind :: k in ServiceMapOrder
  {
    forall k: Kind ensures k in ServiceMapOrder {
      match k
      case FeedKind => assert ServiceMapOrder[0] == k;
      case HistoryKind => assert ServiceMapOrder[1] == k;
      case NotificationKind => assert ServiceMapOrder[2] == k;
      case TaxonomyKind => assert ServiceMapOrder[3] == k;
      case TorrentKind => assert ServiceMapOrder[4] == k;
    }
  }

  /** `destroyUserServices(user)`: afterwards no map holds the user, every
      other user's entries are untouched, and a `destroy` hook has run for
      exactly the user's instances whose kind has one. */
  function DestroyUserServices(reg: Registry, user: User, hasDestroy: set<Kind>): (d: Destroyed)
    ensures d.registry.nextSerial == reg.nextSerial
    ensures forall key :: key in d.registry.instances <==> key in reg.instances && key.1 != user.id
    ensures forall key :: key in d.registry.instances ==> d.registry.instances[key] == reg.instances[key]
    ensures Valid(reg) ==> Valid(d.registry)
    ensures Valid(reg) ==> forall x :: x in d.hooksRun <==>
      x in reg.instances.Values && x.owner == user.id && x.kind in hasDestroy
    ensures (forall k :: (k, user.id) !in reg.instances) ==> d == Destroyed(reg, [])
    ensures Valid(reg) ==> RunOnce(d.hooksRun)
  {
    AllKindsVisited();
    DestroyInRunsEachHookOnce(reg, user, hasDestroy, ServiceMapOrder);
    DestroyIn(reg, user, hasDestroy, ServiceMapOrder)
  }

  /** A get after teardown constructs a new instance, distinct from every
      instance the registry held before, the removed ones included. */
  lemma GetAfterDestroyIsFresh(reg: Registry, user: User, hasDestroy: set<Kind>, kind: Kind)
    requires Valid(reg)
    ensures var d := DestroyUserServices(reg, user, hasDestroy);
      var g := GetService(d.registry, kind, user);
      forall key :: key in reg.instances ==> reg.instances[key] != g.instance
  {
  }
}
