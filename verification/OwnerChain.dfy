/** controller/src/ownership.rs: following single owners up to a root. */
module OwnerChain {
  import opened Base

  datatype OwnerReference = OwnerReference(apiVersion: string, kind: string, name: string, uid: string)

  datatype Types = Types(apiVersion: string, kind: string)

  datatype Object = Object(uid: Option<string>, name: Option<string>, namespace: Option<string>,
                           types: Option<Types>, owners: seq<OwnerReference>)

  datatype Error = MissingUid | Cycle | OwnerChain | ApiVersion | DuplicateOwner | MissingOwner | OwnerUid

  /** The identifier an object has when it is present and not empty. */
  predicate HasUid(o: Object) {
    o.uid.Some? && o.uid.value != ""
  }

  /** The parts of a text between its slashes; a text without one is its only part. */
  function Parts(s: string): (parts: seq<string>)
    ensures parts != []
  {
    if s == "" then [""]
    else
      var rest := Parts(s[1..]);
      if s[0] == '/' then [""] + rest else [[s[0]] + rest[0]] + rest[1..]
  }

  predicate ValidApiVersion(s: string) {
    |Parts(s)| <= 2 && forall i :: 0 <= i < |Parts(s)| ==> Parts(s)[i] != ""
  }

  lemma {:induction false} OnePart(s: string)
    ensures '/' !in s <==> |Parts(s)| == 1
    ensures |Parts(s)| == 1 ==> Parts(s) == [s]
  {
    if s != "" {
      OnePart(s[1..]);
      assert s == [s[0]] + s[1..];
    }
  }

  lemma {:induction false} PartsAround(a: string, b: string)
    requires '/' !in a
    ensures Parts(a + "/" + b) == [a] + Parts(b)
  {
    var s := a + "/" + b;
    if a == "" {
      assert s[1..] == b;
    } else {
      assert s[1..] == a[1..] + "/" + b;
      PartsAround(a[1..], b);
      assert Parts(s) == [[a[0]] + a[1..]] + Parts(b);
      assert a == [a[0]] + a[1..];
    }
  }

  lemma {:induction false} FirstSlash(s: string) returns (a: string, b: string)
    requires '/' in s
    ensures '/' !in a && s == a + "/" + b
  {
    if s[0] == '/' {
      a, b := "", s[1..];
    } else {
      a, b := FirstSlash(s[1..]);
      a := [s[0]] + a;
    }
  }

  ghost predicate GroupAndVersion(s: string, group: string, version: string) {
    s == group + "/" + version && group != "" && version != "" && '/' !in group && '/' !in version
  }

  /** An API version is a version alone, or a group, a slash and a version. */
  lemma ApiVersionMeaning(s: string)
    ensures ValidApiVersion(s) <==>
            || (s != "" && '/' !in s)
            || exists group, version :: GroupAndVersion(s, group, version)
  {
    OnePart(s);
    if '/' !in s {
      assert Parts(s) == [s] && Parts(s)[0] == s;
    } else {
      var a, b := FirstSlash(s);
      PartsAround(a, b);
      OnePart(b);
      if ValidApiVersion(s) {
        assert Parts(s)[0] == a && Parts(s)[1] == Parts(b)[0];
        assert GroupAndVersion(s, a, b);
      }
      if group, version :| GroupAndVersion(s, group, version) {
        PartsAround(group, version);
        OnePart(version);
      }
    }
  }

  predicate Named(o: Object, namespace: Option<string>, owner: OwnerReference) {
    o.types == Some(Types(owner.apiVersion, owner.kind)) && o.namespace == namespace && o.name == Some(owner.name)
  }

  /** The one place in the inventory that an owner reference means. */
  ghost predicate Sole(inventory: seq<Object>, namespace: Option<string>, owner: OwnerReference, i: int) {
    && 0 <= i < |inventory| && Named(inventory[i], namespace, owner)
    && forall j :: 0 <= j < |inventory| && Named(inventory[j], namespace, owner) ==> j == i
  }

  method Lookup(inventory: seq<Object>, namespace: Option<string>, owner: OwnerReference)
    returns (r: Result<Option<Object>, Error>)
    ensures r == Ok(None) <==> forall i :: 0 <= i < |inventory| ==> !Named(inventory[i], namespace, owner)
    ensures r.Ok? && r.value.Some? <==> exists i :: Sole(inventory, namespace, owner, i)
    ensures forall i :: Sole(inventory, namespace, owner, i) ==> r == Ok(Some(inventory[i]))
    ensures r.Ok? && r.value.Some? ==>
              var o := r.value.value;
              && o.types == Some(Types(owner.apiVersion, owner.kind)) && o.namespace == namespace
              && o.name == Some(owner.name) && o in inventory
    ensures r == Ok(None) ==> forall o :: o in inventory ==>
              || o.types != Some(Types(owner.apiVersion, owner.kind)) || o.namespace != namespace
              || o.name != Some(owner.name)
    ensures r.Err? ==> r.error == DuplicateOwner
  {
    var found: Option<nat> := None;
    for i := 0 to |inventory|
      invariant found.None? ==> forall j :: 0 <= j < i ==> !Named(inventory[j], namespace, owner)
      invariant found.Some? ==> found.value < i && Named(inventory[found.value], namespace, owner)
      invariant found.Some? ==> forall j :: 0 <= j < i && Named(inventory[j], namespace, owner) ==> j == found.value
    {
      if Named(inventory[i], namespace, owner) {
        if found.Some? {
          return Err(DuplicateOwner);
        }
        found := Some(i);
      }
    }
    if found.Some? {
      assert Sole(inventory, namespace, owner, found.value);
      return Ok(Some(inventory[found.value]));
    }
    return Ok(None);
  }

  /** `next` is the one object that `o`'s one owner reference means. */
  ghost predicate Owns(inventory: seq<Object>, o: Object, next: Object) {
    && |o.owners| == 1 && o.owners[0].uid != "" && ValidApiVersion(o.owners[0].apiVersion)
    && next.uid == Some(o.owners[0].uid)
    && exists i :: Sole(inventory, o.namespace, o.owners[0], i) && next == inventory[i]
  }

  lemma OwnsOne(inventory: seq<Object>, o: Object, a: Object, b: Object)
    requires Owns(inventory, o, a) && Owns(inventory, o, b)
    ensures a == b
  {
    var i :| Sole(inventory, o.namespace, o.owners[0], i) && a == inventory[i];
    var j :| Sole(inventory, o.namespace, o.owners[0], j) && b == inventory[j];
  }

  lemma OwnerListed(inventory: seq<Object>, o: Object, next: Object)
    requires Owns(inventory, o, next)
    ensures next in inventory && Named(next, o.namespace, o.owners[0])
  {
  }

  /** A finite chain of single, uniquely named owners with matching UIDs that ends at the root. */
  ghost predicate Chain(inventory: seq<Object>, root: string, path: seq<Object>) {
    && |path| > 0 && path[|path| - 1].uid == Some(root)
    && (forall i :: 0 <= i < |path| ==> HasUid(path[i]))
    && forall i :: 0 <= i < |path| - 1 ==> Owns(inventory, path[i], path[i + 1])
  }

  ghost predicate DistinctUids(path: seq<Object>) {
    forall i, j :: 0 <= i < j < |path| ==> path[i].uid != path[j].uid
  }

  ghost predicate Leads(inventory: seq<Object>, root: string, o: Object, path: seq<Object>) {
    Chain(inventory, root, path) && path[0] == o
  }

  ghost predicate LeadsPlainly(inventory: seq<Object>, root: string, o: Object, path: seq<Object>) {
    Leads(inventory, root, o, path) && DistinctUids(path)
  }

  function Uids(inventory: seq<Object>): set<string> {
    set o | o in inventory && o.uid.Some? :: o.uid.value
  }

  /** The nodes walked so far, from the start to the one before `current`. */
  ghost predicate Walked(inventory: seq<Object>, root: string, start: Object, trail: seq<Object>, current: Object) {
    && (trail + [current])[0] == start
    && (forall i :: 0 <= i < |trail| ==> HasUid(trail[i]) && trail[i].uid != Some(root))
    && (forall i :: 0 <= i < |trail| ==> Owns(inventory, trail[i], (trail + [current])[i + 1]))
    && DistinctUids(trail)
  }

  /** Every chain from the start starts with the nodes walked. */
  lemma {:induction false} WalkIsForced(inventory: seq<Object>, root: string, start: Object, trail: seq<Object>,
                                        current: Object, path: seq<Object>, i: nat)
    requires Walked(inventory, root, start, trail, current) && Leads(inventory, root, start, path) && i <= |trail|
    ensures i < |path| && path[i] == (trail + [current])[i]
  {
    if i > 0 {
      WalkIsForced(inventory, root, start, trail, current, path, i - 1);
      assert path[i - 1] == trail[i - 1] && i - 1 < |path| - 1;
      OwnsOne(inventory, trail[i - 1], path[i], (trail + [current])[i]);
    }
  }

  /** A chain passes through the node the walk has reached and ends there or goes on to its owner. */
  lemma ChainGoesOn(inventory: seq<Object>, root: string, start: Object, trail: seq<Object>, here: Object,
                    path: seq<Object>)
    requires Walked(inventory, root, start, trail, here) && Leads(inventory, root, start, path)
    ensures HasUid(here) && (here.uid == Some(root) || exists next :: Owns(inventory, here, next))
    ensures DistinctUids(path) ==> forall k :: 0 <= k < |trail| ==> trail[k].uid != here.uid
  {
    hide Owns;
    WalkIsForced(inventory, root, start, trail, here, path, |trail|);
    assert path[|trail|] == here;
    if |trail| < |path| - 1 {
      assert Owns(inventory, path[|trail|], path[|trail| + 1]);
    }
    forall k | 0 <= k < |trail| ensures path[k] == trail[k] {
      WalkIsForced(inventory, root, start, trail, here, path, k);
    }
  }

  /** Nothing owns the node the walk stopped at, so no chain leads on from it. */
  lemma StopsHere(inventory: seq<Object>, root: string, start: Object, trail: seq<Object>, here: Object)
    requires Walked(inventory, root, start, trail, here)
    requires !HasUid(here) || (here.uid != Some(root) && forall next :: !Owns(inventory, here, next))
    ensures forall path :: !LeadsPlainly(inventory, root, start, path)
  {
    hide Owns, Walked, Leads;
    forall path ensures !LeadsPlainly(inventory, root, start, path) {
      if Leads(inventory, root, start, path) {
        ChainGoesOn(inventory, root, start, trail, here, path);
      }
    }
  }

  /** The walk met a UID again, so every chain would repeat it. */
  lemma RepeatStops(inventory: seq<Object>, root: string, start: Object, trail: seq<Object>, here: Object, k: nat)
    requires Walked(inventory, root, start, trail, here) && k < |trail| && trail[k].uid == here.uid
    ensures forall path :: !LeadsPlainly(inventory, root, start, path)
  {
    hide Owns, Walked, Leads;
    forall path ensures !LeadsPlainly(inventory, root, start, path) {
      if Leads(inventory, root, start, path) {
        ChainGoesOn(inventory, root, start, trail, here, path);
      }
    }
  }

  lemma WalkOn(inventory: seq<Object>, root: string, start: Object, trail: seq<Object>, here: Object, next: Object)
    requires Walked(inventory, root, start, trail, here) && HasUid(here) && here.uid != Some(root)
    requires Owns(inventory, here, next) && here.uid.value !in Uids(trail)
    ensures Walked(inventory, root, start, trail + [here], next)
    ensures Uids(trail + [here]) == Uids(trail) + {here.uid.value}
  {
    hide Owns;
    var longer := trail + [here];
    forall i | 0 <= i < |longer| ensures Owns(inventory, longer[i], (longer + [next])[i + 1]) {
      if i < |trail| {
        assert Owns(inventory, trail[i], (trail + [here])[i + 1]);
      }
    }
    FreshUid(trail, here);
  }

  lemma FreshUid(trail: seq<Object>, here: Object)
    requires DistinctUids(trail) && (forall i :: 0 <= i < |trail| ==> HasUid(trail[i])) && HasUid(here)
    requires here.uid.value !in Uids(trail)
    ensures DistinctUids(trail + [here]) && Uids(trail + [here]) == Uids(trail) + {here.uid.value}
  {
    forall i | 0 <= i < |trail| ensures trail[i].uid != here.uid {
      assert trail[i] in trail;
    }
    assert here in trail + [here];
    forall uid ensures uid in Uids(trail + [here]) <==> uid in Uids(trail) + {here.uid.value} {
      if uid in Uids(trail) {
        var o :| o in trail && o.uid == Some(uid);
        assert o in trail + [here];
      }
    }
  }

  lemma Arrived(inventory: seq<Object>, root: string, start: Object, trail: seq<Object>, here: Object)
    requires root != "" && Walked(inventory, root, start, trail, here) && here.uid == Some(root)
    ensures LeadsPlainly(inventory, root, start, trail + [here])
  {
    hide Owns;
    var path := trail + [here];
    forall i | 0 <= i < |path| - 1 ensures Owns(inventory, path[i], path[i + 1]) {
      assert Owns(inventory, trail[i], (trail + [here])[i + 1]);
    }
  }

  lemma {:induction false} UidCount(s: seq<Object>)
    ensures |Uids(s)| <= |s|
  {
    if s != [] {
      UidCount(s[1..]);
      assert Uids(s) <= Uids(s[1..]) + if s[0].uid.Some? then {s[0].uid.value} else {};
      SubsetSize(Uids(s), Uids(s[1..]) + if s[0].uid.Some? then {s[0].uid.value} else {});
    }
  }

  lemma LastIsFresh(path: seq<Object>, last: Object)
    requires DistinctUids(path + [last]) && HasUid(last)
    ensures DistinctUids(path) && last.uid.value !in Uids(path)
  {
    var whole := path + [last];
    assert forall i, j :: 0 <= i < j < |path| ==> path[i].uid == whole[i].uid && path[j].uid == whole[j].uid;
    forall o | o in path && o.uid.Some? ensures o.uid != last.uid {
      var i :| 0 <= i < |path| && path[i] == o;
      assert whole[i].uid != whole[|path|].uid;
    }
  }

  lemma {:induction false} DistinctCount(path: seq<Object>)
    requires DistinctUids(path) && forall i :: 0 <= i < |path| ==> HasUid(path[i])
    ensures |Uids(path)| == |path|
  {
    if path != [] {
      var front, last := path[..|path| - 1], path[|path| - 1];
      assert path == front + [last];
      hide DistinctUids, Uids;
      LastIsFresh(front, last);
      DistinctCount(front);
      FreshUid(front, last);
    } else {
      NoUids();
    }
  }

  lemma WalkedBound(inventory: seq<Object>, start: Object, path: seq<Object>)
    requires DistinctUids(path) && forall i :: 0 <= i < |path| ==> HasUid(path[i]) && path[i] in [start] + inventory
    ensures |path| <= |inventory| + 1 && |Uids(path)| == |path| <= |Uids([start] + inventory)|
  {
    DistinctCount(path);
    UidCount([start] + inventory);
    SubsetSize(Uids(path), Uids([start] + inventory));
  }

  lemma NoOwner(inventory: seq<Object>, here: Object)
    requires |here.owners| != 1 || here.owners[0].uid == "" || !ValidApiVersion(here.owners[0].apiVersion)
             || forall i :: Sole(inventory, here.namespace, here.owners[0], i) ==>
                  inventory[i].uid != Some(here.owners[0].uid)
    ensures forall next :: !Owns(inventory, here, next)
  {
  }

  lemma WalkBegins(inventory: seq<Object>, root: string, start: Object)
    ensures Walked(inventory, root, start, [], start)
  {
  }

  lemma Bounded(inventory: seq<Object>, root: string, start: Object, trail: seq<Object>, here: Object)
    requires root != "" && Walked(inventory, root, start, trail, here)
    requires here in [start] + inventory && forall o :: o in trail ==> o in [start] + inventory
    ensures |trail| <= |inventory| + 1 && |trail| <= |Uids([start] + inventory)|
    ensures here.uid == Some(root) ==>
              LeadsPlainly(inventory, root, start, trail + [here]) && |trail + [here]| <= |inventory| + 1
    ensures here.uid.Some? && here.uid.value in Uids(trail) ==>
              forall path :: !LeadsPlainly(inventory, root, start, path)
  {
    hide Owns;
    WalkedBound(inventory, start, trail);
    if here.uid == Some(root) {
      Arrived(inventory, root, start, trail, here);
      WalkedBound(inventory, start, trail + [here]);
    } else if here.uid.Some? && here.uid.value in Uids(trail) {
      var o :| o in trail && o.uid == here.uid;
      var k :| 0 <= k < |trail| && trail[k] == o;
      RepeatStops(inventory, root, start, trail, here, k);
    }
  }

  /** What the walk decides, for any inventory: whether a chain without a repeated UID leads to the root. */
  method ValidateOwnerChain(start: Object, root: string, inventory: seq<Object>)
    returns (r: Result<(), Error>, ghost trail: seq<Object>)
    ensures r.Ok? <==> root != "" && exists path :: LeadsPlainly(inventory, root, start, path)
    ensures r.Ok? ==> LeadsPlainly(inventory, root, start, trail)
    ensures |trail| <= |inventory| + 1
  {
    hide Owns, Walked, Leads, DistinctUids, Sole, Uids;
    trail := [];
    if root == "" {
      return Err(MissingUid), trail;
    }
    var current := start;
    var visited: set<string> := {};
    WalkBegins(inventory, root, start);
    NoUids();
    while true
      invariant Walked(inventory, root, start, trail, current)
      invariant visited == Uids(trail) && |trail| <= |inventory| + 1
      invariant current in [start] + inventory && forall o :: o in trail ==> o in [start] + inventory
      decreases |Uids([start] + inventory)| - |trail|
    {
      Bounded(inventory, root, start, trail, current);
      if current.uid.None? || current.uid.value == "" {
        StopsHere(inventory, root, start, trail, current);
        return Err(MissingUid), trail;
      }
      var uid := current.uid.value;
      if uid == root {
        trail := trail + [current];
        return Ok(()), trail;
      }
      if uid in visited {
        return Err(Cycle), trail;
      }
      visited := visited + {uid};
      if |current.owners| != 1 || current.owners[0].uid == "" {
        NoOwner(inventory, current);
        StopsHere(inventory, root, start, trail, current);
        return Err(OwnerChain), trail;
      }
      var owner := current.owners[0];
      if !ValidApiVersion(owner.apiVersion) {
        NoOwner(inventory, current);
        StopsHere(inventory, root, start, trail, current);
        return Err(ApiVersion), trail;
      }
      var next := Lookup(inventory, current.namespace, owner);
      if next.Err? {
        NoOwner(inventory, current);
        StopsHere(inventory, root, start, trail, current);
        return Err(next.error), trail;
      }
      if next.value.None? {
        NoOwner(inventory, current);
        StopsHere(inventory, root, start, trail, current);
        return Err(MissingOwner), trail;
      }
      if next.value.value.uid != Some(owner.uid) {
        NoOwner(inventory, current);
        StopsHere(inventory, root, start, trail, current);
        return Err(OwnerUid), trail;
      }
      IsOwner(inventory, current, next.value.value);
      WalkOn(inventory, root, start, trail, current, next.value.value);
      trail := trail + [current];
      current := next.value.value;
      Bounded(inventory, root, start, trail, current);
    }
  }

  lemma NoUids()
    ensures Uids([]) == {}
  {
  }

  lemma IsOwner(inventory: seq<Object>, here: Object, next: Object)
    requires |here.owners| == 1 && here.owners[0].uid != "" && ValidApiVersion(here.owners[0].apiVersion)
    requires exists i :: Sole(inventory, here.namespace, here.owners[0], i) && next == inventory[i]
    requires next.uid == Some(here.owners[0].uid)
    ensures Owns(inventory, here, next) && next in inventory
  {
    OwnerListed(inventory, here, next);
  }

  // ---- when UIDs are unique ----------------------------------------------------------------

  /** No two objects of the inventory and the object itself share a UID. */
  ghost predicate UniqueUids(inventory: seq<Object>) {
    forall a, b :: a in inventory && b in inventory && HasUid(a) && a.uid == b.uid ==> a == b
  }

  lemma ChainListed(inventory: seq<Object>, root: string, path: seq<Object>, i: nat)
    requires Chain(inventory, root, path) && i < |path|
    ensures path[i] in [path[0]] + inventory
  {
    if i > 0 {
      OwnerListed(inventory, path[i - 1], path[i]);
    }
  }

  /** A chain that meets an object twice can be cut short. */
  lemma {:induction false} Shorten(inventory: seq<Object>, root: string, start: Object, path: seq<Object>)
    returns (plain: seq<Object>)
    requires UniqueUids([start] + inventory) && Leads(inventory, root, start, path)
    ensures LeadsPlainly(inventory, root, start, plain)
    decreases |path|
  {
    if DistinctUids(path) {
      return path;
    }
    var i, j :| 0 <= i < j < |path| && path[i].uid == path[j].uid;
    ChainListed(inventory, root, path, i);
    ChainListed(inventory, root, path, j);
    assert path[i] == path[j];
    var cut := path[..i] + path[j..];
    forall k | 0 <= k < |cut| - 1 ensures Owns(inventory, cut[k], cut[k + 1]) {
      if k < i {
        assert cut[k] == path[k] && cut[k + 1] == path[k + 1];
      } else {
        assert cut[k] == path[k + j - i] && cut[k + 1] == path[k + j - i + 1];
      }
    }
    plain := Shorten(inventory, root, start, cut);
  }

  /** With unique UIDs the walk succeeds exactly when some finite chain leads to the root. */
  lemma UniqueUidsSuffice(inventory: seq<Object>, root: string, start: Object)
    requires UniqueUids([start] + inventory)
    ensures (exists path :: LeadsPlainly(inventory, root, start, path))
            <==> exists path :: Leads(inventory, root, start, path)
  {
    if exists path :: LeadsPlainly(inventory, root, start, path) {
      var path :| LeadsPlainly(inventory, root, start, path);
      assert Leads(inventory, root, start, path);
    } else if exists path :: Leads(inventory, root, start, path) {
      var path :| Leads(inventory, root, start, path);
      var plain := Shorten(inventory, root, start, path);
    }
  }

  function Plain(uid: string, name: string, owners: seq<OwnerReference>): Object {
    Object(Some(uid), Some(name), None, Some(Types("v1", "Node")), owners)
  }

  function ToNode(name: string, uid: string): OwnerReference {
    OwnerReference("v1", "Node", name, uid)
  }

  lemma OwnsNode(inventory: seq<Object>, o: Object, i: nat, name: string, uid: string)
    requires o.owners == [ToNode(name, uid)] && uid != "" && o.namespace == None && i < |inventory|
    requires inventory[i].uid == Some(uid) && Sole(inventory, None, ToNode(name, uid), i)
    ensures Owns(inventory, o, inventory[i])
  {
  }

  /** Without unique UIDs a chain may exist that the walk refuses: here an ancestor reuses the object's UID. */
  lemma ReusedUidRefused() returns (start: Object, inventory: seq<Object>, chain: seq<Object>)
    ensures Leads(inventory, "r", start, chain)
    ensures forall path :: !LeadsPlainly(inventory, "r", start, path)
    ensures UniqueUids(inventory)
  {
    var root := Plain("r", "root", []);
    var grand := Plain("a", "grand", [ToNode("root", "r")]);
    var parent := Plain("b", "parent", [ToNode("grand", "a")]);
    start := Plain("a", "start", [ToNode("parent", "b")]);
    inventory := [parent, grand, root];
    chain := [start, parent, grand, root];
    assert Sole(inventory, None, ToNode("parent", "b"), 0) && Sole(inventory, None, ToNode("grand", "a"), 1);
    assert Sole(inventory, None, ToNode("root", "r"), 2);
    OwnsNode(inventory, start, 0, "parent", "b");
    OwnsNode(inventory, parent, 1, "grand", "a");
    OwnsNode(inventory, grand, 2, "root", "r");
    assert Walked(inventory, "r", start, [start, parent], grand);
    RepeatStops(inventory, "r", start, [start, parent], grand, 0);
  }
}

/** controller/src/finalize.rs: the descendants of the MachineDeployment that teardown accepts. */
module Descendants {
  import opened Base
  import opened OwnerChain

  const CLUSTER_API := "cluster.x-k8s.io/v1beta2"
  const INFRASTRUCTURE_API := "infrastructure.cluster.x-k8s.io/v1beta2"
  const BOOTSTRAP_API := "bootstrap.cluster.x-k8s.io/v1beta2"

  datatype Kind = MachineDeployment | MachineSet | Machine | DevMachine | KubeadmConfig

  function KindName(k: Kind): string {
    match k
    case MachineDeployment => "MachineDeployment"
    case MachineSet => "MachineSet"
    case Machine => "Machine"
    case DevMachine => "DevMachine"
    case KubeadmConfig => "KubeadmConfig"
  }

  function Api(k: Kind): string {
    match k
    case DevMachine => INFRASTRUCTURE_API
    case KubeadmConfig => BOOTSTRAP_API
    case _ => CLUSTER_API
  }

  /** The kind that must own a descendant; the deployment itself is the root. */
  function ParentKind(k: Kind): Kind {
    match k
    case MachineSet => MachineDeployment
    case Machine => MachineSet
    case DevMachine => Machine
    case KubeadmConfig => Machine
    case MachineDeployment => MachineDeployment
  }

  function Level(k: Kind): nat {
    match k
    case MachineDeployment => 0
    case MachineSet => 1
    case Machine => 2
    case _ => 3
  }

  function TypeOf(k: Kind): Types {
    Types(Api(k), KindName(k))
  }

  lemma KindsDiffer(a: Kind, b: Kind)
    ensures TypeOf(a) == TypeOf(b) ==> a == b
  {
    assert KindName(a)[0] == KindName(b)[0] && |KindName(a)| == |KindName(b)| ==> a == b;
  }

  /** What is checked of a listed object before its chain is walked. */
  predicate Identified(namespace: string, k: Kind, o: Object) {
    && o.namespace == Some(namespace) && o.name.Some? && o.name.value != "" && o.types == Some(TypeOf(k))
    && |o.owners| == 1 && o.owners[0].kind == KindName(ParentKind(k)) && o.owners[0].apiVersion == Api(ParentKind(k))
  }

  type Descendant = k: Kind | k != MachineDeployment witness MachineSet

  /** An object as listed under its kind; `marked`: it carries the Tenant's root ownership markers. */
  datatype Listed = Listed(kind: Descendant, item: Object, marked: bool)

  function Items(listed: seq<Listed>): seq<Object> {
    seq(|listed|, i requires 0 <= i < |listed| => listed[i].item)
  }

  /** Every object has a UID and no two share one. */
  ghost predicate Distinctly(inventory: seq<Object>) {
    && (forall i :: 0 <= i < |inventory| ==> HasUid(inventory[i]))
    && forall i, j :: 0 <= i < j < |inventory| ==> inventory[i].uid != inventory[j].uid
  }

  /** One descendant: its own identity, a live deployment, a chain that leads to it, and markers on machines. */
  ghost predicate Descends(namespace: string, inventory: seq<Object>, deployment: Option<Object>, listed: Listed) {
    && Identified(namespace, listed.kind, listed.item)
    && deployment.Some? && HasUid(deployment.value)
    && (exists path :: LeadsPlainly(inventory, deployment.value.uid.value, listed.item, path))
    && (listed.kind == Machine || listed.kind == DevMachine ==> listed.marked)
  }

  ghost predicate Accepts(namespace: string, roots: seq<Object>, deployment: Option<Object>, listed: seq<Listed>) {
    && Distinctly(roots + Items(listed))
    && forall i :: 0 <= i < |listed| ==> Descends(namespace, roots + Items(listed), deployment, listed[i])
  }

  method CheckUids(inventory: seq<Object>) returns (ok: bool)
    ensures ok <==> Distinctly(inventory)
  {
    var uids: set<string> := {};
    for i := 0 to |inventory|
      invariant Distinctly(inventory[..i])
      invariant forall j :: 0 <= j < i ==> inventory[j].uid.value in uids
      invariant forall uid :: uid in uids ==> exists j :: 0 <= j < i && inventory[j].uid == Some(uid)
    {
      if inventory[i].uid.None? || inventory[i].uid.value == "" || inventory[i].uid.value in uids {
        return false;
      }
      uids := uids + {inventory[i].uid.value};
      assert inventory[..i + 1] == inventory[..i] + [inventory[i]];
    }
    assert inventory[..|inventory|] == inventory;
    return true;
  }

  lemma AcceptedItems(namespace: string, roots: seq<Object>, deployment: Option<Object>, listed: seq<Listed>)
    ensures Accepts(namespace, roots, deployment, listed) ==> forall i :: 0 <= i < |listed| ==>
              var o, k := listed[i].item, listed[i].kind;
              && o.namespace == Some(namespace) && o.name.Some? && o.name != Some("") && o.types == Some(TypeOf(k))
              && |o.owners| == 1 && Types(o.owners[0].apiVersion, o.owners[0].kind) == TypeOf(ParentKind(k))
              && (k == Machine || k == DevMachine ==> listed[i].marked)
  {
    hide LeadsPlainly, Distinctly, KindName, Api;
  }

  /** The teardown's inventory check: identifiers, parent kinds, then a chain to the live deployment. */
  method ValidateDescendants(namespace: string, roots: seq<Object>, deployment: Option<Object>, listed: seq<Listed>)
    returns (ok: bool)
    ensures ok <==> Accepts(namespace, roots, deployment, listed)
    ensures ok ==> forall i :: 0 <= i < |listed| ==>
              var o, k := listed[i].item, listed[i].kind;
              && o.namespace == Some(namespace) && o.name.Some? && o.name != Some("") && o.types == Some(TypeOf(k))
              && |o.owners| == 1 && Types(o.owners[0].apiVersion, o.owners[0].kind) == TypeOf(ParentKind(k))
              && (k == Machine || k == DevMachine ==> listed[i].marked)
  {
    hide LeadsPlainly, Distinctly, Identified;
    AcceptedItems(namespace, roots, deployment, listed);
    var inventory := roots + Items(listed);
    ok := CheckUids(inventory);
    if !ok {
      return;
    }
    for i := 0 to |listed|
      invariant ok
      invariant forall j :: 0 <= j < i ==> Descends(namespace, inventory, deployment, listed[j])
    {
      var item := listed[i].item;
      if !Identified(namespace, listed[i].kind, item) {
        return false;
      }
      if deployment.None? || deployment.value.uid.None? || deployment.value.uid.value == "" {
        return false;
      }
      var walked, trail := ValidateOwnerChain(item, deployment.value.uid.value, inventory);
      if walked.Err? {
        return false;
      }
      if (listed[i].kind == Machine || listed[i].kind == DevMachine) && !listed[i].marked {
        return false;
      }
    }
  }

  // ---- the shape of what was accepted ------------------------------------------------------

  /** The deployment is the only listed object of its kind: one object is read per root kind. */
  ghost predicate OneDeployment(roots: seq<Object>, deployment: Object) {
    && deployment in roots
    && forall o :: o in roots && o.types.Some? && (exists k :: o.types == Some(TypeOf(k))) ==> o == deployment
  }

  /** The owner of an accepted descendant is the deployment or an accepted object one level up. */
  lemma OwnerIsAbove(namespace: string, roots: seq<Object>, deployment: Object, listed: seq<Listed>, i: nat,
                     next: Object)
    requires Accepts(namespace, roots, Some(deployment), listed) && OneDeployment(roots, deployment)
    requires deployment.types == Some(TypeOf(MachineDeployment))
    requires i < |listed|
    requires Owns(roots + Items(listed), listed[i].item, next)
    ensures if Level(listed[i].kind) == 1 then next == deployment
            else exists j :: 0 <= j < |listed| && listed[j].item == next && listed[j].kind == ParentKind(listed[i].kind)
  {
    hide LeadsPlainly, Owns, KindName, Api;
    var inventory, parent := roots + Items(listed), ParentKind(listed[i].kind);
    OwnerListed(inventory, listed[i].item, next);
    assert Descends(namespace, inventory, Some(deployment), listed[i]);
    assert next.types == Some(TypeOf(parent));
    var place :| 0 <= place < |inventory| && inventory[place] == next;
    if place < |roots| {
      assert next == roots[place] && next == deployment;
      KindsDiffer(parent, MachineDeployment);
    } else {
      var j := place - |roots|;
      assert next == Items(listed)[j] == listed[j].item;
      assert Descends(namespace, inventory, Some(deployment), listed[j]);
      KindsDiffer(parent, listed[j].kind);
    }
  }

  /** Accepted descendants form a forest under the deployment: each lies exactly `Level` owners below it. */
  lemma {:induction false} AcceptedDepth(namespace: string, roots: seq<Object>, deployment: Object, listed: seq<Listed>,
                                         i: nat, path: seq<Object>)
    requires Accepts(namespace, roots, Some(deployment), listed) && OneDeployment(roots, deployment)
    requires deployment.types == Some(TypeOf(MachineDeployment))
    requires i < |listed| && HasUid(deployment)
    requires LeadsPlainly(roots + Items(listed), deployment.uid.value, listed[i].item, path)
    ensures |path| == Level(listed[i].kind) + 1 <= 4 && path[|path| - 1] == deployment
    decreases |path|
  {
    hide Owns, Accepts, Identified, OneDeployment;
    var inventory := roots + Items(listed);
    NotTheRoot(namespace, roots, deployment, listed, i);
    assert |path| > 1 && Owns(inventory, path[0], path[1]);
    OwnerIsAbove(namespace, roots, deployment, listed, i, path[1]);
    if Level(listed[i].kind) == 1 {
      assert path[1].uid == path[|path| - 1].uid;
    } else {
      var j :| 0 <= j < |listed| && listed[j].item == path[1] && listed[j].kind == ParentKind(listed[i].kind);
      assert LeadsPlainly(inventory, deployment.uid.value, listed[j].item, path[1..]) by {
        forall k | 0 <= k < |path[1..]| - 1 ensures Owns(inventory, path[1..][k], path[1..][k + 1]) {
          assert Owns(inventory, path[k + 1], path[k + 2]);
        }
      }
      AcceptedDepth(namespace, roots, deployment, listed, j, path[1..]);
    }
  }

  /** One descendant judged without any walk: its identity, its markers, and an owner that is listed and live. */
  ghost predicate Attached(namespace: string, inventory: seq<Object>, listed: Listed) {
    && Identified(namespace, listed.kind, listed.item)
    && (exists next :: Owns(inventory, listed.item, next))
    && (listed.kind == Machine || listed.kind == DevMachine ==> listed.marked)
  }

  ghost predicate Forest(namespace: string, roots: seq<Object>, deployment: Object, listed: seq<Listed>) {
    && Distinctly(roots + Items(listed)) && HasUid(deployment)
    && forall i :: 0 <= i < |listed| ==> Attached(namespace, roots + Items(listed), listed[i])
  }

  /** The owner of an attached descendant is the deployment or an attached object one level up. */
  lemma AttachedAbove(namespace: string, roots: seq<Object>, deployment: Object, listed: seq<Listed>, i: nat,
                      next: Object)
    requires Forest(namespace, roots, deployment, listed) && OneDeployment(roots, deployment)
    requires deployment.types == Some(TypeOf(MachineDeployment))
    requires i < |listed| && Owns(roots + Items(listed), listed[i].item, next)
    ensures if Level(listed[i].kind) == 1 then next == deployment
            else exists j :: 0 <= j < |listed| && listed[j].item == next && listed[j].kind == ParentKind(listed[i].kind)
  {
    hide Owns, KindName, Api, Distinctly;
    var inventory, parent := roots + Items(listed), ParentKind(listed[i].kind);
    OwnerListed(inventory, listed[i].item, next);
    assert Attached(namespace, inventory, listed[i]);
    assert next.types == Some(TypeOf(parent));
    var place :| 0 <= place < |inventory| && inventory[place] == next;
    if place < |roots| {
      assert next == roots[place] && next == deployment;
      KindsDiffer(parent, MachineDeployment);
    } else {
      var j := place - |roots|;
      assert next == Items(listed)[j] == listed[j].item;
      assert Attached(namespace, inventory, listed[j]);
      KindsDiffer(parent, listed[j].kind);
    }
  }

  lemma OneStepLonger(inventory: seq<Object>, root: string, o: Object, next: Object, path: seq<Object>)
    requires HasUid(o) && Owns(inventory, o, next) && Leads(inventory, root, next, path)
    ensures Leads(inventory, root, o, [o] + path)
  {
    hide Owns;
    var longer := [o] + path;
    forall i | 0 <= i < |longer| - 1 ensures Owns(inventory, longer[i], longer[i + 1]) {
      assert i > 0 ==> Owns(inventory, path[i - 1], path[i]);
    }
  }

  /** In a forest every descendant has its chain, level by level. */
  lemma {:induction false} ForestLeads(namespace: string, roots: seq<Object>, deployment: Object, listed: seq<Listed>,
                                       i: nat) returns (path: seq<Object>)
    requires Forest(namespace, roots, deployment, listed) && OneDeployment(roots, deployment)
    requires deployment.types == Some(TypeOf(MachineDeployment)) && i < |listed|
    ensures Leads(roots + Items(listed), deployment.uid.value, listed[i].item, path)
    decreases Level(listed[i].kind)
  {
    hide Owns, Identified, OneDeployment;
    var inventory := roots + Items(listed);
    assert Attached(namespace, inventory, listed[i]);
    var next :| Owns(inventory, listed[i].item, next);
    AttachedAbove(namespace, roots, deployment, listed, i, next);
    assert inventory[|roots| + i] == listed[i].item;
    if Level(listed[i].kind) == 1 {
      path := [deployment];
    } else {
      var j :| 0 <= j < |listed| && listed[j].item == next && listed[j].kind == ParentKind(listed[i].kind);
      path := ForestLeads(namespace, roots, deployment, listed, j);
    }
    OneStepLonger(inventory, deployment.uid.value, listed[i].item, next, path);
    path := [listed[i].item] + path;
  }

  lemma DistinctlyMeansUnique(inventory: seq<Object>, start: Object)
    requires Distinctly(inventory) && start in inventory
    ensures UniqueUids([start] + inventory)
  {
  }

  /**
   * The inventory check accepts exactly the forests: identifiers are distinct, and every descendant has its
   * identity, its markers and one live listed owner. That the chains reach the deployment follows.
   */
  lemma AcceptsIffForest(namespace: string, roots: seq<Object>, deployment: Object, listed: seq<Listed>)
    requires OneDeployment(roots, deployment) && deployment.types == Some(TypeOf(MachineDeployment))
    requires HasUid(deployment)
    ensures Accepts(namespace, roots, Some(deployment), listed) <==> Forest(namespace, roots, deployment, listed)
  {
    hide Owns, Identified, OneDeployment, Distinctly;
    var inventory := roots + Items(listed);
    if Accepts(namespace, roots, Some(deployment), listed) {
      forall i | 0 <= i < |listed| ensures Attached(namespace, inventory, listed[i]) {
        assert Descends(namespace, inventory, Some(deployment), listed[i]);
        var path :| LeadsPlainly(inventory, deployment.uid.value, listed[i].item, path);
        NotTheRoot(namespace, roots, deployment, listed, i);
        assert |path| > 1 && Owns(inventory, path[0], path[1]);
      }
    }
    if Forest(namespace, roots, deployment, listed) {
      forall i | 0 <= i < |listed| ensures Descends(namespace, inventory, Some(deployment), listed[i]) {
        assert Attached(namespace, inventory, listed[i]);
        var path := ForestLeads(namespace, roots, deployment, listed, i);
        assert inventory[|roots| + i] == listed[i].item;
        DistinctlyMeansUnique(inventory, listed[i].item);
        UniqueUidsSuffice(inventory, deployment.uid.value, listed[i].item);
      }
    }
  }

  lemma ProviderVersion()
    ensures ValidApiVersion("cluster.x-k8s.io/v1beta2")
  {
    hide *;
    ApiVersionMeaning("cluster.x-k8s.io/v1beta2");
    SplitVersion();
  }

  lemma SplitVersion()
    ensures GroupAndVersion("cluster.x-k8s.io/v1beta2", "cluster.x-k8s.io", "v1beta2")
  {
  }

  lemma OwnedByOne(deployment: Object, item: Object, owner: OwnerReference)
    requires item.owners == [owner] && owner.uid != "" && deployment.uid == Some(owner.uid)
    requires ValidApiVersion(owner.apiVersion) && Named(deployment, item.namespace, owner)
    requires !Named(item, item.namespace, owner)
    ensures Owns([deployment, item], item, deployment)
  {
    assert Sole([deployment, item], item.namespace, owner, 0);
  }

  lemma KindsSpelled()
    ensures TypeOf(MachineDeployment) == Types("cluster.x-k8s.io/v1beta2", "MachineDeployment")
    ensures TypeOf(MachineSet) == Types("cluster.x-k8s.io/v1beta2", "MachineSet")
    ensures TypeOf(Machine) == Types("cluster.x-k8s.io/v1beta2", "Machine")
    ensures TypeOf(DevMachine) == Types("infrastructure.cluster.x-k8s.io/v1beta2", "DevMachine")
    ensures TypeOf(KubeadmConfig) == Types("bootstrap.cluster.x-k8s.io/v1beta2", "KubeadmConfig")
    ensures "MachineSet" != "MachineDeployment"
  {
    assert |"MachineSet"| != |"MachineDeployment"|;
  }

  /** A MachineSet of the deployment, both spelled out, is accepted whatever their names and UIDs. */
  lemma MachineSetAccepted(namespace: string, name: string, uid: string, child: string, childUid: string)
    requires child != "" && uid != "" && childUid != "" && uid != childUid
    ensures var version := "cluster.x-k8s.io/v1beta2";
            var deployment := Object(Some(uid), Some(name), Some(namespace),
                                     Some(Types(version, "MachineDeployment")), []);
            var owner := OwnerReference(version, "MachineDeployment", name, uid);
            var item := Object(Some(childUid), Some(child), Some(namespace), Some(Types(version, "MachineSet")),
                               [owner]);
            Accepts(namespace, [deployment], Some(deployment), [Listed(MachineSet, item, false)])
  {
    KindsSpelled();
    ProviderVersion();
    hide KindName, Api, Owns, Attached, ValidApiVersion, Accepts;
    var above, below := TypeOf(MachineDeployment), TypeOf(MachineSet);
    var deployment := Object(Some(uid), Some(name), Some(namespace), Some(above), []);
    var owner := OwnerReference(above.apiVersion, above.kind, name, uid);
    var item := Object(Some(childUid), Some(child), Some(namespace), Some(below), [owner]);
    var listed := [Listed(MachineSet, item, false)];
    assert [deployment] + Items(listed) == [deployment, item];
    OwnedByOne(deployment, item, owner);
    AttachedByOne(namespace, deployment, listed[0]);
    OneOfAKind(deployment);
    AcceptsIffForest(namespace, [deployment], deployment, listed);
  }

  lemma OneOfAKind(deployment: Object)
    ensures OneDeployment([deployment], deployment)
  {
  }

  lemma AttachedByOne(namespace: string, deployment: Object, listed: Listed)
    requires Owns([deployment, listed.item], listed.item, deployment) && Identified(namespace, listed.kind, listed.item)
    requires listed.kind == MachineSet
    ensures Attached(namespace, [deployment, listed.item], listed)
  {
  }

  lemma NotTheRoot(namespace: string, roots: seq<Object>, deployment: Object, listed: seq<Listed>, i: nat)
    requires Accepts(namespace, roots, Some(deployment), listed) && OneDeployment(roots, deployment) && i < |listed|
    ensures listed[i].item.uid != deployment.uid
  {
    var inventory := roots + Items(listed);
    var place :| 0 <= place < |roots| && roots[place] == deployment;
    assert inventory[place] == deployment && inventory[|roots| + i] == listed[i].item;
  }
}
