/**
 * database-controller/src/local_path.rs on a file tree nobody else changes. A chain of open
 * directories is represented by the absolute path it spells; the chain of the path p has |p| + 1
 * nodes, the first being the file system root.
 */
module LocalPath {
  import opened Base
  import Catalog

  type Path = seq<string>

  datatype Owner = Controller | Postgres | Foreign

  /** What is stored at a path; `Other` is a symlink, device, socket or pipe. */
  datatype Entry = Dir(owner: Owner, mode: nat, stamped: bool) | File | Other

  /** `Stopped` is not the source's: the process ended before its next write. */
  datatype PathError = InvalidInput | MissingRoot | MissingPath | UnsafeEntry | Stopped

  type Tree = map<Path, Entry>

  const CHAIN_LIMIT := 256
  const PRIVATE_MODE := 448  // 0o700
  const SHARED_MODE := 457   // 0o711

  predicate Below(p: Path, q: Path) {
    |p| < |q| && q[..|p|] == p
  }

  function Subtree(fs: Tree, p: Path): set<Path> {
    set q | q in fs && Below(p, q)
  }

  function Parent(q: Path): Path
    requires q != []
  {
    q[..|q| - 1]
  }

  predicate IsDir(fs: Tree, p: Path) {
    p == [] || (p in fs && fs[p].Dir?)
  }

  /** Every entry sits in a directory; the file system root itself is not an entry. */
  ghost predicate WellFormed(fs: Tree) {
    [] !in fs && forall q :: q in fs ==> IsDir(fs, Parent(q))
  }

  lemma {:induction false} AncestorIsDir(fs: Tree, q: Path, k: nat)
    requires WellFormed(fs) && q in fs && k < |q|
    ensures IsDir(fs, q[..k])
    decreases |q| - k
  {
    if k < |q| - 1 {
      AncestorIsDir(fs, q, k + 1);
      assert Parent(q[..k + 1]) == q[..k];
    }
  }

  function ModeAt(depth: nat): nat {
    if depth == 4 then PRIVATE_MODE else SHARED_MODE
  }

  function OwnerAt(depth: nat): Owner {
    if depth == 4 then Postgres else Controller
  }

  /** A directory the controller accepts at this depth: right owner, right mode, and stamped from depth 2. */
  predicate Owned(e: Entry, depth: nat) {
    e.Dir? && e.owner == OwnerAt(depth) && e.mode == ModeAt(depth) && (depth >= 2 ==> e.stamped)
  }

  /** Room for one more directory on the chain. */
  predicate Opens(p: Path) {
    |p| + 1 < CHAIN_LIMIT
  }

  predicate Fine(fs: Tree, q: Path) {
    q in fs && (fs[q].File? || (fs[q].Dir? && |q| < CHAIN_LIMIT))
  }

  /** Below `p` there are only regular files and directories, none too deep to open. */
  ghost predicate Clean(fs: Tree, p: Path) {
    forall q :: q in fs && Below(p, q) ==> Fine(fs, q)
  }

  lemma CleanMeaning(fs: Tree, p: Path)
    ensures Clean(fs, p) <==> forall q :: q in fs && Below(p, q) ==> fs[q].File? || (fs[q].Dir? && |q| < 256)
  {
    assert forall q :: q in fs ==> (Fine(fs, q) <==> fs[q].File? || (fs[q].Dir? && |q| < 256));
  }

  function OrdinalText(ordinal: int): string {
    if ordinal == 1 then "1" else if ordinal == 2 then "2" else "3"
  }

  predicate ValidNames(catalog: string, logical: string, ordinal: int) {
    Catalog.ValidLogicalUid(catalog) && Catalog.ValidLogicalUid(logical) && 1 <= ordinal <= 3
  }

  function Names(catalog: string, logical: string, ordinal: int): (names: Path)
    ensures |names| == 5
  {
    ["volumes", "cnpg", catalog, logical, OrdinalText(ordinal)]
  }

  /** A UID that is no lowercase UUID, an ordinal other than one to three, or a root not spelled as a mountpoint. */
  predicate BadInput(root: Path, catalog: string, logical: string, ordinal: int) {
    || !Catalog.ValidLogicalUid(catalog) || !Catalog.ValidLogicalUid(logical) || ordinal < 1 || ordinal > 3
    || root == [] || exists i :: 0 <= i < |root| && root[i] in {"", ".", ".."}
  }

  /** Where an ordinal lives, spelled out. */
  function Target(root: Path, catalog: string, logical: string, ordinal: int): Path
    requires 1 <= ordinal <= 3
  {
    root + ["volumes", "cnpg", catalog, logical, ["123"[ordinal - 1]]]
  }

  lemma NamesSpelled(root: Path, catalog: string, logical: string, ordinal: int, i: nat)
    requires 1 <= ordinal <= 3 && i < 5
    ensures Component(root, Names(catalog, logical, ordinal), i)
            == Target(root, catalog, logical, ordinal)[..|root| + i + 1]
    ensures |Target(root, catalog, logical, ordinal)| == |root| + 5
  {
    assert ["123"[0]] == "1" && ["123"[1]] == "2" && ["123"[2]] == "3";
    assert root + Names(catalog, logical, ordinal) == Target(root, catalog, logical, ordinal);
    assert (root + Names(catalog, logical, ordinal))[..|root| + i + 1]
        == root + Names(catalog, logical, ordinal)[..i + 1];
  }

  /** Two ordinals in the same place are the same ordinal of the same entry of the same catalog. */
  lemma TargetIdentifies(root: Path, catalog: string, logical: string, ordinal: int, c: string, l: string, o: int)
    requires 1 <= ordinal <= 3 && 1 <= o <= 3
    requires Target(root, catalog, logical, ordinal) == Target(root, c, l, o)
    ensures catalog == c && logical == l && ordinal == o
  {
    var a, b := Target(root, catalog, logical, ordinal), Target(root, c, l, o);
    assert a[|root| + 2] == catalog && a[|root| + 3] == logical && b[|root| + 2] == c && b[|root| + 3] == l;
    assert a[|root| + 4][0] == "123"[ordinal - 1] && b[|root| + 4][0] == "123"[o - 1];
    assert "123"[0] == '1' && "123"[1] == '2' && "123"[2] == '3';
  }

  /**
   * Nothing is changed or added. All that may be missing lies at or below the ordinal, or is its logical or its
   * catalog directory, and then nothing else was left below that.
   */
  ghost predicate KeepsOthers(before: Tree, after: Tree, root: Path, catalog: string, logical: string, ordinal: int)
    requires 1 <= ordinal <= 3
  {
    var target := Target(root, catalog, logical, ordinal);
    && (forall q :: q in after ==> q in before && after[q] == before[q])
    && (forall q :: q in before && !(target <= q) && q != target[..|root| + 4] && q != target[..|root| + 3] ==>
          q in after)
    && forall p, q :: p in before && p !in after && q in after ==> !(p <= q)
  }

  /** Whatever lies at or below another ordinal, another logical UID or another catalog stays as it was. */
  lemma OthersStay(before: Tree, after: Tree, root: Path, catalog: string, logical: string, ordinal: int,
                   c: string, l: string, o: int, q: Path)
    requires 1 <= ordinal <= 3 && KeepsOthers(before, after, root, catalog, logical, ordinal) && q in before
    requires || (1 <= o <= 3 && (c != catalog || l != logical || o != ordinal) && Target(root, c, l, o) <= q)
             || ((c != catalog || l != logical) && root + ["volumes", "cnpg", c, l] <= q)
             || (c != catalog && root + ["volumes", "cnpg", c] <= q)
    ensures q in after && after[q] == before[q]
  {
    var target := Target(root, catalog, logical, ordinal);
    var prefix := target[..|root| + 4];
    assert target[|root| + 2] == prefix[|root| + 2] == target[..|root| + 3][|root| + 2] == catalog;
    assert target[|root| + 3] == prefix[|root| + 3] == logical;
    if 1 <= o <= 3 && (c != catalog || l != logical || o != ordinal) && Target(root, c, l, o) <= q {
      if target <= q {
        assert target == q[..|root| + 5] == Target(root, c, l, o);
        TargetIdentifies(root, catalog, logical, ordinal, c, l, o);
      }
    } else if (c != catalog || l != logical) && root + ["volumes", "cnpg", c, l] <= q {
      assert q[|root| + 2] == c && q[|root| + 3] == l;
    } else {
      assert q[|root| + 2] == c;
    }
  }

  // ---- pieces of the tree below a directory ------------------------------------------------

  function Children(fs: Tree, p: Path): set<string> {
    set q | q in fs && |q| == |p| + 1 && q[..|p|] == p :: q[|p|]
  }

  lemma ChildrenMeaning(fs: Tree, p: Path, name: string)
    ensures name in Children(fs, p) <==> p + [name] in fs
  {
    if name in Children(fs, p) {
      var q :| q in fs && |q| == |p| + 1 && q[..|p|] == p && q[|p|] == name;
      assert q == p + [name];
    }
    if p + [name] in fs {
      assert (p + [name])[..|p|] == p && (p + [name])[|p|] == name;
    }
  }

  /** What lies below `p` is a child or lies below the child that starts its name. */
  lemma BelowChild(fs: Tree, p: Path, q: Path)
    requires WellFormed(fs) && q in fs && Below(p, q)
    ensures q[|p|] in Children(fs, p)
    ensures q == p + [q[|p|]] || (Below(p + [q[|p|]], q) && IsDir(fs, p + [q[|p|]]))
  {
    var child := q[..|p| + 1];
    assert child == p + [q[|p|]];
    if |q| > |p| + 1 {
      AncestorIsDir(fs, q, |p| + 1);
    }
    ChildrenMeaning(fs, p, q[|p|]);
  }

  ghost predicate ChildClean(fs: Tree, p: Path, name: string) {
    Fine(fs, p + [name]) && (fs[p + [name]].Dir? ==> Clean(fs, p + [name]))
  }

  lemma CleanByChildren(fs: Tree, p: Path)
    requires WellFormed(fs)
    ensures Clean(fs, p) <==> forall name :: name in Children(fs, p) ==> ChildClean(fs, p, name)
  {
    if Clean(fs, p) {
      forall name | name in Children(fs, p) ensures ChildClean(fs, p, name) {
        ChildrenMeaning(fs, p, name);
        assert Below(p, p + [name]);
        forall q | q in fs && Below(p + [name], q) ensures Fine(fs, q) {
          assert q[..|p|] == q[..|p| + 1][..|p|];
        }
      }
    }
    if forall name :: name in Children(fs, p) ==> ChildClean(fs, p, name) {
      forall q | q in fs && Below(p, q) ensures Fine(fs, q) {
        BelowChild(fs, p, q);
        assert ChildClean(fs, p, q[|p|]);
      }
    }
  }

  // ---- deleting below a directory ----------------------------------------------------------

  /** What lies below the children of `p` that are no longer in `todo`. */
  function Part(fs: Tree, p: Path, todo: set<string>): set<Path> {
    set q | q in fs && Below(p, q) && q[|p|] !in todo
  }

  lemma PartStarts(fs: Tree, p: Path)
    requires WellFormed(fs)
    ensures Part(fs, p, Children(fs, p)) == {} && Part(fs, p, {}) == Subtree(fs, p)
  {
    forall q | q in fs && Below(p, q) ensures q[|p|] in Children(fs, p) {
      BelowChild(fs, p, q);
    }
  }

  lemma PartGrows(fs: Tree, p: Path, todo: set<string>, name: string)
    requires name in todo && p + [name] in fs
    ensures Part(fs, p, todo - {name}) == Part(fs, p, todo) + Subtree(fs, p + [name]) + {p + [name]}
  {
    forall q | q in fs ensures Below(p, q) && q[|p|] == name <==> q == p + [name] || Below(p + [name], q) {
      if Below(p, q) && q[|p|] == name {
        assert q[..|p| + 1] == p + [name];
        assert |q| == |p| + 1 ==> q == q[..|p| + 1];
      }
      if Below(p + [name], q) {
        assert q[..|p|] == q[..|p| + 1][..|p|] && q[|p|] == q[..|p| + 1][|p|];
      }
    }
  }

  /** Other children's entries are not below this one. */
  lemma PartKeepsOthers(fs: Tree, p: Path, todo: set<string>, name: string)
    requires name in todo && p + [name] in fs
    ensures Subtree(fs - Part(fs, p, todo), p + [name]) == Subtree(fs, p + [name])
    ensures p + [name] in fs - Part(fs, p, todo)
  {
    forall q | q in fs && Below(p + [name], q) ensures q !in Part(fs, p, todo) {
      assert q[|p|] == q[..|p| + 1][|p|];
    }
  }

  lemma BelowParent(p: Path, q: Path)
    requires q != []
    ensures Below(p, Parent(q)) ==> Below(p, q)
  {
    if Below(p, Parent(q)) {
      assert q[..|p|] == Parent(q)[..|p|];
    }
  }

  lemma TrimKeepsForm(fs: Tree, p: Path)
    requires WellFormed(fs)
    ensures WellFormed(fs - Subtree(fs, p)) && Subtree(fs - Subtree(fs, p), p) == {}
    ensures Subtree(fs, p) == {} && p in fs ==> WellFormed(fs - {p})
  {
    var less := fs - Subtree(fs, p);
    forall q | q in less ensures IsDir(less, Parent(q)) {
      assert IsDir(fs, Parent(q));
      BelowParent(p, q);
    }
    if Subtree(fs, p) == {} && p in fs {
      forall q | q in fs - {p} ensures IsDir(fs - {p}, Parent(q)) {
        assert IsDir(fs, Parent(q));
        assert Parent(q) == p ==> q in Subtree(fs, p);
      }
    }
  }

  /** `after` lacks some of what lies below `p` in `before`, and nothing else. */
  ghost predicate OnlyBelow(before: Tree, after: Tree, p: Path) {
    && (forall q :: q in after ==> q in before && after[q] == before[q])
    && forall q :: q in before && !Below(p, q) ==> q in after
  }

  lemma PartBelow(fs: Tree, p: Path, todo: set<string>)
    ensures OnlyBelow(fs, fs - Part(fs, p, todo), p)
  {
  }

  lemma SubtreeBelow(fs: Tree, p: Path)
    ensures OnlyBelow(fs, fs - Subtree(fs, p), p)
  {
  }

  lemma BelowTwice(a: Tree, b: Tree, c: Tree, p: Path, name: string)
    requires OnlyBelow(a, b, p) && OnlyBelow(b, c, p + [name])
    ensures OnlyBelow(a, c, p)
  {
    forall q | q in a && !Below(p, q) ensures q in c {
      BelowFirst(p, name, q);
    }
  }

  lemma BelowFirst(p: Path, name: string, q: Path)
    ensures Below(p + [name], q) ==> Below(p, q)
  {
    if Below(p + [name], q) {
      assert q[..|p|] == q[..|p| + 1][..|p|];
    }
  }

  /** A child's tree is as clean as it was when only other children's entries are gone. */
  lemma SameClean(whole: Tree, less: Tree, p: Path, name: string)
    requires OnlyBelow(whole, less, p) && p + [name] in less
    requires Subtree(less, p + [name]) == Subtree(whole, p + [name])
    ensures p + [name] in whole && less[p + [name]] == whole[p + [name]]
    ensures Clean(less, p + [name]) <==> Clean(whole, p + [name])
    ensures ChildClean(whole, p, name) <==>
              var e := less[p + [name]];
              e.File? || (e.Dir? && |p| + 1 < CHAIN_LIMIT && Clean(less, p + [name]))
  {
    var child := p + [name];
    forall q | Below(child, q) ensures q in less <==> q in whole {
      assert q in Subtree(less, child) <==> q in less;
      assert q in Subtree(whole, child) <==> q in whole;
    }
    assert forall q :: q in less && Below(child, q) ==> (Fine(less, q) <==> Fine(whole, q));
  }

  // ---- the five components -----------------------------------------------------------------

  function Component(root: Path, names: Path, i: nat): Path
    requires i < |names|
  {
    root + names[..i + 1]
  }

  /** One component exists, is the controller's, and fits on the chain. */
  predicate Stands(fs: Tree, root: Path, names: Path, i: nat)
    requires i < |names|
  {
    |root| + i + 1 < CHAIN_LIMIT && Component(root, names, i) in fs && Owned(fs[Component(root, names, i)], i)
  }

  ghost predicate Reached(fs: Tree, root: Path, names: Path, n: nat)
    requires n <= |names|
  {
    forall i :: 0 <= i < n ==> Stands(fs, root, names, i)
  }

  /** Canonical spelling of an absolute path: no empty and no dot components. */
  predicate Plain(root: Path) {
    forall i :: 0 <= i < |root| ==> root[i] != "" && root[i] != "." && root[i] != ".."
  }

  /** The volume root is a mountpoint, spelled canonically and reached through directories only. */
  ghost predicate RootReached(fs: Tree, root: Path) {
    root != [] && Plain(root) && |root| < CHAIN_LIMIT && forall k :: 0 < k <= |root| ==> IsDir(fs, root[..k])
  }

  /** The walk over the first `limit` components stops at a missing one. */
  ghost predicate MissingWithin(fs: Tree, root: Path, names: Path, limit: nat)
    requires limit <= |names|
  {
    exists i :: 0 <= i < limit && Reached(fs, root, names, i) && Component(root, names, i) !in fs
  }

  /** A walk that stops at component `i` neither reaches further nor misses an earlier one. */
  lemma WalkStops(fs: Tree, root: Path, names: Path, i: nat, limit: nat)
    requires i < limit <= |names| && Reached(fs, root, names, i) && !Stands(fs, root, names, i)
    ensures !Reached(fs, root, names, limit)
    ensures MissingWithin(fs, root, names, limit) <==> Component(root, names, i) !in fs
  {
    forall j | i < j <= limit ensures !Reached(fs, root, names, j) {
      assert !Stands(fs, root, names, i);
    }
    forall j | 0 <= j < i ensures Component(root, names, j) in fs {
      assert Stands(fs, root, names, j);
    }
  }

  lemma WalkArrives(fs: Tree, root: Path, names: Path, limit: nat)
    requires limit <= |names| && Reached(fs, root, names, limit)
    ensures !MissingWithin(fs, root, names, limit)
  {
    forall j | 0 <= j < limit ensures Component(root, names, j) in fs {
      assert Stands(fs, root, names, j);
    }
  }

  function Made(depth: nat): Entry {
    Dir(OwnerAt(depth), ModeAt(depth), depth >= 2)
  }

  /** The writes that make one component: mkdirat, fchmod, from depth 2 the stamp, at depth 4 the change of owner. */
  function Needed(depth: nat): nat {
    if depth < 2 then 2 else if depth < 4 then 3 else 4
  }

  /** The component after `n` of these writes; `raw` is the mode that mkdirat leaves of the one asked for. */
  function After(depth: nat, raw: nat -> nat, n: nat): Entry {
    Dir(if depth == 4 && n >= 4 then Postgres else Controller,
        if n >= 2 then ModeAt(depth) else raw(ModeAt(depth)), depth >= 2 && n >= 3)
  }

  /** The tree with every missing one of the first `n` components made. */
  function Prepared(fs: Tree, root: Path, names: Path, n: nat): Tree
    requires n <= |names|
  {
    if n == 0 then fs
    else
      var before, p := Prepared(fs, root, names, n - 1), Component(root, names, n - 1);
      if p in before then before else before[p := Made(n - 1)]
  }

  lemma {:induction false} PreparedKeeps(fs: Tree, root: Path, names: Path, m: nat, n: nat)
    requires m <= n <= |names|
    ensures forall q :: q in Prepared(fs, root, names, m) ==>
              q in Prepared(fs, root, names, n) && Prepared(fs, root, names, n)[q] == Prepared(fs, root, names, m)[q]
    decreases n
  {
    if m < n {
      PreparedKeeps(fs, root, names, m, n - 1);
    }
  }

  lemma {:induction false} PreparedNothing(fs: Tree, root: Path, names: Path, n: nat)
    requires n <= |names|
    ensures Reached(fs, root, names, n) ==> Prepared(fs, root, names, n) == fs
    decreases n
  {
    if n > 0 && Reached(fs, root, names, n) {
      PreparedNothing(fs, root, names, n - 1);
      assert Stands(fs, root, names, n - 1);
    }
  }

  lemma StillReached(before: Tree, after: Tree, root: Path, names: Path, n: nat)
    requires n <= |names| && Reached(before, root, names, n)
    requires forall q :: q in before ==> q in after && after[q] == before[q]
    ensures Reached(after, root, names, n)
  {
    forall i | 0 <= i < n ensures Stands(after, root, names, i) {
      assert Stands(before, root, names, i);
    }
  }

  /** What a caller can see beforehand: every existing component is the controller's, and all five fit on the chain. */
  ghost predicate Preparable(fs: Tree, root: Path, names: Path) {
    forall i :: 0 <= i < |names| ==> Acceptable(fs, root, names, i)
  }

  predicate Acceptable(fs: Tree, root: Path, names: Path, i: nat)
    requires i < |names|
  {
    |root| + i + 1 < CHAIN_LIMIT && (Component(root, names, i) in fs ==> Owned(fs[Component(root, names, i)], i))
  }

  /** One component of the prepared tree: as it was, or made where it was missing. */
  lemma {:induction false} PreparedEntry(fs: Tree, root: Path, names: Path, n: nat, i: nat)
    requires n <= |names| && i < |names|
    ensures var p, made := Component(root, names, i), Prepared(fs, root, names, n);
            && (p in made <==> p in fs || i < n)
            && (p in made ==> made[p] == if p in fs then fs[p] else Made(i))
    decreases n
  {
    if n > 0 {
      PreparedEntry(fs, root, names, n - 1, i);
      PreparedEntry(fs, root, names, n - 1, n - 1);
      if i != n - 1 {
        assert |Component(root, names, i)| != |Component(root, names, n - 1)|;
      }
      hide Component, Made;
    }
  }

  /** Making the missing components succeeds exactly when the ones that exist are acceptable. */
  lemma PreparedIff(fs: Tree, root: Path, names: Path)
    requires |names| == 5
    ensures Reached(Prepared(fs, root, names, 5), root, names, 5) <==> Preparable(fs, root, names)
  {
    hide Component, Prepared;
    forall i | 0 <= i < 5
      ensures Stands(Prepared(fs, root, names, 5), root, names, i) <==> Acceptable(fs, root, names, i)
    {
      PreparedEntry(fs, root, names, 5, i);
    }
    assert forall i :: 0 <= i < 5 && Acceptable(fs, root, names, i) ==>
      Stands(Prepared(fs, root, names, 5), root, names, i);
  }

  /** The process ended with `w` of the writes of component `i` made, all earlier components standing. */
  ghost predicate StoppedAt(fs: Tree, after: Tree, root: Path, names: Path, raw: nat -> nat, i: nat, w: nat)
    requires |names| == 5
  {
    && i < 5 && w < Needed(i) && Reached(Prepared(fs, root, names, i), root, names, i)
    && Component(root, names, i) !in Prepared(fs, root, names, i) && (w > 0 ==> |root| + i + 1 < CHAIN_LIMIT)
    && after == if w == 0 then Prepared(fs, root, names, i)
                else Prepared(fs, root, names, i)[Component(root, names, i) := After(i, raw, w)]
  }

  ghost predicate StoppedIn(fs: Tree, after: Tree, root: Path, names: Path, raw: nat -> nat)
    requires |names| == 5
  {
    exists i: nat, w: nat :: StoppedAt(fs, after, root, names, raw, i, w)
  }

  function Spent(n: nat): nat {
    if n == 0 then 0 else Spent(n - 1) + Needed(n - 1)
  }

  lemma SpentAll(n: nat)
    requires n < 5
    ensures Spent(n + 1) == Spent(n) + Needed(n) <= 14
  {
    assert Spent(1) == 2 && Spent(2) == 4 && Spent(3) == 7 && Spent(4) == 10 && Spent(5) == 14;
  }

  lemma NothingPrepared(fs: Tree, root: Path, names: Path)
    ensures Prepared(fs, root, names, 0) == fs && Reached(fs, root, names, 0)
  {
  }

  /** What the next component's state decides. */
  lemma PreparedNext(fs: Tree, root: Path, names: Path, i: nat)
    requires |names| == 5 && i < 5 && Reached(Prepared(fs, root, names, i), root, names, i)
    ensures var p := Component(root, names, i);
            var before, after := Prepared(fs, root, names, i), Prepared(fs, root, names, i + 1);
            && after == (if p in before then before else before[p := Made(i)])
            && ((|root| + i + 1 < CHAIN_LIMIT && (p in before ==> Owned(before[p], i))) ==>
                Reached(after, root, names, i + 1))
            && (!(|root| + i + 1 < CHAIN_LIMIT && (p in before ==> Owned(before[p], i))) ==>
                !Preparable(fs, root, names))
  {
    var p, before, after := Component(root, names, i), Prepared(fs, root, names, i), Prepared(fs, root, names, i + 1);
    PreparedEntry(fs, root, names, i, i);
    hide Component;
    if |root| + i + 1 < CHAIN_LIMIT && (p in before ==> Owned(before[p], i)) {
      StillReached(before, after, root, names, i);
      assert Stands(after, root, names, i);
    } else {
      assert !Acceptable(fs, root, names, i);
    }
  }

  /** The ordinal and all below it, then each parent that nothing else is left in. */
  function Gone(fs: Tree, root: Path, names: Path): set<Path>
    requires |names| == 5
  {
    var ordinal, logical, catalog := Component(root, names, 4), Component(root, names, 3), Component(root, names, 2);
    var first := Subtree(fs, ordinal) + {ordinal};
    if !(Subtree(fs, logical) <= first) then first
    else
      var second := first + {logical};
      if Subtree(fs, catalog) <= second then second + {catalog} else second
  }

  /** The three directories above each other. */
  lemma Components(fs: Tree, root: Path, names: Path)
    requires |names| == 5 && Reached(fs, root, names, 5)
    ensures var ordinal, logical := Component(root, names, 4), Component(root, names, 3);
            var catalog := Component(root, names, 2);
            && IsDir(fs, ordinal) && IsDir(fs, logical) && IsDir(fs, catalog)
            && |catalog| + 2 == |logical| + 1 == |ordinal| && catalog != []
            && ordinal in fs && logical in fs && catalog in fs
            && fs[ordinal].Dir? && fs[logical].Dir? && fs[catalog].Dir?
  {
    assert Stands(fs, root, names, 4) && Stands(fs, root, names, 3) && Stands(fs, root, names, 2);
  }

  lemma Apart(fs: Tree, a: set<Path>, b: set<Path>)
    ensures fs - a - b == fs - (a + b)
  {
  }

  lemma EmptyIff(fs: Tree, gone: set<Path>, p: Path)
    ensures Subtree(fs - gone, p) == {} <==> Subtree(fs, p) <= gone
  {
    assert forall q :: q in Subtree(fs - gone, p) <==> q in Subtree(fs, p) && q !in gone;
  }

  lemma NotBelowItself(fs: Tree, p: Path, q: Path)
    requires |q| <= |p|
    ensures q !in Subtree(fs, p)
  {
  }

  lemma FileHasNothingBelow(fs: Tree, p: Path)
    requires WellFormed(fs) && p in fs && !fs[p].Dir?
    ensures Subtree(fs, p) == {}
  {
    forall q | q in fs ensures !Below(p, q) {
      if Below(p, q) {
        AncestorIsDir(fs, q, |p|);
      }
    }
  }

  lemma ChildKept(fs: Tree, p: Path)
    requires p in fs
    ensures p in fs - Subtree(fs, p)
  {
  }

  /** The tree an uninterrupted removal leaves. */
  ghost function Removed(fs: Tree, root: Path, names: Path): Tree
    requires |names| == 5
  {
    if Reached(fs, root, names, 5) && Clean(fs, Component(root, names, 4)) then fs - Gone(fs, root, names) else fs
  }

  /** How far a removal had come: below the ordinal, past its rmdir, or past that of its logical directory. */
  datatype Stage = Deleting | OrdinalGone | LogicalGone

  ghost predicate StoppedRemoving(before: Tree, after: Tree, root: Path, names: Path, stage: Stage)
    requires |names| == 5
  {
    var ordinal, logical := Component(root, names, 4), Component(root, names, 3);
    var first := Subtree(before, ordinal) + {ordinal};
    match stage
    case Deleting => WellFormed(after) && OnlyBelow(before, after, ordinal)
    case OrdinalGone => after == before - first
    case LogicalGone => Subtree(before, logical) <= first && after == before - (first + {logical})
  }

  /** The parents stand, and the ordinal, if it is there, stands too and is clean. */
  ghost predicate Removable(fs: Tree, root: Path, catalog: string, logical: string, ordinal: int) {
    var names := Names(catalog, logical, ordinal);
    && ValidNames(catalog, logical, ordinal) && RootReached(fs, root) && Reached(fs, root, names, 4)
    && (Component(root, names, 4) in fs ==> Reached(fs, root, names, 5) && Clean(fs, Component(root, names, 4)))
  }

  lemma NothingAboveLeft(before: Tree, after: Tree, p: Path, q: Path)
    requires WellFormed(before) && WellFormed(after) && p in before && p !in after && q in after
    ensures !(p <= q)
  {
    if p <= q && p != q {
      assert q[..|p|] == p;
      AncestorIsDir(after, q, |p|);
    }
  }

  /** All that a removal takes away, finished or stopped anywhere. */
  lemma RemovalTakes(before: Tree, after: Tree, root: Path, names: Path)
    requires |names| == 5
    requires after == Removed(before, root, names) || exists stage :: StoppedRemoving(before, after, root, names, stage)
    ensures forall q :: q in after ==> q in before && after[q] == before[q]
    ensures forall q :: q in before && q !in after ==>
              || q == Component(root, names, 4) || Below(Component(root, names, 4), q)
              || q == Component(root, names, 3) || q == Component(root, names, 2)
  {
    hide Component, WellFormed, Reached, Clean, Below;
  }

  lemma PrefixMeansBelow(p: Path, q: Path)
    ensures p <= q <==> q == p || Below(p, q)
  {
  }

  /** Finished or stopped anywhere, a removal keeps to its own ordinal and the parents it empties. */
  lemma RemovalKeepsOthers(before: Tree, after: Tree, root: Path, catalog: string, logical: string, ordinal: int)
    requires WellFormed(before) && WellFormed(after) && 1 <= ordinal <= 3
    requires var names := Names(catalog, logical, ordinal);
             after == Removed(before, root, names) || exists stage :: StoppedRemoving(before, after, root, names, stage)
    ensures KeepsOthers(before, after, root, catalog, logical, ordinal)
  {
    hide Component, Names, Target, Below, Removed, StoppedRemoving, WellFormed;
    var names, target := Names(catalog, logical, ordinal), Target(root, catalog, logical, ordinal);
    RemovalTakes(before, after, root, names);
    NamesSpelled(root, catalog, logical, ordinal, 4);
    NamesSpelled(root, catalog, logical, ordinal, 3);
    NamesSpelled(root, catalog, logical, ordinal, 2);
    assert Component(root, names, 4) == target;
    KeptAround(before, after, target, target[..|root| + 4], target[..|root| + 3]);
    NothingAboveIsLeft(before, after);
  }

  lemma KeptAround(before: Tree, after: Tree, target: Path, logical: Path, catalog: Path)
    requires forall q :: q in before && q !in after ==>
               q == target || Below(target, q) || q == logical || q == catalog
    ensures forall q :: q in before && !(target <= q) && q != logical && q != catalog ==> q in after
  {
    hide Below;
    forall q | q in before && !(target <= q) && q != logical && q != catalog ensures q in after {
      PrefixMeansBelow(target, q);
    }
  }

  lemma NothingAboveIsLeft(before: Tree, after: Tree)
    requires WellFormed(before) && WellFormed(after)
    ensures forall p, q :: p in before && p !in after && q in after ==> !(p <= q)
  {
    hide WellFormed;
    forall p, q | p in before && p !in after && q in after ensures !(p <= q) {
      NothingAboveLeft(before, after, p, q);
    }
  }

  /** Nor does it take away what is neither a file nor a directory. */
  lemma RemovalSparesOthers(before: Tree, after: Tree, root: Path, catalog: string, logical: string, ordinal: int)
    requires WellFormed(before) && 1 <= ordinal <= 3 && Removable(before, root, catalog, logical, ordinal)
    requires var names := Names(catalog, logical, ordinal);
             || after == Removed(before, root, names)
             || (&& Component(root, names, 4) in before
                 && exists stage :: StoppedRemoving(before, after, root, names, stage))
    ensures forall q :: q in before && before[q].Other? ==> q in after
  {
    var names := Names(catalog, logical, ordinal);
    if Component(root, names, 4) in before {
      Components(before, root, names);
      RemovalTakes(before, after, root, names);
      hide Component, Names, Reached, Removed, StoppedRemoving, Below, WellFormed, ValidNames, RootReached;
      forall q | q in before && before[q].Other? ensures q in after {
        assert Below(Component(root, names, 4), q) ==> Fine(before, q);
      }
    } else {
      assert !Stands(before, root, names, 4);
      assert after == before;
    }
  }

  /** And a finished one leaves nothing of the ordinal. */
  lemma RemovalLeavesNothing(before: Tree, root: Path, catalog: string, logical: string, ordinal: int)
    requires WellFormed(before) && 1 <= ordinal <= 3
    requires var names := Names(catalog, logical, ordinal);
             Component(root, names, 4) in before ==>
               Reached(before, root, names, 5) && Clean(before, Component(root, names, 4))
    ensures forall q :: q in Removed(before, root, Names(catalog, logical, ordinal)) ==>
              !(Target(root, catalog, logical, ordinal) <= q)
  {
    var names, target := Names(catalog, logical, ordinal), Target(root, catalog, logical, ordinal);
    NamesSpelled(root, catalog, logical, ordinal, 4);
    assert Component(root, names, 4) == target;
    hide Names, Target, Component;
    forall q | q in Removed(before, root, names) ensures !(target <= q) {
      PrefixMeansBelow(target, q);
      if target !in before {
        if target <= q {
          NothingBelowMissing(before, target, q);
        }
        assert !Stands(before, root, names, 4);
      }
      hide Reached, Clean, WellFormed;
      assert q in before && Below(target, q) ==> q in Subtree(before, target);
    }
  }

  /** A walk that misses one of the first components finds nothing at or below the last of them. */
  lemma MissingMeansNothing(fs: Tree, root: Path, catalog: string, logical: string, ordinal: int, n: nat)
    requires WellFormed(fs) && 1 <= ordinal <= 3 && 0 < n <= 5
    requires MissingWithin(fs, root, Names(catalog, logical, ordinal), n)
    ensures forall q :: q in fs ==> !(Target(root, catalog, logical, ordinal)[..|root| + n] <= q)
  {
    var names, target := Names(catalog, logical, ordinal), Target(root, catalog, logical, ordinal);
    var i :| 0 <= i < n && Reached(fs, root, names, i) && Component(root, names, i) !in fs;
    NamesSpelled(root, catalog, logical, ordinal, i);
    var missing := target[..|root| + i + 1];
    forall q | q in fs ensures !(target[..|root| + n] <= q) {
      if target[..|root| + n] <= q {
        assert missing == target[..|root| + n][..|root| + i + 1];
        PrefixMeansBelow(missing, q);
        NothingBelowMissing(fs, missing, q);
      }
    }
  }

  /** Nothing that existed is changed, and all that is new is a directory on the way to the ordinal. */
  ghost predicate AddsOnlyTheWay(before: Tree, after: Tree, root: Path, catalog: string, logical: string, ordinal: int)
    requires 1 <= ordinal <= 3
  {
    && (forall q :: q in before ==> q in after && after[q] == before[q])
    && forall q :: q in after && q !in before ==> root < q <= Target(root, catalog, logical, ordinal) && after[q].Dir?
  }

  /** New paths are among the components. */
  ghost predicate AddsComponents(before: Tree, after: Tree, root: Path, names: Path) {
    && (forall q :: q in before ==> q in after && after[q] == before[q])
    && forall q :: q in after && q !in before ==>
         after[q].Dir? && exists i: nat :: i < |names| && q == Component(root, names, i)
  }

  lemma ComponentsAreTheWay(before: Tree, after: Tree, root: Path, catalog: string, logical: string, ordinal: int)
    requires 1 <= ordinal <= 3 && AddsComponents(before, after, root, Names(catalog, logical, ordinal))
    ensures AddsOnlyTheWay(before, after, root, catalog, logical, ordinal)
  {
    var names, target := Names(catalog, logical, ordinal), Target(root, catalog, logical, ordinal);
    forall q | q in after && q !in before ensures root < q <= target {
      var i: nat :| i < 5 && q == Component(root, names, i);
      NamesSpelled(root, catalog, logical, ordinal, i);
    }
  }

  /** The five directories as the source asks for them: the first four the controller's, the last PostgreSQL's. */
  ghost predicate Laid(fs: Tree, root: Path, catalog: string, logical: string, ordinal: int)
    requires 1 <= ordinal <= 3
  {
    var target := Target(root, catalog, logical, ordinal);
    |root| + 5 < 256 && forall i :: 0 <= i < 5 ==> LaidAt(fs, target, |root|, i)
  }

  predicate LaidAt(fs: Tree, target: Path, n: nat, i: nat)
    requires n + i < |target|
  {
    var p := target[..n + i + 1];
    && p in fs && fs[p].Dir? && (i >= 2 ==> fs[p].stamped)
    && fs[p].owner == (if i == 4 then Postgres else Controller) && fs[p].mode == if i == 4 then 448 else 457
  }

  lemma ReachedMeansLaid(fs: Tree, root: Path, catalog: string, logical: string, ordinal: int)
    requires 1 <= ordinal <= 3
    ensures Reached(fs, root, Names(catalog, logical, ordinal), 5) <==> Laid(fs, root, catalog, logical, ordinal)
  {
    var names, target := Names(catalog, logical, ordinal), Target(root, catalog, logical, ordinal);
    forall i | 0 <= i < 5 ensures Component(root, names, i) == target[..|root| + i + 1] {
      NamesSpelled(root, catalog, logical, ordinal, i);
    }
    hide Component, Names, Target;
    if Reached(fs, root, names, 5) {
      assert Stands(fs, root, names, 4);
      forall i | 0 <= i < 5 ensures LaidAt(fs, target, |root|, i) {
        assert Stands(fs, root, names, i);
      }
    }
    if Laid(fs, root, catalog, logical, ordinal) {
      forall i | 0 <= i < 5 ensures Stands(fs, root, names, i) {
        assert LaidAt(fs, target, |root|, i);
      }
    }
  }

  // ---- across calls ------------------------------------------------------------------------

  /** A component left half made is the controller's only near the root, and only if mkdirat gave it its mode. */
  lemma HalfMade(raw: nat -> nat, i: nat, w: nat)
    requires i < 5 && 0 < w < Needed(i)
    ensures Owned(After(i, raw, w), i) <==> i < 2 && raw(ModeAt(i)) == ModeAt(i)
  {
  }

  lemma StoppedEntry(fs: Tree, after: Tree, root: Path, names: Path, raw: nat -> nat, i: nat, w: nat, k: nat)
    requires |names| == 5 && Preparable(fs, root, names) && StoppedAt(fs, after, root, names, raw, i, w) && k < 5
    ensures k != i ==> Acceptable(after, root, names, k)
    ensures Acceptable(after, root, names, i) <==> w == 0 || Owned(After(i, raw, w), i)
  {
    PreparedEntry(fs, root, names, i, k);
    PreparedEntry(fs, root, names, i, i);
    if k != i {
      assert |Component(root, names, k)| != |Component(root, names, i)|;
    }
    hide Component, Prepared, After;
    assert Acceptable(fs, root, names, k) && Acceptable(fs, root, names, i);
  }

  lemma StandsMeans(fs: Tree, root: Path, names: Path, i: nat)
    requires i < |names|
    ensures Stands(fs, root, names, i) <==> Acceptable(fs, root, names, i) && Component(root, names, i) in fs
  {
  }

  /**
   * After a stop, running it again succeeds exactly when the component under way had not been made at all,
   * or is one of the first two and got its mode from mkdirat. Otherwise every walk to it is refused.
   */
  lemma RerunSucceedsIff(fs: Tree, after: Tree, root: Path, names: Path, raw: nat -> nat, i: nat, w: nat)
    requires |names| == 5 && Preparable(fs, root, names) && StoppedAt(fs, after, root, names, raw, i, w)
    ensures Preparable(after, root, names) <==> w == 0 || (i < 2 && raw(ModeAt(i)) == ModeAt(i))
    ensures !Preparable(after, root, names) ==>
              forall n :: i < n <= 5 ==> !Reached(after, root, names, n) && !MissingWithin(after, root, names, n)
  {
    if w > 0 {
      HalfMade(raw, i, w);
    }
    StoppedEntry(fs, after, root, names, raw, i, w, i);
    forall k | 0 <= k < 5 && k != i ensures Acceptable(after, root, names, k) {
      StoppedEntry(fs, after, root, names, raw, i, w, k);
    }
    hide Acceptable;
    assert Preparable(after, root, names) <==> Acceptable(after, root, names, i);
    if !Preparable(after, root, names) {
      var before := Prepared(fs, root, names, i);
      StillReached(before, after, root, names, i);
      StandsMeans(after, root, names, i);
      forall n | i < n <= 5 ensures !Reached(after, root, names, n) && !MissingWithin(after, root, names, n) {
        WalkStops(after, root, names, i, n);
      }
    }
  }

  /** Nothing else was there before exactly when nothing else is there now. */
  lemma NothingElse(before: Tree, after: Tree, ordinal: Path, p: Path, extra: set<Path>)
    requires OnlyBelow(before, after, ordinal)
    ensures Subtree(after, p) <= Subtree(after, ordinal) + extra
            <==> Subtree(before, p) <= Subtree(before, ordinal) + extra
  {
    hide Below;
    if Subtree(after, p) <= Subtree(after, ordinal) + extra {
      forall q | q in Subtree(before, p) ensures q in Subtree(before, ordinal) + extra {
        assert q in after ==> q in Subtree(after, p);
      }
    }
    if Subtree(before, p) <= Subtree(before, ordinal) + extra {
      forall q | q in Subtree(after, p) ensures q in Subtree(after, ordinal) + extra {
        assert q in Subtree(before, p);
      }
    }
  }

  lemma ShorterStays(before: Tree, after: Tree, root: Path, names: Path, n: nat)
    requires |names| == 5 && n <= 5 && Reached(before, root, names, n)
    requires OnlyBelow(before, after, Component(root, names, 4))
    ensures Reached(after, root, names, n)
  {
    forall i | 0 <= i < n ensures Stands(after, root, names, i) {
      assert Stands(before, root, names, i);
      assert !Below(Component(root, names, 4), Component(root, names, i));
    }
  }

  /** Stopped below the ordinal, the same is left to do. */
  lemma DeletingResumes(before: Tree, after: Tree, root: Path, names: Path)
    requires |names| == 5 && Reached(before, root, names, 5) && Clean(before, Component(root, names, 4))
    requires OnlyBelow(before, after, Component(root, names, 4))
    ensures Removed(after, root, names) == Removed(before, root, names)
  {
    var ordinal, logical, catalog := Component(root, names, 4), Component(root, names, 3), Component(root, names, 2);
    ShorterStays(before, after, root, names, 5);
    assert Clean(after, ordinal);
    NothingElse(before, after, ordinal, logical, {ordinal});
    NothingElse(before, after, ordinal, catalog, {ordinal} + {logical});
    hide Component, Reached, Clean;
    forall q ensures q in after - Gone(after, root, names) <==> q in before - Gone(before, root, names) {
      assert q in after && !Below(ordinal, q) <==> q in before && !Below(ordinal, q);
    }
  }

  /** Stopped after the ordinal was removed, a rerun finds nothing to do and leaves the parents. */
  lemma OrdinalGoneStays(before: Tree, after: Tree, root: Path, names: Path, stage: Stage)
    requires |names| == 5 && WellFormed(before) && Reached(before, root, names, 5)
    requires Clean(before, Component(root, names, 4))
    requires !stage.Deleting? && StoppedRemoving(before, after, root, names, stage)
    ensures Removed(after, root, names) == after
    ensures stage.OrdinalGone? ==> Reached(after, root, names, 4)
    ensures after == Removed(before, root, names) <==>
            if stage.OrdinalGone? then !(Subtree(before, Component(root, names, 3))
                                         <= Subtree(before, Component(root, names, 4)) + {Component(root, names, 4)})
            else !(Subtree(before, Component(root, names, 2))
                   <= Subtree(before, Component(root, names, 4))
                      + {Component(root, names, 4)} + {Component(root, names, 3)})
  {
    var ordinal, logical, catalog := Component(root, names, 4), Component(root, names, 3), Component(root, names, 2);
    Components(before, root, names);
    NotBelowItself(before, ordinal, logical);
    NotBelowItself(before, ordinal, catalog);
    assert ordinal !in after && !Stands(after, root, names, 4);
    if stage.OrdinalGone? {
      forall i | 0 <= i < 4 ensures Stands(after, root, names, i) {
        assert Stands(before, root, names, i);
        NotBelowItself(before, ordinal, Component(root, names, i));
      }
    }
    hide Component, Reached, Clean, Subtree;
    assert logical in before && catalog in before;
  }

  /**
   * After a stop, removing again reaches the tree an undisturbed removal would have left exactly when it stopped
   * before the ordinal was gone, or no parent was left to prune. An emptied logical directory stays, and with it
   * the entry is never reported absent.
   */
  lemma RemovalResumesIff(before: Tree, after: Tree, root: Path, names: Path, stage: Stage)
    requires |names| == 5 && WellFormed(before) && Reached(before, root, names, 5)
    requires Clean(before, Component(root, names, 4)) && StoppedRemoving(before, after, root, names, stage)
    ensures var ordinal, logical := Component(root, names, 4), Component(root, names, 3);
            var catalog := Component(root, names, 2);
            var first := Subtree(before, ordinal) + {ordinal};
            Removed(after, root, names) == Removed(before, root, names) <==>
              match stage
              case Deleting => true
              case OrdinalGone => !(Subtree(before, logical) <= first)
              case LogicalGone => !(Subtree(before, catalog) <= first + {logical})
    ensures stage.OrdinalGone? ==> Reached(after, root, names, 4) && !MissingWithin(after, root, names, 4)
  {
    hide Removed, Subtree, Reached, Clean, Component;
    if stage.Deleting? {
      DeletingResumes(before, after, root, names);
    } else {
      OrdinalGoneStays(before, after, root, names, stage);
      if stage.OrdinalGone? {
        WalkArrives(after, root, names, 4);
      }
    }
  }

  /** Removing the last ordinal leaves an entry that `entry_absent` reports as absent. */
  lemma LastOrdinalLeavesNothing(fs: Tree, root: Path, names: Path)
    requires |names| == 5 && Reached(fs, root, names, 5)
    requires Subtree(fs, Component(root, names, 3))
             <= Subtree(fs, Component(root, names, 4)) + {Component(root, names, 4)}
    ensures MissingWithin(fs - Gone(fs, root, names), root, names, 4)
  {
    var after := fs - Gone(fs, root, names);
    Components(fs, root, names);
    var i := if Component(root, names, 2) in after then 3 else 2;
    forall j | 0 <= j < i ensures Stands(after, root, names, j) {
      assert |Component(root, names, j)| <= |Component(root, names, 2)|;
      NotBelowItself(fs, Component(root, names, 4), Component(root, names, j));
      assert Stands(fs, root, names, j);
    }
    assert Reached(after, root, names, i);
  }

  lemma NothingBelowMissing(fs: Tree, p: Path, q: Path)
    requires WellFormed(fs) && p != [] && p !in fs && (q == p || Below(p, q))
    ensures q !in fs && Subtree(fs, q) == {}
  {
    forall x | x == q || Below(q, x) ensures x !in fs {
      if x in fs && |p| < |x| {
        assert x[..|p|] == if x == q then q[..|p|] else x[..|q|][..|p|];
        AncestorIsDir(fs, x, |p|);
      }
    }
  }

  /** The new catalog, logical and ordinal directories contain each other and nothing else. */
  lemma FreshSubtrees(fs: Tree, root: Path, names: Path, made: Tree)
    requires WellFormed(fs) && |names| == 5
    requires var ordinal, logical := Component(root, names, 4), Component(root, names, 3);
             var catalog := Component(root, names, 2);
             catalog !in fs && made == fs[catalog := Made(2)][logical := Made(3)][ordinal := Made(4)]
    ensures var ordinal, logical := Component(root, names, 4), Component(root, names, 3);
            var catalog := Component(root, names, 2);
            && logical !in fs && ordinal !in fs && Subtree(made, ordinal) == {}
            && Subtree(made, logical) == {ordinal} && Subtree(made, catalog) == {logical, ordinal}
  {
    var ordinal, logical, catalog := Component(root, names, 4), Component(root, names, 3), Component(root, names, 2);
    assert logical[..|catalog|] == catalog && ordinal[..|catalog|] == catalog && ordinal[..|logical|] == logical;
    NothingBelowMissing(fs, catalog, catalog);
    NothingBelowMissing(fs, catalog, logical);
    NothingBelowMissing(fs, catalog, ordinal);
    forall q | q in fs ensures !Below(catalog, q) && !Below(logical, q) && !Below(ordinal, q) {
      assert q !in Subtree(fs, catalog) && q !in Subtree(fs, logical) && q !in Subtree(fs, ordinal);
    }
  }

  /** Preparing a new catalog's first ordinal and removing it again gives back the same tree. */
  lemma PrepareThenRemove(fs: Tree, root: Path, names: Path)
    requires WellFormed(fs) && |names| == 5 && |root| + 5 < CHAIN_LIMIT
    requires Reached(fs, root, names, 2) && Component(root, names, 2) !in fs
    ensures var made := Prepared(fs, root, names, 5);
            && Reached(made, root, names, 5) && Clean(made, Component(root, names, 4))
            && made - Gone(made, root, names) == fs
  {
    var ordinal, logical, catalog := Component(root, names, 4), Component(root, names, 3), Component(root, names, 2);
    var made := fs[catalog := Made(2)][logical := Made(3)][ordinal := Made(4)];
    FreshSubtrees(fs, root, names, made);
    hide Subtree, Reached;
    PreparedFresh(fs, root, names);
    assert Gone(made, root, names) == {ordinal, logical, catalog};
    assert made - {ordinal, logical, catalog} == fs;
    NothingBelowIsClean(made, ordinal);
    FreshReached(fs, root, names);
  }

  lemma NothingBelowIsClean(fs: Tree, p: Path)
    requires Subtree(fs, p) == {}
    ensures Clean(fs, p)
  {
    assert forall q :: q in fs && Below(p, q) ==> q in Subtree(fs, p);
  }

  lemma PreparedFresh(fs: Tree, root: Path, names: Path)
    requires |names| == 5 && Reached(fs, root, names, 2)
    requires Component(root, names, 2) !in fs && Component(root, names, 3) !in fs && Component(root, names, 4) !in fs
    ensures Prepared(fs, root, names, 5)
            == fs[Component(root, names, 2) := Made(2)]
                 [Component(root, names, 3) := Made(3)]
                 [Component(root, names, 4) := Made(4)]
  {
    PreparedNothing(fs, root, names, 2);
    var three, four := Prepared(fs, root, names, 3), Prepared(fs, root, names, 4);
    assert three == fs[Component(root, names, 2) := Made(2)];
    assert |Component(root, names, 3)| != |Component(root, names, 2)|;
    assert four == three[Component(root, names, 3) := Made(3)];
    assert |Component(root, names, 4)| != |Component(root, names, 3)|;
  }

  lemma FreshReached(fs: Tree, root: Path, names: Path)
    requires |names| == 5 && |root| + 5 < CHAIN_LIMIT && Reached(fs, root, names, 2)
    requires Component(root, names, 2) !in fs && Component(root, names, 3) !in fs && Component(root, names, 4) !in fs
    ensures Reached(Prepared(fs, root, names, 5), root, names, 5)
  {
    PreparedFresh(fs, root, names);
    var made := Prepared(fs, root, names, 5);
    PreparedKeeps(fs, root, names, 0, 5);
    StillReached(fs, made, root, names, 2);
    assert |Component(root, names, 2)| < |Component(root, names, 3)| < |Component(root, names, 4)|;
    forall i | 2 <= i < 5 ensures Stands(made, root, names, i) {
      assert i == 2 || i == 3 || i == 4;
      assert made[Component(root, names, i)] == Made(i);
    }
  }

  /** How many paths there are. */
  function Paths(fs: Tree): nat {
    |fs|
  }

  lemma OneLess(fs: Tree, p: Path)
    requires p in fs
    ensures Paths(fs - {p}) == Paths(fs) - 1
  {
    assert fs == (fs - {p})[p := fs[p]];
  }

  /** Every write takes one path away; a stop comes when the writes are used up. */
  ghost predicate Counted(before: Tree, after: Tree, writes: Option<nat>, stopped: bool) {
    writes.Some? ==>
      && Paths(before) - Paths(after) <= writes.value
      && (stopped ==> Paths(before) - Paths(after) == writes.value)
  }

  ghost predicate RemovalOutcome(before: Tree, after: Tree, root: Path, catalog: string, logical: string, ordinal: int,
                                 writes: Option<nat>, r: Result<(), PathError>) {
    var names := Names(catalog, logical, ordinal);
    if r.Ok? then Removable(before, root, catalog, logical, ordinal) && after == Removed(before, root, names)
    else if r.error == Stopped then
      && writes.Some? && Removable(before, root, catalog, logical, ordinal) && Component(root, names, 4) in before
      && exists stage :: StoppedRemoving(before, after, root, names, stage)
    else !Removable(before, root, catalog, logical, ordinal) && after == before
  }

  class Volume {
    var fs: Tree

    /** mkdirat with the mode it ends up with. */
    method MakeDir(p: Path, mode: nat) returns (created: bool)
      modifies this
      ensures created <==> p !in old(fs)
      ensures fs == if created then old(fs)[p := Dir(Controller, mode, false)] else old(fs)
    {
      created := p !in fs;
      if created {
        fs := fs[p := Dir(Controller, mode, false)];
      }
    }

    /** Whether one more write is made; a removal without a limit is never stopped. */
    static function Spend(writes: Option<nat>): (left: Option<nat>)
      requires writes != Some(0)
      ensures left.None? <==> writes.None?
      ensures writes.Some? ==> left.value == writes.value - 1
    {
      if writes.Some? then Some(writes.value - 1) else None
    }

    /** unlinkat with AT_REMOVEDIR: refused when the directory is not empty. */
    method RemoveDir(p: Path) returns (ok: bool)
      requires p in fs && fs[p].Dir?
      modifies this
      ensures ok <==> Subtree(old(fs), p) == {}
      ensures fs == if ok then old(fs) - {p} else old(fs)
      ensures Paths(fs) == Paths(old(fs)) - if ok then 1 else 0
    {
      ok := Subtree(fs, p) == {};
      if ok {
        Unlink(p);
      }
    }

    method Unlink(p: Path)
      requires p in fs
      modifies this
      ensures fs == old(fs) - {p} && Paths(fs) == Paths(old(fs)) - 1
    {
      OneLess(fs, p);
      fs := fs - {p};
    }

    method RootChain(root: Path) returns (r: Result<(), PathError>)
      ensures r.Ok? <==> RootReached(fs, root)
      ensures r == Err(InvalidInput) <==> root == [] || exists i :: 0 <= i < |root| && root[i] in {"", ".", ".."}
      ensures r.Ok? ==> |root| < 256
      ensures r != Err(Stopped)
    {
      if root == [] || !Plain(root) {
        return Err(InvalidInput);
      }
      for i := 0 to |root|
        invariant i < CHAIN_LIMIT && forall k :: 0 < k <= i ==> IsDir(fs, root[..k])
      {
        var p := root[..i + 1];
        if p !in fs {
          return Err(MissingRoot);
        }
        if !fs[p].Dir? || i + 1 >= CHAIN_LIMIT {
          return Err(UnsafeEntry);
        }
      }
      return Ok(());
    }

    /** Opens or creates one component, stopping after `writes` writes; an existing one must be the controller's. */
    method Mkdir(parent: Path, name: string, depth: nat, raw: nat -> nat, writes: nat)
      returns (r: Result<(), PathError>, left: nat)
      requires depth <= 4
      modifies this
      ensures var p := parent + [name];
              p in old(fs) ==> && fs == old(fs) && left == writes
                               && r == if Opens(parent) && Owned(old(fs)[p], depth) then Ok(()) else Err(UnsafeEntry)
      ensures var p := parent + [name];
              p !in old(fs) ==>
                if writes == 0 then fs == old(fs) && r == Err(Stopped) && left == 0
                else if !Opens(parent) then
                  fs == old(fs)[p := After(depth, raw, 1)] && r == Err(UnsafeEntry) && left == writes - 1
                else if writes < Needed(depth) then
                  fs == old(fs)[p := After(depth, raw, writes)] && r == Err(Stopped) && left == 0
                else fs == old(fs)[p := Made(depth)] && r == Ok(()) && left == writes - Needed(depth)
    {
      var p, mode := parent + [name], ModeAt(depth);
      left := writes;
      if p !in fs && left == 0 {
        return Err(Stopped), 0;
      }
      var created := MakeDir(p, raw(mode));
      if created {
        left := left - 1;
      }
      if !fs[p].Dir? || |parent| + 1 >= CHAIN_LIMIT {
        return Err(UnsafeEntry), left;
      }
      if !created && fs[p].owner != OwnerAt(depth) {
        return Err(UnsafeEntry), left;
      }
      if created {
        if left == 0 {
          return Err(Stopped), 0;
        }
        fs, left := fs[p := fs[p].(mode := mode)], left - 1;
      }
      if depth >= 2 {
        if created {
          if left == 0 {
            return Err(Stopped), 0;
          }
          fs, left := fs[p := fs[p].(stamped := true)], left - 1;
        } else if !fs[p].stamped {
          return Err(UnsafeEntry), left;
        }
      }
      if created && depth == 4 {
        if left == 0 {
          return Err(Stopped), 0;
        }
        fs, left := fs[p := fs[p].(owner := Postgres)], left - 1;
      }
      if fs[p].owner != OwnerAt(depth) || fs[p].mode != mode {
        return Err(UnsafeEntry), left;
      }
      return Ok(()), left;
    }

    method Existing(parent: Path, name: string, depth: nat) returns (r: Result<bool, PathError>)
      ensures var p := parent + [name];
              if p !in fs then r == Ok(false)
              else if Opens(parent) && Owned(fs[p], depth) then r == Ok(true) else r == Err(UnsafeEntry)
    {
      var p := parent + [name];
      if p !in fs {
        return Ok(false);
      }
      if !fs[p].Dir? || |parent| + 1 >= CHAIN_LIMIT {
        return Err(UnsafeEntry);
      }
      if fs[p].owner != OwnerAt(depth) || fs[p].mode != ModeAt(depth) {
        return Err(UnsafeEntry);
      }
      if depth >= 2 && !fs[p].stamped {
        return Err(UnsafeEntry);
      }
      return Ok(true);
    }

    /** Accepts exactly the trees that are clean all the way down; changes nothing. */
    method CheckTree(p: Path) returns (r: Result<(), PathError>)
      requires WellFormed(fs) && IsDir(fs, p) && |p| < CHAIN_LIMIT
      ensures r.Ok? <==> Clean(fs, p)
      ensures r.Ok? <==> forall q :: q in fs && Below(p, q) ==> fs[q].File? || (fs[q].Dir? && |q| < 256)
      ensures r.Err? ==> r.error == UnsafeEntry
      decreases CHAIN_LIMIT - |p|
    {
      CleanMeaning(fs, p);
      hide Clean, WellFormed, Children;
      CleanByChildren(fs, p);
      var todo := Children(fs, p);
      while todo != {}
        invariant todo <= Children(fs, p)
        invariant forall name :: name in Children(fs, p) - todo ==> ChildClean(fs, p, name)
        decreases todo
      {
        var name :| name in todo;
        var child := p + [name];
        ChildrenMeaning(fs, p, name);
        if fs[child].Other? {
          return Err(UnsafeEntry);
        }
        if fs[child].Dir? {
          if |p| + 1 >= CHAIN_LIMIT {
            return Err(UnsafeEntry);
          }
          r := CheckTree(child);
          if r.Err? {
            return;
          }
        }
        todo := todo - {name};
      }
      return Ok(());
    }

    /**
     * Deletes below a directory, stopping after `writes` unlinks if that is a number: everything exactly when
     * the tree is clean, a part otherwise, and in either case nothing that does not lie below it.
     */
    method DeleteTree(p: Path, writes: Option<nat>) returns (r: Result<(), PathError>, left: Option<nat>)
      requires WellFormed(fs) && IsDir(fs, p) && |p| < CHAIN_LIMIT
      modifies this
      ensures WellFormed(fs) && OnlyBelow(old(fs), fs, p)
      ensures r.Ok? ==> Clean(old(fs), p) && fs == old(fs) - Subtree(old(fs), p)
      ensures r == Err(UnsafeEntry) ==> !Clean(old(fs), p)
      ensures r.Ok? || r == Err(UnsafeEntry) || (r == Err(Stopped) && writes.Some?)
      ensures left.None? <==> writes.None?
      ensures writes.Some? ==> Paths(old(fs)) - Paths(fs) == writes.value - left.value
      ensures r == Err(Stopped) ==> left == Some(0)
      decreases CHAIN_LIMIT - |p|
    {
      hide Clean, WellFormed, Children, Subtree, Part, OnlyBelow, Fine, Paths;
      ghost var whole := fs;
      CleanByChildren(whole, p);
      PartStarts(whole, p);
      left := writes;
      var todo := Children(fs, p);
      while todo != {}
        invariant todo <= Children(whole, p) && (left.None? <==> writes.None?)
        invariant writes.Some? ==> Paths(whole) - Paths(fs) == writes.value - left.value
        invariant WellFormed(fs) && fs == whole - Part(whole, p, todo)
        invariant forall name :: name in Children(whole, p) - todo ==> ChildClean(whole, p, name)
        decreases todo
      {
        var name :| name in todo;
        var child := p + [name];
        ChildrenMeaning(whole, p, name);
        PartKeepsOthers(whole, p, todo, name);
        PartGrows(whole, p, todo, name);
        PartBelow(whole, p, todo);
        SameClean(whole, fs, p, name);
        ghost var before := fs;
        if fs[child].Other? {
          return Err(UnsafeEntry), left;
        }
        if fs[child].Dir? {
          if |p| + 1 >= CHAIN_LIMIT {
            return Err(UnsafeEntry), left;
          }
          r, left := DeleteTree(child, left);
          BelowTwice(whole, before, fs, p, name);
          if r.Err? {
            return;
          }
          TrimKeepsForm(before, child);
          ChildKept(before, child);
          TrimKeepsForm(fs, child);
          if left == Some(0) {
            return Err(Stopped), left;
          }
          var removed := RemoveDir(child);
          assert removed;
        } else {
          if left == Some(0) {
            return Err(Stopped), left;
          }
          FileHasNothingBelow(before, child);
          TrimKeepsForm(before, child);
          Unlink(child);
        }
        left := Spend(left);
        todo := todo - {name};
      }
      SubtreeBelow(whole, p);
      return Ok(()), left;
    }

    /** Makes all that is missing of the components, one after another. */
    method MakeComponents(root: Path, names: Path, raw: nat -> nat, writes: nat) returns (r: Result<(), PathError>)
      requires |names| == 5
      modifies this
      ensures r.Ok? ==> Preparable(old(fs), root, names) && fs == Prepared(old(fs), root, names, 5)
      ensures r == Err(Stopped) ==> writes < 14 && StoppedIn(old(fs), fs, root, names, raw)
      ensures Preparable(old(fs), root, names) ==> r.Ok? || r == Err(Stopped)
      ensures r != Err(InvalidInput)
      ensures AddsComponents(old(fs), fs, root, names) && (r.Ok? ==> Reached(fs, root, names, 5))
    {
      var left: nat := writes;
      ghost var whole := fs;
      PreparedIff(whole, root, names);
      hide Prepared, Reached, Preparable, After, Made, Needed, Owned;
      NothingPrepared(whole, root, names);
      for i := 0 to 5
        invariant fs == Prepared(whole, root, names, i) && Reached(fs, root, names, i)
        invariant AddsComponents(whole, fs, root, names)
        invariant left + Spent(i) >= writes
      {
        var budget := left;
        assert root + names[..i] + [names[i]] == Component(root, names, i);
        PreparedKeeps(whole, root, names, 0, i);
        PreparedNext(whole, root, names, i);
        SpentAll(i);
        ghost var before := fs;
        r, left := Mkdir(root + names[..i], names[i], i, raw, budget);
        OneMore(whole, before, fs, root, names, i);
        if r == Err(Stopped) {
          assert StoppedAt(whole, fs, root, names, raw, i, budget);
          return;
        }
        if r.Err? {
          return;
        }
      }
      PreparedKeeps(whole, root, names, 0, 5);
      return Ok(());
    }

    /**
     * Creates what is missing of the five components, stopping after `writes` writes; fourteen are
     * always enough. A second call finds them all and changes nothing.
     */
    method Prepare(root: Path, catalog: string, logical: string, ordinal: int, raw: nat -> nat, writes: nat)
      returns (r: Result<(), PathError>)
      modifies this
      ensures var names := Names(catalog, logical, ordinal);
              var legal := ValidNames(catalog, logical, ordinal) && RootReached(old(fs), root);
              && (r.Ok? ==> legal && Preparable(old(fs), root, names) && fs == Prepared(old(fs), root, names, 5))
              && (r == Err(Stopped) ==> writes < 14 && legal && StoppedIn(old(fs), fs, root, names, raw))
              && (legal && Preparable(old(fs), root, names) ==> r.Ok? || r == Err(Stopped))
              && (r.Ok? && Reached(old(fs), root, names, 5) ==> fs == old(fs))
      ensures if 1 <= ordinal <= 3 then AddsOnlyTheWay(old(fs), fs, root, catalog, logical, ordinal) else fs == old(fs)
      ensures r.Ok? ==> Laid(fs, root, catalog, logical, ordinal)
      ensures r == Err(InvalidInput) <==> BadInput(root, catalog, logical, ordinal)
    {
      hide Preparable, StoppedIn, RootReached;
      if !ValidNames(catalog, logical, ordinal) {
        return Err(InvalidInput);
      }
      var names := Names(catalog, logical, ordinal);
      r := RootChain(root);
      if r.Err? {
        return;
      }
      PreparedNothing(fs, root, names, 5);
      ghost var before := fs;
      r := MakeComponents(root, names, raw, writes);
      ComponentsAreTheWay(before, fs, root, catalog, logical, ordinal);
      ReachedMeansLaid(fs, root, catalog, logical, ordinal);
    }

    /** True exactly when all five components are there; false exactly when the walk meets a missing one. */
    method Inspect(root: Path, catalog: string, logical: string, ordinal: int) returns (r: Result<bool, PathError>)
      ensures var names := Names(catalog, logical, ordinal);
              var legal := ValidNames(catalog, logical, ordinal) && RootReached(fs, root);
              && (r == Ok(true) <==> legal && Reached(fs, root, names, 5))
              && (r == Ok(false) <==> legal && MissingWithin(fs, root, names, 5))
              && (r == Ok(true) <==> legal && Laid(fs, root, catalog, logical, ordinal))
      ensures r == Ok(false) && WellFormed(fs) ==>
                forall q :: q in fs ==> !(Target(root, catalog, logical, ordinal) <= q)
      ensures r == Err(InvalidInput) <==> BadInput(root, catalog, logical, ordinal)
    {
      if !ValidNames(catalog, logical, ordinal) {
        return Err(InvalidInput);
      }
      var names := Names(catalog, logical, ordinal);
      var mounted := RootChain(root);
      if mounted.Err? {
        return Err(mounted.error);
      }
      r := Walk(root, names, 5);
      ReachedMeansLaid(fs, root, catalog, logical, ordinal);
      if r == Ok(false) && WellFormed(fs) {
        MissingMeansNothing(fs, root, catalog, logical, ordinal, 5);
        NamesSpelled(root, catalog, logical, ordinal, 4);
        assert Target(root, catalog, logical, ordinal)[..|root| + 5] == Target(root, catalog, logical, ordinal);
      }
    }

    /** True exactly when the walk over the first four components meets a missing one: nothing of the entry is left. */
    method EntryAbsent(root: Path, catalog: string, logical: string) returns (r: Result<bool, PathError>)
      ensures var names := Names(catalog, logical, 1);
              var legal := ValidNames(catalog, logical, 1) && RootReached(fs, root);
              && (r == Ok(true) <==> legal && MissingWithin(fs, root, names, 4))
              && (r == Ok(false) <==> legal && Reached(fs, root, names, 4))
      ensures r == Ok(true) && WellFormed(fs) ==>
                forall q :: q in fs ==> !(root + ["volumes", "cnpg", catalog, logical] <= q)
      ensures r == Ok(false) ==> root + ["volumes", "cnpg", catalog, logical] in fs
      ensures r == Err(InvalidInput) <==> BadInput(root, catalog, logical, 1)
    {
      if !ValidNames(catalog, logical, 1) {
        return Err(InvalidInput);
      }
      var names := Names(catalog, logical, 1);
      var mounted := RootChain(root);
      if mounted.Err? {
        return Err(mounted.error);
      }
      r := Walk(root, names, 4);
      EntrySpelled(root, catalog, logical);
      if r == Ok(true) {
        assert Stands(fs, root, names, 3);
      }
      if r == Ok(false) && WellFormed(fs) {
        MissingMeansNothing(fs, root, catalog, logical, 1, 4);
      }
      if r.Ok? {
        r := Ok(!r.value);
      }
    }

    method Walk(root: Path, names: Path, limit: nat) returns (r: Result<bool, PathError>)
      requires limit <= |names| && limit <= 5
      ensures r == Ok(true) <==> Reached(fs, root, names, limit)
      ensures r == Ok(false) <==> MissingWithin(fs, root, names, limit)
      ensures r.Err? ==> r.error == UnsafeEntry
    {
      for i := 0 to limit
        invariant Reached(fs, root, names, i)
      {
        assert root + names[..i] + [names[i]] == Component(root, names, i);
        var found := Existing(root + names[..i], names[i], i);
        if found.Err? || !found.value {
          WalkStops(fs, root, names, i, limit);
          return found;
        }
      }
      WalkArrives(fs, root, names, limit);
      return Ok(true);
    }

    /**
     * Removes exactly the ordinal subtree and the parents it emptied; a refusal changes nothing. With a limit
     * on the writes it may stop on the way, at one of the stages of `StoppedRemoving`. It never deletes a link,
     * a device or anything else that is neither a file nor a directory.
     */
    method Remove(root: Path, catalog: string, logical: string, ordinal: int, writes: Option<nat>)
      returns (r: Result<(), PathError>)
      requires WellFormed(fs)
      modifies this
      ensures RemovalOutcome(old(fs), fs, root, catalog, logical, ordinal, writes, r)
      ensures WellFormed(fs)
      ensures if 1 <= ordinal <= 3 then KeepsOthers(old(fs), fs, root, catalog, logical, ordinal) else fs == old(fs)
      ensures r.Ok? ==> forall q :: q in fs ==> !(Target(root, catalog, logical, ordinal) <= q)
      ensures forall q :: q in old(fs) && old(fs)[q].Other? ==> q in fs
      ensures r == Err(InvalidInput) <==> BadInput(root, catalog, logical, ordinal)
      ensures Counted(old(fs), fs, writes, r == Err(Stopped))
    {
      r := RemoveNamed(root, catalog, logical, ordinal, writes);
      if r.Ok? {
        RemovalLeavesNothing(old(fs), root, catalog, logical, ordinal);
      }
      if r.Ok? || r == Err(Stopped) {
        RemovalKeepsOthers(old(fs), fs, root, catalog, logical, ordinal);
        RemovalSparesOthers(old(fs), fs, root, catalog, logical, ordinal);
      }
    }

    /** Whether the ordinal is there, below verified parents. */
    method FindOrdinal(root: Path, catalog: string, logical: string, ordinal: int) returns (r: Result<bool, PathError>)
      ensures var names := Names(catalog, logical, ordinal);
              var legal := ValidNames(catalog, logical, ordinal) && RootReached(fs, root);
              && (r == Ok(true) <==> legal && Reached(fs, root, names, 5))
              && (r == Ok(false) <==> legal && Reached(fs, root, names, 4) && Component(root, names, 4) !in fs)
      ensures r == Err(InvalidInput) <==> BadInput(root, catalog, logical, ordinal)
      ensures r != Err(Stopped)
    {
      hide RootReached, Owned, IsDir, Catalog.ValidLogicalUid;
      if !ValidNames(catalog, logical, ordinal) {
        return Err(InvalidInput);
      }
      var names := Names(catalog, logical, ordinal);
      var mounted := RootChain(root);
      if mounted.Err? {
        return Err(mounted.error);
      }
      var parents := Walk(root, names, 4);
      if parents.Err? {
        return Err(parents.error);
      }
      if !parents.value {
        return Err(MissingPath);
      }
      assert root + names[..4] + [names[4]] == Component(root, names, 4);
      r := Existing(root + names[..4], names[4], 4);
      assert r == Ok(true) <==> Stands(fs, root, names, 4);
    }

    /** The walk to the ordinal, the check of its tree and its deletion. */
    method RemoveNamed(root: Path, catalog: string, logical: string, ordinal: int, writes: Option<nat>)
      returns (r: Result<(), PathError>)
      requires WellFormed(fs)
      modifies this
      ensures RemovalOutcome(old(fs), fs, root, catalog, logical, ordinal, writes, r)
      ensures WellFormed(fs)
      ensures r == Err(InvalidInput) <==> BadInput(root, catalog, logical, ordinal)
      ensures Counted(old(fs), fs, writes, r == Err(Stopped))
    {
      hide Gone, StoppedRemoving, OnlyBelow, BadInput, Clean, Names, ValidNames, RootReached, WellFormed;
      var found := FindOrdinal(root, catalog, logical, ordinal);
      var names := Names(catalog, logical, ordinal);
      OrdinalStands(fs, root, names);
      if found.Err? {
        return Err(found.error);
      }
      if !found.value {
        return Ok(());
      }
      var p := Component(root, names, 4);
      hide Reached, Component;
      r := CheckTree(p);
      if r.Err? {
        return;
      }
      ghost var before := fs;
      var left: Option<nat>;
      r, left := DeleteTree(p, writes);
      if r.Err? {
        StoppedDeleting(before, fs, root, names);
        return;
      }
      r := RemoveEmptied(before, root, names, left);
    }

    /** rmdir of the ordinal, then of its logical and catalog directories while they are empty. */
    method RemoveEmptied(ghost before: Tree, root: Path, names: Path, writes: Option<nat>)
      returns (r: Result<(), PathError>)
      requires |names| == 5 && WellFormed(before) && Reached(before, root, names, 5)
      requires WellFormed(fs) && fs == before - Subtree(before, Component(root, names, 4))
      modifies this
      ensures WellFormed(fs) && (r.Ok? || (r == Err(Stopped) && writes.Some?))
      ensures r.Ok? ==> fs == before - Gone(before, root, names)
      ensures r.Err? ==> exists stage :: StoppedRemoving(before, fs, root, names, stage)
      ensures Counted(old(fs), fs, writes, r.Err?)
    {
      hide WellFormed, Reached, Subtree, IsDir, Component, StoppedRemoving, Paths, Gone;
      var ordinal, logical, catalog := Component(root, names, 4), Component(root, names, 3), Component(root, names, 2);
      ghost var first := Subtree(before, ordinal) + {ordinal};
      Emptying(before, root, names);
      if writes == Some(0) {
        return Err(Stopped);
      }
      ghost var bare := fs;
      var removed := RemoveDir(ordinal);
      assert fs == before - first && Paths(fs) == Paths(bare) - 1;
      r := RemoveParents(before, first, logical, catalog, Spend(writes));
    }

    /** rmdir of the two parents, the first while it is empty and then the second. */
    method RemoveParents(ghost before: Tree, ghost gone: set<Path>, logical: Path, catalog: Path, writes: Option<nat>)
      returns (r: Result<(), PathError>)
      requires WellFormed(fs) && fs == before - gone && logical !in gone && catalog !in gone && logical != catalog
      requires logical in before && catalog in before && before[logical].Dir? && before[catalog].Dir?
      modifies this
      ensures WellFormed(fs) && (r.Ok? || (r == Err(Stopped) && writes.Some?))
      ensures var second := gone + {logical};
              r.Ok? ==> fs == before - if !(Subtree(before, logical) <= gone) then gone
                                       else if Subtree(before, catalog) <= second then second + {catalog} else second
      ensures r.Err? ==>
                || fs == before - gone
                || (Subtree(before, logical) <= gone && fs == before - (gone + {logical}))
      ensures Counted(old(fs), fs, writes, r.Err?)
    {
      hide WellFormed, Subtree, Paths;
      EmptyIff(before, gone, logical);
      ghost var first := fs;
      TrimKeepsForm(first, logical);
      if writes == Some(0) {
        return Err(Stopped);
      }
      var removed := RemoveDir(logical);
      if removed {
        var left := Spend(writes);
        Apart(before, gone, {logical});
        EmptyIff(before, gone + {logical}, catalog);
        ghost var second := fs;
        TrimKeepsForm(second, catalog);
        if left == Some(0) {
          return Err(Stopped);
        }
        removed := RemoveDir(catalog);
        Apart(before, gone + {logical}, {catalog});
      }
      return Ok(());
    }
  }

  /** Where the removal of the emptied directories starts from, and what it comes to. */
  lemma Emptying(before: Tree, root: Path, names: Path)
    requires |names| == 5 && WellFormed(before) && Reached(before, root, names, 5)
    ensures var ordinal, logical := Component(root, names, 4), Component(root, names, 3);
            var catalog := Component(root, names, 2);
            var below := Subtree(before, ordinal);
            var first, second := below + {ordinal}, below + {ordinal} + {logical};
            var bare := before - below;
            && ordinal in bare && bare[ordinal].Dir? && Subtree(bare, ordinal) == {}
            && bare - {ordinal} == before - first && WellFormed(before - first)
            && logical !in first && catalog !in first && logical != catalog
            && logical in before && catalog in before && before[logical].Dir? && before[catalog].Dir?
            && StoppedRemoving(before, bare, root, names, Deleting)
            && StoppedRemoving(before, before - first, root, names, OrdinalGone)
            && (Subtree(before, logical) <= first ==>
                  StoppedRemoving(before, before - second, root, names, LogicalGone))
            && Gone(before, root, names) == if !(Subtree(before, logical) <= first) then first
                                            else if Subtree(before, catalog) <= second then second + {catalog}
                                            else second
  {
    var ordinal, logical, catalog := Component(root, names, 4), Component(root, names, 3), Component(root, names, 2);
    var below := Subtree(before, ordinal);
    Components(before, root, names);
    StoppedStages(before, root, names);
    TrimKeepsForm(before, ordinal);
    TrimKeepsForm(before - below, ordinal);
    NotBelowItself(before, ordinal, ordinal);
    NotBelowItself(before, ordinal, logical);
    NotBelowItself(before, ordinal, catalog);
    hide Subtree, Component, WellFormed, Reached, StoppedRemoving;
    Apart(before, below, {ordinal});
  }

  /** The last of five standing components is a directory on the chain. */
  lemma OrdinalStands(fs: Tree, root: Path, names: Path)
    requires |names| == 5
    ensures Reached(fs, root, names, 5) ==>
              && Reached(fs, root, names, 4) && Component(root, names, 4) in fs && IsDir(fs, Component(root, names, 4))
              && |Component(root, names, 4)| < CHAIN_LIMIT
  {
    if Reached(fs, root, names, 5) {
      assert Stands(fs, root, names, 4);
    }
  }

  lemma EntrySpelled(root: Path, catalog: string, logical: string)
    ensures Component(root, Names(catalog, logical, 1), 3) == root + ["volumes", "cnpg", catalog, logical]
    ensures Target(root, catalog, logical, 1)[..|root| + 4] == root + ["volumes", "cnpg", catalog, logical]
  {
    NamesSpelled(root, catalog, logical, 1, 3);
    assert Names(catalog, logical, 1)[..4] == ["volumes", "cnpg", catalog, logical];
  }

  lemma OneMore(whole: Tree, before: Tree, after: Tree, root: Path, names: Path, i: nat)
    requires i < |names| && AddsComponents(whole, before, root, names)
    requires var p := Component(root, names, i);
             after == before || (p !in before && p in after && after == before[p := after[p]] && after[p].Dir?)
    ensures AddsComponents(whole, after, root, names)
  {
  }

  lemma StoppedDeleting(before: Tree, after: Tree, root: Path, names: Path)
    requires |names| == 5 && WellFormed(after) && OnlyBelow(before, after, Component(root, names, 4))
    ensures StoppedRemoving(before, after, root, names, Deleting)
  {
  }

  /** What the writes of the last phase leave, one after another. */
  lemma StoppedStages(before: Tree, root: Path, names: Path)
    requires |names| == 5 && WellFormed(before)
    ensures var ordinal, logical := Component(root, names, 4), Component(root, names, 3);
            var below := Subtree(before, ordinal);
            && StoppedRemoving(before, before - below, root, names, Deleting)
            && StoppedRemoving(before, before - (below + {ordinal}), root, names, OrdinalGone)
            && (Subtree(before, logical) <= below + {ordinal} ==>
                  StoppedRemoving(before, before - (below + {ordinal} + {logical}), root, names, LogicalGone))
  {
    TrimKeepsForm(before, Component(root, names, 4));
    SubtreeBelow(before, Component(root, names, 4));
  }
}
